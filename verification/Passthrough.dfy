/** Operations that pass through leave no trace in a session without a clock, and occurrences count
    exactly the statements that take part. */
module Passthrough {
  import opened Models
  import opened SqlNormalizer
  import opened Decisions
  import opened Faults
  import opened Session
  import opened Adapters
  import opened Invariants
  import opened StepInvariants
  import opened StaleReads
  import D = DomainSeparation

  predicate PassesThrough(op: Operation) {
    op.ExecuteMany? || (op.Execute? && PassthroughReason(op.params, op.cls).Some?)
  }

  /** The run without its passed-through operations. */
  function Kept(ops: seq<Operation>): seq<Operation> {
    if ops == [] then []
    else Kept(ops[..|ops| - 1]) + if PassesThrough(ops[|ops| - 1]) then [] else [ops[|ops| - 1]]
  }

  lemma PassthroughIsIdle(cfg: Config, force: bool, s: State, op: Operation)
    requires !cfg.Clocked() && PassesThrough(op)
    ensures Step(cfg, force, s, op).0 == s
  {
  }

  lemma {:induction false} KeptPrefix(ops: seq<Operation>, n: nat)
    requires n <= |ops|
    ensures Kept(ops[..n]) <= Kept(ops)
    ensures n < |ops| && !PassesThrough(ops[n]) ==>
      |Kept(ops[..n])| < |Kept(ops)| && Kept(ops)[|Kept(ops[..n])|] == ops[n]
  {
    if n < |ops| {
      var front := ops[..|ops| - 1];
      if n < |front| {
        KeptPrefix(front, n);
        assert front[..n] == ops[..n];
      } else {
        assert front == ops[..n];
      }
    } else {
      assert ops[..n] == ops;
    }
  }

  /** Without a clock, deleting the passed-through operations changes no state and no answer that is left. */
  lemma {:induction false} PassthroughErasure(cfg: Config, force: bool, ops: seq<Operation>)
    requires !cfg.Clocked()
    ensures After(cfg, force, ops) == After(cfg, force, Kept(ops))
    ensures forall j | 0 <= j < |ops| && !PassesThrough(ops[j]) ::
      var k := |Kept(ops[..j])|;
      && k < |Kept(ops)| && Kept(ops)[k] == ops[j]
      && Answer(cfg, force, ops, j) == Answer(cfg, force, Kept(ops), k)
  {
    StatesErase(cfg, force, ops);
    forall j | 0 <= j < |ops| && !PassesThrough(ops[j])
      ensures var k := |Kept(ops[..j])|;
        && k < |Kept(ops)| && Kept(ops)[k] == ops[j]
        && Answer(cfg, force, ops, j) == Answer(cfg, force, Kept(ops), k)
    {
      hide Step, After;
      KeptPrefix(ops, j);
      StatesErase(cfg, force, ops[..j]);
      assert Kept(ops)[..|Kept(ops[..j])|] == Kept(ops[..j]);
    }
  }

  lemma {:induction false} StatesErase(cfg: Config, force: bool, ops: seq<Operation>)
    requires !cfg.Clocked()
    ensures After(cfg, force, ops) == After(cfg, force, Kept(ops))
  {
    if ops != [] {
      var front, last := ops[..|ops| - 1], ops[|ops| - 1];
      StatesErase(cfg, force, front);
      if PassesThrough(last) {
        PassthroughIsIdle(cfg, force, After(cfg, force, front), last);
        assert Kept(ops) == Kept(front);
      } else {
        var kept := Kept(ops);
        assert kept[..|kept| - 1] == Kept(front) && kept[|kept| - 1] == last;
        hide Step;
      }
    }
  }

  // ----- Occurrences -----

  /** How many of the operations take part with this template. */
  function TakingPart(cfg: Config, ops: seq<Operation>, template: string): nat {
    if ops == [] then 0
    else
      var last := ops[|ops| - 1];
      TakingPart(cfg, ops[..|ops| - 1], template) +
      if TakesPart(last) && TemplateFingerprint(cfg.session.sha256, last.sql) == template then 1 else 0
  }

  lemma StepCounts(cfg: Config, force: bool, s: State, op: Operation, template: string)
    requires Inv(cfg, s)
    ensures CountOf(Step(cfg, force, s, op).0.occurrences, template) == CountOf(s.occurrences, template) +
      if TakesPart(op) && TemplateFingerprint(cfg.session.sha256, op.sql) == template then 1 else 0
  {
    hide Core, Timed, MoodOk, BeginOperation, GiveBack, CancelAndLog, Intervene, TemplateFingerprint;
    match op {
      case Execute(_, _, _, _) =>
        BeginKeeps(cfg, s);
        var s0 := BeginOperation(cfg, s);
        if TakesPart(op) {
          var call := CallFor(cfg, s0, op);
          CacheOkFrame(cfg, s, s0);
          BegunCache(cfg, s0, call);
          BegunFrame(cfg, s0, call);
          hide CacheOk, CacheBelow;
          InterveneKeeps(cfg, force, Begin(s0, call), call, op.cls, op.reply);
        }
      case ExecuteMany(_) => BeginKeeps(cfg, s);
      case ReturnTreasure(id) => ReturnTreasureKeeps(cfg, s, id);
      case ReturnAll => ReturnAllKeeps(cfg, force, s);
    }
  }

  lemma {:induction false} CountersCount(cfg: Config, force: bool, ops: seq<Operation>, template: string)
    ensures CountOf(After(cfg, force, ops).occurrences, template) == TakingPart(cfg, ops, template)
  {
    if ops != [] {
      var front := ops[..|ops| - 1];
      CountersCount(cfg, force, front, template);
      Reachable(cfg, force, front);
      hide Inv, Step, TemplateFingerprint;
      StepCounts(cfg, force, After(cfg, force, front), ops[|ops| - 1], template);
    }
  }

  /** A statement's occurrence is one more than the number of earlier statements of its template that took part,
      whatever became of them. */
  lemma OccurrenceIsRank(cfg: Config, force: bool, ops: seq<Operation>, j: nat)
    requires j < |ops| && TakesPart(ops[j])
    ensures CallAt(cfg, force, ops, j).occurrence ==
            1 + TakingPart(cfg, ops[..j], TemplateFingerprint(cfg.session.sha256, ops[j].sql))
  {
    hide TemplateFingerprint, Inv, After;
    CountersCount(cfg, force, ops[..j], TemplateFingerprint(cfg.session.sha256, ops[j].sql));
    Reachable(cfg, force, ops[..j]);
    BegunOccurrences(cfg, After(cfg, force, ops[..j]));
  }

  lemma BegunOccurrences(cfg: Config, s: State)
    requires Inv(cfg, s)
    ensures BeginOperation(cfg, s).occurrences == s.occurrences
  {
    BeginKeeps(cfg, s);
  }

  /** How many of the operations take part with this normal form. */
  function SameForm(ops: seq<Operation>, form: string): nat {
    if ops == [] then 0
    else SameForm(ops[..|ops| - 1], form) +
         if TakesPart(ops[|ops| - 1]) && Normalized(ops[|ops| - 1].sql) == form then 1 else 0
  }

  /** While the hash does not collide on the run's normal forms, templates are normal forms. */
  ghost predicate NoCollision(cfg: Config, ops: seq<Operation>, sql: string) {
    forall op | op in ops && op.Execute? ::
      cfg.session.sha256(Normalized(op.sql)) == cfg.session.sha256(Normalized(sql)) ==> Normalized(op.sql) == Normalized(sql)
  }

  lemma {:induction false} TemplatesAreForms(cfg: Config, ops: seq<Operation>, sql: string)
    requires NoCollision(cfg, ops, sql)
    ensures TakingPart(cfg, ops, TemplateFingerprint(cfg.session.sha256, sql)) == SameForm(ops, Normalized(sql))
  {
    if ops != [] {
      var last := ops[|ops| - 1];
      TemplatesAreForms(cfg, ops[..|ops| - 1], sql);
      hide Normalized;
      if TakesPart(last) &&
         TemplateFingerprint(cfg.session.sha256, last.sql) == TemplateFingerprint(cfg.session.sha256, sql) {
        TaggedInjective(cfg.session.sha256(Normalized(last.sql)), cfg.session.sha256(Normalized(sql)));
      }
    }
  }

  lemma {:induction false} HexInjective(a: seq<Byte>, b: seq<Byte>)
    requires |a| == |b| && Hex(a) == Hex(b)
    ensures a == b
  {
    if a != [] {
      var x, y := Hex(a), Hex(b);
      assert x[2..] == Hex(a[1..]) && y[2..] == Hex(b[1..]);
      HexInjective(a[1..], b[1..]);
      assert x[0] == Digit(a[0] / 16) && x[1] == Digit(a[0] % 16);
      assert y[0] == Digit(b[0] / 16) && y[1] == Digit(b[0] % 16);
      hide Hex, Digit;
      D.DigitInjective(a[0] / 16, b[0] / 16);
      D.DigitInjective(a[0] % 16, b[0] % 16);
      assert a == [a[0]] + a[1..] && b == [b[0]] + b[1..];
    }
  }

  lemma TaggedInjective(a: Digest, b: Digest)
    requires Tagged(a) == Tagged(b)
    ensures a == b
  {
    assert Tagged(a)[7..] == Hex(a) && Tagged(b)[7..] == Hex(b);
    HexInjective(a, b);
  }

  /** Without collisions, the occurrence counts the earlier statements that took part with the same normal form. */
  lemma OccurrenceOfNormalForm(cfg: Config, force: bool, ops: seq<Operation>, j: nat)
    requires j < |ops| && TakesPart(ops[j]) && NoCollision(cfg, ops[..j], ops[j].sql)
    ensures CallAt(cfg, force, ops, j).occurrence == 1 + SameForm(ops[..j], Normalized(ops[j].sql))
  {
    OccurrenceIsRank(cfg, force, ops, j);
    TemplatesAreForms(cfg, ops[..j], ops[j].sql);
  }
}
