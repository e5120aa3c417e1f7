/** The life of a stashed row: it stays hidden exactly while the on-result phase is reached, and a template
    is stashed again only after its row was returned and its release was spent. */
module StashCycle {
  import opened Models
  import opened Decisions
  import opened Faults
  import opened Session
  import opened Adapters
  import opened Transforms
  import opened Invariants
  import opened StepInvariants
  import opened HouseMoves
  import H = House
  import AR = AutoReturn
  import M = MoodEngine
  import G = EventGrammar

  // ----- What the house is like after every run -----

  /** Ids, locations and templates are unique, the capacity holds, and no treasured template is released. */
  lemma HouseAfterRuns(cfg: Config, force: bool, ops: seq<Operation>)
    ensures var house := After(cfg, force, ops).house;
            && |house.treasures| <= cfg.houseLimit
            && (forall t, u | t in house.treasures && u in house.treasures && t != u ::
                  t.treasureId != u.treasureId && t.context.template != u.context.template)
            && (forall t | t in house.treasures :: t.context.template !in house.released)
  {
    Reachable(cfg, force, ops);
    var ts := After(cfg, force, ops).house.treasures;
    hide After;
    forall t, u | t in ts && u in ts && t != u
      ensures t.treasureId != u.treasureId && t.context.template != u.context.template
    {
      H.DistinctMembers(ts, t, u);
      DifferentTemplates(ts, t, u);
    }
  }

  lemma {:induction false} DifferentTemplates(ts: seq<Treasure>, t: Treasure, u: Treasure)
    requires OnePerTemplate(ts) && t in ts && u in ts && t != u
    ensures t.context.template != u.context.template
  {
    assert ts == [ts[0]] + ts[1..];
    if t != ts[0] && u != ts[0] {
      DifferentTemplates(ts[1..], t, u);
    }
  }

  lemma {:induction false} TheOne(ts: seq<Treasure>, t: Treasure)
    requires OnePerTemplate(ts) && t in ts
    ensures H.ActiveFor(ts, t.context.template) == [t]
  {
    assert ts == [ts[0]] + ts[1..];
    if t == ts[0] {
      NoneActive(ts[1..], t.context.template);
    } else {
      TheOne(ts[1..], t);
    }
  }

  lemma {:induction false} NoneActive(ts: seq<Treasure>, template: string)
    requires forall t | t in ts :: t.context.template != template
    ensures H.ActiveFor(ts, template) == []
  {
    if ts != [] {
      assert ts[0] in ts && forall t | t in ts[1..] :: t in ts;
      NoneActive(ts[1..], template);
    }
  }

  // ----- Stickiness -----

  /** A treasured row that the backend answered again is left out exactly when the on-result phase runs,
      the result is not too large to intervene in, and the response is not dropped. */
  lemma StaysHidden(cfg: Config, force: bool, s: State, call: Call, cls: Classification, slowed: bool,
                    result: LogicalResult, t: Treasure)
    requires OnePerTemplate(s.house.treasures) && t in s.house.treasures && t.context.template == call.template
    requires t.rowIndex < |result.rows|
    ensures ResultPhase(cfg, force, s, call, cls, slowed, result).1 ==
              Delivered(WithRows(result, WithoutRow(result.rows, t.rowIndex)))
      <==> && Intervenes(cfg, force, s.mood.mood, cls, slowed, |result.rows|)
           && |result.rows| <= cfg.maxInterventionRows
           && !Drops(cfg, s, DecisionFor(cfg, call, OnResult))
  {
    hide Drops, DecisionFor, Faults.OnResult, HasEffectiveWeight, OnePerTemplate, Cached;
    DecisionKeyLength(cfg, call, OnResult);
    if cls.kind == SELECT {
      HiddenOnResult(cfg, s, DecisionFor(cfg, call, OnResult), cls, result, t);
    }
    assert |WithoutRow(result.rows, t.rowIndex)| == |result.rows| - 1;
  }

  /** A treasured row that the backend answered again is delivered, with the whole result, exactly when the phase is
      skipped or lets the result pass for its size; otherwise the row is left out or the client gets an error. */
  lemma Reappears(cfg: Config, force: bool, s: State, call: Call, cls: Classification, slowed: bool,
                  result: LogicalResult, t: Treasure)
    requires OnePerTemplate(s.house.treasures) && t in s.house.treasures && t.context.template == call.template
    requires t.rowIndex < |result.rows|
    ensures var answer := ResultPhase(cfg, force, s, call, cls, slowed, result).1;
            && (answer == Delivered(result) <==>
                  || !Intervenes(cfg, force, s.mood.mood, cls, slowed, |result.rows|)
                  || (|result.rows| > cfg.maxInterventionRows && !cfg.policy.maxRowsError))
            && (answer == Delivered(result) || answer.Raised?
                || answer == Delivered(WithRows(result, WithoutRow(result.rows, t.rowIndex))))
  {
    hide DecisionFor, Faults.OnResult, HasEffectiveWeight, OnePerTemplate, Cached;
    DecisionKeyLength(cfg, call, OnResult);
    if cls.kind == SELECT {
      ReappearsOnResult(cfg, s, DecisionFor(cfg, call, OnResult), cls, result, t);
    }
  }

  lemma ReappearsOnResult(cfg: Config, s: State, d: Decision, cls: Classification, result: LogicalResult, t: Treasure)
    requires OnePerTemplate(s.house.treasures) && t in s.house.treasures && t.context.template == d.context.template
    requires t.rowIndex < |result.rows| && cls.kind == SELECT
    ensures var answer := Faults.OnResult(cfg, s, d, cls, result).1;
            && (answer == Delivered(result) <==> |result.rows| > cfg.maxInterventionRows && !cfg.policy.maxRowsError)
            && (answer == Delivered(result) || answer.Raised?
                || answer == Delivered(WithRows(result, WithoutRow(result.rows, t.rowIndex))))
  {
    TheOne(s.house.treasures, t);
    HidingOneRow(result.rows, t.rowIndex);
    assert HiddenRows([t]) == {t.rowIndex};
    hide Visible, H.ActiveFor, Drops, NextEventId, Treated, OnePerTemplate;
    assert |WithoutRow(result.rows, t.rowIndex)| == |result.rows| - 1;
  }

  lemma HiddenOnResult(cfg: Config, s: State, d: Decision, cls: Classification, result: LogicalResult, t: Treasure)
    requires OnePerTemplate(s.house.treasures) && t in s.house.treasures && t.context.template == d.context.template
    requires t.rowIndex < |result.rows| && cls.kind == SELECT
    ensures Faults.OnResult(cfg, s, d, cls, result).1 == Delivered(WithRows(result, WithoutRow(result.rows, t.rowIndex)))
      <==> |result.rows| <= cfg.maxInterventionRows && !Drops(cfg, s, d)
  {
    TheOne(s.house.treasures, t);
    HidingOneRow(result.rows, t.rowIndex);
    assert HiddenRows([t]) == {t.rowIndex};
    hide Visible, H.ActiveFor, Drops, NextEventId, Treated, OnePerTemplate;
    assert |WithoutRow(result.rows, t.rowIndex)| == |result.rows| - 1;
  }

  // ----- One operation -----

  predicate Active(s: State, template: string) { template in H.Templates(s.house.treasures) }

  predicate Released(s: State, template: string) { template in s.house.released }

  /** The log grew by a return of this template's treasure. */
  ghost predicate ReturnLogged(s: State, s': State, template: string) {
    s.log <= s'.log && exists e | e in s'.log[|s.log|..] ::
      e.eventType == TreasureReturned && e.context.Some? && e.context.value.template == template
  }

  /** Returning: a treasure either stays or leaves a release and an event behind; nothing else changes. */
  ghost predicate Returns(s: State, s': State, template: string) {
    && s.log <= s'.log
    && (Active(s, template) ==> Active(s', template) || (Released(s', template) && ReturnLogged(s, s', template)))
    && (!Active(s, template) ==> !Active(s', template) && Released(s', template) == Released(s, template))
    && (Released(s, template) ==> Released(s', template))
  }

  lemma GiveBackReturns(cfg: Config, s: State, id: string, phase: Phase, template: string)
    ensures Returns(s, GiveBack(cfg, s, id, phase), template)
  {
    hide NextEventId;
    var found, s' := H.Find(s.house.treasures, id), GiveBack(cfg, s, id, phase);
    H.FindFacts(s.house.treasures, id);
    assert s.log[|s.log|..] == [];
    if found.Some? {
      WithoutMembers(s.house.treasures, id);
      assert s'.log[|s.log|..] == [s'.log[|s.log|]];
      if Active(s, template) && !Active(s', template) {
        var t :| t in s.house.treasures && t.context.template == template;
        assert t !in s'.house.treasures;
        assert t == found.value;
        assert s'.log[|s.log|] in s'.log[|s.log|..];
      }
      assert forall x | x in H.Templates(s'.house.treasures) :: x in H.Templates(s.house.treasures);
    }
  }

  lemma {:induction false} WithoutMembers(ts: seq<Treasure>, id: string)
    requires H.Find(ts, id).Some?
    ensures forall t | t in H.Without(ts, id) :: t in ts
    ensures forall t | t in ts && t !in H.Without(ts, id) :: t == H.Find(ts, id).value
  {
    assert ts == [ts[0]] + ts[1..];
    if ts[0].treasureId != id {
      WithoutMembers(ts[1..], id);
    }
  }

  lemma ReturnsCompose(s: State, s1: State, s2: State, template: string)
    requires Returns(s, s1, template) && Returns(s1, s2, template)
    ensures Returns(s, s2, template)
  {
    assert s2.log[|s.log|..] == s1.log[|s.log|..] + s2.log[|s1.log|..];
  }

  lemma ReturnsFrame(s: State, s': State, template: string)
    requires s'.house == s.house && s.log <= s'.log
    ensures Returns(s, s', template)
  {
  }

  lemma {:induction false} GiveBackAllReturns(cfg: Config, s: State, ids: seq<string>, phase: Phase, template: string)
    ensures Returns(s, GiveBackAll(cfg, s, ids, phase), template)
  {
    if ids == [] {
      ReturnsFrame(s, s, template);
    } else {
      GiveBackAllReturns(cfg, s, ids[..|ids| - 1], phase, template);
      GiveBackAllStep(cfg, s, ids, phase);
      hide Returns, GiveBackAll, GiveBack;
      var s1 := GiveBackAll(cfg, s, ids[..|ids| - 1], phase);
      GiveBackReturns(cfg, s1, ids[|ids| - 1], phase, template);
      ReturnsCompose(s, s1, GiveBackAll(cfg, s, ids, phase), template);
    }
  }

  lemma BeginReturns(cfg: Config, s: State, template: string)
    ensures Returns(s, BeginOperation(cfg, s), template)
  {
    hide GiveBackAll, M.Advanced, M.Transition, AR.Due, AR.Advanced, Returns, NextEventId;
    var s0 := s.(tick := s.tick + 1);
    var s1 := s0.(schedule := AR.Advanced(s0.schedule, s0.tick));
    GiveBackAllReturns(cfg, s1, AR.Due(s0.schedule, s0.tick), AutoReturn, template);
    ReturnsFrame(s, s, template);
    ReturnsFrame(s, s0, template);
    ReturnsFrame(s, s1, template);
    var s2 := ReturnDue(cfg, s0);
    if cfg.autoReturn.Some? {
      ReturnsCompose(s, s1, s2, template);
    }
    ReturnsFrame(s2, AdvanceMood(cfg, s2), template);
    ReturnsCompose(s, s2, AdvanceMood(cfg, s2), template);
  }

  /** What a clocked or passed-through part of an operation can do is only to return. What a statement's result
      phase can do to a template is: nothing, spend its release, or stash a row of it if it has neither. */
  ghost predicate Treats(s: State, s': State, template: string) {
    && (Active(s, template) ==> Active(s', template) && Released(s', template) == Released(s, template))
    && (Released(s, template) && !Active(s, template) ==> !Active(s', template))
    && (!Released(s, template) ==> !Released(s', template))
  }

  lemma {:induction false} ActiveForEmpty(ts: seq<Treasure>, template: string)
    ensures H.ActiveFor(ts, template) == [] <==> template !in H.Templates(ts)
  {
    if ts != [] {
      ActiveForEmpty(ts[1..], template);
      assert ts == [ts[0]] + ts[1..];
    }
  }

  lemma MovesTreat(cfg: Config, s: State, s': State, own: string, template: string)
    requires Moves(cfg, s.house, s'.house, own) && (Active(s, template) ==> !Released(s, template))
    ensures Treats(s, s', template)
  {
    hide H.ActiveFor;
    var ts, ts' := s.house.treasures, s'.house.treasures;
    ActiveForEmpty(ts, own);
    if Admission(cfg, s.house, ts', own) {
      assert ts' == ts + [ts'[|ts|]];
      assert H.Templates(ts') == H.Templates(ts) + {own};
    }
  }

  /** The state in which the statement itself starts: after the clock, before the counters. */
  function Opened(cfg: Config, s: State, op: Operation): State {
    if op.Execute? || op.ExecuteMany? then BeginOperation(cfg, s) else s
  }

  lemma HouseUnique(cfg: Config, s: State, template: string)
    requires Inv(cfg, s)
    ensures Active(s, template) ==> !Released(s, template)
  {
  }

  /** Every operation first returns what is due; a statement then treats its template; a manual return returns. */
  lemma StepMoves(cfg: Config, force: bool, s: State, op: Operation, template: string)
    requires Inv(cfg, s)
    ensures var s0, s' := Opened(cfg, s, op), Step(cfg, force, s, op).0;
            Returns(s, s0, template) && if op.Execute? || op.ExecuteMany? then Treats(s0, s', template)
                                        else Returns(s0, s', template)
  {
    match op {
      case Execute(_, _, _, _) =>
        BeginReturns(cfg, s, template);
        BeginKeeps(cfg, s);
        var s0 := BeginOperation(cfg, s);
        assert Active(s0, template) ==> !Released(s0, template);
        hide BeginOperation, Intervene, Returns, Moves, Treats, Core, Timed, CacheOk, MoodOk;
        if PassthroughReason(op.params, op.cls) == None {
          var call := CallFor(cfg, s0, op);
          InterveneMoves(cfg, force, Begin(s0, call), call, op.cls, op.reply);
          MovesTreat(cfg, s0, Step(cfg, force, s, op).0, call.template, template);
        } else {
          Unmoved(cfg, s0.house, template);
          MovesTreat(cfg, s0, s0, template, template);
        }
      case ExecuteMany(_) =>
        BeginReturns(cfg, s, template);
        BeginKeeps(cfg, s);
        var s0 := BeginOperation(cfg, s);
        Unmoved(cfg, s0.house, template);
        MovesTreat(cfg, s0, s0, template, template);
      case ReturnTreasure(id) =>
        hide GiveBack, Returns;
        ReturnsFrame(s, s, template);
        ReturnsFrame(s, Cancel(cfg, s, id), template);
        GiveBackReturns(cfg, Cancel(cfg, s, id), id, ManualReturn, template);
        ReturnsCompose(s, Cancel(cfg, s, id), GiveBack(cfg, Cancel(cfg, s, id), id, ManualReturn), template);
      case ReturnAll =>
        ReturnsFrame(s, s, template);
        ReturnAllReturns(cfg, s, template);
    }
  }

  lemma ReturnLoggedExtends(s: State, s1: State, s2: State, template: string)
    requires s.log <= s1.log <= s2.log
    requires ReturnLogged(s, s1, template) || ReturnLogged(s1, s2, template)
    ensures ReturnLogged(s, s2, template)
  {
    assert s2.log[|s.log|..] == s1.log[|s.log|..] + s2.log[|s1.log|..];
  }

  lemma LogReturnLogs(cfg: Config, s: State, t: Treasure, phase: Phase)
    ensures ReturnLogged(s, LogReturn(cfg, s, t, phase), t.context.template)
  {
    hide NextEventId;
    var s' := LogReturn(cfg, s, t, phase);
    assert s'.log[|s.log|..] == [s'.log[|s.log|]];
    assert s'.log[|s.log|] in s'.log[|s.log|..];
  }

  lemma {:induction false} CancelAndLogEvents(cfg: Config, s: State, all: seq<Treasure>, k: nat)
    requires k <= |all|
    ensures var s' := CancelAndLog(cfg, s, all[..k]);
            && s.log <= s'.log && s'.house == s.house
            && forall i | 0 <= i < k :: ReturnLogged(s, s', all[i].context.template)
  {
    hide CancelAndLog, LogReturn, ReturnLogged;
    if k > 0 {
      CancelAndLogEvents(cfg, s, all, k - 1);
      CancelAndLogStep(cfg, s, all, k);
      var s1, s' := CancelAndLog(cfg, s, all[..k - 1]), CancelAndLog(cfg, s, all[..k]);
      var s2 := Cancel(cfg, s1, all[k - 1].treasureId);
      LogReturnLogs(cfg, s2, all[k - 1], ManualReturn);
      LogReturnFrameLog(cfg, s2, all[k - 1], ManualReturn);
      forall i | 0 <= i < k ensures ReturnLogged(s, s', all[i].context.template) {
        if i < k - 1 {
          ReturnLoggedExtends(s, s1, s', all[i].context.template);
        } else {
          ReturnLoggedExtends(s, s2, s', all[i].context.template);
        }
      }
    } else {
      CancelAndLogNone(cfg, s, all);
    }
  }

  lemma LogReturnFrameLog(cfg: Config, s: State, t: Treasure, phase: Phase)
    ensures s.log <= LogReturn(cfg, s, t, phase).log && LogReturn(cfg, s, t, phase).house == s.house
  {
    hide NextEventId;
  }

  lemma ReturnAllReturns(cfg: Config, s: State, template: string)
    ensures Returns(s, Step(cfg, false, s, ReturnAll).0, template)
    ensures forall force :: Step(cfg, force, s, ReturnAll) == Step(cfg, false, s, ReturnAll)
  {
    hide CancelAndLog, ReturnLogged;
    var ts := s.house.treasures;
    var emptied := s.(house := H.AllReturned(s.house));
    CancelAndLogEvents(cfg, emptied, ts, |ts|);
    assert ts[..|ts|] == ts;
    if Active(s, template) {
      var t :| t in ts && t.context.template == template;
      var i :| 0 <= i < |ts| && ts[i] == t;
      SameStart(s, emptied, CancelAndLog(cfg, emptied, ts), template);
    }
  }

  lemma SameStart(s: State, s1: State, s': State, template: string)
    requires s1.log == s.log
    ensures ReturnLogged(s, s', template) == ReturnLogged(s1, s', template)
  {
  }

  // ----- Between two stashes -----

  /** The j-th operation puts a treasure of the template in the house once it has opened. */
  predicate StashesAt(cfg: Config, force: bool, ops: seq<Operation>, j: nat, template: string)
    requires j < |ops|
  {
    && !Active(Opened(cfg, After(cfg, force, ops[..j]), ops[j]), template)
    && Active(After(cfg, force, ops[..j + 1]), template)
  }

  /** The template's release is there when the j-th operation has opened, and gone after it without a treasure instead. */
  predicate SpendsAt(cfg: Config, force: bool, ops: seq<Operation>, j: nat, template: string)
    requires j < |ops|
  {
    && Released(Opened(cfg, After(cfg, force, ops[..j]), ops[j]), template)
    && !Released(After(cfg, force, ops[..j + 1]), template)
    && !Active(After(cfg, force, ops[..j + 1]), template)
  }

  lemma AfterNext(cfg: Config, force: bool, ops: seq<Operation>, j: nat)
    requires j < |ops|
    ensures After(cfg, force, ops[..j + 1]) == Step(cfg, force, After(cfg, force, ops[..j]), ops[j]).0
  {
    hide Step;
    assert ops[..j + 1][..j] == ops[..j];
  }

  /** One operation keeps a template treasured or released, with a logged return when it goes from one
      to the other, or spends its release. */
  lemma HeldThroughStep(cfg: Config, force: bool, ops: seq<Operation>, j: nat, template: string)
    requires j < |ops|
    ensures var s, s' := After(cfg, force, ops[..j]), After(cfg, force, ops[..j + 1]);
            && s.log <= s'.log
            && (Active(s, template) ==>
                  || Active(s', template)
                  || ((Released(s', template) || SpendsAt(cfg, force, ops, j, template)) && ReturnLogged(s, s', template)))
            && (Released(s, template) ==> Released(s', template) || SpendsAt(cfg, force, ops, j, template))
            && (SpendsAt(cfg, force, ops, j, template) ==> !Active(s', template))
            && (SpendsAt(cfg, force, ops, j, template) && Active(s, template) ==>
                  ReturnLogged(s, Opened(cfg, s, ops[j]), template))
            && s.log <= Opened(cfg, s, ops[j]).log
            && (StashesAt(cfg, force, ops, j, template) ==> !Active(s, template) && !Released(s, template))
  {
    hide Inv, Step, After, Opened, Active, Released, ReturnLogged, Returns, Treats;
    Reachable(cfg, force, ops[..j]);
    AfterNext(cfg, force, ops, j);
    var s, op := After(cfg, force, ops[..j]), ops[j];
    StepMoves(cfg, force, s, op, template);
    StepLogGrows(cfg, force, s, op);
    HouseUnique(cfg, s, template);
    OpenedUnchanged(cfg, s, op);
    HeldThroughMoves(s, Opened(cfg, s, op), Step(cfg, force, s, op).0, op.Execute? || op.ExecuteMany?, template);
  }

  lemma OpenedUnchanged(cfg: Config, s: State, op: Operation)
    ensures op.Execute? || op.ExecuteMany? || Opened(cfg, s, op) == s
  {
    hide BeginOperation;
  }

  lemma HeldThroughMoves(s: State, s0: State, s': State, statement: bool, template: string)
    requires s.log <= s0.log <= s'.log && (Active(s, template) ==> !Released(s, template))
    requires !statement ==> s0 == s
    requires Returns(s, s0, template)
    requires if statement then Treats(s0, s', template) else Returns(s0, s', template)
    ensures var spends := Released(s0, template) && !Released(s', template) && !Active(s', template);
            && (Active(s, template) ==>
                  || Active(s', template)
                  || ((Released(s', template) || spends) && ReturnLogged(s, s', template)))
            && (Released(s, template) ==> Released(s', template) || spends)
            && (spends && Active(s, template) ==> ReturnLogged(s, s0, template))
            && (!Active(s0, template) && Active(s', template) ==> !Active(s, template) && !Released(s, template))
  {
    hide H.Templates;
    assert s'.log[|s.log|..] == s0.log[|s.log|..] + s'.log[|s0.log|..];
  }

  lemma StepLogGrows(cfg: Config, force: bool, s: State, op: Operation)
    ensures s.log <= Opened(cfg, s, op).log <= Step(cfg, force, s, op).0.log
  {
    match op {
      case Execute(_, _, _, _) => G.StatementGrammar(cfg, force, s, op);
      case ExecuteMany(_) => G.OpeningGrammar(cfg, s);
      case ReturnTreasure(id) => hide NextEventId;
      case ReturnAll => CancelAndLogEvents(cfg, s.(house := H.AllReturned(s.house)), s.house.treasures, |s.house.treasures|);
        assert s.house.treasures[..|s.house.treasures|] == s.house.treasures;
    }
  }

  /** Between two stashes of one template its row was returned and then its release was spent. */
  lemma {:induction false} ReturnAndSpendBetween(cfg: Config, force: bool, ops: seq<Operation>, i: nat, j: nat,
                                                 template: string)
    requires i < j < |ops| && StashesAt(cfg, force, ops, i, template) && StashesAt(cfg, force, ops, j, template)
    ensures exists k | i < k < j :: ReturnsAndSpendsAt(cfg, force, ops, i, k, template)
  {
    hide ReturnsAndSpendsAt;
    HeldThroughStep(cfg, force, ops, j, template);
    FirstSpend(cfg, force, ops, i, i + 1, j, template);
  }

  /** The k-th operation spends the template's release, after a return that the i-th operation had not logged yet. */
  ghost predicate ReturnsAndSpendsAt(cfg: Config, force: bool, ops: seq<Operation>, i: nat, k: nat, template: string)
    requires i < k < |ops|
  {
    && SpendsAt(cfg, force, ops, k, template)
    && ReturnLogged(After(cfg, force, ops[..i + 1]), Opened(cfg, After(cfg, force, ops[..k]), ops[k]), template)
  }

  /** Walks from a stash to the operation that spends the release. */
  lemma {:induction false} FirstSpend(cfg: Config, force: bool, ops: seq<Operation>, i: nat, k: nat, m: nat,
                                      template: string)
    requires i < k <= m < |ops| && After(cfg, force, ops[..i + 1]).log <= After(cfg, force, ops[..k]).log
    requires var start, s := After(cfg, force, ops[..i + 1]), After(cfg, force, ops[..k]);
             Active(s, template) || (Released(s, template) && ReturnLogged(start, s, template))
    requires !Active(After(cfg, force, ops[..m]), template) && !Released(After(cfg, force, ops[..m]), template)
    ensures exists n | i < n < m :: ReturnsAndSpendsAt(cfg, force, ops, i, n, template)
    decreases m - k
  {
    hide After, Opened, SpendsAt, StashesAt, Active, Released, ReturnLogged;
    if k < m {
      HeldThroughStep(cfg, force, ops, k, template);
      var start, s, s' := After(cfg, force, ops[..i + 1]), After(cfg, force, ops[..k]), After(cfg, force, ops[..k + 1]);
      var s0 := Opened(cfg, s, ops[k]);
      if SpendsAt(cfg, force, ops, k, template) {
        ReturnLoggedExtends(start, s, s0, template);
        assert ReturnsAndSpendsAt(cfg, force, ops, i, k, template);
      } else {
        if ReturnLogged(start, s, template) || ReturnLogged(s, s', template) {
          ReturnLoggedExtends(start, s, s', template);
        }
        FirstSpend(cfg, force, ops, i, k + 1, m, template);
      }
    }
  }
}
