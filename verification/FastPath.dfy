/** Skipping decisions that cannot fire: exactly when that changes a statement, and when it never does. */
module FastPath {
  import opened Models
  import opened Decisions
  import opened Faults
  import opened Session
  import opened Adapters
  import opened Transforms
  import opened StepInvariants
  import opened HouseMoves
  import H = House
  import AR = AutoReturn
  import M = MoodEngine

  // ----- Nothing without weight fires -----

  lemma NoWeight(cfg: Config, mood: Mood, candidates: seq<Fault>, fault: Fault)
    requires !HasEffectiveWeight(cfg, mood, candidates) && fault in candidates
    ensures EffectiveWeight(cfg, mood, fault) == 0.0
  {
    if AnyProbability(cfg.policy) {
      assert EffectiveWeight(cfg, mood, fault) <= 0.0;
    } else {
      assert cfg.policy.Probability(fault) == 0.0;
    }
  }

  lemma {:induction false} NothingSelected(cfg: Config, mood: Mood, key: string, all: seq<Fault>, priority: seq<Fault>,
                                           eligible: seq<Fault>)
    requires !HasEffectiveWeight(cfg, mood, all) && forall f | f in priority :: f in all
    ensures Select(cfg, mood, key, priority, eligible) == None
  {
    hide HasEffectiveWeight;
    if priority != [] {
      NoWeight(cfg, mood, all, priority[0]);
      assert priority == [priority[0]] + priority[1..];
      NothingSelected(cfg, mood, key, all, priority[1..], eligible);
    }
  }

  // ----- The two skips -----

  /** The before-execute skip never matters. */
  lemma BeforeSkipIsSilent(cfg: Config, s: State, call: Call, cls: Classification)
    ensures BeforePhase(cfg, false, s, call, cls) == BeforePhase(cfg, true, s, call, cls)
    ensures forall before :: DeferredDebug(cfg, false, s, call, cls, before) == DeferredDebug(cfg, true, s, call, cls, before)
  {
    hide HasEffectiveWeight, Fires, NextEventId;
    var d := DecisionFor(cfg, call, BeforeExecute);
    hide DecisionFor;
    if !cfg.debug && !HasEffectiveWeight(cfg, s.mood.mood, BEFORE_EXECUTE_PRIORITY) {
      NothingSelected(cfg, s.mood.mood, d.context.key, BEFORE_EXECUTE_PRIORITY, BEFORE_EXECUTE_PRIORITY, BEFORE_EXECUTE_PRIORITY);
    }
  }

  /** Whether the on-result phase is skipped although always deciding would run it. */
  predicate Skipped(cfg: Config, mood: Mood, cls: Classification, slowed: bool, rows: nat) {
    Intervenes(cfg, true, mood, cls, slowed, rows) && !Intervenes(cfg, false, mood, cls, slowed, rows)
  }

  /** What the skipped phase would have done: hide treasured rows, or spend a release. */
  predicate Pending(s: State, template: string, result: LogicalResult) {
    var sticky := H.ActiveFor(s.house.treasures, template);
    if sticky != [] then WithRows(result, Visible(result.rows, HiddenRows(sticky), 0)) != result
    else template in s.house.released
  }

  lemma WeightlessResult(cfg: Config, s: State, d: Decision, cls: Classification, result: LogicalResult)
    requires !HasEffectiveWeight(cfg, s.mood.mood, ON_RESULT_PRIORITY) && !cfg.debug && cls.kind == SELECT
    requires |result.rows| <= cfg.maxInterventionRows
    ensures Faults.OnResult(cfg, s, d, cls, result) ==
            var sticky := H.ActiveFor(s.house.treasures, d.context.template);
            if sticky != [] then (s, Delivered(WithRows(result, Visible(result.rows, HiddenRows(sticky), 0))))
            else (s.(house := H.Consumed(s.house, d.context.template)), Delivered(result))
  {
    hide HasEffectiveWeight, Fires, ChewFor, History, Candidates, Inject, Stash, H.ActiveFor, Visible;
    var mood, key := s.mood.mood, d.context.key;
    NothingSelected(cfg, mood, key, ON_RESULT_PRIORITY, ON_RESULT_PRIORITY, [NO_DROP]);
    var chew, history := ChewFor(cfg, d, result), History(cfg, s, d);
    var released := d.context.template in s.house.released;
    NothingSelected(cfg, mood, key, ON_RESULT_PRIORITY, ON_RESULT_PRIORITY,
                    Candidates(cfg, released, cls, result, chew.Some?, history != []));
  }

  /** The on-result skip changes a statement exactly when the skipped phase had a row to hide or a release to spend. */
  lemma ResultSkip(cfg: Config, s: State, call: Call, cls: Classification, slowed: bool, result: LogicalResult)
    ensures ResultPhase(cfg, false, s, call, cls, slowed, result) == ResultPhase(cfg, true, s, call, cls, slowed, result)
      <==> !(Skipped(cfg, s.mood.mood, cls, slowed, |result.rows|) && Pending(s, call.template, result))
  {
    hide HasEffectiveWeight, Faults.OnResult, H.ActiveFor, Visible, KeyFor;
    var d := DecisionFor(cfg, call, OnResult);
    DecisionKeyLength(cfg, call, OnResult);
    hide DecisionFor;
    if Skipped(cfg, s.mood.mood, cls, slowed, |result.rows|) {
      WeightlessResult(cfg, s, d, cls, result);
      assert !cfg.Caching();
      SpendingChanges(s.house, call.template);
    }
  }

  lemma SpendingChanges(house: H.House, template: string)
    ensures H.Consumed(house, template) == house <==> template !in house.released
  {
    if template in house.released {
      assert template !in H.Consumed(house, template).released;
    } else {
      assert house.released - {template} == house.released;
    }
  }

  /** For one treasured row: hiding changes a result unless it is too short to have the row and its count is right. */
  lemma PendingForOne(s: State, t: Treasure, result: LogicalResult)
    requires H.ActiveFor(s.house.treasures, t.context.template) == [t]
    ensures Pending(s, t.context.template, result) <==> t.rowIndex < |result.rows| || result.rowcount != |result.rows|
  {
    HidingOneRow(result.rows, t.rowIndex);
    hide Visible, H.ActiveFor;
    assert HiddenRows([t]) == {t.rowIndex};
  }

  // ----- One operation -----

  /** Whether the fast path skips something that matters in a statement. */
  predicate Lapses(cfg: Config, s: State, op: Operation) {
    op.Execute? && PassthroughReason(op.params, op.cls) == None &&
    var s0 := BeginOperation(cfg, s);
    var call := CallFor(cfg, s0, op);
    var (s1, before) := BeforePhase(cfg, true, Begin(s0, call), call, op.cls);
    !before.Refused? &&
    match Fetch(op.reply, RowCap(cfg, op.cls))
    case Fetched(result) =>
      Skipped(cfg, s1.mood.mood, op.cls, before.Slowed?, |result.rows|) && Pending(s1, call.template, result)
    case _ => false
  }

  /** One operation comes out the same on the fast path exactly when it does not lapse. */
  lemma StepsAgree(cfg: Config, s: State, op: Operation)
    ensures Step(cfg, false, s, op) == Step(cfg, true, s, op) <==> !Lapses(cfg, s, op)
  {
    hide BeginOperation, BeforePhase, DeferredDebug, ResultPhase, CallFor, Skipped, Pending, GiveBack, CancelAndLog;
    hide PassThrough, RefuseResult, Fetch, DecisionFor;
    if op.Execute? && PassthroughReason(op.params, op.cls) == None {
      var s0 := BeginOperation(cfg, s);
      var call := CallFor(cfg, s0, op);
      var start := Begin(s0, call);
      BeforeSkipIsSilent(cfg, start, call, op.cls);
      var (s1, before) := BeforePhase(cfg, true, start, call, op.cls);
      BeforeSkipIsSilent(cfg, s1, call, op.cls);
      if !before.Refused? && Fetch(op.reply, RowCap(cfg, op.cls)).Fetched? {
        var result := Fetch(op.reply, RowCap(cfg, op.cls)).result;
        var s2 := DeferredDebug(cfg, true, s1, call, op.cls, before);
        ResultSkip(cfg, s2, call, op.cls, before.Slowed?, result);
        DeferredChangesLogOnly(cfg, s1, call, op.cls, before, result);
      }
    }
  }

  lemma DeferredChangesLogOnly(cfg: Config, s: State, call: Call, cls: Classification, before: Before, result: LogicalResult)
    ensures var s' := DeferredDebug(cfg, true, s, call, cls, before);
            && s'.mood == s.mood && s'.house == s.house
            && Pending(s', call.template, result) == Pending(s, call.template, result)
  {
    hide NextEventId, H.ActiveFor, Visible, DecisionFor;
  }

  // ----- Whole runs -----

  /** STASH is not configured, or keeps some weight in every mood. */
  predicate StashNeverFades(cfg: Config) {
    cfg.policy.Probability(STASH) == 0.0 || forall mood: Mood :: EffectiveWeight(cfg, mood, STASH) > 0.0
  }

  ghost predicate Untouched(s: State) { s.house == H.House([], {}) }

  lemma WeightGivesEvaluation(cfg: Config, mood: Mood)
    requires EffectiveWeight(cfg, mood, STASH) > 0.0
    ensures HasEffectiveWeight(cfg, mood, ON_RESULT_PRIORITY)
  {
    assert cfg.policy.Probability(STASH) != 0.0;
    assert STASH in cfg.policy.probabilities && cfg.policy.probabilities[STASH] != 0.0;
    assert ON_RESULT_PRIORITY[2] == STASH;
  }

  lemma NoLapse(cfg: Config, s: State, op: Operation)
    requires StashNeverFades(cfg) && (cfg.policy.Probability(STASH) == 0.0 ==> Untouched(s))
    ensures !Lapses(cfg, s, op)
  {
    hide BeforePhase, Fetch, CallFor, BeginOperation, HasEffectiveWeight, EffectiveWeight;
    if op.Execute? && PassthroughReason(op.params, op.cls) == None {
      var s0 := BeginOperation(cfg, s);
      var call := CallFor(cfg, s0, op);
      var (s1, before) := BeforePhase(cfg, true, Begin(s0, call), call, op.cls);
      if cfg.policy.Probability(STASH) == 0.0 {
        UntouchedBegin(cfg, s);
        BeforePhaseHouse(cfg, true, Begin(s0, call), call, op.cls);
        assert Untouched(s1);
        assert H.ActiveFor([], call.template) == [];
      } else {
        WeightGivesEvaluation(cfg, s1.mood.mood);
      }
    }
  }

  lemma BeforePhaseHouse(cfg: Config, force: bool, s: State, call: Call, cls: Classification)
    ensures BeforePhase(cfg, force, s, call, cls).0.house == s.house
  {
    hide NextEventId, BeforeFault, DecisionFor, EvaluatesBefore, Draw;
  }

  lemma {:induction false} UntouchedReturns(cfg: Config, s: State, ids: seq<string>, phase: Phase)
    requires Untouched(s)
    ensures GiveBackAll(cfg, s, ids, phase).house == s.house
  {
    if ids != [] {
      UntouchedReturns(cfg, s, ids[..|ids| - 1], phase);
    }
  }

  lemma UntouchedBegin(cfg: Config, s: State)
    requires Untouched(s)
    ensures Untouched(BeginOperation(cfg, s))
  {
    hide GiveBackAll, NextEventId, M.Advanced, M.Transition, AR.Due, AR.Advanced;
    var s0 := s.(tick := s.tick + 1);
    UntouchedReturns(cfg, s0.(schedule := AR.Advanced(s0.schedule, s0.tick)), AR.Due(s0.schedule, s0.tick), AutoReturn);
  }

  /** Without STASH the house is never touched. */
  lemma UntouchedStep(cfg: Config, force: bool, s: State, op: Operation)
    requires Untouched(s) && cfg.policy.Probability(STASH) == 0.0
    ensures Untouched(Step(cfg, force, s, op).0)
  {
    hide BeginOperation, Intervene, CallFor, LogReturn, DeferredDebug;
    UntouchedBegin(cfg, s);
    if op.Execute? && PassthroughReason(op.params, op.cls) == None {
      var s0 := BeginOperation(cfg, s);
      var call := CallFor(cfg, s0, op);
      InterveneMoves(cfg, force, Begin(s0, call), call, op.cls, op.reply);
      assert H.Consumed(s0.house, call.template) == s0.house;
    }
  }

  /** After its j-th operation a run has come out the same both ways, and that operation gave the same answer. */
  predicate Agrees(cfg: Config, ops: seq<Operation>, j: nat)
    requires j < |ops|
  {
    && After(cfg, false, ops[..j + 1]) == After(cfg, true, ops[..j + 1])
    && Answer(cfg, false, ops, j) == Answer(cfg, true, ops, j)
  }

  predicate LapsesAt(cfg: Config, ops: seq<Operation>, j: nat)
    requires j < |ops|
  {
    Lapses(cfg, After(cfg, true, ops[..j]), ops[j])
  }

  lemma NextAgrees(cfg: Config, ops: seq<Operation>, j: nat)
    requires j < |ops| && After(cfg, false, ops[..j]) == After(cfg, true, ops[..j])
    ensures Agrees(cfg, ops, j) <==> !LapsesAt(cfg, ops, j)
  {
    hide Step, Lapses;
    assert ops[..j + 1][..j] == ops[..j];
    StepsAgree(cfg, After(cfg, true, ops[..j]), ops[j]);
  }

  lemma {:induction false} RunsAgreeUpTo(cfg: Config, ops: seq<Operation>, k: nat)
    requires k <= |ops|
    ensures (forall j | 0 <= j < k :: Agrees(cfg, ops, j)) <==> (forall j | 0 <= j < k :: !LapsesAt(cfg, ops, j))
    ensures (forall j | 0 <= j < k :: Agrees(cfg, ops, j)) ==> After(cfg, false, ops[..k]) == After(cfg, true, ops[..k])
  {
    hide After, Agrees, LapsesAt;
    if k == 0 {
      SameStart(cfg, ops);
    } else {
      RunsAgreeUpTo(cfg, ops, k - 1);
      if forall j | 0 <= j < k - 1 :: Agrees(cfg, ops, j) {
        NextAgrees(cfg, ops, k - 1);
        AgreesInState(cfg, ops, k - 1);
      }
    }
  }

  lemma SameStart(cfg: Config, ops: seq<Operation>)
    ensures After(cfg, false, ops[..0]) == After(cfg, true, ops[..0])
  {
  }

  lemma AgreesInState(cfg: Config, ops: seq<Operation>, j: nat)
    requires j < |ops|
    ensures Agrees(cfg, ops, j) ==> After(cfg, false, ops[..j + 1]) == After(cfg, true, ops[..j + 1])
  {
    hide After, Answer;
  }

  /** The fast path gives the states and answers of always deciding over exactly the runs in which nothing lapses. */
  lemma RunsAgree(cfg: Config, ops: seq<Operation>)
    ensures (forall j | 0 <= j < |ops| :: Agrees(cfg, ops, j)) <==> (forall j | 0 <= j < |ops| :: !LapsesAt(cfg, ops, j))
  {
    RunsAgreeUpTo(cfg, ops, |ops|);
  }

  lemma {:induction false} UntouchedRun(cfg: Config, ops: seq<Operation>)
    requires cfg.policy.Probability(STASH) == 0.0
    ensures Untouched(After(cfg, true, ops))
  {
    if ops != [] {
      hide Step, Untouched;
      UntouchedRun(cfg, ops[..|ops| - 1]);
      UntouchedStep(cfg, true, After(cfg, true, ops[..|ops| - 1]), ops[|ops| - 1]);
    }
  }

  /** When STASH never fades nothing lapses: the fast path refines always deciding over every run. */
  lemma FastPathRefines(cfg: Config, ops: seq<Operation>)
    requires StashNeverFades(cfg)
    ensures forall j | 0 <= j < |ops| :: Agrees(cfg, ops, j)
    ensures After(cfg, false, ops) == After(cfg, true, ops)
  {
    hide StashNeverFades, Untouched, Lapses, After, Agrees;
    forall j | 0 <= j < |ops| ensures !LapsesAt(cfg, ops, j) {
      if cfg.policy.Probability(STASH) == 0.0 {
        UntouchedRun(cfg, ops[..j]);
      }
      NoLapse(cfg, After(cfg, true, ops[..j]), ops[j]);
    }
    RunsAgreeUpTo(cfg, ops, |ops|);
    assert ops[..|ops|] == ops;
  }
}
