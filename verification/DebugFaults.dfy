/** When a debug run injects the same faults: a skipped decision may leave a release unspent, and until that release is
    met again by a result whose faults it changes, the two runs differ in nothing but releases. */
module DebugFaults {
  import opened Models
  import opened Decisions
  import opened Adapters
  import opened Faults
  import opened Session
  import opened Transforms
  import opened StepInvariants
  import opened DebugRuns
  import Invariants
  import FE = FaultEngine
  import FP = FastPath
  import C = StashCycle
  import H = House
  import AR = AutoReturn
  import M = MoodEngine
  import SC = StaleCache

  // ----- When one operation leads to different states -----

  /** The fast path skips a result phase that had a release to spend. */
  predicate SpendLapse(cfg: Config, s: State, op: Operation) {
    op.Execute? && PassthroughReason(op.params, op.cls) == None &&
    var s0 := BeginOperation(cfg, s);
    var call := CallFor(cfg, s0, op);
    var (s1, before) := BeforePhase(cfg, true, Begin(s0, call), call, op.cls);
    !before.Refused? &&
    match Fetch(op.reply, RowCap(cfg, op.cls))
    case Fetched(result) =>
      && FP.Skipped(cfg, s1.mood.mood, op.cls, before.Slowed?, |result.rows|)
      && H.ActiveFor(s1.house.treasures, call.template) == [] && call.template in s1.house.released
    case _ => false
  }

  lemma SkipStates(cfg: Config, s: State, call: Call, cls: Classification, slowed: bool, result: LogicalResult)
    ensures ResultPhase(cfg, false, s, call, cls, slowed, result).0 == ResultPhase(cfg, true, s, call, cls, slowed, result).0
      <==> !(&& FP.Skipped(cfg, s.mood.mood, cls, slowed, |result.rows|)
             && H.ActiveFor(s.house.treasures, call.template) == [] && call.template in s.house.released)
  {
    hide HasEffectiveWeight, Faults.OnResult, H.ActiveFor, Visible, KeyFor;
    var d := DecisionFor(cfg, call, OnResult);
    DecisionKeyLength(cfg, call, OnResult);
    hide DecisionFor;
    if FP.Skipped(cfg, s.mood.mood, cls, slowed, |result.rows|) {
      FP.WeightlessResult(cfg, s, d, cls, result);
      assert !cfg.Caching();
      FP.SpendingChanges(s.house, call.template);
    }
  }

  /** One operation leads to the same state on the fast path exactly when it does not skip the spending of a release. */
  lemma StatesAgree(cfg: Config, s: State, op: Operation)
    ensures Step(cfg, false, s, op).0 == Step(cfg, true, s, op).0 <==> !SpendLapse(cfg, s, op)
  {
    hide BeginOperation, BeforePhase, DeferredDebug, ResultPhase, CallFor, FP.Skipped, GiveBack, CancelAndLog, H.ActiveFor;
    hide Session.PassThrough, RefuseResult, Fetch, RowCap;
    if op.Execute? && PassthroughReason(op.params, op.cls) == None {
      var s0 := BeginOperation(cfg, s);
      var call := CallFor(cfg, s0, op);
      var start := Begin(s0, call);
      FP.BeforeSkipIsSilent(cfg, start, call, op.cls);
      var (s1, before) := BeforePhase(cfg, true, start, call, op.cls);
      FP.BeforeSkipIsSilent(cfg, s1, call, op.cls);
      if !before.Refused? && Fetch(op.reply, RowCap(cfg, op.cls)).Fetched? {
        var result := Fetch(op.reply, RowCap(cfg, op.cls)).result;
        SkipStates(cfg, DeferredDebug(cfg, true, s1, call, op.cls, before), call, op.cls, before.Slowed?, result);
        FP.DeferredChangesLogOnly(cfg, s1, call, op.cls, before, result);
      }
    }
  }

  // ----- States that differ in releases only -----

  function WithReleased(s: State, released: set<string>): State { s.(house := s.house.(released := released)) }

  /** `b` is `a` with some releases spent already; in debug mode nothing is ever skipped. */
  ghost predicate Lags(cfg: Config, a: State, b: State) {
    b == WithReleased(a, b.house.released) && b.house.released <= a.house.released && (cfg.debug ==> b == a)
  }

  lemma LaggingPair(cfg: Config, a: State, r: set<string>)
    requires r <= a.house.released && (cfg.debug ==> r == a.house.released)
    ensures Lags(cfg, a, WithReleased(a, r))
  {
    if cfg.debug {
      assert WithReleased(a, r) == a;
    }
  }

  lemma SameButReleased(cfg: Config, a: State, b: State)
    requires Lags(cfg, a, b)
    ensures b == WithReleased(a, b.house.released) && b.log == a.log && b.house.treasures == a.house.treasures
    ensures b.mood == a.mood && b.tick == a.tick && b.schedule == a.schedule && b.cache == a.cache
    ensures b.occurrences == a.occurrences
  {
  }

  // ----- What does not look at releases -----

  lemma ReturnCommutes(cfg: Config, s: State, r: set<string>, t: Treasure, phase: Phase)
    ensures LogReturn(cfg, WithReleased(s, r), t, phase) == WithReleased(LogReturn(cfg, s, t, phase), r)
  {
    hide DeterministicId;
  }

  lemma BeforeCommutes(cfg: Config, force: bool, s: State, r: set<string>, call: Call, cls: Classification)
    ensures var x, y := BeforePhase(cfg, force, s, call, cls), BeforePhase(cfg, force, WithReleased(s, r), call, cls);
            && y == (WithReleased(x.0, r), x.1)
            && DeferredDebug(cfg, force, y.0, call, cls, y.1) == WithReleased(DeferredDebug(cfg, force, x.0, call, cls, x.1), r)
  {
    hide DeterministicId, EvaluatesBefore, DecisionFor, Fires, Draw;
  }

  lemma StashCommutes(cfg: Config, s: State, r: set<string>, d: Decision, result: LogicalResult)
    requires result.rows != []
    ensures var x, y := Stash(cfg, s, d, result), Stash(cfg, WithReleased(s, r), d, result);
            y == (WithReleased(x.0, r), x.1)
  {
    hide DeterministicId, Index, AR.Planned, AR.HoldFor, H.Vacant;
  }

  // ----- Returns and the clock -----

  lemma GiveBackLags(cfg: Config, a: State, b: State, id: string, phase: Phase)
    requires Lags(cfg, a, b)
    ensures Lags(cfg, GiveBack(cfg, a, id, phase), GiveBack(cfg, b, id, phase))
  {
    hide LogReturn;
    var found := H.Find(a.house.treasures, id);
    if found.Some? {
      var a1, r := a.(house := H.Returned(a.house, id)), b.house.released + {found.value.context.template};
      assert b.(house := H.Returned(b.house, id)) == WithReleased(a1, r);
      ReturnCommutes(cfg, a1, r, found.value, phase);
      Invariants.LogReturnFrame(cfg, a1, found.value, phase);
      LaggingPair(cfg, LogReturn(cfg, a1, found.value, phase), r);
    }
  }

  lemma {:induction false} GiveBackAllLags(cfg: Config, a: State, b: State, ids: seq<string>, phase: Phase)
    requires Lags(cfg, a, b)
    ensures Lags(cfg, GiveBackAll(cfg, a, ids, phase), GiveBackAll(cfg, b, ids, phase))
  {
    hide Lags, GiveBack;
    if ids != [] {
      var front := ids[..|ids| - 1];
      GiveBackAllLags(cfg, a, b, front, phase);
      GiveBackLags(cfg, GiveBackAll(cfg, a, front, phase), GiveBackAll(cfg, b, front, phase), ids[|ids| - 1], phase);
    }
  }

  lemma CancelLags(cfg: Config, a: State, b: State, id: string)
    requires Lags(cfg, a, b)
    ensures Lags(cfg, Cancel(cfg, a, id), Cancel(cfg, b, id))
  {
    hide AR.Cancelled;
  }

  lemma ReturnLags(cfg: Config, a: State, b: State, t: Treasure, phase: Phase)
    requires Lags(cfg, a, b)
    ensures Lags(cfg, LogReturn(cfg, a, t, phase), LogReturn(cfg, b, t, phase))
  {
    hide LogReturn;
    ReturnCommutes(cfg, a, b.house.released, t, phase);
    Invariants.LogReturnFrame(cfg, a, t, phase);
  }

  lemma {:induction false} CancelAndLogLags(cfg: Config, a: State, b: State, all: seq<Treasure>, k: nat)
    requires Lags(cfg, a, b) && k <= |all|
    ensures Lags(cfg, CancelAndLog(cfg, a, all[..k]), CancelAndLog(cfg, b, all[..k]))
  {
    hide Lags, CancelAndLog, LogReturn, Cancel;
    if k == 0 {
      Invariants.CancelAndLogNone(cfg, a, all);
      Invariants.CancelAndLogNone(cfg, b, all);
    } else {
      CancelAndLogLags(cfg, a, b, all, k - 1);
      Invariants.CancelAndLogStep(cfg, a, all, k);
      Invariants.CancelAndLogStep(cfg, b, all, k);
      var a1, b1, t := CancelAndLog(cfg, a, all[..k - 1]), CancelAndLog(cfg, b, all[..k - 1]), all[k - 1];
      CancelLags(cfg, a1, b1, t.treasureId);
      ReturnLags(cfg, Cancel(cfg, a1, t.treasureId), Cancel(cfg, b1, t.treasureId), t, ManualReturn);
    }
  }

  lemma ReturnAllLags(cfg: Config, a: State, b: State)
    requires Lags(cfg, a, b)
    ensures Lags(cfg, Step(cfg, false, a, ReturnAll).0, Step(cfg, true, b, ReturnAll).0)
  {
    hide CancelAndLog;
    var ts := a.house.treasures;
    CancelAndLogLags(cfg, a.(house := H.AllReturned(a.house)), b.(house := H.AllReturned(b.house)), ts, |ts|);
    assert ts[..|ts|] == ts;
  }

  lemma ReturnDueLags(cfg: Config, a: State, b: State)
    requires Lags(cfg, a, b)
    ensures Lags(cfg, ReturnDue(cfg, a), ReturnDue(cfg, b))
  {
    hide GiveBackAll, AR.Due, AR.Advanced;
    if cfg.autoReturn.Some? {
      GiveBackAllLags(cfg, a.(schedule := AR.Advanced(a.schedule, a.tick)), b.(schedule := AR.Advanced(b.schedule, b.tick)),
                      AR.Due(a.schedule, a.tick), AutoReturn);
    }
  }

  lemma MoodLags(cfg: Config, a: State, b: State)
    requires Lags(cfg, a, b)
    ensures Lags(cfg, AdvanceMood(cfg, a), AdvanceMood(cfg, b))
  {
    hide M.Advanced, M.Transition, DeterministicId;
  }

  lemma BeginLags(cfg: Config, a: State, b: State)
    requires Lags(cfg, a, b)
    ensures Lags(cfg, BeginOperation(cfg, a), BeginOperation(cfg, b))
  {
    hide ReturnDue, AdvanceMood;
    if cfg.Clocked() {
      ReturnDueLags(cfg, a.(tick := a.tick + 1), b.(tick := b.tick + 1));
      MoodLags(cfg, ReturnDue(cfg, a.(tick := a.tick + 1)), ReturnDue(cfg, b.(tick := b.tick + 1)));
    }
  }

  // ----- A result of a template -----

  ghost predicate LagsBoth(cfg: Config, x: (State, Delivery), y: (State, Delivery)) {
    Lags(cfg, x.0, y.0) && y.1 == x.1
  }

  lemma ConsumedLags(cfg: Config, a: State, b: State, template: string)
    requires Lags(cfg, a, b)
    ensures Lags(cfg, a.(house := H.Consumed(a.house, template)), b.(house := H.Consumed(b.house, template)))
  {
  }

  lemma FaultLags(cfg: Config, a: State, b: State, d: Decision, fault: Fault, outcome: Outcome, details: Details)
    requires Lags(cfg, a, b)
    ensures var x, y := LogFault(cfg, a, d, fault, outcome, details), LogFault(cfg, b, d, fault, outcome, details);
            Lags(cfg, x, y) && x.log != [] && y.log == x.log
  {
    hide NextEventId;
    assert NextEventId(cfg, b, d.context.key, OfFault(fault)) == NextEventId(cfg, a, d.context.key, OfFault(fault)) by {
      SameEventIds(cfg, a, b, d.context.key, OfFault(fault));
    }
  }

  lemma SameEventIds(cfg: Config, a: State, b: State, key: string, name: EventName)
    requires Lags(cfg, a, b)
    ensures NextEventId(cfg, b, key, name) == NextEventId(cfg, a, key, name)
  {
    hide DeterministicId;
  }

  lemma DecisionLags(cfg: Config, a: State, b: State, d: Decision, candidates: seq<Fault>, candidates': seq<Fault>)
    requires Lags(cfg, a, b) && (cfg.debug ==> candidates' == candidates)
    ensures Lags(cfg, LogDecision(cfg, a, d, candidates), LogDecision(cfg, b, d, candidates'))
  {
    hide NextEventId;
  }

  lemma StashLags(cfg: Config, a: State, b: State, d: Decision, result: LogicalResult)
    requires Lags(cfg, a, b) && result.rows != []
    ensures LagsBoth(cfg, Stash(cfg, a, d, result), Stash(cfg, b, d, result))
  {
    hide Stash;
    StashCommutes(cfg, a, b.house.released, d, result);
    assert Stash(cfg, a, d, result).0.house.released == a.house.released by {
      StashKeepsReleases(cfg, a, d, result);
    }
    LaggingPair(cfg, Stash(cfg, a, d, result).0, b.house.released);
  }

  lemma StashKeepsReleases(cfg: Config, s: State, d: Decision, result: LogicalResult)
    requires result.rows != []
    ensures Stash(cfg, s, d, result).0.house.released == s.house.released
  {
    hide DeterministicId, Index, AR.Planned, AR.HoldFor, H.Vacant, NextEventId;
  }

  lemma SameInputsOf(cfg: Config, a: State, b: State, d: Decision, result: LogicalResult)
    requires Lags(cfg, a, b)
    ensures History(cfg, b, d) == History(cfg, a, d) && b.mood == a.mood
  {
    hide SC.Of, KeyFor;
  }

  /** Equal selections make the same of a result. */
  lemma TreatedLags(cfg: Config, a: State, b: State, d: Decision, cls: Classification, result: LogicalResult)
    requires Lags(cfg, a, b) && FE.SelectedAt(cfg, b, d, cls, result) == FE.SelectedAt(cfg, a, d, cls, result)
    ensures LagsBoth(cfg, Treated(cfg, a, d, cls, result), Treated(cfg, b, d, cls, result))
  {
    hide Lags, Treated, LogDecision, LogFault, Stash, Inject, ChewFor, History, Applicable, FE.SelectedAt, FE.CandidatesAt;
    ConsumedLags(cfg, a, b, d.context.template);
    SameInputsOf(cfg, a, b, d, result);
    var a1, b1 := a.(house := H.Consumed(a.house, d.context.template)), b.(house := H.Consumed(b.house, d.context.template));
    match FE.SelectedAt(cfg, a, d, cls, result) {
      case None =>
        FE.TreatedNone(cfg, a, d, cls, result);
        FE.TreatedNone(cfg, b, d, cls, result);
        SameInDebug(cfg, a, b);
        DecisionLags(cfg, a1, b1, d, FE.CandidatesAt(cfg, a, d, cls, result), FE.CandidatesAt(cfg, b, d, cls, result));
      case Some(fault) =>
        SelectedApplies(cfg, a, d, cls, result, fault);
        if fault == STASH || fault == STASH_ERROR {
          FE.TreatedStash(cfg, a, d, cls, result);
          FE.TreatedStash(cfg, b, d, cls, result);
          StashLags(cfg, a1, b1, d, result);
        } else {
          var chew, history := ChewFor(cfg, d, result), History(cfg, a, d);
          TreatedInjects(cfg, a, d, cls, result, fault, chew, history);
          TreatedInjects(cfg, b, d, cls, result, fault, chew, history);
          var injection := Inject(cfg, d, fault, result, chew, history);
          FaultLags(cfg, a1, b1, d, fault, injection.outcome, injection.details);
        }
    }
  }

  lemma SameInDebug(cfg: Config, a: State, b: State)
    requires Lags(cfg, a, b)
    ensures cfg.debug ==> b == a
  {
  }

  // ----- A result of a template whose release only one run still has -----

  /** Eligibility of faults that do not fire makes no difference. */
  lemma {:induction false} SelectIgnores(cfg: Config, mood: Mood, key: string, priority: seq<Fault>, e: seq<Fault>,
                                         e': seq<Fault>)
    requires forall f | f in priority && Fires(cfg, mood, key, f) :: f in e <==> f in e'
    ensures Select(cfg, mood, key, priority, e') == Select(cfg, mood, key, priority, e)
  {
    hide Fires;
    if priority != [] {
      assert priority == [priority[0]] + priority[1..];
      SelectIgnores(cfg, mood, key, priority[1..], e, e');
    }
  }

  function StashFault(cfg: Config): Fault { if cfg.policy.stashError then STASH_ERROR else STASH }

  lemma SameWeights(cfg: Config, mood: Mood)
    ensures EffectiveWeight(cfg, mood, StashFault(cfg)) == EffectiveWeight(cfg, mood, STASH)
  {
    hide M.Multiplier;
  }

  lemma SameFiring(cfg: Config, mood: Mood, key: string)
    ensures Fires(cfg, mood, key, StashFault(cfg)) == Fires(cfg, mood, key, STASH)
  {
    hide Draw, EffectiveWeight;
    SameWeights(cfg, mood);
  }

  /** Without a release STASH is one more candidate of a result that has rows. */
  lemma OneMoreCandidate(cfg: Config, cls: Classification, result: LogicalResult, chew: bool, stale: bool, fault: Fault)
    ensures fault in Candidates(cfg, false, cls, result, chew, stale) <==>
            (fault == StashFault(cfg) && result.rows != []) || fault in Candidates(cfg, true, cls, result, chew, stale)
    ensures fault in Candidates(cfg, true, cls, result, chew, stale) ==> fault !in {NO_DROP, STASH, STASH_ERROR}
  {
  }

  lemma FirstInPriority(cfg: Config, mood: Mood, key: string, eligible: seq<Fault>)
    requires NO_DROP !in eligible && StashFault(cfg) in eligible && Fires(cfg, mood, key, StashFault(cfg))
    requires cfg.policy.stashError || STASH_ERROR !in eligible
    ensures Select(cfg, mood, key, ON_RESULT_PRIORITY, eligible) == Some(StashFault(cfg))
  {
    hide Fires;
    var p := ON_RESULT_PRIORITY;
    assert p[0] == NO_DROP && p[1] == STASH_ERROR && p[2] == STASH;
    assert Select(cfg, mood, key, p, eligible) == Select(cfg, mood, key, p[1..], eligible);
    assert p[1..][0] == STASH_ERROR;
    if !cfg.policy.stashError {
      assert Select(cfg, mood, key, p[1..], eligible) == Select(cfg, mood, key, p[1..][1..], eligible);
      assert p[1..][1..][0] == STASH;
    }
  }

  /** Where the release is spent, STASH is selected as soon as it fires. */
  lemma LaggingSelection(cfg: Config, a: State, b: State, d: Decision, cls: Classification, result: LogicalResult)
    requires Lags(cfg, a, b) && d.context.template in a.house.released && d.context.template !in b.house.released
    ensures FE.SelectedAt(cfg, b, d, cls, result) ==
            if result.rows != [] && Fires(cfg, a.mood.mood, d.context.key, STASH) then Some(StashFault(cfg))
            else FE.SelectedAt(cfg, a, d, cls, result)
    ensures FE.SelectedAt(cfg, a, d, cls, result) !in {Some(NO_DROP), Some(STASH), Some(STASH_ERROR)}
  {
    SameInputsOf(cfg, a, b, d, result);
    hide Lags, ChewFor, History, Candidates, Fires, Select;
    var chew, stale := ChewFor(cfg, d, result).Some?, History(cfg, a, d) != [];
    forall fault
      ensures fault in Candidates(cfg, false, cls, result, chew, stale) <==>
              (fault == StashFault(cfg) && result.rows != []) || fault in Candidates(cfg, true, cls, result, chew, stale)
      ensures fault in Candidates(cfg, true, cls, result, chew, stale) ==> fault !in {NO_DROP, STASH, STASH_ERROR}
    {
      OneMoreCandidate(cfg, cls, result, chew, stale, fault);
    }
    var mood, key := a.mood.mood, d.context.key;
    SameFiring(cfg, mood, key);
    if result.rows != [] && Fires(cfg, mood, key, STASH) {
      FirstInPriority(cfg, mood, key, Candidates(cfg, false, cls, result, chew, stale));
    } else {
      SelectIgnores(cfg, mood, key, ON_RESULT_PRIORITY, Candidates(cfg, true, cls, result, chew, stale),
                    Candidates(cfg, false, cls, result, chew, stale));
    }
  }

  /** The result of a template whose release is spent in one run only changes the faults: STASH fires, and either the house
      takes the row or the run that still has the release selects something. */
  predicate SplitsOn(cfg: Config, s: State, spent: set<string>, d: Decision, cls: Classification, result: LogicalResult) {
    && d.context.template in s.house.released && d.context.template !in spent
    && 0 < |result.rows| <= cfg.maxInterventionRows && !Drops(cfg, s, d)
    && H.ActiveFor(s.house.treasures, d.context.template) == []
    && Fires(cfg, s.mood.mood, d.context.key, STASH)
    && (|| H.Admits(s.house, NewTreasure(cfg, s, d, result), cfg.houseLimit)
        || FE.SelectedAt(cfg, s, d, cls, result).Some?)
  }

  /** Either the fault sequences now differ, or the pair still differs in releases only. */
  ghost predicate Diverges(cfg: Config, split: bool, x: (State, Delivery), y: (State, Delivery)) {
    if split then FaultSequence(x.0.log) != FaultSequence(y.0.log) else LagsBoth(cfg, x, y)
  }

  lemma FaultsAppend(log: seq<Event>, e: Event)
    ensures FaultSequence(log + [e]) == FaultSequence(log) + if e.eventType == FaultInjected then [e.fault] else []
  {
    Invariants.LogGrows(log, e);
  }

  lemma FaultLogged(cfg: Config, s: State, d: Decision, fault: Fault, outcome: Outcome, details: Details)
    ensures FaultSequence(LogFault(cfg, s, d, fault, outcome, details).log) == FaultSequence(s.log) + [Some(fault)]
  {
    hide NextEventId, FaultSequence;
    FaultsAppend(s.log, Event(|s.log| + 1, NextEventId(cfg, s, d.context.key, OfFault(fault)), FaultInjected, Some(fault),
                              Some(d.phase), Some(d.context), Some(outcome), details));
  }

  lemma StashLogged(cfg: Config, s: State, d: Decision, result: LogicalResult)
    requires result.rows != []
    ensures var (s', delivery) := Stash(cfg, s, d, result);
            if H.Admits(s.house, NewTreasure(cfg, s, d, result), cfg.houseLimit)
            then FaultSequence(s'.log) == FaultSequence(s.log) + [Some(STASH)]
            else s' == s && delivery == Delivered(result)
  {
    hide NewTreasure, FaultSequence, H.Admits, LogFault, AR.Planned, AR.HoldFor;
    var t := NewTreasure(cfg, s, d, result);
    FaultLogged(cfg, Housed(cfg, s, t), d, STASH, if cfg.policy.stashError then ReadPartial else RowsHidden,
                StashDetails([t.rowIndex], t.treasureId));
  }

  /** The faults a treated result logs: the selected one, unless it is STASH. */
  lemma TreatedLogged(cfg: Config, s: State, d: Decision, cls: Classification, result: LogicalResult)
    requires !cfg.debug && FE.SelectedAt(cfg, s, d, cls, result) !in {Some(STASH), Some(STASH_ERROR)}
    ensures FaultSequence(Treated(cfg, s, d, cls, result).0.log) ==
            FaultSequence(s.log) + match FE.SelectedAt(cfg, s, d, cls, result) case None => [] case Some(f) => [Some(f)]
  {
    hide Treated, LogFault, Inject, ChewFor, History, Applicable, FE.SelectedAt, FE.CandidatesAt, FaultSequence;
    match FE.SelectedAt(cfg, s, d, cls, result) {
      case None => FE.TreatedNone(cfg, s, d, cls, result);
      case Some(fault) =>
        SelectedApplies(cfg, s, d, cls, result, fault);
        var chew, history := ChewFor(cfg, d, result), History(cfg, s, d);
        TreatedInjects(cfg, s, d, cls, result, fault, chew, history);
        var injection := Inject(cfg, d, fault, result, chew, history);
        FaultLogged(cfg, s.(house := H.Consumed(s.house, d.context.template)), d, fault, injection.outcome, injection.details);
    }
  }

  lemma SameAdmitted(cfg: Config, a: State, b: State, d: Decision, result: LogicalResult)
    requires Lags(cfg, a, b) && result.rows != []
    ensures H.Admits(H.Consumed(b.house, d.context.template),
                     NewTreasure(cfg, b.(house := H.Consumed(b.house, d.context.template)), d, result), cfg.houseLimit) ==
            H.Admits(a.house, NewTreasure(cfg, a, d, result), cfg.houseLimit)
  {
    hide DeterministicId, Index;
  }

  /** Where the release is spent, a firing STASH is logged if the house takes the row; otherwise nothing happens. */
  lemma SpentTreats(cfg: Config, a: State, b: State, d: Decision, cls: Classification, result: LogicalResult)
    requires Lags(cfg, a, b) && d.context.template in a.house.released && d.context.template !in b.house.released
    requires result.rows != [] && Fires(cfg, a.mood.mood, d.context.key, STASH)
    ensures var y := Treated(cfg, b, d, cls, result);
            if H.Admits(a.house, NewTreasure(cfg, a, d, result), cfg.houseLimit)
            then FaultSequence(y.0.log) == FaultSequence(a.log) + [Some(STASH)]
            else y == (b.(house := H.Consumed(b.house, d.context.template)), Delivered(result))
  {
    LaggingSelection(cfg, a, b, d, cls, result);
    SameAdmitted(cfg, a, b, d, result);
    assert b.log == a.log;
    hide Lags, H.Admits, NewTreasure, Treated, FE.SelectedAt, FE.CandidatesAt, FaultSequence, Stash, Fires;
    FE.TreatedStash(cfg, b, d, cls, result);
    StashLogged(cfg, b.(house := H.Consumed(b.house, d.context.template)), d, result);
  }

  lemma QuietTreats(cfg: Config, s: State, d: Decision, cls: Classification, result: LogicalResult)
    requires !cfg.debug && FE.SelectedAt(cfg, s, d, cls, result) == None
    ensures Treated(cfg, s, d, cls, result) == (s.(house := H.Consumed(s.house, d.context.template)), Delivered(result))
  {
    hide Treated, FE.SelectedAt, FE.CandidatesAt;
    FE.TreatedNone(cfg, s, d, cls, result);
  }

  lemma DifferentEnds(faults: seq<Option<Fault>>, x: Option<Fault>, y: Option<Fault>)
    ensures faults + [x] != faults
    ensures x != y ==> faults + [x] != faults + [y]
  {
    assert x != y ==> (faults + [x])[|faults|] != (faults + [y])[|faults|];
  }

  /** Both runs treat the result of a template whose release only `a` still has, and STASH fires. */
  lemma TreatedSplits(cfg: Config, a: State, b: State, d: Decision, cls: Classification, result: LogicalResult)
    requires Lags(cfg, a, b) && d.context.template in a.house.released && d.context.template !in b.house.released
    requires result.rows != [] && Fires(cfg, a.mood.mood, d.context.key, STASH)
    ensures Diverges(cfg, H.Admits(a.house, NewTreasure(cfg, a, d, result), cfg.houseLimit)
                          || FE.SelectedAt(cfg, a, d, cls, result).Some?,
                     Treated(cfg, a, d, cls, result), Treated(cfg, b, d, cls, result))
  {
    hide Lags, H.Admits, H.Consumed, NewTreasure, Treated, FE.SelectedAt, FE.CandidatesAt, FaultSequence, Fires;
    SpentTreats(cfg, a, b, d, cls, result);
    LaggingSelection(cfg, a, b, d, cls, result);
    SameInDebug(cfg, a, b);
    SameButReleased(cfg, a, b);
    ConsumedLags(cfg, a, b, d.context.template);
    TreatedLogged(cfg, a, d, cls, result);
    match FE.SelectedAt(cfg, a, d, cls, result) {
      case None => QuietTreats(cfg, a, d, cls, result);
      case Some(fault) => DifferentEnds(FaultSequence(a.log), Some(fault), Some(STASH));
    }
  }

  lemma TreatedSame(cfg: Config, a: State, b: State, d: Decision, cls: Classification, result: LogicalResult)
    requires Lags(cfg, a, b)
    requires !(d.context.template in a.house.released && d.context.template !in b.house.released
               && result.rows != [] && Fires(cfg, a.mood.mood, d.context.key, STASH))
    ensures LagsBoth(cfg, Treated(cfg, a, d, cls, result), Treated(cfg, b, d, cls, result))
  {
    assert FE.SelectedAt(cfg, b, d, cls, result) == FE.SelectedAt(cfg, a, d, cls, result) by {
      if d.context.template in a.house.released && d.context.template !in b.house.released {
        LaggingSelection(cfg, a, b, d, cls, result);
      } else {
        SameInputsOf(cfg, a, b, d, result);
        hide ChewFor, History, Candidates, Select;
      }
    }
    TreatedLags(cfg, a, b, d, cls, result);
  }

  lemma OnResultDiverges(cfg: Config, a: State, b: State, d: Decision, cls: Classification, result: LogicalResult)
    requires Lags(cfg, a, b) && cls.kind == SELECT
    ensures Diverges(cfg, SplitsOn(cfg, a, b.house.released, d, cls, result), Faults.OnResult(cfg, a, d, cls, result),
                     Faults.OnResult(cfg, b, d, cls, result))
  {
    SameButReleased(cfg, a, b);
    hide FE.SelectedAt, H.Admits, NewTreasure, Treated, H.ActiveFor, Fires, FaultSequence, Select, Visible, HiddenRows;
    if |result.rows| <= cfg.maxInterventionRows && !Drops(cfg, a, d) && H.ActiveFor(a.house.treasures, d.context.template) == [] {
      hide LogFault, LogLimit, Drops, Lags;
      if d.context.template in a.house.released && d.context.template !in b.house.released && result.rows != []
         && Fires(cfg, a.mood.mood, d.context.key, STASH)
      {
        TreatedSplits(cfg, a, b, d, cls, result);
      } else {
        TreatedSame(cfg, a, b, d, cls, result);
      }
    } else {
      OnResultUntreated(cfg, a, b, d, cls, result);
    }
  }

  lemma OnResultUntreated(cfg: Config, a: State, b: State, d: Decision, cls: Classification, result: LogicalResult)
    requires Lags(cfg, a, b) && cls.kind == SELECT
    requires |result.rows| > cfg.maxInterventionRows || Drops(cfg, a, d)
             || H.ActiveFor(a.house.treasures, d.context.template) != []
    ensures LagsBoth(cfg, Faults.OnResult(cfg, a, d, cls, result), Faults.OnResult(cfg, b, d, cls, result))
  {
    SameButReleased(cfg, a, b);
    SameDrops(cfg, a, b, d);
    hide Treated, H.ActiveFor, LogFault, LogLimit, Drops, Lags, Visible, HiddenRows;
    if |result.rows| > cfg.maxInterventionRows {
      LimitLags(cfg, a, b, d, if cfg.policy.maxRowsError then LimitError else FaultSkipped,
                LimitDetails(MaxInterventionRows, cfg.maxInterventionRows, Some(|result.rows|)));
    } else if Drops(cfg, a, d) {
      FaultLags(cfg, a, b, d, NO_DROP, ResponseLost, NoDetails);
    }
  }

  lemma SameDrops(cfg: Config, a: State, b: State, d: Decision)
    requires Lags(cfg, a, b)
    ensures Drops(cfg, b, d) == Drops(cfg, a, d)
  {
    hide Select;
  }

  lemma LimitLags(cfg: Config, a: State, b: State, d: Decision, outcome: Outcome, details: Details)
    requires Lags(cfg, a, b)
    ensures var x, y := LogLimit(cfg, a, d, outcome, details), LogLimit(cfg, b, d, outcome, details);
            Lags(cfg, x, y) && x.log != [] && y.log == x.log
  {
    SameEventIds(cfg, a, b, d.context.key, LIMIT);
    hide NextEventId;
  }

  lemma CachedLags(cfg: Config, a: State, b: State, call: Call, cls: Classification, result: LogicalResult)
    requires Lags(cfg, a, b)
    ensures Lags(cfg, Cached(cfg, a, call, cls, result), Cached(cfg, b, call, cls, result))
    ensures Cached(cfg, a, call, cls, result).log == a.log && Cached(cfg, b, call, cls, result).log == b.log
    ensures !cfg.Caching() ==> Cached(cfg, a, call, cls, result) == a && Cached(cfg, b, call, cls, result) == b
  {
    hide DecisionFor, KeyFor, SC.Added;
  }

  lemma DivergesCached(cfg: Config, split: bool, x: (State, Delivery), y: (State, Delivery), call: Call,
                       cls: Classification)
    requires Diverges(cfg, split, x, y)
    ensures Diverges(cfg, split,
                     (if x.1.Delivered? then Cached(cfg, x.0, call, cls, x.1.result) else x.0, x.1),
                     (if y.1.Delivered? then Cached(cfg, y.0, call, cls, y.1.result) else y.0, y.1))
  {
    hide Lags, Cached, FaultSequence;
    if split {
      CachedLog(cfg, x, call, cls);
      CachedLog(cfg, y, call, cls);
    } else if x.1.Delivered? {
      CachedLags(cfg, x.0, y.0, call, cls, x.1.result);
    }
  }

  lemma CachedLog(cfg: Config, x: (State, Delivery), call: Call, cls: Classification)
    ensures x.1.Delivered? ==> Cached(cfg, x.0, call, cls, x.1.result).log == x.0.log
  {
    hide DecisionFor, KeyFor, SC.Added;
  }

  lemma UncachedResult(cfg: Config, s: State, call: Call, cls: Classification, result: LogicalResult)
    requires !cfg.Caching()
    ensures Cached(cfg, s, call, cls, result) == s
  {
    hide DecisionFor, KeyFor, SC.Added;
  }

  lemma WeightlessStash(cfg: Config, mood: Mood, key: string)
    requires !HasEffectiveWeight(cfg, mood, ON_RESULT_PRIORITY)
    ensures !Fires(cfg, mood, key, STASH)
  {
    hide HasEffectiveWeight, EffectiveWeight, Draw;
    assert ON_RESULT_PRIORITY[2] == STASH;
    FP.NoWeight(cfg, mood, ON_RESULT_PRIORITY, STASH);
  }

  lemma SpentLags(cfg: Config, a: State, b: State, template: string)
    requires Lags(cfg, a, b) && !cfg.debug
    ensures Lags(cfg, a, b.(house := H.Consumed(b.house, template)))
  {
  }

  /** A skipped phase can spend a release and change the answer; the states still differ in releases only. */
  lemma SkippedLags(cfg: Config, a: State, b: State, call: Call, cls: Classification, slowed: bool, result: LogicalResult)
    requires Lags(cfg, a, b) && FP.Skipped(cfg, a.mood.mood, cls, slowed, |result.rows|)
    ensures Lags(cfg, ResultPhase(cfg, false, a, call, cls, slowed, result).0,
                 ResultPhase(cfg, true, b, call, cls, slowed, result).0)
    ensures !Fires(cfg, a.mood.mood, DecisionFor(cfg, call, OnResult).context.key, STASH)
  {
    hide Lags, HasEffectiveWeight, Faults.OnResult, H.ActiveFor, Visible, KeyFor, Fires, Cached, DecisionFor, ScopeApplies;
    var d := DecisionFor(cfg, call, OnResult);
    SameButReleased(cfg, a, b);
    WeightlessStash(cfg, a.mood.mood, d.context.key);
    FP.WeightlessResult(cfg, b, d, cls, result);
    SpentLags(cfg, a, b, d.context.template);
    UncachedResult(cfg, a, call, cls, result);
    var y := Faults.OnResult(cfg, b, d, cls, result);
    if y.1.Delivered? {
      UncachedResult(cfg, y.0, call, cls, y.1.result);
    }
  }

  // ----- One operation -----

  /** `Diverges` for states alone: a skipped phase may still answer differently. */
  ghost predicate Parts(cfg: Config, split: bool, a: State, b: State) {
    if split then FaultSequence(a.log) != FaultSequence(b.log) else Lags(cfg, a, b)
  }

  lemma DivergesParts(cfg: Config, split: bool, x: (State, Delivery), y: (State, Delivery))
    requires Diverges(cfg, split, x, y)
    ensures Parts(cfg, split, x.0, y.0)
  {
    hide FaultSequence, Lags;
  }

  lemma ResultPhaseParts(cfg: Config, a: State, b: State, call: Call, cls: Classification, slowed: bool, result: LogicalResult)
    requires Lags(cfg, a, b)
    ensures Parts(cfg, Intervenes(cfg, false, a.mood.mood, cls, slowed, |result.rows|)
                       && SplitsOn(cfg, a, b.house.released, DecisionFor(cfg, call, OnResult), cls, result),
                  ResultPhase(cfg, false, a, call, cls, slowed, result).0,
                  ResultPhase(cfg, true, b, call, cls, slowed, result).0)
  {
    hide Lags, Faults.OnResult, Cached, DecisionFor, HasEffectiveWeight, Diverges, SplitsOn, ScopeApplies, FaultSequence;
    var d := DecisionFor(cfg, call, OnResult);
    SameButReleased(cfg, a, b);
    if FP.Skipped(cfg, a.mood.mood, cls, slowed, |result.rows|) {
      SkippedLags(cfg, a, b, call, cls, slowed, result);
    } else if Intervenes(cfg, true, a.mood.mood, cls, slowed, |result.rows|) {
      OnResultDiverges(cfg, a, b, d, cls, result);
      var x, y := Faults.OnResult(cfg, a, d, cls, result), Faults.OnResult(cfg, b, d, cls, result);
      DivergesCached(cfg, SplitsOn(cfg, a, b.house.released, d, cls, result), x, y, call, cls);
      DivergesParts(cfg, SplitsOn(cfg, a, b.house.released, d, cls, result),
                    (if x.1.Delivered? then Cached(cfg, x.0, call, cls, x.1.result) else x.0, x.1),
                    (if y.1.Delivered? then Cached(cfg, y.0, call, cls, y.1.result) else y.0, y.1));
    } else {
      CachedLags(cfg, a, b, call, cls, result);
    }
  }

  lemma DeferredQuiet(cfg: Config, force: bool, s: State, call: Call, cls: Classification, before: Before)
    requires !cfg.debug
    ensures DeferredDebug(cfg, force, s, call, cls, before) == s
  {
    hide EvaluatesBefore, DecisionFor;
  }

  lemma OnlyQuietSplits(cfg: Config, a: State, b: State, d: Decision, cls: Classification, result: LogicalResult)
    requires Lags(cfg, a, b)
    ensures SplitsOn(cfg, a, b.house.released, d, cls, result) ==> !cfg.debug
  {
    hide H.ActiveFor, H.Admits, NewTreasure, Drops, Fires, FE.SelectedAt;
  }

  lemma RefusalLags(cfg: Config, a: State, b: State, call: Call)
    requires Lags(cfg, a, b)
    ensures Lags(cfg, RefuseResult(cfg, a, call).0, RefuseResult(cfg, b, call).0)
  {
    hide Lags, LogLimit, DecisionFor;
    LimitLags(cfg, a, b, DecisionFor(cfg, call, OnResult), LimitError,
              LimitDetails(MaxResultRows, if cfg.maxResultRows.Some? then cfg.maxResultRows.value else 0, None));
  }

  lemma BeforePhaseLags(cfg: Config, a: State, b: State, call: Call, cls: Classification)
    requires Lags(cfg, a, b)
    ensures var x, y := BeforePhase(cfg, false, a, call, cls), BeforePhase(cfg, true, b, call, cls);
            && Lags(cfg, x.0, y.0) && y.1 == x.1 && y.0.house == b.house && x.0.house == a.house
            && Lags(cfg, DeferredDebug(cfg, false, x.0, call, cls, x.1), DeferredDebug(cfg, true, y.0, call, cls, y.1))
            && DeferredDebug(cfg, true, y.0, call, cls, y.1).house == b.house
            && DeferredDebug(cfg, false, x.0, call, cls, x.1).mood == x.0.mood
  {
    hide BeforePhase, DeferredDebug, EvaluatesBefore, Lags, RowCap;
    FP.BeforeSkipIsSilent(cfg, a, call, cls);
    var x := BeforePhase(cfg, true, a, call, cls);
    var x1 := DeferredDebug(cfg, true, x.0, call, cls, x.1);
    FP.BeforeSkipIsSilent(cfg, x.0, call, cls);
    FP.BeforePhaseHouse(cfg, true, a, call, cls);
    DeferredFrame(cfg, x.0, call, cls, x.1);
    LagsBounds(cfg, a, b);
    BeforeCommutes(cfg, true, a, b.house.released, call, cls);
    assert b == WithReleased(a, b.house.released);
    LaggingPair(cfg, x.0, b.house.released);
    LaggingPair(cfg, x1, b.house.released);
  }

  lemma LagsBounds(cfg: Config, a: State, b: State)
    requires Lags(cfg, a, b)
    ensures b == WithReleased(a, b.house.released) && b.house.released <= a.house.released
    ensures cfg.debug ==> b.house.released == a.house.released
  {
  }

  lemma DeferredFrame(cfg: Config, s: State, call: Call, cls: Classification, before: Before)
    ensures var s' := DeferredDebug(cfg, true, s, call, cls, before); s'.mood == s.mood && s'.house == s.house
  {
    hide NextEventId, DecisionFor, EvaluatesBefore;
  }

  /** A statement of a run that has spent the releases `spent` makes the difference. */
  predicate SplitsIn(cfg: Config, s: State, spent: set<string>, call: Call, cls: Classification, reply: Reply) {
    var (s1, before) := BeforePhase(cfg, false, s, call, cls);
    !before.Refused? &&
    match Fetch(reply, RowCap(cfg, cls))
    case Fetched(result) =>
      && Intervenes(cfg, false, s1.mood.mood, cls, before.Slowed?, |result.rows|)
      && SplitsOn(cfg, s1, spent, DecisionFor(cfg, call, OnResult), cls, result)
    case _ => false
  }

  /** Of two runs that differ in releases only, one operation makes the injected faults differ. */
  predicate Splits(cfg: Config, a: State, b: State, op: Operation) {
    op.Execute? && PassthroughReason(op.params, op.cls) == None &&
    var s0 := BeginOperation(cfg, a);
    var call := CallFor(cfg, s0, op);
    SplitsIn(cfg, Begin(s0, call), BeginOperation(cfg, b).house.released, call, op.cls, op.reply)
  }

  lemma FetchedParts(cfg: Config, a: State, b: State, call: Call, cls: Classification, before: Before,
                     result: LogicalResult, a1: State, b1: State)
    requires Lags(cfg, a, b) && Lags(cfg, a1, b1) && b1.house == b.house && a1.mood == a.mood
    requires a1 == DeferredDebug(cfg, false, a, call, cls, before)
    ensures Parts(cfg, Intervenes(cfg, false, a.mood.mood, cls, before.Slowed?, |result.rows|)
                       && SplitsOn(cfg, a, b.house.released, DecisionFor(cfg, call, OnResult), cls, result),
                  ResultPhase(cfg, false, a1, call, cls, before.Slowed?, result).0,
                  ResultPhase(cfg, true, b1, call, cls, before.Slowed?, result).0)
  {
    hide Lags, DecisionFor, Intervenes, SplitsOn, ResultPhase, FaultSequence, Parts, DeferredDebug;
    var d := DecisionFor(cfg, call, OnResult);
    ResultPhaseParts(cfg, a1, b1, call, cls, before.Slowed?, result);
    OnlyQuietSplits(cfg, a, b, d, cls, result);
    OnlyQuietSplits(cfg, a1, b1, d, cls, result);
    if !cfg.debug {
      DeferredQuiet(cfg, false, a, call, cls, before);
    }
  }

  lemma InterveneParts(cfg: Config, a: State, b: State, call: Call, cls: Classification, reply: Reply)
    requires Lags(cfg, a, b)
    ensures Parts(cfg, SplitsIn(cfg, a, b.house.released, call, cls, reply), Intervene(cfg, false, a, call, cls, reply).0,
                  Intervene(cfg, true, b, call, cls, reply).0)
  {
    hide Lags, BeforePhase, DeferredDebug, DecisionFor, Intervenes, SplitsOn, ResultPhase, RefuseResult,
         FaultSequence, RowCap, Fetch;
    BeforePhaseLags(cfg, a, b, call, cls);
    var (a1, before) := BeforePhase(cfg, false, a, call, cls);
    var b1 := BeforePhase(cfg, true, b, call, cls).0;
    if !before.Refused? {
      match Fetch(reply, RowCap(cfg, cls)) {
        case BackendError =>
        case CapExceeded => RefusalLags(cfg, a1, b1, call);
        case Fetched(result) =>
          FetchedParts(cfg, a1, b1, call, cls, before, result, DeferredDebug(cfg, false, a1, call, cls, before),
                       DeferredDebug(cfg, true, b1, call, cls, before));
      }
    }
  }

  lemma CallLags(cfg: Config, a: State, b: State, op: Operation)
    requires Lags(cfg, a, b) && op.Execute? && op.params.Positional?
    ensures CallFor(cfg, b, op) == CallFor(cfg, a, op)
    ensures Lags(cfg, Begin(a, CallFor(cfg, a, op)), Begin(b, CallFor(cfg, a, op)))
    ensures Begin(b, CallFor(cfg, a, op)).house == b.house
  {
    hide TemplateFingerprint;
  }

  lemma ReturnTreasureLags(cfg: Config, a: State, b: State, id: string)
    requires Lags(cfg, a, b)
    ensures Lags(cfg, Step(cfg, false, a, ReturnTreasure(id)).0, Step(cfg, true, b, ReturnTreasure(id)).0)
  {
    hide Lags, GiveBack, Cancel, H.Find;
    CancelLags(cfg, a, b, id);
    GiveBackLags(cfg, Cancel(cfg, a, id), Cancel(cfg, b, id), id, ManualReturn);
  }

  /** One operation makes the injected faults differ, or the runs still differ in nothing but releases. */
  lemma StepParts(cfg: Config, a: State, b: State, op: Operation)
    requires Lags(cfg, a, b)
    ensures Parts(cfg, Splits(cfg, a, b, op), Step(cfg, false, a, op).0, Step(cfg, true, b, op).0)
  {
    match op {
      case Execute(_, _, _, _) =>
        hide Lags, BeginOperation, Intervene, CallFor, SplitsIn, FaultSequence;
        BeginLags(cfg, a, b);
        var a0, b0 := BeginOperation(cfg, a), BeginOperation(cfg, b);
        if PassthroughReason(op.params, op.cls) == None {
          CallLags(cfg, a0, b0, op);
          var call := CallFor(cfg, a0, op);
          InterveneParts(cfg, Begin(a0, call), Begin(b0, call), call, op.cls, op.reply);
        }
      case ExecuteMany(_) =>
        hide Lags, BeginOperation, FaultSequence;
        BeginLags(cfg, a, b);
      case ReturnTreasure(id) =>
        hide Lags, Step, FaultSequence;
        ReturnTreasureLags(cfg, a, b, id);
      case ReturnAll =>
        hide Lags, Step, FaultSequence;
        ReturnAllLags(cfg, a, b);
    }
  }

  // ----- Over whole runs -----

  predicate SplitsAt(cfg: Config, ops: seq<Operation>, j: nat)
    requires j < |ops|
  {
    Splits(cfg, After(cfg, false, ops[..j]), After(cfg, true, ops[..j]), ops[j])
  }

  /** After its j-th operation a run has injected the same faults as the debug run, in the same order. */
  predicate SameFaultsAt(cfg: Config, ops: seq<Operation>, j: nat)
    requires j < |ops|
  {
    FaultSequence(After(Loud(cfg), false, ops[..j + 1]).log) == FaultSequence(After(cfg, false, ops[..j + 1]).log)
  }

  /** After its j-th operation a run has logged the same events as the debug run but for evaluated decisions, numbers and
      ids. */
  predicate SameEventsAt(cfg: Config, ops: seq<Operation>, j: nat)
    requires j < |ops|
  {
    Fired(After(Loud(cfg), false, ops[..j + 1]).log) == Fired(After(cfg, false, ops[..j + 1]).log)
  }

  lemma EventsOfDebugRun(cfg: Config, ops: seq<Operation>)
    ensures Fired(After(Loud(cfg), false, ops).log) == Fired(After(cfg, true, ops).log)
  {
    hide After, Fired, Plain;
    RunsAlike(cfg, ops);
  }

  lemma NextParts(cfg: Config, ops: seq<Operation>, j: nat)
    requires j < |ops| && Lags(cfg, After(cfg, false, ops[..j]), After(cfg, true, ops[..j]))
    ensures SameFaultsAt(cfg, ops, j) <==> !SplitsAt(cfg, ops, j)
    ensures SameEventsAt(cfg, ops, j) <==> !SplitsAt(cfg, ops, j)
    ensures !SplitsAt(cfg, ops, j) ==> Lags(cfg, After(cfg, false, ops[..j + 1]), After(cfg, true, ops[..j + 1]))
  {
    hide Lags, Step, After, Splits, FaultSequence, Fired;
    C.AfterNext(cfg, false, ops, j);
    C.AfterNext(cfg, true, ops, j);
    EventsOfDebugRun(cfg, ops[..j + 1]);
    var a, b := After(cfg, false, ops[..j + 1]), After(cfg, true, ops[..j + 1]);
    StepParts(cfg, After(cfg, false, ops[..j]), After(cfg, true, ops[..j]), ops[j]);
    FiredFaults(a.log);
    FiredFaults(b.log);
    FiredFaults(After(Loud(cfg), false, ops[..j + 1]).log);
    if !SplitsAt(cfg, ops, j) {
      SameButReleased(cfg, a, b);
    }
  }

  lemma LagsAtStart(cfg: Config, ops: seq<Operation>)
    ensures Lags(cfg, After(cfg, false, ops[..0]), After(cfg, true, ops[..0]))
  {
  }

  lemma {:induction false} SameFaultsUpTo(cfg: Config, ops: seq<Operation>, k: nat)
    requires k <= |ops|
    ensures (forall j | 0 <= j < k :: SameFaultsAt(cfg, ops, j)) <==> (forall j | 0 <= j < k :: !SplitsAt(cfg, ops, j))
    ensures (forall j | 0 <= j < k :: SameEventsAt(cfg, ops, j)) <==> (forall j | 0 <= j < k :: !SplitsAt(cfg, ops, j))
    ensures (forall j | 0 <= j < k :: !SplitsAt(cfg, ops, j)) ==>
            Lags(cfg, After(cfg, false, ops[..k]), After(cfg, true, ops[..k]))
  {
    hide Lags, After, SameFaultsAt, SameEventsAt, SplitsAt;
    if k == 0 {
      LagsAtStart(cfg, ops);
    } else {
      SameFaultsUpTo(cfg, ops, k - 1);
      if forall j | 0 <= j < k - 1 :: !SplitsAt(cfg, ops, j) {
        NextParts(cfg, ops, k - 1);
      }
    }
  }

  /** The debug run injects the same faults in the same order, and logs the same events but for evaluated decisions, over
      exactly the runs in which no operation evaluates a result with rows of a template whose release only the quiet run
      still has, while STASH fires and either the house takes the row or the quiet run selects another fault. */
  lemma SameFaultsExactly(cfg: Config, ops: seq<Operation>)
    ensures (forall j | 0 <= j < |ops| :: SameFaultsAt(cfg, ops, j)) <==>
            (forall j | 0 <= j < |ops| :: !SplitsAt(cfg, ops, j))
    ensures (forall j | 0 <= j < |ops| :: SameEventsAt(cfg, ops, j)) <==>
            (forall j | 0 <= j < |ops| :: !SplitsAt(cfg, ops, j))
  {
    hide Lags, After, SameFaultsAt, SameEventsAt, SplitsAt;
    SameFaultsUpTo(cfg, ops, |ops|);
  }

  // ----- Runs in which no spending is skipped -----

  predicate SpendLapsesAt(cfg: Config, ops: seq<Operation>, j: nat)
    requires j < |ops|
  {
    SpendLapse(cfg, After(cfg, true, ops[..j]), ops[j])
  }

  predicate SameStateAt(cfg: Config, ops: seq<Operation>, j: nat)
    requires j < |ops|
  {
    After(cfg, false, ops[..j + 1]) == After(cfg, true, ops[..j + 1])
  }

  lemma NextStates(cfg: Config, ops: seq<Operation>, j: nat)
    requires j < |ops| && After(cfg, false, ops[..j]) == After(cfg, true, ops[..j])
    ensures SameStateAt(cfg, ops, j) <==> !SpendLapsesAt(cfg, ops, j)
  {
    hide Step, After, SpendLapse;
    C.AfterNext(cfg, false, ops, j);
    C.AfterNext(cfg, true, ops, j);
    StatesAgree(cfg, After(cfg, true, ops[..j]), ops[j]);
  }

  lemma SameStart(cfg: Config, ops: seq<Operation>)
    ensures After(cfg, false, ops[..0]) == After(cfg, true, ops[..0])
  {
  }

  lemma {:induction false} SameStatesUpTo(cfg: Config, ops: seq<Operation>, k: nat)
    requires k <= |ops|
    ensures (forall j | 0 <= j < k :: SameStateAt(cfg, ops, j)) <==> (forall j | 0 <= j < k :: !SpendLapsesAt(cfg, ops, j))
    ensures (forall j | 0 <= j < k :: SameStateAt(cfg, ops, j)) ==> After(cfg, false, ops[..k]) == After(cfg, true, ops[..k])
  {
    hide After, SpendLapsesAt;
    if k == 0 {
      SameStart(cfg, ops);
    } else {
      SameStatesUpTo(cfg, ops, k - 1);
      if forall j | 0 <= j < k - 1 :: SameStateAt(cfg, ops, j) {
        NextStates(cfg, ops, k - 1);
      }
    }
  }

  /** The fast path keeps the states of always deciding over exactly the runs that skip no spending of a release. */
  lemma SameStates(cfg: Config, ops: seq<Operation>)
    ensures (forall j | 0 <= j < |ops| :: SameStateAt(cfg, ops, j)) <==>
            (forall j | 0 <= j < |ops| :: !SpendLapsesAt(cfg, ops, j))
  {
    SameStatesUpTo(cfg, ops, |ops|);
  }

  /** Where no spending is skipped the debug run injects the same faults in the same order, whatever rows show again. */
  lemma SameFaults(cfg: Config, ops: seq<Operation>)
    requires forall j | 0 <= j < |ops| :: !SpendLapsesAt(cfg, ops, j)
    ensures FaultSequence(After(Loud(cfg), false, ops).log) == FaultSequence(After(cfg, false, ops).log)
  {
    hide After, SpendLapsesAt, FaultSequence;
    SameStatesUpTo(cfg, ops, |ops|);
    assert ops[..|ops|] == ops;
    FaultsOfDebugRun(cfg, ops);
  }
}
