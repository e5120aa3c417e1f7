/** Bound parameters do not matter unless they are included: runs that differ only in the fingerprints of their parameters
    differ only in the fingerprints their events and treasures carry. */
module ParameterErasure {
  import opened Models
  import opened Decisions
  import opened Adapters
  import opened Faults
  import opened Session
  import opened Transforms
  import Invariants
  import FE = FaultEngine
  import DR = DebugRuns
  import Draws
  import H = House
  import AR = AutoReturn
  import M = MoodEngine
  import SC = StaleCache

  // ----- Erasing the fingerprints -----

  function ErasedContext(c: Context): Context { c.(parameter := "") }

  function ErasedEvent(e: Event): Event {
    e.(context := if e.context.Some? then Some(ErasedContext(e.context.value)) else None)
  }

  function ErasedLog(log: seq<Event>): (r: seq<Event>)
    ensures |r| == |log|
  {
    seq(|log|, i requires 0 <= i < |log| => ErasedEvent(log[i]))
  }

  function ErasedTreasure(t: Treasure): Treasure { t.(context := ErasedContext(t.context)) }

  function ErasedTreasures(ts: seq<Treasure>): (r: seq<Treasure>)
    ensures |r| == |ts|
  {
    seq(|ts|, i requires 0 <= i < |ts| => ErasedTreasure(ts[i]))
  }

  function ErasedHouse(h: H.House): H.House { h.(treasures := ErasedTreasures(h.treasures)) }

  function Erased(s: State): State { s.(log := ErasedLog(s.log), house := ErasedHouse(s.house)) }

  function ErasedDecision(d: Decision): Decision { d.(context := ErasedContext(d.context)) }

  function ErasedCall(call: Call): Call { call.(parameter := "") }

  function ErasedOperation(op: Operation): Operation {
    if op.Execute? && op.params.Positional? then op.(params := op.params.(fingerprint := "")) else op
  }

  function ErasedOperations(ops: seq<Operation>): (r: seq<Operation>)
    ensures |r| == |ops|
  {
    seq(|ops|, i requires 0 <= i < |ops| => ErasedOperation(ops[i]))
  }

  function ErasedAnswer(delivery: Delivery): Delivery {
    if delivery.HandedBack? then HandedBack(ErasedTreasures(delivery.treasures)) else delivery
  }

  function ErasedBoth(x: (State, Delivery)): (State, Delivery) { (Erased(x.0), ErasedAnswer(x.1)) }

  // ----- Logging -----

  lemma LoggedErased(s: State, id: string, eventType: EventType, fault: Option<Fault>, phase: Option<Phase>,
                     context: Option<Context>, outcome: Option<Outcome>, details: Details)
    ensures Logged(Erased(s), id, eventType, fault, phase,
                   if context.Some? then Some(ErasedContext(context.value)) else None, outcome, details) ==
            Erased(Logged(s, id, eventType, fault, phase, context, outcome, details))
  {
    var s' := Logged(s, id, eventType, fault, phase, context, outcome, details);
    assert ErasedLog(s'.log) == ErasedLog(s.log) + [ErasedEvent(s'.log[|s.log|])];
  }

  lemma SameEventId(cfg: Config, s: State, key: string, name: EventName)
    ensures NextEventId(cfg, Erased(s), key, name) == NextEventId(cfg, s, key, name)
  {
    hide DeterministicId;
  }

  lemma LastIdErased(s: State)
    requires s.log != []
    ensures LastEventId(Erased(s)) == LastEventId(s)
  {
  }

  lemma FaultErased(cfg: Config, s: State, d: Decision, fault: Fault, outcome: Outcome, details: Details)
    ensures var s' := LogFault(cfg, s, d, fault, outcome, details);
            && LogFault(cfg, Erased(s), ErasedDecision(d), fault, outcome, details) == Erased(s')
            && s'.log != [] && LastEventId(Erased(s')) == LastEventId(s')
  {
    SameEventId(cfg, s, d.context.key, OfFault(fault));
    hide NextEventId, Erased;
    LoggedErased(s, NextEventId(cfg, s, d.context.key, OfFault(fault)), FaultInjected, Some(fault), Some(d.phase),
                 Some(d.context), Some(outcome), details);
    LastIdErased(LogFault(cfg, s, d, fault, outcome, details));
  }

  lemma LimitErased(cfg: Config, s: State, d: Decision, outcome: Outcome, details: Details)
    ensures var s' := LogLimit(cfg, s, d, outcome, details);
            && LogLimit(cfg, Erased(s), ErasedDecision(d), outcome, details) == Erased(s')
            && s'.log != [] && LastEventId(Erased(s')) == LastEventId(s')
  {
    SameEventId(cfg, s, d.context.key, LIMIT);
    hide NextEventId, Erased;
    LoggedErased(s, NextEventId(cfg, s, d.context.key, LIMIT), LimitExceeded, None, Some(d.phase), Some(d.context),
                 Some(outcome), details);
    LastIdErased(LogLimit(cfg, s, d, outcome, details));
  }

  lemma DecisionErased(cfg: Config, s: State, d: Decision, candidates: seq<Fault>)
    ensures LogDecision(cfg, Erased(s), ErasedDecision(d), candidates) == Erased(LogDecision(cfg, s, d, candidates))
  {
    SameEventId(cfg, s, d.context.key, DECISION);
    hide NextEventId, Erased, Logged;
    LoggedErased(s, NextEventId(cfg, s, d.context.key, DECISION), DecisionEvaluated, None, Some(d.phase),
                 Some(d.context), Some(NotInjected), CandidateDetails(candidates));
  }

  lemma ReturnErased(cfg: Config, s: State, t: Treasure, phase: Phase)
    ensures LogReturn(cfg, Erased(s), ErasedTreasure(t), phase) == Erased(LogReturn(cfg, s, t, phase))
  {
    SameEventId(cfg, s, t.context.key, RETURN);
    hide NextEventId, Erased, Logged;
    LoggedErased(s, NextEventId(cfg, s, t.context.key, RETURN), TreasureReturned, Some(STASH), Some(phase),
                 Some(t.context), Some(GivenBack), ReturnDetails(t.treasureId));
  }

  // ----- The house -----

  lemma ErasedTail(ts: seq<Treasure>)
    requires ts != []
    ensures ErasedTreasures(ts)[0] == ErasedTreasure(ts[0]) && ErasedTreasures(ts)[1..] == ErasedTreasures(ts[1..])
    ensures ErasedTreasures(ts) == [ErasedTreasure(ts[0])] + ErasedTreasures(ts[1..])
  {
  }

  lemma ErasedCons(t: Treasure, ts: seq<Treasure>)
    ensures ErasedTreasures([t] + ts) == [ErasedTreasure(t)] + ErasedTreasures(ts)
  {
  }

  lemma {:induction false} FindErased(ts: seq<Treasure>, id: string)
    ensures H.Find(ErasedTreasures(ts), id) ==
            match H.Find(ts, id) case None => None case Some(t) => Some(ErasedTreasure(t))
    ensures H.Without(ErasedTreasures(ts), id) == ErasedTreasures(H.Without(ts, id))
  {
    hide ErasedTreasures;
    if ts == [] {
      assert ErasedTreasures(ts) == [];
    } else {
      ErasedTail(ts);
      FindErased(ts[1..], id);
      ErasedCons(ts[0], H.Without(ts[1..], id));
    }
  }

  lemma {:induction false} ActiveErased(ts: seq<Treasure>, template: string)
    ensures H.ActiveFor(ErasedTreasures(ts), template) == ErasedTreasures(H.ActiveFor(ts, template))
  {
    hide ErasedTreasures;
    if ts == [] {
      assert ErasedTreasures(ts) == [];
    } else {
      ErasedTail(ts);
      ActiveErased(ts[1..], template);
      ErasedCons(ts[0], H.ActiveFor(ts[1..], template));
    }
  }

  lemma HiddenErased(ts: seq<Treasure>)
    ensures HiddenRows(ErasedTreasures(ts)) == HiddenRows(ts) && H.Templates(ErasedTreasures(ts)) == H.Templates(ts)
    ensures ErasedTreasures(ts) == [] <==> ts == []
  {
    var r := ErasedTreasures(ts);
    forall t | t in ts ensures ErasedTreasure(t) in r {
      var i :| 0 <= i < |ts| && ts[i] == t;
      assert r[i] == ErasedTreasure(t);
    }
    forall u | u in r ensures exists t | t in ts :: u == ErasedTreasure(t) {
      var i :| 0 <= i < |r| && r[i] == u;
      assert ts[i] in ts;
    }
    forall n ensures n in HiddenRows(r) <==> n in HiddenRows(ts) {
      if t :| t in ts && t.rowIndex == n {
        assert ErasedTreasure(t) in r && ErasedTreasure(t).rowIndex == n;
      }
    }
    forall x ensures x in H.Templates(r) <==> x in H.Templates(ts) {
      if t :| t in ts && t.context.template == x {
        assert ErasedTreasure(t) in r && ErasedTreasure(t).context.template == x;
      }
    }
  }

  lemma VacantErased(ts: seq<Treasure>, t: Treasure)
    ensures H.Vacant(ErasedTreasures(ts), ErasedTreasure(t)) == H.Vacant(ts, t)
  {
    var r := ErasedTreasures(ts);
    assert forall i | 0 <= i < |ts| :: r[i].treasureId == ts[i].treasureId && H.LocationOf(r[i]) == H.LocationOf(ts[i]);
    assert H.LocationOf(ErasedTreasure(t)) == H.LocationOf(t);
    assert forall i | 0 <= i < |ts| :: ts[i] in ts && r[i] in r;
  }

  lemma AppendErased(ts: seq<Treasure>, t: Treasure)
    ensures ErasedTreasures(ts + [t]) == ErasedTreasures(ts) + [ErasedTreasure(t)]
  {
  }

  // ----- Returns and the clock -----

  lemma ReturnedErased(house: H.House, id: string)
    ensures H.Returned(ErasedHouse(house), id) == ErasedHouse(H.Returned(house, id))
  {
    hide H.Find, H.Without, ErasedTreasures;
    FindErased(house.treasures, id);
  }

  lemma GiveBackErased(cfg: Config, s: State, id: string, phase: Phase)
    ensures GiveBack(cfg, Erased(s), id, phase) == Erased(GiveBack(cfg, s, id, phase))
  {
    hide H.Find, H.Returned, LogReturn, ErasedTreasures, ErasedLog;
    FindErased(s.house.treasures, id);
    ReturnedErased(s.house, id);
    var found := H.Find(s.house.treasures, id);
    if found.Some? {
      ReturnErased(cfg, s.(house := H.Returned(s.house, id)), found.value, phase);
    }
  }

  lemma {:induction false} GiveBackAllErased(cfg: Config, s: State, ids: seq<string>, phase: Phase)
    ensures GiveBackAll(cfg, Erased(s), ids, phase) == Erased(GiveBackAll(cfg, s, ids, phase))
  {
    hide GiveBack, Erased;
    if ids != [] {
      var front := ids[..|ids| - 1];
      GiveBackAllErased(cfg, s, front, phase);
      GiveBackErased(cfg, GiveBackAll(cfg, s, front, phase), ids[|ids| - 1], phase);
    }
  }

  lemma CancelErased(cfg: Config, s: State, id: string)
    ensures Cancel(cfg, Erased(s), id) == Erased(Cancel(cfg, s, id))
  {
    hide AR.Cancelled, ErasedLog, ErasedHouse;
  }

  lemma {:induction false} CancelAndLogErased(cfg: Config, s: State, all: seq<Treasure>, k: nat)
    requires k <= |all|
    ensures CancelAndLog(cfg, Erased(s), ErasedTreasures(all)[..k]) == Erased(CancelAndLog(cfg, s, all[..k]))
  {
    hide CancelAndLog, LogReturn, Cancel, Erased;
    if k == 0 {
      Invariants.CancelAndLogNone(cfg, s, all);
      Invariants.CancelAndLogNone(cfg, Erased(s), ErasedTreasures(all));
    } else {
      CancelAndLogErased(cfg, s, all, k - 1);
      Invariants.CancelAndLogStep(cfg, s, all, k);
      Invariants.CancelAndLogStep(cfg, Erased(s), ErasedTreasures(all), k);
      var s1, t := CancelAndLog(cfg, s, all[..k - 1]), all[k - 1];
      CancelErased(cfg, s1, t.treasureId);
      ReturnErased(cfg, Cancel(cfg, s1, t.treasureId), t, ManualReturn);
    }
  }

  lemma ReturnAllErased(cfg: Config, force: bool, s: State)
    ensures Step(cfg, force, Erased(s), ReturnAll) == ErasedBoth(Step(cfg, force, s, ReturnAll))
  {
    hide CancelAndLog, ErasedTreasures, ErasedLog, H.Templates;
    var ts := s.house.treasures;
    HiddenErased(ts);
    NoneErased();
    CancelAndLogErased(cfg, s.(house := H.AllReturned(s.house)), ts, |ts|);
    assert ts[..|ts|] == ts && ErasedTreasures(ts)[..|ts|] == ErasedTreasures(ts);
  }

  lemma NoneErased()
    ensures ErasedTreasures([]) == []
  {
  }

  lemma ReturnTreasureErased(cfg: Config, force: bool, s: State, id: string)
    ensures Step(cfg, force, Erased(s), ReturnTreasure(id)) == ErasedBoth(Step(cfg, force, s, ReturnTreasure(id)))
  {
    hide GiveBack, Cancel, H.Find, ErasedTreasures, ErasedLog;
    FindErased(s.house.treasures, id);
    CancelErased(cfg, s, id);
    GiveBackErased(cfg, Cancel(cfg, s, id), id, ManualReturn);
    NoneErased();
    var found := H.Find(s.house.treasures, id);
    if found.Some? {
      AppendErased([], found.value);
      assert [] + [found.value] == [found.value] && [] + [ErasedTreasure(found.value)] == [ErasedTreasure(found.value)];
    }
  }

  lemma ReturnDueErased(cfg: Config, s: State)
    ensures ReturnDue(cfg, Erased(s)) == Erased(ReturnDue(cfg, s))
  {
    hide GiveBackAll, AR.Due, AR.Advanced, ErasedLog, ErasedHouse;
    if cfg.autoReturn.Some? {
      GiveBackAllErased(cfg, s.(schedule := AR.Advanced(s.schedule, s.tick)), AR.Due(s.schedule, s.tick), AutoReturn);
    }
  }

  lemma MoodErased(cfg: Config, s: State)
    ensures AdvanceMood(cfg, Erased(s)) == Erased(AdvanceMood(cfg, s))
  {
    hide M.Advanced, M.Transition, NextEventId, Logged, ErasedLog, ErasedHouse;
    if cfg.mood.Some? {
      var s1 := s.(mood := M.Advanced(cfg.mood.value, cfg.session, s.mood));
      match M.Transition(cfg.mood.value, cfg.session, s.mood) {
        case None =>
        case Some(t) =>
          SameEventId(cfg, s1, t.derivationKey, MOOD);
          LoggedErased(s1, NextEventId(cfg, s1, t.derivationKey, MOOD), MoodChanged, None, None, None, None,
                       MoodDetails(t.previous, t.current, t.tick));
      }
    }
  }

  lemma BeginErased(cfg: Config, s: State)
    ensures BeginOperation(cfg, Erased(s)) == Erased(BeginOperation(cfg, s))
  {
    hide ReturnDue, AdvanceMood, ErasedLog, ErasedHouse;
    if cfg.Clocked() {
      ReturnDueErased(cfg, s.(tick := s.tick + 1));
      MoodErased(cfg, ReturnDue(cfg, s.(tick := s.tick + 1)));
    }
  }

  // ----- The same choices -----

  /** The fingerprint takes part in no decision key. */
  lemma SameDecision(cfg: Config, call: Call, phase: Phase)
    requires !cfg.includeParams
    ensures DecisionFor(cfg, ErasedCall(call), phase) == ErasedDecision(DecisionFor(cfg, call, phase))
  {
    hide DecisionText, Tagged;
  }

  lemma SameInputs(cfg: Config, s: State, d: Decision, result: LogicalResult)
    requires !cfg.includeParams
    ensures ChewFor(cfg, ErasedDecision(d), result) == ChewFor(cfg, d, result)
    ensures KeyFor(cfg, ErasedDecision(d)) == KeyFor(cfg, d)
    ensures History(cfg, Erased(s), ErasedDecision(d)) == History(cfg, s, d)
  {
    hide Draw, ChewChoice, SC.Of;
  }

  lemma SameSelected(cfg: Config, s: State, d: Decision, cls: Classification, result: LogicalResult)
    requires !cfg.includeParams
    ensures FE.CandidatesAt(cfg, Erased(s), ErasedDecision(d), cls, result) == FE.CandidatesAt(cfg, s, d, cls, result)
    ensures FE.SelectedAt(cfg, Erased(s), ErasedDecision(d), cls, result) == FE.SelectedAt(cfg, s, d, cls, result)
    ensures Drops(cfg, Erased(s), ErasedDecision(d)) == Drops(cfg, s, d)
  {
    SameInputs(cfg, s, d, result);
    hide ChewFor, History, Candidates, Select;
  }

  lemma SameInjection(cfg: Config, d: Decision, fault: Fault, result: LogicalResult, chew: Option<Choice>,
                      history: seq<StaleEntry>)
    requires Applicable(fault, result, chew, history) && fault != STASH && fault != STASH_ERROR
    ensures Inject(cfg, ErasedDecision(d), fault, result, chew, history) == Inject(cfg, d, fault, result, chew, history)
  {
    hide Draw, Derive, BigEndian, Reordered, Swaps, Corrupts, Misreported;
    assert ShuffleDraws(cfg, ErasedDecision(d), |result.rows|) == ShuffleDraws(cfg, d, |result.rows|);
  }

  // ----- The phases of a statement -----

  lemma BeforeErased(cfg: Config, s: State, d: Decision, recordDebug: bool)
    ensures var (s', before) := BeforeExecution(cfg, s, d, recordDebug);
            BeforeExecution(cfg, Erased(s), ErasedDecision(d), recordDebug) == (Erased(s'), before)
  {
    hide LogFault, LogDecision, BeforeExecution, Draw, Select, ErasedLog, ErasedHouse;
    var fault := BeforeFault(cfg, s, d);
    assert BeforeFault(cfg, Erased(s), ErasedDecision(d)) == fault;
    hide BeforeFault, Erased;
    match fault {
      case None =>
        DR.BeforeNone(cfg, s, d, recordDebug);
        DR.BeforeNone(cfg, Erased(s), ErasedDecision(d), recordDebug);
        DecisionErased(cfg, s, d, BEFORE_EXECUTE_PRIORITY);
      case Some(f) =>
        DR.BeforeSome(cfg, s, d, recordDebug, f);
        DR.BeforeSome(cfg, Erased(s), ErasedDecision(d), recordDebug, f);
        var delay := 1 + Draws.ModularIndex(Draw(cfg.session, d.context.key, Delay), cfg.policy.slothMaxDelayMs);
        FaultErased(cfg, s, d, SLOTH, Delayed, DelayDetails(delay));
        FaultErased(cfg, s, d, f, NotExecuted, NoDetails);
    }
  }

  lemma NewTreasureErased(cfg: Config, s: State, d: Decision, result: LogicalResult)
    requires result.rows != []
    ensures NewTreasure(cfg, Erased(s), ErasedDecision(d), result) == ErasedTreasure(NewTreasure(cfg, s, d, result))
  {
    SameEventId(cfg, s, d.context.key, OfFault(STASH));
    hide Draw, DeterministicId, NextEventId, Erased;
  }

  lemma HousedErased(cfg: Config, s: State, t: Treasure)
    ensures Housed(cfg, Erased(s), ErasedTreasure(t)) == Erased(Housed(cfg, s, t))
    ensures H.Admits(Erased(s).house, ErasedTreasure(t), cfg.houseLimit) == H.Admits(s.house, t, cfg.houseLimit)
  {
    hide AR.Planned, AR.HoldFor, ErasedTreasures, ErasedLog, H.Vacant;
    VacantErased(s.house.treasures, t);
    AppendErased(s.house.treasures, t);
  }

  lemma StashErased(cfg: Config, s: State, d: Decision, result: LogicalResult)
    requires result.rows != []
    ensures Stash(cfg, Erased(s), ErasedDecision(d), result) == ErasedBoth(Stash(cfg, s, d, result))
  {
    hide Erased, H.Admits, NewTreasure, Housed, LogFault;
    var t := NewTreasure(cfg, s, d, result);
    NewTreasureErased(cfg, s, d, result);
    HousedErased(cfg, s, t);
    FaultErased(cfg, Housed(cfg, s, t), d, STASH, if cfg.policy.stashError then ReadPartial else RowsHidden,
                StashDetails([t.rowIndex], t.treasureId));
  }

  lemma ConsumedErased(s: State, template: string)
    ensures Erased(s).(house := H.Consumed(Erased(s).house, template)) == Erased(s.(house := H.Consumed(s.house, template)))
  {
    hide ErasedTreasures, ErasedLog;
  }

  lemma TreatedErased(cfg: Config, s: State, d: Decision, cls: Classification, result: LogicalResult)
    requires !cfg.includeParams
    ensures Treated(cfg, Erased(s), ErasedDecision(d), cls, result) == ErasedBoth(Treated(cfg, s, d, cls, result))
  {
    hide Erased, Treated, LogDecision, LogFault, Stash, Inject, ChewFor, History, Applicable, FE.SelectedAt, FE.CandidatesAt;
    SameSelected(cfg, s, d, cls, result);
    SameInputs(cfg, s, d, result);
    ConsumedErased(s, d.context.template);
    var s1 := s.(house := H.Consumed(s.house, d.context.template));
    match FE.SelectedAt(cfg, s, d, cls, result) {
      case None =>
        FE.TreatedNone(cfg, s, d, cls, result);
        FE.TreatedNone(cfg, Erased(s), ErasedDecision(d), cls, result);
        DecisionErased(cfg, s1, d, FE.CandidatesAt(cfg, s, d, cls, result));
      case Some(fault) =>
        DR.SelectedApplies(cfg, s, d, cls, result, fault);
        if fault == STASH || fault == STASH_ERROR {
          FE.TreatedStash(cfg, s, d, cls, result);
          FE.TreatedStash(cfg, Erased(s), ErasedDecision(d), cls, result);
          StashErased(cfg, s1, d, result);
        } else {
          InjectedErased(cfg, s, d, cls, result, fault);
        }
    }
  }

  lemma InjectedErased(cfg: Config, s: State, d: Decision, cls: Classification, result: LogicalResult, fault: Fault)
    requires !cfg.includeParams && FE.SelectedAt(cfg, s, d, cls, result) == Some(fault)
    requires fault != STASH && fault != STASH_ERROR && Applicable(fault, result, ChewFor(cfg, d, result), History(cfg, s, d))
    ensures Treated(cfg, Erased(s), ErasedDecision(d), cls, result) == ErasedBoth(Treated(cfg, s, d, cls, result))
  {
    hide Erased, Treated, LogFault, Inject, ChewFor, History, Applicable, FE.SelectedAt, FE.CandidatesAt;
    SameSelected(cfg, s, d, cls, result);
    SameInputs(cfg, s, d, result);
    ConsumedErased(s, d.context.template);
    var chew, history := ChewFor(cfg, d, result), History(cfg, s, d);
    DR.TreatedInjects(cfg, s, d, cls, result, fault, chew, history);
    DR.TreatedInjects(cfg, Erased(s), ErasedDecision(d), cls, result, fault, chew, history);
    SameInjection(cfg, d, fault, result, chew, history);
    var injection := Inject(cfg, d, fault, result, chew, history);
    FaultErased(cfg, s.(house := H.Consumed(s.house, d.context.template)), d, fault, injection.outcome, injection.details);
  }

  lemma StickyErased(s: State, template: string)
    ensures var sticky, sticky' := H.ActiveFor(s.house.treasures, template), H.ActiveFor(Erased(s).house.treasures, template);
            (sticky' == [] <==> sticky == []) && HiddenRows(sticky') == HiddenRows(sticky)
  {
    hide ErasedTreasures, ErasedLog, H.ActiveFor, H.Templates, HiddenRows;
    ActiveErased(s.house.treasures, template);
    HiddenErased(H.ActiveFor(s.house.treasures, template));
  }

  lemma OnResultErased(cfg: Config, s: State, d: Decision, cls: Classification, result: LogicalResult)
    requires !cfg.includeParams
    ensures Faults.OnResult(cfg, Erased(s), ErasedDecision(d), cls, result) == ErasedBoth(Faults.OnResult(cfg, s, d, cls, result))
  {
    hide Erased, Treated, H.ActiveFor, HiddenRows, LogFault, LogLimit, Drops, Visible, ErasedTreasures, FE.SelectedAt,
         FE.CandidatesAt;
    SameSelected(cfg, s, d, cls, result);
    StickyErased(s, d.context.template);
    LimitErased(cfg, s, d, if cfg.policy.maxRowsError then LimitError else FaultSkipped,
                LimitDetails(MaxInterventionRows, cfg.maxInterventionRows, Some(|result.rows|)));
    FaultErased(cfg, s, d, NO_DROP, ResponseLost, NoDetails);
    TreatedErased(cfg, s, d, cls, result);
  }

  lemma CachedErased(cfg: Config, s: State, call: Call, cls: Classification, result: LogicalResult)
    requires !cfg.includeParams
    ensures Cached(cfg, Erased(s), ErasedCall(call), cls, result) == Erased(Cached(cfg, s, call, cls, result))
  {
    SameDecision(cfg, call, OnResult);
    SameInputs(cfg, s, DecisionFor(cfg, call, OnResult), result);
    hide DecisionFor, KeyFor, SC.Added, ErasedLog, ErasedHouse, ChewFor, History;
  }

  lemma ResultPhaseErased(cfg: Config, force: bool, s: State, call: Call, cls: Classification, slowed: bool,
                          result: LogicalResult)
    requires !cfg.includeParams
    ensures ResultPhase(cfg, force, Erased(s), ErasedCall(call), cls, slowed, result) ==
            ErasedBoth(ResultPhase(cfg, force, s, call, cls, slowed, result))
  {
    assert Erased(s).mood == s.mood;
    hide Erased, Faults.OnResult, DecisionFor, Intervenes, Cached, ErasedTreasures;
    SameDecision(cfg, call, OnResult);
    OnResultErased(cfg, s, DecisionFor(cfg, call, OnResult), cls, result);
    var x := if Intervenes(cfg, force, s.mood.mood, cls, slowed, |result.rows|)
             then Faults.OnResult(cfg, s, DecisionFor(cfg, call, OnResult), cls, result) else (s, Delivered(result));
    if x.1.Delivered? {
      CachedErased(cfg, x.0, call, cls, x.1.result);
    }
  }

  lemma BeforePhaseErased(cfg: Config, force: bool, s: State, call: Call, cls: Classification)
    requires !cfg.includeParams
    ensures var (s1, before) := BeforePhase(cfg, force, s, call, cls);
            && BeforePhase(cfg, force, Erased(s), ErasedCall(call), cls) == (Erased(s1), before)
            && DeferredDebug(cfg, force, Erased(s1), ErasedCall(call), cls, before) ==
               Erased(DeferredDebug(cfg, force, s1, call, cls, before))
  {
    var s1 := BeforePhase(cfg, force, s, call, cls).0;
    assert Erased(s).mood == s.mood && Erased(s1).mood == s1.mood;
    hide Erased, BeforeExecution, LogDecision, DecisionFor, EvaluatesBefore, RowCap;
    SameDecision(cfg, call, BeforeExecute);
    BeforeErased(cfg, s, DecisionFor(cfg, call, BeforeExecute), RowCap(cfg, cls).None?);
    DecisionErased(cfg, s1, DecisionFor(cfg, call, BeforeExecute), BEFORE_EXECUTE_PRIORITY);
  }

  lemma RefusalErased(cfg: Config, s: State, call: Call)
    requires !cfg.includeParams
    ensures RefuseResult(cfg, Erased(s), ErasedCall(call)) == ErasedBoth(RefuseResult(cfg, s, call))
  {
    hide Erased, LogLimit, DecisionFor;
    SameDecision(cfg, call, OnResult);
    LimitErased(cfg, s, DecisionFor(cfg, call, OnResult), LimitError,
                LimitDetails(MaxResultRows, if cfg.maxResultRows.Some? then cfg.maxResultRows.value else 0, None));
  }

  lemma ErasedLast(s: State)
    ensures (if Erased(s).log == [] then "" else LastEventId(Erased(s))) == (if s.log == [] then "" else LastEventId(s))
  {
  }

  lemma InterveneErased(cfg: Config, force: bool, s: State, call: Call, cls: Classification, reply: Reply)
    requires !cfg.includeParams
    ensures Intervene(cfg, force, Erased(s), ErasedCall(call), cls, reply) ==
            ErasedBoth(Intervene(cfg, force, s, call, cls, reply))
  {
    hide Erased, BeforePhase, DeferredDebug, ResultPhase, RefuseResult, Fetch, RowCap, DecisionFor, ErasedTreasures;
    BeforePhaseErased(cfg, force, s, call, cls);
    var (s1, before) := BeforePhase(cfg, force, s, call, cls);
    ErasedLast(s1);
    if !before.Refused? {
      match Fetch(reply, RowCap(cfg, cls)) {
        case BackendError =>
        case CapExceeded => RefusalErased(cfg, s1, call);
        case Fetched(result) =>
          ResultPhaseErased(cfg, force, DeferredDebug(cfg, force, s1, call, cls, before), call, cls, before.Slowed?, result);
      }
    }
  }

  // ----- Operations and runs -----

  lemma CallErased(cfg: Config, s: State, op: Operation)
    requires op.Execute? && op.params.Positional?
    ensures var call := CallFor(cfg, s, op);
            && CallFor(cfg, Erased(s), ErasedOperation(op)) == ErasedCall(call)
            && Begin(Erased(s), ErasedCall(call)) == Erased(Begin(s, call))
  {
    hide TemplateFingerprint, ErasedLog, ErasedHouse;
  }

  /** An operation without its fingerprint takes an erased state to the erased outcome. */
  lemma StepErased(cfg: Config, force: bool, s: State, op: Operation)
    requires !cfg.includeParams
    ensures Step(cfg, force, Erased(s), ErasedOperation(op)) == ErasedBoth(Step(cfg, force, s, op))
  {
    match op {
      case Execute(_, _, _, _) =>
        hide Erased, BeginOperation, Intervene, CallFor, ErasedTreasures;
        BeginErased(cfg, s);
        var s0 := BeginOperation(cfg, s);
        if PassthroughReason(op.params, op.cls) == None {
          CallErased(cfg, s0, op);
          var call := CallFor(cfg, s0, op);
          InterveneErased(cfg, force, Begin(s0, call), call, op.cls, op.reply);
        }
      case ExecuteMany(_) =>
        hide Erased, BeginOperation;
        BeginErased(cfg, s);
      case ReturnTreasure(id) =>
        hide Erased, Step;
        ReturnTreasureErased(cfg, force, s, id);
      case ReturnAll =>
        hide Erased, Step;
        ReturnAllErased(cfg, force, s);
    }
  }

  lemma InitErased()
    ensures Erased(Init()) == Init()
  {
  }

  lemma ErasedFront(ops: seq<Operation>)
    requires ops != []
    ensures ErasedOperations(ops)[..|ops| - 1] == ErasedOperations(ops[..|ops| - 1])
    ensures ErasedOperations(ops)[|ops| - 1] == ErasedOperation(ops[|ops| - 1])
  {
  }

  lemma {:induction false} AfterErased(cfg: Config, force: bool, ops: seq<Operation>)
    requires !cfg.includeParams
    ensures After(cfg, force, ErasedOperations(ops)) == Erased(After(cfg, force, ops))
  {
    hide Erased, Step, ErasedOperation;
    if ops == [] {
      InitErased();
    } else {
      var front := ops[..|ops| - 1];
      hide ErasedOperations;
      ErasedFront(ops);
      AfterErased(cfg, force, front);
      StepErased(cfg, force, After(cfg, force, front), ops[|ops| - 1]);
    }
  }

  /** The two runs consist of the same operations but for the fingerprints of their parameters. */
  predicate SameButParameters(ops: seq<Operation>, ops': seq<Operation>) {
    ErasedOperations(ops') == ErasedOperations(ops)
  }

  /** Without included parameters no bound value reaches anything but the fingerprints that events and treasures carry:
      states, answers and logs of the two runs agree in everything else, after every operation. */
  lemma ParametersDoNotMatter(cfg: Config, force: bool, ops: seq<Operation>, ops': seq<Operation>)
    requires !cfg.includeParams && SameButParameters(ops, ops')
    ensures |ops'| == |ops| && Erased(After(cfg, force, ops')) == Erased(After(cfg, force, ops))
    ensures forall j | 0 <= j < |ops| ::
              ErasedAnswer(Answer(cfg, force, ops', j)) == ErasedAnswer(Answer(cfg, force, ops, j))
  {
    assert |ops'| == |ErasedOperations(ops')| == |ErasedOperations(ops)| == |ops|;
    hide After, Step, Erased, ErasedAnswer;
    AfterErased(cfg, force, ops);
    AfterErased(cfg, force, ops');
    forall j | 0 <= j < |ops|
      ensures ErasedAnswer(Answer(cfg, force, ops', j)) == ErasedAnswer(Answer(cfg, force, ops, j))
    {
      AnswerErased(cfg, force, ops, j);
      AnswerErased(cfg, force, ops', j);
    }
  }

  lemma AnswerErased(cfg: Config, force: bool, ops: seq<Operation>, j: nat)
    requires !cfg.includeParams && j < |ops|
    ensures Answer(cfg, force, ErasedOperations(ops), j) == ErasedAnswer(Answer(cfg, force, ops, j))
  {
    hide After, Step, Erased, ErasedAnswer, ErasedOperation;
    assert ErasedOperations(ops)[..j] == ErasedOperations(ops[..j]);
    AfterErased(cfg, force, ops[..j]);
    StepErased(cfg, force, After(cfg, force, ops[..j]), ops[j]);
  }
}
