/** Which events one operation may append, and in which order. */
module EventGrammar {
  import opened Models
  import opened Decisions
  import opened Faults
  import opened Session
  import opened Adapters
  import opened Invariants
  import opened StepInvariants
  import H = House
  import AR = AutoReturn
  import M = MoodEngine

  // ----- The kinds of events -----

  predicate ReturnEvent(e: Event, phase: Phase) { e.eventType == TreasureReturned && e.phase == Some(phase) }

  predicate MoodEvent(e: Event) { e.eventType == MoodChanged }

  predicate RefusalEvent(e: Event) {
    e.eventType == FaultInjected && e.phase == Some(BeforeExecute) && e.fault in {Some(BARK), Some(GUARD_BOWL), Some(IGNORE)}
  }

  predicate SlothEvent(e: Event) {
    e.eventType == FaultInjected && e.phase == Some(BeforeExecute) && e.fault == Some(SLOTH)
  }

  predicate DecisionEvent(e: Event, phase: Phase) { e.eventType == DecisionEvaluated && e.phase == Some(phase) }

  predicate LimitEvent(e: Event, limit: Limit) {
    e.eventType == LimitExceeded && e.details.LimitDetails? && e.details.limit == limit
  }

  predicate ResultFaultEvent(e: Event) {
    && e.eventType == FaultInjected && e.phase == Some(OnResult)
    && e.fault.Some? && e.fault.value != STASH_ERROR && e.fault.value in ON_RESULT_PRIORITY
  }

  /** What the on-result phase appends. */
  predicate ResultEvents(es: seq<Event>) {
    es == [] ||
    (|es| == 1 && (ResultFaultEvent(es[0]) || LimitEvent(es[0], MaxInterventionRows) || DecisionEvent(es[0], OnResult)))
  }

  /** What a statement appends after its returns and its mood change. */
  predicate StatementEvents(es: seq<Event>) {
    || (|es| == 1 && RefusalEvent(es[0]))
    || (|es| == 1 && LimitEvent(es[0], MaxResultRows))
    || (|es| > 0 && SlothEvent(es[0]) && (|es| == 1 || (|es| == 2 && LimitEvent(es[1], MaxResultRows))))
    || ResultEvents(es)
    || (|es| > 0 && DecisionEvent(es[0], BeforeExecute) && ResultEvents(es[1..]))
  }

  // ----- Each phase -----

  lemma BeforeEvents(cfg: Config, s: State, d: Decision, recordDebug: bool)
    requires d.phase == BeforeExecute
    ensures var (s', before) := BeforeExecution(cfg, s, d, recordDebug);
            var es := s'.log[|s.log|..];
            && s.log <= s'.log
            && match before
               case Refused(_) => |es| == 1 && RefusalEvent(es[0])
               case Slowed => |es| == 1 && SlothEvent(es[0])
               case Proceed => es == [] || (recordDebug && |es| == 1 && DecisionEvent(es[0], BeforeExecute))
  {
    hide NextEventId, Fires, Draw;
  }

  lemma ResultPhaseEvents(cfg: Config, s: State, d: Decision, cls: Classification, result: LogicalResult)
    requires d.phase == OnResult
    ensures var s' := Faults.OnResult(cfg, s, d, cls, result).0;
            s.log <= s'.log && ResultEvents(s'.log[|s.log|..])
  {
    hide NextEventId, Drops, H.ActiveFor, Treated;
    TreatedEvents(cfg, s, d, cls, result);
  }

  lemma TreatedEvents(cfg: Config, s: State, d: Decision, cls: Classification, result: LogicalResult)
    requires d.phase == OnResult
    ensures var s' := Treated(cfg, s, d, cls, result).0;
            s.log <= s'.log && ResultEvents(s'.log[|s.log|..])
  {
    hide NextEventId, ChewFor, History, Candidates, Fires, Inject, Stash;
    var released, s1 := d.context.template in s.house.released, s.(house := H.Consumed(s.house, d.context.template));
    var chew, history := ChewFor(cfg, d, result), History(cfg, s, d);
    var candidates := Candidates(cfg, released, cls, result, chew.Some?, history != []);
    match Select(cfg, s.mood.mood, d.context.key, ON_RESULT_PRIORITY, candidates) {
      case None =>
      case Some(fault) =>
        CandidateApplies(cfg, released, cls, result, chew, history, fault);
        if fault == STASH || fault == STASH_ERROR {
          StashEvents(cfg, s1, d, result);
        }
    }
  }

  lemma StashEvents(cfg: Config, s: State, d: Decision, result: LogicalResult)
    requires d.phase == OnResult && result.rows != []
    ensures var s' := Stash(cfg, s, d, result).0;
            s.log <= s'.log && ResultEvents(s'.log[|s.log|..])
  {
    hide NextEventId, AR.Planned, AR.HoldFor, DeterministicId, Index, H.Vacant;
  }

  lemma DebugEvents(cfg: Config, s: State, d: Decision, candidates: seq<Fault>)
    ensures var s' := LogDecision(cfg, s, d, candidates);
            && s.log <= s'.log
            && (s'.log[|s.log|..] == [] || (|s'.log[|s.log|..]| == 1 && DecisionEvent(s'.log[|s.log|..][0], d.phase)))
  {
    hide NextEventId;
  }

  // ----- A statement -----

  lemma Suffixes(a: seq<Event>, b: seq<Event>, c: seq<Event>)
    requires a <= b <= c
    ensures a <= c && c[|a|..] == b[|a|..] + c[|b|..]
  {
  }

  /** What the before-execute phase has appended, given how it ended. */
  predicate BeforeEventsFor(es: seq<Event>, before: Before, capped: bool) {
    match before
    case Refused(_) => |es| == 1 && RefusalEvent(es[0])
    case Slowed => |es| == 1 && SlothEvent(es[0])
    case Proceed => es == [] || (!capped && |es| == 1 && DecisionEvent(es[0], BeforeExecute))
  }

  lemma BeforePhaseEvents(cfg: Config, force: bool, s: State, call: Call, cls: Classification)
    ensures var (s1, before) := BeforePhase(cfg, force, s, call, cls);
            s.log <= s1.log && BeforeEventsFor(s1.log[|s.log|..], before, RowCap(cfg, cls).Some?)
  {
    hide BeforeExecution, EvaluatesBefore, KeyFor;
    BeforeEvents(cfg, s, DecisionFor(cfg, call, BeforeExecute), RowCap(cfg, cls).None?);
    assert s.log[|s.log|..] == [];
  }

  lemma DeferredEvents(cfg: Config, force: bool, s: State, call: Call, cls: Classification, before: Before)
    ensures var s' := DeferredDebug(cfg, force, s, call, cls, before);
            && s.log <= s'.log
            && (s'.log[|s.log|..] == [] ||
                (before == Proceed && RowCap(cfg, cls).Some? &&
                 |s'.log[|s.log|..]| == 1 && DecisionEvent(s'.log[|s.log|..][0], BeforeExecute)))
  {
    hide LogDecision, EvaluatesBefore;
    DebugEvents(cfg, s, DecisionFor(cfg, call, BeforeExecute), BEFORE_EXECUTE_PRIORITY);
    assert s.log[|s.log|..] == [];
  }

  lemma RefusedEvents(cfg: Config, s: State, call: Call)
    ensures var s' := RefuseResult(cfg, s, call).0;
            s.log <= s'.log && |s'.log[|s.log|..]| == 1 && LimitEvent(s'.log[|s.log|..][0], MaxResultRows)
  {
    hide NextEventId, DecisionFor;
  }

  /** The parts fit the grammar. */
  lemma Compose(before: Before, capped: bool, es1: seq<Event>, es2: seq<Event>, es3: seq<Event>)
    requires !before.Refused? && BeforeEventsFor(es1, before, capped)
    requires es2 == [] || (before == Proceed && capped && |es2| == 1 && DecisionEvent(es2[0], BeforeExecute))
    requires ResultEvents(es3) && (before == Slowed ==> es3 == [])
    ensures StatementEvents(es1 + es2 + es3)
  {
    hide ResultEvents, DecisionEvent, SlothEvent;
    if es1 == [] && es2 == [] {
      assert es1 + es2 + es3 == es3;
    } else {
      assert (es1 + es2 + es3)[1..] == es3;
    }
  }

  /** The statement grammar. */
  lemma InterveneEvents(cfg: Config, force: bool, s: State, call: Call, cls: Classification, reply: Reply)
    ensures var s' := Intervene(cfg, force, s, call, cls, reply).0;
            s.log <= s'.log && StatementEvents(s'.log[|s.log|..])
  {
    hide BeforePhase, ResultPhase, DeferredDebug, RefuseResult, Fetch, StatementEvents, BeforeEventsFor;
    BeforePhaseEvents(cfg, force, s, call, cls);
    var (s1, before) := BeforePhase(cfg, force, s, call, cls);
    var es1 := s1.log[|s.log|..];
    if before.Refused? {
      OneRefusal(before, RowCap(cfg, cls).Some?, es1);
    } else {
      match Fetch(reply, RowCap(cfg, cls)) {
        case BackendError =>
          Compose(before, RowCap(cfg, cls).Some?, es1, [], []);
          assert es1 + [] + [] == es1;
        case CapExceeded => InterruptedEvents(cfg, force, s, call, cls, reply);
        case Fetched(result) => FetchedEvents(cfg, force, s, call, cls, result);
      }
    }
  }

  lemma FetchedEvents(cfg: Config, force: bool, s: State, call: Call, cls: Classification, result: LogicalResult)
    requires !BeforePhase(cfg, force, s, call, cls).1.Refused?
    ensures var (s1, before) := BeforePhase(cfg, force, s, call, cls);
            var s2 := DeferredDebug(cfg, force, s1, call, cls, before);
            var s' := ResultPhase(cfg, force, s2, call, cls, before.Slowed?, result).0;
            s.log <= s'.log && StatementEvents(s'.log[|s.log|..])
  {
    hide BeforePhase, ResultPhase, DeferredDebug, StatementEvents, BeforeEventsFor, ResultEvents;
    BeforePhaseEvents(cfg, force, s, call, cls);
    var (s1, before) := BeforePhase(cfg, force, s, call, cls);
    DeferredEvents(cfg, force, s1, call, cls, before);
    var s2 := DeferredDebug(cfg, force, s1, call, cls, before);
    IntervenedEvents(cfg, force, s2, call, cls, before.Slowed?, result);
    var s' := ResultPhase(cfg, force, s2, call, cls, before.Slowed?, result).0;
    Suffixes(s.log, s1.log, s2.log);
    Suffixes(s.log, s2.log, s'.log);
    assert before.Slowed? ==> s'.log[|s2.log|..] == [];
    Compose(before, RowCap(cfg, cls).Some?, s1.log[|s.log|..], s2.log[|s1.log|..], s'.log[|s2.log|..]);
  }

  /** An interrupted capped read logs its limit, after at most a delay, and no decision. */
  lemma InterruptedEvents(cfg: Config, force: bool, s: State, call: Call, cls: Classification, reply: Reply)
    requires Fetch(reply, RowCap(cfg, cls)) == CapExceeded
    ensures var s' := Intervene(cfg, force, s, call, cls, reply).0;
            var es := s'.log[|s.log|..];
            && s.log <= s'.log && StatementEvents(es) && (forall e | e in es :: e.eventType != DecisionEvaluated)
            && (!BeforePhase(cfg, force, s, call, cls).1.Refused? ==>
                  es != [] && LimitEvent(es[|es| - 1], MaxResultRows))
  {
    hide BeforePhase, RefuseResult, Fetch, StatementEvents, BeforeEventsFor, LimitEvent, RowCap, DeferredDebug, ResultPhase;
    FetchCap(reply, RowCap(cfg, cls));
    BeforePhaseEvents(cfg, force, s, call, cls);
    var (s1, before) := BeforePhase(cfg, force, s, call, cls);
    if before.Refused? {
      OneRefusal(before, true, s1.log[|s.log|..]);
    } else {
      InterruptedRead(cfg, s, s1, call, before);
    }
  }

  lemma InterruptedRead(cfg: Config, s: State, s1: State, call: Call, before: Before)
    requires s.log <= s1.log && !before.Refused? && BeforeEventsFor(s1.log[|s.log|..], before, true)
    ensures var s' := RefuseResult(cfg, s1, call).0;
            var es := s'.log[|s.log|..];
            && s.log <= s'.log && StatementEvents(es) && (forall e | e in es :: e.eventType != DecisionEvaluated)
            && es != [] && LimitEvent(es[|es| - 1], MaxResultRows)
  {
    hide RefuseResult, StatementEvents, BeforeEventsFor, LimitEvent;
    RefusedEvents(cfg, s1, call);
    var s' := RefuseResult(cfg, s1, call).0;
    Suffixes(s.log, s1.log, s'.log);
    LimitAfter(before, s1.log[|s.log|..], s'.log[|s1.log|..]);
  }

  lemma FetchCap(reply: Reply, cap: Option<nat>)
    requires Fetch(reply, cap) == CapExceeded
    ensures cap.Some?
  {
  }

  lemma OneRefusal(before: Before, capped: bool, es: seq<Event>)
    requires before.Refused? && BeforeEventsFor(es, before, capped)
    ensures StatementEvents(es) && forall e | e in es :: e.eventType != DecisionEvaluated
  {
  }

  lemma LimitAfter(before: Before, es1: seq<Event>, es2: seq<Event>)
    requires !before.Refused? && BeforeEventsFor(es1, before, true)
    requires |es2| == 1 && LimitEvent(es2[0], MaxResultRows)
    ensures StatementEvents(es1 + es2) && forall e | e in es1 + es2 :: e.eventType != DecisionEvaluated
    ensures (es1 + es2)[|es1 + es2| - 1] == es2[0]
  {
  }

  lemma IntervenedEvents(cfg: Config, force: bool, s: State, call: Call, cls: Classification, slowed: bool,
                         result: LogicalResult)
    ensures var s' := ResultPhase(cfg, force, s, call, cls, slowed, result).0;
            s.log <= s'.log && ResultEvents(s'.log[|s.log|..]) && (slowed ==> s'.log == s.log)
  {
    hide Faults.OnResult, KeyFor;
    ResultPhaseEvents(cfg, s, DecisionFor(cfg, call, OnResult), cls, result);
    assert s.log[|s.log|..] == [];
  }

  // ----- The start of an operation -----

  predicate ReturnsThenMood(es: seq<Event>, n: nat) {
    && n <= |es|
    && (forall i | 0 <= i < n :: ReturnEvent(es[i], AutoReturn))
    && (n == |es| || (n == |es| - 1 && MoodEvent(es[n])))
  }

  /** Some automatic returns, then at most one mood change. */
  ghost predicate OpeningEvents(es: seq<Event>) { exists n :: ReturnsThenMood(es, n) }

  lemma {:induction false} GiveBackAllEvents(cfg: Config, s: State, ids: seq<string>, phase: Phase)
    ensures var s' := GiveBackAll(cfg, s, ids, phase);
            s.log <= s'.log && forall e | e in s'.log[|s.log|..] :: ReturnEvent(e, phase)
  {
    if ids == [] {
      assert s.log[|s.log|..] == [];
    } else {
      GiveBackAllEvents(cfg, s, ids[..|ids| - 1], phase);
      var s1 := GiveBackAll(cfg, s, ids[..|ids| - 1], phase);
      GiveBackAllStep(cfg, s, ids, phase);
      hide GiveBackAll, NextEventId;
      var s' := GiveBack(cfg, s1, ids[|ids| - 1], phase);
      assert s1.log <= s'.log && forall e | e in s'.log[|s1.log|..] :: ReturnEvent(e, phase);
      Suffixes(s.log, s1.log, s'.log);
    }
  }

  lemma OpeningGrammar(cfg: Config, s: State)
    ensures var s' := BeginOperation(cfg, s);
            s.log <= s'.log && OpeningEvents(s'.log[|s.log|..])
  {
    hide GiveBackAll, AR.Due, AR.Advanced, M.Advanced, M.Transition, NextEventId;
    assert s.log[|s.log|..] == [];
    if cfg.Clocked() {
      var s0 := s.(tick := s.tick + 1);
      var s1 := ReturnDue(cfg, s0);
      if cfg.autoReturn.Some? {
        GiveBackAllEvents(cfg, s0.(schedule := AR.Advanced(s0.schedule, s0.tick)), AR.Due(s0.schedule, s0.tick), AutoReturn);
      }
      var s' := AdvanceMood(cfg, s1);
      var es1, es := s1.log[|s.log|..], s'.log[|s.log|..];
      assert forall i | 0 <= i < |es1| :: es1[i] in es1;
      if s'.log != s1.log {
        assert es == es1 + [s'.log[|s1.log|]];
      }
      assert ReturnsThenMood(es, |es1|);
    } else {
      assert ReturnsThenMood([], 0);
    }
  }

  /** Every statement appends automatic returns, then at most one mood change, then what its phases log. */
  lemma StatementGrammar(cfg: Config, force: bool, s: State, op: Operation)
    requires op.Execute?
    ensures var s0, s' := BeginOperation(cfg, s), ExecuteStep(cfg, force, s, op).0;
            && s.log <= s0.log <= s'.log
            && OpeningEvents(s0.log[|s.log|..]) && StatementEvents(s'.log[|s0.log|..])
            && (PassthroughReason(op.params, op.cls).Some? ==> s'.log == s0.log)
  {
    hide BeginOperation, Intervene, CallFor, StatementEvents, OpeningEvents;
    OpeningGrammar(cfg, s);
    var s0 := BeginOperation(cfg, s);
    if PassthroughReason(op.params, op.cls) == None {
      var call := CallFor(cfg, s0, op);
      InterveneEvents(cfg, force, Begin(s0, call), call, op.cls, op.reply);
    } else {
      assert s0.log[|s0.log|..] == [];
      NoEvents();
    }
  }

  lemma NoEvents()
    ensures StatementEvents([])
  {
  }

  function CountFaults(es: seq<Event>): nat {
    if es == [] then 0 else CountFaults(es[1..]) + if es[0].eventType == FaultInjected then 1 else 0
  }

  /** At most one fault is injected into one statement. */
  lemma AtMostOneFault(es: seq<Event>)
    requires StatementEvents(es)
    ensures CountFaults(es) <= 1 && |es| <= 2
  {
    if |es| == 1 {
      assert es[1..] == [];
    } else if |es| == 2 {
      assert |es[1..]| == 1 && es[1..][1..] == [];
    }
  }

  /** Sequence numbers are contiguous from 1 in the log of every run. */
  lemma {:induction false} LogIsContiguous(cfg: Config, log: seq<Event>)
    requires LogOk(cfg, log)
    ensures forall i | 0 <= i < |log| :: log[i].seqNo == i + 1
  {
    hide IdDerived;
    if log != [] {
      var front := log[..|log| - 1];
      LogIsContiguous(cfg, front);
      hide LogOk;
      forall i | 0 <= i < |log| ensures log[i].seqNo == i + 1 {
        if i < |front| {
          assert log[i] == front[i];
        }
      }
    }
  }
}
