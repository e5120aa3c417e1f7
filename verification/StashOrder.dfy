/** House and schedule stay in the order of the STASH events, so automatic returns come back in that order. */
module StashOrder {
  import opened Models
  import opened Decisions
  import opened Adapters
  import opened Faults
  import opened Session
  import opened Invariants
  import opened StepInvariants
  import opened StashLog
  import opened AutoReturnTiming
  import C = StashCycle
  import L = LogTheorems
  import H = House
  import AR = AutoReturn
  import M = MoodEngine
  import SC = StaleCache

  // ----- Ids in sequence -----

  function TreasureSeq(ts: seq<Treasure>): seq<string> {
    if ts == [] then [] else [ts[0].treasureId] + TreasureSeq(ts[1..])
  }

  function PendingSeq(ps: seq<AR.Pending>): (r: seq<string>)
    ensures r == AR.Ids(ps)
  {
    if ps == [] then [] else [ps[0].treasureId] + PendingSeq(ps[1..])
  }

  function Minus(ids: seq<string>, id: string): seq<string> {
    if ids == [] then [] else if ids[0] == id then ids[1..] else [ids[0]] + Minus(ids[1..], id)
  }

  lemma {:induction false} WithoutIsMinus(ts: seq<Treasure>, id: string)
    ensures TreasureSeq(H.Without(ts, id)) == Minus(TreasureSeq(ts), id)
  {
    if ts != [] {
      WithoutIsMinus(ts[1..], id);
      assert TreasureSeq(ts)[1..] == TreasureSeq(ts[1..]);
      assert ([ts[0]] + H.Without(ts[1..], id))[1..] == H.Without(ts[1..], id);
    }
  }

  lemma {:induction false} PopIsMinus(ps: seq<AR.Pending>, id: string)
    ensures PendingSeq(AR.Pop(ps, id)) == Minus(PendingSeq(ps), id)
  {
    if ps != [] {
      PopIsMinus(ps[1..], id);
      assert PendingSeq(ps)[1..] == PendingSeq(ps[1..]);
      assert ([ps[0]] + AR.Pop(ps[1..], id))[1..] == AR.Pop(ps[1..], id);
    }
  }

  lemma {:induction false} TreasureSeqAppend(ts: seq<Treasure>, t: Treasure)
    ensures TreasureSeq(ts + [t]) == TreasureSeq(ts) + [t.treasureId]
  {
    if ts == [] {
      assert [] + [t] == [t] && TreasureSeq([t]) == [t.treasureId];
    } else {
      assert (ts + [t])[1..] == ts[1..] + [t];
      TreasureSeqAppend(ts[1..], t);
    }
  }

  // ----- The place of a STASH event -----

  predicate IsStashOf(e: Event, id: string) {
    e.eventType == FaultInjected && e.fault == Some(STASH) && e.details.StashDetails? && e.details.stashedId == id
  }

  /** The place of the last STASH event of a treasure, or -1. */
  function LastStash(log: seq<Event>, id: string): (place: int)
    ensures -1 <= place < |log|
    ensures place >= 0 ==> IsStashOf(log[place], id)
  {
    if log == [] then -1
    else if IsStashOf(log[|log| - 1], id) then |log| - 1
    else LastStash(log[..|log| - 1], id)
  }

  /** Both treasures have STASH events, the first one's last before the second one's last. */
  predicate StashedBefore(log: seq<Event>, id: string, id': string) {
    0 <= LastStash(log, id) < LastStash(log, id')
  }

  /** The treasures stand in the order of their STASH events. */
  ghost predicate Ordered(log: seq<Event>, ts: seq<Treasure>) {
    ts == [] ||
    (&& LastStash(log, ts[0].treasureId) >= 0
     && (forall t | t in ts[1..] :: LastStash(log, ts[0].treasureId) < LastStash(log, t.treasureId))
     && Ordered(log, ts[1..]))
  }

  /** The log grew without a STASH event. */
  predicate NoStash(log: seq<Event>, log': seq<Event>) {
    log <= log' && forall i | |log| <= i < |log'| :: !(log'[i].eventType == FaultInjected && log'[i].fault == Some(STASH))
  }

  lemma {:induction false} LastStashKept(log: seq<Event>, log': seq<Event>, id: string)
    requires NoStash(log, log')
    ensures LastStash(log', id) == LastStash(log, id)
    decreases |log'|
  {
    if |log'| == |log| {
      assert log' == log;
    } else {
      var front := log'[..|log'| - 1];
      assert log <= front;
      LastStashKept(log, front, id);
    }
  }

  lemma {:induction false} OrderedKept(log: seq<Event>, log': seq<Event>, ts: seq<Treasure>)
    requires Ordered(log, ts) && NoStash(log, log')
    ensures Ordered(log', ts)
  {
    hide NoStash, LastStash;
    if ts != [] {
      LastStashKept(log, log', ts[0].treasureId);
      forall t | t in ts[1..] ensures LastStash(log', ts[0].treasureId) < LastStash(log', t.treasureId) {
        LastStashKept(log, log', t.treasureId);
      }
      OrderedKept(log, log', ts[1..]);
    }
  }

  lemma {:induction false} OrderedWithout(log: seq<Event>, ts: seq<Treasure>, id: string)
    requires Ordered(log, ts)
    ensures Ordered(log, H.Without(ts, id))
    ensures forall t | t in H.Without(ts, id) :: t in ts
  {
    hide LastStash;
    if ts != [] {
      OrderedWithout(log, ts[1..], id);
      assert ts == [ts[0]] + ts[1..];
      assert ([ts[0]] + H.Without(ts[1..], id))[1..] == H.Without(ts[1..], id);
    }
  }

  lemma {:induction false} OrderedAppend(log: seq<Event>, ts: seq<Treasure>, t: Treasure, e: Event)
    requires Ordered(log, ts) && IsStashOf(e, t.treasureId) && H.Vacant(ts, t)
    ensures Ordered(log + [e], ts + [t])
  {
    var log' := log + [e];
    assert log'[..|log|] == log && LastStash(log', t.treasureId) == |log|;
    if ts == [] {
      assert ([] + [t])[1..] == [];
    } else {
      assert ts == [ts[0]] + ts[1..] && (ts + [t])[1..] == ts[1..] + [t];
      assert forall u | u in ts :: u.treasureId != t.treasureId;
      assert forall u | u in ts :: LastStash(log', u.treasureId) == LastStash(log, u.treasureId);
      OrderedAppend(log, ts[1..], t, e);
    }
  }

  /** Among ordered treasures an earlier one was stashed earlier. */
  lemma {:induction false} OrderedPlaces(log: seq<Event>, ts: seq<Treasure>, i: nat, j: nat)
    requires Ordered(log, ts) && i < j < |ts|
    ensures StashedBefore(log, ts[i].treasureId, ts[j].treasureId)
  {
    hide LastStash;
    if i == 0 {
      assert ts[j] == ts[1..][j - 1];
    } else {
      OrderedPlaces(log, ts[1..], i - 1, j - 1);
    }
  }

  // ----- The invariant -----

  /** House and schedule hold the same ids in the same order, and that is the order of the STASH events. */
  ghost predicate InOrder(cfg: Config, s: State) {
    && Ordered(s.log, s.house.treasures)
    && (cfg.autoReturn.Some? ==> PendingSeq(s.schedule.scheduled) == TreasureSeq(s.house.treasures))
  }

  lemma QuietInOrder(cfg: Config, s: State, s': State)
    requires InOrder(cfg, s) && NoStash(s.log, s'.log)
    requires s'.house.treasures == s.house.treasures && s'.schedule == s.schedule
    ensures InOrder(cfg, s')
  {
    OrderedKept(s.log, s'.log, s.house.treasures);
  }

  /** A stash puts one treasure at the end of the house and of the schedule, with the last event. */
  ghost predicate NewStash(cfg: Config, s: State, s': State, t: Treasure) {
    && |s'.log| > 0 && NoStash(s.log, s'.log[..|s'.log| - 1]) && IsStashOf(s'.log[|s'.log| - 1], t.treasureId)
    && H.Vacant(s.house.treasures, t) && s'.house.treasures == s.house.treasures + [t]
    && (cfg.autoReturn.Some? ==> AR.Ids(s'.schedule.scheduled) == AR.Ids(s.schedule.scheduled) + [t.treasureId])
  }

  lemma NewStashInOrder(cfg: Config, s: State, s': State, t: Treasure)
    requires InOrder(cfg, s) && NewStash(cfg, s, s', t)
    ensures InOrder(cfg, s')
  {
    hide NoStash, IsStashOf, LastStash, H.Vacant, PendingSeq, AR.Ids;
    var front := s'.log[..|s'.log| - 1];
    OrderedKept(s.log, front, s.house.treasures);
    OrderedAppend(front, s.house.treasures, t, s'.log[|s'.log| - 1]);
    assert s'.log == front + [s'.log[|s'.log| - 1]];
    TreasureSeqAppend(s.house.treasures, t);
  }

  // ----- Returns -----

  lemma ReturnedTreasures(house: H.House, id: string)
    ensures H.Returned(house, id).treasures == H.Without(house.treasures, id)
  {
    H.FindFacts(house.treasures, id);
  }

  lemma GiveBackOrders(cfg: Config, s: State, id: string, phase: Phase)
    requires Ordered(s.log, s.house.treasures)
    ensures var s' := GiveBack(cfg, s, id, phase);
            Ordered(s'.log, s'.house.treasures) && TreasureSeq(s'.house.treasures) == Minus(TreasureSeq(s.house.treasures), id)
  {
    hide Ordered;
    GiveBackFrame(cfg, s, id, phase);
    GiveBackIsFaultless(cfg, s, id, phase);
    ReturnedTreasures(s.house, id);
    hide GiveBack;
    OrderedWithout(s.log, s.house.treasures, id);
    OrderedKept(s.log, GiveBack(cfg, s, id, phase).log, H.Without(s.house.treasures, id));
    WithoutIsMinus(s.house.treasures, id);
  }

  /** Handing back ids takes them out of the house as popping them takes them out of the schedule. */
  lemma {:induction false} GiveBackAllOrders(cfg: Config, s: State, ps: seq<AR.Pending>, ids: seq<string>, phase: Phase)
    requires Ordered(s.log, s.house.treasures) && AR.Distinct(ps) && PendingSeq(ps) == TreasureSeq(s.house.treasures)
    ensures var s' := GiveBackAll(cfg, s, ids, phase);
            Ordered(s'.log, s'.house.treasures) && TreasureSeq(s'.house.treasures) == PendingSeq(AR.Excluding(ps, ids))
  {
    hide GiveBackAll, GiveBack, Ordered, AR.Excluding, AR.Pop, PendingSeq, TreasureSeq, AR.Ids, AR.Distinct;
    if ids == [] {
      GiveBackNone(cfg, s, phase);
      AR.ExcludingNone(ps);
    } else {
      var front, last := ids[..|ids| - 1], ids[|ids| - 1];
      assert ids == front + [last];
      GiveBackAllOrders(cfg, s, ps, front, phase);
      GiveBackAllStep(cfg, s, ids, phase);
      GiveBackOrders(cfg, GiveBackAll(cfg, s, front, phase), last, phase);
      PopIsMinus(AR.Excluding(ps, front), last);
      AR.PopExcluding(ps, front, last);
    }
  }

  lemma ReturnDueInOrder(cfg: Config, s: State)
    requires Timed(cfg, s) && InOrder(cfg, s)
    ensures InOrder(cfg, ReturnDue(cfg, s.(tick := s.tick + 1)))
  {
    var tick := s.tick + 1;
    var ps := s.schedule.scheduled;
    var due := AR.SortDue(AR.DueBy(ps, tick));
    AR.IdsOfDue(ps, due, tick);
    AR.ExcludingDue(ps, AR.Ids(due), tick);
    hide AR.SortDue, AR.DueBy, AR.NotDueBy, AR.Ids, Ordered, GiveBackAll, AR.Excluding, PendingSeq, TreasureSeq, AR.Distinct;
    if cfg.autoReturn.Some? {
      var s1 := s.(tick := tick, schedule := AR.Advanced(s.schedule, tick));
      GiveBackAllOrders(cfg, s1, ps, AR.Ids(due), AutoReturn);
      ScheduleKept(cfg, s1, AR.Ids(due), AutoReturn);
    }
  }

  lemma {:induction false} ScheduleKept(cfg: Config, s: State, ids: seq<string>, phase: Phase)
    ensures GiveBackAll(cfg, s, ids, phase).schedule == s.schedule
  {
    hide GiveBack;
    if ids != [] {
      ScheduleKept(cfg, s, ids[..|ids| - 1], phase);
      GiveBackFrame(cfg, GiveBackAll(cfg, s, ids[..|ids| - 1], phase), ids[|ids| - 1], phase);
    }
  }

  lemma MoodIsQuiet(cfg: Config, s: State)
    ensures var s' := AdvanceMood(cfg, s);
            NoStash(s.log, s'.log) && s'.house == s.house && s'.schedule == s.schedule
  {
    hide M.Advanced, M.Transition, NextEventId;
  }

  lemma BeginInOrder(cfg: Config, s: State)
    requires Timed(cfg, s) && InOrder(cfg, s)
    ensures InOrder(cfg, BeginOperation(cfg, s))
  {
    hide Timed, InOrder, ReturnDue, AdvanceMood, NoStash;
    ReturnDueInOrder(cfg, s);
    var s1 := ReturnDue(cfg, s.(tick := s.tick + 1));
    MoodIsQuiet(cfg, s1);
    QuietInOrder(cfg, s1, AdvanceMood(cfg, s1));
  }

  // ----- Statements -----

  lemma StashIsNew(cfg: Config, s: State, d: Decision, result: LogicalResult)
    requires Timed(cfg, s) && result.rows != []
    ensures var s' := Stash(cfg, s, d, result).0;
            s' == s || exists t :: NewStash(cfg, s, s', t)
  {
    hide NextEventId, AR.HoldFor, AR.Planned, DeterministicId, Index, ScheduleOk, H.Vacant, HouseIds, PendingIds;
    var t, s' := NewTreasure(cfg, s, d, result), Stash(cfg, s, d, result).0;
    if H.Admits(s.house, t, cfg.houseLimit) {
      AdmittedIds(s.house.treasures, t);
      assert s'.log[..|s'.log| - 1] == s.log;
      if cfg.autoReturn.Some? {
        var hold := AR.HoldFor(cfg.autoReturn.value, cfg.session, d.context.key);
        PlannedOk(s.schedule, t.treasureId, hold);
        IdsAppend(s.schedule.scheduled, AR.Pending(t.treasureId, s.schedule.currentTick + hold, s.schedule.nextOrder + 1));
      }
      assert NewStash(cfg, s, s', t);
    }
  }

  lemma IdsAppend(ps: seq<AR.Pending>, p: AR.Pending)
    ensures AR.Ids(ps + [p]) == AR.Ids(ps) + [p.treasureId]
  {
  }

  lemma StashInOrder(cfg: Config, s: State, d: Decision, result: LogicalResult)
    requires Timed(cfg, s) && InOrder(cfg, s) && result.rows != []
    ensures InOrder(cfg, Stash(cfg, s, d, result).0)
  {
    hide InOrder, NewStash, Stash, Timed;
    StashIsNew(cfg, s, d, result);
    var s' := Stash(cfg, s, d, result).0;
    if s' != s {
      var t :| NewStash(cfg, s, s', t);
      NewStashInOrder(cfg, s, s', t);
    }
  }

  lemma FaultInOrder(cfg: Config, s: State, d: Decision, fault: Fault, outcome: Outcome, details: Details)
    requires InOrder(cfg, s) && fault != STASH
    ensures InOrder(cfg, LogFault(cfg, s, d, fault, outcome, details))
  {
    hide InOrder, NextEventId;
    QuietInOrder(cfg, s, LogFault(cfg, s, d, fault, outcome, details));
  }

  lemma DecisionInOrder(cfg: Config, s: State, d: Decision, candidates: seq<Fault>)
    requires InOrder(cfg, s)
    ensures InOrder(cfg, LogDecision(cfg, s, d, candidates))
  {
    hide InOrder, NextEventId;
    QuietInOrder(cfg, s, LogDecision(cfg, s, d, candidates));
  }

  lemma LimitInOrder(cfg: Config, s: State, d: Decision, outcome: Outcome, details: Details)
    requires InOrder(cfg, s)
    ensures InOrder(cfg, LogLimit(cfg, s, d, outcome, details))
  {
    hide InOrder, NextEventId;
    QuietInOrder(cfg, s, LogLimit(cfg, s, d, outcome, details));
  }

  lemma TreatedInOrder(cfg: Config, s: State, d: Decision, cls: Classification, result: LogicalResult)
    requires Timed(cfg, s) && InOrder(cfg, s)
    ensures InOrder(cfg, Treated(cfg, s, d, cls, result).0)
  {
    hide LogFault, LogDecision, ChewFor, History, Candidates, Fires, Stash, Inject, Select, InOrder, Timed;
    var released, s1 := d.context.template in s.house.released, s.(house := H.Consumed(s.house, d.context.template));
    var chew, history := ChewFor(cfg, d, result), History(cfg, s, d);
    var candidates := Candidates(cfg, released, cls, result, chew.Some?, history != []);
    QuietInOrder(cfg, s, s1);
    TimedFrame(cfg, s, s1);
    match Select(cfg, s.mood.mood, d.context.key, ON_RESULT_PRIORITY, candidates) {
      case None => DecisionInOrder(cfg, s1, d, candidates);
      case Some(fault) =>
        CandidateApplies(cfg, released, cls, result, chew, history, fault);
        if fault == STASH || fault == STASH_ERROR {
          StashInOrder(cfg, s1, d, result);
        } else {
          var injection := Inject(cfg, d, fault, result, chew, history);
          FaultInOrder(cfg, s1, d, fault, injection.outcome, injection.details);
        }
    }
  }

  lemma OnResultInOrder(cfg: Config, s: State, d: Decision, cls: Classification, result: LogicalResult)
    requires Timed(cfg, s) && InOrder(cfg, s)
    ensures InOrder(cfg, Faults.OnResult(cfg, s, d, cls, result).0)
  {
    hide Drops, LogFault, LogLimit, Treated, H.ActiveFor, InOrder, Timed;
    if cls.kind == SELECT {
      if |result.rows| > cfg.maxInterventionRows {
        LimitInOrder(cfg, s, d, if cfg.policy.maxRowsError then LimitError else FaultSkipped,
                     LimitDetails(MaxInterventionRows, cfg.maxInterventionRows, Some(|result.rows|)));
      } else if Drops(cfg, s, d) {
        FaultInOrder(cfg, s, d, NO_DROP, ResponseLost, NoDetails);
      } else if H.ActiveFor(s.house.treasures, d.context.template) == [] {
        TreatedInOrder(cfg, s, d, cls, result);
      }
    }
  }

  lemma ResultPhaseInOrder(cfg: Config, force: bool, s: State, call: Call, cls: Classification, slowed: bool,
                           result: LogicalResult)
    requires Timed(cfg, s) && InOrder(cfg, s)
    ensures InOrder(cfg, ResultPhase(cfg, force, s, call, cls, slowed, result).0)
  {
    hide Faults.OnResult, Intervenes, DecisionFor, KeyFor, SC.Added, InOrder, Timed;
    OnResultInOrder(cfg, s, DecisionFor(cfg, call, OnResult), cls, result);
    var s1 := Faults.OnResult(cfg, s, DecisionFor(cfg, call, OnResult), cls, result).0;
    var s' := ResultPhase(cfg, force, s, call, cls, slowed, result).0;
    if s'.log == s1.log && s'.house == s1.house && s'.schedule == s1.schedule {
      QuietInOrder(cfg, s1, s');
    } else {
      QuietInOrder(cfg, s, s');
    }
  }

  lemma BeforeInOrder(cfg: Config, force: bool, s: State, call: Call, cls: Classification)
    ensures var (s1, before) := BeforePhase(cfg, force, s, call, cls);
            var s2 := DeferredDebug(cfg, force, s1, call, cls, before);
            && s1 == s.(log := s1.log) && s2 == s.(log := s2.log) && NoStash(s.log, s1.log) && NoStash(s.log, s2.log)
  {
    hide NextEventId, Fires, DecisionFor, EvaluatesBefore, Draw;
  }

  lemma InterveneInOrder(cfg: Config, force: bool, s: State, call: Call, cls: Classification, reply: Reply)
    requires Timed(cfg, s) && InOrder(cfg, s)
    ensures InOrder(cfg, Intervene(cfg, force, s, call, cls, reply).0)
  {
    hide BeforePhase, DeferredDebug, ResultPhase, LogLimit, DecisionFor, Fetch, InOrder, Timed, NoStash;
    BeforeInOrder(cfg, force, s, call, cls);
    var (s1, before) := BeforePhase(cfg, force, s, call, cls);
    QuietInOrder(cfg, s, s1);
    if !before.Refused? {
      match Fetch(reply, RowCap(cfg, cls)) {
        case BackendError =>
        case CapExceeded =>
          var details := LimitDetails(MaxResultRows, if cfg.maxResultRows.Some? then cfg.maxResultRows.value else 0, None);
          LimitInOrder(cfg, s1, DecisionFor(cfg, call, OnResult), LimitError, details);
        case Fetched(result) =>
          var s2 := DeferredDebug(cfg, force, s1, call, cls, before);
          QuietInOrder(cfg, s, s2);
          TimedFrame(cfg, s, s2);
          ResultPhaseInOrder(cfg, force, s2, call, cls, before.Slowed?, result);
      }
    }
  }

  // ----- One operation -----

  lemma ReturnTreasureInOrder(cfg: Config, s: State, id: string)
    requires InOrder(cfg, s)
    ensures InOrder(cfg, GiveBack(cfg, Cancel(cfg, s, id), id, ManualReturn))
  {
    hide GiveBack, Ordered, TreasureSeq, PendingSeq, AR.Ids;
    GiveBackOrders(cfg, Cancel(cfg, s, id), id, ManualReturn);
    GiveBackFrame(cfg, Cancel(cfg, s, id), id, ManualReturn);
    PopIsMinus(s.schedule.scheduled, id);
  }

  lemma EmptyInOrder(cfg: Config, s: State)
    requires s.house.treasures == [] && (cfg.autoReturn.Some? ==> PendingIds(s.schedule.scheduled) == {})
    ensures InOrder(cfg, s)
  {
    NothingPending(s.schedule.scheduled);
  }

  lemma StepInOrder(cfg: Config, force: bool, s: State, op: Operation)
    requires Inv(cfg, s) && InOrder(cfg, s)
    ensures InOrder(cfg, Step(cfg, force, s, op).0)
  {
    hide Core, Timed, MoodOk, CacheOk, InOrder, BeginOperation, Intervene, CallFor, GiveBack, CancelAndLog;
    match op {
      case Execute(_, _, _, _) =>
        BeginInOrder(cfg, s);
        BeginKeeps(cfg, s);
        var s0 := BeginOperation(cfg, s);
        if PassthroughReason(op.params, op.cls) == None {
          var call := CallFor(cfg, s0, op);
          var s1 := Begin(s0, call);
          NothingLogged(s0);
          QuietInOrder(cfg, s0, s1);
          TimedFrame(cfg, s0, s1);
          InterveneInOrder(cfg, force, s1, call, op.cls, op.reply);
        }
      case ExecuteMany(_) => BeginInOrder(cfg, s);
      case ReturnTreasure(id) => ReturnTreasureInOrder(cfg, s, id);
      case ReturnAll => ReturnAllInOrder(cfg, force, s);
    }
  }

  lemma NothingLogged(s: State)
    ensures NoStash(s.log, s.log)
  {
  }

  lemma AllReturnedIsEmpty(house: H.House)
    ensures H.AllReturned(house).treasures == []
  {
  }

  lemma ReturnAllInOrder(cfg: Config, force: bool, s: State)
    requires Core(cfg, s) && Timed(cfg, s)
    ensures InOrder(cfg, Step(cfg, force, s, ReturnAll).0)
  {
    hide Core, CancelAndLog, InOrder, ScheduleOk, PendingIds, HouseIds, H.AllReturned;
    ReturnAllKeeps(cfg, force, s);
    var ts := s.house.treasures;
    C.CancelAndLogEvents(cfg, s.(house := H.AllReturned(s.house)), ts, |ts|);
    assert ts[..|ts|] == ts;
    NoIds();
    AllReturnedIsEmpty(s.house);
    EmptyInOrder(cfg, Step(cfg, force, s, ReturnAll).0);
  }

  // ----- Over whole runs -----

  lemma {:induction false} RunInOrder(cfg: Config, force: bool, ops: seq<Operation>)
    ensures InOrder(cfg, After(cfg, force, ops))
  {
    if ops == [] {
      StartsInOrder(cfg);
    } else {
      hide Inv, InOrder, Step;
      RunInOrder(cfg, force, ops[..|ops| - 1]);
      Reachable(cfg, force, ops[..|ops| - 1]);
      StepInOrder(cfg, force, After(cfg, force, ops[..|ops| - 1]), ops[|ops| - 1]);
    }
  }

  lemma StartsInOrder(cfg: Config)
    ensures InOrder(cfg, Init())
  {
  }

  lemma {:induction false} TreasureSeqAt(ts: seq<Treasure>)
    ensures |TreasureSeq(ts)| == |ts| && forall i | 0 <= i < |ts| :: TreasureSeq(ts)[i] == ts[i].treasureId
  {
    if ts != [] {
      TreasureSeqAt(ts[1..]);
    }
  }

  /** After every run the treasures stand in the house, and their returns in the schedule, in the order of the STASH
      events that put them there. */
  lemma HouseInStashOrder(cfg: Config, force: bool, ops: seq<Operation>)
    ensures var s := After(cfg, force, ops);
            && StashedInOrder(s.log, TreasureSeq(s.house.treasures))
            && (cfg.autoReturn.Some? ==> AR.Ids(s.schedule.scheduled) == TreasureSeq(s.house.treasures))
  {
    RunInOrder(cfg, force, ops);
    var s := After(cfg, force, ops);
    hide After, StashedBefore, Ordered, AR.Ids, TreasureSeq;
    TreasureSeqAt(s.house.treasures);
    forall i, j | 0 <= i < j < |s.house.treasures|
      ensures StashedBefore(s.log, s.house.treasures[i].treasureId, s.house.treasures[j].treasureId)
    {
      OrderedPlaces(s.log, s.house.treasures, i, j);
    }
  }

  /** The ids stand in the order of their STASH events. */
  predicate StashedInOrder(log: seq<Event>, ids: seq<string>) {
    forall a, b | 0 <= a < b < |ids| :: StashedBefore(log, ids[a], ids[b])
  }

  /** The pending returns stand in the order of their STASH events. */
  ghost predicate Planned(log: seq<Event>, ps: seq<AR.Pending>) {
    ps == [] ||
    ((forall p | p in ps[1..] :: StashedBefore(log, ps[0].treasureId, p.treasureId)) && Planned(log, ps[1..]))
  }

  lemma {:induction false} AlignedIsPlanned(log: seq<Event>, ts: seq<Treasure>, ps: seq<AR.Pending>)
    requires Ordered(log, ts) && PendingSeq(ps) == TreasureSeq(ts)
    ensures Planned(log, ps)
    ensures forall p | p in ps :: exists t | t in ts :: t.treasureId == p.treasureId
  {
    hide LastStash;
    if ps != [] {
      assert PendingSeq(ps)[1..] == PendingSeq(ps[1..]) && TreasureSeq(ts)[1..] == TreasureSeq(ts[1..]);
      assert PendingSeq(ps)[0] == TreasureSeq(ts)[0];
      AlignedIsPlanned(log, ts[1..], ps[1..]);
      assert ps == [ps[0]] + ps[1..] && ts == [ts[0]] + ts[1..];
    }
  }

  /** The due part of a list keeps the order of the list. */
  lemma {:induction false} DueIsPlanned(log: seq<Event>, ps: seq<AR.Pending>, tick: nat)
    requires Planned(log, ps)
    ensures Planned(log, AR.DueBy(ps, tick))
  {
    hide StashedBefore;
    if ps != [] {
      DueIsPlanned(log, ps[1..], tick);
      var rest := AR.DueBy(ps[1..], tick);
      assert ([ps[0]] + rest)[1..] == rest;
    }
  }

  lemma {:induction false} PlannedPlaces(log: seq<Event>, ps: seq<AR.Pending>, i: nat, j: nat)
    requires Planned(log, ps) && i < j < |ps|
    ensures StashedBefore(log, ps[i].treasureId, ps[j].treasureId)
  {
    hide StashedBefore;
    if i == 0 {
      assert ps[j] == ps[1..][j - 1];
    } else {
      PlannedPlaces(log, ps[1..], i - 1, j - 1);
    }
  }

  /** A statement of a run opens with one return event for each treasure that is due, in the order in which their
      STASH events stand in the log; nothing but a mood change can follow before the statement itself. */
  lemma ReturnsFollowStashes(cfg: Config, force: bool, ops: seq<Operation>, j: nat)
    requires j < |ops| && cfg.autoReturn.Some? && L.IsStatement(ops[j])
    ensures var s := After(cfg, force, ops[..j]);
            var s2, s0 := ReturnDue(cfg, s.(tick := s.tick + 1)), C.Opened(cfg, s, ops[j]);
            var ids := AR.Ids(AR.DueBy(s.schedule.scheduled, s.tick + 1));
            && ReturnsLogged(s, s2, ids)
            && s2.log <= s0.log && |s0.log| <= |s2.log| + 1
            && (|s0.log| > |s2.log| ==> s0.log[|s2.log|].eventType == MoodChanged)
            && StashedInOrder(s.log, ids)
  {
    hide After, ReturnDue, BeginOperation, ReturnsLogged, StashedInOrder, Inv, AR.DueBy, AR.Ids;
    Reachable(cfg, force, ops[..j]);
    ReturnsInStashOrder(cfg, After(cfg, force, ops[..j]));
    DueStashedInOrder(cfg, force, ops[..j]);
  }

  lemma DueStashedInOrder(cfg: Config, force: bool, ops: seq<Operation>)
    requires cfg.autoReturn.Some?
    ensures var s := After(cfg, force, ops);
            var ids := AR.Ids(AR.DueBy(s.schedule.scheduled, s.tick + 1));
            StashedInOrder(s.log, ids)
  {
    RunInOrder(cfg, force, ops);
    hide After, StashedBefore, AR.DueBy, Ordered, Planned, PendingSeq, TreasureSeq;
    var s := After(cfg, force, ops);
    var due := AR.DueBy(s.schedule.scheduled, s.tick + 1);
    AlignedIsPlanned(s.log, s.house.treasures, s.schedule.scheduled);
    DueIsPlanned(s.log, s.schedule.scheduled, s.tick + 1);
    forall a, b | 0 <= a < b < |due| ensures StashedBefore(s.log, due[a].treasureId, due[b].treasureId) {
      PlannedPlaces(s.log, due, a, b);
    }
  }
}
