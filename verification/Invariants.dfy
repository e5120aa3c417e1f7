/** What every step of a session keeps: the house is the projection of the log, each template has at most one
    treasure, schedule and house hold the same ids, event ids are derived in sequence, moods follow the clock,
    and the cache stays one bounded FIFO list of past occurrences. */
module Invariants {
  import opened Models
  import opened Decisions
  import opened Faults
  import opened Session
  import opened Adapters
  import H = House
  import AR = AutoReturn
  import M = MoodEngine
  import SC = StaleCache

  // ----- The house -----

  function Projected(ts: seq<Treasure>): seq<H.ProjectedTreasure> {
    if ts == [] then []
    else [H.ProjectedTreasure(ts[0].treasureId, Some(ts[0].context.template), ts[0].rowIndex, ts[0].eventId)] + Projected(ts[1..])
  }

  ghost predicate OnePerTemplate(ts: seq<Treasure>) {
    ts == [] || ((forall t | t in ts[1..] :: t.context.template != ts[0].context.template) && OnePerTemplate(ts[1..]))
  }

  ghost predicate HouseOk(cfg: Config, house: H.House) {
    && H.Distinct(house.treasures)
    && |house.treasures| <= cfg.houseLimit
    && OnePerTemplate(house.treasures)
    && (forall t | t in house.treasures :: t.context.template !in house.released && |t.context.key| == 71)
  }

  // ----- The log -----

  /** The mood after the logged changes. */
  function MoodFold(log: seq<Event>): Mood {
    if log == [] then CALM
    else
      var e := log[|log| - 1];
      if e.eventType == MoodChanged && e.details.MoodDetails? then e.details.to else MoodFold(log[..|log| - 1])
  }

  function LastMoodTick(log: seq<Event>): nat {
    if log == [] then 0
    else
      var e := log[|log| - 1];
      if e.eventType == MoodChanged && e.details.MoodDetails? then e.details.tick else LastMoodTick(log[..|log| - 1])
  }

  /** Each mood change starts from the mood before it, ends in another, and comes at a later multiple of the epoch. */
  ghost predicate MoodChain(cfg: Config, log: seq<Event>) {
    log == [] ||
    (var front, e := log[..|log| - 1], log[|log| - 1];
     && MoodChain(cfg, front)
     && (e.eventType == MoodChanged ==>
           && cfg.mood.Some? && e.details.MoodDetails?
           && e.details.from == MoodFold(front) && e.details.to != e.details.from
           && e.details.tick > LastMoodTick(front) && e.details.tick % cfg.mood.value.epochLength == 0))
  }

  ghost predicate IdDerived(cfg: Config, e: Event) {
    exists key: string, name: EventName ::
      |key| == 71 && e.eventId == DeterministicId(cfg.session, key, EventId(e.seqNo, name))
  }

  ghost predicate LogOk(cfg: Config, log: seq<Event>) {
    log == [] || (LogOk(cfg, log[..|log| - 1]) && log[|log| - 1].seqNo == |log| && IdDerived(cfg, log[|log| - 1]))
  }

  ghost predicate LogFine(cfg: Config, s: State) {
    && LogOk(cfg, s.log)
    && MoodChain(cfg, s.log) && MoodFold(s.log) == s.mood.mood && LastMoodTick(s.log) <= s.tick
  }

  ghost predicate Core(cfg: Config, s: State) {
    HouseOk(cfg, s.house) && H.Projection(s.log) == Projected(s.house.treasures) && LogFine(cfg, s)
  }

  // ----- The schedule -----

  function HouseIds(ts: seq<Treasure>): set<string> { set t | t in ts :: t.treasureId }

  function PendingIds(ps: seq<AR.Pending>): set<string> { set p | p in ps :: p.treasureId }

  /** Pending returns stand in the order in which they were planned. */
  ghost predicate Ascending(ps: seq<AR.Pending>) {
    ps == [] || ((forall p | p in ps[1..] :: ps[0].order < p.order) && Ascending(ps[1..]))
  }

  ghost predicate ScheduleOk(sch: AR.Timetable) {
    AR.Distinct(sch.scheduled) && Ascending(sch.scheduled) && forall p | p in sch.scheduled :: p.order <= sch.nextOrder
  }

  ghost predicate Timed(cfg: Config, s: State) {
    && ScheduleOk(s.schedule)
    && (if cfg.autoReturn.Some? then
          && s.schedule.currentTick == s.tick
          && (forall p | p in s.schedule.scheduled :: p.due > s.tick)
          && PendingIds(s.schedule.scheduled) == HouseIds(s.house.treasures)
        else s.schedule.scheduled == [])
  }

  // ----- Moods and the cache -----

  /** The mood after `tick` clocked operations. */
  function MoodAt(config: MoodConfig, session: Hashing, tick: nat): Mood {
    if tick < config.epochLength then CALM else M.MoodOf(session, tick / config.epochLength)
  }

  ghost predicate MoodOk(cfg: Config, s: State) {
    if cfg.mood.Some? then s.mood == M.MoodState(s.tick, MoodAt(cfg.mood.value, cfg.session, s.tick))
    else s.mood == M.MoodState(0, CALM)
  }

  ghost predicate CacheOk(cfg: Config, s: State) {
    && SC.Distinct(s.cache) && SC.Bounded(s.cache, PER_FINGERPRINT, TOTAL_LIMIT)
    && (forall e | e in s.cache :: 1 <= e.occurrence <= CountOf(s.occurrences, e.key.0))
    && (!cfg.Caching() ==> s.cache == [])
  }

  ghost predicate Inv(cfg: Config, s: State) {
    Core(cfg, s) && Timed(cfg, s) && MoodOk(cfg, s) && CacheOk(cfg, s)
  }

  // ----- Appending an event -----

  /** Events that touch neither the house nor the mood. */
  predicate Inert(e: Event) {
    !(e.eventType == FaultInjected && e.fault == Some(STASH)) && e.eventType != TreasureReturned && e.eventType != MoodChanged
  }

  lemma LogGrows(log: seq<Event>, e: Event)
    ensures (log + [e])[..|log|] == log && (log + [e])[|log|] == e && |log + [e]| == |log| + 1
  {
  }

  lemma IdOf(cfg: Config, s: State, key: string, name: EventName, e: Event)
    requires |key| == 71 && e.seqNo == |s.log| + 1 && e.eventId == NextEventId(cfg, s, key, name)
    ensures IdDerived(cfg, e)
  {
  }

  lemma {:induction false} AppendFine(cfg: Config, s: State, e: Event)
    requires LogFine(cfg, s) && e.eventType != MoodChanged && e.seqNo == |s.log| + 1 && IdDerived(cfg, e)
    ensures LogFine(cfg, s.(log := s.log + [e]))
    ensures H.Projection(s.log + [e]) == H.Project(H.Projection(s.log), e)
  {
    hide IdDerived;
    LogGrows(s.log, e);
  }

  lemma InertKeepsCore(cfg: Config, s: State, e: Event)
    requires Core(cfg, s) && Inert(e) && e.seqNo == |s.log| + 1 && IdDerived(cfg, e)
    ensures Core(cfg, s.(log := s.log + [e]))
  {
    hide IdDerived, HouseOk, LogFine;
    AppendFine(cfg, s, e);
  }

  lemma LogFaultKeeps(cfg: Config, s: State, d: Decision, fault: Fault, outcome: Outcome, details: Details)
    requires Core(cfg, s) && |d.context.key| == 71 && fault != STASH
    ensures Core(cfg, LogFault(cfg, s, d, fault, outcome, details))
  {
    hide Core, IdDerived, NextEventId;
    var e := Event(|s.log| + 1, NextEventId(cfg, s, d.context.key, OfFault(fault)), FaultInjected, Some(fault),
                   Some(d.phase), Some(d.context), Some(outcome), details);
    IdOf(cfg, s, d.context.key, OfFault(fault), e);
    InertKeepsCore(cfg, s, e);
  }

  lemma LogDecisionKeeps(cfg: Config, s: State, d: Decision, candidates: seq<Fault>)
    requires Core(cfg, s) && |d.context.key| == 71
    ensures Core(cfg, LogDecision(cfg, s, d, candidates))
  {
    hide Core, IdDerived, NextEventId;
    var e := Event(|s.log| + 1, NextEventId(cfg, s, d.context.key, DECISION), DecisionEvaluated, None,
                   Some(d.phase), Some(d.context), Some(NotInjected), CandidateDetails(candidates));
    IdOf(cfg, s, d.context.key, DECISION, e);
    InertKeepsCore(cfg, s, e);
  }

  lemma LogLimitKeeps(cfg: Config, s: State, d: Decision, outcome: Outcome, details: Details)
    requires Core(cfg, s) && |d.context.key| == 71
    ensures Core(cfg, LogLimit(cfg, s, d, outcome, details))
  {
    hide Core, IdDerived, NextEventId;
    var e := Event(|s.log| + 1, NextEventId(cfg, s, d.context.key, LIMIT), LimitExceeded, None,
                   Some(d.phase), Some(d.context), Some(outcome), details);
    IdOf(cfg, s, d.context.key, LIMIT, e);
    InertKeepsCore(cfg, s, e);
  }

  // ----- Treasures coming and going -----

  lemma {:induction false} PutProjected(ts: seq<Treasure>, t: Treasure)
    requires H.Vacant(ts, t)
    ensures H.Put(Projected(ts), Projected([t])[0]) == Projected(ts + [t])
  {
    var p := Projected([t])[0];
    if ts == [] {
      assert [] + [t] == [t] && Projected([t]) == [p];
    } else {
      assert ts == [ts[0]] + ts[1..] && (ts + [t])[1..] == ts[1..] + [t];
      PutProjected(ts[1..], t);
      assert Projected(ts)[1..] == Projected(ts[1..]);
    }
  }

  lemma {:induction false} PopProjected(ts: seq<Treasure>, id: string)
    ensures H.Pop(Projected(ts), id) == Projected(H.Without(ts, id))
  {
    if ts != [] {
      PopProjected(ts[1..], id);
      assert Projected(ts)[1..] == Projected(ts[1..]);
      assert ([ts[0]] + H.Without(ts[1..], id))[1..] == H.Without(ts[1..], id);
    }
  }

  lemma {:induction false} OneMore(ts: seq<Treasure>, t: Treasure)
    requires OnePerTemplate(ts) && forall u | u in ts :: u.context.template != t.context.template
    ensures OnePerTemplate(ts + [t])
  {
    if ts == [] {
      assert ([] + [t])[1..] == [];
    } else {
      assert ts == [ts[0]] + ts[1..] && (ts + [t])[1..] == ts[1..] + [t];
      OneMore(ts[1..], t);
    }
  }

  lemma {:induction false} OneLess(ts: seq<Treasure>, id: string)
    requires OnePerTemplate(ts)
    ensures OnePerTemplate(H.Without(ts, id))
    ensures forall t | t in H.Without(ts, id) :: t in ts
    ensures H.Find(ts, id).Some? ==>
      forall t | t in H.Without(ts, id) :: t.context.template != H.Find(ts, id).value.context.template
  {
    if ts != [] {
      OneLess(ts[1..], id);
      H.FindFacts(ts[1..], id);
      assert ts == [ts[0]] + ts[1..];
      assert ([ts[0]] + H.Without(ts[1..], id))[1..] == H.Without(ts[1..], id);
    }
  }

  lemma AdmittedHouse(cfg: Config, house: H.House, t: Treasure)
    requires HouseOk(cfg, house) && H.Admits(house, t, cfg.houseLimit) && |t.context.key| == 71
    requires H.ActiveFor(house.treasures, t.context.template) == [] && t.context.template !in house.released
    ensures HouseOk(cfg, H.Admitted(house, t))
  {
    H.DistinctAppend(house.treasures, t);
    H.ActiveMembers(house.treasures, t.context.template);
    OneMore(house.treasures, t);
  }

  lemma AdmitKeeps(cfg: Config, s: State, t: Treasure, schedule: AR.Timetable, e: Event)
    requires Core(cfg, s) && HouseOk(cfg, H.Admitted(s.house, t)) && H.Vacant(s.house.treasures, t)
    requires e.eventType == FaultInjected && e.fault == Some(STASH) && e.details == StashDetails([t.rowIndex], t.treasureId)
    requires t.treasureId != "" && e.eventId == t.eventId && H.TemplateOf(e) == Some(t.context.template)
    requires e.seqNo == |s.log| + 1 && IdDerived(cfg, e)
    ensures Core(cfg, s.(house := H.Admitted(s.house, t), schedule := schedule, log := s.log + [e]))
  {
    hide HouseOk, LogFine, IdDerived, H.Vacant;
    AppendFine(cfg, s, e);
    PutProjected(s.house.treasures, t);
    FineFrame(cfg, s.(log := s.log + [e]), s.(house := H.Admitted(s.house, t), schedule := schedule, log := s.log + [e]));
  }

  lemma StashKeeps(cfg: Config, s: State, d: Decision, result: LogicalResult)
    requires Core(cfg, s) && |d.context.key| == 71 && result.rows != []
    requires H.ActiveFor(s.house.treasures, d.context.template) == [] && d.context.template !in s.house.released
    ensures Core(cfg, Stash(cfg, s, d, result).0)
  {
    hide HouseOk, LogFine, NextEventId, IdDerived, H.Vacant, AR.Planned, AR.HoldFor, DeterministicId, Index;
    var t := NewTreasure(cfg, s, d, result);
    if H.Admits(s.house, t, cfg.houseLimit) {
      AdmittedHouse(cfg, s.house, t);
      var s1 := Housed(cfg, s, t);
      var outcome := if cfg.policy.stashError then ReadPartial else RowsHidden;
      var e := Event(|s.log| + 1, NextEventId(cfg, s1, d.context.key, OfFault(STASH)), FaultInjected, Some(STASH),
                     Some(d.phase), Some(d.context), Some(outcome), StashDetails([t.rowIndex], t.treasureId));
      SameNextId(cfg, s, s1, d.context.key, OfFault(STASH));
      IdOf(cfg, s, d.context.key, OfFault(STASH), e);
      AdmitKeeps(cfg, s, t, s1.schedule, e);
    }
  }

  /** The id computed before the row enters the house is the id its event is logged under. */
  lemma SameNextId(cfg: Config, s: State, s': State, key: string, name: EventName)
    requires |s'.log| == |s.log|
    ensures NextEventId(cfg, s', key, name) == NextEventId(cfg, s, key, name)
  {
  }

  /** The log part does not look at house, schedule, occurrences or cache. */
  lemma FineFrame(cfg: Config, s: State, s': State)
    requires LogFine(cfg, s) && s'.log == s.log && s'.mood == s.mood && s'.tick == s.tick
    ensures LogFine(cfg, s')
  {
  }

  lemma LogReturnFine(cfg: Config, s: State, t: Treasure, phase: Phase)
    requires LogFine(cfg, s) && |t.context.key| == 71
    ensures LogFine(cfg, LogReturn(cfg, s, t, phase))
    ensures H.Projection(LogReturn(cfg, s, t, phase).log) == H.Pop(H.Projection(s.log), t.treasureId)
  {
    hide LogFine, NextEventId, IdDerived;
    var e := Event(|s.log| + 1, NextEventId(cfg, s, t.context.key, RETURN), TreasureReturned, Some(STASH), Some(phase),
                   Some(t.context), Some(GivenBack), ReturnDetails(t.treasureId));
    IdOf(cfg, s, t.context.key, RETURN, e);
    AppendFine(cfg, s, e);
  }

  lemma ReturnedHouse(cfg: Config, house: H.House, id: string)
    requires HouseOk(cfg, house)
    ensures HouseOk(cfg, H.Returned(house, id))
  {
    H.FindFacts(house.treasures, id);
    H.WithoutFacts(house.treasures, id);
    OneLess(house.treasures, id);
  }

  lemma GiveBackKeeps(cfg: Config, s: State, id: string, phase: Phase)
    requires Core(cfg, s)
    ensures Core(cfg, GiveBack(cfg, s, id, phase))
  {
    H.FindFacts(s.house.treasures, id);
    var found := H.Find(s.house.treasures, id);
    ReturnedHouse(cfg, s.house, id);
    if found.Some? {
      assert |found.value.context.key| == 71;
      hide HouseOk, LogFine, LogReturn, H.Distinct;
      PopProjected(s.house.treasures, id);
      var s1 := s.(house := H.Returned(s.house, id));
      FineFrame(cfg, s, s1);
      LogReturnFine(cfg, s1, found.value, phase);
      assert LogReturn(cfg, s1, found.value, phase).house == s1.house;
    }
  }

  lemma {:induction false} GiveBackAllKeeps(cfg: Config, s: State, ids: seq<string>, phase: Phase)
    requires Core(cfg, s)
    ensures Core(cfg, GiveBackAll(cfg, s, ids, phase))
  {
    hide Core, GiveBack;
    if ids != [] {
      GiveBackAllKeeps(cfg, s, ids[..|ids| - 1], phase);
      GiveBackKeeps(cfg, GiveBackAll(cfg, s, ids[..|ids| - 1], phase), ids[|ids| - 1], phase);
    }
  }

  lemma {:induction false} CancelAndLogFine(cfg: Config, s: State, all: seq<Treasure>, k: nat)
    requires k <= |all| && LogFine(cfg, s) && H.Projection(s.log) == Projected(all)
    requires forall t | t in all :: |t.context.key| == 71
    ensures var s' := CancelAndLog(cfg, s, all[..k]);
            LogFine(cfg, s') && H.Projection(s'.log) == Projected(all[k..])
  {
    hide LogFine, LogReturn, CancelAndLog;
    if k == 0 {
      CancelAndLogNone(cfg, s, all);
    } else {
      CancelAndLogFine(cfg, s, all, k - 1);
      CancelAndLogStep(cfg, s, all, k);
      var s1 := CancelAndLog(cfg, s, all[..k - 1]);
      FineFrame(cfg, s1, Cancel(cfg, s1, all[k - 1].treasureId));
      LogReturnFine(cfg, Cancel(cfg, s1, all[k - 1].treasureId), all[k - 1], ManualReturn);
      assert all[k - 1..][0] == all[k - 1] && all[k - 1..][1..] == all[k..];
    }
  }

  lemma CancelAndLogNone(cfg: Config, s: State, all: seq<Treasure>)
    ensures CancelAndLog(cfg, s, all[..0]) == s && all[..0] == [] && all[0..] == all
  {
  }

  lemma CancelAndLogStep(cfg: Config, s: State, all: seq<Treasure>, k: nat)
    requires 0 < k <= |all|
    ensures CancelAndLog(cfg, s, all[..k]) ==
            LogReturn(cfg, Cancel(cfg, CancelAndLog(cfg, s, all[..k - 1]), all[k - 1].treasureId), all[k - 1], ManualReturn)
  {
    hide LogReturn, Cancel;
    assert all[..k][..k - 1] == all[..k - 1];
  }

  lemma LogReturnFrame(cfg: Config, s: State, t: Treasure, phase: Phase)
    ensures LogReturn(cfg, s, t, phase) == s.(log := LogReturn(cfg, s, t, phase).log)
  {
    hide NextEventId;
  }

  lemma {:induction false} CancelAndLogSchedule(cfg: Config, s: State, all: seq<Treasure>, k: nat)
    requires k <= |all| && ScheduleOk(s.schedule)
    ensures var s' := CancelAndLog(cfg, s, all[..k]);
            && s' == s.(log := s'.log, schedule := s'.schedule)
            && (cfg.autoReturn.None? ==> s'.schedule == s.schedule)
            && (cfg.autoReturn.Some? ==>
                  && ScheduleOk(s'.schedule) && s'.schedule.currentTick == s.schedule.currentTick
                  && PendingIds(s'.schedule.scheduled) == PendingIds(s.schedule.scheduled) - HouseIds(all[..k]))
  {
    hide ScheduleOk, PendingIds, HouseIds, CancelAndLog, LogReturn, AR.Cancelled;
    if k > 0 {
      CancelAndLogSchedule(cfg, s, all, k - 1);
      CancelAndLogStep(cfg, s, all, k);
      var s1 := CancelAndLog(cfg, s, all[..k - 1]);
      CancelledOk(s1.schedule, all[k - 1].treasureId);
      assert all[..k] == all[..k - 1] + [all[k - 1]];
      AdmittedIds(all[..k - 1], all[k - 1]);
      LogReturnFrame(cfg, Cancel(cfg, s1, all[k - 1].treasureId), all[k - 1], ManualReturn);
    } else {
      CancelAndLogNone(cfg, s, all);
      NoIds();
    }
  }

  lemma NothingPending(ps: seq<AR.Pending>)
    ensures PendingIds(ps) == {} <==> ps == []
  {
    if ps != [] {
      assert ps[0].treasureId in PendingIds(ps);
    }
  }

  lemma ReturnAllKeeps(cfg: Config, force: bool, s: State)
    requires Core(cfg, s) && Timed(cfg, s)
    ensures var s' := Step(cfg, force, s, ReturnAll).0;
            Core(cfg, s') && Timed(cfg, s') && SameClock(s, s')
  {
    var ts := s.house.treasures;
    var s0 := s.(house := H.AllReturned(s.house));
    hide LogFine, ScheduleOk, CancelAndLog, PendingIds, HouseIds;
    FineFrame(cfg, s, s0);
    CancelAndLogFine(cfg, s0, ts, |ts|);
    CancelAndLogSchedule(cfg, s0, ts, |ts|);
    assert ts[..|ts|] == ts && ts[|ts|..] == [];
    if cfg.autoReturn.Some? {
      NothingPending(CancelAndLog(cfg, s0, ts).schedule.scheduled);
      NoIds();
    }
  }

  lemma NoIds()
    ensures HouseIds([]) == {} && PendingIds([]) == {}
  {
  }

  // ----- The schedule -----

  ghost predicate SameClock(s: State, s': State) {
    s'.tick == s.tick && s'.mood == s.mood && s'.occurrences == s.occurrences && s'.cache == s.cache
  }

  lemma {:induction false} PopAscending(ps: seq<AR.Pending>, id: string)
    requires AR.Distinct(ps) && Ascending(ps)
    ensures Ascending(AR.Pop(ps, id))
  {
    if ps != [] {
      PopAscending(ps[1..], id);
      AR.PopFacts(ps[1..], id);
      assert ([ps[0]] + AR.Pop(ps[1..], id))[1..] == AR.Pop(ps[1..], id);
    }
  }

  lemma {:induction false} AppendAscending(ps: seq<AR.Pending>, p: AR.Pending)
    requires Ascending(ps) && forall q | q in ps :: q.order < p.order
    ensures Ascending(ps + [p])
  {
    if ps != [] {
      assert ps == [ps[0]] + ps[1..] && (ps + [p])[1..] == ps[1..] + [p];
      AppendAscending(ps[1..], p);
    } else {
      assert ([] + [p])[1..] == [];
    }
  }

  lemma {:induction false} NotDueAscending(ps: seq<AR.Pending>, tick: nat)
    requires Ascending(ps)
    ensures Ascending(AR.NotDueBy(ps, tick))
  {
    if ps != [] {
      assert ps == [ps[0]] + ps[1..];
      NotDueAscending(ps[1..], tick);
      assert ([ps[0]] + AR.NotDueBy(ps[1..], tick))[1..] == AR.NotDueBy(ps[1..], tick);
    }
  }

  lemma CancelledOk(sch: AR.Timetable, id: string)
    requires ScheduleOk(sch)
    ensures ScheduleOk(AR.Cancelled(sch, id))
    ensures PendingIds(AR.Cancelled(sch, id).scheduled) == PendingIds(sch.scheduled) - {id}
    ensures forall p | p in AR.Cancelled(sch, id).scheduled :: p in sch.scheduled
    ensures AR.Cancelled(sch, id).currentTick == sch.currentTick
  {
    AR.PopFacts(sch.scheduled, id);
    PopAscending(sch.scheduled, id);
  }

  lemma PlannedOk(sch: AR.Timetable, id: string, hold: nat)
    requires ScheduleOk(sch) && id !in PendingIds(sch.scheduled)
    ensures ScheduleOk(AR.Planned(sch, id, hold))
    ensures PendingIds(AR.Planned(sch, id, hold).scheduled) == PendingIds(sch.scheduled) + {id}
    ensures AR.Planned(sch, id, hold).scheduled ==
            sch.scheduled + [AR.Pending(id, sch.currentTick + hold, sch.nextOrder + 1)]
    ensures AR.Planned(sch, id, hold).currentTick == sch.currentTick
  {
    hide AR.Put;
    var p := AR.Pending(id, sch.currentTick + hold, sch.nextOrder + 1);
    assert forall q | q in sch.scheduled :: q.treasureId in PendingIds(sch.scheduled);
    AR.PutNew(sch.scheduled, p);
    AR.PutDistinct(sch.scheduled, p);
    AppendAscending(sch.scheduled, p);
  }

  lemma TimedFrame(cfg: Config, s: State, s': State)
    requires Timed(cfg, s) && s'.schedule == s.schedule && s'.tick == s.tick && s'.house.treasures == s.house.treasures
    ensures Timed(cfg, s')
  {
  }

  lemma LogFaultFrame(cfg: Config, s: State, d: Decision, f: Fault, o: Outcome, x: Details)
    ensures LogFault(cfg, s, d, f, o, x) == s.(log := LogFault(cfg, s, d, f, o, x).log)
  {
    hide NextEventId;
  }

  lemma AdmittedIds(ts: seq<Treasure>, t: Treasure)
    ensures HouseIds(ts + [t]) == HouseIds(ts) + {t.treasureId}
    ensures H.Vacant(ts, t) ==> t.treasureId !in HouseIds(ts)
  {
  }

  lemma HousedTimed(cfg: Config, s: State, t: Treasure)
    requires Timed(cfg, s) && H.Vacant(s.house.treasures, t)
    ensures Timed(cfg, Housed(cfg, s, t)) && SameClock(s, Housed(cfg, s, t))
  {
    hide AR.HoldFor, AR.Planned, ScheduleOk, PendingIds, HouseIds, H.Vacant;
    AdmittedIds(s.house.treasures, t);
    if cfg.autoReturn.Some? {
      var hold := AR.HoldFor(cfg.autoReturn.value, cfg.session, t.context.key);
      PlannedOk(s.schedule, t.treasureId, hold);
    }
  }

  lemma StashTimed(cfg: Config, s: State, d: Decision, result: LogicalResult)
    requires Timed(cfg, s) && result.rows != []
    ensures Timed(cfg, Stash(cfg, s, d, result).0) && SameClock(s, Stash(cfg, s, d, result).0)
  {
    hide LogFault, Housed, Timed, DeterministicId, Index, NextEventId;
    var t := NewTreasure(cfg, s, d, result);
    if H.Admits(s.house, t, cfg.houseLimit) {
      HousedTimed(cfg, s, t);
      var s1 := Housed(cfg, s, t);
      LogFaultFrame(cfg, s1, d, STASH, if cfg.policy.stashError then ReadPartial else RowsHidden,
                    StashDetails([t.rowIndex], t.treasureId));
      TimedFrame(cfg, s1, LogStash(cfg, s1, d, t));
    }
  }

  lemma WithoutIds(ts: seq<Treasure>, id: string)
    requires H.Distinct(ts)
    ensures HouseIds(H.Without(ts, id)) == HouseIds(ts) - {id}
    ensures H.Find(ts, id) == None <==> id !in HouseIds(ts)
  {
    H.WithoutFacts(ts, id);
    H.FindFacts(ts, id);
  }

  lemma GiveBackFrame(cfg: Config, s: State, id: string, phase: Phase)
    ensures var s' := GiveBack(cfg, s, id, phase);
            s' == s.(house := H.Returned(s.house, id), log := s'.log)
  {
    if H.Find(s.house.treasures, id).Some? {
      LogReturnFrame(cfg, s.(house := H.Returned(s.house, id)), H.Find(s.house.treasures, id).value, phase);
    }
  }

  lemma GiveBackTimed(cfg: Config, s: State, id: string, phase: Phase)
    requires Timed(cfg, s) && H.Distinct(s.house.treasures)
    ensures Timed(cfg, GiveBack(cfg, Cancel(cfg, s, id), id, phase))
  {
    WithoutIds(s.house.treasures, id);
    H.FindFacts(s.house.treasures, id);
    hide GiveBack, ScheduleOk, PendingIds, HouseIds;
    GiveBackFrame(cfg, Cancel(cfg, s, id), id, phase);
    if cfg.autoReturn.Some? {
      CancelledOk(s.schedule, id);
    }
  }
}
