/** Every step of a session keeps the invariants, so they hold after every run. */
module StepInvariants {
  import opened Models
  import opened Decisions
  import opened Faults
  import opened Session
  import opened Adapters
  import opened Invariants
  import H = House
  import AR = AutoReturn
  import M = MoodEngine
  import SC = StaleCache
  import Draws

  // ----- The clock -----

  lemma {:induction false} GiveBackAllIds(cfg: Config, s: State, ids: seq<string>, phase: Phase)
    requires Core(cfg, s)
    ensures var s' := GiveBackAll(cfg, s, ids, phase);
            && s' == s.(house := s'.house, log := s'.log)
            && HouseIds(s'.house.treasures) == HouseIds(s.house.treasures) - (set id | id in ids)
  {
    hide HouseIds, GiveBack, GiveBackAll, Core;
    if ids == [] {
      GiveBackNone(cfg, s, phase);
    } else {
      var front, last := ids[..|ids| - 1], ids[|ids| - 1];
      GiveBackAllIds(cfg, s, front, phase);
      GiveBackAllKeeps(cfg, s, front, phase);
      var s1 := GiveBackAll(cfg, s, front, phase);
      CoreIsDistinct(cfg, s1);
      GiveBackAllStep(cfg, s, ids, phase);
      GiveBackFrame(cfg, s1, last, phase);
      ReturnedIds(s1.house, last);
      assert (set id | id in ids) == (set id | id in front) + {last} by {
        assert ids == front + [last];
      }
    }
  }

  lemma GiveBackNone(cfg: Config, s: State, phase: Phase)
    ensures GiveBackAll(cfg, s, [], phase) == s
  {
  }

  lemma CoreIsDistinct(cfg: Config, s: State)
    requires Core(cfg, s)
    ensures H.Distinct(s.house.treasures) && LastMoodTick(s.log) <= s.tick
  {
  }

  lemma ReturnedIds(house: H.House, id: string)
    requires H.Distinct(house.treasures)
    ensures HouseIds(H.Returned(house, id).treasures) == HouseIds(house.treasures) - {id}
  {
    WithoutIds(house.treasures, id);
    H.FindFacts(house.treasures, id);
  }

  lemma GiveBackAllStep(cfg: Config, s: State, ids: seq<string>, phase: Phase)
    requires ids != []
    ensures GiveBackAll(cfg, s, ids, phase) ==
            GiveBack(cfg, GiveBackAll(cfg, s, ids[..|ids| - 1], phase), ids[|ids| - 1], phase)
  {
    hide GiveBack;
  }

  lemma AdvancedOk(sch: AR.Timetable, tick: nat)
    requires ScheduleOk(sch)
    ensures var ids := AR.Due(sch, tick);
            && ScheduleOk(AR.Advanced(sch, tick))
            && PendingIds(AR.Advanced(sch, tick).scheduled) == PendingIds(sch.scheduled) - (set id | id in ids)
  {
    var due := AR.SortDue(AR.DueBy(sch.scheduled, tick));
    AR.IdsOfDue(sch.scheduled, due, tick);
    NotDueAscending(sch.scheduled, tick);
    hide AR.SortDue, AR.DueBy, AR.NotDueBy, AR.Ids, Ascending, AR.Distinct, PendingIds;
    PendingSplit(sch.scheduled, AR.NotDueBy(sch.scheduled, tick), AR.Ids(due));
  }

  lemma PendingSplit(ps: seq<AR.Pending>, left: seq<AR.Pending>, ids: seq<string>)
    requires forall p :: p in left <==> p in ps && p.treasureId !in ids
    ensures PendingIds(left) == PendingIds(ps) - (set id | id in ids)
  {
  }

  /** At the start of an operation exactly the due treasures are handed back. */
  lemma ReturnDueKeeps(cfg: Config, s: State)
    requires Core(cfg, s) && Timed(cfg, s)
    ensures var s0 := s.(tick := s.tick + 1);
            var s' := ReturnDue(cfg, s0);
            && Core(cfg, s') && Timed(cfg, s')
            && s' == s0.(house := s'.house, log := s'.log, schedule := s'.schedule)
  {
    var s0 := s.(tick := s.tick + 1);
    if cfg.autoReturn.Some? {
      var tick := s0.tick;
      var ids := AR.Due(s.schedule, tick);
      var s1 := s0.(schedule := AR.Advanced(s.schedule, tick));
      AdvancedOk(s.schedule, tick);
      assert forall p | p in s1.schedule.scheduled :: p.due > tick;
      assert s1.schedule.currentTick == tick;
      assert Core(cfg, s1);
      hide Core, ScheduleOk, HouseIds, PendingIds, AR.Advanced, AR.Due, GiveBackAll;
      GiveBackAllKeeps(cfg, s1, ids, AutoReturn);
      GiveBackAllIds(cfg, s1, ids, AutoReturn);
    }
  }

  lemma MoodStep(config: MoodConfig, session: Hashing, tick: nat)
    ensures M.Advanced(config, session, M.MoodState(tick, MoodAt(config, session, tick))) ==
            M.MoodState(tick + 1, MoodAt(config, session, tick + 1))
  {
    var l := config.epochLength;
    Draws.DivStep(tick, l);
    hide M.MoodOf;
    if (tick + 1) % l != 0 && tick < l {
      assert tick + 1 < l by {
        if tick + 1 == l {
          Draws.DivUnique(tick + 1, l, 1, 0);
        }
      }
    }
    if (tick + 1) % l == 0 && tick + 1 < l {
      Draws.DivUnique(tick + 1, l, 0, tick + 1);
    }
  }

  lemma TransitionFacts(config: MoodConfig, session: Hashing, m: M.MoodState)
    ensures var next := M.Advanced(config, session, m);
            match M.Transition(config, session, m)
            case None => next.mood == m.mood
            case Some(t) =>
              && t.previous == m.mood && t.current == next.mood && t.current != t.previous && t.tick == m.tick + 1
              && t.tick % config.epochLength == 0 && |t.derivationKey| == 71
  {
    hide M.MoodOf, Derive, M.ChainKey, MoodText;
  }

  lemma MoodChangeFine(cfg: Config, s: State, mood: M.MoodState, e: Event)
    requires LogFine(cfg, s) && cfg.mood.Some? && LastMoodTick(s.log) < s.tick
    requires e.eventType == MoodChanged && e.details == MoodDetails(s.mood.mood, mood.mood, s.tick)
    requires mood.mood != s.mood.mood && s.tick % cfg.mood.value.epochLength == 0
    requires e.seqNo == |s.log| + 1 && IdDerived(cfg, e)
    ensures LogFine(cfg, s.(mood := mood, log := s.log + [e]))
    ensures H.Projection(s.log + [e]) == H.Projection(s.log)
  {
    hide IdDerived;
    LogGrows(s.log, e);
  }

  lemma SameMoodFine(cfg: Config, s: State, mood: M.MoodState)
    requires LogFine(cfg, s) && mood.mood == s.mood.mood
    ensures LogFine(cfg, s.(mood := mood))
  {
  }

  lemma AdvanceMoodKeepsCore(cfg: Config, s: State)
    requires Core(cfg, s) && LastMoodTick(s.log) < s.tick && (cfg.mood.Some? ==> s.mood.tick + 1 == s.tick)
    ensures var s' := AdvanceMood(cfg, s);
            && Core(cfg, s') && s' == s.(mood := s'.mood, log := s'.log)
            && s'.mood == if cfg.mood.Some? then M.Advanced(cfg.mood.value, cfg.session, s.mood) else s.mood
  {
    hide M.Transition, M.Advanced, NextEventId, IdDerived, HouseOk, LastMoodTick, LogFine;
    if cfg.mood.Some? {
      var config := cfg.mood.value;
      TransitionFacts(config, cfg.session, s.mood);
      var s1 := s.(mood := M.Advanced(config, cfg.session, s.mood));
      match M.Transition(config, cfg.session, s.mood) {
        case None => SameMoodFine(cfg, s, s1.mood);
        case Some(t) =>
          var e := Event(|s.log| + 1, NextEventId(cfg, s1, t.derivationKey, MOOD), MoodChanged, None, None, None, None,
                         MoodDetails(t.previous, t.current, t.tick));
          IdOf(cfg, s1, t.derivationKey, MOOD, e);
          MoodChangeFine(cfg, s, s1.mood, e);
      }
    }
  }

  lemma MoodKeeps(cfg: Config, s: State)
    requires Core(cfg, s) && Timed(cfg, s) && s.tick > 0
    requires MoodOk(cfg, s.(tick := s.tick - 1)) && LastMoodTick(s.log) < s.tick
    ensures var s' := AdvanceMood(cfg, s);
            && Core(cfg, s') && Timed(cfg, s') && MoodOk(cfg, s')
            && s' == s.(mood := s'.mood, log := s'.log)
  {
    hide Core, Timed, AdvanceMood, M.Advanced, MoodAt, LastMoodTick;
    AdvanceMoodKeepsCore(cfg, s);
    TimedFrame(cfg, s, AdvanceMood(cfg, s));
    if cfg.mood.Some? {
      MoodStep(cfg.mood.value, cfg.session, s.tick - 1);
    }
  }

  lemma BeginKeeps(cfg: Config, s: State)
    requires Core(cfg, s) && Timed(cfg, s) && MoodOk(cfg, s)
    ensures var s' := BeginOperation(cfg, s);
            && Core(cfg, s') && Timed(cfg, s') && MoodOk(cfg, s')
            && s'.occurrences == s.occurrences && s'.cache == s.cache
            && s'.tick == s.tick + if cfg.Clocked() then 1 else 0
  {
    hide Core, Timed, ReturnDue, AdvanceMood, LastMoodTick, MoodAt;
    if cfg.Clocked() {
      var s0 := s.(tick := s.tick + 1);
      CoreIsDistinct(cfg, s);
      ReturnDueKeeps(cfg, s);
      var s1 := ReturnDue(cfg, s0);
      ReturnDueMoodTick(cfg, s0, s.tick);
      MoodKeeps(cfg, s1);
    }
  }

  lemma {:induction false} ReturnsKeepMoodTick(cfg: Config, s: State, ids: seq<string>, phase: Phase)
    ensures LastMoodTick(GiveBackAll(cfg, s, ids, phase).log) == LastMoodTick(s.log)
  {
    hide GiveBackAll, NextEventId;
    if ids == [] {
      GiveBackNone(cfg, s, phase);
    } else {
      ReturnsKeepMoodTick(cfg, s, ids[..|ids| - 1], phase);
      var s1 := GiveBackAll(cfg, s, ids[..|ids| - 1], phase);
      var id := ids[|ids| - 1];
      GiveBackAllStep(cfg, s, ids, phase);
      if H.Find(s1.house.treasures, id).Some? {
        var s' := GiveBack(cfg, s1, id, phase);
        assert |s'.log| == |s1.log| + 1 && s'.log[..|s1.log|] == s1.log && s'.log[|s1.log|].eventType == TreasureReturned;
      }
    }
  }

  lemma ReturnDueMoodTick(cfg: Config, s: State, bound: nat)
    requires LastMoodTick(s.log) <= bound
    ensures LastMoodTick(ReturnDue(cfg, s).log) <= bound
  {
    if cfg.autoReturn.Some? {
      ReturnsKeepMoodTick(cfg, s.(schedule := AR.Advanced(s.schedule, s.tick)), AR.Due(s.schedule, s.tick), AutoReturn);
    }
  }

  // ----- The phases of one statement -----

  ghost predicate Sound(cfg: Config, s: State) { Core(cfg, s) && Timed(cfg, s) }

  ghost predicate Kept(cfg: Config, s: State, s': State) { Sound(cfg, s') && SameClock(s, s') }

  lemma FaultKept(cfg: Config, s: State, d: Decision, fault: Fault, outcome: Outcome, details: Details)
    requires Sound(cfg, s) && |d.context.key| == 71 && fault != STASH
    ensures Kept(cfg, s, LogFault(cfg, s, d, fault, outcome, details))
  {
    LogFaultKeeps(cfg, s, d, fault, outcome, details);
    hide Core, Timed, LogFault;
    LogFaultFrame(cfg, s, d, fault, outcome, details);
    TimedFrame(cfg, s, LogFault(cfg, s, d, fault, outcome, details));
  }

  lemma DecisionKept(cfg: Config, s: State, d: Decision, candidates: seq<Fault>)
    requires Sound(cfg, s) && |d.context.key| == 71
    ensures Kept(cfg, s, LogDecision(cfg, s, d, candidates))
  {
    LogDecisionKeeps(cfg, s, d, candidates);
    hide Core, Timed, NextEventId;
    TimedFrame(cfg, s, LogDecision(cfg, s, d, candidates));
  }

  lemma LimitKept(cfg: Config, s: State, d: Decision, outcome: Outcome, details: Details)
    requires Sound(cfg, s) && |d.context.key| == 71
    ensures Kept(cfg, s, LogLimit(cfg, s, d, outcome, details))
  {
    LogLimitKeeps(cfg, s, d, outcome, details);
    hide Core, Timed, NextEventId;
    TimedFrame(cfg, s, LogLimit(cfg, s, d, outcome, details));
  }

  lemma ConsumedKept(cfg: Config, s: State, template: string)
    requires Sound(cfg, s)
    ensures Kept(cfg, s, s.(house := H.Consumed(s.house, template)))
  {
    hide LogFine, ScheduleOk;
    FineFrame(cfg, s, s.(house := H.Consumed(s.house, template)));
  }

  lemma DecisionKeyLength(cfg: Config, call: Call, phase: Phase)
    ensures var d := DecisionFor(cfg, call, phase);
            |d.context.key| == 71 && d.context.template == call.template && d.context.occurrence == call.occurrence
  {
    hide DecisionText;
  }

  lemma BeforeKept(cfg: Config, s: State, d: Decision, recordDebug: bool)
    requires Sound(cfg, s) && |d.context.key| == 71
    ensures Kept(cfg, s, BeforeExecution(cfg, s, d, recordDebug).0)
  {
    hide Sound, LogFault, LogDecision, Fires, Draw;
    match BeforeFault(cfg, s, d) {
      case Some(SLOTH) =>
        var delay := 1 + Draws.ModularIndex(Draw(cfg.session, d.context.key, Delay), cfg.policy.slothMaxDelayMs);
        FaultKept(cfg, s, d, SLOTH, Delayed, DelayDetails(delay));
      case Some(fault) => FaultKept(cfg, s, d, fault, NotExecuted, NoDetails);
      case None => if recordDebug { DecisionKept(cfg, s, d, BEFORE_EXECUTE_PRIORITY); }
    }
  }

  lemma StashKept(cfg: Config, s: State, d: Decision, result: LogicalResult)
    requires Sound(cfg, s) && |d.context.key| == 71 && result.rows != []
    requires H.ActiveFor(s.house.treasures, d.context.template) == [] && d.context.template !in s.house.released
    ensures Kept(cfg, s, Stash(cfg, s, d, result).0)
  {
    StashKeeps(cfg, s, d, result);
    StashTimed(cfg, s, d, result);
  }

  lemma TreatedKept(cfg: Config, s: State, d: Decision, cls: Classification, result: LogicalResult)
    requires Sound(cfg, s) && |d.context.key| == 71
    requires H.ActiveFor(s.house.treasures, d.context.template) == []
    ensures Kept(cfg, s, Treated(cfg, s, d, cls, result).0)
  {
    hide Sound, ChewFor, History, Candidates, Fires, LogFault, LogDecision, Stash, Inject, H.ActiveFor;
    var template := d.context.template;
    ConsumedKept(cfg, s, template);
    var released, s1 := template in s.house.released, s.(house := H.Consumed(s.house, template));
    var chew, history := ChewFor(cfg, d, result), History(cfg, s, d);
    var candidates := Candidates(cfg, released, cls, result, chew.Some?, history != []);
    match Select(cfg, s.mood.mood, d.context.key, ON_RESULT_PRIORITY, candidates) {
      case None => DecisionKept(cfg, s1, d, candidates);
      case Some(fault) =>
        CandidateApplies(cfg, released, cls, result, chew, history, fault);
        if fault == STASH || fault == STASH_ERROR {
          StashKept(cfg, s1, d, result);
        } else {
          var injection := Inject(cfg, d, fault, result, chew, history);
          FaultKept(cfg, s1, d, fault, injection.outcome, injection.details);
        }
    }
  }

  lemma OnResultKept(cfg: Config, s: State, d: Decision, cls: Classification, result: LogicalResult)
    requires Sound(cfg, s) && |d.context.key| == 71
    ensures Kept(cfg, s, Faults.OnResult(cfg, s, d, cls, result).0)
  {
    hide Sound, Drops, LogFault, LogLimit, Treated, H.ActiveFor;
    if cls.kind != SELECT {
    } else if |result.rows| > cfg.maxInterventionRows {
      LimitKept(cfg, s, d, if cfg.policy.maxRowsError then LimitError else FaultSkipped,
                LimitDetails(MaxInterventionRows, cfg.maxInterventionRows, Some(|result.rows|)));
    } else if Drops(cfg, s, d) {
      FaultKept(cfg, s, d, NO_DROP, ResponseLost, NoDetails);
    } else if H.ActiveFor(s.house.treasures, d.context.template) == [] {
      TreatedKept(cfg, s, d, cls, result);
    }
  }

  lemma BeforePhaseKept(cfg: Config, force: bool, s: State, call: Call, cls: Classification)
    requires Sound(cfg, s)
    ensures Kept(cfg, s, BeforePhase(cfg, force, s, call, cls).0)
  {
    hide Sound, BeforeExecution, DecisionFor, EvaluatesBefore;
    DecisionKeyLength(cfg, call, BeforeExecute);
    if EvaluatesBefore(cfg, force, s.mood.mood, cls) {
      BeforeKept(cfg, s, DecisionFor(cfg, call, BeforeExecute), RowCap(cfg, cls).None?);
    }
  }

  lemma DeferredKept(cfg: Config, force: bool, s: State, call: Call, cls: Classification, before: Before)
    requires Sound(cfg, s)
    ensures Kept(cfg, s, DeferredDebug(cfg, force, s, call, cls, before))
  {
    hide Sound, LogDecision, DecisionFor, EvaluatesBefore;
    DecisionKeyLength(cfg, call, BeforeExecute);
    DecisionKept(cfg, s, DecisionFor(cfg, call, BeforeExecute), BEFORE_EXECUTE_PRIORITY);
  }

  // ----- The cache -----

  /** The cache is in order and holds only earlier occurrences of the call's template. */
  ghost predicate CacheBelow(cfg: Config, s: State, call: Call) {
    CacheOk(cfg, s) && CountOf(s.occurrences, call.template) == call.occurrence &&
    forall e | e in s.cache && e.key.0 == call.template :: e.occurrence < call.occurrence
  }

  lemma CachedOk(cfg: Config, s: State, call: Call, cls: Classification, result: LogicalResult)
    requires CacheBelow(cfg, s, call) && call.occurrence > 0
    ensures CacheOk(cfg, Cached(cfg, s, call, cls, result))
  {
    hide DecisionFor;
    DecisionKeyLength(cfg, call, OnResult);
    var entry := StaleEntry(KeyFor(cfg, DecisionFor(cfg, call, OnResult)), call.occurrence, result);
    hide SC.Added, SC.Distinct;
    if Cached(cfg, s, call, cls, result) != s {
      SC.AddedKeepsBounds(s.cache, entry, PER_FINGERPRINT, TOTAL_LIMIT);
      SC.RoomKeepsFresh(s.cache, entry.key, entry.occurrence, PER_FINGERPRINT);
      SC.AddedKeepsDistinct(s.cache, entry, PER_FINGERPRINT, TOTAL_LIMIT);
    }
  }

  lemma BegunCache(cfg: Config, s: State, call: Call)
    requires CacheOk(cfg, s) && call.occurrence == CountOf(s.occurrences, call.template) + 1
    ensures CacheBelow(cfg, Begin(s, call), call)
  {
    hide SC.Distinct, SC.Bounded;
  }

  lemma CachedFrame(cfg: Config, s: State, call: Call, cls: Classification, result: LogicalResult)
    requires Sound(cfg, s)
    ensures var s' := Cached(cfg, s, call, cls, result);
            Sound(cfg, s') && s' == s.(cache := s'.cache)
  {
    hide LogFine, ScheduleOk;
    var s' := Cached(cfg, s, call, cls, result);
    FineFrame(cfg, s, s');
  }

  // ----- One operation -----

  ghost predicate Carried(cfg: Config, s: State, s': State) {
    Sound(cfg, s') && CacheOk(cfg, s') && s'.tick == s.tick && s'.mood == s.mood && s'.occurrences == s.occurrences
  }

  lemma ResultPhaseKeeps(cfg: Config, force: bool, s: State, call: Call, cls: Classification, slowed: bool,
                         result: LogicalResult)
    requires Sound(cfg, s) && CacheBelow(cfg, s, call) && call.occurrence > 0
    ensures Carried(cfg, s, ResultPhase(cfg, force, s, call, cls, slowed, result).0)
  {
    hide Sound, Faults.OnResult, DecisionFor, Intervenes, Cached, CacheOk;
    var d := DecisionFor(cfg, call, OnResult);
    DecisionKeyLength(cfg, call, OnResult);
    OnResultKept(cfg, s, d, cls, result);
    var (s1, delivery) :=
      if Intervenes(cfg, force, s.mood.mood, cls, slowed, |result.rows|)
      then Faults.OnResult(cfg, s, d, cls, result)
      else (s, Delivered(result));
    CacheFrame(cfg, s, s1);
    if delivery.Delivered? {
      CachedOk(cfg, s1, call, cls, delivery.result);
      CachedFrame(cfg, s1, call, cls, delivery.result);
    }
  }

  lemma CacheFrame(cfg: Config, s: State, s': State)
    requires SameClock(s, s') && CacheOk(cfg, s)
    ensures CacheOk(cfg, s')
  {
  }

  lemma InterveneKeeps(cfg: Config, force: bool, s: State, call: Call, cls: Classification, reply: Reply)
    requires Sound(cfg, s) && CacheBelow(cfg, s, call) && call.occurrence > 0
    ensures Carried(cfg, s, Intervene(cfg, force, s, call, cls, reply).0)
  {
    hide Sound, BeforePhase, DeferredDebug, ResultPhase, LogLimit, DecisionFor, CacheOk, Fetch;
    BeforePhaseKept(cfg, force, s, call, cls);
    var (s1, before) := BeforePhase(cfg, force, s, call, cls);
    CacheFrame(cfg, s, s1);
    if !before.Refused? {
      match Fetch(reply, RowCap(cfg, cls)) {
        case BackendError =>
        case CapExceeded =>
          DecisionKeyLength(cfg, call, OnResult);
          var details := LimitDetails(MaxResultRows, if cfg.maxResultRows.Some? then cfg.maxResultRows.value else 0, None);
          LimitKept(cfg, s1, DecisionFor(cfg, call, OnResult), LimitError, details);
          CacheFrame(cfg, s1, LogLimit(cfg, s1, DecisionFor(cfg, call, OnResult), LimitError, details));
        case Fetched(result) =>
          DeferredKept(cfg, force, s1, call, cls, before);
          var s2 := DeferredDebug(cfg, force, s1, call, cls, before);
          CacheFrame(cfg, s1, s2);
          ResultPhaseKeeps(cfg, force, s2, call, cls, before.Slowed?, result);
      }
    }
  }

  lemma BegunFrame(cfg: Config, s: State, call: Call)
    requires Sound(cfg, s)
    ensures Sound(cfg, Begin(s, call))
  {
    hide LogFine, ScheduleOk;
    FineFrame(cfg, s, Begin(s, call));
  }

  lemma MoodFrame(cfg: Config, s: State, s': State)
    requires MoodOk(cfg, s) && s'.mood == s.mood && s'.tick == s.tick
    ensures MoodOk(cfg, s')
  {
  }

  lemma ExecuteKeeps(cfg: Config, force: bool, s: State, op: Operation)
    requires Inv(cfg, s) && op.Execute?
    ensures Inv(cfg, ExecuteStep(cfg, force, s, op).0)
  {
    BeginKeeps(cfg, s);
    var s0 := BeginOperation(cfg, s);
    CacheOkFrame(cfg, s, s0);
    if PassthroughReason(op.params, op.cls) == None {
      var call := CallFor(cfg, s0, op);
      assert Sound(cfg, s0);
      BegunCache(cfg, s0, call);
      BegunFrame(cfg, s0, call);
      hide BeginOperation, Intervene, CallFor, CacheOk, MoodOk, CacheBelow;
      var s1 := Begin(s0, call);
      InterveneKeeps(cfg, force, s1, call, op.cls, op.reply);
      MoodFrame(cfg, s0, Intervene(cfg, force, s1, call, op.cls, op.reply).0);
    }
  }

  lemma CacheOkFrame(cfg: Config, s: State, s': State)
    requires CacheOk(cfg, s) && s'.cache == s.cache && s'.occurrences == s.occurrences
    ensures CacheOk(cfg, s')
  {
  }

  lemma ReturnTreasureKeeps(cfg: Config, s: State, id: string)
    requires Sound(cfg, s)
    ensures Kept(cfg, s, GiveBack(cfg, Cancel(cfg, s, id), id, ManualReturn))
  {
    assert H.Distinct(s.house.treasures);
    GiveBackTimed(cfg, s, id, ManualReturn);
    hide Timed, GiveBack, LogFine, HouseOk;
    var s1 := Cancel(cfg, s, id);
    FineFrame(cfg, s, s1);
    GiveBackKeeps(cfg, s1, id, ManualReturn);
    GiveBackFrame(cfg, s1, id, ManualReturn);
  }

  lemma StepKeeps(cfg: Config, force: bool, s: State, op: Operation)
    requires Inv(cfg, s)
    ensures Inv(cfg, Step(cfg, force, s, op).0)
  {
    hide Core, Timed, CacheOk, MoodOk, ExecuteStep, BeginOperation, GiveBack, CancelAndLog;
    match op {
      case Execute(_, _, _, _) => ExecuteKeeps(cfg, force, s, op);
      case ExecuteMany(_) =>
        BeginKeeps(cfg, s);
        CacheOkFrame(cfg, s, BeginOperation(cfg, s));
      case ReturnTreasure(id) =>
        ReturnTreasureKeeps(cfg, s, id);
        CacheFrame(cfg, s, Step(cfg, force, s, op).0);
        MoodFrame(cfg, s, Step(cfg, force, s, op).0);
      case ReturnAll =>
        ReturnAllKeeps(cfg, force, s);
        CacheFrame(cfg, s, Step(cfg, force, s, op).0);
        MoodFrame(cfg, s, Step(cfg, force, s, op).0);
    }
  }

  /** The invariants hold after every run. */
  lemma {:induction false} Reachable(cfg: Config, force: bool, ops: seq<Operation>)
    ensures Inv(cfg, After(cfg, force, ops))
  {
    if ops == [] {
      InitOk(cfg);
    } else {
      hide Inv, Step;
      Reachable(cfg, force, ops[..|ops| - 1]);
      StepKeeps(cfg, force, After(cfg, force, ops[..|ops| - 1]), ops[|ops| - 1]);
    }
  }

  lemma InitOk(cfg: Config)
    ensures Inv(cfg, Init())
  {
    assert forall key :: SC.Of([], key) == [];
    NoIds();
    if cfg.mood.Some? {
      Draws.DivUnique(0, cfg.mood.value.epochLength, 0, 0);
    }
  }
}
