/** The fault engine over the objects of a session: each method moves them as the session's functions say. */
module FaultEngine {
  import opened Models
  import opened Decisions
  import opened Draws
  import opened Transforms
  import opened Faults
  import F = Faults
  import H = House
  import AR = AutoReturn
  import M = MoodEngine
  import SC = StaleCache
  import EL = EventLog
  import Session

  class FaultEngine {
    const cfg: Config
    const decisions: DecisionEngine
    const events: EL.EventLog
    const house: H.HouseLedger
    const mood: M.MoodEngine?
    const autoReturn: AR.AutoReturnScheduler?
    const staleCache: SC.StaleReadCache?

    /** The parts exist as configured and are in order, each on its own. */
    ghost predicate Valid()
      reads this, decisions, events, house, mood, autoReturn, staleCache
    {
      && decisions.session == cfg.session && decisions.includeParams == cfg.includeParams
      && events.Valid()
      && house.Valid() && house.capacity == cfg.houseLimit
      && (mood != null <==> cfg.mood.Some?)
      && (mood != null ==> mood.config == cfg.mood.value && mood.session == cfg.session)
      && (autoReturn != null <==> cfg.autoReturn.Some?)
      && (autoReturn != null ==>
            autoReturn.Valid() && autoReturn.config == cfg.autoReturn.value && autoReturn.session == cfg.session)
      && (staleCache != null <==> cfg.Caching())
      && (staleCache != null ==>
            && staleCache.Valid() && staleCache.maxInterventionRows == cfg.maxInterventionRows
            && staleCache.perFingerprint == Session.PER_FINGERPRINT && staleCache.totalLimit == Session.TOTAL_LIMIT)
    }

    function MoodState(): M.MoodState
      reads mood
    {
      if mood == null then M.MoodState(0, CALM) else M.MoodState(mood.tick, mood.mood)
    }

    /** The session state the objects stand for, at a tick of the logical clock. */
    ghost function View(tick: nat): State
      reads this, decisions, events, house, mood, autoReturn, staleCache
    {
      State(tick, decisions.occurrences, events.events, house.View(),
            if autoReturn == null then AR.Timetable(0, 0, []) else autoReturn.View(),
            MoodState(), if staleCache == null then [] else staleCache.entries)
    }

    constructor (cfg: Config)
      ensures Valid() && this.cfg == cfg && View(0) == Session.Init()
      ensures fresh(decisions) && fresh(events) && fresh(house)
      ensures (mood != null ==> fresh(mood)) && (autoReturn != null ==> fresh(autoReturn))
      ensures staleCache != null ==> fresh(staleCache)
    {
      this.cfg := cfg;
      decisions := new DecisionEngine(cfg.session, cfg.includeParams);
      events := new EL.EventLog();
      house := new H.HouseLedger(cfg.houseLimit);
      if cfg.mood.Some? {
        mood := new M.MoodEngine(cfg.mood.value, cfg.session);
      } else {
        mood := null;
      }
      if cfg.autoReturn.Some? {
        autoReturn := new AR.AutoReturnScheduler(cfg.autoReturn.value, cfg.session);
      } else {
        autoReturn := null;
      }
      if cfg.Caching() {
        staleCache := new SC.StaleReadCache(cfg.maxInterventionRows, Session.PER_FINGERPRINT, Session.TOTAL_LIMIT);
      } else {
        staleCache := null;
      }
    }

    // ----- Selection -----

    /** The first eligible fault of the priority list that fires. */
    method SelectCandidate(d: Decision, eligible: seq<Fault>, priority: seq<Fault>) returns (selected: Option<Fault>)
      requires Valid()
      ensures selected == Select(cfg, MoodState().mood, d.context.key, priority, eligible)
    {
      for i := 0 to |priority|
        invariant Select(cfg, MoodState().mood, d.context.key, priority, eligible) ==
                  Select(cfg, MoodState().mood, d.context.key, priority[i..], eligible)
      {
        hide Fires;
        if priority[i] in eligible && Fires(cfg, MoodState().mood, d.context.key, priority[i]) {
          return Some(priority[i]);
        }
        assert priority[i..][1..] == priority[i + 1..];
      }
      return None;
    }

    /** Whether any of the faults can fire in the present mood. */
    method HasEffectiveWeight(candidates: seq<Fault>) returns (any: bool)
      requires Valid()
      ensures any == F.HasEffectiveWeight(cfg, MoodState().mood, candidates)
    {
      hide EffectiveWeight;
      if !AnyProbability(cfg.policy) {
        return false;
      }
      for i := 0 to |candidates|
        invariant forall fault | fault in candidates[..i] :: EffectiveWeight(cfg, MoodState().mood, fault) <= 0.0
      {
        if EffectiveWeight(cfg, MoodState().mood, candidates[i]) > 0.0 {
          assert candidates[i] in candidates;
          return true;
        }
      }
      assert candidates[..|candidates|] == candidates;
      return false;
    }

    // ----- Events -----

    method RecordFault(ghost tick: nat, d: Decision, fault: Fault, outcome: Outcome, details: Details)
      returns (event: Event)
      requires Valid()
      modifies events
      ensures Valid() && View(tick) == LogFault(cfg, old(View(tick)), d, fault, outcome, details)
      ensures events.events != [] && event == events.events[|events.events| - 1]
    {
      var id := DeterministicId(cfg.session, d.context.key, EventId(events.NextSeq(), OfFault(fault)));
      hide DeterministicId;
      event := events.Append(id, FaultInjected, Some(fault), Some(d.phase), Some(d.context), Some(outcome), details);
    }

    method RecordLimit(ghost tick: nat, d: Decision, outcome: Outcome, details: Details) returns (event: Event)
      requires Valid()
      modifies events
      ensures Valid() && View(tick) == LogLimit(cfg, old(View(tick)), d, outcome, details)
      ensures events.events != [] && event == events.events[|events.events| - 1]
    {
      var id := DeterministicId(cfg.session, d.context.key, EventId(events.NextSeq(), LIMIT));
      hide DeterministicId;
      event := events.Append(id, LimitExceeded, None, Some(d.phase), Some(d.context), Some(outcome), details);
    }

    method RecordDecision(ghost tick: nat, d: Decision, candidates: seq<Fault>)
      requires Valid()
      modifies events
      ensures Valid() && View(tick) == LogDecision(cfg, old(View(tick)), d, candidates)
    {
      if !cfg.debug {
        return;
      }
      var id := DeterministicId(cfg.session, d.context.key, EventId(events.NextSeq(), DECISION));
      hide DeterministicId;
      var _ := events.Append(id, DecisionEvaluated, None, Some(d.phase), Some(d.context), Some(NotInjected),
                             CandidateDetails(candidates));
    }

    // ----- Before execution -----

    method BeforeExecute(ghost tick: nat, d: Decision, recordDebug: bool) returns (before: Before, eventId: string)
      requires Valid()
      modifies events
      ensures Valid() && (View(tick), before) == BeforeExecution(cfg, old(View(tick)), d, recordDebug)
      ensures before.Refused? ==> events.events != [] && eventId == LastEventId(View(tick))
    {
      hide Select, DeterministicId, Draw, LogFault, LogDecision;
      var selected := SelectCandidate(d, BEFORE_EXECUTE_PRIORITY, BEFORE_EXECUTE_PRIORITY);
      eventId := "";
      if selected == Some(SLOTH) {
        var delay := 1 + ModularIndex(Draw(cfg.session, d.context.key, Delay), cfg.policy.slothMaxDelayMs);
        var _ := RecordFault(tick, d, SLOTH, Delayed, DelayDetails(delay));
        before := Slowed;
      } else if selected.Some? {
        var event := RecordFault(tick, d, selected.value, NotExecuted, NoDetails);
        before, eventId := Refused(selected.value), event.eventId;
      } else {
        if recordDebug {
          RecordDecision(tick, d, BEFORE_EXECUTE_PRIORITY);
        }
        before := Proceed;
      }
    }

    // ----- Transformations -----

    method FalseEmpty(ghost tick: nat, d: Decision, result: LogicalResult) returns (delivered: LogicalResult)
      requires Valid() && result.rows != []
      modifies events
      ensures Valid() && Injects(cfg, old(View(tick)), View(tick), d, FALSE_EMPTY, result, None, [], delivered)
    {
      hide LogFault, Index, Draw;
      var _ := RecordFault(tick, d, FALSE_EMPTY, EmptyResult, NoDetails);
      return WithRows(result, []);
    }

    /** The event is logged before an error is raised; the caller of an error delivers no rows. */
    method TailChase(ghost tick: nat, d: Decision, result: LogicalResult) returns (delivery: Delivery)
      requires Valid() && result.rows != []
      modifies events
      ensures Valid() && Carries(cfg, old(View(tick)), View(tick), d, TAIL_CHASE, result, None, [], delivery)
    {
      hide LogFault, Index, Draw;
      var truncated := 1 + Index(cfg, d, Rows(TAIL_CHASE), |result.rows|);
      var kept := |result.rows| - truncated;
      var event := RecordFault(tick, d, TAIL_CHASE, if cfg.policy.tailChaseError then ReadPartial else RowsTruncated,
                               TailDetails(kept, truncated));
      if cfg.policy.tailChaseError {
        return Raised(Injected(TAIL_CHASE, event.eventId));
      }
      return Delivered(WithRows(result, result.rows[..kept]));
    }

    method PageHole(ghost tick: nat, d: Decision, result: LogicalResult) returns (delivered: LogicalResult)
      requires Valid() && result.rows != []
      modifies events
      ensures Valid() && Injects(cfg, old(View(tick)), View(tick), d, PAGE_HOLE, result, None, [], delivered)
    {
      hide LogFault, Index, Draw;
      var removed := 1 + Index(cfg, d, Rows(PAGE_HOLE), |result.rows|);
      var _ := RecordFault(tick, d, PAGE_HOLE, PageHoleCut, HoleDetails(removed));
      return WithRows(result, result.rows[removed..]);
    }

    method Echo(ghost tick: nat, d: Decision, result: LogicalResult) returns (delivered: LogicalResult)
      requires Valid() && result.rows != []
      modifies events
      ensures Valid() && Injects(cfg, old(View(tick)), View(tick), d, ECHO, result, None, [], delivered)
    {
      hide LogFault, Index, Draw;
      var row := Index(cfg, d, Rows(ECHO), |result.rows|);
      var rows := result.rows[..row + 1] + [result.rows[row]] + result.rows[row + 1..];
      var _ := RecordFault(tick, d, ECHO, RowsDuplicated, EchoDetails(row));
      return WithRows(result, rows);
    }

    method Shuffle(ghost tick: nat, d: Decision, result: LogicalResult) returns (delivered: LogicalResult)
      requires Valid() && |result.rows| > 1
      modifies events
      ensures Valid() && Injects(cfg, old(View(tick)), View(tick), d, SHUFFLE, result, None, [], delivered)
    {
      hide LogFault, Index, Draw, Reordered, Swaps;
      var rows := ShuffleRows(result.rows, ShuffleDraws(cfg, d, |result.rows|));
      var _ := RecordFault(tick, d, SHUFFLE, RowsReordered, NoDetails);
      return WithRows(result, rows);
    }

    method TangledLeash(ghost tick: nat, d: Decision, result: LogicalResult) returns (delivered: LogicalResult)
      requires Valid() && |result.columns| > 1
      modifies events
      ensures Valid() && Injects(cfg, old(View(tick)), View(tick), d, TANGLED_LEASH, result, None, [], delivered)
    {
      hide LogFault, Index, Draw;
      var left := Index(cfg, d, Columns, |result.columns| - 1);
      var columns := new string[|result.columns|](i requires 0 <= i < |result.columns| => result.columns[i]);
      assert columns[..] == result.columns;
      columns[left], columns[left + 1] := columns[left + 1], columns[left];
      assert columns[..] == Relabelled(result.columns, left);
      var _ := RecordFault(tick, d, TANGLED_LEASH, ColumnLabelsSwapped, LeashDetails(left, left + 1));
      return result.(columns := columns[..]);
    }

    /** One of the cells that some configured profile can corrupt. */
    method ChooseChew(d: Decision, result: LogicalResult) returns (chew: Option<Choice>)
      ensures chew == ChewChoice(cfg.policy.chewProfiles, result.rows, Draw(cfg.session, d.context.key, Profile),
                                 Draw(cfg.session, d.context.key, Purpose.Cell))
    {
      hide Draw;
      var eligible := FindEligible(cfg.policy.chewProfiles, result.rows);
      if eligible == [] {
        return None;
      }
      EligibleCorrupts(cfg.policy.chewProfiles, result.rows);
      hide EligibleProfiles, Corrupts;
      var e := eligible[ModularIndex(Draw(cfg.session, d.context.key, Profile), |eligible|)];
      assert e in eligible;
      return Some(Choice(e.profile, e.cells[ModularIndex(Draw(cfg.session, d.context.key, Purpose.Cell), |e.cells|)]));
    }

    method Chew(ghost tick: nat, d: Decision, result: LogicalResult, choice: Choice) returns (delivered: LogicalResult)
      requires Valid() && Corrupts(choice.profile, result.rows, choice.cell)
      modifies events
      ensures Valid() && Injects(cfg, old(View(tick)), View(tick), d, CHEW, result, Some(choice), [], delivered)
    {
      hide LogFault, Index, Draw, ChewValue;
      var cell := choice.cell;
      var row := result.rows[cell.row][cell.column := cell.mutated];
      var _ := RecordFault(tick, d, CHEW, ValueCorrupted, ChewDetails(cell.row, cell.column, choice.profile));
      return result.(rows := result.rows[cell.row := row]);
    }

    method WrongCount(ghost tick: nat, d: Decision, result: LogicalResult) returns (delivered: LogicalResult)
      requires Valid()
      modifies events
      ensures Valid() && Injects(cfg, old(View(tick)), View(tick), d, WRONG_COUNT, result, None, [], delivered)
    {
      hide LogFault, Index, Draw, BigEndian, Derive;
      var actual := |result.rows|;
      var derived := Derive(cfg.session, d.context.key, Count);
      var magnitude := BigEndian(derived[1..9]) % cfg.policy.wrongCountMaxDelta + 1;
      var delta := if actual == 0 || derived[0] % 2 == 0 then magnitude else -magnitude;
      var reported := if actual + delta > 0 then actual + delta else 0;
      var _ := RecordFault(tick, d, WRONG_COUNT, RowcountMisreported, CountDetails(actual, reported));
      return result.(rowcount := reported);
    }

    method OldBone(ghost tick: nat, d: Decision, result: LogicalResult, history: seq<StaleEntry>)
      returns (delivered: LogicalResult)
      requires Valid() && history != []
      modifies events
      ensures Valid() && Injects(cfg, old(View(tick)), View(tick), d, OLD_BONE, result, None, history, delivered)
    {
      hide LogFault, Index, Draw;
      var entry := history[Index(cfg, d, Stale, |history|)];
      var _ := RecordFault(tick, d, OLD_BONE, StaleRead, StaleDetails(entry.occurrence));
      return LogicalResult(entry.result.columns, entry.result.rows, entry.result.rowcount, entry.result.columnTypes);
    }

    // ----- STASH -----

    /** The row enters the house, its return is planned, and it is logged under the id computed first. */
    method Stash(ghost tick: nat, d: Decision, result: LogicalResult) returns (delivery: Delivery)
      requires Valid() && result.rows != []
      modifies events, house, autoReturn
      ensures Valid() && (View(tick), delivery) == F.Stash(cfg, old(View(tick)), d, result)
    {
      hide Index, DeterministicId, AR.HoldFor, H.Vacant, AR.Distinct, H.Distinct, H.Inverse, LogFault;
      ghost var s := View(tick);
      var row := Index(cfg, d, Rows(STASH), |result.rows|);
      var eventId := DeterministicId(cfg.session, d.context.key, EventId(events.NextSeq(), OfFault(STASH)));
      var treasureId := DeterministicId(cfg.session, d.context.key, TreasureId(row));
      var treasure := Treasure(treasureId, row, result.rows[row], eventId, d.context);
      assert treasure == NewTreasure(cfg, s, d, result);
      var added := house.Add(treasure);
      if !added {
        return Delivered(result);
      }
      if autoReturn != null {
        var _ := autoReturn.Schedule(treasure.treasureId, d.context.key);
      }
      assert View(tick) == Housed(cfg, s, treasure);
      var event := RecordFault(tick, d, STASH, if cfg.policy.stashError then ReadPartial else RowsHidden,
                               StashDetails([row], treasureId));
      if cfg.policy.stashError {
        return Raised(Injected(STASH, event.eventId));
      }
      return Delivered(WithRows(result, result.rows[..row] + result.rows[row + 1..]));
    }

    // ----- On a result -----

    /** Gathers the candidates in the order of the source, with the release already spent. */
    method GatherCandidates(released: bool, cls: Classification, result: LogicalResult, chew: bool, stale: bool)
      returns (candidates: seq<Fault>)
      ensures candidates == Candidates(cfg, released, cls, result, chew, stale)
    {
      candidates := [];
      if !released && result.rows != [] {
        candidates := candidates + [if cfg.policy.stashError then STASH_ERROR else STASH];
      }
      ghost var c0 := candidates;
      assert c0 == if !released && result.rows != [] then [if cfg.policy.stashError then STASH_ERROR else STASH] else [];
      if cls.hasOrderBy == Some(false) && |result.rows| > 1 {
        candidates := candidates + [SHUFFLE];
      }
      ghost var c1 := candidates;
      assert c1 == c0 + if cls.hasOrderBy == Some(false) && |result.rows| > 1 then [SHUFFLE] else [];
      if result.rows != [] {
        candidates := candidates + [FALSE_EMPTY, TAIL_CHASE, ECHO];
      }
      ghost var c2 := candidates;
      assert c2 == c1 + if result.rows != [] then [FALSE_EMPTY, TAIL_CHASE, ECHO] else [];
      if result.rows != [] && cls.limit.Some? && cls.offset.Some? && cls.offset.value > 0 {
        candidates := candidates + [PAGE_HOLE];
      }
      ghost var c3 := candidates;
      assert c3 == c2 + if result.rows != [] && cls.limit.Some? && cls.offset.Some? && cls.offset.value > 0
                        then [PAGE_HOLE] else [];
      if |result.columns| > 1 {
        candidates := candidates + [TANGLED_LEASH];
      }
      ghost var c4 := candidates;
      assert c4 == c3 + if |result.columns| > 1 then [TANGLED_LEASH] else [];
      if chew {
        candidates := candidates + [CHEW];
      }
      ghost var c5 := candidates;
      assert c5 == c4 + if chew then [CHEW] else [];
      candidates := candidates + [WRONG_COUNT];
      if stale {
        candidates := candidates + [OLD_BONE];
      }
      assert candidates == c5 + [WRONG_COUNT] + if stale then [OLD_BONE] else [];
    }

    /** Carries out a selected fault other than STASH. */
    method Carry(ghost tick: nat, d: Decision, fault: Fault, result: LogicalResult, chew: Option<Choice>,
                 history: seq<StaleEntry>) returns (delivery: Delivery)
      requires Valid() && Applicable(fault, result, chew, history) && fault != STASH && fault != STASH_ERROR
      modifies events
      ensures Valid() && Carries(cfg, old(View(tick)), View(tick), d, fault, result, chew, history, delivery)
    {
      hide LogFault, Index, Draw, Corrupts;
      if fault == TAIL_CHASE {
        delivery := TailChase(tick, d, result);
      } else {
        var delivered := result;
        match fault {
          case FALSE_EMPTY => delivered := FalseEmpty(tick, d, result);
          case PAGE_HOLE => delivered := PageHole(tick, d, result);
          case ECHO => delivered := Echo(tick, d, result);
          case SHUFFLE => delivered := Shuffle(tick, d, result);
          case TANGLED_LEASH => delivered := TangledLeash(tick, d, result);
          case CHEW => delivered := Chew(tick, d, result, chew.value);
          case WRONG_COUNT => delivered := WrongCount(tick, d, result);
          case OLD_BONE => delivered := OldBone(tick, d, result, history);
        }
        delivery := Delivered(delivered);
      }
    }

    /** What the treatment of a result is chosen from: a corruptible cell, the release just spent, the stale history. */
    method Prepare(ghost tick: nat, d: Decision, result: LogicalResult)
      returns (chew: Option<Choice>, released: bool, history: seq<StaleEntry>)
      requires Valid()
      modifies house
      ensures var s := old(View(tick));
              && Valid() && View(tick) == s.(house := H.Consumed(s.house, d.context.template))
              && chew == ChewFor(cfg, d, result) && released == (d.context.template in s.house.released)
              && history == History(cfg, s, d)
    {
      hide Corrupts, Draw, H.Distinct, H.Inverse, AR.Distinct;
      chew := None;
      if cfg.policy.Probability(CHEW) > 0.0 {
        chew := ChooseChew(d, result);
      }
      released := house.ConsumeRelease(d.context.template);
      history := [];
      if staleCache != null {
        history := staleCache.History(KeyFor(cfg, d));
      }
    }

    method Treat(ghost tick: nat, d: Decision, cls: Classification, result: LogicalResult) returns (delivery: Delivery)
      requires Valid()
      modifies events, house, autoReturn
      ensures Valid() && (View(tick), delivery) == Treated(cfg, old(View(tick)), d, cls, result)
    {
      hide Select, Candidates, Corrupts, F.Stash, Inject, LogFault, LogDecision, Draw, Treated, Carries, Applicable,
           H.Distinct, H.Inverse, AR.Distinct;
      hide ChewFor, History, Valid;
      ghost var s := View(tick);
      var chew, released, history := Prepare(tick, d, result);
      var candidates := GatherCandidates(released, cls, result, chew.Some?, history != []);
      var selected := SelectCandidate(d, candidates, ON_RESULT_PRIORITY);
      if selected == None {
        TreatedNone(cfg, s, d, cls, result);
        RecordDecision(tick, d, candidates);
        return Delivered(result);
      }
      CandidateApplies(cfg, released, cls, result, chew, history, selected.value);
      if selected.value == STASH || selected.value == STASH_ERROR {
        TreatedStash(cfg, s, d, cls, result);
        delivery := Stash(tick, d, result);
      } else {
        delivery := Carry(tick, d, selected.value, result, chew, history);
        TreatedCarries(cfg, s, d, cls, result, selected.value, View(tick), delivery);
      }
    }

    method OnResult(ghost tick: nat, d: Decision, cls: Classification, result: LogicalResult) returns (delivery: Delivery)
      requires Valid()
      modifies events, house, autoReturn
      ensures Valid() && (View(tick), delivery) == F.OnResult(cfg, old(View(tick)), d, cls, result)
    {
      hide Select, LogFault, LogLimit, Treated, H.ActiveFor, Visible;
      if cls.kind != SELECT {
        return Delivered(result);
      }
      if |result.rows| > cfg.maxInterventionRows {
        var error := cfg.policy.maxRowsError;
        var event := RecordLimit(tick, d, if error then LimitError else FaultSkipped,
                                 LimitDetails(MaxInterventionRows, cfg.maxInterventionRows, Some(|result.rows|)));
        return if error then Raised(TooManyRows(event.eventId)) else Delivered(result);
      }
      var dropped := SelectCandidate(d, [NO_DROP], ON_RESULT_PRIORITY);
      if dropped == Some(NO_DROP) {
        var event := RecordFault(tick, d, NO_DROP, ResponseLost, NoDetails);
        return Raised(Injected(NO_DROP, event.eventId));
      }
      var sticky := H.ActiveFor(house.treasures, d.context.template);
      if sticky != [] {
        return Delivered(WithRows(result, Visible(result.rows, HiddenRows(sticky), 0)));
      }
      delivery := Treat(tick, d, cls, result);
    }
  }

  /** One event for the fault is logged and the given result is delivered. */
  ghost predicate Injects(cfg: Config, s: State, s': State, d: Decision, fault: Fault, result: LogicalResult,
                          chew: Option<Choice>, history: seq<StaleEntry>, delivered: LogicalResult)
    requires Applicable(fault, result, chew, history) && fault != STASH && fault != STASH_ERROR
  {
    var injection := Inject(cfg, d, fault, result, chew, history);
    s' == LogFault(cfg, s, d, fault, injection.outcome, injection.details) && delivered == injection.result
  }

  /** An injected fault ends in a delivery, or in an error that names its event. */
  ghost predicate Carries(cfg: Config, s: State, s': State, d: Decision, fault: Fault, result: LogicalResult,
                          chew: Option<Choice>, history: seq<StaleEntry>, delivery: Delivery)
    requires Applicable(fault, result, chew, history) && fault != STASH && fault != STASH_ERROR
  {
    if fault == TAIL_CHASE && cfg.policy.tailChaseError then
      && Injects(cfg, s, s', d, fault, result, chew, history, Inject(cfg, d, fault, result, chew, history).result)
      && s'.log != [] && delivery == Raised(Injected(TAIL_CHASE, LastEventId(s')))
    else delivery.Delivered? && Injects(cfg, s, s', d, fault, result, chew, history, delivery.result)
  }

  function CandidatesAt(cfg: Config, s: State, d: Decision, cls: Classification, result: LogicalResult): seq<Fault> {
    Candidates(cfg, d.context.template in s.house.released, cls, result, ChewFor(cfg, d, result).Some?,
               History(cfg, s, d) != [])
  }

  function SelectedAt(cfg: Config, s: State, d: Decision, cls: Classification, result: LogicalResult): Option<Fault> {
    Select(cfg, s.mood.mood, d.context.key, ON_RESULT_PRIORITY, CandidatesAt(cfg, s, d, cls, result))
  }

  lemma TreatedNone(cfg: Config, s: State, d: Decision, cls: Classification, result: LogicalResult)
    requires SelectedAt(cfg, s, d, cls, result) == None
    ensures Treated(cfg, s, d, cls, result) ==
            (LogDecision(cfg, s.(house := H.Consumed(s.house, d.context.template)), d, CandidatesAt(cfg, s, d, cls, result)),
             Delivered(result))
  {
    hide Select, Candidates, ChewFor, History, LogDecision, F.Stash, Inject, Applicable;
  }

  lemma TreatedStash(cfg: Config, s: State, d: Decision, cls: Classification, result: LogicalResult)
    requires SelectedAt(cfg, s, d, cls, result) in {Some(STASH), Some(STASH_ERROR)} && result.rows != []
    ensures Treated(cfg, s, d, cls, result) ==
            F.Stash(cfg, s.(house := H.Consumed(s.house, d.context.template)), d, result)
  {
    hide Select, Candidates, ChewFor, History, LogDecision, F.Stash, Inject, Applicable;
  }

  lemma TreatedCarries(cfg: Config, s: State, d: Decision, cls: Classification, result: LogicalResult, fault: Fault,
                       s': State, delivery: Delivery)
    requires SelectedAt(cfg, s, d, cls, result) == Some(fault) && fault != STASH && fault != STASH_ERROR
    requires Applicable(fault, result, ChewFor(cfg, d, result), History(cfg, s, d))
    requires Carries(cfg, s.(house := H.Consumed(s.house, d.context.template)), s', d, fault, result,
                     ChewFor(cfg, d, result), History(cfg, s, d), delivery)
    ensures (s', delivery) == Treated(cfg, s, d, cls, result)
  {
    hide Select, Candidates, ChewFor, History, LogDecision, F.Stash, Inject, Applicable, NextEventId;
  }
}
