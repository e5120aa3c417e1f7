/** What debug mode changes: it logs decisions, and it never skips one. */
module DebugRuns {
  import opened Models
  import opened Decisions
  import opened Adapters
  import opened Faults
  import opened Session
  import opened Transforms
  import opened Invariants
  import opened StepInvariants
  import FP = FastPath
  import FE = FaultEngine
  import C = StashCycle
  import H = House
  import AR = AutoReturn
  import M = MoodEngine
  import SC = StaleCache
  import Draws

  function Loud(cfg: Config): Config { cfg.(debug := true) }

  // ----- What stays comparable -----

  /** The log without evaluated decisions and without what depends on an event's place: its number and its id. */
  function Fired(log: seq<Event>): seq<Event> {
    if log == [] then []
    else
      var e := log[|log| - 1];
      Fired(log[..|log| - 1]) + if e.eventType == DecisionEvaluated then [] else [e.(seqNo := 0, eventId := "")]
  }

  /** The treasures without the ids of their events. */
  function Plain(ts: seq<Treasure>): seq<Treasure> {
    if ts == [] then [] else [ts[0].(eventId := "")] + Plain(ts[1..])
  }

  function PlainAnswer(delivery: Delivery): Delivery {
    match delivery
    case Raised(Injected(fault, _)) => Raised(Injected(fault, ""))
    case Raised(TooManyRows(_)) => Raised(TooManyRows(""))
    case HandedBack(ts) => HandedBack(Plain(ts))
    case _ => delivery
  }

  /** Two states that agree in everything but event numbers and ids, and in all events but evaluated decisions. */
  predicate Alike(s: State, s': State) {
    && s'.tick == s.tick && s'.occurrences == s.occurrences && s'.schedule == s.schedule && s'.mood == s.mood
    && s'.cache == s.cache && s'.house.released == s.house.released
    && Plain(s'.house.treasures) == Plain(s.house.treasures) && Fired(s'.log) == Fired(s.log)
  }

  predicate BothAlike(x: (State, Delivery), y: (State, Delivery)) {
    Alike(x.0, y.0) && PlainAnswer(x.1) == PlainAnswer(y.1)
  }

  // ----- Logging -----

  lemma FiredAppend(log: seq<Event>, e: Event)
    ensures Fired(log + [e]) == Fired(log) + if e.eventType == DecisionEvaluated then [] else [e.(seqNo := 0, eventId := "")]
  {
    LogGrows(log, e);
  }

  lemma LoggedAlike(s: State, s': State, id: string, id': string, eventType: EventType, fault: Option<Fault>,
                    phase: Option<Phase>, context: Option<Context>, outcome: Option<Outcome>, details: Details)
    requires Alike(s, s')
    ensures Alike(Logged(s, id, eventType, fault, phase, context, outcome, details),
                  Logged(s', id', eventType, fault, phase, context, outcome, details))
  {
    hide Fired, Plain;
    FiredAppend(s.log, Event(|s.log| + 1, id, eventType, fault, phase, context, outcome, details));
    FiredAppend(s'.log, Event(|s'.log| + 1, id', eventType, fault, phase, context, outcome, details));
  }

  lemma FaultAlike(cfg: Config, s: State, s': State, d: Decision, fault: Fault, outcome: Outcome, details: Details)
    requires Alike(s, s')
    ensures Alike(LogFault(cfg, s, d, fault, outcome, details), LogFault(Loud(cfg), s', d, fault, outcome, details))
  {
    hide Alike, Logged, NextEventId;
    LoggedAlike(s, s', NextEventId(cfg, s, d.context.key, OfFault(fault)),
                NextEventId(Loud(cfg), s', d.context.key, OfFault(fault)),
                FaultInjected, Some(fault), Some(d.phase), Some(d.context), Some(outcome), details);
  }

  lemma LimitAlike(cfg: Config, s: State, s': State, d: Decision, outcome: Outcome, details: Details)
    requires Alike(s, s')
    ensures Alike(LogLimit(cfg, s, d, outcome, details), LogLimit(Loud(cfg), s', d, outcome, details))
  {
    hide Alike, Logged, NextEventId;
    LoggedAlike(s, s', NextEventId(cfg, s, d.context.key, LIMIT), NextEventId(Loud(cfg), s', d.context.key, LIMIT),
                LimitExceeded, None, Some(d.phase), Some(d.context), Some(outcome), details);
  }

  lemma DecisionAlike(cfg: Config, s: State, s': State, d: Decision, candidates: seq<Fault>)
    requires Alike(s, s')
    ensures Alike(LogDecision(cfg, s, d, candidates), LogDecision(Loud(cfg), s', d, candidates))
  {
    hide Fired, Plain, NextEventId;
    var details := CandidateDetails(candidates);
    FiredAppend(s.log, Event(|s.log| + 1, NextEventId(cfg, s, d.context.key, DECISION), DecisionEvaluated, None,
                             Some(d.phase), Some(d.context), Some(NotInjected), details));
    FiredAppend(s'.log, Event(|s'.log| + 1, NextEventId(Loud(cfg), s', d.context.key, DECISION), DecisionEvaluated, None,
                              Some(d.phase), Some(d.context), Some(NotInjected), details));
  }

  lemma ReturnAlike(cfg: Config, s: State, s': State, t: Treasure, t': Treasure, phase: Phase)
    requires Alike(s, s') && t'.(eventId := "") == t.(eventId := "")
    ensures Alike(LogReturn(cfg, s, t, phase), LogReturn(Loud(cfg), s', t', phase))
  {
    hide Alike, Logged, NextEventId;
    assert t'.context == t.context && t'.treasureId == t.treasureId by {
      assert t.(eventId := "").context == t'.(eventId := "").context;
      assert t.(eventId := "").treasureId == t'.(eventId := "").treasureId;
    }
    LoggedAlike(s, s', NextEventId(cfg, s, t.context.key, RETURN), NextEventId(Loud(cfg), s', t.context.key, RETURN),
                TreasureReturned, Some(STASH), Some(phase), Some(t.context), Some(GivenBack), ReturnDetails(t.treasureId));
  }

  // ----- The house -----

  lemma {:induction false} PlainFind(ts: seq<Treasure>, ts': seq<Treasure>, id: string)
    requires Plain(ts') == Plain(ts)
    ensures Plain(H.Without(ts', id)) == Plain(H.Without(ts, id))
    ensures var found, found' := H.Find(ts, id), H.Find(ts', id);
            found.Some? == found'.Some? && (found.Some? ==> found'.value.(eventId := "") == found.value.(eventId := ""))
  {
    PlainStep(ts, ts');
    if ts != [] {
      PlainFind(ts[1..], ts'[1..], id);
      assert ([ts[0]] + H.Without(ts[1..], id))[1..] == H.Without(ts[1..], id);
      assert ([ts'[0]] + H.Without(ts'[1..], id))[1..] == H.Without(ts'[1..], id);
    }
  }

  lemma PlainStep(ts: seq<Treasure>, ts': seq<Treasure>)
    requires Plain(ts') == Plain(ts)
    ensures ts == [] <==> ts' == []
    ensures ts != [] ==> Plain(ts'[1..]) == Plain(ts[1..]) && ts'[0].(eventId := "") == ts[0].(eventId := "")
    ensures ts != [] ==> ts'[0].treasureId == ts[0].treasureId && ts'[0].rowIndex == ts[0].rowIndex
                         && ts'[0].row == ts[0].row && ts'[0].context == ts[0].context
  {
    assert Plain(ts) != [] ==> Plain(ts)[1..] == Plain(ts[1..]);
    assert Plain(ts') != [] ==> Plain(ts')[1..] == Plain(ts'[1..]);
    if ts != [] {
      var t, t' := ts[0].(eventId := ""), ts'[0].(eventId := "");
      assert Plain(ts)[0] == t && Plain(ts')[0] == t';
      assert t.treasureId == ts[0].treasureId && t'.treasureId == ts'[0].treasureId;
      assert t.rowIndex == ts[0].rowIndex && t'.rowIndex == ts'[0].rowIndex;
    }
  }

  lemma {:induction false} PlainActive(ts: seq<Treasure>, ts': seq<Treasure>, template: string)
    requires Plain(ts') == Plain(ts)
    ensures Plain(H.ActiveFor(ts', template)) == Plain(H.ActiveFor(ts, template))
  {
    PlainStep(ts, ts');
    if ts != [] {
      PlainActive(ts[1..], ts'[1..], template);
      assert ([ts[0]] + H.ActiveFor(ts[1..], template))[1..] == H.ActiveFor(ts[1..], template);
      assert ([ts'[0]] + H.ActiveFor(ts'[1..], template))[1..] == H.ActiveFor(ts'[1..], template);
    }
  }

  lemma {:induction false} PlainFacts(ts: seq<Treasure>, ts': seq<Treasure>)
    requires Plain(ts') == Plain(ts)
    ensures |ts'| == |ts| && HiddenRows(ts') == HiddenRows(ts) && H.Templates(ts') == H.Templates(ts)
  {
    PlainStep(ts, ts');
    if ts != [] {
      PlainFacts(ts[1..], ts'[1..]);
      assert ts == [ts[0]] + ts[1..] && ts' == [ts'[0]] + ts'[1..];
      assert HiddenRows(ts) == {ts[0].rowIndex} + HiddenRows(ts[1..]);
      assert HiddenRows(ts') == {ts'[0].rowIndex} + HiddenRows(ts'[1..]);
      assert H.Templates(ts) == {ts[0].context.template} + H.Templates(ts[1..]);
      assert H.Templates(ts') == {ts'[0].context.template} + H.Templates(ts'[1..]);
    }
  }

  lemma {:induction false} PlainVacant(ts: seq<Treasure>, ts': seq<Treasure>, t: Treasure, t': Treasure)
    requires Plain(ts') == Plain(ts) && t'.treasureId == t.treasureId && H.LocationOf(t') == H.LocationOf(t)
    ensures H.Vacant(ts', t') == H.Vacant(ts, t)
  {
    PlainStep(ts, ts');
    if ts != [] {
      PlainVacant(ts[1..], ts'[1..], t, t');
      assert ts == [ts[0]] + ts[1..] && ts' == [ts'[0]] + ts'[1..];
    }
  }

  lemma {:induction false} PlainAppend(ts: seq<Treasure>, t: Treasure)
    ensures Plain(ts + [t]) == Plain(ts) + [t.(eventId := "")]
  {
    if ts == [] {
      assert [] + [t] == [t] && Plain([t]) == [t.(eventId := "")];
    } else {
      assert (ts + [t])[1..] == ts[1..] + [t];
      PlainAppend(ts[1..], t);
    }
  }

  // ----- Returning -----

  lemma GiveBackAlike(cfg: Config, s: State, s': State, id: string, phase: Phase)
    requires Alike(s, s')
    ensures Alike(GiveBack(cfg, s, id, phase), GiveBack(Loud(cfg), s', id, phase))
  {
    hide LogReturn, Fired, Plain;
    PlainFind(s.house.treasures, s'.house.treasures, id);
    var found, found' := H.Find(s.house.treasures, id), H.Find(s'.house.treasures, id);
    if found.Some? {
      assert found'.value.context == found.value.context by {
        assert found.value.(eventId := "").context == found'.value.(eventId := "").context;
      }
      ReturnAlike(cfg, s.(house := H.Returned(s.house, id)), s'.(house := H.Returned(s'.house, id)), found.value,
                  found'.value, phase);
    }
  }

  lemma {:induction false} GiveBackAllAlike(cfg: Config, s: State, s': State, ids: seq<string>, phase: Phase)
    requires Alike(s, s')
    ensures Alike(GiveBackAll(cfg, s, ids, phase), GiveBackAll(Loud(cfg), s', ids, phase))
  {
    hide Alike, GiveBack;
    if ids != [] {
      var front := ids[..|ids| - 1];
      GiveBackAllAlike(cfg, s, s', front, phase);
      GiveBackAlike(cfg, GiveBackAll(cfg, s, front, phase), GiveBackAll(Loud(cfg), s', front, phase), ids[|ids| - 1], phase);
    }
  }

  lemma CancelAlike(cfg: Config, s: State, s': State, id: string)
    requires Alike(s, s')
    ensures Alike(Cancel(cfg, s, id), Cancel(Loud(cfg), s', id))
  {
    hide Fired, Plain, AR.Cancelled;
  }

  lemma {:induction false} CancelAndLogAlike(cfg: Config, s: State, s': State, ts: seq<Treasure>, ts': seq<Treasure>, k: nat)
    requires Alike(s, s') && |ts'| == |ts| && k <= |ts|
    requires forall i | 0 <= i < |ts| :: ts'[i].(eventId := "") == ts[i].(eventId := "")
    ensures Alike(CancelAndLog(cfg, s, ts[..k]), CancelAndLog(Loud(cfg), s', ts'[..k]))
  {
    hide Alike, LogReturn, Cancel, CancelAndLog;
    if k == 0 {
      CancelAndLogNone(cfg, s, ts);
      CancelAndLogNone(Loud(cfg), s', ts');
    } else {
      CancelAndLogAlike(cfg, s, s', ts, ts', k - 1);
      CancelAndLogStep(cfg, s, ts, k);
      CancelAndLogStep(Loud(cfg), s', ts', k);
      var s1, s1' := CancelAndLog(cfg, s, ts[..k - 1]), CancelAndLog(Loud(cfg), s', ts'[..k - 1]);
      var t, t' := ts[k - 1], ts'[k - 1];
      assert t'.treasureId == t.treasureId by {
        assert t.(eventId := "").treasureId == t'.(eventId := "").treasureId;
      }
      CancelAlike(cfg, s1, s1', t.treasureId);
      ReturnAlike(cfg, Cancel(cfg, s1, t.treasureId), Cancel(Loud(cfg), s1', t.treasureId), t, t', ManualReturn);
    }
  }

  lemma {:induction false} PlainPointwise(ts: seq<Treasure>, ts': seq<Treasure>)
    requires Plain(ts') == Plain(ts)
    ensures |ts'| == |ts| && forall i | 0 <= i < |ts| :: ts'[i].(eventId := "") == ts[i].(eventId := "")
  {
    PlainStep(ts, ts');
    if ts != [] {
      PlainPointwise(ts[1..], ts'[1..]);
      forall i | 0 <= i < |ts| ensures ts'[i].(eventId := "") == ts[i].(eventId := "") {
        if i > 0 {
          assert ts[i] == ts[1..][i - 1] && ts'[i] == ts'[1..][i - 1];
        }
      }
    }
  }

  lemma ReturnAllAlike(cfg: Config, s: State, s': State)
    requires Alike(s, s')
    ensures BothAlike(Step(cfg, true, s, ReturnAll), Step(Loud(cfg), false, s', ReturnAll))
  {
    hide CancelAndLog, Fired, Plain;
    var ts, ts' := s.house.treasures, s'.house.treasures;
    PlainPointwise(ts, ts');
    PlainFacts(ts, ts');
    CancelAndLogAlike(cfg, s.(house := H.AllReturned(s.house)), s'.(house := H.AllReturned(s'.house)), ts, ts', |ts|);
    assert ts[..|ts|] == ts && ts'[..|ts|] == ts';
  }

  lemma ReturnTreasureAlike(cfg: Config, s: State, s': State, id: string)
    requires Alike(s, s')
    ensures BothAlike(Step(cfg, true, s, ReturnTreasure(id)), Step(Loud(cfg), false, s', ReturnTreasure(id)))
  {
    hide Alike, GiveBack, Cancel, H.Find, Plain;
    FoundAlike(s, s', id);
    CancelAlike(cfg, s, s', id);
    GiveBackAlike(cfg, Cancel(cfg, s, id), Cancel(Loud(cfg), s', id), id, ManualReturn);
  }

  lemma FoundAlike(s: State, s': State, id: string)
    requires Alike(s, s')
    ensures var found, found' := H.Find(s.house.treasures, id), H.Find(s'.house.treasures, id);
            Plain(if found'.Some? then [found'.value] else []) == Plain(if found.Some? then [found.value] else [])
  {
    hide Fired;
    PlainFind(s.house.treasures, s'.house.treasures, id);
    var found, found' := H.Find(s.house.treasures, id), H.Find(s'.house.treasures, id);
    if found.Some? {
      PlainAppend([], found.value);
      PlainAppend([], found'.value);
      assert [] + [found.value] == [found.value] && [] + [found'.value] == [found'.value];
    }
  }

  // ----- The clock -----

  lemma ReturnDueAlike(cfg: Config, s: State, s': State)
    requires Alike(s, s')
    ensures Alike(ReturnDue(cfg, s), ReturnDue(Loud(cfg), s'))
  {
    hide Fired, Plain, GiveBackAll, AR.Due, AR.Advanced;
    if cfg.autoReturn.Some? {
      GiveBackAllAlike(cfg, s.(schedule := AR.Advanced(s.schedule, s.tick)), s'.(schedule := AR.Advanced(s'.schedule, s'.tick)),
                       AR.Due(s.schedule, s.tick), AutoReturn);
    }
  }

  lemma MoodAlike(cfg: Config, s: State, s': State)
    requires Alike(s, s')
    ensures Alike(AdvanceMood(cfg, s), AdvanceMood(Loud(cfg), s'))
  {
    hide Fired, Plain, M.Advanced, M.Transition, NextEventId, Logged;
    if cfg.mood.Some? {
      var s1, s1' := s.(mood := M.Advanced(cfg.mood.value, cfg.session, s.mood)),
                     s'.(mood := M.Advanced(cfg.mood.value, cfg.session, s'.mood));
      match M.Transition(cfg.mood.value, cfg.session, s.mood) {
        case None =>
        case Some(t) =>
          LoggedAlike(s1, s1', NextEventId(cfg, s1, t.derivationKey, MOOD), NextEventId(Loud(cfg), s1', t.derivationKey, MOOD),
                      MoodChanged, None, None, None, None, MoodDetails(t.previous, t.current, t.tick));
      }
    }
  }

  lemma BeginAlike(cfg: Config, s: State, s': State)
    requires Alike(s, s')
    ensures Alike(BeginOperation(cfg, s), BeginOperation(Loud(cfg), s'))
  {
    hide Fired, Plain, ReturnDue, AdvanceMood;
    if cfg.Clocked() {
      ReturnDueAlike(cfg, s.(tick := s.tick + 1), s'.(tick := s'.tick + 1));
      MoodAlike(cfg, ReturnDue(cfg, s.(tick := s.tick + 1)), ReturnDue(Loud(cfg), s'.(tick := s'.tick + 1)));
    }
  }

  // ----- The same choices -----

  lemma SameWeight(cfg: Config, mood: Mood, fault: Fault)
    ensures EffectiveWeight(Loud(cfg), mood, fault) == EffectiveWeight(cfg, mood, fault)
  {
    hide M.Multiplier;
  }

  lemma SameFires(cfg: Config, mood: Mood, key: string, fault: Fault)
    ensures Fires(Loud(cfg), mood, key, fault) == Fires(cfg, mood, key, fault)
  {
    hide Draw, EffectiveWeight;
    SameWeight(cfg, mood, fault);
  }

  lemma {:induction false} SameSelect(cfg: Config, mood: Mood, key: string, priority: seq<Fault>, eligible: seq<Fault>)
    ensures Select(Loud(cfg), mood, key, priority, eligible) == Select(cfg, mood, key, priority, eligible)
  {
    hide Fires;
    if priority != [] {
      SameFires(cfg, mood, key, priority[0]);
      SameSelect(cfg, mood, key, priority[1..], eligible);
    }
  }

  lemma SameDecision(cfg: Config, call: Call, phase: Phase)
    ensures DecisionFor(Loud(cfg), call, phase) == DecisionFor(cfg, call, phase)
    ensures KeyFor(Loud(cfg), DecisionFor(cfg, call, phase)) == KeyFor(cfg, DecisionFor(cfg, call, phase))
  {
    hide Decide;
  }

  lemma SameInputs(cfg: Config, s: State, s': State, d: Decision, released: bool, cls: Classification,
                   result: LogicalResult, chew: bool, stale: bool)
    requires s'.cache == s.cache
    ensures ChewFor(Loud(cfg), d, result) == ChewFor(cfg, d, result) && History(Loud(cfg), s', d) == History(cfg, s, d)
    ensures Candidates(Loud(cfg), released, cls, result, chew, stale) == Candidates(cfg, released, cls, result, chew, stale)
  {
    hide Draw, ChewChoice;
  }

  lemma SameInjection(cfg: Config, d: Decision, fault: Fault, result: LogicalResult, chew: Option<Choice>,
                      history: seq<StaleEntry>)
    requires Applicable(fault, result, chew, history) && fault != STASH && fault != STASH_ERROR
    ensures Inject(Loud(cfg), d, fault, result, chew, history) == Inject(cfg, d, fault, result, chew, history)
  {
    hide Draw, Derive, BigEndian, Reordered, Swaps, Corrupts, Misreported;
    assert ShuffleDraws(Loud(cfg), d, |result.rows|) == ShuffleDraws(cfg, d, |result.rows|);
  }

  // ----- The phases of a statement -----

  lemma BeforeNone(cfg: Config, s: State, d: Decision, recordDebug: bool)
    requires BeforeFault(cfg, s, d) == None
    ensures BeforeExecution(cfg, s, d, recordDebug) ==
            (if recordDebug then LogDecision(cfg, s, d, BEFORE_EXECUTE_PRIORITY) else s, Proceed)
  {
    hide BeforeFault, LogDecision;
  }

  lemma BeforeSome(cfg: Config, s: State, d: Decision, recordDebug: bool, fault: Fault)
    requires BeforeFault(cfg, s, d) == Some(fault)
    ensures BeforeExecution(cfg, s, d, recordDebug) ==
            if fault == SLOTH then
              (LogFault(cfg, s, d, SLOTH, Delayed,
                        DelayDetails(1 + Draws.ModularIndex(Draw(cfg.session, d.context.key, Delay), cfg.policy.slothMaxDelayMs))),
               Slowed)
            else (LogFault(cfg, s, d, fault, NotExecuted, NoDetails), Refused(fault))
  {
    hide BeforeFault, LogFault, Draw;
  }

  lemma BeforeAlike(cfg: Config, s: State, s': State, d: Decision, recordDebug: bool)
    requires Alike(s, s')
    ensures var x, y := BeforeExecution(cfg, s, d, recordDebug), BeforeExecution(Loud(cfg), s', d, recordDebug);
            Alike(x.0, y.0) && y.1 == x.1
  {
    hide Alike, LogFault, LogDecision, BeforeFault, BeforeExecution, Draw;
    SameMood(s, s');
    SameBeforeFault(cfg, s, s', d);
    match BeforeFault(cfg, s, d) {
      case Some(fault) => BeforeFaultAlike(cfg, s, s', d, recordDebug, fault);
      case None =>
        BeforeNone(cfg, s, d, recordDebug);
        BeforeNone(Loud(cfg), s', d, recordDebug);
        DecisionAlike(cfg, s, s', d, BEFORE_EXECUTE_PRIORITY);
    }
  }

  lemma SameBeforeFault(cfg: Config, s: State, s': State, d: Decision)
    requires s'.mood == s.mood
    ensures BeforeFault(Loud(cfg), s', d) == BeforeFault(cfg, s, d)
  {
    hide Select;
    SameSelect(cfg, s.mood.mood, d.context.key, BEFORE_EXECUTE_PRIORITY, BEFORE_EXECUTE_PRIORITY);
  }

  lemma BeforeFaultAlike(cfg: Config, s: State, s': State, d: Decision, recordDebug: bool, fault: Fault)
    requires Alike(s, s') && BeforeFault(cfg, s, d) == Some(fault) && BeforeFault(Loud(cfg), s', d) == Some(fault)
    ensures var x, y := BeforeExecution(cfg, s, d, recordDebug), BeforeExecution(Loud(cfg), s', d, recordDebug);
            Alike(x.0, y.0) && y.1 == x.1
  {
    hide Alike, LogFault, BeforeFault, BeforeExecution, Draw;
    BeforeSome(cfg, s, d, recordDebug, fault);
    BeforeSome(Loud(cfg), s', d, recordDebug, fault);
    if fault == SLOTH {
      var delay := 1 + Draws.ModularIndex(Draw(cfg.session, d.context.key, Delay), cfg.policy.slothMaxDelayMs);
      FaultAlike(cfg, s, s', d, SLOTH, Delayed, DelayDetails(delay));
    } else {
      FaultAlike(cfg, s, s', d, fault, NotExecuted, NoDetails);
    }
  }

  lemma SameMood(s: State, s': State)
    requires Alike(s, s')
    ensures s'.mood == s.mood && s'.cache == s.cache && s'.house.released == s.house.released
    ensures s'.occurrences == s.occurrences && s'.tick == s.tick
  {
    hide Fired, Plain;
  }

  lemma HousedAlike(cfg: Config, s: State, s': State, t: Treasure, t': Treasure)
    requires Alike(s, s') && t'.(eventId := "") == t.(eventId := "") && t'.treasureId == t.treasureId
    requires t'.context == t.context
    ensures Alike(Housed(cfg, s, t), Housed(Loud(cfg), s', t'))
  {
    hide Fired, Plain, AR.Planned, AR.HoldFor;
    PlainAppend(s.house.treasures, t);
    PlainAppend(s'.house.treasures, t');
  }

  lemma StashAlike(cfg: Config, s: State, s': State, d: Decision, result: LogicalResult)
    requires Alike(s, s') && result.rows != []
    ensures BothAlike(Stash(cfg, s, d, result), Stash(Loud(cfg), s', d, result))
  {
    hide Alike, LogFault, Housed, H.Admits, Index, DeterministicId, NextEventId, Plain;
    var t, t' := NewTreasure(cfg, s, d, result), NewTreasure(Loud(cfg), s', d, result);
    SameIndex(cfg, d, Rows(STASH), |result.rows|);
    SameAdmission(s, s', t, t', cfg.houseLimit);
    if H.Admits(s.house, t, cfg.houseLimit) {
      HousedAlike(cfg, s, s', t, t');
      FaultAlike(cfg, Housed(cfg, s, t), Housed(Loud(cfg), s', t'), d, STASH,
                 if cfg.policy.stashError then ReadPartial else RowsHidden, StashDetails([t.rowIndex], t.treasureId));
      LogsOne(cfg, Housed(cfg, s, t), d, STASH, if cfg.policy.stashError then ReadPartial else RowsHidden,
              StashDetails([t.rowIndex], t.treasureId));
      LogsOne(Loud(cfg), Housed(Loud(cfg), s', t'), d, STASH, if cfg.policy.stashError then ReadPartial else RowsHidden,
              StashDetails([t.rowIndex], t.treasureId));
    }
  }

  lemma SameIndex(cfg: Config, d: Decision, p: Purpose, size: nat)
    requires size > 0
    ensures Index(Loud(cfg), d, p, size) == Index(cfg, d, p, size)
  {
    hide Draw;
  }

  lemma SameAdmission(s: State, s': State, t: Treasure, t': Treasure, capacity: nat)
    requires Alike(s, s') && t'.treasureId == t.treasureId && H.LocationOf(t') == H.LocationOf(t)
    ensures H.Admits(s'.house, t', capacity) == H.Admits(s.house, t, capacity)
  {
    hide Fired, Plain, H.Vacant;
    PlainVacant(s.house.treasures, s'.house.treasures, t, t');
    PlainFacts(s.house.treasures, s'.house.treasures);
  }

  lemma LogsOne(cfg: Config, s: State, d: Decision, fault: Fault, outcome: Outcome, details: Details)
    ensures LogFault(cfg, s, d, fault, outcome, details).log != []
  {
    hide NextEventId;
  }

  lemma ConsumedAlike(s: State, s': State, template: string)
    requires Alike(s, s')
    ensures Alike(s.(house := H.Consumed(s.house, template)), s'.(house := H.Consumed(s'.house, template)))
  {
    hide Fired, Plain;
  }

  lemma TreatedInjects(cfg: Config, s: State, d: Decision, cls: Classification, result: LogicalResult, fault: Fault,
                       chew: Option<Choice>, history: seq<StaleEntry>)
    requires FE.SelectedAt(cfg, s, d, cls, result) == Some(fault) && fault != STASH && fault != STASH_ERROR
    requires chew == ChewFor(cfg, d, result) && history == History(cfg, s, d) && Applicable(fault, result, chew, history)
    ensures var injection := Inject(cfg, d, fault, result, chew, history);
            var s2 := LogFault(cfg, s.(house := H.Consumed(s.house, d.context.template)), d, fault, injection.outcome,
                               injection.details);
            && s2.log != []
            && Treated(cfg, s, d, cls, result) ==
               (s2, if fault == TAIL_CHASE && cfg.policy.tailChaseError then Raised(Injected(TAIL_CHASE, LastEventId(s2)))
                    else Delivered(injection.result))
  {
    hide Select, Candidates, ChewFor, History, LogDecision, Stash, Inject, Applicable, NextEventId;
  }

  lemma SameSelected(cfg: Config, s: State, s': State, d: Decision, cls: Classification, result: LogicalResult)
    requires Alike(s, s')
    ensures FE.CandidatesAt(Loud(cfg), s', d, cls, result) == FE.CandidatesAt(cfg, s, d, cls, result)
    ensures FE.SelectedAt(Loud(cfg), s', d, cls, result) == FE.SelectedAt(cfg, s, d, cls, result)
    ensures ChewFor(Loud(cfg), d, result) == ChewFor(cfg, d, result) && History(Loud(cfg), s', d) == History(cfg, s, d)
  {
    SameMood(s, s');
    hide Alike, Select, ChewFor, History, Candidates;
    var released := d.context.template in s.house.released;
    var chew, history := ChewFor(cfg, d, result), History(cfg, s, d);
    SameInputs(cfg, s, s', d, released, cls, result, chew.Some?, history != []);
    SameSelect(cfg, s.mood.mood, d.context.key, ON_RESULT_PRIORITY, FE.CandidatesAt(cfg, s, d, cls, result));
  }

  lemma SelectedApplies(cfg: Config, s: State, d: Decision, cls: Classification, result: LogicalResult, fault: Fault)
    requires FE.SelectedAt(cfg, s, d, cls, result) == Some(fault)
    ensures Applicable(fault, result, ChewFor(cfg, d, result), History(cfg, s, d))
    ensures fault == STASH || fault == STASH_ERROR ==> result.rows != []
  {
    hide Select, Candidates, ChewFor, History, Applicable, Corrupts;
    CandidateApplies(cfg, d.context.template in s.house.released, cls, result, ChewFor(cfg, d, result),
                     History(cfg, s, d), fault);
  }

  lemma TreatedAlike(cfg: Config, s: State, s': State, d: Decision, cls: Classification, result: LogicalResult)
    requires Alike(s, s')
    ensures BothAlike(Treated(cfg, s, d, cls, result), Treated(Loud(cfg), s', d, cls, result))
  {
    hide Alike, Treated, LogDecision, Stash, ChewFor, History, Applicable, Plain, FE.SelectedAt, FE.CandidatesAt;
    SameSelected(cfg, s, s', d, cls, result);
    ConsumedAlike(s, s', d.context.template);
    var s1, s1' := s.(house := H.Consumed(s.house, d.context.template)), s'.(house := H.Consumed(s'.house, d.context.template));
    match FE.SelectedAt(cfg, s, d, cls, result) {
      case None =>
        FE.TreatedNone(cfg, s, d, cls, result);
        FE.TreatedNone(Loud(cfg), s', d, cls, result);
        DecisionAlike(cfg, s1, s1', d, FE.CandidatesAt(cfg, s, d, cls, result));
      case Some(fault) =>
        SelectedApplies(cfg, s, d, cls, result, fault);
        if fault == STASH || fault == STASH_ERROR {
          FE.TreatedStash(cfg, s, d, cls, result);
          FE.TreatedStash(Loud(cfg), s', d, cls, result);
          StashAlike(cfg, s1, s1', d, result);
        } else {
          InjectedAlike(cfg, s, s', d, cls, result, fault);
        }
    }
  }

  lemma InjectedAlike(cfg: Config, s: State, s': State, d: Decision, cls: Classification, result: LogicalResult,
                      fault: Fault)
    requires Alike(s, s') && FE.SelectedAt(cfg, s, d, cls, result) == Some(fault) && fault != STASH && fault != STASH_ERROR
    requires Applicable(fault, result, ChewFor(cfg, d, result), History(cfg, s, d))
    ensures BothAlike(Treated(cfg, s, d, cls, result), Treated(Loud(cfg), s', d, cls, result))
  {
    hide Alike, Treated, LogFault, Inject, ChewFor, History, Applicable, Plain, FE.SelectedAt, FE.CandidatesAt;
    SameSelected(cfg, s, s', d, cls, result);
    ConsumedAlike(s, s', d.context.template);
    var chew, history := ChewFor(cfg, d, result), History(cfg, s, d);
    TreatedInjects(cfg, s, d, cls, result, fault, chew, history);
    TreatedInjects(Loud(cfg), s', d, cls, result, fault, chew, history);
    SameInjection(cfg, d, fault, result, chew, history);
    var injection := Inject(cfg, d, fault, result, chew, history);
    FaultAlike(cfg, s.(house := H.Consumed(s.house, d.context.template)),
               s'.(house := H.Consumed(s'.house, d.context.template)), d, fault, injection.outcome, injection.details);
  }

  lemma StickyAlike(s: State, s': State, template: string)
    requires Alike(s, s')
    ensures var sticky, sticky' := H.ActiveFor(s.house.treasures, template), H.ActiveFor(s'.house.treasures, template);
            (sticky == [] <==> sticky' == []) && HiddenRows(sticky') == HiddenRows(sticky)
  {
    PlainActive(s.house.treasures, s'.house.treasures, template);
    PlainFacts(H.ActiveFor(s.house.treasures, template), H.ActiveFor(s'.house.treasures, template));
  }

  lemma LargeAlike(cfg: Config, s: State, s': State, d: Decision, cls: Classification, result: LogicalResult)
    requires Alike(s, s') && cls.kind == SELECT && |result.rows| > cfg.maxInterventionRows
    ensures BothAlike(Faults.OnResult(cfg, s, d, cls, result), Faults.OnResult(Loud(cfg), s', d, cls, result))
  {
    hide Alike, LogLimit, Treated, H.ActiveFor, HiddenRows, Plain, Drops;
    LimitAlike(cfg, s, s', d, if cfg.policy.maxRowsError then LimitError else FaultSkipped,
               LimitDetails(MaxInterventionRows, cfg.maxInterventionRows, Some(|result.rows|)));
  }

  lemma DroppedAlike(cfg: Config, s: State, s': State, d: Decision, cls: Classification, result: LogicalResult)
    requires Alike(s, s') && cls.kind == SELECT && |result.rows| <= cfg.maxInterventionRows
    requires Drops(cfg, s, d) && Drops(Loud(cfg), s', d)
    ensures BothAlike(Faults.OnResult(cfg, s, d, cls, result), Faults.OnResult(Loud(cfg), s', d, cls, result))
  {
    hide Alike, LogFault, Treated, H.ActiveFor, HiddenRows, Plain, Drops;
    FaultAlike(cfg, s, s', d, NO_DROP, ResponseLost, NoDetails);
  }

  lemma ReachingAlike(cfg: Config, s: State, s': State, d: Decision, cls: Classification, result: LogicalResult)
    requires Alike(s, s') && cls.kind == SELECT && |result.rows| <= cfg.maxInterventionRows
    requires !Drops(cfg, s, d) && !Drops(Loud(cfg), s', d)
    ensures BothAlike(Faults.OnResult(cfg, s, d, cls, result), Faults.OnResult(Loud(cfg), s', d, cls, result))
  {
    StickyAlike(s, s', d.context.template);
    hide Alike, LogFault, Treated, H.ActiveFor, HiddenRows, Plain, Drops;
    if H.ActiveFor(s.house.treasures, d.context.template) == [] {
      TreatedAlike(cfg, s, s', d, cls, result);
    }
  }

  lemma OnResultAlike(cfg: Config, s: State, s': State, d: Decision, cls: Classification, result: LogicalResult)
    requires Alike(s, s')
    ensures BothAlike(Faults.OnResult(cfg, s, d, cls, result), Faults.OnResult(Loud(cfg), s', d, cls, result))
  {
    SameMood(s, s');
    SameSelect(cfg, s.mood.mood, d.context.key, ON_RESULT_PRIORITY, [NO_DROP]);
    assert Drops(Loud(cfg), s', d) == Drops(cfg, s, d) by {
      hide Alike, Select;
    }
    hide Alike, Drops;
    if cls.kind != SELECT {
      hide Treated, H.ActiveFor, HiddenRows, Plain, LogFault, LogLimit;
    } else {
      hide Faults.OnResult;
      if |result.rows| > cfg.maxInterventionRows {
        LargeAlike(cfg, s, s', d, cls, result);
      } else if Drops(cfg, s, d) {
        DroppedAlike(cfg, s, s', d, cls, result);
      } else {
        ReachingAlike(cfg, s, s', d, cls, result);
      }
    }
  }

  lemma CachedAlike(cfg: Config, s: State, s': State, call: Call, cls: Classification, result: LogicalResult)
    requires Alike(s, s')
    ensures Alike(Cached(cfg, s, call, cls, result), Cached(Loud(cfg), s', call, cls, result))
  {
    SameDecision(cfg, call, OnResult);
    hide Fired, Plain, SC.Added, DecisionFor, KeyFor;
  }

  lemma SameIntervention(cfg: Config, mood: Mood, cls: Classification, slowed: bool, rows: nat)
    ensures Intervenes(Loud(cfg), false, mood, cls, slowed, rows) == Intervenes(cfg, true, mood, cls, slowed, rows)
    ensures EvaluatesBefore(Loud(cfg), false, mood, cls) == EvaluatesBefore(cfg, true, mood, cls)
    ensures RowCap(Loud(cfg), cls) == RowCap(cfg, cls)
  {
    hide HasEffectiveWeight;
  }

  lemma ResultPhaseAlike(cfg: Config, s: State, s': State, call: Call, cls: Classification, slowed: bool,
                         result: LogicalResult)
    requires Alike(s, s')
    ensures BothAlike(ResultPhase(cfg, true, s, call, cls, slowed, result),
                      ResultPhase(Loud(cfg), false, s', call, cls, slowed, result))
  {
    SameMood(s, s');
    SameDecision(cfg, call, OnResult);
    SameIntervention(cfg, s.mood.mood, cls, slowed, |result.rows|);
    hide Alike, Faults.OnResult, DecisionFor, Intervenes, Cached, Plain;
    var d := DecisionFor(cfg, call, OnResult);
    OnResultAlike(cfg, s, s', d, cls, result);
    var s1, delivery := s, Delivered(result);
    var s1', delivery' := s', Delivered(result);
    if Intervenes(cfg, true, s.mood.mood, cls, slowed, |result.rows|) {
      s1, delivery := Faults.OnResult(cfg, s, d, cls, result).0, Faults.OnResult(cfg, s, d, cls, result).1;
      s1', delivery' := Faults.OnResult(Loud(cfg), s', d, cls, result).0, Faults.OnResult(Loud(cfg), s', d, cls, result).1;
    }
    if delivery.Delivered? {
      CachedAlike(cfg, s1, s1', call, cls, delivery.result);
    }
  }

  lemma BeforePhaseAlike(cfg: Config, s: State, s': State, call: Call, cls: Classification)
    requires Alike(s, s')
    ensures var x, y := BeforePhase(cfg, true, s, call, cls), BeforePhase(Loud(cfg), false, s', call, cls);
            && Alike(x.0, y.0) && y.1 == x.1
            && Alike(DeferredDebug(cfg, true, x.0, call, cls, x.1), DeferredDebug(Loud(cfg), false, y.0, call, cls, y.1))
  {
    SameMood(s, s');
    SameDecision(cfg, call, BeforeExecute);
    SameIntervention(cfg, s.mood.mood, cls, false, 0);
    hide Alike, BeforeExecution, DecisionFor, EvaluatesBefore, LogDecision, RowCap;
    var d := DecisionFor(cfg, call, BeforeExecute);
    BeforeAlike(cfg, s, s', d, RowCap(cfg, cls).None?);
    var x, y := BeforePhase(cfg, true, s, call, cls), BeforePhase(Loud(cfg), false, s', call, cls);
    SameMood(x.0, y.0);
    SameIntervention(cfg, x.0.mood.mood, cls, false, 0);
    DecisionAlike(cfg, x.0, y.0, d, BEFORE_EXECUTE_PRIORITY);
  }

  lemma InterveneAlike(cfg: Config, s: State, s': State, call: Call, cls: Classification, reply: Reply)
    requires Alike(s, s')
    ensures BothAlike(Intervene(cfg, true, s, call, cls, reply), Intervene(Loud(cfg), false, s', call, cls, reply))
  {
    hide Alike, BeforePhase, DeferredDebug, ResultPhase, RefuseResult, Fetch, RowCap, DecisionFor, Plain;
    BeforePhaseAlike(cfg, s, s', call, cls);
    SameIntervention(cfg, CALM, cls, false, 0);
    var (s1, before) := BeforePhase(cfg, true, s, call, cls);
    var (s1', before') := BeforePhase(Loud(cfg), false, s', call, cls);
    if !before.Refused? {
      match Fetch(reply, RowCap(cfg, cls)) {
        case BackendError =>
        case CapExceeded => RefusalAlike(cfg, s1, s1', call);
        case Fetched(result) =>
          ResultPhaseAlike(cfg, DeferredDebug(cfg, true, s1, call, cls, before),
                           DeferredDebug(Loud(cfg), false, s1', call, cls, before), call, cls, before.Slowed?, result);
      }
    }
  }

  lemma RefusalAlike(cfg: Config, s: State, s': State, call: Call)
    requires Alike(s, s')
    ensures BothAlike(RefuseResult(cfg, s, call), RefuseResult(Loud(cfg), s', call))
  {
    SameDecision(cfg, call, OnResult);
    hide Alike, LogLimit, DecisionFor, Plain;
    var details := LimitDetails(MaxResultRows, if cfg.maxResultRows.Some? then cfg.maxResultRows.value else 0, None);
    LimitAlike(cfg, s, s', DecisionFor(cfg, call, OnResult), LimitError, details);
    LimitLogs(cfg, s, s', DecisionFor(cfg, call, OnResult), LimitError, details);
  }

  lemma LimitLogs(cfg: Config, s: State, s': State, d: Decision, outcome: Outcome, details: Details)
    ensures LogLimit(cfg, s, d, outcome, details).log != [] && LogLimit(Loud(cfg), s', d, outcome, details).log != []
  {
    hide NextEventId;
  }

  // ----- One operation -----

  lemma BegunAlike(cfg: Config, s: State, s': State, op: Operation)
    requires Alike(s, s') && op.Execute? && op.params.Positional?
    ensures CallFor(Loud(cfg), s', op) == CallFor(cfg, s, op)
    ensures Alike(Begin(s, CallFor(cfg, s, op)), Begin(s', CallFor(cfg, s, op)))
  {
    hide Fired, Plain, TemplateFingerprint;
  }

  /** An operation of a debug session comes out as in a session that never skips a decision. */
  lemma StepAlike(cfg: Config, s: State, s': State, op: Operation)
    requires Alike(s, s')
    ensures BothAlike(Step(cfg, true, s, op), Step(Loud(cfg), false, s', op))
  {
    hide Alike, BeginOperation, Intervene, CallFor, GiveBack, CancelAndLog, Plain, H.Find;
    match op {
      case Execute(_, _, _, _) =>
        BeginAlike(cfg, s, s');
        var s0, s0' := BeginOperation(cfg, s), BeginOperation(Loud(cfg), s');
        if PassthroughReason(op.params, op.cls) == None {
          BegunAlike(cfg, s0, s0', op);
          var call := CallFor(cfg, s0, op);
          InterveneAlike(cfg, Begin(s0, call), Begin(s0', call), call, op.cls, op.reply);
        }
      case ExecuteMany(_) => BeginAlike(cfg, s, s');
      case ReturnTreasure(id) => ReturnTreasureAlike(cfg, s, s', id);
      case ReturnAll => ReturnAllAlike(cfg, s, s');
    }
  }

  // ----- Over whole runs -----

  /** A debug run comes out as the same run without debug mode in which no decision is skipped. */
  lemma {:induction false} RunsAlike(cfg: Config, ops: seq<Operation>)
    ensures Alike(After(cfg, true, ops), After(Loud(cfg), false, ops))
  {
    hide Step, Alike;
    if ops == [] {
      StartsAlike();
    } else {
      var front := ops[..|ops| - 1];
      RunsAlike(cfg, front);
      StepAlike(cfg, After(cfg, true, front), After(Loud(cfg), false, front), ops[|ops| - 1]);
    }
  }

  lemma StartsAlike()
    ensures Alike(Init(), Init())
  {
  }

  /** After its j-th operation a run comes out like the debug run, which gave that operation a like answer. */
  predicate DebugAgrees(cfg: Config, ops: seq<Operation>, j: nat)
    requires j < |ops|
  {
    BothAlike((After(cfg, false, ops[..j + 1]), Answer(cfg, false, ops, j)),
              (After(Loud(cfg), false, ops[..j + 1]), Answer(Loud(cfg), false, ops, j)))
  }

  lemma AnswersAlike(cfg: Config, ops: seq<Operation>, j: nat)
    requires j < |ops|
    ensures BothAlike((After(cfg, true, ops[..j + 1]), Answer(cfg, true, ops, j)),
                      (After(Loud(cfg), false, ops[..j + 1]), Answer(Loud(cfg), false, ops, j)))
  {
    hide Step, After, Alike, PlainAnswer;
    RunsAlike(cfg, ops[..j]);
    StepAlike(cfg, After(cfg, true, ops[..j]), After(Loud(cfg), false, ops[..j]), ops[j]);
    C.AfterNext(cfg, true, ops, j);
    C.AfterNext(Loud(cfg), false, ops, j);
  }

  /** What a skipped phase had to do shows in the answer or in the releases. */
  lemma SkipShows(cfg: Config, s: State, call: Call, cls: Classification, slowed: bool, result: LogicalResult)
    requires FP.Skipped(cfg, s.mood.mood, cls, slowed, |result.rows|) && FP.Pending(s, call.template, result)
    ensures !BothAlike(ResultPhase(cfg, false, s, call, cls, slowed, result),
                       ResultPhase(cfg, true, s, call, cls, slowed, result))
  {
    hide Faults.HasEffectiveWeight, Faults.OnResult, H.ActiveFor, HiddenRows, KeyFor, Fired, Plain;
    var d := DecisionFor(cfg, call, OnResult);
    DecisionKeyLength(cfg, call, OnResult);
    hide DecisionFor;
    FP.WeightlessResult(cfg, s, d, cls, result);
    assert !cfg.Caching();
    if call.template in s.house.released {
      assert call.template !in H.Consumed(s.house, call.template).released;
    }
  }

  lemma LapseShows(cfg: Config, s: State, op: Operation)
    requires FP.Lapses(cfg, s, op)
    ensures !BothAlike(Step(cfg, false, s, op), Step(cfg, true, s, op))
  {
    hide BeginOperation, BeforePhase, DeferredDebug, ResultPhase, CallFor, FP.Skipped, FP.Pending, BothAlike;
    hide Session.PassThrough, RefuseResult, Fetch, RowCap;
    var s0 := BeginOperation(cfg, s);
    var call := CallFor(cfg, s0, op);
    var start := Begin(s0, call);
    FP.BeforeSkipIsSilent(cfg, start, call, op.cls);
    var (s1, before) := BeforePhase(cfg, true, start, call, op.cls);
    FP.BeforeSkipIsSilent(cfg, s1, call, op.cls);
    var result := Fetch(op.reply, RowCap(cfg, op.cls)).result;
    FP.DeferredChangesLogOnly(cfg, s1, call, op.cls, before, result);
    SkipShows(cfg, DeferredDebug(cfg, true, s1, call, op.cls, before), call, op.cls, before.Slowed?, result);
  }

  lemma AlikeBack(x: (State, Delivery), y: (State, Delivery), z: (State, Delivery))
    requires BothAlike(x, z) && BothAlike(y, z)
    ensures BothAlike(x, y)
  {
    hide Fired, Plain, PlainAnswer;
  }

  lemma NextDebugAgrees(cfg: Config, ops: seq<Operation>, j: nat)
    requires j < |ops| && After(cfg, false, ops[..j]) == After(cfg, true, ops[..j])
    ensures DebugAgrees(cfg, ops, j) <==> !FP.LapsesAt(cfg, ops, j)
  {
    hide Step, After, FP.Lapses, BothAlike;
    AnswersAlike(cfg, ops, j);
    C.AfterNext(cfg, false, ops, j);
    C.AfterNext(cfg, true, ops, j);
    var s, op := After(cfg, true, ops[..j]), ops[j];
    var loud := (After(Loud(cfg), false, ops[..j + 1]), Answer(Loud(cfg), false, ops, j));
    if FP.LapsesAt(cfg, ops, j) {
      LapseShows(cfg, s, op);
      if DebugAgrees(cfg, ops, j) {
        AlikeBack(Step(cfg, false, s, op), Step(cfg, true, s, op), loud);
      }
    } else {
      FP.StepsAgree(cfg, s, op);
    }
  }

  lemma {:induction false} DebugAgreesUpTo(cfg: Config, ops: seq<Operation>, k: nat)
    requires k <= |ops|
    ensures (forall j | 0 <= j < k :: DebugAgrees(cfg, ops, j)) <==> (forall j | 0 <= j < k :: !FP.LapsesAt(cfg, ops, j))
  {
    hide After, DebugAgrees, FP.LapsesAt, FP.Agrees;
    if k > 0 {
      DebugAgreesUpTo(cfg, ops, k - 1);
      FP.RunsAgreeUpTo(cfg, ops, k - 1);
      if forall j | 0 <= j < k - 1 :: DebugAgrees(cfg, ops, j) {
        NextDebugAgrees(cfg, ops, k - 1);
      }
    }
  }

  /** Debug mode changes nothing but evaluated decisions, event numbers and event ids over exactly the runs in which
      nothing lapses: states, answers and all other events then agree after every operation. */
  lemma DebugIsSilent(cfg: Config, ops: seq<Operation>)
    ensures (forall j | 0 <= j < |ops| :: DebugAgrees(cfg, ops, j)) <==>
            (forall j | 0 <= j < |ops| :: !FP.LapsesAt(cfg, ops, j))
  {
    DebugAgreesUpTo(cfg, ops, |ops|);
  }

  // ----- The faults of a log -----

  /** The faults that were injected, in order. */
  function FaultSequence(log: seq<Event>): seq<Option<Fault>> {
    if log == [] then []
    else
      var e := log[|log| - 1];
      FaultSequence(log[..|log| - 1]) + if e.eventType == FaultInjected then [e.fault] else []
  }

  lemma {:induction false} FiredFaults(log: seq<Event>)
    ensures FaultSequence(Fired(log)) == FaultSequence(log)
  {
    if log != [] {
      var front, e := log[..|log| - 1], log[|log| - 1];
      FiredFaults(front);
      if e.eventType != DecisionEvaluated {
        var plain := e.(seqNo := 0, eventId := "");
        assert plain.eventType == e.eventType && plain.fault == e.fault;
        LogGrows(Fired(front), plain);
      } else {
        assert Fired(log) == Fired(front);
      }
    }
  }

  lemma FaultsOfDebugRun(cfg: Config, ops: seq<Operation>)
    ensures FaultSequence(After(Loud(cfg), false, ops).log) == FaultSequence(After(cfg, true, ops).log)
  {
    hide After, FaultSequence, Fired, Plain;
    RunsAlike(cfg, ops);
    FiredFaults(After(cfg, true, ops).log);
    FiredFaults(After(Loud(cfg), false, ops).log);
  }
}
