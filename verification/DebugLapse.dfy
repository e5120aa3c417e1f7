/** A run whose debug run injects another fault: the debug run spends a release while the mood leaves STASH no weight,
    so the template can be stashed again as soon as the mood allows. */
module DebugLapse {
  import opened Models
  import opened Decisions
  import opened Faults
  import opened Session
  import opened StepInvariants
  import opened StashLog
  import Invariants
  import opened DebugRuns
  import opened Lapse
  import C = StashCycle
  import FP = FastPath
  import H = House
  import AR = AutoReturn
  import M = MoodEngine

  // ----- Where a run of reads stands -----

  function ReadTemplate(): string { TemplateFingerprint(CONFIG.session.sha256, READ.sql) }

  function Stashes(n: nat): seq<Option<Fault>> { seq(n, _ => Some(STASH)) }

  /** The read's template has a treasure or not, is released or not, and `n` STASH events are all the faults so far. */
  predicate At(s: State, tick: nat, mood: Mood, active: bool, released: bool, n: nat) {
    && s.tick == tick && s.mood == M.MoodState(tick, mood)
    && (if active then |s.house.treasures| == 1 && s.house.treasures[0].context.template == ReadTemplate()
        else s.house.treasures == [])
    && (ReadTemplate() in s.house.released <==> released)
    && FaultSequence(s.log) == Stashes(n)
  }

  lemma {:induction false} FaultsKept(log: seq<Event>, log': seq<Event>)
    requires log <= log' && forall i | |log| <= i < |log'| :: log'[i].eventType != FaultInjected
    ensures FaultSequence(log') == FaultSequence(log)
    decreases |log'|
  {
    if |log'| == |log| {
      assert log' == log;
    } else {
      FaultsKept(log, log'[..|log'| - 1]);
    }
  }

  lemma OpeningAt(s: State, mood: Mood)
    requires M.Advanced(MOODY, CONFIG.session, s.mood) == M.MoodState(s.tick + 1, mood)
    ensures var s0 := BeginOperation(CONFIG, s);
            && s0.tick == s.tick + 1 && s0.mood == M.MoodState(s.tick + 1, mood)
            && s0.house == s.house && FaultSequence(s0.log) == FaultSequence(s.log)
  {
    hide M.Advanced, M.Transition, NextEventId, FaultSequence;
    OpeningIsFaultless(CONFIG, s);
    FaultsKept(s.log, BeginOperation(CONFIG, s).log);
  }

  // ----- The result phase of a read -----

  lemma ReadEndsIn(force: bool, s: State)
    ensures var s0 := BeginOperation(CONFIG, s);
            var call := CallFor(CONFIG, s0, READ);
            && call.template == ReadTemplate()
            && Step(CONFIG, force, s, READ) == ResultPhase(CONFIG, force, Begin(s0, call), call, READ.cls, false, FULL)
  {
    hide BeginOperation, ResultPhase, BeforePhase, HasEffectiveWeight, TemplateFingerprint;
    var s0 := BeginOperation(CONFIG, s);
    var call := CallFor(CONFIG, s0, READ);
    FP.BeforeSkipIsSilent(CONFIG, Begin(s0, call), call, READ.cls);
    Lapse.BeforeIsQuiet(Begin(s0, call), call);
  }

  lemma AsleepSkips(s: State, call: Call)
    requires s.mood.mood == SLEEPY
    ensures ResultPhase(CONFIG, false, s, call, READ.cls, false, FULL).0 == s
  {
    hide ResultPhase;
    SecondResult(s, call);
  }

  lemma AsleepSpends(s: State, call: Call)
    requires s.mood.mood == SLEEPY && s.house.treasures == []
    ensures ResultPhase(CONFIG, true, s, call, READ.cls, false, FULL).0 ==
            s.(house := H.Consumed(s.house, call.template))
  {
    hide HasEffectiveWeight, DecisionFor, Faults.OnResult;
    NothingBefore(SLEEPY);
    DecisionKeyLength(CONFIG, call, OnResult);
    FP.WeightlessResult(CONFIG, s, DecisionFor(CONFIG, call, OnResult), READ.cls, FULL);
    NeitherChewedNorStale(s, DecisionFor(CONFIG, call, OnResult));
  }

  lemma AwakeIsTreated(force: bool, s: State, call: Call)
    requires s.mood.mood == CALM && s.house.treasures == []
    ensures ResultPhase(CONFIG, force, s, call, READ.cls, false, FULL).0 ==
            Treated(CONFIG, s, DecisionFor(CONFIG, call, OnResult), READ.cls, FULL).0
  {
    hide HasEffectiveWeight, DecisionFor, Treated, Drops;
    var d := DecisionFor(CONFIG, call, OnResult);
    NothingBefore(CALM);
    NothingDrops(s, d);
    NeitherChewedNorStale(s, d);
  }

  lemma AwakeSpends(s: State, d: Decision)
    requires s.mood.mood == CALM && d.context.template in s.house.released
    ensures Treated(CONFIG, s, d, READ.cls, FULL).0 == s.(house := H.Consumed(s.house, d.context.template))
  {
    hide ChewFor, History, Candidates, Select, Stash, Inject;
    NeitherChewedNorStale(s, d);
    var candidates := Candidates(CONFIG, true, READ.cls, FULL, false, false);
    OthersDoNotFire(d.context.key);
    NotSelected(CALM, d.context.key, ON_RESULT_PRIORITY, candidates);
  }

  lemma OthersDoNotFire(key: string)
    ensures forall fault | fault in Candidates(CONFIG, true, READ.cls, FULL, false, false) :: !Fires(CONFIG, CALM, key, fault)
  {
    hide Draw;
    var candidates := Candidates(CONFIG, true, READ.cls, FULL, false, false);
    assert forall fault | fault in candidates :: Base(fault) != STASH;
    hide Candidates;
    forall fault | fault in candidates ensures !Fires(CONFIG, CALM, key, fault) {
      OnlyStashWeighs(CALM, fault);
    }
  }

  lemma AwakeStashes(s: State, d: Decision)
    requires s.mood.mood == CALM && s.house.treasures == [] && d.context.template !in s.house.released
    ensures var s' := Treated(CONFIG, s, d, READ.cls, FULL).0;
            && |s'.house.treasures| == 1 && s'.house.treasures[0].context.template == d.context.template
            && s'.house.released == s.house.released && s'.tick == s.tick && s'.mood == s.mood
            && FaultSequence(s'.log) == FaultSequence(s.log) + [Some(STASH)]
  {
    hide Treated, Stash, FaultSequence;
    StashIsTreatment(s, d);
    StashLogsOne(s, d);
  }

  lemma StashIsTreatment(s: State, d: Decision)
    requires s.mood.mood == CALM && d.context.template !in s.house.released
    ensures Treated(CONFIG, s, d, READ.cls, FULL) == Stash(CONFIG, s, d, FULL)
  {
    assert s.(house := H.Consumed(s.house, d.context.template)) == s;
    hide ChewFor, History, Candidates, Select, Inject, Stash, Applicable;
    NeitherChewedNorStale(s, d);
    StashIsCandidate();
    SelectsStash(d.context.key, Candidates(CONFIG, false, READ.cls, FULL, false, false));
  }

  lemma StashLogsOne(s: State, d: Decision)
    requires s.house.treasures == []
    ensures var s' := Stash(CONFIG, s, d, FULL).0;
            && |s'.house.treasures| == 1 && s'.house.treasures[0].context.template == d.context.template
            && s'.house.released == s.house.released && s'.tick == s.tick && s'.mood == s.mood
            && FaultSequence(s'.log) == FaultSequence(s.log) + [Some(STASH)]
  {
    hide NextEventId, DeterministicId, AR.Planned, Index;
    var s' := Stash(CONFIG, s, d, FULL).0;
    assert s'.log[..|s.log|] == s.log && |s'.log| == |s.log| + 1;
  }

  // ----- The operations of the run -----

  lemma ReadAsleep(force: bool, s: State, tick: nat, mood: Mood, released: bool, n: nat)
    requires At(s, tick, mood, false, released, n)
    requires M.Advanced(MOODY, CONFIG.session, M.MoodState(tick, mood)) == M.MoodState(tick + 1, SLEEPY)
    ensures At(Step(CONFIG, force, s, READ).0, tick + 1, SLEEPY, false, released && !force, n)
  {
    hide M.Advanced, BeginOperation, ResultPhase, CallFor, FaultSequence, TemplateFingerprint, Step;
    OpeningAt(s, SLEEPY);
    ReadEndsIn(force, s);
    var s0 := BeginOperation(CONFIG, s);
    var call := CallFor(CONFIG, s0, READ);
    if force {
      AsleepSpends(Begin(s0, call), call);
    } else {
      AsleepSkips(Begin(s0, call), call);
    }
  }

  lemma ReadAwake(force: bool, s: State, tick: nat, mood: Mood, released: bool, n: nat)
    requires At(s, tick, mood, false, released, n)
    requires M.Advanced(MOODY, CONFIG.session, M.MoodState(tick, mood)) == M.MoodState(tick + 1, CALM)
    ensures At(Step(CONFIG, force, s, READ).0, tick + 1, CALM, !released, false, if released then n else n + 1)
  {
    hide M.Advanced, BeginOperation, ResultPhase, CallFor, FaultSequence, TemplateFingerprint, Step, Treated, DecisionFor;
    OpeningAt(s, CALM);
    ReadEndsIn(force, s);
    var s0 := BeginOperation(CONFIG, s);
    var call := CallFor(CONFIG, s0, READ);
    var d := DecisionFor(CONFIG, call, OnResult);
    DecisionKeyLength(CONFIG, call, OnResult);
    AwakeIsTreated(force, Begin(s0, call), call);
    if released {
      AwakeSpends(Begin(s0, call), d);
    } else {
      AwakeStashes(Begin(s0, call), d);
      assert Stashes(n) + [Some(STASH)] == Stashes(n + 1);
    }
  }

  lemma ReturnAllAt(force: bool, s: State, tick: nat, mood: Mood, n: nat)
    requires At(s, tick, mood, true, false, n)
    ensures At(Step(CONFIG, force, s, ReturnAll).0, tick, mood, false, true, n)
  {
    hide CancelAndLog, FaultSequence, TemplateFingerprint;
    var ts := s.house.treasures;
    var emptied := s.(house := H.AllReturned(s.house));
    assert ts[..|ts|] == ts && ts[0] in ts;
    assert ReadTemplate() in H.Templates(ts);
    CancelAndLogIsFaultless(CONFIG, emptied, ts, |ts|);
    C.CancelAndLogEvents(CONFIG, emptied, ts, |ts|);
    ClockKept(emptied, ts, |ts|);
    FaultsKept(s.log, CancelAndLog(CONFIG, emptied, ts).log);
  }

  lemma {:induction false} ClockKept(s: State, all: seq<Treasure>, k: nat)
    requires k <= |all|
    ensures var s' := CancelAndLog(CONFIG, s, all[..k]);
            s'.tick == s.tick && s'.mood == s.mood
  {
    hide CancelAndLog, NextEventId;
    if k == 0 {
      Invariants.CancelAndLogNone(CONFIG, s, all);
    } else {
      ClockKept(s, all, k - 1);
      Invariants.CancelAndLogStep(CONFIG, s, all, k);
    }
  }

  // ----- The run -----

  const OPERATIONS := [READ, ReturnAll, READ, READ, READ]

  lemma Moods()
    ensures M.Advanced(MOODY, CONFIG.session, M.MoodState(0, CALM)) == M.MoodState(1, CALM)
    ensures M.Advanced(MOODY, CONFIG.session, M.MoodState(1, CALM)) == M.MoodState(2, SLEEPY)
    ensures M.Advanced(MOODY, CONFIG.session, M.MoodState(2, SLEEPY)) == M.MoodState(3, SLEEPY)
    ensures M.Advanced(MOODY, CONFIG.session, M.MoodState(3, SLEEPY)) == M.MoodState(4, CALM)
  {
    DrawIsOne(M.ChainKey(CONFIG.session), MoodEpoch(1));
    DrawIsZero(M.ChainKey(CONFIG.session), MoodEpoch(2));
    hide Draw, MoodText;
  }

  lemma StartsAt(force: bool)
    ensures After(CONFIG, force, OPERATIONS[..0]) == Init() && At(Init(), 0, CALM, false, false, 0)
  {
    hide TemplateFingerprint;
  }

  /** Where the run ends: with the release spent late or, if no decision is skipped, in time for another stash. */
  lemma RunOf(force: bool)
    ensures At(After(CONFIG, force, OPERATIONS), 4, CALM, force, false, if force then 2 else 1)
  {
    hide At, Step, After, M.Advanced;
    Moods();
    StartsAt(force);
    var ops := OPERATIONS;
    C.AfterNext(CONFIG, force, ops, 0);
    C.AfterNext(CONFIG, force, ops, 1);
    C.AfterNext(CONFIG, force, ops, 2);
    C.AfterNext(CONFIG, force, ops, 3);
    C.AfterNext(CONFIG, force, ops, 4);
    assert ops[0] == READ && ops[1] == ReturnAll && ops[2] == ops[3] == ops[4] == READ && ops[..5] == ops;
    ReadAwake(force, After(CONFIG, force, ops[..0]), 0, CALM, false, 0);
    ReturnAllAt(force, After(CONFIG, force, ops[..1]), 1, CALM, 1);
    ReadAsleep(force, After(CONFIG, force, ops[..2]), 1, CALM, true, 1);
    ReadAsleep(force, After(CONFIG, force, ops[..3]), 2, SLEEPY, !force, 1);
    ReadAwake(force, After(CONFIG, force, ops[..4]), 3, SLEEPY, !force, 1);
  }

  /** The run injects one fault, and its debug run two. */
  lemma DebugInjectsMore()
    ensures FaultSequence(After(CONFIG, false, OPERATIONS).log) == [Some(STASH)]
    ensures FaultSequence(After(Loud(CONFIG), false, OPERATIONS).log) == [Some(STASH), Some(STASH)]
  {
    hide After, FaultSequence, TemplateFingerprint;
    RunOf(false);
    RunOf(true);
    FaultsOfDebugRun(CONFIG, OPERATIONS);
    assert Stashes(1) == [Some(STASH)] && Stashes(2) == [Some(STASH), Some(STASH)];
  }
}
