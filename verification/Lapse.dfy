/** A run in which a stashed row shows up again although it was never returned: the mood takes STASH its weight,
    so the fast path skips the phase that would have hidden the row. */
module Lapse {
  import opened Models
  import opened Decisions
  import opened Adapters
  import opened Faults
  import opened Session
  import opened Transforms
  import H = House
  import AR = AutoReturn
  import M = MoodEngine
  import FP = FastPath
  import StepInvariants

  // ----- The session -----

  function One(): Digest { seq(32, i => if i == 7 then 1 else 0) }

  function Zero(): Digest { seq(32, _ => 0) }

  /** Every draw is 1, except from texts that end in '2', such as that of the second mood epoch. */
  function Pick(text: string): Digest {
    if text != "" && text[|text| - 1] == '2' then Zero() else One()
  }

  const POLICY := Policy(map[STASH := 1.0], false, false, false, [Utf8Truncate, PrecisionLoss, Nullify], 1, 1000)

  /** The default multipliers, with STASH at zero while SLEEPY. */
  const MOODY := MoodConfig(2, map[
    CALM := map[],
    SLEEPY := map[IGNORE := 3.0, SLOTH := 3.0, NO_DROP := 3.0, GUARD_BOWL := 3.0,
                  SHUFFLE := 0.5, ECHO := 0.5, TAIL_CHASE := 0.5, STASH := 0.0],
    ZOOMY := map[SHUFFLE := 3.0, ECHO := 3.0, TAIL_CHASE := 3.0, CHEW := 3.0, IGNORE := 0.5, SLOTH := 0.5]])
  const CONFIG := Config(Hashing(Pick, "seed", "session"), false, POLICY, 10, None, 10, None, None, false,
                         Some(MOODY), None, Allow)
  const FULL := LogicalResult(["c"], [[Text("a")], [Text("b")]], 2, Some(["text"]))
  const READ := Execute("select c from t", Positional(true, ""), Classification(SELECT, Some(false), false, None, None, None),
                        Answers(FULL.columns, ["text"], FULL.rows))

  lemma DeriveEnds(key: string, p: Purpose)
    requires Rest(p) != ""
    ensures var text := DeriveText(key, p);
            text != "" && text[|text| - 1] == Rest(p)[|Rest(p)| - 1]
  {
    hide Word, Rest;
  }

  lemma DrawIsZero(key: string, p: Purpose)
    requires Rest(p) != "" && Rest(p)[|Rest(p)| - 1] == '2'
    ensures Draw(CONFIG.session, key, p) == 0
  {
    DeriveEnds(key, p);
    hide DeriveText, Rest;
    assert Zero()[..8] == seq(8, _ => 0);
    Zeros(8);
  }

  lemma DrawIsOne(key: string, p: Purpose)
    requires Rest(p) != "" && Rest(p)[|Rest(p)| - 1] != '2'
    ensures Draw(CONFIG.session, key, p) == 1
  {
    DeriveEnds(key, p);
    hide DeriveText, Rest;
    var eight := One()[..8];
    assert eight == [0, 0, 0, 0, 0, 0, 0, 1];
    assert eight[..7] == [0, 0, 0, 0, 0, 0, 0];
    Zeros(7);
    assert eight[..7] == seq(7, _ => 0);
  }

  lemma {:induction false} Zeros(n: nat)
    ensures BigEndian(seq(n, _ => 0)) == 0
  {
    if n > 0 {
      assert seq(n, _ => 0 as Byte)[..n - 1] == seq(n - 1, _ => 0);
      Zeros(n - 1);
    }
  }

  // ----- Weights -----

  lemma OnlyStashWeighs(mood: Mood, fault: Fault)
    ensures EffectiveWeight(CONFIG, mood, fault) ==
            if Base(fault) != STASH || mood == SLEEPY then 0.0 else 1.0
  {
  }

  lemma NothingBefore(mood: Mood)
    ensures !HasEffectiveWeight(CONFIG, mood, BEFORE_EXECUTE_PRIORITY)
    ensures HasEffectiveWeight(CONFIG, mood, ON_RESULT_PRIORITY) <==> mood != SLEEPY
  {
    forall fault ensures EffectiveWeight(CONFIG, mood, fault) ==
                         if Base(fault) != STASH || mood == SLEEPY then 0.0 else 1.0 {
      OnlyStashWeighs(mood, fault);
    }
    assert ON_RESULT_PRIORITY[2] == STASH;
    assert POLICY.probabilities[STASH] != 0.0 && AnyProbability(POLICY);
    hide EffectiveWeight;
    assert STASH in ON_RESULT_PRIORITY && (mood != SLEEPY ==> EffectiveWeight(CONFIG, mood, STASH) > 0.0);
  }

  // ----- The first statement: CALM, the second row is stashed -----

  function ReadCall(occurrence: nat): Call {
    Call(TemplateFingerprint(CONFIG.session.sha256, READ.sql), "", occurrence)
  }

  lemma SelectsStash(key: string, candidates: seq<Fault>)
    requires STASH in candidates && STASH_ERROR !in candidates
    ensures Select(CONFIG, CALM, key, ON_RESULT_PRIORITY, candidates) == Some(STASH)
  {
    hide Draw;
    OnlyStashWeighs(CALM, NO_DROP);
    OnlyStashWeighs(CALM, STASH);
    hide EffectiveWeight;
    assert !Fires(CONFIG, CALM, key, NO_DROP) && Fires(CONFIG, CALM, key, STASH);
    hide Fires;
    var p := ON_RESULT_PRIORITY;
    assert p[0] == NO_DROP && p[1..][0] == STASH_ERROR && p[1..][1..][0] == STASH;
    assert Select(CONFIG, CALM, key, p[1..][1..], candidates) == Some(STASH);
    assert Select(CONFIG, CALM, key, p[1..], candidates) == Some(STASH);
  }

  lemma {:induction false} NotSelected(mood: Mood, key: string, priority: seq<Fault>, eligible: seq<Fault>)
    requires forall fault | fault in eligible :: !Fires(CONFIG, mood, key, fault)
    ensures Select(CONFIG, mood, key, priority, eligible) == None
  {
    hide Fires;
    if priority != [] {
      NotSelected(mood, key, priority[1..], eligible);
    }
  }

  lemma NothingDrops(s: State, d: Decision)
    ensures !Drops(CONFIG, s, d)
  {
    hide Draw;
    OnlyStashWeighs(s.mood.mood, NO_DROP);
    NotSelected(s.mood.mood, d.context.key, ON_RESULT_PRIORITY, [NO_DROP]);
  }

  lemma StashesSecondRow(s: State, d: Decision)
    requires s.house.treasures == []
    ensures var (s', delivery) := Stash(CONFIG, s, d, FULL);
            && (exists t :: s'.house.treasures == [t] && t.rowIndex == 1 && t.context == d.context)
            && s'.mood == s.mood && s'.tick == s.tick && delivery == Delivered(WithRows(FULL, FULL.rows[..1]))
  {
    hide NextEventId, DeterministicId, AR.Planned;
    DrawIsOne(d.context.key, Rows(STASH));
    hide Draw;
    var t := NewTreasure(CONFIG, s, d, FULL);
    assert H.Admitted(s.house, t).treasures == [t];
    assert WithoutRow(FULL.rows, 1) == FULL.rows[..1];
  }

  /** The state after one read: one treasure, of this template, and still CALM. */
  ghost predicate Stashed(s: State, call: Call) {
    && (exists t :: s.house.treasures == [t] && t.rowIndex == 1 && t.context.template == call.template)
    && s.mood == M.MoodState(1, CALM) && s.tick == 1
  }

  lemma NeitherChewedNorStale(s: State, d: Decision)
    ensures ChewFor(CONFIG, d, FULL) == None && History(CONFIG, s, d) == [] && !CONFIG.Caching()
  {
    assert CONFIG.policy.Probability(CHEW) == 0.0 && CONFIG.policy.Probability(OLD_BONE) == 0.0;
  }

  lemma StashIsCandidate()
    ensures var candidates := Candidates(CONFIG, false, READ.cls, FULL, false, false);
            STASH in candidates && STASH_ERROR !in candidates
  {
    assert Candidates(CONFIG, false, READ.cls, FULL, false, false)[0] == STASH;
  }

  lemma FirstResult(s: State, call: Call)
    requires s.house == H.House([], {}) && s.mood == M.MoodState(1, CALM) && s.tick == 1
    ensures var (s', delivery) := ResultPhase(CONFIG, false, s, call, READ.cls, false, FULL);
            Stashed(s', call) && delivery == Delivered(WithRows(FULL, FULL.rows[..1]))
  {
    hide DecisionFor, Drops, HasEffectiveWeight, Stash, Select, Draw, Inject, WithRows, ChewFor, History, KeyFor, Candidates;
    var d := DecisionFor(CONFIG, call, OnResult);
    StepInvariants.DecisionKeyLength(CONFIG, call, OnResult);
    NothingBefore(CALM);
    NothingDrops(s, d);
    NeitherChewedNorStale(s, d);
    var candidates := Candidates(CONFIG, false, READ.cls, FULL, false, false);
    StashIsCandidate();
    SelectsStash(d.context.key, candidates);
    var s1 := s.(house := H.Consumed(s.house, d.context.template));
    StashesSecondRow(s1, d);
  }

  // ----- The second statement: SLEEPY, the phase is skipped -----

  lemma SecondResult(s: State, call: Call)
    requires s.mood.mood == SLEEPY
    ensures ResultPhase(CONFIG, false, s, call, READ.cls, false, FULL) == (s, Delivered(FULL))
  {
    hide DecisionFor, HasEffectiveWeight;
    NothingBefore(SLEEPY);
    assert CONFIG.policy.Probability(OLD_BONE) == 0.0;
  }

  // ----- Both together -----

  lemma FirstOpening()
    ensures BeginOperation(CONFIG, Init()) == Init().(tick := 1, mood := M.MoodState(1, CALM))
  {
  }

  lemma SecondOpening(s: State)
    requires s.mood == M.MoodState(1, CALM) && s.tick == 1
    ensures var s0 := BeginOperation(CONFIG, s);
            s0.mood.mood == SLEEPY && s0.house == s.house && s0.occurrences == s.occurrences
  {
    hide NextEventId, M.Advanced, M.Transition;
    SleepsAtTwo();
  }

  lemma SleepsAtTwo()
    ensures M.Advanced(MOODY, CONFIG.session, M.MoodState(1, CALM)) == M.MoodState(2, SLEEPY)
  {
    DrawIsOne(M.ChainKey(CONFIG.session), MoodEpoch(1));
    hide Draw, MoodText;
  }

  /** With no weight before execution a read goes straight to its result phase. */
  lemma ReadGoesOn(s: State, call: Call)
    ensures Intervene(CONFIG, false, s, call, READ.cls, READ.reply) ==
            ResultPhase(CONFIG, false, s, call, READ.cls, false, FULL)
  {
    hide ResultPhase, HasEffectiveWeight, DecisionFor;
    NothingBefore(s.mood.mood);
  }

  lemma StepIs(s: State, s0: State, call: Call)
    requires s0 == BeginOperation(CONFIG, s) && call == CallFor(CONFIG, s0, READ)
    ensures Step(CONFIG, false, s, READ) == ResultPhase(CONFIG, false, Begin(s0, call), call, READ.cls, false, FULL)
  {
    hide BeginOperation, CallFor, Intervene, ResultPhase;
    ReadGoesOn(Begin(s0, call), call);
  }

  lemma FirstRead()
    ensures var (s1, delivery) := Step(CONFIG, false, Init(), READ);
            Stashed(s1, ReadCall(1)) && delivery == Delivered(WithRows(FULL, FULL.rows[..1]))
    ensures !FP.Lapses(CONFIG, Init(), READ)
  {
    hide BeginOperation, ResultPhase, TemplateFingerprint;
    FirstOpening();
    var s0 := BeginOperation(CONFIG, Init());
    var call := CallFor(CONFIG, s0, READ);
    assert call == ReadCall(1);
    StepIs(Init(), s0, call);
    FirstResult(Begin(s0, call), call);
    NoLapseWhenAwake(Init());
  }

  lemma NoLapseWhenAwake(s: State)
    requires BeginOperation(CONFIG, s).mood.mood == CALM
    ensures !FP.Lapses(CONFIG, s, READ)
  {
    hide BeginOperation, HasEffectiveWeight, TemplateFingerprint, BeforePhase;
    var s0 := BeginOperation(CONFIG, s);
    var call := CallFor(CONFIG, s0, READ);
    FP.BeforeSkipIsSilent(CONFIG, Begin(s0, call), call, READ.cls);
    BeforeIsQuiet(Begin(s0, call), call);
    NothingBefore(CALM);
  }

  lemma BeforeIsQuiet(s: State, call: Call)
    ensures BeforePhase(CONFIG, false, s, call, READ.cls) == (s, Proceed)
  {
    hide HasEffectiveWeight, DecisionFor;
    NothingBefore(s.mood.mood);
  }

  lemma SecondRead(s: State)
    requires Stashed(s, ReadCall(1))
    ensures var (s', delivery) := Step(CONFIG, false, s, READ);
            delivery == Delivered(FULL) && s'.house == s.house
    ensures FP.Lapses(CONFIG, s, READ)
  {
    hide BeginOperation, ResultPhase, TemplateFingerprint, BeforePhase, HasEffectiveWeight;
    SecondOpening(s);
    var s0 := BeginOperation(CONFIG, s);
    var call := CallFor(CONFIG, s0, READ);
    StepIs(s, s0, call);
    SecondResult(Begin(s0, call), call);
    FP.BeforeSkipIsSilent(CONFIG, Begin(s0, call), call, READ.cls);
    BeforeIsQuiet(Begin(s0, call), call);
    NothingBefore(SLEEPY);
    var t :| s.house.treasures == [t] && t.rowIndex == 1 && t.context.template == call.template;
    assert H.ActiveFor([t], call.template) == [t];
    FP.PendingForOne(Begin(s0, call), t, FULL);
  }

  /** The row stashed by the first read is delivered by the second although its treasure is still in the house;
      always deciding would have hidden it. */
  lemma StashedRowReappears()
    ensures var ops := [READ, READ];
            && Answer(CONFIG, false, ops, 0) == Delivered(WithRows(FULL, FULL.rows[..1]))
            && Answer(CONFIG, false, ops, 1) == Delivered(FULL)
            && (exists t :: After(CONFIG, false, ops).house.treasures == [t] && t.rowIndex == 1
                            && t.context.template == TemplateFingerprint(CONFIG.session.sha256, READ.sql))
            && FP.LapsesAt(CONFIG, ops, 1) && !FP.StashNeverFades(CONFIG)
  {
    hide Step, Stashed, FP.Lapses;
    var ops := [READ, READ];
    assert ops[..0] == [] && ops[..1] == [READ] && [READ][..0] == [] && ops[..2] == ops;
    FirstRead();
    FP.StepsAgree(CONFIG, Init(), READ);
    var s1 := Step(CONFIG, false, Init(), READ).0;
    assert After(CONFIG, false, []) == Init() && After(CONFIG, true, []) == Init();
    assert After(CONFIG, false, [READ]) == s1 && After(CONFIG, true, [READ]) == s1;
    assert After(CONFIG, false, ops) == Step(CONFIG, false, s1, READ).0;
    SecondRead(s1);
    FadesInSleep();
    StashedTreasure(s1, Step(CONFIG, false, s1, READ).0);
  }

  lemma FadesInSleep()
    ensures !FP.StashNeverFades(CONFIG)
  {
    OnlyStashWeighs(SLEEPY, STASH);
  }

  lemma StashedTreasure(s: State, s': State)
    requires Stashed(s, ReadCall(1)) && s'.house == s.house
    ensures exists t :: s'.house.treasures == [t] && t.rowIndex == 1
                        && t.context.template == TemplateFingerprint(CONFIG.session.sha256, READ.sql)
  {
    hide TemplateFingerprint;
  }
}
