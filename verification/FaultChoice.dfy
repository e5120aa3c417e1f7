/** Which fault a statement gets, what it logs and what it answers, read off the hashed texts: the first fault of the order
    whose guard holds and whose draw lies below its chance. */
module FaultChoice {
  import opened Models
  import opened Decisions
  import opened Faults
  import opened Session
  import opened Transforms
  import opened PlainAnswers
  import opened RawDraws
  import opened FiringOdds
  import DR = DebugRuns
  import FE = FaultEngine
  import FP = FastPath
  import Draws
  import opened Permutations
  import H = House
  import AR = AutoReturn
  import SC = StaleCache

  // ----- Events -----

  /** The event of an injected fault, under its place in the log. */
  function FaultEvent(cfg: Config, seqNo: nat, context: Context, phase: Phase, fault: Fault, outcome: Outcome, details: Details)
    : Event
  {
    Event(seqNo, Hex(cfg.session.sha256(context.key + (":" + ("event:" + Digits(seqNo) + (":" + Name(fault))))))[..32],
          FaultInjected, Some(fault), Some(phase), Some(context), Some(outcome), details)
  }

  /** The event of a decision that injected nothing. */
  function DecisionEvent(cfg: Config, seqNo: nat, context: Context, phase: Phase, candidates: seq<Fault>): Event {
    Event(seqNo, Hex(cfg.session.sha256(context.key + (":" + ("event:" + Digits(seqNo) + ":DECISION"))))[..32],
          DecisionEvaluated, None, Some(phase), Some(context), Some(NotInjected), CandidateDetails(candidates))
  }

  /** The event of a limit that was exceeded. */
  function LimitEvent(cfg: Config, seqNo: nat, context: Context, outcome: Outcome, details: Details): Event {
    Event(seqNo, Hex(cfg.session.sha256(context.key + (":" + ("event:" + Digits(seqNo) + ":LIMIT"))))[..32],
          LimitExceeded, None, Some(OnResult), Some(context), Some(outcome), details)
  }

  lemma LogFaultIs(cfg: Config, s: State, d: Decision, fault: Fault, outcome: Outcome, details: Details)
    ensures LogFault(cfg, s, d, fault, outcome, details) ==
            s.(log := s.log + [FaultEvent(cfg, |s.log| + 1, d.context, d.phase, fault, outcome, details)])
  {
    hide Hex, Digits, Name, TagText;
    EventTag(|s.log| + 1, OfFault(fault));
  }

  lemma LogDecisionIs(cfg: Config, s: State, d: Decision, candidates: seq<Fault>)
    ensures LogDecision(cfg, s, d, candidates) ==
            if cfg.debug then s.(log := s.log + [DecisionEvent(cfg, |s.log| + 1, d.context, d.phase, candidates)]) else s
  {
    hide Hex, Digits, Name, TagText;
    EventTag(|s.log| + 1, DECISION);
    assert ":" + EventWord(DECISION) == ":DECISION";
  }

  lemma LogLimitIs(cfg: Config, s: State, d: Decision, outcome: Outcome, details: Details)
    requires d.phase == OnResult
    ensures LogLimit(cfg, s, d, outcome, details) ==
            s.(log := s.log + [LimitEvent(cfg, |s.log| + 1, d.context, outcome, details)])
  {
    hide Hex, Digits, Name, TagText;
    EventTag(|s.log| + 1, LIMIT);
    assert ":" + EventWord(LIMIT) == ":LIMIT";
  }

  /** The index that a tag picks among `n`. */
  function Pick(cfg: Config, key: string, tag: string, n: nat): nat
    requires n > 0
  {
    Drawn(cfg.session.sha256, key + (":" + tag)) % n
  }

  lemma IndexIs(cfg: Config, d: Decision, p: Purpose, tag: string, n: nat)
    requires n > 0 && TagText(p) == tag
    ensures Index(cfg, d, p, n) == Pick(cfg, d.context.key, tag, n)
  {
    hide TagText, Drawn;
    DrawIs(cfg.session, d.context.key, p, tag);
  }

  // ----- Before execution -----

  const BEFORE := [BARK, GUARD_BOWL, IGNORE, SLOTH]

  function BeforeContext(cfg: Config, call: Call): Context {
    Context(call.template, call.parameter, call.occurrence,
            Key(cfg, call.template, call.occurrence, "before_execute", call.parameter))
  }

  ghost predicate ChosenBefore(cfg: Config, mood: Mood, call: Call, fault: Fault) {
    FirstOf(BEFORE, HitsAmong(cfg, mood, BeforeContext(cfg, call).key, (iset f | f in BEFORE)), fault)
  }

  lemma BeforeSelected(cfg: Config, s: State, call: Call, fault: Fault)
    ensures BeforeFault(cfg, s, DecisionFor(cfg, call, BeforeExecute)) == Some(fault) <==>
            ChosenBefore(cfg, s.mood.mood, call, fault)
  {
    hide Select, DecisionFor, Key, FirstOf, HitsAmong;
    KeysAre(cfg, call);
    SelectIsFirst(cfg, s.mood.mood, BeforeContext(cfg, call).key, BEFORE, BEFORE, (iset f | f in BEFORE), fault);
  }

  /** What the before-execute phase of a statement in scope does. */
  ghost predicate BeforeIs(cfg: Config, s: State, call: Call, s1: State, before: Before, capped: bool) {
    var n, context := |s.log| + 1, BeforeContext(cfg, call);
    match before
    case Refused(fault) =>
      && ChosenBefore(cfg, s.mood.mood, call, fault) && fault in {BARK, GUARD_BOWL, IGNORE}
      && s1 == s.(log := s.log + [FaultEvent(cfg, n, context, BeforeExecute, fault, NotExecuted, NoDetails)])
    case Slowed =>
      && ChosenBefore(cfg, s.mood.mood, call, SLOTH)
      && s1 == s.(log := s.log + [FaultEvent(cfg, n, context, BeforeExecute, SLOTH, Delayed,
                    DelayDetails(1 + Pick(cfg, context.key, "delay:SLOTH", cfg.policy.slothMaxDelayMs)))])
    case Proceed =>
      && (forall fault :: !ChosenBefore(cfg, s.mood.mood, call, fault))
      && s1 == if cfg.debug && !capped then s.(log := s.log + [DecisionEvent(cfg, n, context, BeforeExecute, BEFORE)]) else s
  }

  lemma BeforeExecutionIs(cfg: Config, s: State, call: Call, recordDebug: bool)
    ensures var (s1, before) := BeforeExecution(cfg, s, DecisionFor(cfg, call, BeforeExecute), recordDebug);
            BeforeIs(cfg, s, call, s1, before, !recordDebug)
  {
    hide DecisionFor, Key, ChosenBefore, FaultEvent, DecisionEvent, LogFault, LogDecision, BeforeExecution,
         BeforeFault, Draw,
         Drawn, TagText;
    var d := DecisionFor(cfg, call, BeforeExecute);
    KeysAre(cfg, call);
    FixedTags();
    forall fault ensures BeforeFault(cfg, s, d) == Some(fault) <==> ChosenBefore(cfg, s.mood.mood, call, fault) {
      BeforeSelected(cfg, s, call, fault);
    }
    match BeforeFault(cfg, s, d) {
      case None =>
        DR.BeforeNone(cfg, s, d, recordDebug);
        LogDecisionIs(cfg, s, d, BEFORE);
      case Some(fault) =>
        SelectedBefore(cfg, s, d, fault);
        DR.BeforeSome(cfg, s, d, recordDebug, fault);
        DrawIs(cfg.session, d.context.key, Delay, "delay:SLOTH");
        LogFaultIs(cfg, s, d, SLOTH, Delayed,
                   DelayDetails(1 + Pick(cfg, d.context.key, "delay:SLOTH", cfg.policy.slothMaxDelayMs)));
        LogFaultIs(cfg, s, d, fault, NotExecuted, NoDetails);
    }
  }

  lemma SelectedBefore(cfg: Config, s: State, d: Decision, fault: Fault)
    requires BeforeFault(cfg, s, d) == Some(fault)
    ensures fault in {BARK, GUARD_BOWL, IGNORE, SLOTH}
  {
    hide Fires;
  }

  lemma BeforePhaseIs(cfg: Config, force: bool, s: State, call: Call, cls: Classification)
    requires InScope(cfg, cls.tables)
    ensures var (s1, before) := BeforePhase(cfg, force, s, call, cls);
            BeforeIs(cfg, s, call, s1, before, RowCap(cfg, cls).Some?)
  {
    hide BeforeExecution, BeforeIs, InScope, ScopeApplies, RowCap, DecisionFor;
    ScopeIs(cfg, cls.tables);
    FP.BeforeSkipIsSilent(cfg, s, call, cls);
    BeforeExecutionIs(cfg, s, call, RowCap(cfg, cls).None?);
  }

  // ----- On a result: the guards -----

  const ON_RESULT := [NO_DROP, STASH_ERROR, STASH, FALSE_EMPTY, TAIL_CHASE, PAGE_HOLE, ECHO, SHUFFLE, TANGLED_LEASH, CHEW,
                      WRONG_COUNT, OLD_BONE]

  function ResultContext(cfg: Config, call: Call): Context {
    Context(call.template, call.parameter, call.occurrence,
            Key(cfg, call.template, call.occurrence, "on_result", call.parameter))
  }

  function CallKey(cfg: Config, call: Call): CacheKey {
    (call.template, if cfg.includeParams then Some(call.parameter) else None)
  }

  /** Some configured profile changes some cell. */
  predicate Corruptible(profiles: seq<ChewProfile>, rows: seq<Row>) {
    exists i, r, c | 0 <= i < |profiles| && 0 <= r < |rows| && 0 <= c < |rows[r]| :: ChewValue(profiles[i], rows[r][c]).Some?
  }

  /** Under which circumstances a fault may befall a result. */
  ghost predicate Guard(cfg: Config, s: State, call: Call, cls: Classification, result: LogicalResult, fault: Fault) {
    match fault
    case STASH => !cfg.policy.stashError && call.template !in s.house.released && result.rows != []
    case STASH_ERROR => cfg.policy.stashError && call.template !in s.house.released && result.rows != []
    case FALSE_EMPTY => result.rows != []
    case TAIL_CHASE => result.rows != []
    case ECHO => result.rows != []
    case PAGE_HOLE => result.rows != [] && cls.limit.Some? && cls.offset.Some? && cls.offset.value > 0
    case SHUFFLE => cls.hasOrderBy == Some(false) && |result.rows| > 1
    case TANGLED_LEASH => |result.columns| > 1
    case CHEW => Corruptible(cfg.policy.chewProfiles, result.rows)
    case WRONG_COUNT => true
    case OLD_BONE => exists e :: e in s.cache && e.key == CallKey(cfg, call)
    case _ => false
  }

  lemma HitHasChance(cfg: Config, mood: Mood, key: string, fault: Fault)
    requires Hits(cfg, mood, key, fault)
    ensures cfg.policy.Probability(fault) > 0.0
  {
    hide Drawn;
    ChanceIsNoDebt(cfg, mood, fault);
  }

  lemma ChewGuard(profiles: seq<ChewProfile>, rows: seq<Row>, profileDraw: nat, cellDraw: nat)
    ensures ChewChoice(profiles, rows, profileDraw, cellDraw).Some? <==> Corruptible(profiles, rows)
  {
    hide ChewValue;
    EligibleCorrupts(profiles, rows);
    var eligible := EligibleProfiles(profiles, rows);
    if eligible != [] {
      var e := eligible[0];
      assert e in eligible;
      var c := e.cells[0];
      assert c in e.cells && Corrupts(e.profile, rows, c);
      var i :| 0 <= i < |profiles| && profiles[i] == e.profile;
      assert ChewValue(profiles[i], rows[c.row][c.column]).Some?;
    }
    if Corruptible(profiles, rows) {
      var i, r, c :| 0 <= i < |profiles| && 0 <= r < |rows| && 0 <= c < |rows[r]| && ChewValue(profiles[i], rows[r][c]).Some?;
      EligibleIsComplete(profiles, rows, profiles[i], Cell.Cell(r, c, ChewValue(profiles[i], rows[r][c]).value));
    }
  }

  lemma StaleGuard(cfg: Config, s: State, call: Call)
    requires cfg.policy.Probability(OLD_BONE) > 0.0
    ensures History(cfg, s, DecisionFor(cfg, call, OnResult)) == SC.Of(s.cache, CallKey(cfg, call))
    ensures History(cfg, s, DecisionFor(cfg, call, OnResult)) != [] <==> exists e :: e in s.cache && e.key == CallKey(cfg, call)
  {
    hide DecisionText, Tagged, SC.Of;
    SC.OfMembers(s.cache, CallKey(cfg, call));
    var h := SC.Of(s.cache, CallKey(cfg, call));
    if h != [] {
      assert h[0] in h;
    }
  }

  function One(present: bool, fault: Fault): seq<Fault> { if present then [fault] else [] }

  /** A list of candidates, given which of its parts are there. */
  function Listed(stash: Option<Fault>, shuffle: bool, rows: bool, hole: bool, leash: bool, chew: bool, stale: bool)
    : seq<Fault>
  {
    (if stash.Some? then [stash.value] else []) + One(shuffle, SHUFFLE)
    + (if rows then [FALSE_EMPTY, TAIL_CHASE, ECHO] else [])
    + One(hole, PAGE_HOLE) + One(leash, TANGLED_LEASH) + One(chew, CHEW) + [WRONG_COUNT] + One(stale, OLD_BONE)
  }

  lemma ListedHas(stash: Option<Fault>, shuffle: bool, rows: bool, hole: bool, leash: bool, chew: bool, stale: bool,
                  fault: Fault)
    ensures fault in Listed(stash, shuffle, rows, hole, leash, chew, stale) <==>
            || stash == Some(fault) || (shuffle && fault == SHUFFLE)
            || (rows && (fault == FALSE_EMPTY || fault == TAIL_CHASE || fault == ECHO))
            || (hole && fault == PAGE_HOLE) || (leash && fault == TANGLED_LEASH) || (chew && fault == CHEW)
            || fault == WRONG_COUNT || (stale && fault == OLD_BONE)
  {
  }

  lemma CandidatesAreListed(cfg: Config, released: bool, cls: Classification, result: LogicalResult, chew: bool, stale: bool)
    ensures Candidates(cfg, released, cls, result, chew, stale) ==
            Listed(if released || result.rows == [] then None else Some(if cfg.policy.stashError then STASH_ERROR else STASH),
                   cls.hasOrderBy == Some(false) && |result.rows| > 1, result.rows != [],
                   result.rows != [] && cls.limit.Some? && cls.offset.Some? && cls.offset.value > 0, |result.columns| > 1,
                   chew, stale)
  {
  }

  lemma CandidateIs(cfg: Config, released: bool, cls: Classification, result: LogicalResult, chew: bool, stale: bool,
                    fault: Fault)
    ensures fault in Candidates(cfg, released, cls, result, chew, stale) <==>
            match fault
            case STASH => !cfg.policy.stashError && !released && result.rows != []
            case STASH_ERROR => cfg.policy.stashError && !released && result.rows != []
            case FALSE_EMPTY => result.rows != []
            case TAIL_CHASE => result.rows != []
            case ECHO => result.rows != []
            case PAGE_HOLE => result.rows != [] && cls.limit.Some? && cls.offset.Some? && cls.offset.value > 0
            case SHUFFLE => cls.hasOrderBy == Some(false) && |result.rows| > 1
            case TANGLED_LEASH => |result.columns| > 1
            case CHEW => chew
            case WRONG_COUNT => true
            case OLD_BONE => stale
            case _ => false
  {
    hide Candidates, Listed;
    CandidatesAreListed(cfg, released, cls, result, chew, stale);
    ListedHas(if released || result.rows == [] then None else Some(if cfg.policy.stashError then STASH_ERROR else STASH),
              cls.hasOrderBy == Some(false) && |result.rows| > 1, result.rows != [],
              result.rows != [] && cls.limit.Some? && cls.offset.Some? && cls.offset.value > 0, |result.columns| > 1,
              chew, stale, fault);
  }

  /** Where a fault stands in the list of candidates that an evaluated decision shows. */
  function Rank(fault: Fault): nat {
    match fault
    case STASH_ERROR => 0 case STASH => 0 case SHUFFLE => 1 case FALSE_EMPTY => 2 case TAIL_CHASE => 3 case ECHO => 4
    case PAGE_HOLE => 5 case TANGLED_LEASH => 6 case CHEW => 7 case WRONG_COUNT => 8 case OLD_BONE => 9 case _ => 10
  }

  predicate Ranked(faults: seq<Fault>, from: nat, to: nat) {
    && (forall i | 0 <= i < |faults| :: from <= Rank(faults[i]) < to)
    && forall i, j | 0 <= i < j < |faults| :: Rank(faults[i]) < Rank(faults[j])
  }

  lemma RankedAppend(a: seq<Fault>, b: seq<Fault>, from: nat, middle: nat, to: nat)
    requires Ranked(a, from, middle) && Ranked(b, middle, to) && from <= middle <= to
    ensures Ranked(a + b, from, to)
  {
    hide Rank;
  }

  lemma RankedOne(present: bool, fault: Fault)
    ensures Ranked(One(present, fault), Rank(fault), Rank(fault) + 1)
  {
  }

  lemma RankedThree(present: bool)
    ensures Ranked(if present then [FALSE_EMPTY, TAIL_CHASE, ECHO] else [], 2, 5)
  {
  }

  lemma ListedInOrder(stash: Option<Fault>, shuffle: bool, rows: bool, hole: bool, leash: bool, chew: bool, stale: bool)
    requires stash in {None, Some(STASH), Some(STASH_ERROR)}
    ensures Ranked(Listed(stash, shuffle, rows, hole, leash, chew, stale), 0, 10)
  {
    hide One, Ranked;
    var a := if stash.Some? then [stash.value] else [];
    var b, c := One(shuffle, SHUFFLE), if rows then [FALSE_EMPTY, TAIL_CHASE, ECHO] else [];
    var d, e, f, g, h := One(hole, PAGE_HOLE), One(leash, TANGLED_LEASH), One(chew, CHEW), [WRONG_COUNT], One(stale, OLD_BONE);
    RankedStash(stash);
    RankedOne(shuffle, SHUFFLE);
    RankedThree(rows);
    RankedOne(hole, PAGE_HOLE);
    RankedOne(leash, TANGLED_LEASH);
    RankedOne(chew, CHEW);
    RankedCount();
    RankedOne(stale, OLD_BONE);
    RankedAppend(a, b, 0, 1, 2);
    RankedAppend(a + b, c, 0, 2, 5);
    RankedAppend(a + b + c, d, 0, 5, 6);
    RankedAppend(a + b + c + d, e, 0, 6, 7);
    RankedAppend(a + b + c + d + e, f, 0, 7, 8);
    RankedAppend(a + b + c + d + e + f, g, 0, 8, 9);
    RankedAppend(a + b + c + d + e + f + g, h, 0, 9, 10);
  }

  lemma RankedStash(stash: Option<Fault>)
    requires stash in {None, Some(STASH), Some(STASH_ERROR)}
    ensures Ranked(if stash.Some? then [stash.value] else [], 0, 1)
  {
  }

  lemma RankedCount()
    ensures Ranked([WRONG_COUNT], 8, 9)
  {
  }

  /** Candidates are listed in that order, each at most once. */
  lemma CandidatesInOrder(cfg: Config, released: bool, cls: Classification, result: LogicalResult, chew: bool, stale: bool)
    ensures Ranked(Candidates(cfg, released, cls, result, chew, stale), 0, 10)
  {
    hide Candidates, Listed, Ranked;
    CandidatesAreListed(cfg, released, cls, result, chew, stale);
    ListedInOrder(if released || result.rows == [] then None else Some(if cfg.policy.stashError then STASH_ERROR else STASH),
                  cls.hasOrderBy == Some(false) && |result.rows| > 1, result.rows != [],
                  result.rows != [] && cls.limit.Some? && cls.offset.Some? && cls.offset.value > 0, |result.columns| > 1,
                  chew, stale);
  }

  /** A fault whose draw hits is a candidate exactly under its guard. */
  lemma GuardIsCandidate(cfg: Config, s: State, call: Call, cls: Classification, result: LogicalResult, fault: Fault)
    requires Hits(cfg, s.mood.mood, ResultContext(cfg, call).key, fault)
    ensures fault in FE.CandidatesAt(cfg, s, DecisionFor(cfg, call, OnResult), cls, result) <==>
            Guard(cfg, s, call, cls, result, fault)
  {
    hide Hits, Candidates, ChewChoice, Corruptible, DecisionFor, Key, Draw, History;
    KeysAre(cfg, call);
    HitHasChance(cfg, s.mood.mood, ResultContext(cfg, call).key, fault);
    var d := DecisionFor(cfg, call, OnResult);
    ChewGuard(cfg.policy.chewProfiles, result.rows, Draw(cfg.session, d.context.key, Profile),
              Draw(cfg.session, d.context.key, Purpose.Cell));
    if cfg.policy.Probability(OLD_BONE) > 0.0 {
      StaleGuard(cfg, s, call);
    }
    CandidateIs(cfg, call.template in s.house.released, cls, result, ChewFor(cfg, d, result).Some?,
                History(cfg, s, d) != [], fault);
  }

  /** The first fault of the order whose guard holds and whose draw hits. */
  ghost predicate Chosen(cfg: Config, s: State, call: Call, cls: Classification, result: LogicalResult, fault: Fault) {
    FirstOf(ON_RESULT,
            HitsAmong(cfg, s.mood.mood, ResultContext(cfg, call).key, iset f | Guard(cfg, s, call, cls, result, f)), fault)
  }

  lemma ChosenIsSelected(cfg: Config, s: State, call: Call, cls: Classification, result: LogicalResult, fault: Fault)
    ensures FE.SelectedAt(cfg, s, DecisionFor(cfg, call, OnResult), cls, result) == Some(fault) <==>
            Chosen(cfg, s, call, cls, result, fault)
  {
    hide Select, DecisionFor, Key, FirstOf, Hits, Guard, FE.CandidatesAt;
    var mood, key := s.mood.mood, ResultContext(cfg, call).key;
    KeysAre(cfg, call);
    var candidates := FE.CandidatesAt(cfg, s, DecisionFor(cfg, call, OnResult), cls, result);
    SelectIsFirst(cfg, mood, key, ON_RESULT, candidates, (iset f | f in candidates), fault);
    forall f | Hits(cfg, mood, key, f) ensures f in candidates <==> Guard(cfg, s, call, cls, result, f) {
      GuardIsCandidate(cfg, s, call, cls, result, f);
    }
    assert HitsAmong(cfg, mood, key, iset f | f in candidates) ==
           HitsAmong(cfg, mood, key, iset f | Guard(cfg, s, call, cls, result, f));
  }

  lemma DropIsHit(cfg: Config, s: State, call: Call)
    ensures Drops(cfg, s, DecisionFor(cfg, call, OnResult)) <==> Hits(cfg, s.mood.mood, ResultContext(cfg, call).key, NO_DROP)
  {
    hide DecisionFor, Key, Fires, Hits;
    KeysAre(cfg, call);
    var mood, key := s.mood.mood, ResultContext(cfg, call).key;
    FiresIsHit(cfg, mood, key, NO_DROP);
  }

  // ----- On a result: what is logged and answered -----

  function OutcomeOf(policy: Policy, fault: Fault): Outcome {
    match fault
    case FALSE_EMPTY => EmptyResult
    case TAIL_CHASE => if policy.tailChaseError then ReadPartial else RowsTruncated
    case PAGE_HOLE => PageHoleCut
    case ECHO => RowsDuplicated
    case SHUFFLE => RowsReordered
    case TANGLED_LEASH => ColumnLabelsSwapped
    case CHEW => ValueCorrupted
    case WRONG_COUNT => RowcountMisreported
    case OLD_BONE => StaleRead
    case NO_DROP => ResponseLost
    case _ => if policy.stashError then ReadPartial else RowsHidden
  }

  /** The wrong count for `n` rows that a digest stands for: the sign from its first byte, the size from the next eight. */
  function WrongCount(digest: Digest, n: nat, maxDelta: Positive): nat {
    var size := Eight(digest[1..9]) % maxDelta + 1;
    if n == 0 || digest[0] % 2 == 0 then n + size else if n < size then 0 else n - size
  }

  /** The details of a fault, drawn under the tags of its own. */
  predicate DrawnDetails(cfg: Config, s: State, call: Call, result: LogicalResult, fault: Fault, details: Details) {
    var key, n := ResultContext(cfg, call).key, |result.rows|;
    match fault
    case FALSE_EMPTY => details == NoDetails
    case SHUFFLE => details == NoDetails
    case TAIL_CHASE =>
      n > 0 && var cut := 1 + Pick(cfg, key, "rows:TAIL_CHASE", n); cut <= n && details == TailDetails(n - cut, cut)
    case PAGE_HOLE => n > 0 && details == HoleDetails(1 + Pick(cfg, key, "rows:PAGE_HOLE", n))
    case ECHO => n > 0 && details == EchoDetails(Pick(cfg, key, "rows:ECHO", n))
    case TANGLED_LEASH =>
      |result.columns| > 1 &&
      var left := Pick(cfg, key, "columns:TANGLED_LEASH", |result.columns| - 1); details == LeashDetails(left, left + 1)
    case CHEW =>
      var eligible := EligibleProfiles(cfg.policy.chewProfiles, result.rows);
      |eligible| > 0 &&
      var e := eligible[Pick(cfg, key, "profile:CHEW", |eligible|)];
      |e.cells| > 0 &&
      var c := e.cells[Pick(cfg, key, "cell:CHEW", |e.cells|)]; details == ChewDetails(c.row, c.column, e.profile)
    case WRONG_COUNT =>
      var digest := cfg.session.sha256(key + (":" + "count:WRONG_COUNT"));
      details == CountDetails(n, WrongCount(digest, n, cfg.policy.wrongCountMaxDelta))
    case OLD_BONE =>
      var history := SC.Of(s.cache, CallKey(cfg, call));
      |history| > 0 && details == StaleDetails(history[Pick(cfg, key, "stale:OLD_BONE", |history|)].occurrence)
    case _ => false
  }

  lemma RowsDrawn(cfg: Config, s: State, d: Decision, call: Call, fault: Fault, result: LogicalResult)
    requires d.context == ResultContext(cfg, call) && fault in {TAIL_CHASE, PAGE_HOLE, ECHO, TANGLED_LEASH}
    requires Applicable(fault, result, None, [])
    ensures DrawnDetails(cfg, s, call, result, fault, Inject(cfg, d, fault, result, None, []).details)
  {
    hide Index, Pick, Key, TagText, Echoed, Relabelled;
    FixedTags();
    Tags(fault, 0);
    match fault {
      case TANGLED_LEASH => IndexIs(cfg, d, Columns, "columns:TANGLED_LEASH", |result.columns| - 1);
      case TAIL_CHASE => RowPicked(cfg, d, fault, "rows:TAIL_CHASE", |result.rows|);
      case PAGE_HOLE => RowPicked(cfg, d, fault, "rows:PAGE_HOLE", |result.rows|);
      case ECHO => RowPicked(cfg, d, fault, "rows:ECHO", |result.rows|);
    }
  }

  lemma RowPicked(cfg: Config, d: Decision, fault: Fault, tag: string, n: nat)
    requires n > 0 && tag == "rows:" + Name(fault)
    ensures Index(cfg, d, Rows(fault), n) == Pick(cfg, d.context.key, tag, n)
  {
    hide Index, Pick, TagText;
    Tags(fault, 0);
    IndexIs(cfg, d, Rows(fault), tag, n);
  }

  lemma CountDrawn(cfg: Config, s: State, d: Decision, call: Call, result: LogicalResult)
    requires d.context == ResultContext(cfg, call)
    ensures DrawnDetails(cfg, s, call, result, WRONG_COUNT, Inject(cfg, d, WRONG_COUNT, result, None, []).details)
  {
    hide Key, TagText, Eight, BigEndian;
    FixedTags();
    EightIs(Derive(cfg.session, d.context.key, Count)[1..9]);
  }

  lemma CellDrawn(cfg: Config, s: State, d: Decision, call: Call, result: LogicalResult, chew: Option<Choice>)
    requires d.context == ResultContext(cfg, call) && chew == ChewFor(cfg, d, result) && Applicable(CHEW, result, chew, [])
    ensures DrawnDetails(cfg, s, call, result, CHEW, Inject(cfg, d, CHEW, result, chew, []).details)
  {
    hide Key, TagText, Drawn, Draw, Corrupts, EligibleProfiles, Chewed;
    FixedTags();
    EligibleCorrupts(cfg.policy.chewProfiles, result.rows);
    DrawIs(cfg.session, d.context.key, Profile, "profile:CHEW");
    DrawIs(cfg.session, d.context.key, Purpose.Cell, "cell:CHEW");
    var eligible := EligibleProfiles(cfg.policy.chewProfiles, result.rows);
    assert eligible[Pick(cfg, d.context.key, "profile:CHEW", |eligible|)] in eligible;
  }

  lemma StaleDrawn(cfg: Config, s: State, d: Decision, call: Call, result: LogicalResult, history: seq<StaleEntry>)
    requires d.context == ResultContext(cfg, call) && history == SC.Of(s.cache, CallKey(cfg, call)) && history != []
    ensures DrawnDetails(cfg, s, call, result, OLD_BONE, Inject(cfg, d, OLD_BONE, result, None, history).details)
  {
    hide Key, TagText, Index, Pick, SC.Of;
    FixedTags();
    IndexIs(cfg, d, Stale, "stale:OLD_BONE", |history|);
  }

  lemma InjectIsDrawn(cfg: Config, s: State, call: Call, fault: Fault, result: LogicalResult, chew: Option<Choice>,
                      history: seq<StaleEntry>)
    requires Applicable(fault, result, chew, history) && fault != STASH && fault != STASH_ERROR
    requires var d := DecisionFor(cfg, call, OnResult); chew == ChewFor(cfg, d, result) && history == History(cfg, s, d)
    requires fault == OLD_BONE ==> cfg.policy.Probability(OLD_BONE) > 0.0
    ensures var injection := Inject(cfg, DecisionFor(cfg, call, OnResult), fault, result, chew, history);
            DrawnDetails(cfg, s, call, result, fault, injection.details) && injection.outcome == OutcomeOf(cfg.policy, fault)
  {
    hide DecisionFor, Key, DrawnDetails, ChewFor, History, Corrupts, Index, Derive, Reordered, Swaps, BigEndian;
    KeysAre(cfg, call);
    var d := DecisionFor(cfg, call, OnResult);
    match fault {
      case WRONG_COUNT => CountDrawn(cfg, s, d, call, result);
      case CHEW => CellDrawn(cfg, s, d, call, result, chew);
      case OLD_BONE =>
        StaleGuard(cfg, s, call);
        StaleDrawn(cfg, s, d, call, result, history);
      case FALSE_EMPTY => NoneDrawn(cfg, s, call, result);
      case SHUFFLE => NoneDrawn(cfg, s, call, result);
      case TAIL_CHASE => RowsDrawn(cfg, s, d, call, fault, result);
      case PAGE_HOLE => RowsDrawn(cfg, s, d, call, fault, result);
      case ECHO => RowsDrawn(cfg, s, d, call, fault, result);
      case TANGLED_LEASH => RowsDrawn(cfg, s, d, call, fault, result);
      case _ =>
    }
  }

  lemma NoneDrawn(cfg: Config, s: State, call: Call, result: LogicalResult)
    ensures DrawnDetails(cfg, s, call, result, FALSE_EMPTY, NoDetails) && DrawnDetails(cfg, s, call, result, SHUFFLE, NoDetails)
  {
    hide Key, Pick, EligibleProfiles, WrongCount, SC.Of;
  }

  /** The rows are shuffled by the swaps that the draws mark. */
  ghost predicate ShuffledByDraws(cfg: Config, key: string, before: LogicalResult, after: Delivery) {
    |before.rows| > 1 &&
    exists swaps | SwapVector(swaps, |before.rows|) ::
      && (forall i | 0 <= i < |before.rows| ::
            var draw := Drawn(cfg.session.sha256, key + ":perm:SHUFFLE:" + Digits(i));
            swaps[i] * Draws.TWO64 <= draw * (i + 1) < (swaps[i] + 1) * Draws.TWO64)
      && after == Delivered(WithRows(before, Reordered(before.rows, swaps)))
  }

  /** A fault other than STASH is logged with its drawn details, and the client gets an error only from TAIL_CHASE in error
      mode. */
  ghost predicate FaultDone(cfg: Config, s: State, call: Call, result: LogicalResult, fault: Fault, s': State,
                            answer: Delivery)
  {
    hide DrawnDetails, ShuffledByDraws, Key, FaultEvent;
    exists details ::
      && DrawnDetails(cfg, s, call, result, fault, details)
      && s'.log == s.log + [FaultEvent(cfg, |s.log| + 1, ResultContext(cfg, call), OnResult, fault,
                                       OutcomeOf(cfg.policy, fault), details)]
      && s'.house.treasures == s.house.treasures
      && (if fault == TAIL_CHASE && cfg.policy.tailChaseError
          then answer == Raised(Injected(TAIL_CHASE, s'.log[|s.log|].eventId)) else answer.Delivered?)
      && (fault == SHUFFLE ==> ShuffledByDraws(cfg, ResultContext(cfg, call).key, result, answer))
  }

  lemma InjectedIs(cfg: Config, s: State, call: Call, cls: Classification, result: LogicalResult, fault: Fault)
    requires Chosen(cfg, s, call, cls, result, fault) && fault != STASH && fault != STASH_ERROR
    ensures var x := Treated(cfg, s, DecisionFor(cfg, call, OnResult), cls, result);
            FaultDone(cfg, s, call, result, fault, x.0, x.1)
  {
    hide DecisionFor, Key, DrawnDetails, ChewFor, History, Applicable, Inject, Treated, Chosen, LogFault, FE.SelectedAt,
         FaultEvent, ShuffledByDraws;
    ChosenIsSelected(cfg, s, call, cls, result, fault);
    ChosenHasChance(cfg, s, call, cls, result, fault);
    KeysAre(cfg, call);
    var d := DecisionFor(cfg, call, OnResult);
    DR.SelectedApplies(cfg, s, d, cls, result, fault);
    var chew, history := ChewFor(cfg, d, result), History(cfg, s, d);
    DR.TreatedInjects(cfg, s, d, cls, result, fault, chew, history);
    InjectIsDrawn(cfg, s, call, fault, result, chew, history);
    var injection := Inject(cfg, d, fault, result, chew, history);
    LogFaultIs(cfg, s.(house := H.Consumed(s.house, d.context.template)), d, fault, injection.outcome, injection.details);
    if fault == SHUFFLE {
      ShuffleIsDrawn(cfg, d, result, chew, history);
    }
  }

  lemma ChosenHasChance(cfg: Config, s: State, call: Call, cls: Classification, result: LogicalResult, fault: Fault)
    requires Chosen(cfg, s, call, cls, result, fault)
    ensures cfg.policy.Probability(fault) > 0.0 && fault in ON_RESULT
    ensures Guard(cfg, s, call, cls, result, fault)
  {
    hide Hits, Guard, Key;
    HitHasChance(cfg, s.mood.mood, ResultContext(cfg, call).key, fault);
  }

  lemma ShuffleIsDrawn(cfg: Config, d: Decision, result: LogicalResult, chew: Option<Choice>, history: seq<StaleEntry>)
    requires Applicable(SHUFFLE, result, chew, history)
    ensures ShuffledByDraws(cfg, d.context.key, result, Delivered(Inject(cfg, d, SHUFFLE, result, chew, history).result))
  {
    hide Drawn, Reordered, Draw;
    var n := |result.rows|;
    var swaps := Swaps(ShuffleDraws(cfg, d, n));
    hide Swaps, ShuffleDraws;
    forall i | 0 <= i < n
      ensures var draw := Drawn(cfg.session.sha256, d.context.key + ":perm:SHUFFLE:" + Digits(i));
              swaps[i] * Draws.TWO64 <= draw * (i + 1) < (swaps[i] + 1) * Draws.TWO64
    {
      SwapsAre(cfg, d, n, i);
    }
  }

  // ----- STASH -----

  /** The treasure that a stashed row becomes. */
  function RowTreasure(cfg: Config, s: State, call: Call, result: LogicalResult): Treasure
    requires result.rows != []
  {
    var context := ResultContext(cfg, call);
    var i := Pick(cfg, context.key, "rows:STASH", |result.rows|);
    Treasure(Hex(cfg.session.sha256(context.key + (":" + ("treasure:" + Digits(i)))))[..32], i, result.rows[i],
             FaultEvent(cfg, |s.log| + 1, context, OnResult, STASH, RowsHidden, NoDetails).eventId, context)
  }

  /** The house has room for a treasure, and neither its id nor its place is taken. */
  predicate Room(cfg: Config, ts: seq<Treasure>, t: Treasure) {
    |ts| < cfg.houseLimit &&
    forall u | u in ts ::
      u.treasureId != t.treasureId && !(u.context.template == t.context.template && u.rowIndex == t.rowIndex)
  }

  /** The row goes to the house if there is room, and is missing from the answer or reported by an error. */
  ghost predicate StashDone(cfg: Config, s: State, call: Call, result: LogicalResult, s': State, answer: Delivery) {
    result.rows != [] &&
    var t, context := RowTreasure(cfg, s, call, result), ResultContext(cfg, call);
    if Room(cfg, s.house.treasures, t) then
      && s'.log == s.log + [FaultEvent(cfg, |s.log| + 1, context, OnResult, STASH, OutcomeOf(cfg.policy, STASH),
                                       StashDetails([t.rowIndex], t.treasureId))]
      && s'.house.treasures == s.house.treasures + [t]
      && answer == if cfg.policy.stashError then Raised(Injected(STASH, t.eventId))
                   else Delivered(result.(rows := result.rows[..t.rowIndex] + result.rows[t.rowIndex + 1..],
                                          rowcount := |result.rows| - 1))
    else s'.log == s.log && s'.house.treasures == s.house.treasures && answer == Delivered(result)
  }

  lemma RowTreasureIs(cfg: Config, s: State, call: Call, result: LogicalResult)
    requires result.rows != []
    ensures NewTreasure(cfg, s, DecisionFor(cfg, call, OnResult), result) == RowTreasure(cfg, s, call, result)
  {
    hide DecisionFor, Key, TagText, Digits, Hex, Index, Pick, Name;
    KeysAre(cfg, call);
    var d := DecisionFor(cfg, call, OnResult);
    RowPickedForStash(cfg, d, |result.rows|);
    Tags(STASH, Index(cfg, d, Rows(STASH), |result.rows|));
    EventTag(|s.log| + 1, OfFault(STASH));
  }

  lemma RowPickedForStash(cfg: Config, d: Decision, n: nat)
    requires n > 0
    ensures Index(cfg, d, Rows(STASH), n) == Pick(cfg, d.context.key, "rows:STASH", n)
  {
    hide Index, Pick;
    RowPicked(cfg, d, STASH, "rows:STASH", n);
  }

  lemma StashIs(cfg: Config, s: State, call: Call, result: LogicalResult)
    requires result.rows != []
    ensures var x := Stash(cfg, s, DecisionFor(cfg, call, OnResult), result);
            StashDone(cfg, s, call, result, x.0, x.1)
  {
    hide DecisionFor, Key, RowTreasure, NewTreasure, LogFault, AR.Planned, AR.HoldFor, FaultEvent;
    KeysAre(cfg, call);
    RowTreasureIs(cfg, s, call, result);
    var d := DecisionFor(cfg, call, OnResult);
    var t := RowTreasure(cfg, s, call, result);
    RowTreasureRow(cfg, s, call, result, OutcomeOf(cfg.policy, STASH), StashDetails([t.rowIndex], t.treasureId));
    LogFaultIs(cfg, Housed(cfg, s, t), d, STASH, OutcomeOf(cfg.policy, STASH), StashDetails([t.rowIndex], t.treasureId));
    RoomIs(cfg, s.house, t);
  }

  lemma RowTreasureRow(cfg: Config, s: State, call: Call, result: LogicalResult, outcome: Outcome, details: Details)
    requires result.rows != []
    ensures RowTreasure(cfg, s, call, result).rowIndex < |result.rows|
    ensures
      FaultEvent(cfg, |s.log| + 1, ResultContext(cfg, call), OnResult, STASH, outcome, details).eventId ==
      RowTreasure(cfg, s, call, result).eventId
  {
    hide Key, Drawn, Hex, Digits, Name;
  }

  lemma RoomIs(cfg: Config, house: H.House, t: Treasure)
    ensures H.Admits(house, t, cfg.houseLimit) <==> Room(cfg, house.treasures, t)
  {
  }

  // ----- The whole result phase -----

  /** What becomes of a result that is neither oversized nor dropped, in a house without a treasure of its template. */
  ghost predicate TreatedAs(cfg: Config, s: State, call: Call, cls: Classification, result: LogicalResult, s': State,
                            answer: Delivery)
  {
    && (forall fault | Chosen(cfg, s, call, cls, result, fault) ::
          if fault == STASH || fault == STASH_ERROR then StashDone(cfg, s, call, result, s', answer)
          else FaultDone(cfg, s, call, result, fault, s', answer))
    && ((forall fault :: !Chosen(cfg, s, call, cls, result, fault)) ==>
          && answer == Delivered(result) && s'.house.treasures == s.house.treasures
          && s'.log == s.log + if !cfg.debug then [] else
               [DecisionEvent(cfg, |s.log| + 1, ResultContext(cfg, call), OnResult,
                              FE.CandidatesAt(cfg, s, DecisionFor(cfg, call, OnResult), cls, result))])
  }

  lemma TreatedIs(cfg: Config, s: State, call: Call, cls: Classification, result: LogicalResult)
    ensures var x := Treated(cfg, s, DecisionFor(cfg, call, OnResult), cls, result);
            TreatedAs(cfg, s, call, cls, result, x.0, x.1)
  {
    hide DecisionFor, Key, Chosen, StashDone, FaultDone, Treated, FE.SelectedAt, FE.CandidatesAt, Stash,
         DecisionEvent, LogDecision,
         Guard;
    KeysAre(cfg, call);
    var d := DecisionFor(cfg, call, OnResult);
    forall fault | Chosen(cfg, s, call, cls, result, fault)
      ensures var x := Treated(cfg, s, d, cls, result);
              if fault == STASH || fault == STASH_ERROR then StashDone(cfg, s, call, result, x.0, x.1)
              else FaultDone(cfg, s, call, result, fault, x.0, x.1)
    {
      if fault == STASH || fault == STASH_ERROR {
        StashedIs(cfg, s, call, cls, result, fault);
      } else {
        InjectedIs(cfg, s, call, cls, result, fault);
      }
    }
    if forall fault :: !Chosen(cfg, s, call, cls, result, fault) {
      var selected := FE.SelectedAt(cfg, s, d, cls, result);
      if selected.Some? {
        ChosenIsSelected(cfg, s, call, cls, result, selected.value);
      }
      FE.TreatedNone(cfg, s, d, cls, result);
      LogDecisionIs(cfg, s.(house := H.Consumed(s.house, d.context.template)), d, FE.CandidatesAt(cfg, s, d, cls, result));
    }
  }

  lemma StashedIs(cfg: Config, s: State, call: Call, cls: Classification, result: LogicalResult, fault: Fault)
    requires Chosen(cfg, s, call, cls, result, fault) && (fault == STASH || fault == STASH_ERROR)
    ensures var x := Treated(cfg, s, DecisionFor(cfg, call, OnResult), cls, result);
            StashDone(cfg, s, call, result, x.0, x.1)
  {
    hide DecisionFor, Key, Chosen, StashDone, Treated, FE.SelectedAt, Stash;
    KeysAre(cfg, call);
    ChosenIsSelected(cfg, s, call, cls, result, fault);
    ChosenHasChance(cfg, s, call, cls, result, fault);
    var d := DecisionFor(cfg, call, OnResult);
    FE.TreatedStash(cfg, s, d, cls, result);
    var s1 := s.(house := H.Consumed(s.house, d.context.template));
    StashIs(cfg, s1, call, result);
    StashFrame(cfg, s, s1, call, result, Stash(cfg, s1, d, result));
  }

  lemma StashFrame(cfg: Config, s: State, s1: State, call: Call, result: LogicalResult, x: (State, Delivery))
    requires s1.log == s.log && s1.house.treasures == s.house.treasures && StashDone(cfg, s1, call, result, x.0, x.1)
    ensures StashDone(cfg, s, call, result, x.0, x.1)
  {
    hide Key, FaultEvent, Pick, Hex, Digits;
  }

  /** What a result phase logs and answers, read off texts, tables and sizes. */
  ghost predicate ResultIs(cfg: Config, s: State, call: Call, cls: Classification, result: LogicalResult, s': State,
                           answer: Delivery)
  {
    var n, context := |s.log| + 1, ResultContext(cfg, call);
    if |result.rows| > cfg.maxInterventionRows then
      && s'.log == s.log + [LimitEvent(cfg, n, context, if cfg.policy.maxRowsError then LimitError else FaultSkipped,
                                       LimitDetails(MaxInterventionRows, cfg.maxInterventionRows, Some(|result.rows|)))]
      && s'.house == s.house
      && answer == if cfg.policy.maxRowsError then Raised(TooManyRows(s'.log[|s.log|].eventId)) else Delivered(result)
    else if Hits(cfg, s.mood.mood, context.key, NO_DROP) then
      && s'.log == s.log + [FaultEvent(cfg, n, context, OnResult, NO_DROP, ResponseLost, NoDetails)]
      && s'.house == s.house && answer == Raised(Injected(NO_DROP, s'.log[|s.log|].eventId))
    else (forall t | t in s.house.treasures :: t.context.template != call.template) ==>
      TreatedAs(cfg, s, call, cls, result, s', answer)
  }

  lemma NoneActive(ts: seq<Treasure>, template: string)
    ensures (forall t | t in ts :: t.context.template != template) <==> H.ActiveFor(ts, template) == []
  {
    H.ActiveMembers(ts, template);
    var active := H.ActiveFor(ts, template);
    if active != [] {
      assert active[0] in active;
    }
  }

  lemma OnResultIs(cfg: Config, s: State, call: Call, cls: Classification, result: LogicalResult)
    requires cls.kind == SELECT
    ensures var x := Faults.OnResult(cfg, s, DecisionFor(cfg, call, OnResult), cls, result);
            ResultIs(cfg, s, call, cls, result, x.0, x.1)
  {
    hide DecisionFor, Key, Drops, Hits, TreatedAs, Treated, H.ActiveFor, LogLimit, LogFault, LimitEvent, FaultEvent;
    KeysAre(cfg, call);
    DropIsHit(cfg, s, call);
    NoneActive(s.house.treasures, call.template);
    var d := DecisionFor(cfg, call, OnResult);
    LogLimitIs(cfg, s, d, if cfg.policy.maxRowsError then LimitError else FaultSkipped,
               LimitDetails(MaxInterventionRows, cfg.maxInterventionRows, Some(|result.rows|)));
    LogFaultIs(cfg, s, d, NO_DROP, ResponseLost, NoDetails);
    TreatedIs(cfg, s, call, cls, result);
  }

  lemma ResultFrame(cfg: Config, s: State, call: Call, cls: Classification, result: LogicalResult, s1: State, s': State,
                    answer: Delivery)
    requires ResultIs(cfg, s, call, cls, result, s1, answer) && s'.log == s1.log && s'.house == s1.house
    ensures ResultIs(cfg, s, call, cls, result, s', answer)
  {
    hide Key, Hits, Chosen, DrawnDetails, ShuffledByDraws, FaultEvent, LimitEvent, DecisionEvent, RowTreasure, Room,
         FE.CandidatesAt,
         Guard;
    TreatedFrame(cfg, s, call, cls, result, s1, s', answer);
  }

  lemma TreatedFrame(cfg: Config, s: State, call: Call, cls: Classification, result: LogicalResult, s1: State, s': State,
                     answer: Delivery)
    requires s'.log == s1.log && s'.house == s1.house
    ensures TreatedAs(cfg, s, call, cls, result, s1, answer) ==> TreatedAs(cfg, s, call, cls, result, s', answer)
  {
    hide Key, Chosen, DrawnDetails, ShuffledByDraws, FaultEvent, DecisionEvent, RowTreasure, Room, FE.CandidatesAt;
  }

  lemma NothingHits(cfg: Config, mood: Mood, key: string, fault: Fault)
    requires !HasEffectiveWeight(cfg, mood, ON_RESULT_PRIORITY) && fault in ON_RESULT_PRIORITY
    ensures !Hits(cfg, mood, key, fault)
  {
    hide HasEffectiveWeight, EffectiveWeight, Hits, Draw;
    FP.NoWeight(cfg, mood, ON_RESULT_PRIORITY, fault);
    FiresIsHit(cfg, mood, key, fault);
  }

  lemma SkippedResult(cfg: Config, s: State, call: Call, cls: Classification, result: LogicalResult)
    requires !cfg.debug && |result.rows| <= cfg.maxInterventionRows
    requires !HasEffectiveWeight(cfg, s.mood.mood, ON_RESULT_PRIORITY)
    ensures ResultIs(cfg, s, call, cls, result, s, Delivered(result))
  {
    hide HasEffectiveWeight, Key, Hits, Guard, StashDone, FaultDone;
    forall fault ensures !Chosen(cfg, s, call, cls, result, fault) {
      if Chosen(cfg, s, call, cls, result, fault) {
        NothingHits(cfg, s.mood.mood, ResultContext(cfg, call).key, fault);
      }
    }
    hide Chosen;
    NothingHits(cfg, s.mood.mood, ResultContext(cfg, call).key, NO_DROP);
  }

  /** The result phase of an in-scope SELECT that was not slowed, whether or not its decision is skipped. */
  lemma ResultPhaseIs(cfg: Config, force: bool, s: State, call: Call, cls: Classification, result: LogicalResult)
    requires InScope(cfg, cls.tables) && cls.kind == SELECT
    ensures var x := ResultPhase(cfg, force, s, call, cls, false, result);
            ResultIs(cfg, s, call, cls, result, x.0, x.1)
  {
    hide DecisionFor, InScope, ScopeApplies, HasEffectiveWeight, Faults.OnResult, ResultIs, Cached;
    ScopeIs(cfg, cls.tables);
    var d := DecisionFor(cfg, call, OnResult);
    var evaluated := Intervenes(cfg, force, s.mood.mood, cls, false, |result.rows|);
    if evaluated {
      OnResultIs(cfg, s, call, cls, result);
    } else {
      SkippedResult(cfg, s, call, cls, result);
    }
    var (s1, answer) := if evaluated then Faults.OnResult(cfg, s, d, cls, result) else (s, Delivered(result));
    if answer.Delivered? {
      CachedKeeps(cfg, s1, call, cls, answer.result);
      ResultFrame(cfg, s, call, cls, result, s1, Cached(cfg, s1, call, cls, answer.result), answer);
    }
  }

  lemma CachedKeeps(cfg: Config, s: State, call: Call, cls: Classification, result: LogicalResult)
    ensures var s' := Cached(cfg, s, call, cls, result); s'.log == s.log && s'.house == s.house
  {
    hide SC.Added, KeyFor, DecisionFor;
  }
}
