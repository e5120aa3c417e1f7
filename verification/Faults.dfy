/** Fault selection, the events it logs, and what it makes of a result. */
module Faults {
  import opened Models
  import opened Decisions
  import opened Draws
  import opened Transforms
  import H = House
  import AR = AutoReturn
  import M = MoodEngine
  import SC = StaleCache

  // ----- Configuration and state of a session -----

  datatype PassthroughMode = Allow | Warn | Error

  datatype Config = Config(
    session: Hashing, includeParams: bool, policy: Policy, maxInterventionRows: int, maxResultRows: Option<Positive>,
    houseLimit: nat, onlyTables: Option<set<string>>, excludeTables: Option<set<string>>, debug: bool,
    mood: Option<MoodConfig>, autoReturn: Option<AutoReturnConfig>, onPassthrough: PassthroughMode)
  {
    /** The stale cache exists exactly when OLD_BONE is configured. */
    predicate Caching() { policy.Probability(OLD_BONE) > 0.0 }

    /** The logical clock runs exactly when moods or automatic returns need it. */
    predicate Clocked() { mood.Some? || autoReturn.Some? }
  }

  datatype State = State(
    tick: nat, occurrences: map<string, nat>, log: seq<Event>, house: H.House, schedule: AR.Timetable,
    mood: M.MoodState, cache: seq<StaleEntry>)

  datatype SessionError =
    | BackendFailure
    | PassthroughRefused
    | Injected(fault: Fault, eventId: string)
    | TooManyRows(eventId: string)

  datatype Delivery = Delivered(result: LogicalResult) | Raised(error: SessionError) | HandedBack(treasures: seq<Treasure>)

  // ----- Selection -----

  function EffectiveWeight(cfg: Config, mood: Mood, fault: Fault): Weight {
    cfg.policy.Probability(fault) * if cfg.mood.Some? then M.Multiplier(cfg.mood.value, mood, Base(fault)) else 1.0
  }

  predicate Fires(cfg: Config, mood: Mood, key: string, fault: Fault) {
    var weight := EffectiveWeight(cfg, mood, fault);
    weight > 0.0 && (weight >= 1.0 || Draw(cfg.session, key, Fire(Base(fault))) as real / TWO64 as real < weight)
  }

  predicate AnyProbability(policy: Policy) {
    exists fault | fault in policy.probabilities :: policy.probabilities[fault] != 0.0
  }

  predicate HasEffectiveWeight(cfg: Config, mood: Mood, candidates: seq<Fault>) {
    AnyProbability(cfg.policy) && exists fault | fault in candidates :: EffectiveWeight(cfg, mood, fault) > 0.0
  }

  /** The first fault in priority order that is eligible and fires. */
  function Select(cfg: Config, mood: Mood, key: string, priority: seq<Fault>, eligible: seq<Fault>): (r: Option<Fault>)
    ensures r.Some? ==> r.value in eligible && r.value in priority && Fires(cfg, mood, key, r.value)
  {
    if priority == [] then None
    else if priority[0] in eligible && Fires(cfg, mood, key, priority[0]) then Some(priority[0])
    else Select(cfg, mood, key, priority[1..], eligible)
  }

  // ----- Logging -----

  function Logged(s: State, eventId: string, eventType: EventType, fault: Option<Fault>, phase: Option<Phase>,
                  context: Option<Context>, outcome: Option<Outcome>, details: Details): State
  {
    s.(log := s.log + [Event(|s.log| + 1, eventId, eventType, fault, phase, context, outcome, details)])
  }

  function NextEventId(cfg: Config, s: State, key: string, name: EventName): string {
    DeterministicId(cfg.session, key, EventId(|s.log| + 1, name))
  }

  function LogFault(cfg: Config, s: State, d: Decision, fault: Fault, outcome: Outcome, details: Details): State {
    Logged(s, NextEventId(cfg, s, d.context.key, OfFault(fault)), FaultInjected, Some(fault), Some(d.phase),
           Some(d.context), Some(outcome), details)
  }

  /** A decision that injected nothing is logged in debug mode only. */
  function LogDecision(cfg: Config, s: State, d: Decision, candidates: seq<Fault>): State {
    if !cfg.debug then s
    else Logged(s, NextEventId(cfg, s, d.context.key, DECISION), DecisionEvaluated, None, Some(d.phase),
                Some(d.context), Some(NotInjected), CandidateDetails(candidates))
  }

  function LogLimit(cfg: Config, s: State, d: Decision, outcome: Outcome, details: Details): State {
    Logged(s, NextEventId(cfg, s, d.context.key, LIMIT), LimitExceeded, None, Some(d.phase), Some(d.context),
           Some(outcome), details)
  }

  function LastEventId(s: State): string
    requires s.log != []
  {
    s.log[|s.log| - 1].eventId
  }

  // ----- Before execution -----

  datatype Before = Proceed | Slowed | Refused(fault: Fault)

  function BeforeFault(cfg: Config, s: State, d: Decision): Option<Fault> {
    Select(cfg, s.mood.mood, d.context.key, BEFORE_EXECUTE_PRIORITY, BEFORE_EXECUTE_PRIORITY)
  }

  function BeforeExecution(cfg: Config, s: State, d: Decision, recordDebug: bool): (State, Before) {
    match BeforeFault(cfg, s, d)
    case Some(SLOTH) =>
      var delay := 1 + ModularIndex(Draw(cfg.session, d.context.key, Delay), cfg.policy.slothMaxDelayMs);
      (LogFault(cfg, s, d, SLOTH, Delayed, DelayDetails(delay)), Slowed)
    case Some(fault) => (LogFault(cfg, s, d, fault, NotExecuted, NoDetails), Refused(fault))
    case None => (if recordDebug then LogDecision(cfg, s, d, BEFORE_EXECUTE_PRIORITY) else s, Proceed)
  }

  // ----- On a result -----

  function KeyFor(cfg: Config, d: Decision): CacheKey {
    (d.context.template, if cfg.includeParams then Some(d.context.parameter) else None)
  }

  function History(cfg: Config, s: State, d: Decision): seq<StaleEntry> {
    if cfg.Caching() then SC.Of(s.cache, KeyFor(cfg, d)) else []
  }

  function ChewFor(cfg: Config, d: Decision, result: LogicalResult): (chew: Option<Choice>)
    ensures chew.Some? ==> Corrupts(chew.value.profile, result.rows, chew.value.cell)
  {
    if cfg.policy.Probability(CHEW) > 0.0 then
      ChewChoice(cfg.policy.chewProfiles, result.rows, Draw(cfg.session, d.context.key, Profile),
                 Draw(cfg.session, d.context.key, Purpose.Cell))
    else None
  }

  /** The faults that may fire on this result, in the order the source lists them. */
  function Candidates(cfg: Config, released: bool, cls: Classification, result: LogicalResult, chew: bool, stale: bool)
    : seq<Fault>
  {
    (if !released && result.rows != [] then [if cfg.policy.stashError then STASH_ERROR else STASH] else []) +
    (if cls.hasOrderBy == Some(false) && |result.rows| > 1 then [SHUFFLE] else []) +
    (if result.rows != [] then [FALSE_EMPTY, TAIL_CHASE, ECHO] else []) +
    (if result.rows != [] && cls.limit.Some? && cls.offset.Some? && cls.offset.value > 0 then [PAGE_HOLE] else []) +
    (if |result.columns| > 1 then [TANGLED_LEASH] else []) +
    (if chew then [CHEW] else []) +
    [WRONG_COUNT] +
    (if stale then [OLD_BONE] else [])
  }

  /** What a fault other than STASH makes of a result it is a candidate for. */
  datatype Injection = Injection(outcome: Outcome, details: Details, result: LogicalResult)

  function Index(cfg: Config, d: Decision, p: Purpose, size: nat): (i: nat)
    requires size > 0
    ensures i < size
  {
    ModularIndex(Draw(cfg.session, d.context.key, p), size)
  }

  function BoundedDraw(cfg: Config, d: Decision, p: Purpose): (draw: nat)
    ensures draw < TWO64
  {
    DrawBound(cfg.session, d.context.key, p);
    Draw(cfg.session, d.context.key, p)
  }

  function ShuffleDraws(cfg: Config, d: Decision, n: nat): (draws: seq<nat>)
    ensures |draws| == n && forall i | 0 <= i < n :: draws[i] < TWO64
  {
    seq(n, i requires 0 <= i < n => BoundedDraw(cfg, d, Permutation(i)))
  }

  /** Whether the guard under which a fault becomes a candidate holds of the result. */
  predicate Applicable(fault: Fault, result: LogicalResult, chew: Option<Choice>, history: seq<StaleEntry>) {
    match fault
    case FALSE_EMPTY | TAIL_CHASE | PAGE_HOLE | ECHO | STASH | STASH_ERROR => result.rows != []
    case SHUFFLE => |result.rows| > 1
    case TANGLED_LEASH => |result.columns| > 1
    case CHEW => chew.Some? && Corrupts(chew.value.profile, result.rows, chew.value.cell)
    case WRONG_COUNT => true
    case OLD_BONE => history != []
    case _ => false
  }

  /** Every candidate's guard holds of the result. */
  lemma CandidateApplies(cfg: Config, released: bool, cls: Classification, result: LogicalResult, chew: Option<Choice>,
                         history: seq<StaleEntry>, fault: Fault)
    requires chew.Some? ==> Corrupts(chew.value.profile, result.rows, chew.value.cell)
    requires fault in Candidates(cfg, released, cls, result, chew.Some?, history != [])
    ensures Applicable(fault, result, chew, history)
    ensures fault == STASH || fault == STASH_ERROR ==> !released && result.rows != []
    ensures fault == PAGE_HOLE ==> cls.offset.Some? && cls.offset.value > 0
    ensures fault == SHUFFLE ==> cls.hasOrderBy == Some(false)
  {
    hide Corrupts;
  }

  function Inject(cfg: Config, d: Decision, fault: Fault, result: LogicalResult, chew: Option<Choice>,
                  history: seq<StaleEntry>): Injection
    requires Applicable(fault, result, chew, history) && fault != STASH && fault != STASH_ERROR
  {
    var n := |result.rows|;
    match fault
    case FALSE_EMPTY => Injection(EmptyResult, NoDetails, WithRows(result, []))
    case TAIL_CHASE =>
      var truncated := 1 + Index(cfg, d, Rows(TAIL_CHASE), n);
      Injection(if cfg.policy.tailChaseError then ReadPartial else RowsTruncated,
                TailDetails(n - truncated, truncated), WithRows(result, result.rows[..n - truncated]))
    case PAGE_HOLE =>
      var removed := 1 + Index(cfg, d, Rows(PAGE_HOLE), n);
      Injection(PageHoleCut, HoleDetails(removed), WithRows(result, result.rows[removed..]))
    case ECHO =>
      var row := Index(cfg, d, Rows(ECHO), n);
      Injection(RowsDuplicated, EchoDetails(row), WithRows(result, Echoed(result.rows, row)))
    case SHUFFLE =>
      Injection(RowsReordered, NoDetails, WithRows(result, Reordered(result.rows, Swaps(ShuffleDraws(cfg, d, n)))))
    case TANGLED_LEASH =>
      var left := Index(cfg, d, Columns, |result.columns| - 1);
      Injection(ColumnLabelsSwapped, LeashDetails(left, left + 1), result.(columns := Relabelled(result.columns, left)))
    case CHEW =>
      var cell := chew.value.cell;
      Injection(ValueCorrupted, ChewDetails(cell.row, cell.column, chew.value.profile),
                result.(rows := Chewed(result.rows, cell)))
    case WRONG_COUNT =>
      var derived := Derive(cfg.session, d.context.key, Count);
      var reported := Misreported(n, BigEndian(derived[1..9]), derived[0], cfg.policy.wrongCountMaxDelta);
      Injection(RowcountMisreported, CountDetails(n, reported), result.(rowcount := reported))
    case OLD_BONE =>
      var entry := history[Index(cfg, d, Stale, |history|)];
      Injection(StaleRead, StaleDetails(entry.occurrence), entry.result)
  }

  // ----- STASH -----

  function NewTreasure(cfg: Config, s: State, d: Decision, result: LogicalResult): Treasure
    requires result.rows != []
  {
    var row := Index(cfg, d, Rows(STASH), |result.rows|);
    Treasure(DeterministicId(cfg.session, d.context.key, TreasureId(row)), row, result.rows[row],
             NextEventId(cfg, s, d.context.key, OfFault(STASH)), d.context)
  }

  /** The row enters the house and, if returns are automatic, its return is planned. */
  function Housed(cfg: Config, s: State, t: Treasure): State {
    var s1 := s.(house := H.Admitted(s.house, t));
    if cfg.autoReturn.None? then s1
    else s1.(schedule := AR.Planned(s1.schedule, t.treasureId,
                                    AR.HoldFor(cfg.autoReturn.value, cfg.session, t.context.key)))
  }

  function LogStash(cfg: Config, s: State, d: Decision, t: Treasure): State {
    LogFault(cfg, s, d, STASH, if cfg.policy.stashError then ReadPartial else RowsHidden,
             StashDetails([t.rowIndex], t.treasureId))
  }

  /** Puts one row in the house, plans its return and logs it; a full or occupied house changes nothing. */
  function Stash(cfg: Config, s: State, d: Decision, result: LogicalResult): (State, Delivery)
    requires result.rows != []
  {
    var t := NewTreasure(cfg, s, d, result);
    if !H.Admits(s.house, t, cfg.houseLimit) then (s, Delivered(result))
    else
      var s' := LogStash(cfg, Housed(cfg, s, t), d, t);
      (s', if cfg.policy.stashError then Raised(Injected(STASH, LastEventId(s')))
           else Delivered(WithRows(result, WithoutRow(result.rows, t.rowIndex))))
  }

  // ----- The whole on-result phase -----

  function HiddenRows(ts: seq<Treasure>): set<nat> { set t | t in ts :: t.rowIndex }

  predicate Drops(cfg: Config, s: State, d: Decision) {
    Select(cfg, s.mood.mood, d.context.key, ON_RESULT_PRIORITY, [NO_DROP]) == Some(NO_DROP)
  }

  function Treated(cfg: Config, s: State, d: Decision, cls: Classification, result: LogicalResult): (State, Delivery) {
    hide ChewFor, History, Candidates, Corrupts, Applicable, Inject, Stash, Fires;
    var template := d.context.template;
    var released := template in s.house.released;
    var s1 := s.(house := H.Consumed(s.house, template));
    var chew, history := ChewFor(cfg, d, result), History(cfg, s, d);
    var candidates := Candidates(cfg, released, cls, result, chew.Some?, history != []);
    match Select(cfg, s.mood.mood, d.context.key, ON_RESULT_PRIORITY, candidates)
    case None => (LogDecision(cfg, s1, d, candidates), Delivered(result))
    case Some(fault) =>
      CandidateApplies(cfg, released, cls, result, chew, history, fault);
      if fault == STASH || fault == STASH_ERROR then Stash(cfg, s1, d, result)
      else
        var injection := Inject(cfg, d, fault, result, chew, history);
        var s2 := LogFault(cfg, s1, d, fault, injection.outcome, injection.details);
        (s2, if fault == TAIL_CHASE && cfg.policy.tailChaseError then Raised(Injected(TAIL_CHASE, LastEventId(s2)))
             else Delivered(injection.result))
  }

  function OnResult(cfg: Config, s: State, d: Decision, cls: Classification, result: LogicalResult): (State, Delivery) {
    if cls.kind != SELECT then (s, Delivered(result))
    else if |result.rows| > cfg.maxInterventionRows then
      var error := cfg.policy.maxRowsError;
      var s1 := LogLimit(cfg, s, d, if error then LimitError else FaultSkipped,
                         LimitDetails(MaxInterventionRows, cfg.maxInterventionRows, Some(|result.rows|)));
      (s1, if error then Raised(TooManyRows(LastEventId(s1))) else Delivered(result))
    else if Drops(cfg, s, d) then
      var s1 := LogFault(cfg, s, d, NO_DROP, ResponseLost, NoDetails);
      (s1, Raised(Injected(NO_DROP, LastEventId(s1))))
    else
      var sticky := H.ActiveFor(s.house.treasures, d.context.template);
      if sticky != [] then (s, Delivered(WithRows(result, Visible(result.rows, HiddenRows(sticky), 0))))
      else Treated(cfg, s, d, cls, result)
  }
}
