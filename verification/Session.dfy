/** One session as a state machine over its operations. */
module Session {
  import opened Models
  import opened Decisions
  import opened Faults
  import opened Adapters
  import H = House
  import AR = AutoReturn
  import M = MoodEngine
  import SC = StaleCache

  const PER_FINGERPRINT: Positive := 4
  const TOTAL_LIMIT: nat := 64

  /** `Named` parameters are a mapping; positional ones may lie outside the fingerprint domain. */
  datatype Params = Named | Positional(inDomain: bool, fingerprint: string)

  datatype Operation =
    | Execute(sql: string, params: Params, cls: Classification, reply: Reply)
    | ExecuteMany(affected: Option<int>)     // None: the backend raises
    | ReturnTreasure(id: string)
    | ReturnAll

  function Init(): State { State(0, map[], [], H.House([], {}), AR.Timetable(0, 0, []), M.MoodState(0, CALM), []) }

  // ----- Returning treasures -----

  function LogReturn(cfg: Config, s: State, t: Treasure, phase: Phase): State {
    Logged(s, NextEventId(cfg, s, t.context.key, RETURN), TreasureReturned, Some(STASH), Some(phase), Some(t.context),
           Some(GivenBack), ReturnDetails(t.treasureId))
  }

  function GiveBack(cfg: Config, s: State, id: string, phase: Phase): State {
    var found := H.Find(s.house.treasures, id);
    if found == None then s else LogReturn(cfg, s.(house := H.Returned(s.house, id)), found.value, phase)
  }

  function GiveBackAll(cfg: Config, s: State, ids: seq<string>, phase: Phase): State {
    if ids == [] then s else GiveBack(cfg, GiveBackAll(cfg, s, ids[..|ids| - 1], phase), ids[|ids| - 1], phase)
  }

  function Cancel(cfg: Config, s: State, id: string): State {
    if cfg.autoReturn.None? then s else s.(schedule := AR.Cancelled(s.schedule, id))
  }

  /** The loop of `return_all` after the house has been emptied. */
  function CancelAndLog(cfg: Config, s: State, ts: seq<Treasure>): State {
    if ts == [] then s
    else
      var t := ts[|ts| - 1];
      LogReturn(cfg, Cancel(cfg, CancelAndLog(cfg, s, ts[..|ts| - 1]), t.treasureId), t, ManualReturn)
  }

  // ----- The logical clock -----

  function ReturnDue(cfg: Config, s: State): State {
    if cfg.autoReturn.None? then s
    else GiveBackAll(cfg, s.(schedule := AR.Advanced(s.schedule, s.tick)), AR.Due(s.schedule, s.tick), AutoReturn)
  }

  function AdvanceMood(cfg: Config, s: State): State {
    if cfg.mood.None? then s
    else
      var s1 := s.(mood := M.Advanced(cfg.mood.value, cfg.session, s.mood));
      match M.Transition(cfg.mood.value, cfg.session, s.mood)
      case None => s1
      case Some(t) =>
        Logged(s1, NextEventId(cfg, s1, t.derivationKey, MOOD), MoodChanged, None, None, None, None,
               MoodDetails(t.previous, t.current, t.tick))
  }

  function BeginOperation(cfg: Config, s: State): State {
    if !cfg.Clocked() then s else AdvanceMood(cfg, ReturnDue(cfg, s.(tick := s.tick + 1)))
  }

  // ----- One statement -----

  datatype Reason = NamedParameters | UnknownSql | TransactionStatement | UnsupportedParameterType

  function PassthroughReason(params: Params, cls: Classification): Option<Reason> {
    if params.Named? then Some(NamedParameters)
    else if cls.kind == UNKNOWN then Some(UnknownSql)
    else if cls.isTransaction then Some(TransactionStatement)
    else if !params.inDomain then Some(UnsupportedParameterType)
    else None
  }

  function Direct(reply: Reply): Delivery {
    match Fetch(reply, None)
    case Fetched(result) => Delivered(result)
    case _ => Raised(BackendFailure)
  }

  function PassThrough(cfg: Config, reason: Reason, reply: Reply): Delivery {
    if cfg.onPassthrough == Error && reason != TransactionStatement then Raised(PassthroughRefused) else Direct(reply)
  }

  predicate ScopeApplies(cfg: Config, tables: Option<set<string>>) {
    match (cfg.onlyTables, cfg.excludeTables)
    case (Some(only), _) => tables.Some? && tables.value * only != {}
    case (None, Some(exclude)) => tables.None? || tables.value * exclude == {}
    case (None, None) => true
  }

  /** A statement that takes part: its template, its parameter fingerprint and its occurrence. */
  datatype Call = Call(template: string, parameter: string, occurrence: nat)

  function DecisionFor(cfg: Config, call: Call, phase: Phase): Decision {
    Decide(cfg.session, cfg.includeParams, call.template, call.parameter, call.occurrence, phase)
  }

  predicate ScopedSelect(cfg: Config, cls: Classification) { ScopeApplies(cfg, cls.tables) && cls.kind == SELECT }

  function RowCap(cfg: Config, cls: Classification): Option<nat> {
    if cfg.maxResultRows.Some? && ScopedSelect(cfg, cls) then Some(cfg.maxResultRows.value as nat) else None
  }

  /** Whether the before-execute decision is made; `force` stands for always making it. */
  predicate EvaluatesBefore(cfg: Config, force: bool, mood: Mood, cls: Classification) {
    ScopeApplies(cfg, cls.tables) && (force || cfg.debug || HasEffectiveWeight(cfg, mood, BEFORE_EXECUTE_PRIORITY))
  }

  /** Whether a result is handed to the fault engine. */
  predicate Intervenes(cfg: Config, force: bool, mood: Mood, cls: Classification, slowed: bool, rows: nat) {
    && ScopedSelect(cfg, cls) && !slowed
    && (force || cfg.debug || rows > cfg.maxInterventionRows || HasEffectiveWeight(cfg, mood, ON_RESULT_PRIORITY)
        || cfg.Caching())
  }

  function RefuseResult(cfg: Config, s: State, call: Call): (State, Delivery) {
    var s1 := LogLimit(cfg, s, DecisionFor(cfg, call, OnResult), LimitError,
                       LimitDetails(MaxResultRows, if cfg.maxResultRows.Some? then cfg.maxResultRows.value else 0, None));
    (s1, Raised(TooManyRows(LastEventId(s1))))
  }

  /** The before-execute phase. */
  function BeforePhase(cfg: Config, force: bool, s: State, call: Call, cls: Classification): (State, Before) {
    if EvaluatesBefore(cfg, force, s.mood.mood, cls) then
      BeforeExecution(cfg, s, DecisionFor(cfg, call, BeforeExecute), RowCap(cfg, cls).None?)
    else (s, Proceed)
  }

  /** A capped read logs its no-fire decision only once it is complete. */
  function DeferredDebug(cfg: Config, force: bool, s: State, call: Call, cls: Classification, before: Before): State {
    if RowCap(cfg, cls).Some? && EvaluatesBefore(cfg, force, s.mood.mood, cls) && before == Proceed
    then LogDecision(cfg, s, DecisionFor(cfg, call, BeforeExecute), BEFORE_EXECUTE_PRIORITY)
    else s
  }

  function Cached(cfg: Config, s: State, call: Call, cls: Classification, result: LogicalResult): State {
    if cfg.Caching() && ScopedSelect(cfg, cls) && |result.rows| <= cfg.maxInterventionRows then
      var entry := StaleEntry(KeyFor(cfg, DecisionFor(cfg, call, OnResult)), call.occurrence, result);
      s.(cache := SC.Added(s.cache, entry, PER_FINGERPRINT, TOTAL_LIMIT))
    else s
  }

  /** The on-result phase: faults, then the cache, which keeps what the client receives. */
  function ResultPhase(cfg: Config, force: bool, s: State, call: Call, cls: Classification, slowed: bool,
                       result: LogicalResult): (State, Delivery)
  {
    var (s1, delivery) :=
      if Intervenes(cfg, force, s.mood.mood, cls, slowed, |result.rows|)
      then Faults.OnResult(cfg, s, DecisionFor(cfg, call, OnResult), cls, result)
      else (s, Delivered(result));
    (if delivery.Delivered? then Cached(cfg, s1, call, cls, delivery.result) else s1, delivery)
  }

  function Intervene(cfg: Config, force: bool, s: State, call: Call, cls: Classification, reply: Reply)
    : (State, Delivery)
  {
    var (s1, before) := BeforePhase(cfg, force, s, call, cls);
    if before.Refused? then (s1, Raised(Injected(before.fault, if s1.log == [] then "" else LastEventId(s1))))
    else
      match Fetch(reply, RowCap(cfg, cls))
      case BackendError => (s1, Raised(BackendFailure))
      case CapExceeded => RefuseResult(cfg, s1, call)
      case Fetched(result) =>
        ResultPhase(cfg, force, DeferredDebug(cfg, force, s1, call, cls, before), call, cls, before.Slowed?, result)
  }

  function CallFor(cfg: Config, s: State, op: Operation): Call
    requires op.Execute? && op.params.Positional?
  {
    var template := TemplateFingerprint(cfg.session.sha256, op.sql);
    Call(template, op.params.fingerprint, CountOf(s.occurrences, template) + 1)
  }

  function Begin(s: State, call: Call): State { s.(occurrences := Begun(s.occurrences, call.template)) }

  function ExecuteStep(cfg: Config, force: bool, s: State, op: Operation): (State, Delivery)
    requires op.Execute?
  {
    var s0 := BeginOperation(cfg, s);
    match PassthroughReason(op.params, op.cls)
    case Some(reason) => (s0, PassThrough(cfg, reason, op.reply))
    case None =>
      var call := CallFor(cfg, s0, op);
      Intervene(cfg, force, Begin(s0, call), call, op.cls, op.reply)
  }

  function Step(cfg: Config, force: bool, s: State, op: Operation): (State, Delivery) {
    match op
    case Execute(_, _, _, _) => ExecuteStep(cfg, force, s, op)
    case ExecuteMany(affected) =>
      (BeginOperation(cfg, s),
       if affected.Some? then Delivered(LogicalResult([], [], affected.value, None)) else Raised(BackendFailure))
    case ReturnTreasure(id) =>
      var found := H.Find(s.house.treasures, id);
      (GiveBack(cfg, Cancel(cfg, s, id), id, ManualReturn), HandedBack(if found.Some? then [found.value] else []))
    case ReturnAll =>
      var ts := s.house.treasures;
      (CancelAndLog(cfg, s.(house := H.AllReturned(s.house)), ts), HandedBack(ts))
  }

  // ----- Runs -----

  /** The state after a run from the start of the session. */
  function After(cfg: Config, force: bool, ops: seq<Operation>): State {
    if ops == [] then Init() else Step(cfg, force, After(cfg, force, ops[..|ops| - 1]), ops[|ops| - 1]).0
  }

  /** What the j-th operation of a run gave its caller. */
  function Answer(cfg: Config, force: bool, ops: seq<Operation>, j: nat): Delivery
    requires j < |ops|
  {
    Step(cfg, force, After(cfg, force, ops[..j]), ops[j]).1
  }
}
