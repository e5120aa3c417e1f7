/** The values the session passes around: results, classifications, events, configuration. */
module Models {
  datatype Option<+T> = None | Some(value: T)

  // ----- Results -----

  /** `Opaque` stands for every cell value no corruption profile but "nullify" looks into. */
  datatype Value = Null | Text(text: string) | Decimal(amount: real) | Float(number: real) | Opaque(tag: int)

  type Row = seq<Value>

  datatype LogicalResult = LogicalResult(
    columns: seq<string>, rows: seq<Row>, rowcount: int, columnTypes: Option<seq<string>>)

  // ----- SQL classification -----

  datatype SqlKind = SELECT | OTHER | UNKNOWN

  datatype Classification = Classification(
    kind: SqlKind, hasOrderBy: Option<bool>, isTransaction: bool, tables: Option<set<string>>,
    limit: Option<nat>, offset: Option<nat>)

  // ----- Faults -----

  datatype Fault =
    | BARK | GUARD_BOWL | IGNORE | SLOTH
    | NO_DROP | STASH_ERROR | STASH | FALSE_EMPTY | TAIL_CHASE | PAGE_HOLE | ECHO | SHUFFLE
    | TANGLED_LEASH | CHEW | WRONG_COUNT | OLD_BONE

  const BEFORE_EXECUTE_PRIORITY := [BARK, GUARD_BOWL, IGNORE, SLOTH]
  const ON_RESULT_PRIORITY := [NO_DROP, STASH_ERROR, STASH, FALSE_EMPTY, TAIL_CHASE, PAGE_HOLE, ECHO, SHUFFLE,
                               TANGLED_LEASH, CHEW, WRONG_COUNT, OLD_BONE]

  /** The fault a candidate belongs to: the error form of STASH shares the weight of STASH. */
  function Base(fault: Fault): Fault {
    if fault == STASH_ERROR then STASH else fault
  }

  // ----- Decisions and events -----

  datatype Phase = BeforeExecute | OnResult | ManualReturn | AutoReturn

  /** The four event fields that identify a decision. */
  datatype Context = Context(template: string, parameter: string, occurrence: nat, key: string)

  datatype Decision = Decision(context: Context, phase: Phase)

  datatype EventType = FaultInjected | TreasureReturned | MoodChanged | LimitExceeded | DecisionEvaluated

  datatype Outcome =
    | NotExecuted | Delayed | ResponseLost | ReadPartial | RowsHidden | EmptyResult | RowsTruncated
    | PageHoleCut | RowsDuplicated | RowsReordered | ColumnLabelsSwapped | ValueCorrupted
    | RowcountMisreported | StaleRead | GivenBack | LimitError | FaultSkipped | NotInjected

  datatype Mood = CALM | SLEEPY | ZOOMY

  datatype ChewProfile = Utf8Truncate | PrecisionLoss | Nullify

  datatype Limit = MaxInterventionRows | MaxResultRows

  datatype Details =
    | NoDetails
    | DelayDetails(delayMs: nat)
    | StashDetails(rowIndices: seq<nat>, stashedId: string)
    | ReturnDetails(returnedId: string)
    | EchoDetails(rowIndex: nat)
    | TailDetails(delivered: nat, truncated: nat)
    | HoleDetails(removed: nat)
    | LeashDetails(left: nat, right: nat)
    | ChewDetails(chewedRow: nat, chewedColumn: nat, profile: ChewProfile)
    | CountDetails(actual: nat, reported: nat)
    | StaleDetails(staleOccurrence: nat)
    | MoodDetails(from: Mood, to: Mood, tick: nat)
    | LimitDetails(limit: Limit, configured: int, observed: Option<nat>)   // None: the fixed text "exceeded"
    | CandidateDetails(faults: seq<Fault>)

  datatype Event = Event(
    seqNo: nat, eventId: string, eventType: EventType, fault: Option<Fault>, phase: Option<Phase>,
    context: Option<Context>, outcome: Option<Outcome>, details: Details)

  // ----- The Dog House and the stale-read cache -----

  datatype Treasure = Treasure(treasureId: string, rowIndex: nat, row: Row, eventId: string, context: Context)

  type CacheKey = (string, Option<string>)

  datatype StaleEntry = StaleEntry(key: CacheKey, occurrence: nat, result: LogicalResult)

  // ----- Configuration -----

  type Positive = n: nat | n > 0 witness 1
  type Probability = p: real | 0.0 <= p <= 1.0 witness 0.0
  type Weight = w: real | 0.0 <= w witness 1.0

  datatype Policy = Policy(
    probabilities: map<Fault, Probability>, stashError: bool, tailChaseError: bool, maxRowsError: bool,
    chewProfiles: seq<ChewProfile>, wrongCountMaxDelta: Positive, slothMaxDelayMs: Positive)
  {
    /** A fault that was not configured has probability 0. */
    function Probability(fault: Fault): Probability {
      if Base(fault) in probabilities then probabilities[Base(fault)] else 0.0
    }
  }

  datatype MoodConfig = MoodConfig(epochLength: Positive, multipliers: map<Mood, map<Fault, Weight>>)

  datatype HoldRange = HoldRange(minOperations: Positive, maxOperations: Positive)
  type AutoReturnConfig = r: HoldRange | r.minOperations <= r.maxOperations witness HoldRange(1, 10)
}
