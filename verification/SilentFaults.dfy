/** What a logged fault declares about the delivered result, and exactly when such a change is vacuous. */
module SilentFaults {
  import opened Models
  import opened Decisions
  import opened Faults
  import opened Transforms
  import opened Permutations
  import opened Adapters
  import H = House
  import AR = AutoReturn

  /** How the delivered result differs from the backend's, given the fault and the details it was logged with. */
  ghost predicate Declared(cfg: Config, fault: Fault, details: Details, before: LogicalResult, after: LogicalResult) {
    match (fault, details)
    case (STASH, StashDetails(rows, _)) =>
      |rows| == 1 && rows[0] < |before.rows| && after == WithRows(before, WithoutRow(before.rows, rows[0]))
    case (FALSE_EMPTY, NoDetails) => before.rows != [] && after == WithRows(before, [])
    case (TAIL_CHASE, TailDetails(delivered, truncated)) =>
      truncated > 0 && delivered + truncated == |before.rows| && after == WithRows(before, before.rows[..delivered])
    case (PAGE_HOLE, HoleDetails(removed)) =>
      0 < removed <= |before.rows| && after == WithRows(before, before.rows[removed..])
    case (ECHO, EchoDetails(row)) => row < |before.rows| && after == WithRows(before, Echoed(before.rows, row))
    case (SHUFFLE, NoDetails) =>
      && |before.rows| > 1 && multiset(after.rows) == multiset(before.rows) && after == WithRows(before, after.rows)
      && (after.rows == before.rows ==> before.rows[0] == before.rows[1])
    case (TANGLED_LEASH, LeashDetails(left, right)) =>
      right == left + 1 < |before.columns| && after == before.(columns := Swap(before.columns, left, right))
    case (CHEW, ChewDetails(row, column, profile)) =>
      && row < |before.rows| && column < |before.rows[row]| && OneCellChanged(before.rows, after.rows)
      && |after.rows[row]| == |before.rows[row]| && after.rows[row][column] != before.rows[row][column]
      && ChewValue(profile, before.rows[row][column]) == Some(after.rows[row][column])
      && after == before.(rows := after.rows)
    case (WRONG_COUNT, CountDetails(actual, reported)) =>
      && actual == |before.rows| && reported != actual && after == before.(rowcount := reported)
      && reported <= actual + cfg.policy.wrongCountMaxDelta && actual <= reported + cfg.policy.wrongCountMaxDelta
    case _ => false
  }

  /** A shuffle that moved no row, two equal labels, or a wrong count that happens to be the backend's. */
  predicate Vacuous(fault: Fault, details: Details, before: LogicalResult, after: LogicalResult) {
    match (fault, details)
    case (SHUFFLE, _) => after.rows == before.rows && before.rowcount == |before.rows|
    case (TANGLED_LEASH, LeashDetails(left, right)) =>
      left < |before.columns| && right < |before.columns| && before.columns[left] == before.columns[right]
    case (WRONG_COUNT, CountDetails(_, reported)) => reported == before.rowcount
    case _ => false
  }

  /** A declared change leaves the result as it was exactly when it is vacuous. */
  lemma DeclaredIsNotVacuous(cfg: Config, fault: Fault, details: Details, before: LogicalResult, after: LogicalResult)
    requires Declared(cfg, fault, details, before, after)
    ensures after == before <==> Vacuous(fault, details, before, after)
  {
    hide ChewValue, OneCellChanged;
  }

  /** Two equal labels were swapped, or a shuffle with equal rows in front moved no row. */
  predicate Unseen(fault: Fault, details: Details, before: LogicalResult, after: LogicalResult) {
    match (fault, details)
    case (SHUFFLE, _) => after.rows == before.rows && |before.rows| > 1 && before.rows[0] == before.rows[1]
    case (TANGLED_LEASH, LeashDetails(left, right)) =>
      left < |before.columns| && right < |before.columns| && before.columns[left] == before.columns[right]
    case _ => false
  }

  /** Where the backend's count is its number of rows, a declared change is vacuous exactly when it is unseen. */
  lemma CountedFaultsAreReal(cfg: Config, fault: Fault, details: Details, before: LogicalResult, after: LogicalResult)
    requires Declared(cfg, fault, details, before, after) && before.rowcount == |before.rows|
    ensures after == before <==> Unseen(fault, details, before, after)
  {
    hide ChewValue, OneCellChanged;
  }

  /** Where the backend gives a count without rows, the wrong count can be the backend's. */
  lemma VacuousCount(cfg: Config)
    ensures var result := LogicalResult([], [], 1, None);
            Fetch(NoRows(1), None) == Fetched.Fetched(result) &&
            Declared(cfg, WRONG_COUNT, CountDetails(0, Misreported(0, 0, 0, 1)), result, result)
  {
  }

  lemma InjectionDeclared(cfg: Config, d: Decision, fault: Fault, result: LogicalResult, chew: Option<Choice>,
                          history: seq<StaleEntry>)
    requires Applicable(fault, result, chew, history) && fault != STASH && fault != STASH_ERROR && fault != OLD_BONE
    ensures var injection := Inject(cfg, d, fault, result, chew, history);
            Declared(cfg, fault, injection.details, result, injection.result)
  {
    hide Derive, Draw, BigEndian, Corrupts, OneCellChanged, Reordered, Swaps, ShuffleDraws, Misreported;
    var n := |result.rows|;
    match fault {
      case SHUFFLE => ReorderedFacts(result.rows, Swaps(ShuffleDraws(cfg, d, n)));
      case CHEW => ChewDeclared(cfg, d, result, chew, history);
      case WRONG_COUNT =>
        var derived := Derive(cfg.session, d.context.key, Count);
        MisreportedIsOff(n, BigEndian(derived[1..9]), derived[0], cfg.policy.wrongCountMaxDelta);
      case _ =>
    }
  }

  lemma ChewDeclared(cfg: Config, d: Decision, result: LogicalResult, chew: Option<Choice>, history: seq<StaleEntry>)
    requires chew.Some? && Corrupts(chew.value.profile, result.rows, chew.value.cell)
    ensures var injection := Inject(cfg, d, CHEW, result, chew, history);
            Declared(cfg, CHEW, injection.details, result, injection.result)
  {
    ChewedChangesOneCell(result.rows, chew.value.profile, chew.value.cell);
  }

  lemma StashDeclared(cfg: Config, s: State, d: Decision, result: LogicalResult)
    requires result.rows != []
    ensures var (s', delivery) := Stash(cfg, s, d, result);
            s'.log != s.log && delivery.Delivered? ==>
              && s'.log[|s'.log| - 1].fault == Some(STASH)
              && s'.log == s.log + [s'.log[|s'.log| - 1]]
              && Declared(cfg, STASH, s'.log[|s'.log| - 1].details, result, delivery.result)
  {
    hide NextEventId, AR.Planned, AR.HoldFor, DeterministicId, Index, H.Vacant;
    var t := NewTreasure(cfg, s, d, result);
  }

  /** One event was logged, and if it is a fault other than OLD_BONE the result is what it declares. */
  ghost predicate LastIsDeclared(cfg: Config, s: State, s': State, before: LogicalResult, after: LogicalResult) {
    |s'.log| == |s.log| + 1 && s'.log[..|s.log|] == s.log &&
    var e := s'.log[|s.log|];
    e.eventType == FaultInjected ==>
      e.fault.Some? && (e.fault != Some(OLD_BONE) ==> Declared(cfg, e.fault.value, e.details, before, after))
  }

  /** Whenever a statement's result phase logs a fault other than OLD_BONE and still delivers a result,
      that result is what the fault declares. */
  lemma LoggedFaultsAreDeclared(cfg: Config, s: State, d: Decision, cls: Classification, result: LogicalResult)
    ensures var (s', delivery) := Faults.OnResult(cfg, s, d, cls, result);
            s'.log != s.log && delivery.Delivered? ==> LastIsDeclared(cfg, s, s', result, delivery.result)
  {
    hide Drops, Treated, H.ActiveFor, NextEventId, Visible, Declared;
    TreatedDeclared(cfg, s, d, cls, result);
  }

  lemma TreatedDeclared(cfg: Config, s: State, d: Decision, cls: Classification, result: LogicalResult)
    ensures var (s', delivery) := Treated(cfg, s, d, cls, result);
            s'.log != s.log && delivery.Delivered? ==> LastIsDeclared(cfg, s, s', result, delivery.result)
  {
    hide ChewFor, History, Candidates, Select, LogFault, LogDecision, Inject, Stash, LastIsDeclared;
    var released, s1 := d.context.template in s.house.released, s.(house := H.Consumed(s.house, d.context.template));
    var chew, history := ChewFor(cfg, d, result), History(cfg, s, d);
    var candidates := Candidates(cfg, released, cls, result, chew.Some?, history != []);
    match Select(cfg, s.mood.mood, d.context.key, ON_RESULT_PRIORITY, candidates) {
      case None =>
        DecisionDeclares(cfg, s1, d, candidates, result);
        SameStart(cfg, s, s1, LogDecision(cfg, s1, d, candidates), result, Delivered(result));
      case Some(fault) =>
        CandidateApplies(cfg, released, cls, result, chew, history, fault);
        if fault == STASH || fault == STASH_ERROR {
          StashDeclares(cfg, s1, d, result);
          SameStart(cfg, s, s1, Stash(cfg, s1, d, result).0, result, Stash(cfg, s1, d, result).1);
        } else {
          var injection := Inject(cfg, d, fault, result, chew, history);
          if fault != OLD_BONE {
            InjectionDeclared(cfg, d, fault, result, chew, history);
          }
          FaultDeclares(cfg, s, s1, d, fault, injection, result);
        }
    }
  }

  lemma DecisionDeclares(cfg: Config, s: State, d: Decision, candidates: seq<Fault>, result: LogicalResult)
    ensures var s' := LogDecision(cfg, s, d, candidates);
            s'.log != s.log ==> LastIsDeclared(cfg, s, s', result, result)
  {
    hide NextEventId, Declared;
  }

  lemma StashDeclares(cfg: Config, s: State, d: Decision, result: LogicalResult)
    requires result.rows != []
    ensures var (s', delivery) := Stash(cfg, s, d, result);
            s'.log != s.log && delivery.Delivered? ==> LastIsDeclared(cfg, s, s', result, delivery.result)
  {
    StashDeclared(cfg, s, d, result);
    hide Stash, Declared;
  }

  lemma SameStart(cfg: Config, s: State, s1: State, s': State, before: LogicalResult, delivery: Delivery)
    requires s1.log == s.log
    ensures delivery.Delivered? ==>
      LastIsDeclared(cfg, s, s', before, delivery.result) == LastIsDeclared(cfg, s1, s', before, delivery.result)
  {
    hide Declared;
  }

  lemma FaultDeclares(cfg: Config, s: State, s1: State, d: Decision, fault: Fault, injection: Injection,
                      before: LogicalResult)
    requires s1.log == s.log && (fault == OLD_BONE || Declared(cfg, fault, injection.details, before, injection.result))
    ensures LastIsDeclared(cfg, s, LogFault(cfg, s1, d, fault, injection.outcome, injection.details), before,
                           injection.result)
  {
    hide NextEventId, Declared;
  }

  /** Swapping two labels is vacuous exactly when they are the same label. */
  lemma SwappedLabels(columns: seq<string>, left: nat)
    requires left + 1 < |columns|
    ensures Relabelled(columns, left) == columns <==> columns[left] == columns[left + 1]
  {
    assert Relabelled(columns, left)[left] == columns[left + 1];
  }
}
