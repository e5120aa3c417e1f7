/** What a client receives over whole runs: the backend's result, unless a treasured row is hidden or an event of
    the same statement says how the result was changed. */
module Deliveries {
  import opened Models
  import opened Decisions
  import opened Adapters
  import opened Faults
  import opened Session
  import opened Transforms
  import opened Invariants
  import opened StepInvariants
  import opened SilentFaults
  import opened StaleReads
  import C = StashCycle
  import G = EventGrammar
  import H = House
  import AR = AutoReturn
  import SC = StaleCache

  // ----- One result phase -----

  /** The last event is new, belongs to the result phase, and tells how the result was changed. */
  ghost predicate ToldByEvent(cfg: Config, s: State, s': State, before: LogicalResult, after: LogicalResult) {
    |s'.log| > |s.log| && var e := s'.log[|s'.log| - 1];
    && e.eventType == FaultInjected && e.phase == Some(OnResult) && e.fault.Some?
    && (e.fault == Some(OLD_BONE) || Declared(cfg, e.fault.value, e.details, before, after))
  }

  /** The template's treasured rows are left out. */
  predicate Hides(s: State, template: string, before: LogicalResult, after: LogicalResult) {
    var sticky := H.ActiveFor(s.house.treasures, template);
    sticky != [] && after == WithRows(before, Visible(before.rows, HiddenRows(sticky), 0))
  }

  ghost predicate Explained(cfg: Config, s: State, s': State, template: string, before: LogicalResult, delivery: Delivery) {
    delivery.Delivered? ==>
      || delivery.result == before
      || Hides(s, template, before, delivery.result)
      || ToldByEvent(cfg, s, s', before, delivery.result)
  }

  lemma TreatedExplained(cfg: Config, s: State, d: Decision, cls: Classification, result: LogicalResult)
    requires d.phase == OnResult
    ensures var (s', delivery) := Treated(cfg, s, d, cls, result);
            delivery.Delivered? ==> delivery.result == result || ToldByEvent(cfg, s, s', result, delivery.result)
  {
    hide ChewFor, History, Candidates, Fires, LogFault, LogDecision, Inject, Stash, Declared, ToldByEvent;
    var s1 := s.(house := H.Consumed(s.house, d.context.template));
    var chew, history := ChewFor(cfg, d, result), History(cfg, s, d);
    var candidates := Candidates(cfg, d.context.template in s.house.released, cls, result, chew.Some?, history != []);
    match Select(cfg, s.mood.mood, d.context.key, ON_RESULT_PRIORITY, candidates) {
      case None =>
      case Some(fault) =>
        CandidateApplies(cfg, d.context.template in s.house.released, cls, result, chew, history, fault);
        if fault == STASH || fault == STASH_ERROR {
          StashTold(cfg, s1, d, result);
          ToldBefore(cfg, s, s1, Stash(cfg, s1, d, result).0, result, Stash(cfg, s1, d, result).1);
        } else {
          var injection := Inject(cfg, d, fault, result, chew, history);
          if fault != OLD_BONE {
            InjectionDeclared(cfg, d, fault, result, chew, history);
          }
          FaultTold(cfg, s, s1, d, fault, injection, result);
        }
    }
  }

  lemma ToldBefore(cfg: Config, s: State, s1: State, s': State, before: LogicalResult, delivery: Delivery)
    requires s1.log == s.log
    ensures delivery.Delivered? && ToldByEvent(cfg, s1, s', before, delivery.result) ==>
            ToldByEvent(cfg, s, s', before, delivery.result)
  {
    hide Declared;
  }

  lemma FaultTold(cfg: Config, s: State, s1: State, d: Decision, fault: Fault, injection: Injection, before: LogicalResult)
    requires s1.log == s.log && d.phase == OnResult
    requires fault == OLD_BONE || Declared(cfg, fault, injection.details, before, injection.result)
    ensures ToldByEvent(cfg, s, LogFault(cfg, s1, d, fault, injection.outcome, injection.details), before, injection.result)
  {
    hide Declared, NextEventId;
  }

  lemma StashTold(cfg: Config, s: State, d: Decision, result: LogicalResult)
    requires d.phase == OnResult && result.rows != []
    ensures var (s', delivery) := Stash(cfg, s, d, result);
            delivery.Delivered? ==> delivery.result == result || ToldByEvent(cfg, s, s', result, delivery.result)
  {
    StashDeclared(cfg, s, d, result);
    hide NextEventId, DeterministicId, Index, H.Vacant, Declared, Housed;
    var t := NewTreasure(cfg, s, d, result);
    HousedKeepsLog(cfg, s, t);
  }

  lemma HousedKeepsLog(cfg: Config, s: State, t: Treasure)
    ensures Housed(cfg, s, t).log == s.log
  {
    hide AR.HoldFor, AR.Planned;
  }

  lemma OnResultExplained(cfg: Config, s: State, d: Decision, cls: Classification, result: LogicalResult)
    requires d.phase == OnResult
    ensures var (s', delivery) := Faults.OnResult(cfg, s, d, cls, result);
            Explained(cfg, s, s', d.context.template, result, delivery)
  {
    hide Drops, H.ActiveFor, Visible, LogFault, LogLimit, Treated, ToldByEvent;
    TreatedExplained(cfg, s, d, cls, result);
  }

  lemma ResultPhaseExplained(cfg: Config, force: bool, s: State, call: Call, cls: Classification, slowed: bool,
                             result: LogicalResult)
    ensures var (s', delivery) := ResultPhase(cfg, force, s, call, cls, slowed, result);
            Explained(cfg, s, s', call.template, result, delivery)
  {
    hide Faults.OnResult, Intervenes, DecisionFor, Cached, Hides, ToldByEvent;
    var d := DecisionFor(cfg, call, OnResult);
    DecisionKeyLength(cfg, call, OnResult);
    PhaseOf(cfg, call, OnResult);
    OnResultExplained(cfg, s, d, cls, result);
    var (s1, delivery) := Faults.OnResult(cfg, s, d, cls, result);
    if delivery.Delivered? {
      CachedKeepsLog(cfg, s1, call, cls, delivery.result);
      ToldFrame(cfg, s, s1, Cached(cfg, s1, call, cls, delivery.result), result, delivery.result);
    }
  }

  lemma PhaseOf(cfg: Config, call: Call, phase: Phase)
    ensures DecisionFor(cfg, call, phase).phase == phase
  {
  }

  lemma ToldFrame(cfg: Config, s: State, s1: State, s': State, before: LogicalResult, after: LogicalResult)
    requires s'.log == s1.log
    ensures ToldByEvent(cfg, s, s1, before, after) ==> ToldByEvent(cfg, s, s', before, after)
  {
    hide Declared;
  }

  lemma CachedKeepsLog(cfg: Config, s: State, call: Call, cls: Classification, result: LogicalResult)
    ensures Cached(cfg, s, call, cls, result).log == s.log
  {
    hide SC.Added, KeyFor, DecisionFor;
  }

  // ----- Over whole runs -----

  /** The state in which the j-th operation meets its result, and how its before-execute phase ended. */
  function AtResult(cfg: Config, force: bool, ops: seq<Operation>, j: nat): (State, Before)
    requires j < |ops| && TakesPart(ops[j])
  {
    var call := CallAt(cfg, force, ops, j);
    var (s1, before) := BeforePhase(cfg, force, Begin(OpenedAt(cfg, force, ops, j), call), call, ops[j].cls);
    (DeferredDebug(cfg, force, s1, call, ops[j].cls, before), before)
  }

  /** The state once the j-th operation's returns and mood change are over. */
  function OpenedAt(cfg: Config, force: bool, ops: seq<Operation>, j: nat): State
    requires j < |ops|
  {
    BeginOperation(cfg, After(cfg, force, ops[..j]))
  }

  /** The j-th operation takes part, is not refused before execution, and reads this result. */
  predicate Reads(cfg: Config, force: bool, ops: seq<Operation>, j: nat, result: LogicalResult)
    requires j < |ops|
  {
    && TakesPart(ops[j]) && !AtResult(cfg, force, ops, j).1.Refused?
    && Fetch(ops[j].reply, RowCap(cfg, ops[j].cls)) == Fetched.Fetched(result)
  }

  lemma QuietBefore(cfg: Config, force: bool, s: State, call: Call, cls: Classification)
    ensures var (s1, before) := BeforePhase(cfg, force, s, call, cls);
            var s2 := DeferredDebug(cfg, force, s1, call, cls, before);
            s2 == s.(log := s2.log) && s.log <= s2.log && NothingOnResult(s, s2)
  {
    hide NextEventId, BeforeFault, DecisionText, EvaluatesBefore, Draw;
  }

  /** No event of the result phase was added. */
  predicate NothingOnResult(s: State, s': State) {
    forall i | |s.log| <= i < |s'.log| :: s'.log[i].phase != Some(OnResult)
  }

  /** A read ends with its result phase, begun in the house and mood in which the statement opened. */
  lemma ReadEnds(cfg: Config, force: bool, ops: seq<Operation>, j: nat, result: LogicalResult)
    requires j < |ops| && Reads(cfg, force, ops, j, result)
    ensures var s0 := OpenedAt(cfg, force, ops, j);
            var (s2, before) := AtResult(cfg, force, ops, j);
            && (After(cfg, force, ops[..j + 1]), Answer(cfg, force, ops, j)) ==
               ResultPhase(cfg, force, s2, CallAt(cfg, force, ops, j), ops[j].cls, before.Slowed?, result)
            && s2.house == s0.house && s2.mood == s0.mood && s0.log <= s2.log && NothingOnResult(s0, s2)
  {
    hide After, BeginOperation, CallFor, BeforePhase, DeferredDebug, ResultPhase, Fetch, RowCap;
    C.AfterNext(cfg, force, ops, j);
    var s0, call := OpenedAt(cfg, force, ops, j), CallAt(cfg, force, ops, j);
    QuietBefore(cfg, force, Begin(s0, call), call, ops[j].cls);
  }

  /** What hiding one treasured row leaves of a result; a result too short to have the row keeps its rows. */
  function Without(result: LogicalResult, t: Treasure): LogicalResult {
    WithRows(result, if t.rowIndex < |result.rows| then WithoutRow(result.rows, t.rowIndex) else result.rows)
  }

  lemma HidesOne(cfg: Config, s: State, template: string, before: LogicalResult, after: LogicalResult)
    requires OnePerTemplate(s.house.treasures) && Hides(s, template, before, after)
    ensures exists t :: t in s.house.treasures && t.context.template == template && after == Without(before, t)
  {
    var sticky := H.ActiveFor(s.house.treasures, template);
    H.ActiveMembers(s.house.treasures, template);
    var t := sticky[0];
    assert t in sticky;
    C.TheOne(s.house.treasures, t);
    assert HiddenRows([t]) == {t.rowIndex};
    HidingOneRow(before.rows, t.rowIndex);
  }

  lemma HouseIsSingle(cfg: Config, force: bool, ops: seq<Operation>, j: nat)
    requires j < |ops|
    ensures OnePerTemplate(OpenedAt(cfg, force, ops, j).house.treasures)
  {
    hide After, BeginOperation;
    Reachable(cfg, force, ops[..j]);
    BeginKeeps(cfg, After(cfg, force, ops[..j]));
  }

  /** In every run a read delivers the backend's result, or that result without the row treasured for its
      template, or a result that the last event of the same statement accounts for. */
  lemma DeliveriesAreExplained(cfg: Config, force: bool, ops: seq<Operation>, j: nat, result: LogicalResult,
                               after: LogicalResult)
    requires j < |ops| && Reads(cfg, force, ops, j, result) && Answer(cfg, force, ops, j) == Delivered(after)
    ensures var s0 := OpenedAt(cfg, force, ops, j);
            || after == result
            || (exists t :: t in s0.house.treasures && t.context.template == CallAt(cfg, force, ops, j).template
                            && after == Without(result, t))
            || ToldByEvent(cfg, s0, After(cfg, force, ops[..j + 1]), result, after)
  {
    hide After, Answer, OpenedAt, CallAt, AtResult, ResultPhase, OnePerTemplate, Hides, ToldByEvent, Without;
    ReadEnds(cfg, force, ops, j, result);
    var s0, call := OpenedAt(cfg, force, ops, j), CallAt(cfg, force, ops, j);
    var (s2, before) := AtResult(cfg, force, ops, j);
    ResultPhaseExplained(cfg, force, s2, call, ops[j].cls, before.Slowed?, result);
    if Hides(s2, call.template, result, after) {
      HouseIsSingle(cfg, force, ops, j);
      HidesOne(cfg, s2, call.template, result, after);
    } else if after != result {
      ToldEarlier(cfg, s0, s2, After(cfg, force, ops[..j + 1]), result, after);
    }
  }

  /** The last event is new and is a fault of the result phase. */
  predicate FaultLogged(s: State, s': State) {
    |s'.log| > |s.log| && var e := s'.log[|s'.log| - 1];
    e.eventType == FaultInjected && e.phase == Some(OnResult)
  }

  /** Unless the last event is a stale read, the result is as before exactly when that event's change is unseen. */
  predicate SeenUnless(s: State, before: LogicalResult, after: LogicalResult) {
    s.log != [] && var e := s.log[|s.log| - 1];
    e.fault.Some? && e.fault != Some(OLD_BONE) ==> (after == before <==> Unseen(e.fault.value, e.details, before, after))
  }

  lemma LoggedIsTold(cfg: Config, force: bool, s: State, call: Call, cls: Classification, slowed: bool,
                     result: LogicalResult)
    ensures var (s', delivery) := ResultPhase(cfg, force, s, call, cls, slowed, result);
            FaultLogged(s, s') && delivery.Delivered? ==> ToldByEvent(cfg, s, s', result, delivery.result)
  {
    hide Faults.OnResult, Intervenes, DecisionFor, Cached, Declared;
    var d := DecisionFor(cfg, call, OnResult);
    LoggedFaultsAreDeclared(cfg, s, d, cls, result);
    var (s1, delivery) := Faults.OnResult(cfg, s, d, cls, result);
    if delivery.Delivered? {
      CachedKeepsLog(cfg, s1, call, cls, delivery.result);
    }
    CachedKeepsLog(cfg, s, call, cls, result);
  }

  /** In every run, if a read logs a fault of its result phase and still delivers, the delivery is what the event
      declares. If the backend answered with rows and the fault is not a stale read, the delivery is the backend's result
      exactly when two equal labels were swapped or a shuffle with equal rows in front moved no row. */
  lemma LoggedFaultsAreReal(cfg: Config, force: bool, ops: seq<Operation>, j: nat, result: LogicalResult,
                            after: LogicalResult)
    requires j < |ops| && Reads(cfg, force, ops, j, result) && Answer(cfg, force, ops, j) == Delivered(after)
    requires FaultLogged(OpenedAt(cfg, force, ops, j), After(cfg, force, ops[..j + 1]))
    ensures var s' := After(cfg, force, ops[..j + 1]);
            && ToldByEvent(cfg, OpenedAt(cfg, force, ops, j), s', result, after)
            && (ops[j].reply.Answers? ==> SeenUnless(s', result, after))
  {
    hide SeenUnless, After, Answer, OpenedAt, CallAt, AtResult, ResultPhase, Declared;
    ReadEnds(cfg, force, ops, j, result);
    var s0, call := OpenedAt(cfg, force, ops, j), CallAt(cfg, force, ops, j);
    var (s2, before) := AtResult(cfg, force, ops, j);
    LoggedIsTold(cfg, force, s2, call, ops[j].cls, before.Slowed?, result);
    var s' := After(cfg, force, ops[..j + 1]);
    LogKeptByResult(cfg, force, s2, call, ops[j].cls, before.Slowed?, result);
    ToldEarlier(cfg, s0, s2, s', result, after);
    if ops[j].reply.Answers? {
      AnswersAreCounted(ops[j].reply, RowCap(cfg, ops[j].cls), result);
      ToldIsSeen(cfg, s0, s', result, after);
    }
  }

  lemma AnswersAreCounted(reply: Reply, rowCap: Option<nat>, result: LogicalResult)
    requires reply.Answers? && Fetch(reply, rowCap) == Fetched.Fetched(result)
    ensures result.rowcount == |result.rows|
  {
  }

  lemma ToldIsSeen(cfg: Config, s: State, s': State, before: LogicalResult, after: LogicalResult)
    requires ToldByEvent(cfg, s, s', before, after) && before.rowcount == |before.rows|
    ensures SeenUnless(s', before, after)
  {
    var e := s'.log[|s'.log| - 1];
    hide Declared, Unseen;
    if e.fault != Some(OLD_BONE) {
      CountedFaultsAreReal(cfg, e.fault.value, e.details, before, after);
    }
  }

  lemma LogKeptByResult(cfg: Config, force: bool, s: State, call: Call, cls: Classification, slowed: bool,
                        result: LogicalResult)
    ensures s.log <= ResultPhase(cfg, force, s, call, cls, slowed, result).0.log
  {
    G.IntervenedEvents(cfg, force, s, call, cls, slowed, result);
  }

  lemma ToldEarlier(cfg: Config, s: State, s1: State, s': State, before: LogicalResult, after: LogicalResult)
    requires s.log <= s1.log && ToldByEvent(cfg, s1, s', before, after)
    ensures ToldByEvent(cfg, s, s', before, after)
  {
    hide Declared;
  }

  /** In every run a row treasured for a read's template, and answered again by the backend, is left out if and only
      if the result phase runs, the result is not too large to intervene in, and the response is not dropped. */
  lemma TreasuredRowsStayHidden(cfg: Config, force: bool, ops: seq<Operation>, j: nat, result: LogicalResult, t: Treasure)
    requires j < |ops| && Reads(cfg, force, ops, j, result) && t in OpenedAt(cfg, force, ops, j).house.treasures
    requires t.context.template == CallAt(cfg, force, ops, j).template && t.rowIndex < |result.rows|
    ensures var s0 := OpenedAt(cfg, force, ops, j);
            var slowed := AtResult(cfg, force, ops, j).1.Slowed?;
            (Answer(cfg, force, ops, j) == Delivered(Without(result, t)) <==>
               && Intervenes(cfg, force, s0.mood.mood, ops[j].cls, slowed, |result.rows|)
               && |result.rows| <= cfg.maxInterventionRows
               && !Drops(cfg, s0, DecisionFor(cfg, CallAt(cfg, force, ops, j), OnResult)))
  {
    hide After, Answer, OpenedAt, CallAt, AtResult, ResultPhase, OnePerTemplate, Intervenes, Drops, DecisionFor;
    ReadEnds(cfg, force, ops, j, result);
    HouseIsSingle(cfg, force, ops, j);
    var s0, call := OpenedAt(cfg, force, ops, j), CallAt(cfg, force, ops, j);
    var (s2, before) := AtResult(cfg, force, ops, j);
    C.StaysHidden(cfg, force, s2, call, ops[j].cls, before.Slowed?, result, t);
    SameDrops(cfg, s0, s2, DecisionFor(cfg, call, OnResult));
  }

  /** In every run a row treasured for a read's template, and answered again by the backend, reaches the client again,
      with the backend's whole result, if and only if the result phase does not run or the result is too large to
      intervene in and that is no error. In all other cases the client gets the result without the row, or an error. */
  lemma TreasuredRowsReappear(cfg: Config, force: bool, ops: seq<Operation>, j: nat, result: LogicalResult, t: Treasure)
    requires j < |ops| && Reads(cfg, force, ops, j, result) && t in OpenedAt(cfg, force, ops, j).house.treasures
    requires t.context.template == CallAt(cfg, force, ops, j).template && t.rowIndex < |result.rows|
    ensures var s0, answer := OpenedAt(cfg, force, ops, j), Answer(cfg, force, ops, j);
            var slowed := AtResult(cfg, force, ops, j).1.Slowed?;
            && (answer == Delivered(result) <==>
                  || !Intervenes(cfg, force, s0.mood.mood, ops[j].cls, slowed, |result.rows|)
                  || (|result.rows| > cfg.maxInterventionRows && !cfg.policy.maxRowsError))
            && (answer == Delivered(result) || answer == Delivered(Without(result, t)) || answer.Raised?)
  {
    hide After, Answer, OpenedAt, CallAt, AtResult, ResultPhase, OnePerTemplate, Intervenes;
    ReadEnds(cfg, force, ops, j, result);
    HouseIsSingle(cfg, force, ops, j);
    var (s2, before) := AtResult(cfg, force, ops, j);
    C.Reappears(cfg, force, s2, CallAt(cfg, force, ops, j), ops[j].cls, before.Slowed?, result, t);
  }

  lemma SameDrops(cfg: Config, s: State, s': State, d: Decision)
    requires s'.mood == s.mood
    ensures Drops(cfg, s, d) == Drops(cfg, s', d)
  {
    hide Select;
  }
}
