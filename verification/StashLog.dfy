/** The stash cycle as the log tells it: which operations log a STASH event of a template, which spend its release,
    and what lies between two STASH events of one template. */
module StashLog {
  import opened Models
  import opened Decisions
  import opened Adapters
  import opened Faults
  import opened Session
  import opened Invariants
  import opened StepInvariants
  import opened HouseMoves
  import opened StashCycle
  import opened StaleReads
  import opened Deliveries
  import G = EventGrammar
  import H = House
  import AR = AutoReturn
  import SC = StaleCache

  // ----- STASH events -----

  predicate IsStash(e: Event, template: string) {
    e.eventType == FaultInjected && e.fault == Some(STASH) && e.context.Some? && e.context.value.template == template
  }

  predicate IsReturn(e: Event, template: string) {
    e.eventType == TreasureReturned && e.context.Some? && e.context.value.template == template
  }

  /** A STASH event of the template was added to the log. */
  predicate StashLogged(s: State, s': State, template: string) {
    exists i | |s.log| <= i < |s'.log| :: IsStash(s'.log[i], template)
  }

  /** The log grew by a STASH event of the template exactly when the house got its treasure. */
  predicate InStep(s: State, s': State, template: string) {
    && s.log <= s'.log
    && (StashLogged(s, s', template) <==> !Active(s, template) && Active(s', template))
  }

  lemma StashInStep(cfg: Config, s: State, d: Decision, result: LogicalResult, template: string)
    requires result.rows != [] && H.ActiveFor(s.house.treasures, d.context.template) == []
    ensures InStep(s, Stash(cfg, s, d, result).0, template)
  {
    hide NextEventId, AR.Planned, AR.HoldFor, DeterministicId, Index, H.Vacant, H.ActiveFor;
    ActiveForEmpty(s.house.treasures, d.context.template);
    var s' := Stash(cfg, s, d, result).0;
    var t := NewTreasure(cfg, s, d, result);
    if H.Admits(s.house, t, cfg.houseLimit) {
      assert H.Templates(s.house.treasures + [t]) == H.Templates(s.house.treasures) + {d.context.template};
      assert s'.log[|s.log|].fault == Some(STASH);
    }
  }

  lemma QuietInStep(s: State, s': State, template: string)
    requires s.log <= s'.log && s'.house.treasures == s.house.treasures
    requires forall i | |s.log| <= i < |s'.log| :: s'.log[i].fault != Some(STASH)
    ensures InStep(s, s', template)
  {
  }

  lemma InStepFrame(s: State, s1: State, s2: State, s': State, template: string)
    requires s.log == s1.log && s.house.treasures == s1.house.treasures && InStep(s1, s2, template)
    requires s'.log == s2.log && s'.house.treasures == s2.house.treasures
    ensures InStep(s, s', template)
  {
  }

  lemma QuietThen(s: State, s1: State, s': State, template: string)
    requires s.log <= s1.log && s1.house.treasures == s.house.treasures && !StashLogged(s, s1, template)
    requires InStep(s1, s', template)
    ensures InStep(s, s', template)
  {
    if StashLogged(s, s', template) {
      var i :| |s.log| <= i < |s'.log| && IsStash(s'.log[i], template);
      assert i < |s1.log| ==> s'.log[i] == s1.log[i];
    }
  }

  lemma TreatedInStep(cfg: Config, s: State, d: Decision, cls: Classification, result: LogicalResult, template: string)
    requires H.ActiveFor(s.house.treasures, d.context.template) == []
    ensures InStep(s, Treated(cfg, s, d, cls, result).0, template)
  {
    hide LogFault, LogDecision, ChewFor, History, Candidates, Fires, Stash, Inject, Select, InStep, H.ActiveFor;
    var released, s1 := d.context.template in s.house.released, s.(house := H.Consumed(s.house, d.context.template));
    var chew, history := ChewFor(cfg, d, result), History(cfg, s, d);
    var candidates := Candidates(cfg, released, cls, result, chew.Some?, history != []);
    match Select(cfg, s.mood.mood, d.context.key, ON_RESULT_PRIORITY, candidates) {
      case None =>
        DecisionIsQuiet(cfg, s1, d, candidates, template);
        InStepFrame(s, s1, LogDecision(cfg, s1, d, candidates), LogDecision(cfg, s1, d, candidates), template);
      case Some(fault) =>
        CandidateApplies(cfg, released, cls, result, chew, history, fault);
        if fault == STASH || fault == STASH_ERROR {
          StashInStep(cfg, s1, d, result, template);
          InStepFrame(s, s1, Stash(cfg, s1, d, result).0, Stash(cfg, s1, d, result).0, template);
        } else {
          var injection := Inject(cfg, d, fault, result, chew, history);
          FaultIsQuiet(cfg, s1, d, fault, injection.outcome, injection.details, template);
          var s2 := LogFault(cfg, s1, d, fault, injection.outcome, injection.details);
          InStepFrame(s, s1, s2, s2, template);
        }
    }
  }

  lemma FaultIsQuiet(cfg: Config, s: State, d: Decision, fault: Fault, outcome: Outcome, details: Details,
                     template: string)
    requires fault != STASH
    ensures InStep(s, LogFault(cfg, s, d, fault, outcome, details), template)
  {
    hide NextEventId, InStep;
    QuietInStep(s, LogFault(cfg, s, d, fault, outcome, details), template);
  }

  lemma DecisionIsQuiet(cfg: Config, s: State, d: Decision, candidates: seq<Fault>, template: string)
    ensures InStep(s, LogDecision(cfg, s, d, candidates), template)
  {
    hide NextEventId, InStep;
    QuietInStep(s, LogDecision(cfg, s, d, candidates), template);
  }

  lemma LimitIsQuiet(cfg: Config, s: State, d: Decision, outcome: Outcome, details: Details, template: string)
    ensures InStep(s, LogLimit(cfg, s, d, outcome, details), template)
  {
    hide NextEventId, InStep;
    QuietInStep(s, LogLimit(cfg, s, d, outcome, details), template);
  }

  lemma OnResultInStep(cfg: Config, s: State, d: Decision, cls: Classification, result: LogicalResult, template: string)
    ensures InStep(s, Faults.OnResult(cfg, s, d, cls, result).0, template)
  {
    hide Drops, LogFault, LogLimit, Treated, H.ActiveFor, InStep;
    QuietInStep(s, s, template);
    if cls.kind == SELECT {
      if |result.rows| > cfg.maxInterventionRows {
        LimitIsQuiet(cfg, s, d, if cfg.policy.maxRowsError then LimitError else FaultSkipped,
                     LimitDetails(MaxInterventionRows, cfg.maxInterventionRows, Some(|result.rows|)), template);
      } else if Drops(cfg, s, d) {
        FaultIsQuiet(cfg, s, d, NO_DROP, ResponseLost, NoDetails, template);
      } else if H.ActiveFor(s.house.treasures, d.context.template) == [] {
        TreatedInStep(cfg, s, d, cls, result, template);
      }
    }
  }

  lemma ResultPhaseInStep(cfg: Config, force: bool, s: State, call: Call, cls: Classification, slowed: bool,
                          result: LogicalResult, template: string)
    ensures InStep(s, ResultPhase(cfg, force, s, call, cls, slowed, result).0, template)
  {
    hide Faults.OnResult, Intervenes, DecisionFor, KeyFor, SC.Added, InStep;
    QuietInStep(s, s, template);
    OnResultInStep(cfg, s, DecisionFor(cfg, call, OnResult), cls, result, template);
    var s1 := Faults.OnResult(cfg, s, DecisionFor(cfg, call, OnResult), cls, result).0;
    var s' := ResultPhase(cfg, force, s, call, cls, slowed, result).0;
    if s'.log == s1.log && s'.house == s1.house {
      InStepFrame(s, s, s1, s', template);
    } else {
      InStepFrame(s, s, s, s', template);
    }
  }

  lemma BeforeIsQuiet(cfg: Config, force: bool, s: State, call: Call, cls: Classification, template: string)
    ensures var (s1, before) := BeforePhase(cfg, force, s, call, cls);
            var s2 := DeferredDebug(cfg, force, s1, call, cls, before);
            && s.log <= s1.log <= s2.log && s1.house == s.house && s2.house == s.house
            && InStep(s, s1, template) && !StashLogged(s, s2, template)
  {
    hide NextEventId, Fires, DecisionFor, EvaluatesBefore, Draw;
  }

  lemma InterveneInStep(cfg: Config, force: bool, s: State, call: Call, cls: Classification, reply: Reply,
                        template: string)
    ensures InStep(s, Intervene(cfg, force, s, call, cls, reply).0, template)
  {
    hide BeforePhase, DeferredDebug, ResultPhase, LogLimit, DecisionFor, Fetch, InStep, StashLogged;
    BeforeIsQuiet(cfg, force, s, call, cls, template);
    var (s1, before) := BeforePhase(cfg, force, s, call, cls);
    if !before.Refused? {
      match Fetch(reply, RowCap(cfg, cls)) {
        case BackendError =>
        case CapExceeded =>
          var details := LimitDetails(MaxResultRows, if cfg.maxResultRows.Some? then cfg.maxResultRows.value else 0, None);
          LimitIsQuiet(cfg, s1, DecisionFor(cfg, call, OnResult), LimitError, details, template);
          NotMoved(s, s1, template);
          QuietThen(s, s1, LogLimit(cfg, s1, DecisionFor(cfg, call, OnResult), LimitError, details), template);
        case Fetched(result) =>
          var s2 := DeferredDebug(cfg, force, s1, call, cls, before);
          ResultPhaseInStep(cfg, force, s2, call, cls, before.Slowed?, result, template);
          QuietThen(s, s2, ResultPhase(cfg, force, s2, call, cls, before.Slowed?, result).0, template);
      }
    }
  }

  lemma NotMoved(s: State, s': State, template: string)
    requires InStep(s, s', template) && s'.house.treasures == s.house.treasures
    ensures !StashLogged(s, s', template)
  {
  }

  // ----- One operation -----

  /** The log grew without a fault. */
  predicate NoFaults(s: State, s': State) {
    s.log <= s'.log && forall i | |s.log| <= i < |s'.log| :: s'.log[i].eventType != FaultInjected
  }

  lemma OpeningIsFaultless(cfg: Config, s: State)
    ensures NoFaults(s, BeginOperation(cfg, s))
  {
    hide BeginOperation;
    G.OpeningGrammar(cfg, s);
    var s' := BeginOperation(cfg, s);
    var es := s'.log[|s.log|..];
    var n :| G.ReturnsThenMood(es, n);
    forall i | |s.log| <= i < |s'.log| ensures s'.log[i].eventType != FaultInjected {
      assert s'.log[i] == es[i - |s.log|];
    }
  }

  lemma GiveBackIsFaultless(cfg: Config, s: State, id: string, phase: Phase)
    ensures NoFaults(s, GiveBack(cfg, s, id, phase))
  {
    hide NextEventId;
  }

  lemma {:induction false} CancelAndLogIsFaultless(cfg: Config, s: State, all: seq<Treasure>, k: nat)
    requires k <= |all|
    ensures NoFaults(s, CancelAndLog(cfg, s, all[..k]))
  {
    hide CancelAndLog, NextEventId;
    if k == 0 {
      CancelAndLogNone(cfg, s, all);
    } else {
      CancelAndLogIsFaultless(cfg, s, all, k - 1);
      CancelAndLogStep(cfg, s, all, k);
    }
  }

  /** An operation opens without faults, and logs a STASH event exactly when it puts a treasure in the house. */
  lemma StepInStep(cfg: Config, force: bool, s: State, op: Operation, template: string)
    requires Inv(cfg, s)
    ensures var s0 := Opened(cfg, s, op);
            NoFaults(s, s0) && InStep(s0, Step(cfg, force, s, op).0, template)
  {
    hide Inv, BeginOperation, Intervene, CallFor, GiveBack, CancelAndLog, NoFaults, InStep, Returns, Treats;
    var s0, s' := Opened(cfg, s, op), Step(cfg, force, s, op).0;
    match op {
      case Execute(_, _, _, _) =>
        OpeningIsFaultless(cfg, s);
        QuietInStep(s0, s0, template);
        if PassthroughReason(op.params, op.cls) == None {
          var call := CallFor(cfg, s0, op);
          InterveneInStep(cfg, force, Begin(s0, call), call, op.cls, op.reply, template);
          InStepFrame(s0, Begin(s0, call), s', s', template);
        }
      case ExecuteMany(_) =>
        OpeningIsFaultless(cfg, s);
        QuietInStep(s0, s0, template);
      case ReturnTreasure(id) =>
        StepMoves(cfg, force, s, op, template);
        GiveBackIsFaultless(cfg, Cancel(cfg, s, id), id, ManualReturn);
        FaultlessInStep(s, s', template);
        NothingAdded(s);
      case ReturnAll =>
        StepMoves(cfg, force, s, op, template);
        var emptied := s.(house := H.AllReturned(s.house));
        CancelAndLogIsFaultless(cfg, emptied, s.house.treasures, |s.house.treasures|);
        assert s.house.treasures[..|s.house.treasures|] == s.house.treasures;
        FaultlessInStep(s, s', template);
        NothingAdded(s);
    }
  }

  lemma NothingAdded(s: State)
    ensures NoFaults(s, s)
  {
  }

  lemma FaultlessInStep(s: State, s': State, template: string)
    requires Returns(s, s', template) && exists s1: State :: s1.log == s.log && NoFaults(s1, s')
    ensures InStep(s, s', template)
  {
  }

  // ----- Operations of a run -----

  /** The j-th operation of a run logs a STASH event of the template if and only if it puts its treasure in the house. */
  lemma StashEventsAreStashes(cfg: Config, force: bool, ops: seq<Operation>, j: nat, template: string)
    requires j < |ops|
    ensures StashLogged(After(cfg, force, ops[..j]), After(cfg, force, ops[..j + 1]), template) <==>
            StashesAt(cfg, force, ops, j, template)
  {
    hide Inv, Step, After, Opened, Active;
    Reachable(cfg, force, ops[..j]);
    AfterNext(cfg, force, ops, j);
    var s, s' := After(cfg, force, ops[..j]), After(cfg, force, ops[..j + 1]);
    var s0 := Opened(cfg, s, ops[j]);
    StepInStep(cfg, force, s, ops[j], template);
  }

  /** A result phase of the template that reaches the choice among faults: it runs, the result is not too large,
      the response is not dropped. */
  predicate Evaluates(cfg: Config, force: bool, ops: seq<Operation>, j: nat, result: LogicalResult)
    requires j < |ops|
  {
    && Reads(cfg, force, ops, j, result)
    && var s0 := OpenedAt(cfg, force, ops, j);
       && Intervenes(cfg, force, s0.mood.mood, ops[j].cls, AtResult(cfg, force, ops, j).1.Slowed?, |result.rows|)
       && |result.rows| <= cfg.maxInterventionRows
       && !Drops(cfg, s0, DecisionFor(cfg, CallAt(cfg, force, ops, j), OnResult))
  }

  /** The j-th operation is a statement of the template that evaluates a result. */
  predicate EvaluatesFor(cfg: Config, force: bool, ops: seq<Operation>, j: nat, template: string)
    requires j < |ops|
  {
    && TakesPart(ops[j]) && CallAt(cfg, force, ops, j).template == template
    && Fetch(ops[j].reply, RowCap(cfg, ops[j].cls)).Fetched?
    && Evaluates(cfg, force, ops, j, Fetch(ops[j].reply, RowCap(cfg, ops[j].cls)).result)
  }

  lemma TreatedSpends(cfg: Config, s: State, d: Decision, cls: Classification, result: LogicalResult)
    requires d.context.template in s.house.released
    ensures Treated(cfg, s, d, cls, result).0.house == H.Consumed(s.house, d.context.template)
  {
    hide ChewFor, History, Fires, NextEventId, Inject, Stash, Select;
    var chew, history := ChewFor(cfg, d, result), History(cfg, s, d);
    var candidates := Candidates(cfg, true, cls, result, chew.Some?, history != []);
    match Select(cfg, s.mood.mood, d.context.key, ON_RESULT_PRIORITY, candidates) {
      case None =>
      case Some(fault) => CandidateApplies(cfg, true, cls, result, chew, history, fault);
    }
  }

  /** A result phase spends a release exactly when it is its own template's and the phase gets that far. */
  lemma ResultSpends(cfg: Config, force: bool, s: State, call: Call, cls: Classification, slowed: bool,
                     result: LogicalResult, template: string)
    requires Released(s, template) && !Active(s, template)
    ensures var s' := ResultPhase(cfg, force, s, call, cls, slowed, result).0;
            (!Released(s', template) && !Active(s', template) <==>
               && template == call.template
               && Intervenes(cfg, force, s.mood.mood, cls, slowed, |result.rows|)
               && |result.rows| <= cfg.maxInterventionRows && !Drops(cfg, s, DecisionFor(cfg, call, OnResult)))
  {
    hide Drops, LogLimit, LogFault, Treated, DecisionFor, HasEffectiveWeight, Cached, H.ActiveFor;
    var d := DecisionFor(cfg, call, OnResult);
    DecisionKeyLength(cfg, call, OnResult);
    ActiveForEmpty(s.house.treasures, call.template);
    CachedHouse(cfg, s, call, cls, result);
    var (s1, delivery) := Faults.OnResult(cfg, s, d, cls, result);
    if delivery.Delivered? {
      CachedHouse(cfg, s1, call, cls, delivery.result);
    }
    OnResultMovesOwn(cfg, s, d, cls, result, template);
    HousesAfterLogs(cfg, s, d, cls, result);
    if template == call.template {
      TreatedSpends(cfg, s, d, cls, result);
    }
  }

  lemma CachedHouse(cfg: Config, s: State, call: Call, cls: Classification, result: LogicalResult)
    ensures Cached(cfg, s, call, cls, result).house == s.house
  {
    hide SC.Added, KeyFor, DecisionFor;
  }

  lemma OnResultMovesOwn(cfg: Config, s: State, d: Decision, cls: Classification, result: LogicalResult,
                         template: string)
    ensures d.context.template != template && Released(s, template) ==>
              Released(s.(house := Faults.OnResult(cfg, s, d, cls, result).0.house), template)
  {
    hide Faults.OnResult, Admission;
    OnResultMoves(cfg, s, d, cls, result);
  }

  lemma HousesAfterLogs(cfg: Config, s: State, d: Decision, cls: Classification, result: LogicalResult)
    ensures forall outcome, details :: LogFault(cfg, s, d, NO_DROP, outcome, details).house == s.house
    ensures forall outcome, details :: LogLimit(cfg, s, d, outcome, details).house == s.house
  {
    hide NextEventId;
  }

  lemma UnreadKeepsHouse(cfg: Config, force: bool, s: State, call: Call, cls: Classification, reply: Reply)
    requires BeforePhase(cfg, force, s, call, cls).1.Refused? || !Fetch(reply, RowCap(cfg, cls)).Fetched?
    ensures Intervene(cfg, force, s, call, cls, reply).0.house == s.house
  {
    hide BeforePhase, DeferredDebug, ResultPhase, NextEventId, DecisionFor, Fetch;
    BeforeIsQuiet(cfg, force, s, call, cls, call.template);
  }

  /** A statement that takes part but reads no result spends nothing. */
  lemma UnreadSpendsNothing(cfg: Config, force: bool, ops: seq<Operation>, k: nat, template: string)
    requires k < |ops| && TakesPart(ops[k])
    requires AtResult(cfg, force, ops, k).1.Refused? || !Fetch(ops[k].reply, RowCap(cfg, ops[k].cls)).Fetched?
    ensures !SpendsAt(cfg, force, ops, k, template)
  {
    hide After, BeginOperation, CallFor, BeforePhase, Intervene, Fetch, RowCap;
    AfterNext(cfg, force, ops, k);
    var s0, call := OpenedAt(cfg, force, ops, k), CallAt(cfg, force, ops, k);
    UnreadKeepsHouse(cfg, force, Begin(s0, call), call, ops[k].cls, ops[k].reply);
  }

  lemma OthersSpendNothing(cfg: Config, force: bool, ops: seq<Operation>, k: nat, template: string)
    requires k < |ops| && !TakesPart(ops[k])
    ensures !SpendsAt(cfg, force, ops, k, template)
  {
    hide Inv, After, BeginOperation, GiveBack, CancelAndLog;
    AfterNext(cfg, force, ops, k);
    Reachable(cfg, force, ops[..k]);
    if !ops[k].Execute? && !ops[k].ExecuteMany? {
      StepMoves(cfg, force, After(cfg, force, ops[..k]), ops[k], template);
    }
  }

  lemma OpenedIsSingle(cfg: Config, force: bool, ops: seq<Operation>, k: nat, template: string)
    requires k < |ops|
    ensures var s0 := OpenedAt(cfg, force, ops, k);
            Released(s0, template) ==> !Active(s0, template)
  {
    hide After, BeginOperation;
    Reachable(cfg, force, ops[..k]);
    BeginKeeps(cfg, After(cfg, force, ops[..k]));
  }

  /** The k-th operation of a run spends the template's release if and only if the release is there when it opens and
      it evaluates a result of the template. */
  lemma SpendsExactly(cfg: Config, force: bool, ops: seq<Operation>, k: nat, template: string)
    requires k < |ops|
    ensures SpendsAt(cfg, force, ops, k, template) <==>
            Released(Opened(cfg, After(cfg, force, ops[..k]), ops[k]), template) && EvaluatesFor(cfg, force, ops, k, template)
  {
    hide After, BeginOperation, CallAt, AtResult, ResultPhase, Intervenes, Drops, DecisionFor, Fetch, RowCap, Released, Active;
    if !TakesPart(ops[k]) {
      OthersSpendNothing(cfg, force, ops, k, template);
    } else if AtResult(cfg, force, ops, k).1.Refused? || !Fetch(ops[k].reply, RowCap(cfg, ops[k].cls)).Fetched? {
      UnreadSpendsNothing(cfg, force, ops, k, template);
    } else {
      var s0 := OpenedAt(cfg, force, ops, k);
      var (s2, before) := AtResult(cfg, force, ops, k);
      var result, call := Fetch(ops[k].reply, RowCap(cfg, ops[k].cls)).result, CallAt(cfg, force, ops, k);
      ReadEnds(cfg, force, ops, k, result);
      OpenedIsSingle(cfg, force, ops, k, template);
      SameHouse(s0, s2, template);
      if Released(s2, template) {
        ResultSpends(cfg, force, s2, call, ops[k].cls, before.Slowed?, result, template);
      }
      SameDrops(cfg, s0, s2, DecisionFor(cfg, call, OnResult));
    }
  }

  lemma SameHouse(s: State, s': State, template: string)
    requires s'.house == s.house
    ensures Released(s', template) == Released(s, template) && Active(s', template) == Active(s, template)
  {
  }

  /** An operation that spends a release logs no STASH event of the template. */
  lemma SpendingIsNoStash(cfg: Config, force: bool, ops: seq<Operation>, k: nat, template: string)
    requires k < |ops| && SpendsAt(cfg, force, ops, k, template)
    ensures !StashLogged(After(cfg, force, ops[..k]), After(cfg, force, ops[..k + 1]), template)
  {
    hide After, Opened, StashLogged, Active, Released;
    StashEventsAreStashes(cfg, force, ops, k, template);
  }

  // ----- Places in the log of a run -----

  lemma {:induction false} LogPrefix(cfg: Config, force: bool, ops: seq<Operation>, j: nat, k: nat)
    requires j <= k <= |ops|
    ensures After(cfg, force, ops[..j]).log <= After(cfg, force, ops[..k]).log
    decreases k
  {
    hide After, Step, Opened;
    if j < k {
      LogPrefix(cfg, force, ops, j, k - 1);
      AfterNext(cfg, force, ops, k - 1);
      StepLogGrows(cfg, force, After(cfg, force, ops[..k - 1]), ops[k - 1]);
    }
  }

  /** The i-th operation of the run logged the event at this place. */
  predicate LoggedBy(cfg: Config, force: bool, ops: seq<Operation>, i: nat, place: nat)
    requires i < |ops|
  {
    |After(cfg, force, ops[..i]).log| <= place < |After(cfg, force, ops[..i + 1]).log|
  }

  /** Every event of a run was logged by one of its operations. */
  lemma {:induction false} OriginOf(cfg: Config, force: bool, ops: seq<Operation>, n: nat, place: nat)
    requires n <= |ops| && place < |After(cfg, force, ops[..n]).log|
    ensures exists i | 0 <= i < n :: LoggedBy(cfg, force, ops, i, place)
  {
    hide After;
    if n == 0 {
      NothingLogged(cfg, force, ops);
    } else if place < |After(cfg, force, ops[..n - 1]).log| {
      OriginOf(cfg, force, ops, n - 1, place);
    } else {
      assert LoggedBy(cfg, force, ops, n - 1, place);
    }
  }

  lemma NothingLogged(cfg: Config, force: bool, ops: seq<Operation>)
    ensures After(cfg, force, ops[..0]).log == []
  {
  }

  /** One operation logs at most one fault. */
  lemma OneFaultPerStep(cfg: Config, force: bool, s: State, op: Operation, a: nat, b: nat)
    requires Inv(cfg, s) && |s.log| <= a < b < |Step(cfg, force, s, op).0.log|
    ensures var log := Step(cfg, force, s, op).0.log;
            !(log[a].eventType == FaultInjected && log[b].eventType == FaultInjected)
  {
    hide Inv, BeginOperation, GiveBack, CancelAndLog, Intervene, CallFor, G.OpeningEvents, G.StatementEvents;
    var s' := Step(cfg, force, s, op).0;
    match op {
      case Execute(_, _, _, _) =>
        OpeningIsFaultless(cfg, s);
        G.StatementGrammar(cfg, force, s, op);
        var s0 := BeginOperation(cfg, s);
        if a >= |s0.log| {
          var es := s'.log[|s0.log|..];
          assert es[a - |s0.log|] == s'.log[a] && es[b - |s0.log|] == s'.log[b];
          TwoFaults(es, a - |s0.log|, b - |s0.log|);
        } else {
          assert s'.log[a] == s0.log[a];
        }
      case ExecuteMany(_) => OpeningIsFaultless(cfg, s);
      case ReturnTreasure(id) => GiveBackIsFaultless(cfg, Cancel(cfg, s, id), id, ManualReturn);
      case ReturnAll =>
        CancelAndLogIsFaultless(cfg, s.(house := H.AllReturned(s.house)), s.house.treasures, |s.house.treasures|);
        assert s.house.treasures[..|s.house.treasures|] == s.house.treasures;
    }
  }

  lemma TwoFaults(es: seq<Event>, a: nat, b: nat)
    requires G.StatementEvents(es) && a < b < |es|
    ensures !(es[a].eventType == FaultInjected && es[b].eventType == FaultInjected)
  {
    if |es| == 2 && G.DecisionEvent(es[0], BeforeExecute) && G.ResultEvents(es[1..]) {
      assert es[1..][0] == es[1];
    }
  }

  /** What lies between two STASH events of one template: a return of the template at a place after the first, and
      later an operation that evaluates a result of the template without stashing, all before the second. */
  ghost predicate ReturnedAndEvaluated(cfg: Config, force: bool, ops: seq<Operation>, a: nat, b: nat, template: string,
                                       r: nat, k: nat)
    requires a < b < |After(cfg, force, ops).log|
  {
    var log := After(cfg, force, ops).log;
    && a < r < b && IsReturn(log[r], template)
    && k < |ops| && r < |Opened(cfg, After(cfg, force, ops[..k]), ops[k]).log| && |After(cfg, force, ops[..k + 1]).log| <= b
    && EvaluatesFor(cfg, force, ops, k, template)
    && !StashLogged(After(cfg, force, ops[..k]), After(cfg, force, ops[..k + 1]), template)
  }

  /** Between two STASH events of one template in the log of a run the template was returned, and after that an
      operation evaluated a result of the template and did not stash. */
  lemma BetweenStashEvents(cfg: Config, force: bool, ops: seq<Operation>, a: nat, b: nat, template: string)
    requires a < b < |After(cfg, force, ops).log|
    requires IsStash(After(cfg, force, ops).log[a], template) && IsStash(After(cfg, force, ops).log[b], template)
    ensures exists r: nat, k: nat :: ReturnedAndEvaluated(cfg, force, ops, a, b, template, r, k)
  {
    hide After, Opened, StashesAt, EvaluatesFor, ReturnedAndEvaluated, ReturnsAndSpendsAt;
    assert ops[..|ops|] == ops;
    OriginOf(cfg, force, ops, |ops|, a);
    OriginOf(cfg, force, ops, |ops|, b);
    var i: nat :| i < |ops| && LoggedBy(cfg, force, ops, i, a);
    var j: nat :| j < |ops| && LoggedBy(cfg, force, ops, j, b);
    LogPrefix(cfg, force, ops, i + 1, |ops|);
    LogPrefix(cfg, force, ops, j + 1, |ops|);
    StashAtPlace(cfg, force, ops, i, a, template);
    StashAtPlace(cfg, force, ops, j, b, template);
    DifferentOrigins(cfg, force, ops, i, j, a, b);
    ReturnAndSpendBetween(cfg, force, ops, i, j, template);
    var k: nat :| i < k < j && ReturnsAndSpendsAt(cfg, force, ops, i, k, template);
    SpentBetween(cfg, force, ops, i, j, k, a, b, template);
  }

  lemma StashAtPlace(cfg: Config, force: bool, ops: seq<Operation>, i: nat, a: nat, template: string)
    requires i < |ops| && LoggedBy(cfg, force, ops, i, a) && IsStash(After(cfg, force, ops[..i + 1]).log[a], template)
    ensures StashesAt(cfg, force, ops, i, template)
  {
    hide After, StashesAt, IsStash;
    StashEventsAreStashes(cfg, force, ops, i, template);
  }

  lemma DifferentOrigins(cfg: Config, force: bool, ops: seq<Operation>, i: nat, j: nat, a: nat, b: nat)
    requires i < |ops| && j < |ops| && a < b && LoggedBy(cfg, force, ops, i, a) && LoggedBy(cfg, force, ops, j, b)
    requires After(cfg, force, ops[..i + 1]).log[a].eventType == FaultInjected
    requires After(cfg, force, ops[..j + 1]).log[b].eventType == FaultInjected
    ensures i < j
  {
    hide After, Inv, Step;
    if i == j {
      Reachable(cfg, force, ops[..i]);
      AfterNext(cfg, force, ops, i);
      OneFaultPerStep(cfg, force, After(cfg, force, ops[..i]), ops[i], a, b);
    } else if j < i {
      LogPrefix(cfg, force, ops, j + 1, i);
    }
  }

  lemma SpentBetween(cfg: Config, force: bool, ops: seq<Operation>, i: nat, j: nat, k: nat, a: nat, b: nat,
                     template: string)
    requires i < k < j < |ops| && a < b < |After(cfg, force, ops).log|
    requires LoggedBy(cfg, force, ops, i, a) && LoggedBy(cfg, force, ops, j, b)
    requires ReturnsAndSpendsAt(cfg, force, ops, i, k, template)
    ensures exists r: nat, k: nat :: ReturnedAndEvaluated(cfg, force, ops, a, b, template, r, k)
  {
    hide After, Opened, EvaluatesFor, SpendsAt, StashLogged;
    assert ops[..|ops|] == ops;
    SpendsExactly(cfg, force, ops, k, template);
    SpendingIsNoStash(cfg, force, ops, k, template);
    HeldThroughStep(cfg, force, ops, k, template);
    OpenedInStep(cfg, force, ops, k);
    LogPrefix(cfg, force, ops, k + 1, j);
    LogPrefix(cfg, force, ops, k + 1, |ops|);
    var start, s0 := After(cfg, force, ops[..i + 1]), Opened(cfg, After(cfg, force, ops[..k]), ops[k]);
    ghost var r := ReturnPlace(start, s0, template);
    assert After(cfg, force, ops).log[r] == s0.log[r];
    assert ReturnedAndEvaluated(cfg, force, ops, a, b, template, r, k);
  }

  lemma OpenedInStep(cfg: Config, force: bool, ops: seq<Operation>, k: nat)
    requires k < |ops|
    ensures Opened(cfg, After(cfg, force, ops[..k]), ops[k]).log <= After(cfg, force, ops[..k + 1]).log
  {
    hide After, Step, Opened;
    AfterNext(cfg, force, ops, k);
    StepLogGrows(cfg, force, After(cfg, force, ops[..k]), ops[k]);
  }

  lemma ReturnPlace(s: State, s': State, template: string) returns (r: nat)
    requires ReturnLogged(s, s', template)
    ensures |s.log| <= r < |s'.log| && IsReturn(s'.log[r], template)
  {
    var es := s'.log[|s.log|..];
    var e :| e in es && e.eventType == TreasureReturned && e.context.Some? && e.context.value.template == template;
    var i :| 0 <= i < |es| && es[i] == e;
    r := |s.log| + i;
  }
}
