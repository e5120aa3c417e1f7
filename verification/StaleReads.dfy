/** OLD_BONE replays what a client really received: the same key, an earlier occurrence, the same result. */
module StaleReads {
  import opened Models
  import opened Decisions
  import opened Faults
  import opened Session
  import opened Transforms
  import opened Adapters
  import opened Invariants
  import opened StepInvariants
  import C = StashCycle
  import G = EventGrammar
  import H = House
  import AR = AutoReturn
  import SC = StaleCache

  // ----- What the cache holds -----

  predicate TakesPart(op: Operation) { op.Execute? && PassthroughReason(op.params, op.cls) == None }

  function KeyOf(cfg: Config, call: Call): CacheKey { KeyFor(cfg, DecisionFor(cfg, call, OnResult)) }

  /** The call of the j-th operation of a run. */
  function CallAt(cfg: Config, force: bool, ops: seq<Operation>, j: nat): Call
    requires j < |ops| && TakesPart(ops[j])
  {
    CallFor(cfg, BeginOperation(cfg, After(cfg, force, ops[..j])), ops[j])
  }

  /** The j-th operation delivered this entry's result under its key and occurrence. */
  predicate Gave(cfg: Config, force: bool, ops: seq<Operation>, j: nat, e: StaleEntry)
    requires j < |ops|
  {
    TakesPart(ops[j]) &&
    var call := CallAt(cfg, force, ops, j);
    Answer(cfg, force, ops, j) == Delivered(e.result) && e.occurrence == call.occurrence && e.key == KeyOf(cfg, call)
  }

  lemma BeforeCache(cfg: Config, force: bool, s: State, call: Call, cls: Classification, before: Before)
    ensures BeforePhase(cfg, force, s, call, cls).0.cache == s.cache
    ensures DeferredDebug(cfg, force, s, call, cls, before).cache == s.cache
  {
    hide NextEventId, BeforeFault, DecisionFor, EvaluatesBefore, Draw;
  }

  lemma StashCache(cfg: Config, s: State, d: Decision, result: LogicalResult)
    requires result.rows != []
    ensures Stash(cfg, s, d, result).0.cache == s.cache
  {
    hide NextEventId, AR.Planned, AR.HoldFor, DeterministicId, Index, H.Vacant;
  }

  lemma OnResultCache(cfg: Config, s: State, d: Decision, cls: Classification, result: LogicalResult)
    ensures Faults.OnResult(cfg, s, d, cls, result).0.cache == s.cache
  {
    hide Drops, NextEventId, H.ActiveFor, Stash, ChewFor, History, Candidates, Fires, Inject;
    if result.rows != [] {
      StashCache(cfg, s.(house := H.Consumed(s.house, d.context.template)), d, result);
    }
    var released := d.context.template in s.house.released;
    var chew, history := ChewFor(cfg, d, result), History(cfg, s, d);
    var candidates := Candidates(cfg, released, cls, result, chew.Some?, history != []);
    match Select(cfg, s.mood.mood, d.context.key, ON_RESULT_PRIORITY, candidates) {
      case None =>
      case Some(fault) => CandidateApplies(cfg, released, cls, result, chew, history, fault);
    }
  }

  /** A call leaves the cache alone or adds exactly the result it delivers. */
  lemma InterveneCache(cfg: Config, force: bool, s: State, call: Call, cls: Classification, reply: Reply)
    ensures var (s', delivery) := Intervene(cfg, force, s, call, cls, reply);
            || s'.cache == s.cache
            || (delivery.Delivered? &&
                s'.cache == SC.Added(s.cache, StaleEntry(KeyOf(cfg, call), call.occurrence, delivery.result),
                                     PER_FINGERPRINT, TOTAL_LIMIT))
  {
    hide BeforePhase, DeferredDebug, Faults.OnResult, NextEventId, Intervenes, Fetch, SC.Added, KeyFor, DecisionFor;
    BeforeCache(cfg, force, s, call, cls, Proceed);
    var (s1, before) := BeforePhase(cfg, force, s, call, cls);
    BeforeCache(cfg, force, s1, call, cls, before);
    var s2 := DeferredDebug(cfg, force, s1, call, cls, before);
    if Fetch(reply, RowCap(cfg, cls)).Fetched? {
      OnResultCache(cfg, s2, DecisionFor(cfg, call, OnResult), cls, Fetch(reply, RowCap(cfg, cls)).result);
    }
  }

  /** Whatever a step finds or leaves in the cache was there before or is what the step delivered. */
  lemma StepCache(cfg: Config, force: bool, s: State, op: Operation)
    requires Inv(cfg, s)
    ensures var (s', delivery) := Step(cfg, force, s, op);
            forall e | e in s'.cache && e !in s.cache ::
              TakesPart(op) && delivery == Delivered(e.result) &&
              var call := CallFor(cfg, BeginOperation(cfg, s), op);
              e.occurrence == call.occurrence && e.key == KeyOf(cfg, call)
  {
    hide Core, Timed, MoodOk, BeginOperation, GiveBack, CancelAndLog, Intervene, CallFor, SC.Distinct, SC.Bounded;
    match op {
      case Execute(_, _, _, _) =>
        BeginKeeps(cfg, s);
        var s0 := BeginOperation(cfg, s);
        if TakesPart(op) {
          var call := CallFor(cfg, s0, op);
          InterveneCache(cfg, force, Begin(s0, call), call, op.cls, op.reply);
          NewEntries(s.cache, StaleEntry(KeyOf(cfg, call), call.occurrence,
                                         DeliveredOr(Intervene(cfg, force, Begin(s0, call), call, op.cls, op.reply).1)));
        }
      case ExecuteMany(_) => BeginKeeps(cfg, s);
      case ReturnTreasure(id) => ReturnTreasureKeeps(cfg, s, id);
      case ReturnAll => ReturnAllKeeps(cfg, force, s);
    }
  }

  function DeliveredOr(delivery: Delivery): LogicalResult {
    if delivery.Delivered? then delivery.result else LogicalResult([], [], 0, None)
  }

  lemma NewEntries(list: seq<StaleEntry>, entry: StaleEntry)
    ensures forall e | e in SC.Added(list, entry, PER_FINGERPRINT, TOTAL_LIMIT) :: e in list || e == entry
  {
    SC.DropOldestFacts(list, entry.key, entry.key);
  }

  lemma GaveInPrefix(cfg: Config, force: bool, ops: seq<Operation>, n: nat, j: nat, e: StaleEntry)
    requires j < n <= |ops|
    ensures Gave(cfg, force, ops[..n], j, e) == Gave(cfg, force, ops, j, e)
  {
    hide Step, BeginOperation, CallFor, KeyFor;
    assert ops[..n][..j] == ops[..j];
  }

  /** Every cached entry is the result some earlier operation of the run delivered. */
  lemma {:induction false} CacheIsHistory(cfg: Config, force: bool, ops: seq<Operation>)
    ensures forall e | e in After(cfg, force, ops).cache :: exists j | 0 <= j < |ops| :: Gave(cfg, force, ops, j, e)
  {
    if ops != [] {
      var n := |ops| - 1;
      CacheIsHistory(cfg, force, ops[..n]);
      Reachable(cfg, force, ops[..n]);
      var s := After(cfg, force, ops[..n]);
      StepCache(cfg, force, s, ops[n]);
      forall e | e in After(cfg, force, ops).cache ensures exists j | 0 <= j < |ops| :: Gave(cfg, force, ops, j, e) {
        hide Inv, Step, BeginOperation, CallFor, KeyFor;
        if e in s.cache {
          var j :| 0 <= j < n && Gave(cfg, force, ops[..n], j, e);
          GaveInPrefix(cfg, force, ops, n, j, e);
        } else {
          assert Gave(cfg, force, ops, n, e);
        }
      }
    }
  }

  // ----- What OLD_BONE delivers -----

  /** The last event of `s'` is a stale read that is not in `s`. */
  predicate StaleReadLogged(s: State, s': State) {
    |s'.log| > |s.log| && s'.log[|s'.log| - 1].fault == Some(OLD_BONE)
  }

  lemma OldBoneOnResult(cfg: Config, s: State, d: Decision, cls: Classification, result: LogicalResult)
    ensures var (s', delivery) := Faults.OnResult(cfg, s, d, cls, result);
            StaleReadLogged(s, s') ==>
              exists e | e in SC.Of(s.cache, KeyFor(cfg, d)) ::
                delivery == Delivered(e.result) && s'.log[|s'.log| - 1].details == StaleDetails(e.occurrence)
  {
    hide Drops, NextEventId, H.ActiveFor, Treated, KeyFor, SC.Of;
    OldBoneTreated(cfg, s, d, cls, result);
  }

  lemma OldBoneTreated(cfg: Config, s: State, d: Decision, cls: Classification, result: LogicalResult)
    ensures var (s', delivery) := Treated(cfg, s, d, cls, result);
            StaleReadLogged(s, s') ==>
              exists e | e in SC.Of(s.cache, KeyFor(cfg, d)) ::
                delivery == Delivered(e.result) && s'.log[|s'.log| - 1].details == StaleDetails(e.occurrence)
  {
    hide NextEventId, ChewFor, Candidates, Fires, Stash, KeyFor, SC.Of;
    var released, s1 := d.context.template in s.house.released, s.(house := H.Consumed(s.house, d.context.template));
    var chew, history := ChewFor(cfg, d, result), History(cfg, s, d);
    var candidates := Candidates(cfg, released, cls, result, chew.Some?, history != []);
    hide Inject, Index, History, StaleReadLogged, LogFault, LogDecision;
    match Select(cfg, s.mood.mood, d.context.key, ON_RESULT_PRIORITY, candidates) {
      case None => QuietDecision(cfg, s, s1, d, candidates);
      case Some(fault) =>
        CandidateApplies(cfg, released, cls, result, chew, history, fault);
        if fault == STASH || fault == STASH_ERROR {
          StashLogsStash(cfg, s1, d, result);
          SameLog(s, s1, Stash(cfg, s1, d, result).0);
        } else {
          OldBoneInjected(cfg, s, d, fault, result, chew, history);
          var injection := Inject(cfg, d, fault, result, chew, history);
          FaultLogs(cfg, s, s1, d, fault, injection.outcome, injection.details);
        }
    }
  }

  lemma SameLog(s: State, s1: State, s': State)
    requires s1.log == s.log
    ensures StaleReadLogged(s, s') == StaleReadLogged(s1, s')
  {
  }

  lemma QuietDecision(cfg: Config, s: State, s1: State, d: Decision, candidates: seq<Fault>)
    requires s1.log == s.log
    ensures !StaleReadLogged(s, LogDecision(cfg, s1, d, candidates))
  {
    hide NextEventId;
  }

  lemma FaultLogs(cfg: Config, s: State, s1: State, d: Decision, fault: Fault, outcome: Outcome, details: Details)
    requires s1.log == s.log
    ensures var s' := LogFault(cfg, s1, d, fault, outcome, details);
            (StaleReadLogged(s, s') <==> fault == OLD_BONE) && s'.log[|s'.log| - 1].details == details
  {
    hide NextEventId;
  }

  /** OLD_BONE alone injects a stale read, and what it injects is one of the key's entries. */
  lemma OldBoneInjected(cfg: Config, s: State, d: Decision, fault: Fault, result: LogicalResult, chew: Option<Choice>,
                        history: seq<StaleEntry>)
    requires Applicable(fault, result, chew, history) && fault != STASH && fault != STASH_ERROR
    requires history == History(cfg, s, d)
    ensures fault == OLD_BONE ==>
              var injection := Inject(cfg, d, fault, result, chew, history);
              exists e | e in SC.Of(s.cache, KeyFor(cfg, d)) ::
                injection.result == e.result && injection.details == StaleDetails(e.occurrence)
  {
    hide KeyFor, SC.Of, Corrupts, Index;
    if fault == OLD_BONE {
      var i := Index(cfg, d, Stale, |history|);
      assert history[i] in history;
    }
  }

  lemma StashLogsStash(cfg: Config, s: State, d: Decision, result: LogicalResult)
    requires result.rows != []
    ensures !StaleReadLogged(s, Stash(cfg, s, d, result).0)
  {
    hide NextEventId, AR.Planned, AR.HoldFor, DeterministicId, Index, H.Vacant;
  }

  lemma OldBoneCall(cfg: Config, force: bool, s: State, call: Call, cls: Classification, reply: Reply)
    ensures var (s', delivery) := Intervene(cfg, force, s, call, cls, reply);
            StaleReadLogged(s, s') ==>
              exists e | e in SC.Of(s.cache, KeyOf(cfg, call)) ::
                delivery == Delivered(e.result) && s'.log[|s'.log| - 1].details == StaleDetails(e.occurrence)
  {
    hide BeforePhase, DeferredDebug, Faults.OnResult, NextEventId, Intervenes, Fetch, SC.Added, SC.Of, KeyFor, DecisionFor,
         StaleReadLogged;
    BeforeCache(cfg, force, s, call, cls, Proceed);
    var (s1, before) := BeforePhase(cfg, force, s, call, cls);
    BeforeCache(cfg, force, s1, call, cls, before);
    var s2 := DeferredDebug(cfg, force, s1, call, cls, before);
    NoStaleReadBefore(cfg, force, s, call, cls);
    if before.Refused? {
    } else if Fetch(reply, RowCap(cfg, cls)).Fetched? {
      var result := Fetch(reply, RowCap(cfg, cls)).result;
      OldBoneOnResult(cfg, s2, DecisionFor(cfg, call, OnResult), cls, result);
      StaleResult(cfg, force, s, s2, call, cls, before.Slowed?, result);
    }
  }

  lemma NoStaleReadBefore(cfg: Config, force: bool, s: State, call: Call, cls: Classification)
    ensures var (s1, before) := BeforePhase(cfg, force, s, call, cls);
            && s.log <= s1.log && !StaleReadLogged(s, s1)
            && !StaleReadLogged(s, RefuseResult(cfg, s1, call).0)
            && var s2 := DeferredDebug(cfg, force, s1, call, cls, before);
               s.log <= s2.log && !StaleReadLogged(s, s2)
  {
    hide BeforePhase, DeferredDebug, RefuseResult, EvaluatesBefore, StaleReadLogged, DecisionFor;
    QuietStart(cfg, force, s, call, cls);
    var (s1, before) := BeforePhase(cfg, force, s, call, cls);
    QuietAfterStart(cfg, force, s, s1, call, cls, before);
  }

  lemma QuietStart(cfg: Config, force: bool, s: State, call: Call, cls: Classification)
    ensures var s1 := BeforePhase(cfg, force, s, call, cls).0;
            s.log <= s1.log && !StaleReadLogged(s, s1)
  {
    hide NextEventId, Fires, DecisionFor, EvaluatesBefore, Draw;
  }

  lemma QuietAfterStart(cfg: Config, force: bool, s: State, s1: State, call: Call, cls: Classification, before: Before)
    requires s.log <= s1.log && !StaleReadLogged(s, s1)
    ensures !StaleReadLogged(s, RefuseResult(cfg, s1, call).0)
    ensures var s2 := DeferredDebug(cfg, force, s1, call, cls, before);
            s.log <= s2.log && !StaleReadLogged(s, s2)
  {
    hide NextEventId, DecisionFor, EvaluatesBefore;
  }

  lemma StaleResult(cfg: Config, force: bool, s: State, s2: State, call: Call, cls: Classification, slowed: bool,
                    result: LogicalResult)
    requires s.log <= s2.log && !StaleReadLogged(s, s2) && s2.cache == s.cache
    requires var (s', delivery) := Faults.OnResult(cfg, s2, DecisionFor(cfg, call, OnResult), cls, result);
             StaleReadLogged(s2, s') ==>
               exists e | e in SC.Of(s2.cache, KeyOf(cfg, call)) ::
                 delivery == Delivered(e.result) && s'.log[|s'.log| - 1].details == StaleDetails(e.occurrence)
    ensures var (s', delivery) := ResultPhase(cfg, force, s2, call, cls, slowed, result);
            StaleReadLogged(s, s') ==>
              exists e | e in SC.Of(s.cache, KeyOf(cfg, call)) ::
                delivery == Delivered(e.result) && s'.log[|s'.log| - 1].details == StaleDetails(e.occurrence)
  {
    G.IntervenedEvents(cfg, force, s2, call, cls, slowed, result);
    hide Faults.OnResult, Intervenes, SC.Added, SC.Of, KeyFor, DecisionFor, G.ResultEvents;
    var s' := ResultPhase(cfg, force, s2, call, cls, slowed, result).0;
    if StaleReadLogged(s, s') {
      assert |s'.log| > |s2.log|;
    }
  }

  // ----- Over whole runs -----

  /** The j-th operation logs a stale read. */
  predicate OldBoneAt(cfg: Config, force: bool, ops: seq<Operation>, j: nat)
    requires j < |ops|
  {
    TakesPart(ops[j]) &&
    StaleReadLogged(BeginOperation(cfg, After(cfg, force, ops[..j])), After(cfg, force, ops[..j + 1]))
  }

  /** The i-th operation is where the stale read of the j-th comes from. */
  predicate ReplayOf(cfg: Config, force: bool, ops: seq<Operation>, i: nat, j: nat)
    requires i < j < |ops| && TakesPart(ops[j])
  {
    TakesPart(ops[i]) &&
    var earlier, later := CallAt(cfg, force, ops, i), CallAt(cfg, force, ops, j);
    && KeyOf(cfg, earlier) == KeyOf(cfg, later) && earlier.occurrence < later.occurrence
    && Answer(cfg, force, ops, i).Delivered? && Answer(cfg, force, ops, i) == Answer(cfg, force, ops, j)
  }

  /** The entry a step replays, if it logs a stale read. */
  ghost predicate Replays(cfg: Config, s: State, call: Call, s': State, delivery: Delivery, e: StaleEntry) {
    && e in s.cache && e.key == KeyOf(cfg, call) && e.occurrence < call.occurrence
    && delivery == Delivered(e.result) && s'.log != [] && s'.log[|s'.log| - 1].details == StaleDetails(e.occurrence)
  }

  lemma CallReplays(cfg: Config, force: bool, s: State, call: Call, cls: Classification, reply: Reply)
    requires CacheBelow(cfg, s, call) && StaleReadLogged(s, Intervene(cfg, force, s, call, cls, reply).0)
    ensures var (s', delivery) := Intervene(cfg, force, s, call, cls, reply);
            exists e :: Replays(cfg, s, call, s', delivery, e)
  {
    OldBoneCall(cfg, force, s, call, cls, reply);
    DecisionKeyLength(cfg, call, OnResult);
    SC.OfMembers(s.cache, KeyOf(cfg, call));
    hide CacheOk, Intervene, DecisionFor, SC.Of;
    var (s', delivery) := Intervene(cfg, force, s, call, cls, reply);
    var e :| e in SC.Of(s.cache, KeyOf(cfg, call)) && delivery == Delivered(e.result)
      && s'.log[|s'.log| - 1].details == StaleDetails(e.occurrence);
    assert Replays(cfg, s, call, s', delivery, e);
  }

  lemma StepReplays(cfg: Config, force: bool, s: State, op: Operation)
    requires Inv(cfg, s) && TakesPart(op)
    requires StaleReadLogged(BeginOperation(cfg, s), Step(cfg, force, s, op).0)
    ensures var (s', delivery) := Step(cfg, force, s, op);
            exists e :: Replays(cfg, s, CallFor(cfg, BeginOperation(cfg, s), op), s', delivery, e)
  {
    hide Core, Timed, MoodOk, CacheOk, Intervene, BeginOperation, CacheBelow, KeyOf, TemplateFingerprint, Replays,
         StaleReadLogged, PassThrough;
    BeginKeeps(cfg, s);
    var s0 := BeginOperation(cfg, s);
    var call := CallFor(cfg, s0, op);
    var s1 := Begin(s0, call);
    CacheOkFrame(cfg, s, s0);
    BegunCache(cfg, s0, call);
    assert Step(cfg, force, s, op) == Intervene(cfg, force, s1, call, op.cls, op.reply);
    var (s', delivery) := Intervene(cfg, force, s1, call, op.cls, op.reply);
    StaleReadFrame(s0, s1, s');
    CallReplays(cfg, force, s1, call, op.cls, op.reply);
    var e :| Replays(cfg, s1, call, s', delivery, e);
    ReplaysFrame(cfg, s1, s, call, s', delivery, e);
  }

  lemma StaleReadFrame(s: State, s1: State, s': State)
    requires s.log == s1.log
    ensures StaleReadLogged(s, s') == StaleReadLogged(s1, s')
  {
  }

  lemma ReplaysFrame(cfg: Config, s: State, s1: State, call: Call, s': State, delivery: Delivery, e: StaleEntry)
    requires s.cache == s1.cache && Replays(cfg, s, call, s', delivery, e)
    ensures Replays(cfg, s1, call, s', delivery, e)
  {
    hide KeyOf;
  }

  /** A stale read delivers what an earlier operation with the same key delivered, and logs its occurrence. */
  lemma OldBoneReplays(cfg: Config, force: bool, ops: seq<Operation>, j: nat)
    requires j < |ops| && OldBoneAt(cfg, force, ops, j)
    ensures exists i | 0 <= i < j ::
      && ReplayOf(cfg, force, ops, i, j)
      && var log := After(cfg, force, ops[..j + 1]).log;
         log != [] && log[|log| - 1].details == StaleDetails(CallAt(cfg, force, ops, i).occurrence)
  {
    hide Inv, Step, BeginOperation, CallFor, KeyOf, After, StaleReadLogged, Gave, Replays, ReplayOf, TakesPart;
    Reachable(cfg, force, ops[..j]);
    C.AfterNext(cfg, force, ops, j);
    CacheIsHistory(cfg, force, ops[..j]);
    var s, call := After(cfg, force, ops[..j]), CallAt(cfg, force, ops, j);
    StepReplays(cfg, force, s, ops[j]);
    var e :| Replays(cfg, s, call, After(cfg, force, ops[..j + 1]), Answer(cfg, force, ops, j), e);
    ReplaysFromCache(cfg, s, call, After(cfg, force, ops[..j + 1]), Answer(cfg, force, ops, j), e);
    var i :| 0 <= i < j && Gave(cfg, force, ops[..j], i, e);
    GaveInPrefix(cfg, force, ops, j, i, e);
    GaveIsReplay(cfg, force, ops, i, j, e, s, After(cfg, force, ops[..j + 1]));
  }

  lemma ReplaysFromCache(cfg: Config, s: State, call: Call, s': State, delivery: Delivery, e: StaleEntry)
    requires Replays(cfg, s, call, s', delivery, e)
    ensures e in s.cache
  {
    hide KeyOf;
  }

  lemma GaveIsReplay(cfg: Config, force: bool, ops: seq<Operation>, i: nat, j: nat, e: StaleEntry, s: State, s': State)
    requires i < j < |ops| && TakesPart(ops[j]) && Gave(cfg, force, ops, i, e)
    requires Replays(cfg, s, CallAt(cfg, force, ops, j), s', Answer(cfg, force, ops, j), e)
    ensures ReplayOf(cfg, force, ops, i, j)
    ensures s'.log != [] && s'.log[|s'.log| - 1].details == StaleDetails(CallAt(cfg, force, ops, i).occurrence)
  {
    hide Answer, CallAt, KeyOf;
  }

  /** Following stale reads back ends at an operation that delivered the result without reading stale. */
  lemma {:induction false} StaleReadsTraceBack(cfg: Config, force: bool, ops: seq<Operation>, j: nat)
    requires j < |ops| && OldBoneAt(cfg, force, ops, j)
    ensures exists i | 0 <= i < j :: !OldBoneAt(cfg, force, ops, i) && ReplayOf(cfg, force, ops, i, j)
  {
    hide OldBoneAt, ReplayOf, TakesPart, After, CallAt;
    OldBoneReplays(cfg, force, ops, j);
    StaleTakesPart(cfg, force, ops, j);
    var i :| 0 <= i < j && ReplayOf(cfg, force, ops, i, j);
    if OldBoneAt(cfg, force, ops, i) {
      StaleReadsTraceBack(cfg, force, ops, i);
      StaleTakesPart(cfg, force, ops, i);
      var k :| 0 <= k < i && !OldBoneAt(cfg, force, ops, k) && ReplayOf(cfg, force, ops, k, i);
      ReplayChain(cfg, force, ops, k, i, j);
    }
  }

  lemma StaleTakesPart(cfg: Config, force: bool, ops: seq<Operation>, j: nat)
    requires j < |ops| && OldBoneAt(cfg, force, ops, j)
    ensures TakesPart(ops[j])
  {
    hide StaleReadLogged, BeginOperation, After;
  }

  lemma ReplayChain(cfg: Config, force: bool, ops: seq<Operation>, k: nat, i: nat, j: nat)
    requires k < i < j < |ops| && TakesPart(ops[i]) && TakesPart(ops[j])
    requires ReplayOf(cfg, force, ops, k, i) && ReplayOf(cfg, force, ops, i, j)
    ensures ReplayOf(cfg, force, ops, k, j)
  {
    hide CallAt, Answer, KeyOf, TakesPart;
  }
}
