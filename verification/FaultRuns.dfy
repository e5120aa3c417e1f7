/** What the statements of a run log and answer, read off the hashed texts, and which of them are refused or stale. */
module FaultRuns {
  import opened Models
  import opened Adapters
  import opened Faults
  import opened Session
  import opened Transforms
  import opened StaleReads
  import opened Deliveries
  import opened PlainAnswers
  import opened RawDraws
  import opened FiringOdds
  import opened FaultChoice
  import StepInvariants
  import Inv = Invariants
  import CC = CacheContents
  import C = StashCycle
  import Draws
  import H = House

  // ----- Over whole runs -----

  /** In every run the before-execute phase of a statement in scope goes by the draws. */
  lemma StatementsStartByDraws(cfg: Config, force: bool, ops: seq<Operation>, j: nat)
    requires j < |ops| && TakesPart(ops[j]) && InScope(cfg, ops[j].cls.tables)
    ensures var s0, call := OpenedAt(cfg, force, ops, j), CallAt(cfg, force, ops, j);
            var before := AtResult(cfg, force, ops, j).1;
            && BeforeIs(cfg, Begin(s0, call), call, BeforePhase(cfg, force, Begin(s0, call), call, ops[j].cls).0, before,
                        RowCap(cfg, ops[j].cls).Some?)
            && (before.Refused? ==>
                  && After(cfg, force, ops[..j + 1]).log ==
                     s0.log + [FaultEvent(cfg, |s0.log| + 1, BeforeContext(cfg, call), BeforeExecute, before.fault,
                                          NotExecuted, NoDetails)]
                  && Answer(cfg, force, ops, j) ==
                     Raised(Injected(before.fault, After(cfg, force, ops[..j + 1]).log[|s0.log|].eventId)))
  {
    hide After, BeginOperation, CallFor, BeforePhase, DeferredDebug, ResultPhase, Fetch, RowCap, InScope, Key,
         ChosenBefore, FaultEvent,
         RefuseResult;
    C.AfterNext(cfg, force, ops, j);
    var s0, call := OpenedAt(cfg, force, ops, j), CallAt(cfg, force, ops, j);
    BeforePhaseIs(cfg, force, Begin(s0, call), call, ops[j].cls);
  }

  /** What a statement in scope has logged when it meets its result: the delay, or in debug mode one evaluated decision,
      whether the read is capped or not. */
  function StartEvents(cfg: Config, seqNo: nat, call: Call, slowed: bool): seq<Event> {
    var context := BeforeContext(cfg, call);
    if slowed then
      [FaultEvent(cfg, seqNo, context, BeforeExecute, SLOTH, Delayed,
                  DelayDetails(1 + Pick(cfg, context.key, "delay:SLOTH", cfg.policy.slothMaxDelayMs)))]
    else if cfg.debug then [DecisionEvent(cfg, seqNo, context, BeforeExecute, BEFORE)]
    else []
  }

  lemma DeferredIs(cfg: Config, force: bool, s: State, call: Call, cls: Classification)
    requires InScope(cfg, cls.tables) && !BeforePhase(cfg, force, s, call, cls).1.Refused?
    ensures var (s1, before) := BeforePhase(cfg, force, s, call, cls);
            DeferredDebug(cfg, force, s1, call, cls, before).log ==
            s.log + StartEvents(cfg, |s.log| + 1, call, before.Slowed?)
  {
    hide BeforePhase, InScope, ScopeApplies, RowCap, DecisionFor, Key, ChosenBefore, FaultEvent, DecisionEvent,
         LogDecision, Pick,
         HasEffectiveWeight;
    KeysAre(cfg, call);
    ScopeIs(cfg, cls.tables);
    BeforePhaseIs(cfg, force, s, call, cls);
    var s1 := BeforePhase(cfg, force, s, call, cls).0;
    LogDecisionIs(cfg, s1, DecisionFor(cfg, call, BeforeExecute), BEFORE);
  }

  /** In every run a statement in scope that reads a result has logged exactly this since it opened. */
  lemma ReadsStartWith(cfg: Config, force: bool, ops: seq<Operation>, j: nat, result: LogicalResult)
    requires j < |ops| && Reads(cfg, force, ops, j, result) && InScope(cfg, ops[j].cls.tables)
    ensures var s0, (s, before) := OpenedAt(cfg, force, ops, j), AtResult(cfg, force, ops, j);
            s.log == s0.log + StartEvents(cfg, |s0.log| + 1, CallAt(cfg, force, ops, j), before.Slowed?)
  {
    hide After, BeginOperation, CallFor, BeforePhase, DeferredDebug, Fetch, RowCap, InScope, StartEvents;
    var s0, call := OpenedAt(cfg, force, ops, j), CallAt(cfg, force, ops, j);
    DeferredIs(cfg, force, Begin(s0, call), call, ops[j].cls);
  }

  /** In every run the result of an in-scope SELECT that was not slowed goes by the draws. */
  lemma ResultsGoByDraws(cfg: Config, force: bool, ops: seq<Operation>, j: nat, result: LogicalResult)
    requires j < |ops| && Reads(cfg, force, ops, j, result) && !AtResult(cfg, force, ops, j).1.Slowed?
    requires InScope(cfg, ops[j].cls.tables) && ops[j].cls.kind == SELECT
    ensures ResultIs(cfg, AtResult(cfg, force, ops, j).0, CallAt(cfg, force, ops, j), ops[j].cls, result,
                     After(cfg, force, ops[..j + 1]), Answer(cfg, force, ops, j))
  {
    hide After, Answer, OpenedAt, CallAt, AtResult, ResultPhase, ResultIs, InScope;
    ReadEnds(cfg, force, ops, j, result);
    ResultPhaseIs(cfg, force, AtResult(cfg, force, ops, j).0, CallAt(cfg, force, ops, j), ops[j].cls, result);
  }

  // ----- Refusals -----

  lemma ResultAnswers(cfg: Config, s: State, d: Decision, cls: Classification, result: LogicalResult, fault: Fault, id: string)
    requires Faults.OnResult(cfg, s, d, cls, result).1 == Raised(Injected(fault, id))
    ensures fault in {NO_DROP, STASH, TAIL_CHASE}
  {
    hide Select, Candidates, ChewFor, History, LogFault, LogLimit, LogDecision, Inject, Applicable, H.ActiveFor,
         Visible, NewTreasure,
         H.Admits, Housed;
  }

  lemma ReadAnswers(cfg: Config, force: bool, s: State, call: Call, cls: Classification, reply: Reply, fault: Fault, id: string)
    requires fault in {BARK, GUARD_BOWL, IGNORE}
    requires Intervene(cfg, force, s, call, cls, reply).1 == Raised(Injected(fault, id))
    ensures BeforePhase(cfg, force, s, call, cls).1 == Refused(fault)
  {
    hide BeforePhase, DeferredDebug, Faults.OnResult, Intervenes, Fetch, RowCap, DecisionFor, Cached, LogLimit;
    var (s1, before) := BeforePhase(cfg, force, s, call, cls);
    if !before.Refused? && Fetch(reply, RowCap(cfg, cls)).Fetched? {
      var result, s2 := Fetch(reply, RowCap(cfg, cls)).result, DeferredDebug(cfg, force, s1, call, cls, before);
      var answer := Faults.OnResult(cfg, s2, DecisionFor(cfg, call, OnResult), cls, result).1;
      if answer == Raised(Injected(fault, id)) {
        ResultAnswers(cfg, s2, DecisionFor(cfg, call, OnResult), cls, result, fault, id);
      }
    }
  }

  /** In every run a statement in scope is refused with a fault exactly when that fault is the first whose draw hits. */
  lemma RefusedExactly(cfg: Config, force: bool, ops: seq<Operation>, j: nat, fault: Fault)
    requires j < |ops| && TakesPart(ops[j]) && InScope(cfg, ops[j].cls.tables) && fault in {BARK, GUARD_BOWL, IGNORE}
    ensures (exists id :: Answer(cfg, force, ops, j) == Raised(Injected(fault, id))) <==>
            ChosenBefore(cfg, OpenedAt(cfg, force, ops, j).mood.mood, CallAt(cfg, force, ops, j), fault)
  {
    hide After, BeginOperation, CallFor, BeforePhase, DeferredDebug, Intervene, Fetch, RowCap, InScope, Key,
         FaultEvent, Hits;
    StatementsStartByDraws(cfg, force, ops, j);
    C.AfterNext(cfg, force, ops, j);
    var s0, call := OpenedAt(cfg, force, ops, j), CallAt(cfg, force, ops, j);
    var before := AtResult(cfg, force, ops, j).1;
    var mood := s0.mood.mood;
    if ChosenBefore(cfg, mood, call, fault) {
      OneFirst(BEFORE, HitsAmong(cfg, mood, BeforeContext(cfg, call).key, iset f | f in BEFORE), fault, before);
    }
    if id :| Answer(cfg, force, ops, j) == Raised(Injected(fault, id)) {
      ReadAnswers(cfg, force, Begin(s0, call), call, ops[j].cls, ops[j].reply, fault, id);
    }
  }

  lemma OneFirst(order: seq<Fault>, hits: iset<Fault>, fault: Fault, before: Before)
    requires FirstOf(order, hits, fault) && fault != SLOTH
    ensures before.Refused? && FirstOf(order, hits, before.fault) ==> before.fault == fault
    ensures !FirstOf(order, hits, SLOTH)
  {
    if FirstOf(order, hits, SLOTH) {
      FirstIsOne(order, hits, fault, SLOTH);
    }
    if before.Refused? && FirstOf(order, hits, before.fault) {
      FirstIsOne(order, hits, fault, before.fault);
    }
  }

  lemma FirstIsOne(order: seq<Fault>, hits: iset<Fault>, fault: Fault, fault': Fault)
    requires FirstOf(order, hits, fault) && FirstOf(order, hits, fault')
    ensures fault' == fault
  {
    var k :| 0 <= k < |order| && order[k] == fault && fault in hits && forall i | 0 <= i < k :: order[i] !in hits;
    var k' :| 0 <= k' < |order| && order[k'] == fault' && fault' in hits && forall i | 0 <= i < k' :: order[i] !in hits;
    assert order[k] in hits && order[k'] in hits;
  }

  /** When nothing else is configured and there is no mood, a refusing fault strikes exactly the statements whose draw lies
      below its probability. */
  lemma SoleRefusal(cfg: Config, force: bool, ops: seq<Operation>, j: nat, fault: Fault)
    requires j < |ops| && TakesPart(ops[j]) && InScope(cfg, ops[j].cls.tables) && fault in {BARK, GUARD_BOWL, IGNORE}
    requires cfg.mood.None? && fault in cfg.policy.probabilities
    requires forall f | f in cfg.policy.probabilities && f != fault :: cfg.policy.probabilities[f] == 0.0
    ensures var call := CallAt(cfg, force, ops, j);
            var key := Key(cfg, call.template, call.occurrence, "before_execute", call.parameter);
            (exists id :: Answer(cfg, force, ops, j) == Raised(Injected(fault, id))) <==>
            Drawn(cfg.session.sha256, key + (":" + ("fire:" + Name(fault)))) as real <
            cfg.policy.probabilities[fault] * Draws.TWO64 as real
  {
    hide After, Answer, OpenedAt, CallAt, InScope, Key, Drawn, Name;
    RefusedExactly(cfg, force, ops, j, fault);
    var mood, call := OpenedAt(cfg, force, ops, j).mood.mood, CallAt(cfg, force, ops, j);
    var hits := HitsAmong(cfg, mood, BeforeContext(cfg, call).key, iset f | f in BEFORE);
    assert Chance(cfg, mood, fault) == cfg.policy.probabilities[fault];
    forall f | f != fault && f in BEFORE ensures f !in hits {
      NoChance(cfg, mood, BeforeContext(cfg, call).key, f);
    }
    hide Hits;
    SoleFirst(hits, fault);
  }

  lemma NoChance(cfg: Config, mood: Mood, key: string, fault: Fault)
    requires Chance(cfg, mood, fault) == 0.0
    ensures !Hits(cfg, mood, key, fault)
  {
    hide Drawn, Chance;
  }

  lemma SoleFirst(hits: iset<Fault>, fault: Fault)
    requires fault in BEFORE && forall f | f != fault && f in BEFORE :: f !in hits
    ensures FirstOf(BEFORE, hits, fault) <==> fault in hits
  {
    if fault in hits {
      var k :| 0 <= k < |BEFORE| && BEFORE[k] == fault;
      assert forall i | 0 <= i < k :: BEFORE[i] in BEFORE && BEFORE[i] != fault;
    }
  }

  // ----- Stale reads -----

  /** In every run a read whose key has a delivery in the cache comes back stale when OLD_BONE is certain and no earlier
      fault of the order is due. */
  lemma StaleReadsHappen(cfg: Config, force: bool, ops: seq<Operation>, j: nat, result: LogicalResult, e: StaleEntry)
    requires j < |ops| && Reads(cfg, force, ops, j, result) && !AtResult(cfg, force, ops, j).1.Slowed?
    requires InScope(cfg, ops[j].cls.tables) && ops[j].cls.kind == SELECT && |result.rows| <= cfg.maxInterventionRows
    requires var s, call := AtResult(cfg, force, ops, j).0, CallAt(cfg, force, ops, j);
             && (forall t | t in s.house.treasures :: t.context.template != call.template)
             && Chance(cfg, s.mood.mood, OLD_BONE) >= 1.0
             && !Hits(cfg, s.mood.mood, ResultContext(cfg, call).key, NO_DROP)
             && (forall f | f != OLD_BONE && Guard(cfg, s, call, ops[j].cls, result, f) ::
                   !Hits(cfg, s.mood.mood, ResultContext(cfg, call).key, f))
             && e.key == CallKey(cfg, call)
    requires e in CC.Last(CC.Recent(CC.Deliveries(cfg, force, ops, j), 4), 64)
    ensures OldBoneAt(cfg, force, ops, j) && Answer(cfg, force, ops, j).Delivered?
  {
    hide After, Answer, OpenedAt, CallAt, AtResult, InScope, Key, Hits, Guard, DrawnDetails, ShuffledByDraws,
         FaultEvent,
         CC.Last, CC.Recent, CC.Deliveries, Chosen, LimitEvent, DecisionEvent;
    var (s, before) := AtResult(cfg, force, ops, j);
    var call := CallAt(cfg, force, ops, j);
    ResultsGoByDraws(cfg, force, ops, j, result);
    CC.CacheUpTo(cfg, force, ops, j);
    SameCache(cfg, force, ops, j);
    CertainHits(cfg, s.mood.mood, ResultContext(cfg, call).key, OLD_BONE);
    StaleChosen(cfg, s, call, ops[j].cls, result, e);
    StaleLogged(cfg, force, ops, j, result);
  }

  lemma CertainHits(cfg: Config, mood: Mood, key: string, fault: Fault)
    requires Chance(cfg, mood, fault) >= 1.0
    ensures Hits(cfg, mood, key, fault)
  {
    hide Chance;
    var d := Drawn(cfg.session.sha256, FireText(key, fault));
    EightIs(cfg.session.sha256(FireText(key, fault))[..8]);
    hide Eight;
    ScaleBelow(1.0, Chance(cfg, mood, fault), Draws.TWO64 as real);
    assert d < Draws.TWO64;
  }

  lemma StaleChosen(cfg: Config, s: State, call: Call, cls: Classification, result: LogicalResult, e: StaleEntry)
    requires e in s.cache && e.key == CallKey(cfg, call)
    requires Hits(cfg, s.mood.mood, ResultContext(cfg, call).key, OLD_BONE)
    requires forall f | f != OLD_BONE && Guard(cfg, s, call, cls, result, f) ::
               !Hits(cfg, s.mood.mood, ResultContext(cfg, call).key, f)
    ensures Chosen(cfg, s, call, cls, result, OLD_BONE)
  {
    hide Hits, Key, Guard;
    var hits := HitsAmong(cfg, s.mood.mood, ResultContext(cfg, call).key, iset f | Guard(cfg, s, call, cls, result, f));
    StaleIsGuarded(cfg, s, call, cls, result, e);
    assert ON_RESULT[11] == OLD_BONE && OLD_BONE in hits;
    forall i | 0 <= i < 11 ensures ON_RESULT[i] !in hits {
      assert ON_RESULT[i] != OLD_BONE;
    }
  }

  lemma StaleIsGuarded(cfg: Config, s: State, call: Call, cls: Classification, result: LogicalResult, e: StaleEntry)
    requires e in s.cache && e.key == CallKey(cfg, call)
    ensures Guard(cfg, s, call, cls, result, OLD_BONE)
  {
  }

  lemma SameCache(cfg: Config, force: bool, ops: seq<Operation>, j: nat)
    requires j < |ops| && TakesPart(ops[j])
    ensures AtResult(cfg, force, ops, j).0.cache == After(cfg, force, ops[..j]).cache
  {
    hide After, BeginOperation, BeforePhase, DeferredDebug, CallFor, Inv.Core, Inv.Timed, Inv.MoodOk, Inv.CacheOk;
    StepInvariants.Reachable(cfg, force, ops[..j]);
    StepInvariants.BeginKeeps(cfg, After(cfg, force, ops[..j]));
    var s0, call := OpenedAt(cfg, force, ops, j), CallAt(cfg, force, ops, j);
    BeforeCache(cfg, force, Begin(s0, call), call, ops[j].cls, Proceed);
    var (s1, before) := BeforePhase(cfg, force, Begin(s0, call), call, ops[j].cls);
    BeforeCache(cfg, force, s1, call, ops[j].cls, before);
  }

  lemma StaleLogged(cfg: Config, force: bool, ops: seq<Operation>, j: nat, result: LogicalResult)
    requires j < |ops| && Reads(cfg, force, ops, j, result) && !AtResult(cfg, force, ops, j).1.Slowed?
    requires FaultDone(cfg, AtResult(cfg, force, ops, j).0, CallAt(cfg, force, ops, j), result, OLD_BONE,
                       After(cfg, force, ops[..j + 1]), Answer(cfg, force, ops, j))
    ensures OldBoneAt(cfg, force, ops, j) && Answer(cfg, force, ops, j).Delivered?
  {
    hide After, Answer, CallAt, AtResult, ResultPhase, Key, DrawnDetails, ShuffledByDraws, BeginOperation;
    ReadEnds(cfg, force, ops, j, result);
  }

  // ----- Reading the backend's answer -----

  /** How many rows a statement may read: the cap counts only for SELECTs in scope. */
  predicate OverCap(cfg: Config, cls: Classification, rows: seq<Row>) {
    cfg.maxResultRows.Some? && InScope(cfg, cls.tables) && cls.kind == SELECT && |rows| > cfg.maxResultRows.value
  }

  /** In every run a statement that is not refused reads the backend's answer whole, passes the backend's failure on, or stops
      at the cap with one limit event and an error. */
  lemma StatementsRead(cfg: Config, force: bool, ops: seq<Operation>, j: nat)
    requires j < |ops| && TakesPart(ops[j]) && !AtResult(cfg, force, ops, j).1.Refused?
    ensures match ops[j].reply
            case Fails => Answer(cfg, force, ops, j) == Raised(BackendFailure)
            case NoRows(affected) => Reads(cfg, force, ops, j, LogicalResult([], [], affected, None))
            case Answers(columns, types, rows) =>
              if OverCap(cfg, ops[j].cls, rows) then StopsAtCap(cfg, force, ops, j)
              else Reads(cfg, force, ops, j, LogicalResult(columns, rows, |rows|, Some(types)))
  {
    hide After, BeginOperation, CallFor, BeforePhase, DeferredDebug, ResultPhase, InScope, ScopeApplies, Key,
         DecisionFor, LogLimit,
         LimitEvent;
    C.AfterNext(cfg, force, ops, j);
    ScopeIs(cfg, ops[j].cls.tables);
    var s0, call := OpenedAt(cfg, force, ops, j), CallAt(cfg, force, ops, j);
    var s1 := BeforePhase(cfg, force, Begin(s0, call), call, ops[j].cls).0;
    KeysAre(cfg, call);
    LogLimitIs(cfg, s1, DecisionFor(cfg, call, OnResult), LimitError,
               LimitDetails(MaxResultRows, if cfg.maxResultRows.Some? then cfg.maxResultRows.value else 0, None));
  }

  /** The statement ends with the limit event of its result cap, whose id its error carries. */
  predicate StopsAtCap(cfg: Config, force: bool, ops: seq<Operation>, j: nat)
    requires j < |ops| && TakesPart(ops[j])
  {
    var s0, call := OpenedAt(cfg, force, ops, j), CallAt(cfg, force, ops, j);
    var s1 := BeforePhase(cfg, force, Begin(s0, call), call, ops[j].cls).0;
    var log := After(cfg, force, ops[..j + 1]).log;
    && cfg.maxResultRows.Some?
    && log == s1.log + [LimitEvent(cfg, |s1.log| + 1, ResultContext(cfg, call), LimitError,
                                   LimitDetails(MaxResultRows, cfg.maxResultRows.value, None))]
    && Answer(cfg, force, ops, j) == Raised(TooManyRows(log[|s1.log|].eventId))
  }

  /** In every run a result that is slowed, out of scope or not of a SELECT is delivered as it was read, and no more is
      logged. */
  lemma OthersGetTheirResult(cfg: Config, force: bool, ops: seq<Operation>, j: nat, result: LogicalResult)
    requires j < |ops| && Reads(cfg, force, ops, j, result)
    requires AtResult(cfg, force, ops, j).1.Slowed? || !InScope(cfg, ops[j].cls.tables) || ops[j].cls.kind != SELECT
    ensures Answer(cfg, force, ops, j) == Delivered(result)
    ensures var s, s' := AtResult(cfg, force, ops, j).0, After(cfg, force, ops[..j + 1]);
            s'.log == s.log && s'.house == s.house
  {
    hide After, Answer, OpenedAt, CallAt, AtResult, Cached, InScope, ScopeApplies, Faults.OnResult, HasEffectiveWeight;
    ReadEnds(cfg, force, ops, j, result);
    ScopeIs(cfg, ops[j].cls.tables);
    CachedKeeps(cfg, AtResult(cfg, force, ops, j).0, CallAt(cfg, force, ops, j), ops[j].cls, result);
  }
}
