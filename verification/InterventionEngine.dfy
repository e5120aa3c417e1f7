/** One session as an object: its methods are the public operations, and the ghost history of the operations
    called so far ties its state and every answer to the runs of the state machine. */
module InterventionEngine {
  import opened Models
  import opened Decisions
  import opened Adapters
  import opened Faults
  import opened Session
  import opened Invariants
  import opened StepInvariants
  import FE = FaultEngine
  import C = StashCycle
  import H = House
  import AR = AutoReturn
  import M = MoodEngine
  import SC = StaleCache
  import S = Session

  class InterventionEngine {
    const cfg: Config
    const faults: FE.FaultEngine
    var logicalTick: Option<nat>
    ghost var operations: seq<Operation>

    ghost function Tick(): nat
      reads this
    {
      if logicalTick.Some? then logicalTick.value else 0
    }

    ghost function View(): State
      reads this, faults, faults.decisions, faults.events, faults.house, faults.mood, faults.autoReturn, faults.staleCache
    {
      faults.View(Tick())
    }

    ghost predicate Ready()
      reads this, faults, faults.decisions, faults.events, faults.house, faults.mood, faults.autoReturn, faults.staleCache
    {
      faults.Valid() && faults.cfg == cfg && (logicalTick.Some? <==> cfg.Clocked())
    }

    /** The state is the one the operations called so far lead to. */
    ghost predicate Valid()
      reads this, faults, faults.decisions, faults.events, faults.house, faults.mood, faults.autoReturn, faults.staleCache
    {
      Ready() && View() == After(cfg, false, operations)
    }

    constructor (cfg: Config)
      ensures Valid() && this.cfg == cfg && operations == []
      ensures fresh(faults) && fresh(faults.decisions) && fresh(faults.events) && fresh(faults.house)
      ensures (faults.mood != null ==> fresh(faults.mood)) && (faults.autoReturn != null ==> fresh(faults.autoReturn))
      ensures faults.staleCache != null ==> fresh(faults.staleCache)
    {
      this.cfg := cfg;
      faults := new FE.FaultEngine(cfg);
      logicalTick := if cfg.Clocked() then Some(0) else None;
      operations := [];
    }

    /** The operation just carried out joins the history. */
    ghost method Record(op: Operation, before: State)
      requires Ready() && before == After(cfg, false, operations) && View() == Step(cfg, false, before, op).0
      modifies `operations
      ensures Valid() && operations == old(operations) + [op]
      ensures Answer(cfg, false, operations, old(|operations|)) == Step(cfg, false, before, op).1
    {
      hide Step, After, Answer, FE.FaultEngine.View, FE.FaultEngine.Valid;
      RunGrows(cfg, operations, op);
      operations := operations + [op];
    }

    // ----- Returning treasures -----

    method LogReturn(treasure: Treasure, phase: Phase)
      requires Ready()
      modifies faults.events
      ensures Ready() && View() == S.LogReturn(cfg, old(View()), treasure, phase)
    {
      var id := DeterministicId(cfg.session, treasure.context.key, EventId(faults.events.NextSeq(), RETURN));
      hide DeterministicId;
      var _ := faults.events.Append(id, TreasureReturned, Some(STASH), Some(phase), Some(treasure.context),
                                    Some(GivenBack), ReturnDetails(treasure.treasureId));
    }

    method GiveBack(id: string, phase: Phase) returns (treasure: Option<Treasure>)
      requires Ready()
      modifies faults.events, faults.house
      ensures Ready() && View() == S.GiveBack(cfg, old(View()), id, phase)
      ensures treasure == H.Find(old(faults.house.treasures), id)
    {
      hide S.LogReturn, H.Distinct, H.Inverse;
      treasure := faults.house.ReturnTreasure(id);
      if treasure.Some? {
        LogReturn(treasure.value, phase);
      }
    }

    method ReturnTreasure(id: string) returns (treasure: Option<Treasure>)
      requires Valid()
      modifies this, faults.events, faults.house, faults.autoReturn
      ensures Valid() && operations == old(operations) + [Operation.ReturnTreasure(id)]
      ensures HandedBack(if treasure.Some? then [treasure.value] else []) ==
              Answer(cfg, false, operations, old(|operations|))
    {
      hide After, S.GiveBack, H.Distinct, H.Inverse, AR.Distinct;
      ghost var before := View();
      if faults.autoReturn != null {
        faults.autoReturn.Cancel(id);
      }
      assert View() == Cancel(cfg, before, id);
      treasure := GiveBack(id, ManualReturn);
      Record(Operation.ReturnTreasure(id), before);
    }

    method CancelAndLogOne(treasure: Treasure)
      requires Ready()
      modifies faults.events, faults.autoReturn
      ensures Ready() && View() == S.LogReturn(cfg, Cancel(cfg, old(View()), treasure.treasureId), treasure, ManualReturn)
    {
      hide S.LogReturn, H.Distinct, H.Inverse, AR.Distinct;
      ghost var s := View();
      if faults.autoReturn != null {
        faults.autoReturn.Cancel(treasure.treasureId);
      }
      assert View() == Cancel(cfg, s, treasure.treasureId);
      LogReturn(treasure, ManualReturn);
    }

    method CancelAndLogAll(returned: seq<Treasure>)
      requires Ready()
      modifies faults.events, faults.autoReturn
      ensures Ready() && View() == CancelAndLog(cfg, old(View()), returned)
    {
      hide S.LogReturn, CancelAndLog, Cancel, H.Distinct, H.Inverse, AR.Distinct, FE.FaultEngine.Valid, FE.FaultEngine.View;
      ghost var emptied := View();
      CancelAndLogNone(cfg, emptied, returned);
      for i := 0 to |returned|
        invariant Ready() && View() == CancelAndLog(cfg, emptied, returned[..i])
      {
        CancelAndLogStep(cfg, emptied, returned, i + 1);
        CancelAndLogOne(returned[i]);
      }
      assert returned[..|returned|] == returned;
    }

    method ReturnAll() returns (returned: seq<Treasure>)
      requires Valid()
      modifies this, faults.events, faults.house, faults.autoReturn
      ensures Valid() && operations == old(operations) + [Operation.ReturnAll]
      ensures HandedBack(returned) == Answer(cfg, false, operations, old(|operations|))
    {
      hide After, S.LogReturn, H.Distinct, H.Inverse, AR.Distinct, CancelAndLog;
      ghost var before := View();
      returned := faults.house.ReturnAll();
      ghost var emptied := View();
      assert emptied == before.(house := H.AllReturned(before.house));
      CancelAndLogAll(returned);
      Record(Operation.ReturnAll, before);
    }

    // ----- The logical clock -----

    method ReturnDue()
      requires Ready() && faults.autoReturn != null && logicalTick.Some?
      modifies faults.events, faults.house, faults.autoReturn
      ensures Ready() && View() == S.ReturnDue(cfg, old(View()))
    {
      hide S.GiveBack, GiveBackAll, H.Distinct, H.Inverse, AR.Distinct, AR.Due, AR.Advanced;
      ghost var s := View();
      var ids := faults.autoReturn.Advance(logicalTick.value);
      ghost var advanced := View();
      assert advanced == s.(schedule := AR.Advanced(s.schedule, s.tick)) && ids == AR.Due(s.schedule, s.tick);
      GiveBackNone(cfg, advanced, AutoReturn);
      for i := 0 to |ids|
        invariant Ready() && View() == GiveBackAll(cfg, advanced, ids[..i], AutoReturn)
      {
        GiveBackAllStep(cfg, advanced, ids[..i + 1], AutoReturn);
        assert ids[..i + 1][..i] == ids[..i];
        var _ := GiveBack(ids[i], AutoReturn);
      }
      assert ids[..|ids|] == ids;
    }

    method LogMood(t: M.MoodTransition)
      requires Ready()
      modifies faults.events
      ensures Ready()
      ensures View() == Logged(old(View()), NextEventId(cfg, old(View()), t.derivationKey, MOOD), MoodChanged, None, None,
                               None, None, MoodDetails(t.previous, t.current, t.tick))
    {
      hide DeterministicId, H.Distinct, H.Inverse, AR.Distinct;
      var id := DeterministicId(cfg.session, t.derivationKey, EventId(faults.events.NextSeq(), MOOD));
      var _ := faults.events.Append(id, MoodChanged, None, None, None, None, MoodDetails(t.previous, t.current, t.tick));
    }

    method AdvanceMood()
      requires Ready()
      modifies faults.events, faults.mood
      ensures Ready() && View() == S.AdvanceMood(cfg, old(View()))
    {
      if faults.mood == null {
        return;
      }
      hide M.Advanced, M.Transition, NextEventId, Logged, H.Distinct, H.Inverse, AR.Distinct;
      var transition := faults.mood.Advance();
      if transition == None {
        return;
      }
      LogMood(transition.value);
    }

    /** Due treasures come back first, then the mood moves; the mood's own clock stays in step. */
    method BeginOperation()
      requires Ready() && MoodOk(cfg, View())
      modifies `logicalTick, faults.events, faults.house, faults.mood, faults.autoReturn
      ensures Ready() && View() == S.BeginOperation(cfg, old(View()))
      ensures faults.mood != null ==> faults.mood.tick == Tick()
    {
      hide S.ReturnDue, S.AdvanceMood, MoodAt, H.Distinct, H.Inverse, AR.Distinct;
      ghost var before := View();
      if logicalTick == None {
        return;
      }
      logicalTick := Some(logicalTick.value + 1);
      ghost var s := View();
      assert s == before.(tick := before.tick + 1);
      if faults.autoReturn != null {
        ReturnDue();
      }
      assert View() == S.ReturnDue(cfg, s) by {
        if cfg.autoReturn.None? {
          NothingDue(cfg, s);
        }
      }
      ReturnDueKeepsMood(cfg, s);
      MoodTicks(cfg, S.ReturnDue(cfg, s));
      AdvanceMood();
    }

    // ----- Statements -----

    /** The adapter: a failing backend raises, any other answer is read through a cursor. */
    method Read(reply: Reply, rowCap: Option<nat>) returns (fetched: Fetched)
      ensures fetched == Fetch(reply, rowCap)
    {
      if reply.Fails? {
        return BackendError;
      }
      var cursor := new Cursor(reply);
      fetched := Materialize(cursor, rowCap);
    }

    /** The result faults, if the phase runs at all. */
    method Evaluate(call: Call, cls: Classification, slowed: bool, result: LogicalResult) returns (delivery: Delivery)
      requires Ready() && Sound(cfg, View())
      modifies faults.events, faults.house, faults.autoReturn
      ensures var s := old(View());
              && Ready()
              && (View(), delivery) ==
                 (if Intervenes(cfg, false, s.mood.mood, cls, slowed, |result.rows|)
                  then Faults.OnResult(cfg, s, DecisionFor(cfg, call, Phase.OnResult), cls, result)
                  else (s, Delivered(result)))
    {
      hide Sound, Faults.OnResult, DecisionFor, Faults.HasEffectiveWeight, H.Distinct, H.Inverse, AR.Distinct;
      var scopedSelect := ScopedSelect(cfg, cls);
      var cacheResult := faults.staleCache != null && scopedSelect;
      var oversized := scopedSelect && |result.rows| > cfg.maxInterventionRows;
      var weighted := cfg.debug || oversized;
      if scopedSelect && !slowed && !weighted {
        weighted := faults.HasEffectiveWeight(ON_RESULT_PRIORITY);
      }
      var evaluate := scopedSelect && ((!slowed && weighted) || cacheResult);
      delivery := Delivered(result);
      if evaluate && !slowed {
        delivery := faults.OnResult(Tick(), DecisionFor(cfg, call, Phase.OnResult), cls, result);
      }
    }

    /** The cache keeps what the client receives. */
    method Remember(call: Call, cls: Classification, result: LogicalResult)
      requires Ready() && CacheBelow(cfg, View(), call)
      modifies faults.staleCache
      ensures Ready() && View() == Cached(cfg, old(View()), call, cls, result)
    {
      hide DecisionFor, SC.Added, SC.Room, SC.Distinct, SC.Bounded, SC.Views, SC.NoEmptyDeque, H.Distinct, H.Inverse,
           AR.Distinct;
      if faults.staleCache != null && ScopedSelect(cfg, cls) {
        DecisionKeyLength(cfg, call, Phase.OnResult);
        var key := KeyFor(cfg, DecisionFor(cfg, call, Phase.OnResult));
        SC.RoomKeepsFresh(faults.staleCache.entries, key, call.occurrence, PER_FINGERPRINT);
        var _ := faults.staleCache.Add(key, call.occurrence, result);
      }
    }

    method ResultPhase(call: Call, cls: Classification, slowed: bool, result: LogicalResult) returns (delivery: Delivery)
      requires Ready() && Sound(cfg, View()) && CacheBelow(cfg, View(), call)
      modifies faults.events, faults.house, faults.autoReturn, faults.staleCache
      ensures Ready() && (View(), delivery) == S.ResultPhase(cfg, false, old(View()), call, cls, slowed, result)
    {
      hide Sound, CacheOk, Faults.OnResult, DecisionFor, Intervenes, Cached, FE.FaultEngine.Valid, FE.FaultEngine.View;
      ghost var s := View();
      DecisionKeyLength(cfg, call, Phase.OnResult);
      OnResultKept(cfg, s, DecisionFor(cfg, call, Phase.OnResult), cls, result);
      delivery := Evaluate(call, cls, slowed, result);
      CacheFrame(cfg, s, View());
      if delivery.Delivered? {
        Remember(call, cls, delivery.result);
      }
    }

    method RefuseResult(call: Call) returns (delivery: Delivery)
      requires Ready() && cfg.maxResultRows.Some?
      modifies faults.events
      ensures Ready() && (View(), delivery) == S.RefuseResult(cfg, old(View()), call)
    {
      hide LogLimit, DecisionFor;
      var event := faults.RecordLimit(Tick(), DecisionFor(cfg, call, Phase.OnResult), LimitError,
                                      LimitDetails(MaxResultRows, cfg.maxResultRows.value, None));
      return Raised(TooManyRows(event.eventId));
    }

    method BeforePhase(call: Call, cls: Classification) returns (before: Before, eventId: string, evaluated: bool)
      requires Ready()
      modifies faults.events
      ensures Ready() && (View(), before) == S.BeforePhase(cfg, false, old(View()), call, cls)
      ensures evaluated == EvaluatesBefore(cfg, false, old(View()).mood.mood, cls)
      ensures before.Refused? ==> View().log != [] && eventId == LastEventId(View())
    {
      hide BeforeExecution, DecisionFor, Faults.HasEffectiveWeight, H.Distinct, H.Inverse, AR.Distinct;
      var scoped := ScopeApplies(cfg, cls.tables);
      var cappedRead := cfg.maxResultRows.Some? && scoped && cls.kind == SELECT;
      evaluated := scoped && cfg.debug;
      if scoped && !cfg.debug {
        evaluated := faults.HasEffectiveWeight(BEFORE_EXECUTE_PRIORITY);
      }
      before, eventId := Proceed, "";
      if evaluated {
        before, eventId := faults.BeforeExecute(Tick(), DecisionFor(cfg, call, Phase.BeforeExecute), !cappedRead);
      }
    }

    /** A read that completed: the deferred decision event, then the result phase. */
    method Complete(call: Call, cls: Classification, before: Before, evaluated: bool, result: LogicalResult)
      returns (delivery: Delivery)
      requires Ready() && Sound(cfg, View()) && CacheBelow(cfg, View(), call)
      requires evaluated == EvaluatesBefore(cfg, false, View().mood.mood, cls)
      modifies faults.events, faults.house, faults.autoReturn, faults.staleCache
      ensures var s2 := DeferredDebug(cfg, false, old(View()), call, cls, before);
              Ready() && (View(), delivery) == S.ResultPhase(cfg, false, s2, call, cls, before.Slowed?, result)
    {
      hide Sound, CacheOk, LogDecision, S.ResultPhase, DecisionFor, EvaluatesBefore, H.Distinct, H.Inverse, AR.Distinct;
      ghost var s := View();
      DeferredKept(cfg, false, s, call, cls, before);
      CacheFrame(cfg, s, DeferredDebug(cfg, false, s, call, cls, before));
      if cfg.maxResultRows.Some? && ScopedSelect(cfg, cls) && evaluated && before == Proceed {
        faults.RecordDecision(Tick(), DecisionFor(cfg, call, Phase.BeforeExecute), BEFORE_EXECUTE_PRIORITY);
      }
      delivery := ResultPhase(call, cls, before.Slowed?, result);
    }

    method Intervene(call: Call, cls: Classification, reply: Reply) returns (delivery: Delivery)
      requires Ready() && Sound(cfg, View()) && CacheBelow(cfg, View(), call)
      modifies faults.events, faults.house, faults.autoReturn, faults.staleCache
      ensures Ready() && (View(), delivery) == S.Intervene(cfg, false, old(View()), call, cls, reply)
    {
      hide Sound, CacheOk, S.BeforePhase, DeferredDebug, S.ResultPhase, S.RefuseResult, EvaluatesBefore, Fetch,
           FE.FaultEngine.Valid, FE.FaultEngine.View;
      ghost var s := View();
      BeforePhaseKept(cfg, false, s, call, cls);
      var before, eventId, evaluated := BeforePhase(call, cls);
      if before.Refused? {
        return Raised(Injected(before.fault, eventId));
      }
      var cappedRead := cfg.maxResultRows.Some? && ScopedSelect(cfg, cls);
      var fetched := Read(reply, if cappedRead then Some(cfg.maxResultRows.value as nat) else None);
      if fetched == BackendError {
        return Raised(BackendFailure);
      }
      if fetched == CapExceeded {
        CapRefuses(reply, RowCap(cfg, cls));
        delivery := RefuseResult(call);
        return;
      }
      CacheFrame(cfg, s, View());
      BeforeKeepsMood(cfg, s, call, cls);
      delivery := Complete(call, cls, before, evaluated, fetched.result);
    }

    method PassThrough(reason: Reason, reply: Reply) returns (delivery: Delivery)
      ensures delivery == S.PassThrough(cfg, reason, reply)
    {
      if cfg.onPassthrough == PassthroughMode.Error && reason != TransactionStatement {
        return Raised(PassthroughRefused);
      }
      var fetched := Read(reply, None);
      return if fetched.Fetched? then Delivered(fetched.result) else Raised(BackendFailure);
    }

    /** A statement that is not passed through counts an occurrence and is intervened in. */
    method TakePart(sql: string, params: Params, cls: Classification, reply: Reply) returns (delivery: Delivery)
      requires Ready() && Sound(cfg, View()) && CacheOk(cfg, View()) && params.Positional?
      modifies faults.decisions, faults.events, faults.house, faults.autoReturn, faults.staleCache
      ensures var s := old(View());
              var call := CallFor(cfg, s, Operation.Execute(sql, params, cls, reply));
              Ready() && (View(), delivery) == S.Intervene(cfg, false, Begin(s, call), call, cls, reply)
    {
      hide Sound, CacheOk, CacheBelow, S.Intervene, H.Distinct, H.Inverse, AR.Distinct, TemplateFingerprint;
      ghost var s := View();
      var template := TemplateFingerprint(cfg.session.sha256, sql);
      var occurrence := faults.decisions.Begin(template);
      var call := Call(template, params.fingerprint, occurrence);
      assert View() == Begin(s, call);
      BegunCache(cfg, s, call);
      BegunFrame(cfg, s, call);
      delivery := Intervene(call, cls, reply);
    }

    method Execute(sql: string, params: Params, cls: Classification, reply: Reply) returns (delivery: Delivery)
      requires Valid()
      modifies this, faults.decisions, faults.events, faults.house, faults.mood, faults.autoReturn, faults.staleCache
      ensures Valid() && operations == old(operations) + [Operation.Execute(sql, params, cls, reply)]
      ensures delivery == Answer(cfg, false, operations, old(|operations|))
    {
      hide After, Core, Timed, CacheOk, S.BeginOperation, S.Intervene, CallFor, S.PassThrough, H.Distinct, H.Inverse,
           AR.Distinct, MoodOk;
      ghost var before, op := View(), Operation.Execute(sql, params, cls, reply);
      Reachable(cfg, false, operations);
      BeginKeeps(cfg, before);
      BeginOperation();
      ghost var s0 := View();
      var reason := PassthroughReason(params, cls);
      if reason.Some? {
        delivery := PassThrough(reason.value, reply);
      } else {
        CacheOkFrame(cfg, before, s0);
        delivery := TakePart(sql, params, cls, reply);
      }
      assert (View(), delivery) == Step(cfg, false, before, op);
      Record(op, before);
    }

    method ExecuteMany(affected: Option<int>) returns (delivery: Delivery)
      requires Valid()
      modifies this, faults.events, faults.house, faults.mood, faults.autoReturn
      ensures Valid() && operations == old(operations) + [Operation.ExecuteMany(affected)]
      ensures delivery == Answer(cfg, false, operations, old(|operations|))
    {
      hide After, Core, Timed, CacheOk, S.BeginOperation, MoodOk, H.Distinct, H.Inverse, AR.Distinct;
      ghost var before := View();
      Reachable(cfg, false, operations);
      BeginOperation();
      delivery := if affected.Some? then Delivered(LogicalResult([], [], affected.value, None)) else Raised(BackendFailure);
      Record(Operation.ExecuteMany(affected), before);
    }
  }

  lemma RunGrows(cfg: Config, ops: seq<Operation>, op: Operation)
    ensures After(cfg, false, ops + [op]) == Step(cfg, false, After(cfg, false, ops), op).0
    ensures Answer(cfg, false, ops + [op], |ops|) == Step(cfg, false, After(cfg, false, ops), op).1
  {
    hide Step, After;
    var all, n := ops + [op], |ops|;
    assert all[..n] == ops && all[..n + 1] == all && all[n] == op;
    C.AfterNext(cfg, false, all, n);
  }

  lemma NothingDue(cfg: Config, s: State)
    requires cfg.autoReturn.None?
    ensures S.ReturnDue(cfg, s) == s
  {
  }

  lemma {:induction false} GiveBackAllKeepsMood(cfg: Config, s: State, ids: seq<string>, phase: Phase)
    ensures GiveBackAll(cfg, s, ids, phase).mood == s.mood && GiveBackAll(cfg, s, ids, phase).tick == s.tick
  {
    if ids != [] {
      GiveBackAllKeepsMood(cfg, s, ids[..|ids| - 1], phase);
      GiveBackFrame(cfg, GiveBackAll(cfg, s, ids[..|ids| - 1], phase), ids[|ids| - 1], phase);
      hide S.GiveBack;
    }
  }

  lemma ReturnDueKeepsMood(cfg: Config, s: State)
    ensures S.ReturnDue(cfg, s).mood == s.mood && S.ReturnDue(cfg, s).tick == s.tick
  {
    hide GiveBackAll, AR.Due, AR.Advanced;
    if cfg.autoReturn.Some? {
      GiveBackAllKeepsMood(cfg, s.(schedule := AR.Advanced(s.schedule, s.tick)), AR.Due(s.schedule, s.tick), AutoReturn);
    }
  }

  lemma MoodTicks(cfg: Config, s: State)
    ensures cfg.mood.Some? ==> S.AdvanceMood(cfg, s).mood.tick == s.mood.tick + 1
  {
    hide M.MoodOf, M.Transition, NextEventId;
  }

  lemma BeforeKeepsMood(cfg: Config, s: State, call: Call, cls: Classification)
    requires Sound(cfg, s)
    ensures S.BeforePhase(cfg, false, s, call, cls).0.mood == s.mood
  {
    hide Sound, S.BeforePhase;
    BeforePhaseKept(cfg, false, s, call, cls);
  }

  lemma CapRefuses(reply: Reply, rowCap: Option<nat>)
    ensures Fetch(reply, rowCap) == CapExceeded ==> rowCap.Some?
  {
  }
}
