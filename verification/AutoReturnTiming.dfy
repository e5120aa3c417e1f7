/** When a stashed row comes back by itself: at the start of exactly the operation its hold names,
    in the order in which the returns were planned. */
module AutoReturnTiming {
  import opened Models
  import opened Decisions
  import opened Faults
  import opened Session
  import opened Adapters
  import opened Invariants
  import opened StepInvariants
  import L = LogTheorems
  import C = StashCycle
  import H = House
  import AR = AutoReturn
  import M = MoodEngine
  import SC = StaleCache

  // ----- The order of returns -----

  lemma {:induction false} SortedIsFixed(ps: seq<AR.Pending>)
    requires AR.Sorted(ps)
    ensures AR.SortDue(ps) == ps
  {
    if ps != [] {
      assert ps == [ps[0]] + ps[1..];
      SortedIsFixed(ps[1..]);
    }
  }

  lemma {:induction false} DueAscending(ps: seq<AR.Pending>, tick: nat)
    requires Ascending(ps) && forall p | p in ps :: p.due >= tick
    ensures AR.Sorted(AR.DueBy(ps, tick))
  {
    if ps != [] {
      assert ps == [ps[0]] + ps[1..];
      DueAscending(ps[1..], tick);
      var rest := AR.DueBy(ps[1..], tick);
      forall i | 0 <= i < |rest| ensures ps[0].due <= tick ==> AR.Earlier(ps[0], rest[i]) {
        assert rest[i] in rest;
      }
    }
  }

  /** What is due at the next tick is due exactly then, and comes in the order in which it was planned. */
  lemma DueInStashOrder(cfg: Config, s: State)
    requires Timed(cfg, s) && cfg.autoReturn.Some?
    ensures AR.Due(s.schedule, s.tick + 1) == AR.Ids(AR.DueBy(s.schedule.scheduled, s.tick + 1))
    ensures forall p | p in AR.DueBy(s.schedule.scheduled, s.tick + 1) :: p.due == s.tick + 1
  {
    DueAscending(s.schedule.scheduled, s.tick + 1);
    SortedIsFixed(AR.DueBy(s.schedule.scheduled, s.tick + 1));
  }

  // ----- One operation -----

  ghost predicate Holds(s: State, p: AR.Pending) {
    p in s.schedule.scheduled && p.treasureId in HouseIds(s.house.treasures)
  }

  /** The log grew by an automatic return of this treasure. */
  ghost predicate ComesBack(s: State, s': State, id: string) {
    s.log <= s'.log && exists e | e in s'.log[|s.log|..] ::
      e.eventType == TreasureReturned && e.phase == Some(AutoReturn) && e.details == ReturnDetails(id)
  }

  lemma ComesBackExtends(s: State, s1: State, s2: State, id: string)
    requires s.log <= s1.log <= s2.log && (ComesBack(s, s1, id) || ComesBack(s1, s2, id))
    ensures ComesBack(s, s2, id)
  {
    assert s2.log[|s.log|..] == s1.log[|s.log|..] + s2.log[|s1.log|..];
  }

  lemma GiveBackComesBack(cfg: Config, s: State, id: string)
    requires id in HouseIds(s.house.treasures)
    ensures ComesBack(s, GiveBack(cfg, s, id, AutoReturn), id)
  {
    hide NextEventId;
    H.FindFacts(s.house.treasures, id);
    var s' := GiveBack(cfg, s, id, AutoReturn);
    assert s'.log[|s.log|..] == [s'.log[|s.log|]];
    assert s'.log[|s.log|] in s'.log[|s.log|..];
  }

  lemma GiveBackGrows(cfg: Config, s: State, id: string, phase: Phase)
    ensures s.log <= GiveBack(cfg, s, id, phase).log
  {
    hide NextEventId;
  }

  lemma {:induction false} GiveBackAllComesBack(cfg: Config, s: State, ids: seq<string>, id: string)
    requires Core(cfg, s)
    ensures s.log <= GiveBackAll(cfg, s, ids, AutoReturn).log
    ensures id in ids && id in HouseIds(s.house.treasures) ==> ComesBack(s, GiveBackAll(cfg, s, ids, AutoReturn), id)
  {
    hide GiveBackAll, GiveBack, ComesBack, Core, HouseIds;
    if ids == [] {
      GiveBackNone(cfg, s, AutoReturn);
    } else {
      var front, last := ids[..|ids| - 1], ids[|ids| - 1];
      GiveBackAllComesBack(cfg, s, front, id);
      GiveBackAllIds(cfg, s, front, AutoReturn);
      GiveBackAllStep(cfg, s, ids, AutoReturn);
      var s1, s' := GiveBackAll(cfg, s, front, AutoReturn), GiveBackAll(cfg, s, ids, AutoReturn);
      GiveBackGrows(cfg, s1, last, AutoReturn);
      assert ids == front + [last];
      if id in front {
        if id in HouseIds(s.house.treasures) {
          ComesBackExtends(s, s1, s', id);
        }
      } else if id == last && id in HouseIds(s.house.treasures) {
        GiveBackComesBack(cfg, s1, id);
        ComesBackExtends(s, s1, s', id);
      }
    }
  }

  lemma AdvancedHolds(sch: AR.Timetable, tick: nat, p: AR.Pending)
    requires ScheduleOk(sch) && p in sch.scheduled
    ensures p.treasureId in AR.Due(sch, tick) <==> p.due <= tick
    ensures p.due > tick ==> p in AR.Advanced(sch, tick).scheduled
  {
    AR.IdsOfDue(sch.scheduled, AR.SortDue(AR.DueBy(sch.scheduled, tick)), tick);
  }

  lemma ReturnDueReturns(cfg: Config, s: State, p: AR.Pending)
    requires Core(cfg, s) && Timed(cfg, s) && cfg.autoReturn.Some? && Holds(s, p)
    ensures var s2 := ReturnDue(cfg, s.(tick := s.tick + 1));
            && s.log <= s2.log
            && (p.due > s.tick + 1 ==> Holds(s2, p))
            && (p.due <= s.tick + 1 ==> p.treasureId !in HouseIds(s2.house.treasures) && ComesBack(s, s2, p.treasureId))
  {
    var tick := s.tick + 1;
    var ids := AR.Due(s.schedule, tick);
    var s1 := s.(tick := tick, schedule := AR.Advanced(s.schedule, tick));
    AdvancedHolds(s.schedule, tick, p);
    assert Core(cfg, s1);
    HeldId(s, p);
    hide Core, Timed, HouseIds, AR.Advanced, AR.Due, GiveBackAll, ComesBack;
    GiveBackAllIds(cfg, s1, ids, AutoReturn);
    GiveBackAllComesBack(cfg, s1, ids, p.treasureId);
    var s2 := GiveBackAll(cfg, s1, ids, AutoReturn);
    ComesBackFrame(s, s1, s2, p.treasureId);
    assert s2 == ReturnDue(cfg, s.(tick := tick));
    assert p.treasureId in HouseIds(s2.house.treasures) <==> p.treasureId !in ids;
  }

  /** At the start of a statement a held treasure stays if its hold is not over, and comes back if it is. */
  lemma OpeningReturns(cfg: Config, s: State, p: AR.Pending)
    requires Inv(cfg, s) && cfg.autoReturn.Some? && Holds(s, p)
    ensures var s0 := BeginOperation(cfg, s);
            && s.log <= s0.log
            && (p.due > s.tick + 1 ==> Holds(s0, p))
            && (p.due <= s.tick + 1 ==> p.treasureId !in HouseIds(s0.house.treasures) && ComesBack(s, s0, p.treasureId))
  {
    hide Core, Timed, HouseIds, ReturnDue, ComesBack, M.Advanced, M.Transition, NextEventId, MoodOk, CacheOk, Holds;
    ReturnDueReturns(cfg, s, p);
    var s2 := ReturnDue(cfg, s.(tick := s.tick + 1));
    var s0 := AdvanceMood(cfg, s2);
    assert s2.log <= s0.log && s0.house == s2.house && s0.schedule == s2.schedule;
    if p.due > s.tick + 1 {
      HoldsFrame(s2, s0, p);
    } else {
      ComesBackExtends(s, s2, s0, p.treasureId);
    }
  }

  lemma ComesBackFrame(s: State, s1: State, s': State, id: string)
    requires s.log == s1.log
    ensures ComesBack(s, s', id) == ComesBack(s1, s', id)
  {
  }

  // ----- The order of the logged returns -----

  predicate IsAutoReturn(e: Event, id: string) {
    e.eventType == TreasureReturned && e.phase == Some(AutoReturn) && e.details == ReturnDetails(id)
  }

  /** The log grew by exactly one automatic return for each of these ids, in this order. */
  ghost predicate ReturnsLogged(s: State, s': State, ids: seq<string>) {
    && s.log <= s'.log && |s'.log| == |s.log| + |ids|
    && forall i | 0 <= i < |ids| :: IsAutoReturn(s'.log[|s.log| + i], ids[i])
  }

  lemma GiveBackLogs(cfg: Config, s: State, s1: State, ids: seq<string>, id: string)
    requires ReturnsLogged(s, s1, ids) && id in HouseIds(s1.house.treasures)
    ensures ReturnsLogged(s, GiveBack(cfg, s1, id, AutoReturn), ids + [id])
  {
    hide NextEventId;
    H.FindFacts(s1.house.treasures, id);
  }

  lemma {:induction false} GiveBackAllLogs(cfg: Config, s: State, ids: seq<string>)
    requires Core(cfg, s) && (forall i, j | 0 <= i < j < |ids| :: ids[i] != ids[j])
    requires forall id | id in ids :: id in HouseIds(s.house.treasures)
    ensures ReturnsLogged(s, GiveBackAll(cfg, s, ids, AutoReturn), ids)
  {
    hide Core, HouseIds, GiveBack, GiveBackAll;
    if ids == [] {
      GiveBackNone(cfg, s, AutoReturn);
    } else {
      var front, last := ids[..|ids| - 1], ids[|ids| - 1];
      assert ids == front + [last];
      GiveBackAllLogs(cfg, s, front);
      GiveBackAllIds(cfg, s, front, AutoReturn);
      GiveBackAllStep(cfg, s, ids, AutoReturn);
      hide ReturnsLogged;
      GiveBackLogs(cfg, s, GiveBackAll(cfg, s, front, AutoReturn), front, last);
    }
  }

  lemma {:induction false} DifferentIds(ps: seq<AR.Pending>)
    requires AR.Distinct(ps)
    ensures forall i, j | 0 <= i < j < |ps| :: ps[i].treasureId != ps[j].treasureId
  {
    if ps != [] {
      DifferentIds(ps[1..]);
      assert forall i | 0 < i < |ps| :: ps[i] == ps[1..][i - 1] && ps[i] in ps[1..];
    }
  }

  lemma DueIds(cfg: Config, s: State)
    requires Timed(cfg, s) && cfg.autoReturn.Some?
    ensures var ids := AR.Due(s.schedule, s.tick + 1);
            && ids == AR.Ids(AR.DueBy(s.schedule.scheduled, s.tick + 1))
            && (forall i, j | 0 <= i < j < |ids| :: ids[i] != ids[j])
            && (forall id | id in ids :: id in HouseIds(s.house.treasures))
  {
    var due := AR.DueBy(s.schedule.scheduled, s.tick + 1);
    DueInStashOrder(cfg, s);
    DifferentIds(due);
    hide AR.DueBy, AR.SortDue, AR.Distinct, Ascending, HouseIds;
    forall id | id in AR.Ids(due) ensures id in PendingIds(s.schedule.scheduled) {
      var i :| 0 <= i < |due| && AR.Ids(due)[i] == id;
      assert due[i] in due;
    }
  }

  lemma ReturnDueLogs(cfg: Config, s: State)
    requires Core(cfg, s) && Timed(cfg, s) && cfg.autoReturn.Some?
    ensures ReturnsLogged(s, ReturnDue(cfg, s.(tick := s.tick + 1)), AR.Due(s.schedule, s.tick + 1))
  {
    DueIds(cfg, s);
    hide Timed, HouseIds, PendingIds, AR.Advanced, AR.Due, AR.DueBy, AR.Ids, GiveBackAll, ReturnsLogged, LogFine, HouseOk;
    var s1 := s.(tick := s.tick + 1, schedule := AR.Advanced(s.schedule, s.tick + 1));
    FineLater(cfg, s, s1);
    GiveBackAllLogs(cfg, s1, AR.Due(s.schedule, s.tick + 1));
    ReturnsLoggedFrame(s, s1, ReturnDue(cfg, s.(tick := s.tick + 1)), AR.Due(s.schedule, s.tick + 1));
  }

  lemma MoodLogs(cfg: Config, s: State)
    ensures var s' := AdvanceMood(cfg, s);
            && s.log <= s'.log && |s'.log| <= |s.log| + 1
            && (|s'.log| > |s.log| ==> s'.log[|s.log|].eventType == MoodChanged)
  {
    hide M.Advanced, M.Transition, NextEventId;
  }

  /** A statement opens with one return event for each treasure due at its tick, in the order of the schedule;
      nothing but a mood change can follow before the statement itself. */
  lemma ReturnsInStashOrder(cfg: Config, s: State)
    requires Inv(cfg, s) && cfg.autoReturn.Some?
    ensures var s2, s0 := ReturnDue(cfg, s.(tick := s.tick + 1)), BeginOperation(cfg, s);
            && ReturnsLogged(s, s2, AR.Ids(AR.DueBy(s.schedule.scheduled, s.tick + 1)))
            && s2.log <= s0.log && |s0.log| <= |s2.log| + 1
            && (|s0.log| > |s2.log| ==> s0.log[|s2.log|].eventType == MoodChanged)
  {
    hide Core, Timed, AR.Due, AR.DueBy, AR.Ids, ReturnsLogged, ReturnDue, AdvanceMood, MoodOk, CacheOk, HouseIds;
    ReturnDueLogs(cfg, s);
    DueIds(cfg, s);
    MoodLogs(cfg, ReturnDue(cfg, s.(tick := s.tick + 1)));
  }

  lemma FineLater(cfg: Config, s: State, s': State)
    requires LogFine(cfg, s) && s'.log == s.log && s'.mood == s.mood && s'.tick >= s.tick
    ensures LogFine(cfg, s')
  {
  }

  lemma ReturnsLoggedFrame(s: State, s1: State, s': State, ids: seq<string>)
    requires s1.log == s.log
    ensures ReturnsLogged(s, s', ids) == ReturnsLogged(s1, s', ids)
  {
  }

  /** The rest of a statement takes nothing out of the house and cancels nothing. */
  lemma InterveneHolds(cfg: Config, force: bool, s: State, call: Call, cls: Classification, reply: Reply, p: AR.Pending)
    requires Sound(cfg, s) && Holds(s, p)
    ensures Holds(Intervene(cfg, force, s, call, cls, reply).0, p)
  {
    hide BeforePhase, DeferredDebug, Faults.OnResult, NextEventId, Intervenes, Fetch, KeyFor, DecisionFor, Sound, Holds;
    BeforePhaseHolds(cfg, force, s, call, cls, p);
    BeforePhaseKept(cfg, force, s, call, cls);
    var (s1, before) := BeforePhase(cfg, force, s, call, cls);
    HoldsFrame(s1, RefuseResult(cfg, s1, call).0, p);
    DeferredHolds(cfg, force, s1, call, cls, before, p);
    DeferredKept(cfg, force, s1, call, cls, before);
    var s2 := DeferredDebug(cfg, force, s1, call, cls, before);
    if Fetch(reply, RowCap(cfg, cls)).Fetched? {
      var result := Fetch(reply, RowCap(cfg, cls)).result;
      var (s3, delivery) := Faults.OnResult(cfg, s2, DecisionFor(cfg, call, OnResult), cls, result);
      OnResultHolds(cfg, s2, DecisionFor(cfg, call, OnResult), cls, result, p);
      if delivery.Delivered? {
        HoldsFrame(s3, Cached(cfg, s3, call, cls, delivery.result), p);
      }
      HoldsFrame(s2, Cached(cfg, s2, call, cls, result), p);
    }
  }

  lemma HoldsFrame(s: State, s': State, p: AR.Pending)
    requires Holds(s, p) && s'.schedule == s.schedule && s'.house.treasures == s.house.treasures
    ensures Holds(s', p)
  {
  }

  lemma BeforePhaseHolds(cfg: Config, force: bool, s: State, call: Call, cls: Classification, p: AR.Pending)
    requires Holds(s, p)
    ensures Holds(BeforePhase(cfg, force, s, call, cls).0, p)
  {
    hide NextEventId, BeforeFault, DecisionFor, EvaluatesBefore, Draw;
  }

  lemma DeferredHolds(cfg: Config, force: bool, s: State, call: Call, cls: Classification, before: Before, p: AR.Pending)
    requires Holds(s, p)
    ensures Holds(DeferredDebug(cfg, force, s, call, cls, before), p)
  {
    hide NextEventId, DecisionFor, EvaluatesBefore;
  }

  lemma StashHolds(cfg: Config, s: State, d: Decision, result: LogicalResult, p: AR.Pending)
    requires Timed(cfg, s) && result.rows != [] && Holds(s, p)
    ensures Holds(Stash(cfg, s, d, result).0, p)
  {
    hide NextEventId, AR.HoldFor, AR.Planned, DeterministicId, Index, ScheduleOk, H.Vacant, HouseIds, PendingIds;
    var t := NewTreasure(cfg, s, d, result);
    if H.Admits(s.house, t, cfg.houseLimit) {
      AdmittedIds(s.house.treasures, t);
      if cfg.autoReturn.Some? {
        PlannedOk(s.schedule, t.treasureId, AR.HoldFor(cfg.autoReturn.value, cfg.session, d.context.key));
      }
    }
  }

  /** The on-result phase leaves treasures and schedule alone unless it is a stash. */
  lemma OnResultStashes(cfg: Config, s: State, d: Decision, cls: Classification, result: LogicalResult)
    ensures var s' := Faults.OnResult(cfg, s, d, cls, result).0;
            || (s'.schedule == s.schedule && s'.house.treasures == s.house.treasures)
            || (result.rows != [] && s' == Stash(cfg, s.(house := H.Consumed(s.house, d.context.template)), d, result).0)
  {
    hide Drops, NextEventId, H.ActiveFor, Treated, Stash;
    TreatedStashes(cfg, s, d, cls, result);
  }

  lemma TreatedStashes(cfg: Config, s: State, d: Decision, cls: Classification, result: LogicalResult)
    ensures var s' := Treated(cfg, s, d, cls, result).0;
            || (s'.schedule == s.schedule && s'.house.treasures == s.house.treasures)
            || (result.rows != [] && s' == Stash(cfg, s.(house := H.Consumed(s.house, d.context.template)), d, result).0)
  {
    hide LogFault, NextEventId, ChewFor, History, Candidates, Fires, Stash, Inject, Select;
    var released, s1 := d.context.template in s.house.released, s.(house := H.Consumed(s.house, d.context.template));
    var chew, history := ChewFor(cfg, d, result), History(cfg, s, d);
    var candidates := Candidates(cfg, released, cls, result, chew.Some?, history != []);
    match Select(cfg, s.mood.mood, d.context.key, ON_RESULT_PRIORITY, candidates) {
      case None =>
      case Some(fault) =>
        CandidateApplies(cfg, released, cls, result, chew, history, fault);
        if fault != STASH && fault != STASH_ERROR {
          var injection := Inject(cfg, d, fault, result, chew, history);
          LogFaultFrame(cfg, s1, d, fault, injection.outcome, injection.details);
        }
    }
  }

  lemma OnResultHolds(cfg: Config, s: State, d: Decision, cls: Classification, result: LogicalResult, p: AR.Pending)
    requires Sound(cfg, s) && Holds(s, p)
    ensures Holds(Faults.OnResult(cfg, s, d, cls, result).0, p)
  {
    ConsumedKept(cfg, s, d.context.template);
    hide Core, Timed, Faults.OnResult, Stash, Holds;
    var s1, s' := s.(house := H.Consumed(s.house, d.context.template)), Faults.OnResult(cfg, s, d, cls, result).0;
    OnResultStashes(cfg, s, d, cls, result);
    HoldsFrame(s, s1, p);
    if s'.schedule == s.schedule && s'.house.treasures == s.house.treasures {
      HoldsFrame(s, s', p);
    } else {
      StashHolds(cfg, s1, d, result, p);
    }
  }

  // ----- Over whole runs -----

  /** Operations between two places that do not return this treasure by hand. */
  predicate NoManualReturn(ops: seq<Operation>, from: nat, to: nat, id: string)
    requires to <= |ops|
  {
    forall m | from <= m < to :: ops[m] != ReturnAll && ops[m] != ReturnTreasure(id)
  }

  lemma StepHolds(cfg: Config, force: bool, s: State, op: Operation, p: AR.Pending)
    requires Inv(cfg, s) && cfg.autoReturn.Some? && Holds(s, p)
    requires op != ReturnAll && op != ReturnTreasure(p.treasureId)
    requires L.IsStatement(op) ==> p.due > s.tick + 1
    ensures Holds(Step(cfg, force, s, op).0, p)
  {
    hide Core, Timed, MoodOk, CacheOk, Holds, GiveBack, Intervene, BeginOperation, HouseIds;
    match op {
      case Execute(_, _, _, _) =>
        OpeningReturns(cfg, s, p);
        BeginKeeps(cfg, s);
        var s0 := BeginOperation(cfg, s);
        if PassthroughReason(op.params, op.cls) == None {
          var call := CallFor(cfg, s0, op);
          BegunFrame(cfg, s0, call);
          hide Inv, Holds, BeginOperation, Intervene, CallFor;
          HoldsFrame(s0, Begin(s0, call), p);
          InterveneHolds(cfg, force, Begin(s0, call), call, op.cls, op.reply, p);
        }
      case ExecuteMany(_) => OpeningReturns(cfg, s, p);
      case ReturnTreasure(id) => ManualReturnHolds(cfg, s, id, p);
    }
  }

  lemma ManualReturnHolds(cfg: Config, s: State, id: string, p: AR.Pending)
    requires Inv(cfg, s) && cfg.autoReturn.Some? && Holds(s, p) && id != p.treasureId
    ensures Holds(GiveBack(cfg, Cancel(cfg, s, id), id, ManualReturn), p)
  {
    GiveBackFrame(cfg, Cancel(cfg, s, id), id, ManualReturn);
    WithoutIds(s.house.treasures, id);
    H.FindFacts(s.house.treasures, id);
    AR.PopFacts(s.schedule.scheduled, id);
    hide GiveBack, HouseIds;
  }

  /** A treasure held after one operation is still held after a later one, unless it was returned by hand
      or its due tick has been reached. */
  lemma {:induction false} HeldUntilDue(cfg: Config, force: bool, ops: seq<Operation>, j: nat, k: nat, p: AR.Pending)
    requires j <= k <= |ops| && cfg.autoReturn.Some? && Holds(After(cfg, force, ops[..j]), p)
    requires NoManualReturn(ops, j, k, p.treasureId) && After(cfg, force, ops[..k]).tick < p.due
    ensures Holds(After(cfg, force, ops[..k]), p)
    decreases k
  {
    hide Inv, Step, After, Holds, L.IsStatement, NoManualReturn;
    if j < k {
      NoManualReturnBefore(ops, j, k, p.treasureId);
      TickBefore(cfg, force, ops, k);
      HeldUntilDue(cfg, force, ops, j, k - 1, p);
      HeldOneMore(cfg, force, ops, k, p);
    }
  }

  lemma TickBefore(cfg: Config, force: bool, ops: seq<Operation>, k: nat)
    requires 0 < k <= |ops|
    ensures var s := After(cfg, force, ops[..k - 1]);
            && After(cfg, force, ops[..k]) == Step(cfg, force, s, ops[k - 1]).0
            && After(cfg, force, ops[..k]).tick == s.tick + if cfg.Clocked() && L.IsStatement(ops[k - 1]) then 1 else 0
  {
    hide Inv, Step, After;
    C.AfterNext(cfg, force, ops, k - 1);
    Reachable(cfg, force, ops[..k - 1]);
    L.StepTick(cfg, force, After(cfg, force, ops[..k - 1]), ops[k - 1]);
  }

  lemma HeldOneMore(cfg: Config, force: bool, ops: seq<Operation>, k: nat, p: AR.Pending)
    requires 0 < k <= |ops| && cfg.autoReturn.Some? && Holds(After(cfg, force, ops[..k - 1]), p)
    requires ops[k - 1] != ReturnAll && ops[k - 1] != ReturnTreasure(p.treasureId)
    requires After(cfg, force, ops[..k]).tick < p.due
    ensures Holds(After(cfg, force, ops[..k]), p)
  {
    hide Inv, Step, After, Holds, L.IsStatement;
    Reachable(cfg, force, ops[..k - 1]);
    TickBefore(cfg, force, ops, k);
    StepHolds(cfg, force, After(cfg, force, ops[..k - 1]), ops[k - 1], p);
  }

  lemma NoManualReturnBefore(ops: seq<Operation>, from: nat, to: nat, id: string)
    requires from < to <= |ops| && NoManualReturn(ops, from, to, id)
    ensures NoManualReturn(ops, from, to - 1, id)
    ensures ops[to - 1] != ReturnAll && ops[to - 1] != ReturnTreasure(id)
  {
  }

  lemma ReturnedWhenDue(cfg: Config, force: bool, ops: seq<Operation>, j: nat, k: nat, p: AR.Pending)
    requires j < k < |ops| && cfg.autoReturn.Some? && Holds(After(cfg, force, ops[..j + 1]), p)
    requires NoManualReturn(ops, j + 1, k, p.treasureId) && L.IsStatement(ops[k])
    ensures var number, begun := L.Statements(ops[..k + 1]), C.Opened(cfg, After(cfg, force, ops[..k]), ops[k]);
            && (number < p.due ==> p.treasureId in HouseIds(begun.house.treasures))
            && (number == p.due ==>
                  && p.treasureId !in HouseIds(begun.house.treasures)
                  && ComesBack(After(cfg, force, ops[..k]), begun, p.treasureId))
  {
    hide After, Inv, Holds, BeginOperation, HouseIds, ComesBack;
    var s := After(cfg, force, ops[..k]);
    Reachable(cfg, force, ops[..k]);
    L.ClockCounts(cfg, force, ops[..k]);
    assert ops[..k + 1][..k] == ops[..k];
    if s.tick < p.due {
      HeldUntilDue(cfg, force, ops, j + 1, k, p);
      OpeningReturns(cfg, s, p);
      HeldId(BeginOperation(cfg, s), p);
    }
  }

  lemma HeldId(s: State, p: AR.Pending)
    ensures Holds(s, p) ==> p.treasureId in HouseIds(s.house.treasures)
  {
  }

  // ----- What a stash plans -----

  /** Every treasure that is new in the house has a return planned for the tick its hold names. */
  ghost predicate NewArePlanned(cfg: Config, s: State, s': State) {
    cfg.autoReturn.Some? ==>
      forall t | t in s'.house.treasures && t !in s.house.treasures ::
        PlannedFor(s', t, s.tick + AR.HoldFor(cfg.autoReturn.value, cfg.session, t.context.key))
  }

  ghost predicate PlannedFor(s: State, t: Treasure, due: nat) {
    exists p | p in s.schedule.scheduled :: p.treasureId == t.treasureId && p.due == due
  }

  lemma NothingNew(cfg: Config, s: State, s': State)
    requires s'.house.treasures == s.house.treasures
    ensures NewArePlanned(cfg, s, s')
  {
  }

  lemma PlannedFrame(cfg: Config, s: State, s1: State, s2: State, s': State)
    requires NewArePlanned(cfg, s1, s2) && s.house.treasures == s1.house.treasures && s.tick == s1.tick
    requires s'.house.treasures == s2.house.treasures && s'.schedule == s2.schedule
    ensures NewArePlanned(cfg, s, s')
  {
    hide AR.HoldFor;
  }

  lemma StashPlans(cfg: Config, s: State, d: Decision, result: LogicalResult)
    requires Timed(cfg, s) && result.rows != []
    ensures NewArePlanned(cfg, s, Stash(cfg, s, d, result).0)
  {
    hide NextEventId, AR.HoldFor, AR.Planned, DeterministicId, Index, ScheduleOk, H.Vacant, HouseIds, PendingIds;
    var t := NewTreasure(cfg, s, d, result);
    var s' := Stash(cfg, s, d, result).0;
    if H.Admits(s.house, t, cfg.houseLimit) && cfg.autoReturn.Some? {
      AdmittedIds(s.house.treasures, t);
      var hold := AR.HoldFor(cfg.autoReturn.value, cfg.session, d.context.key);
      PlannedOk(s.schedule, t.treasureId, hold);
      var p := AR.Pending(t.treasureId, s.tick + hold, s.schedule.nextOrder + 1);
      assert s'.schedule.scheduled == s.schedule.scheduled + [p];
      assert p in s'.schedule.scheduled && PlannedFor(s', t, s.tick + hold);
    }
  }

  lemma OnResultPlans(cfg: Config, s: State, d: Decision, cls: Classification, result: LogicalResult)
    requires Sound(cfg, s)
    ensures NewArePlanned(cfg, s, Faults.OnResult(cfg, s, d, cls, result).0)
  {
    ConsumedKept(cfg, s, d.context.template);
    hide Core, Timed, Faults.OnResult, Stash, NewArePlanned;
    var s1, s' := s.(house := H.Consumed(s.house, d.context.template)), Faults.OnResult(cfg, s, d, cls, result).0;
    OnResultStashes(cfg, s, d, cls, result);
    if s'.schedule == s.schedule && s'.house.treasures == s.house.treasures {
      NothingNew(cfg, s, s');
    } else {
      StashPlans(cfg, s1, d, result);
      PlannedFrame(cfg, s, s1, s', s');
    }
  }

  lemma IntervenePlans(cfg: Config, force: bool, s: State, call: Call, cls: Classification, reply: Reply)
    requires Sound(cfg, s)
    ensures NewArePlanned(cfg, s, Intervene(cfg, force, s, call, cls, reply).0)
  {
    hide BeforeFault, Faults.OnResult, NextEventId, EvaluatesBefore, Intervenes, Fetch, KeyFor, DecisionFor, Sound, Draw,
         NewArePlanned, SC.Added;
    BeforePhaseKept(cfg, force, s, call, cls);
    var (s1, before) := BeforePhase(cfg, force, s, call, cls);
    DeferredKept(cfg, force, s1, call, cls, before);
    var s2 := DeferredDebug(cfg, force, s1, call, cls, before);
    var s' := Intervene(cfg, force, s, call, cls, reply).0;
    if s'.house.treasures == s.house.treasures {
      NothingNew(cfg, s, s');
    }
    if Fetch(reply, RowCap(cfg, cls)).Fetched? {
      var result := Fetch(reply, RowCap(cfg, cls)).result;
      var s3 := Faults.OnResult(cfg, s2, DecisionFor(cfg, call, OnResult), cls, result).0;
      OnResultPlans(cfg, s2, DecisionFor(cfg, call, OnResult), cls, result);
      if s'.house.treasures == s3.house.treasures && s'.schedule == s3.schedule {
        PlannedFrame(cfg, s, s2, s3, s');
      }
    }
  }

  /** The j-th operation puts this treasure in the house. */
  predicate StashesTreasure(cfg: Config, force: bool, ops: seq<Operation>, j: nat, t: Treasure)
    requires j < |ops|
  {
    && t !in C.Opened(cfg, After(cfg, force, ops[..j]), ops[j]).house.treasures
    && t in After(cfg, force, ops[..j + 1]).house.treasures
  }

  lemma OthersAddNothing(cfg: Config, force: bool, s: State, op: Operation)
    requires !op.Execute? && H.Distinct(s.house.treasures)
    ensures forall t | t in Step(cfg, force, s, op).0.house.treasures :: t in C.Opened(cfg, s, op).house.treasures
  {
    hide GiveBack, CancelAndLog, BeginOperation, H.Distinct, H.Without, H.Find;
    var ts := s.house.treasures;
    match op {
      case ExecuteMany(_) =>
      case ReturnTreasure(id) =>
        GiveBackFrame(cfg, Cancel(cfg, s, id), id, ManualReturn);
        H.FindFacts(ts, id);
        H.WithoutFacts(ts, id);
      case ReturnAll =>
        C.CancelAndLogEvents(cfg, s.(house := H.AllReturned(s.house)), ts, |ts|);
        assert ts[..|ts|] == ts;
    }
  }

  lemma StepPlans(cfg: Config, force: bool, s: State, op: Operation)
    requires Inv(cfg, s) && cfg.autoReturn.Some?
    ensures var s' := Step(cfg, force, s, op).0;
            forall t | t in s'.house.treasures && t !in C.Opened(cfg, s, op).house.treasures ::
              PlannedFor(s', t, s'.tick + AR.HoldFor(cfg.autoReturn.value, cfg.session, t.context.key))
  {
    if op.Execute? {
      BeginKeeps(cfg, s);
      var s0 := BeginOperation(cfg, s);
      if PassthroughReason(op.params, op.cls) == None {
        var call := CallFor(cfg, s0, op);
        BegunFrame(cfg, s0, call);
        CacheOkFrame(cfg, s, s0);
        BegunCache(cfg, s0, call);
        hide Inv, BeginOperation, Intervene, CallFor, AR.HoldFor, PlannedFor, CacheBelow;
        InterveneKeeps(cfg, force, Begin(s0, call), call, op.cls, op.reply);
        IntervenePlans(cfg, force, Begin(s0, call), call, op.cls, op.reply);
      }
    } else {
      OthersAddNothing(cfg, force, s, op);
    }
  }

  /** A row stashed by statement number n with hold h is in the house until statement n + h starts, and is
      handed back, with an event, right then; unless it was returned by hand before. */
  lemma AutoReturnIsExact(cfg: Config, force: bool, ops: seq<Operation>, j: nat, k: nat, t: Treasure)
    requires j < k < |ops| && cfg.autoReturn.Some? && StashesTreasure(cfg, force, ops, j, t)
    requires NoManualReturn(ops, j + 1, k, t.treasureId) && L.IsStatement(ops[k])
    ensures var hold := AR.HoldFor(cfg.autoReturn.value, cfg.session, t.context.key);
            var due, number := L.Statements(ops[..j + 1]) + hold, L.Statements(ops[..k + 1]);
            var begun := C.Opened(cfg, After(cfg, force, ops[..k]), ops[k]);
            && cfg.autoReturn.value.minOperations <= hold <= cfg.autoReturn.value.maxOperations
            && (number < due ==> t.treasureId in HouseIds(begun.house.treasures))
            && (number == due ==>
                  && t.treasureId !in HouseIds(begun.house.treasures)
                  && ComesBack(After(cfg, force, ops[..k]), begun, t.treasureId))
  {
    Reachable(cfg, force, ops[..j]);
    C.AfterNext(cfg, force, ops, j);
    L.ClockCounts(cfg, force, ops[..j + 1]);
    hide Inv, After, Step, BeginOperation, AR.HoldFor, ComesBack;
    var s' := After(cfg, force, ops[..j + 1]);
    StepPlans(cfg, force, After(cfg, force, ops[..j]), ops[j]);
    assert PlannedFor(s', t, s'.tick + AR.HoldFor(cfg.autoReturn.value, cfg.session, t.context.key));
    var p :| p in s'.schedule.scheduled && p.treasureId == t.treasureId
      && p.due == s'.tick + AR.HoldFor(cfg.autoReturn.value, cfg.session, t.context.key);
    assert Holds(s', p);
    ReturnedWhenDue(cfg, force, ops, j, k, p);
  }
}
