/** What a return by hand does to a session, and that it does nothing else. */
module ManualReturns {
  import opened Models
  import opened Decisions
  import opened Faults
  import opened Session
  import Inv = Invariants
  import StepInvariants
  import H = House
  import AR = AutoReturn

  // ----- One element less, the others in order -----

  predicate LeavesOut<T(==)>(before: seq<T>, after: seq<T>, k: int) {
    0 <= k < |before| && after == before[..k] + before[k + 1..]
  }

  lemma LeavesOutFirst<T>(xs: seq<T>)
    requires xs != []
    ensures LeavesOut(xs, xs[1..], 0)
  {
  }

  lemma LeavesOutLater<T>(xs: seq<T>, rest: seq<T>, k: int)
    requires xs != [] && LeavesOut(xs[1..], rest, k)
    ensures LeavesOut(xs, [xs[0]] + rest, k + 1) && xs[k + 1] == xs[1..][k]
  {
  }

  lemma {:induction false} WithoutLeavesOut(ts: seq<Treasure>, t: Treasure)
    requires H.Distinct(ts) && t in ts
    ensures H.Find(ts, t.treasureId) == Some(t)
    ensures exists k :: LeavesOut(ts, H.Without(ts, t.treasureId), k) && ts[k] == t
  {
    assert ts == [ts[0]] + ts[1..];
    if ts[0] == t {
      LeavesOutFirst(ts);
    } else {
      H.DistinctMembers(ts, ts[0], t);
      hide H.LocationOf, H.Vacant;
      WithoutLeavesOut(ts[1..], t);
      var k :| LeavesOut(ts[1..], H.Without(ts[1..], t.treasureId), k) && ts[1..][k] == t;
      LeavesOutLater(ts, H.Without(ts[1..], t.treasureId), k);
    }
  }

  lemma {:induction false} PopLeavesOut(ps: seq<AR.Pending>, id: string)
    ensures if id in Inv.PendingIds(ps) then exists k :: LeavesOut(ps, AR.Pop(ps, id), k) && ps[k].treasureId == id
            else AR.Pop(ps, id) == ps
  {
    hide Inv.PendingIds;
    FirstPending(ps, id);
    if ps != [] && ps[0].treasureId != id {
      PopLeavesOut(ps[1..], id);
      if id in Inv.PendingIds(ps) {
        var k :| LeavesOut(ps[1..], AR.Pop(ps[1..], id), k) && ps[1..][k].treasureId == id;
        LeavesOutLater(ps, AR.Pop(ps[1..], id), k);
      } else {
        assert ps == [ps[0]] + ps[1..];
      }
    } else if ps != [] {
      LeavesOutFirst(ps);
    }
  }

  lemma FirstPending(ps: seq<AR.Pending>, id: string)
    ensures id in Inv.PendingIds(ps) <==> ps != [] && (ps[0].treasureId == id || id in Inv.PendingIds(ps[1..]))
  {
    if ps != [] {
      assert ps == [ps[0]] + ps[1..];
    }
  }

  // ----- The event -----

  /** The event of a return, under its place in the log. */
  function ReturnEvent(cfg: Config, seqNo: nat, t: Treasure, phase: Phase): Event {
    Event(seqNo, Hex(cfg.session.sha256(t.context.key + (":event:" + Digits(seqNo) + ":RETURN")))[..32], TreasureReturned,
          Some(STASH), Some(phase), Some(t.context), Some(GivenBack), ReturnDetails(t.treasureId))
  }

  /** The event of a return by hand. */
  function ReturnedByHand(cfg: Config, seqNo: nat, t: Treasure): Event { ReturnEvent(cfg, seqNo, t, ManualReturn) }

  lemma LogReturnIs(cfg: Config, s: State, t: Treasure, phase: Phase)
    ensures LogReturn(cfg, s, t, phase) == s.(log := s.log + [ReturnEvent(cfg, |s.log| + 1, t, phase)])
  {
    hide Hex, Digits;
    var text := t.context.key + (":event:" + Digits(|s.log| + 1) + ":RETURN");
    assert DeriveText(t.context.key, EventId(|s.log| + 1, RETURN)) == text;
  }

  // ----- One treasure -----

  /** Afterwards the treasure is out of house and schedule, its template is released, and one event says so. */
  ghost predicate HandsBack(cfg: Config, s: State, s': State, t: Treasure) {
    && (exists k :: LeavesOut(s.house.treasures, s'.house.treasures, k) && s.house.treasures[k] == t)
    && s'.house.released == s.house.released + {t.context.template}
    && (forall p | p in s'.schedule.scheduled :: p.treasureId != t.treasureId)
    && (if cfg.autoReturn.Some?
        then exists k :: LeavesOut(s.schedule.scheduled, s'.schedule.scheduled, k)
        else s'.schedule.scheduled == s.schedule.scheduled)
    && s'.log == s.log + [ReturnedByHand(cfg, |s.log| + 1, t)]
    && s' == s.(house := s'.house, schedule := s.schedule.(scheduled := s'.schedule.scheduled), log := s'.log)
  }

  lemma ReturnOne(cfg: Config, s: State, t: Treasure)
    requires Inv.Core(cfg, s) && Inv.Timed(cfg, s) && t in s.house.treasures
    ensures HandsBack(cfg, s, GiveBack(cfg, Cancel(cfg, s, t.treasureId), t.treasureId, ManualReturn), t)
  {
    hide Inv.Core, Inv.Timed, H.Distinct, GiveBack, Cancel, ReturnedByHand, LeavesOut;
    StepInvariants.CoreIsDistinct(cfg, s);
    ReturnedIs(cfg, s, t);
    Cancels(cfg, s, t);
  }

  lemma Cancels(cfg: Config, s: State, t: Treasure)
    requires Inv.Timed(cfg, s) && t in s.house.treasures
    ensures var s1 := Cancel(cfg, s, t.treasureId);
            && s1 == s.(schedule := s.schedule.(scheduled := s1.schedule.scheduled))
            && (forall p | p in s1.schedule.scheduled :: p.treasureId != t.treasureId)
            && (if cfg.autoReturn.Some?
                then exists k :: LeavesOut(s.schedule.scheduled, s1.schedule.scheduled, k)
                else s1.schedule.scheduled == s.schedule.scheduled)
  {
    hide LeavesOut, AR.Distinct, Inv.Ascending;
    if cfg.autoReturn.Some? {
      assert t.treasureId in Inv.HouseIds(s.house.treasures);
      AR.PopFacts(s.schedule.scheduled, t.treasureId);
      PopLeavesOut(s.schedule.scheduled, t.treasureId);
    }
  }

  lemma ReturnedIs(cfg: Config, s: State, t: Treasure)
    requires H.Distinct(s.house.treasures) && t in s.house.treasures
    ensures var s1 := Cancel(cfg, s, t.treasureId);
            var s' := GiveBack(cfg, s1, t.treasureId, ManualReturn);
            && s' == s1.(house := s'.house, log := s.log + [ReturnedByHand(cfg, |s.log| + 1, t)])
            && s'.house.released == s.house.released + {t.context.template}
            && exists k :: LeavesOut(s.house.treasures, s'.house.treasures, k) && s.house.treasures[k] == t
  {
    hide LogReturn, ReturnEvent, LeavesOut, AR.Cancelled;
    var s1 := Cancel(cfg, s, t.treasureId);
    WithoutLeavesOut(s.house.treasures, t);
    LogReturnIs(cfg, s1.(house := H.Returned(s1.house, t.treasureId)), t, ManualReturn);
  }

  lemma NothingToReturn(cfg: Config, s: State, id: string)
    requires Inv.Timed(cfg, s) && forall t | t in s.house.treasures :: t.treasureId != id
    ensures H.Find(s.house.treasures, id) == None && Step(cfg, false, s, ReturnTreasure(id)).0 == s
  {
    H.FindFacts(s.house.treasures, id);
    PopLeavesOut(s.schedule.scheduled, id);
  }

  /** In every run: if the id is in the house its treasure is handed back, taken out of house and schedule with all others
      kept in order, released and logged; otherwise nothing happens at all. */
  lemma ReturnTreasureHandsBack(cfg: Config, force: bool, ops: seq<Operation>, id: string)
    ensures var s, s' := After(cfg, force, ops), After(cfg, force, ops + [ReturnTreasure(id)]);
            var answer := Answer(cfg, force, ops + [ReturnTreasure(id)], |ops|);
            && (forall t | t in s.house.treasures && t.treasureId == id ::
                  answer == HandedBack([t]) && HandsBack(cfg, s, s', t))
            && ((forall t | t in s.house.treasures :: t.treasureId != id) ==> answer == HandedBack([]) && s' == s)
  {
    hide After, HandsBack, GiveBack, Cancel, Inv.CacheOk, Inv.MoodOk, Inv.Core, Inv.Timed, H.Distinct, H.Find;
    StepInvariants.Reachable(cfg, force, ops);
    Appended(cfg, force, ops, ReturnTreasure(id));
    var s := After(cfg, force, ops);
    StepInvariants.CoreIsDistinct(cfg, s);
    forall t | t in s.house.treasures && t.treasureId == id
      ensures HandsBack(cfg, s, After(cfg, force, ops + [ReturnTreasure(id)]), t)
      ensures H.Find(s.house.treasures, id) == Some(t)
    {
      ReturnOne(cfg, s, t);
      WithoutLeavesOut(s.house.treasures, t);
    }
    if forall t | t in s.house.treasures :: t.treasureId != id {
      NothingToReturn(cfg, s, id);
    }
  }

  lemma Appended(cfg: Config, force: bool, ops: seq<Operation>, op: Operation)
    ensures var more, s := ops + [op], After(cfg, force, ops);
            After(cfg, force, more) == Step(cfg, force, s, op).0 && Answer(cfg, force, more, |ops|) == Step(cfg, force, s, op).1
  {
    hide Step;
    assert (ops + [op])[..|ops|] == ops;
  }

  // ----- All treasures -----

  lemma {:induction false} AllLogged(cfg: Config, s: State, all: seq<Treasure>, k: nat)
    requires k <= |all|
    ensures var log := CancelAndLog(cfg, s, all[..k]).log;
            && |log| == |s.log| + k && log[..|s.log|] == s.log
            && forall i | 0 <= i < k :: log[|s.log| + i] == ReturnedByHand(cfg, |s.log| + i + 1, all[i])
  {
    hide CancelAndLog, LogReturn, ReturnEvent;
    if k == 0 {
      Inv.CancelAndLogNone(cfg, s, all);
    } else {
      AllLogged(cfg, s, all, k - 1);
      Inv.CancelAndLogStep(cfg, s, all, k);
      LogReturnIs(cfg, Cancel(cfg, CancelAndLog(cfg, s, all[..k - 1]), all[k - 1].treasureId), all[k - 1], ManualReturn);
    }
  }

  /** In every run returning all empties house and schedule, releases every template that had a treasure, and logs one
      event for each treasure, in the order of the house. */
  lemma ReturnAllHandsBack(cfg: Config, force: bool, ops: seq<Operation>)
    ensures var s, s' := After(cfg, force, ops), After(cfg, force, ops + [ReturnAll]);
            var ts := s.house.treasures;
            && Answer(cfg, force, ops + [ReturnAll], |ops|) == HandedBack(ts)
            && s'.house.treasures == [] && s'.schedule.scheduled == []
            && (forall x :: x in s'.house.released <==>
                  x in s.house.released || exists t :: t in ts && t.context.template == x)
            && |s'.log| == |s.log| + |ts| && s'.log[..|s.log|] == s.log
            && (forall i | 0 <= i < |ts| :: s'.log[|s.log| + i] == ReturnedByHand(cfg, |s.log| + i + 1, ts[i]))
            && s' == s.(house := s'.house, schedule := s'.schedule, log := s'.log)
  {
    StepInvariants.Reachable(cfg, force, ops);
    Appended(cfg, force, ops, ReturnAll);
    hide After, CancelAndLog, Inv.CacheOk, Inv.MoodOk, Inv.HouseOk, Inv.LogFine, ReturnedByHand;
    var s := After(cfg, force, ops);
    AllReturnedFrom(cfg, force, s);
  }

  lemma AllReturnedFrom(cfg: Config, force: bool, s: State)
    requires Inv.Core(cfg, s) && Inv.Timed(cfg, s)
    ensures var s', ts := Step(cfg, force, s, ReturnAll).0, s.house.treasures;
            && s'.house.treasures == [] && s'.schedule.scheduled == []
            && (forall x :: x in s'.house.released <==>
                  x in s.house.released || exists t :: t in ts && t.context.template == x)
            && |s'.log| == |s.log| + |ts| && s'.log[..|s.log|] == s.log
            && (forall i | 0 <= i < |ts| :: s'.log[|s.log| + i] == ReturnedByHand(cfg, |s.log| + i + 1, ts[i]))
            && s' == s.(house := s'.house, schedule := s'.schedule, log := s'.log)
  {
    hide CancelAndLog, Inv.Core, Inv.Timed, ReturnedByHand, Inv.ScheduleOk, Inv.HouseIds, Inv.PendingIds;
    Inv.ReturnAllKeeps(cfg, force, s);
    var ts, s0 := s.house.treasures, s.(house := H.AllReturned(s.house));
    ScheduleFine(cfg, s);
    Inv.CancelAndLogSchedule(cfg, s0, ts, |ts|);
    AllLogged(cfg, s0, ts, |ts|);
    assert ts[..|ts|] == ts;
    EmptyTogether(cfg, Step(cfg, force, s, ReturnAll).0);
  }

  lemma ScheduleFine(cfg: Config, s: State)
    requires Inv.Timed(cfg, s)
    ensures Inv.ScheduleOk(s.schedule)
  {
    hide Inv.ScheduleOk;
  }

  lemma EmptyTogether(cfg: Config, s: State)
    requires Inv.Timed(cfg, s) && s.house.treasures == []
    ensures s.schedule.scheduled == []
  {
    hide Inv.ScheduleOk;
    Inv.NothingPending(s.schedule.scheduled);
  }
}
