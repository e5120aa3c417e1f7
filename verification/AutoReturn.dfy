/** The logical-clock schedule of automatic treasure returns. */
module AutoReturn {
  import opened Models
  import opened Decisions

  datatype Pending = Pending(treasureId: string, due: nat, order: nat)

  datatype Timetable = Timetable(currentTick: nat, nextOrder: nat, scheduled: seq<Pending>)

  // ----- The dictionary of scheduled returns, in insertion order -----

  function Put(ps: seq<Pending>, p: Pending): seq<Pending> {
    if ps == [] then [p]
    else if ps[0].treasureId == p.treasureId then [p] + ps[1..]
    else [ps[0]] + Put(ps[1..], p)
  }

  function Pop(ps: seq<Pending>, id: string): seq<Pending> {
    if ps == [] then [] else if ps[0].treasureId == id then ps[1..] else [ps[0]] + Pop(ps[1..], id)
  }

  ghost predicate Distinct(ps: seq<Pending>) {
    ps == [] || ((forall p | p in ps[1..] :: p.treasureId != ps[0].treasureId) && Distinct(ps[1..]))
  }

  predicate Scheduled(ps: seq<Pending>, id: string) { exists p | p in ps :: p.treasureId == id }

  lemma {:induction false} PopFacts(ps: seq<Pending>, id: string)
    requires Distinct(ps)
    ensures Distinct(Pop(ps, id))
    ensures forall p :: p in Pop(ps, id) <==> p in ps && p.treasureId != id
  {
    if ps != [] {
      PopFacts(ps[1..], id);
      assert ps == [ps[0]] + ps[1..];
      assert ([ps[0]] + Pop(ps[1..], id))[1..] == Pop(ps[1..], id);
    }
  }

  lemma {:induction false} DistinctMembers(ps: seq<Pending>, p: Pending, q: Pending)
    requires Distinct(ps) && p in ps && q in ps
    ensures p.treasureId == q.treasureId ==> p == q
  {
    assert ps == [ps[0]] + ps[1..];
    if p != ps[0] && q != ps[0] {
      DistinctMembers(ps[1..], p, q);
    }
  }

  lemma {:induction false} PutNew(ps: seq<Pending>, p: Pending)
    requires !Scheduled(ps, p.treasureId)
    ensures Put(ps, p) == ps + [p]
  {
    if ps != [] {
      assert ps[0] in ps && forall q | q in ps[1..] :: q in ps;
      PutNew(ps[1..], p);
      assert ps == [ps[0]] + ps[1..];
    }
  }

  // ----- What is due, in which order -----

  predicate Earlier(p: Pending, q: Pending) { p.due < q.due || (p.due == q.due && p.order <= q.order) }

  predicate Sorted(ps: seq<Pending>) { forall i, j | 0 <= i < j < |ps| :: Earlier(ps[i], ps[j]) }

  function Insert(p: Pending, ps: seq<Pending>): seq<Pending> {
    if ps == [] || Earlier(p, ps[0]) then [p] + ps else [ps[0]] + Insert(p, ps[1..])
  }

  lemma {:induction false} InsertFacts(p: Pending, ps: seq<Pending>)
    ensures multiset(Insert(p, ps)) == multiset(ps) + multiset{p}
    ensures Sorted(ps) ==> Sorted(Insert(p, ps))
  {
    if ps != [] && !Earlier(p, ps[0]) {
      InsertFacts(p, ps[1..]);
      var rest := Insert(p, ps[1..]);
      assert ps == [ps[0]] + ps[1..];
      hide Earlier, Sorted, Insert;
      assert forall q | q in rest :: q in multiset(rest);
      if Sorted(ps) {
        SortedSplit(ps);
        SortedCons(ps[0], rest);
      }
    } else {
      assert multiset([p] + ps) == multiset{p} + multiset(ps);
      if Sorted(ps) {
        SortedBefore(p, ps);
      }
    }
  }

  lemma SortedSplit(ps: seq<Pending>)
    requires Sorted(ps) && ps != []
    ensures Sorted(ps[1..]) && forall q | q in ps[1..] :: Earlier(ps[0], q)
  {
  }

  lemma SortedCons(p: Pending, ps: seq<Pending>)
    requires Sorted(ps) && forall q | q in ps :: Earlier(p, q)
    ensures Sorted([p] + ps)
  {
  }

  lemma SortedBefore(p: Pending, ps: seq<Pending>)
    requires Sorted(ps) && (ps == [] || Earlier(p, ps[0]))
    ensures Sorted([p] + ps)
  {
  }

  /** Python's `sorted` on (due, order) pairs. */
  function SortDue(ps: seq<Pending>): (r: seq<Pending>)
    ensures Sorted(r) && multiset(r) == multiset(ps)
  {
    if ps == [] then [] else
      assert ps == [ps[0]] + ps[1..];
      InsertFacts(ps[0], SortDue(ps[1..]));
      Insert(ps[0], SortDue(ps[1..]))
  }

  function DueBy(ps: seq<Pending>, tick: nat): (r: seq<Pending>)
    ensures forall p :: p in r <==> p in ps && p.due <= tick
    ensures Distinct(ps) ==> Distinct(r)
  {
    if ps == [] then [] else
      assert ps == [ps[0]] + ps[1..];
      var rest := DueBy(ps[1..], tick);
      assert ([ps[0]] + rest)[1..] == rest;
      if ps[0].due <= tick then [ps[0]] + rest else rest
  }

  function NotDueBy(ps: seq<Pending>, tick: nat): (r: seq<Pending>)
    ensures forall p :: p in r <==> p in ps && p.due > tick
    ensures Distinct(ps) ==> Distinct(r)
  {
    if ps == [] then [] else
      assert ps == [ps[0]] + ps[1..];
      var rest := NotDueBy(ps[1..], tick);
      assert ([ps[0]] + rest)[1..] == rest;
      if ps[0].due > tick then [ps[0]] + rest else rest
  }

  function Ids(ps: seq<Pending>): (r: seq<string>)
    ensures |r| == |ps|
  {
    seq(|ps|, i requires 0 <= i < |ps| => ps[i].treasureId)
  }

  // ----- The scheduler's operations on values -----

  function Due(s: Timetable, tick: nat): seq<string> { Ids(SortDue(DueBy(s.scheduled, tick))) }

  function Advanced(s: Timetable, tick: nat): Timetable {
    s.(currentTick := tick, scheduled := NotDueBy(s.scheduled, tick))
  }

  function HoldFor(config: AutoReturnConfig, s: Hashing, key: string): (hold: nat)
    ensures config.minOperations <= hold <= config.maxOperations
  {
    config.minOperations + Draw(s, key, Purpose.Hold) % (config.maxOperations - config.minOperations + 1)
  }

  function Planned(s: Timetable, id: string, hold: nat): Timetable {
    Timetable(s.currentTick, s.nextOrder + 1, Put(s.scheduled, Pending(id, s.currentTick + hold, s.nextOrder + 1)))
  }

  function Cancelled(s: Timetable, id: string): Timetable { s.(scheduled := Pop(s.scheduled, id)) }

  class AutoReturnScheduler {
    const config: AutoReturnConfig
    const session: Hashing
    var currentTick: nat
    var nextOrder: nat
    var scheduled: seq<Pending>

    ghost predicate Valid()
      reads this
    {
      Distinct(scheduled)
    }

    ghost function View(): Timetable
      reads this
    {
      Timetable(currentTick, nextOrder, scheduled)
    }

    constructor (config: AutoReturnConfig, session: Hashing)
      ensures Valid() && View() == Timetable(0, 0, [])
      ensures this.config == config && this.session == session
    {
      this.config, this.session := config, session;
      currentTick, nextOrder, scheduled := 0, 0, [];
    }

    method Advance(tick: nat) returns (ids: seq<string>)
      requires Valid()
      modifies this
      ensures Valid()
      ensures ids == Due(old(View()), tick) && View() == Advanced(old(View()), tick)
    {
      hide SortDue, DueBy, NotDueBy, Ids;
      currentTick := tick;
      var due := SortDue(DueBy(scheduled, tick));
      ids := Ids(due);
      IdsOfDue(scheduled, due, tick);
      ExcludingDue(scheduled, ids, tick);
      PopAll(ids);
    }

    method PopAll(ids: seq<string>)
      requires Valid()
      modifies this`scheduled
      ensures Valid() && scheduled == Excluding(old(scheduled), ids)
    {
      hide Pop, Excluding, Distinct;
      ghost var before := scheduled;
      ExcludingNone(before);
      for i := 0 to |ids|
        invariant Distinct(scheduled) && scheduled == Excluding(before, ids[..i])
      {
        PopFacts(scheduled, ids[i]);
        PopExcluding(before, ids[..i], ids[i]);
        assert ids[..i + 1] == ids[..i] + [ids[i]];
        scheduled := Pop(scheduled, ids[i]);
      }
      assert ids[..|ids|] == ids;
    }

    method Schedule(id: string, key: string) returns (hold: nat)
      requires Valid()
      modifies this
      ensures Valid() && hold == HoldFor(config, session, key)
      ensures View() == Planned(old(View()), id, hold)
    {
      hold := HoldFor(config, session, key);
      nextOrder := nextOrder + 1;
      PutDistinct(scheduled, Pending(id, currentTick + hold, nextOrder));
      scheduled := Put(scheduled, Pending(id, currentTick + hold, nextOrder));
    }

    method Cancel(id: string)
      requires Valid()
      modifies this`scheduled
      ensures Valid() && View() == Cancelled(old(View()), id)
    {
      PopFacts(scheduled, id);
      scheduled := Pop(scheduled, id);
    }
  }

  lemma {:induction false} PutDistinct(ps: seq<Pending>, p: Pending)
    requires Distinct(ps)
    ensures Distinct(Put(ps, p))
    ensures forall q | q in Put(ps, p) :: q == p || q in ps
  {
    if ps != [] && ps[0].treasureId != p.treasureId {
      PutDistinct(ps[1..], p);
      assert ps == [ps[0]] + ps[1..];
      assert ([ps[0]] + Put(ps[1..], p))[1..] == Put(ps[1..], p);
    }
  }

  function Excluding(ps: seq<Pending>, ids: seq<string>): seq<Pending> {
    if ps == [] then []
    else (if ps[0].treasureId in ids then [] else [ps[0]]) + Excluding(ps[1..], ids)
  }

  lemma {:induction false} ExcludingNone(ps: seq<Pending>)
    ensures Excluding(ps, []) == ps
  {
    if ps != [] {
      ExcludingNone(ps[1..]);
      assert ps == [ps[0]] + ps[1..];
    }
  }

  lemma {:induction false} PopExcluding(ps: seq<Pending>, ids: seq<string>, id: string)
    requires Distinct(ps)
    ensures Pop(Excluding(ps, ids), id) == Excluding(ps, ids + [id])
  {
    if ps != [] {
      PopExcluding(ps[1..], ids, id);
      var rest := Excluding(ps[1..], ids);
      if ps[0].treasureId in ids {
        assert [] + rest == rest;
      } else {
        assert ([ps[0]] + rest)[1..] == rest;
        if ps[0].treasureId == id {
          ExcludingAbsent(ps[1..], ids, id);
          assert [] + rest == rest;
        }
      }
    }
  }

  lemma {:induction false} ExcludingAbsent(ps: seq<Pending>, ids: seq<string>, id: string)
    requires forall p | p in ps :: p.treasureId != id
    ensures Excluding(ps, ids + [id]) == Excluding(ps, ids)
  {
    if ps != [] {
      assert ps[0] in ps && forall p | p in ps[1..] :: p in ps;
      ExcludingAbsent(ps[1..], ids, id);
    }
  }

  lemma IdsOfDue(ps: seq<Pending>, due: seq<Pending>, tick: nat)
    requires Distinct(ps) && multiset(due) == multiset(DueBy(ps, tick))
    ensures forall p | p in ps :: p.treasureId in Ids(due) <==> p.due <= tick
  {
    forall p | p in ps ensures p.treasureId in Ids(due) <==> p.due <= tick {
      if p.due <= tick {
        assert p in multiset(due);
        var i :| 0 <= i < |due| && due[i] == p;
        assert Ids(due)[i] == p.treasureId;
      }
      if p.treasureId in Ids(due) {
        var i :| 0 <= i < |due| && Ids(due)[i] == p.treasureId;
        assert due[i] in multiset(due) && due[i] in ps;
        DistinctMembers(ps, p, due[i]);
      }
    }
  }

  /** Popping everything that is due leaves exactly what is not. */
  lemma {:induction false} ExcludingDue(ps: seq<Pending>, ids: seq<string>, tick: nat)
    requires forall p | p in ps :: p.treasureId in ids <==> p.due <= tick
    ensures Excluding(ps, ids) == NotDueBy(ps, tick)
  {
    if ps != [] {
      assert ps[0] in ps && forall p | p in ps[1..] :: p in ps;
      ExcludingDue(ps[1..], ids, tick);
    }
  }
}
