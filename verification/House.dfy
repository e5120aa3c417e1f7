/** The Dog House: hidden rows by id and by location, released templates, and the projection of the log. */
module House {
  import opened Models

  datatype House = House(treasures: seq<Treasure>, released: set<string>)

  type Location = (string, nat)

  function LocationOf(t: Treasure): Location { (t.context.template, t.rowIndex) }

  // ----- The dictionary of treasures, in insertion order -----

  function Find(ts: seq<Treasure>, id: string): Option<Treasure> {
    if ts == [] then None else if ts[0].treasureId == id then Some(ts[0]) else Find(ts[1..], id)
  }

  function Without(ts: seq<Treasure>, id: string): seq<Treasure> {
    if ts == [] then [] else if ts[0].treasureId == id then ts[1..] else [ts[0]] + Without(ts[1..], id)
  }

  function ActiveFor(ts: seq<Treasure>, template: string): seq<Treasure> {
    if ts == [] then []
    else if ts[0].context.template == template then [ts[0]] + ActiveFor(ts[1..], template)
    else ActiveFor(ts[1..], template)
  }

  predicate Vacant(ts: seq<Treasure>, t: Treasure) {
    forall u | u in ts :: u.treasureId != t.treasureId && LocationOf(u) != LocationOf(t)
  }

  ghost predicate Distinct(ts: seq<Treasure>) {
    ts == [] || (Vacant(ts[1..], ts[0]) && Distinct(ts[1..]))
  }

  lemma {:induction false} FindFacts(ts: seq<Treasure>, id: string)
    ensures Find(ts, id).Some? ==> Find(ts, id).value in ts && Find(ts, id).value.treasureId == id
    ensures Find(ts, id) == None ==> Without(ts, id) == ts && forall t | t in ts :: t.treasureId != id
  {
    if ts != [] {
      FindFacts(ts[1..], id);
      assert ts == [ts[0]] + ts[1..];
    }
  }

  lemma {:induction false} WithoutFacts(ts: seq<Treasure>, id: string)
    requires Distinct(ts)
    ensures Distinct(Without(ts, id))
    ensures forall t :: t in Without(ts, id) <==> t in ts && t.treasureId != id
    ensures |Without(ts, id)| == |ts| - if Find(ts, id).Some? then 1 else 0
  {
    if ts != [] {
      WithoutFacts(ts[1..], id);
      FindFacts(ts, id);
      assert ts == [ts[0]] + ts[1..];
      assert ([ts[0]] + Without(ts[1..], id))[1..] == Without(ts[1..], id);
    }
  }

  lemma {:induction false} DistinctAppend(ts: seq<Treasure>, t: Treasure)
    requires Distinct(ts) && Vacant(ts, t)
    ensures Distinct(ts + [t])
  {
    if ts != [] {
      assert ts == [ts[0]] + ts[1..];
      DistinctAppend(ts[1..], t);
      assert (ts + [t])[1..] == ts[1..] + [t];
    } else {
      assert ([] + [t])[1..] == [];
    }
  }

  lemma {:induction false} DistinctMembers(ts: seq<Treasure>, t: Treasure, u: Treasure)
    requires Distinct(ts) && t in ts && u in ts && t != u
    ensures t.treasureId != u.treasureId && LocationOf(t) != LocationOf(u)
  {
    assert ts == [ts[0]] + ts[1..];
    if t != ts[0] && u != ts[0] {
      DistinctMembers(ts[1..], t, u);
    }
  }

  lemma {:induction false} ActiveMembers(ts: seq<Treasure>, template: string)
    ensures forall t :: t in ActiveFor(ts, template) <==> t in ts && t.context.template == template
  {
    if ts != [] {
      ActiveMembers(ts[1..], template);
      assert ts == [ts[0]] + ts[1..];
    }
  }

  // ----- The ledger's operations on values -----

  function Admits(house: House, t: Treasure, capacity: nat): bool {
    Vacant(house.treasures, t) && |house.treasures| < capacity
  }

  function Admitted(house: House, t: Treasure): House { house.(treasures := house.treasures + [t]) }

  function Returned(house: House, id: string): House {
    var found := Find(house.treasures, id);
    if found == None then house
    else House(Without(house.treasures, id), house.released + {found.value.context.template})
  }

  function Templates(ts: seq<Treasure>): set<string> { set t | t in ts :: t.context.template }

  function AllReturned(house: House): House { House([], house.released + Templates(house.treasures)) }

  function Consumed(house: House, template: string): House { house.(released := house.released - {template}) }

  /** The location index is the exact inverse of the dictionary. */
  ghost predicate Inverse(ts: seq<Treasure>, byLocation: map<Location, string>) {
    && (forall t | t in ts :: LocationOf(t) in byLocation && byLocation[LocationOf(t)] == t.treasureId)
    && (forall l | l in byLocation :: exists t | t in ts :: LocationOf(t) == l)
  }

  class HouseLedger {
    const capacity: nat
    var treasures: seq<Treasure>
    var byLocation: map<Location, string>
    var releasedTemplates: set<string>

    ghost predicate Valid()
      reads this
    {
      Distinct(treasures) && Inverse(treasures, byLocation) && |treasures| <= capacity
    }

    ghost function View(): House
      reads this
    {
      House(treasures, releasedTemplates)
    }

    constructor (capacity: nat)
      ensures Valid() && this.capacity == capacity && View() == House([], {})
    {
      this.capacity := capacity;
      treasures, byLocation, releasedTemplates := [], map[], {};
    }

    /** Refuses a known id, an occupied location, and anything beyond the capacity. */
    method Add(treasure: Treasure) returns (added: bool)
      requires Valid()
      modifies this
      ensures Valid()
      ensures added <==> Admits(old(View()), treasure, capacity)
      ensures View() == if added then Admitted(old(View()), treasure) else old(View())
    {
      FindFacts(treasures, treasure.treasureId);
      var location := LocationOf(treasure);
      if Find(treasures, treasure.treasureId).Some? || location in byLocation || |treasures| >= capacity {
        return false;
      }
      added := true;
      DistinctAppend(treasures, treasure);
      treasures := treasures + [treasure];
      byLocation := byLocation[location := treasure.treasureId];
    }

    method ReturnTreasure(id: string) returns (treasure: Option<Treasure>)
      requires Valid()
      modifies this
      ensures Valid() && treasure == Find(old(treasures), id)
      ensures View() == Returned(old(View()), id)
    {
      treasure := Find(treasures, id);
      FindFacts(treasures, id);
      if treasure.Some? {
        WithoutFacts(treasures, id);
        ghost var before := treasures;
        treasures := Without(treasures, id);
        byLocation := byLocation - {LocationOf(treasure.value)};
        releasedTemplates := releasedTemplates + {treasure.value.context.template};
        IndexWithout(before, treasures, old(byLocation), treasure.value);
      }
    }

    method ReturnAll() returns (returned: seq<Treasure>)
      requires Valid()
      modifies this
      ensures Valid() && returned == old(treasures)
      ensures View() == AllReturned(old(View()))
    {
      returned := treasures;
      for i := 0 to |returned|
        invariant treasures == old(treasures)
        invariant releasedTemplates == old(releasedTemplates) + Templates(returned[..i])
      {
        assert returned[..i + 1] == returned[..i] + [returned[i]];
        releasedTemplates := releasedTemplates + {returned[i].context.template};
      }
      assert returned[..|returned|] == returned;
      treasures, byLocation := [], map[];
    }

    method ConsumeRelease(template: string) returns (consumed: bool)
      requires Valid()
      modifies this`releasedTemplates
      ensures Valid() && consumed == (template in old(releasedTemplates))
      ensures View() == Consumed(old(View()), template)
    {
      if template !in releasedTemplates {
        return false;
      }
      releasedTemplates := releasedTemplates - {template};
      return true;
    }
  }

  lemma IndexWithout(before: seq<Treasure>, after: seq<Treasure>, byLocation: map<Location, string>, gone: Treasure)
    requires Distinct(before) && Inverse(before, byLocation) && gone in before
    requires forall t :: t in after <==> t in before && t.treasureId != gone.treasureId
    ensures Inverse(after, byLocation - {LocationOf(gone)})
  {
    forall t | t in after ensures LocationOf(t) != LocationOf(gone) {
      DistinctMembers(before, t, gone);
    }
    forall l | l in byLocation && l != LocationOf(gone) ensures exists t | t in after :: LocationOf(t) == l {
      var t :| t in before && LocationOf(t) == l;
      DistinctMembers(before, t, gone);
      assert t in after;
    }
  }

  // ----- The projection of the log -----

  datatype ProjectedTreasure = ProjectedTreasure(
    treasureId: string, template: Option<string>, rowIndex: nat, eventId: string)

  /** `active[id] = p`: a known id keeps its place, a new one goes to the end. */
  function Put(active: seq<ProjectedTreasure>, p: ProjectedTreasure): seq<ProjectedTreasure> {
    if active == [] then [p]
    else if active[0].treasureId == p.treasureId then [p] + active[1..]
    else [active[0]] + Put(active[1..], p)
  }

  function Pop(active: seq<ProjectedTreasure>, id: string): seq<ProjectedTreasure> {
    if active == [] then []
    else if active[0].treasureId == id then active[1..]
    else [active[0]] + Pop(active[1..], id)
  }

  function TemplateOf(e: Event): Option<string> {
    if e.context.Some? then Some(e.context.value.template) else None
  }

  function Project(active: seq<ProjectedTreasure>, e: Event): seq<ProjectedTreasure> {
    if e.eventType == FaultInjected && e.fault == Some(STASH) then
      if e.details.StashDetails? && e.details.stashedId != "" && e.details.rowIndices != [] then
        Put(active, ProjectedTreasure(e.details.stashedId, TemplateOf(e), e.details.rowIndices[0], e.eventId))
      else active
    else if e.eventType == TreasureReturned && e.details.ReturnDetails? then Pop(active, e.details.returnedId)
    else active
  }

  function Projection(events: seq<Event>): seq<ProjectedTreasure> {
    if events == [] then [] else Project(Projection(events[..|events| - 1]), events[|events| - 1])
  }

  method RebuildHouse(events: seq<Event>) returns (active: seq<ProjectedTreasure>)
    ensures active == Projection(events)
  {
    active := [];
    for i := 0 to |events|
      invariant active == Projection(events[..i])
    {
      assert events[..i + 1][..i] == events[..i];
      var e := events[i];
      if e.eventType == FaultInjected && e.fault == Some(STASH) {
        if e.details.StashDetails? && e.details.stashedId != "" && e.details.rowIndices != [] {
          active := Put(active, ProjectedTreasure(e.details.stashedId, TemplateOf(e), e.details.rowIndices[0], e.eventId));
        }
      } else if e.eventType == TreasureReturned && e.details.ReturnDetails? {
        active := Pop(active, e.details.returnedId);
      }
    }
    assert events[..|events|] == events;
  }
}
