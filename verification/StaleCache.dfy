/** The bounded cache of delivered results: an ordered dictionary and a deque of occurrences per key
    that together are two views of one FIFO list. */
module StaleCache {
  import opened Models

  // ----- The FIFO list -----

  /** The entries of one key, oldest first. */
  function Of(list: seq<StaleEntry>, key: CacheKey): seq<StaleEntry> {
    if list == [] then []
    else if list[0].key == key then [list[0]] + Of(list[1..], key)
    else Of(list[1..], key)
  }

  function Occurrences(list: seq<StaleEntry>): (r: seq<nat>)
    ensures |r| == |list|
  {
    seq(|list|, i requires 0 <= i < |list| => list[i].occurrence)
  }

  function DropOldestOf(list: seq<StaleEntry>, key: CacheKey): seq<StaleEntry> {
    if list == [] then []
    else if list[0].key == key then list[1..]
    else [list[0]] + DropOldestOf(list[1..], key)
  }

  function Newest(list: seq<StaleEntry>, total: nat): seq<StaleEntry> {
    if |list| > total then list[|list| - total..] else list
  }

  /** The list with room for one more entry of this key. */
  function Room(list: seq<StaleEntry>, key: CacheKey, perKey: nat): seq<StaleEntry> {
    if |Of(list, key)| >= perKey then DropOldestOf(list, key) else list
  }

  /** Adding to the FIFO list: drop the oldest of this key if it is full, append, drop the oldest overall. */
  function Added(list: seq<StaleEntry>, entry: StaleEntry, perKey: nat, total: nat): seq<StaleEntry> {
    Newest(Room(list, entry.key, perKey) + [entry], total)
  }

  /** `entries[(key, occurrence)] = entry`: a known pair keeps its place, a new one goes to the end. */
  function Assigned(list: seq<StaleEntry>, entry: StaleEntry): seq<StaleEntry> {
    if list == [] then [entry]
    else if list[0].key == entry.key && list[0].occurrence == entry.occurrence then [entry] + list[1..]
    else [list[0]] + Assigned(list[1..], entry)
  }

  lemma {:induction false} AssignedFacts(list: seq<StaleEntry>, entry: StaleEntry)
    ensures Fresh(list, entry.key, entry.occurrence) ==> Assigned(list, entry) == list + [entry]
    ensures !Fresh(list, entry.key, entry.occurrence) ==>
              |Assigned(list, entry)| == |list| && |Of(Assigned(list, entry), entry.key)| == |Of(list, entry.key)|
  {
    if list != [] {
      AssignedFacts(list[1..], entry);
      var rest := Assigned(list[1..], entry);
      assert list == [list[0]] + list[1..];
      assert ([list[0]] + rest)[1..] == rest && ([entry] + list[1..])[1..] == list[1..];
    }
  }

  ghost predicate Bounded(list: seq<StaleEntry>, perKey: nat, total: nat) {
    |list| <= total && forall key :: |Of(list, key)| <= perKey
  }

  ghost predicate Distinct(list: seq<StaleEntry>) {
    forall i, j | 0 <= i < j < |list| :: !(list[i].key == list[j].key && list[i].occurrence == list[j].occurrence)
  }

  ghost predicate Fresh(list: seq<StaleEntry>, key: CacheKey, occurrence: nat) {
    forall e | e in list :: !(e.key == key && e.occurrence == occurrence)
  }

  lemma {:induction false} OfAppend(a: seq<StaleEntry>, b: seq<StaleEntry>, key: CacheKey)
    ensures Of(a + b, key) == Of(a, key) + Of(b, key)
  {
    if a == [] {
      assert a + b == b;
    } else {
      assert (a + b)[1..] == a[1..] + b;
      OfAppend(a[1..], b, key);
    }
  }

  lemma {:induction false} OfMembers(list: seq<StaleEntry>, key: CacheKey)
    ensures forall e :: e in Of(list, key) <==> e in list && e.key == key
  {
    if list != [] {
      OfMembers(list[1..], key);
      assert list == [list[0]] + list[1..];
    }
  }

  lemma {:induction false} DropOldestFacts(list: seq<StaleEntry>, key: CacheKey, other: CacheKey)
    ensures var d := DropOldestOf(list, key);
            && Of(d, other) == (if other == key && Of(list, key) != [] then Of(list, key)[1..] else Of(list, other))
            && |d| == |list| - (if Of(list, key) == [] then 0 else 1)
            && (forall e | e in d :: e in list)
            && (Distinct(list) ==> Distinct(d))
  {
    if list != [] {
      DropOldestFacts(list[1..], key, other);
      var d := DropOldestOf(list[1..], key);
      assert ([list[0]] + d)[1..] == d;
      assert list[0].key == key ==> Of(list, key)[1..] == Of(list[1..], key);
      if Distinct(list) && list[0].key != key {
        DistinctCons(list, d);
      }
    }
  }

  lemma DistinctCons(list: seq<StaleEntry>, d: seq<StaleEntry>)
    requires list != [] && Distinct(list) && Distinct(d) && forall e | e in d :: e in list[1..]
    ensures Distinct([list[0]] + d)
  {
    forall j | 0 <= j < |d| ensures !(list[0].key == d[j].key && list[0].occurrence == d[j].occurrence) {
      assert d[j] in list[1..];
    }
  }

  /** The bounds hold again after every addition, and the newest entry is the one just added. */
  lemma AddedKeepsBounds(list: seq<StaleEntry>, entry: StaleEntry, perKey: Positive, total: nat)
    requires Bounded(list, perKey, total)
    ensures Bounded(Added(list, entry, perKey, total), perKey, total)
    ensures var added := Added(list, entry, perKey, total);
            total > 0 ==> added != [] && added[|added| - 1] == entry
  {
    var room := Room(list, entry.key, perKey);
    var grown := room + [entry];
    forall key ensures |Of(Newest(grown, total), key)| <= perKey {
      DropOldestFacts(list, entry.key, key);
      OfAppend(room, [entry], key);
      assert |Of([entry], key)| == if key == entry.key then 1 else 0;
      if |grown| > total {
        OfAppend(grown[..|grown| - total], grown[|grown| - total..], key);
        assert grown == grown[..|grown| - total] + grown[|grown| - total..];
      }
    }
  }

  lemma AddedKeepsDistinct(list: seq<StaleEntry>, entry: StaleEntry, perKey: nat, total: nat)
    requires Distinct(list) && Fresh(Room(list, entry.key, perKey), entry.key, entry.occurrence)
    ensures Distinct(Added(list, entry, perKey, total))
    ensures forall e | e in Added(list, entry, perKey, total) :: e in list || e == entry
  {
    DropOldestFacts(list, entry.key, entry.key);
  }

  lemma RoomKeepsFresh(list: seq<StaleEntry>, key: CacheKey, occurrence: nat, perKey: nat)
    requires Fresh(list, key, occurrence)
    ensures Fresh(Room(list, key, perKey), key, occurrence)
  {
    DropOldestFacts(list, key, key);
  }

  // ----- The two views -----

  function Deque(byKey: map<CacheKey, seq<nat>>, key: CacheKey): seq<nat> {
    if key in byKey then byKey[key] else []
  }

  function RemoveFirst(deque: seq<nat>, occurrence: nat): seq<nat> {
    if deque == [] then []
    else if deque[0] == occurrence then deque[1..]
    else [deque[0]] + RemoveFirst(deque[1..], occurrence)
  }

  /** The dictionary without its entry for (key, occurrence). */
  function Without(list: seq<StaleEntry>, key: CacheKey, occurrence: nat): seq<StaleEntry> {
    if list == [] then []
    else if list[0].key == key && list[0].occurrence == occurrence then list[1..]
    else [list[0]] + Without(list[1..], key, occurrence)
  }

  /** Every deque holds the occurrences of its key's entries in dictionary order. */
  ghost predicate Views(entries: seq<StaleEntry>, byKey: map<CacheKey, seq<nat>>) {
    forall key :: Deque(byKey, key) == Occurrences(Of(entries, key))
  }

  ghost predicate NoEmptyDeque(byKey: map<CacheKey, seq<nat>>) {
    forall key | key in byKey :: byKey[key] != []
  }

  lemma {:induction false} WithoutViews(list: seq<StaleEntry>, key: CacheKey, occurrence: nat, other: CacheKey)
    ensures Occurrences(Of(Without(list, key, occurrence), other)) ==
            if other == key then RemoveFirst(Occurrences(Of(list, key)), occurrence) else Occurrences(Of(list, other))
  {
    if list != [] && !(list[0].key == key && list[0].occurrence == occurrence) {
      WithoutViews(list[1..], key, occurrence, other);
      var w, rest := Without(list[1..], key, occurrence), Of(list[1..], other);
      assert ([list[0]] + w)[1..] == w;
      if list[0].key == other {
        assert Occurrences([list[0]] + rest)[1..] == Occurrences(rest);
        assert Occurrences([list[0]] + Of(w, other)) == [list[0].occurrence] + Occurrences(Of(w, other));
      }
    } else if list != [] {
      assert key == other ==> Occurrences(Of(list, key))[1..] == Occurrences(Of(list[1..], key));
    }
  }

  lemma {:induction false} WithoutOldest(list: seq<StaleEntry>, key: CacheKey)
    requires Of(list, key) != []
    ensures Without(list, key, Of(list, key)[0].occurrence) == DropOldestOf(list, key)
  {
    if list[0].key != key {
      WithoutOldest(list[1..], key);
    }
  }

  function Lookup(list: seq<StaleEntry>, key: CacheKey, occurrence: nat): Option<StaleEntry> {
    if list == [] then None
    else if list[0].key == key && list[0].occurrence == occurrence then Some(list[0])
    else Lookup(list[1..], key, occurrence)
  }

  lemma {:induction false} LookupFinds(list: seq<StaleEntry>, e: StaleEntry)
    requires Distinct(list) && e in list
    ensures Lookup(list, e.key, e.occurrence) == Some(e)
  {
    var i :| 0 <= i < |list| && list[i] == e;
    if i > 0 {
      assert list[1..][i - 1] == e;
      LookupFinds(list[1..], e);
    }
  }

  class StaleReadCache {
    const maxInterventionRows: int
    const perFingerprint: Positive
    const totalLimit: nat
    var entries: seq<StaleEntry>             // the ordered dictionary, in insertion order
    var byKey: map<CacheKey, seq<nat>>

    ghost predicate Valid()
      reads this
    {
      && Distinct(entries)
      && Bounded(entries, perFingerprint, totalLimit)
      && Views(entries, byKey)
      && NoEmptyDeque(byKey)
    }

    constructor (maxInterventionRows: int, perFingerprint: Positive := 4, totalLimit: nat := 64)
      ensures Valid() && entries == []
      ensures this.maxInterventionRows == maxInterventionRows
      ensures this.perFingerprint == perFingerprint && this.totalLimit == totalLimit
    {
      this.maxInterventionRows, this.perFingerprint, this.totalLimit := maxInterventionRows, perFingerprint, totalLimit;
      entries, byKey := [], map[];
    }

    /** Finds every entry it looks up and returns the key's part of the FIFO list. */
    method History(key: CacheKey) returns (history: seq<StaleEntry>)
      requires Valid()
      ensures history == Of(entries, key)
    {
      if key !in byKey {
        assert Deque(byKey, key) == [];
        return [];
      }
      history := [];
      ghost var mine := Of(entries, key);
      OfMembers(entries, key);
      assert Deque(byKey, key) == Occurrences(mine);
      for i := 0 to |byKey[key]|
        invariant history == mine[..i]
      {
        LookupFinds(entries, mine[i]);
        assert mine[i] in mine;
        history := history + [Lookup(entries, key, byKey[key][i]).value];
      }
    }

    method Remove(key: CacheKey, occurrence: nat)
      requires Views(entries, byKey) && NoEmptyDeque(byKey)
      modifies `entries, `byKey
      ensures entries == Without(old(entries), key, occurrence)
      ensures Views(entries, byKey) && NoEmptyDeque(byKey)
    {
      forall other {
        WithoutViews(entries, key, occurrence, other);
      }
      entries := Without(entries, key, occurrence);
      var occurrences := RemoveFirst(Deque(byKey, key), occurrence);
      byKey := if occurrences == [] then byKey - {key} else byKey[key := occurrences];
    }

    /** One addition to the FIFO list. Adding a pair that is still there once room has been made replaces its entry
        and lists it twice in the deque; the two views then differ, and in that case only. */
    method Add(key: CacheKey, occurrence: nat, result: LogicalResult) returns (added: bool)
      requires Valid()
      modifies `entries, `byKey
      ensures added <==> |result.rows| <= maxInterventionRows
      ensures !added ==> entries == old(entries) && byKey == old(byKey)
      ensures var entry, room := StaleEntry(key, occurrence, result), Room(old(entries), key, perFingerprint);
              && (added && Fresh(room, key, occurrence) ==>
                    entries == Added(old(entries), entry, perFingerprint, totalLimit))
              && (added && !Fresh(room, key, occurrence) ==>
                    entries == Assigned(room, entry) && Deque(byKey, key) == Occurrences(Of(room, key)) + [occurrence])
              && (Valid() <==> !added || Fresh(room, key, occurrence))
    {
      if |result.rows| > maxInterventionRows {
        return false;
      }
      added := true;
      var entry := StaleEntry(key, occurrence, result);
      AddedKeepsBounds(entries, entry, perFingerprint, totalLimit);
      if Fresh(Room(entries, key, perFingerprint), key, occurrence) {
        AddedKeepsDistinct(entries, entry, perFingerprint, totalLimit);
      }
      DropOldestFacts(entries, key, key);
      MakeRoom(key);
      ghost var room, before := entries, byKey;
      AssignedFacts(entries, entry);
      entries := Assigned(entries, entry);
      byKey := byKey[key := Deque(byKey, key) + [occurrence]];
      if Fresh(room, key, occurrence) {
        AppendViews(room, before, byKey, entry);
      } else {
        assert |Deque(byKey, key)| == |Of(entries, key)| + 1;
      }
      TrimTo(totalLimit);
    }

    method MakeRoom(key: CacheKey)
      requires Views(entries, byKey) && NoEmptyDeque(byKey) && |Of(entries, key)| <= perFingerprint
      modifies `entries, `byKey
      ensures Views(entries, byKey) && NoEmptyDeque(byKey)
      ensures entries == Room(old(entries), key, perFingerprint)
    {
      while |Deque(byKey, key)| >= perFingerprint
        invariant Views(entries, byKey) && NoEmptyDeque(byKey)
        invariant |Of(entries, key)| <= perFingerprint
        invariant entries == if |Of(entries, key)| < perFingerprint && |Of(old(entries), key)| >= perFingerprint
                             then DropOldestOf(old(entries), key) else old(entries)
        decreases |Of(entries, key)|
      {
        WithoutOldest(entries, key);
        DropOldestFacts(entries, key, key);
        Remove(key, Deque(byKey, key)[0]);
      }
    }

    method TrimTo(total: nat)
      requires |entries| > total ==> Views(entries, byKey) && NoEmptyDeque(byKey)
      modifies `entries, `byKey
      ensures entries == Newest(old(entries), total)
      ensures |old(entries)| <= total ==> byKey == old(byKey)
      ensures old(Views(entries, byKey) && NoEmptyDeque(byKey)) ==> Views(entries, byKey) && NoEmptyDeque(byKey)
    {
      ghost var grown := entries;
      while |entries| > total
        invariant |grown| > total || old(Views(entries, byKey) && NoEmptyDeque(byKey)) ==>
                    Views(entries, byKey) && NoEmptyDeque(byKey)
        invariant |grown| <= total ==> entries == grown && byKey == old(byKey)
        invariant |entries| <= |grown| && entries == grown[|grown| - |entries|..]
        invariant entries == grown || |entries| >= total
      {
        Remove(entries[0].key, entries[0].occurrence);
      }
    }
  }

  lemma AppendViews(room: seq<StaleEntry>, byKey: map<CacheKey, seq<nat>>, byKey': map<CacheKey, seq<nat>>, entry: StaleEntry)
    requires Views(room, byKey) && NoEmptyDeque(byKey)
    requires byKey' == byKey[entry.key := Deque(byKey, entry.key) + [entry.occurrence]]
    ensures Views(room + [entry], byKey') && NoEmptyDeque(byKey')
  {
    forall key ensures Deque(byKey', key) == Occurrences(Of(room + [entry], key)) {
      OfAppend(room, [entry], key);
    }
  }
}
