/** Exactly what the stale-read cache holds after a run: the latest cacheable deliveries, four of a key and 64 in all. */
module CacheContents {
  import opened Models
  import opened Decisions
  import opened Adapters
  import opened Faults
  import opened Session
  import opened StaleReads
  import opened PlainAnswers
  import StepInvariants
  import Inv = Invariants
  import C = StashCycle
  import SC = StaleCache

  // ----- The list it should hold -----

  /** The entries that are among the last `k` of their key. */
  function Recent(list: seq<StaleEntry>, k: nat): seq<StaleEntry> {
    if list == [] then []
    else (if |SC.Of(list, list[0].key)| <= k then [list[0]] else []) + Recent(list[1..], k)
  }

  function Last<T>(list: seq<T>, n: nat): seq<T> { if |list| > n then list[|list| - n..] else list }

  lemma {:induction false} RecentOf(list: seq<StaleEntry>, k: nat, key: CacheKey)
    ensures SC.Of(Recent(list, k), key) == Last(SC.Of(list, key), k)
  {
    if list != [] {
      RecentOf(list[1..], k, key);
      var first := if |SC.Of(list, list[0].key)| <= k then [list[0]] else [];
      SC.OfAppend(first, Recent(list[1..], k), key);
      assert list[0].key == key ==> SC.Of(list, key)[1..] == SC.Of(list[1..], key);
    }
  }

  /** One more entry pushes out the oldest of its key once there are `k`. */
  lemma {:induction false} RecentGrows(list: seq<StaleEntry>, e: StaleEntry, k: nat)
    requires k > 0
    ensures Recent(list + [e], k) == SC.Room(Recent(list, k), e.key, k) + [e]
  {
    hide SC.Of, SC.Room, Recent;
    if list == [] {
      assert list + [e] == [e];
      RecentOne(e, k);
    } else {
      var front, rest := Recent(list[1..], k), list[1..];
      RecentGrows(rest, e, k);
      assert (list + [e])[1..] == rest + [e];
      RecentStep(list, k);
      RecentStep(list + [e], k);
      SC.OfAppend(list, [e], list[0].key);
      OneOf(e);
      NoneElse(e, list[0].key);
      RoomStep(list, e, k);
    }
  }

  lemma RecentOne(e: StaleEntry, k: nat)
    requires k > 0
    ensures Recent([e], k) == [e] && SC.Room(Recent([], k), e.key, k) == []
  {
    OneOf(e);
    assert [e][1..] == [];
  }

  lemma RecentStep(list: seq<StaleEntry>, k: nat)
    requires list != []
    ensures Recent(list, k) == (if |SC.Of(list, list[0].key)| <= k then [list[0]] else []) + Recent(list[1..], k)
  {
  }

  /** Making room among the recent entries, seen from the first entry. */
  lemma RoomStep(list: seq<StaleEntry>, e: StaleEntry, k: nat)
    requires list != [] && k > 0
    ensures var n, own := |SC.Of(list, list[0].key)|, list[0].key == e.key;
            SC.Room(Recent(list, k), e.key, k) ==
            (if (if own then n + 1 else n) <= k then [list[0]] else []) + SC.Room(Recent(list[1..], k), e.key, k)
  {
    hide SC.Of, Recent, SC.DropOldestOf;
    RecentStep(list, k);
    RecentOf(list, k, e.key);
    RecentOf(list[1..], k, e.key);
    OfStep(list, e.key);
    DropFirst(list[0], Recent(list[1..], k), e.key);
    assert [] + Recent(list[1..], k) == Recent(list[1..], k);
  }

  lemma OneOf(e: StaleEntry)
    ensures SC.Of([e], e.key) == [e] && SC.Of([], e.key) == []
  {
    assert [e][1..] == [];
  }

  lemma NoneElse(e: StaleEntry, key: CacheKey)
    ensures e.key != key ==> SC.Of([e], key) == []
  {
    assert [e][1..] == [];
  }

  lemma OfStep(list: seq<StaleEntry>, key: CacheKey)
    requires list != []
    ensures SC.Of(list, key) == (if list[0].key == key then [list[0]] else []) + SC.Of(list[1..], key)
  {
  }

  lemma DropFirst(e: StaleEntry, list: seq<StaleEntry>, key: CacheKey)
    ensures SC.DropOldestOf([e] + list, key) == if e.key == key then list else [e] + SC.DropOldestOf(list, key)
  {
    assert ([e] + list)[1..] == list;
  }

  lemma {:induction false} DropAppend(a: seq<StaleEntry>, b: seq<StaleEntry>, key: CacheKey)
    ensures SC.DropOldestOf(a + b, key) == if SC.Of(a, key) == [] then a + SC.DropOldestOf(b, key)
                                           else SC.DropOldestOf(a, key) + b
  {
    hide SC.Of, SC.DropOldestOf;
    if a == [] {
      assert a + b == b && [] + SC.DropOldestOf(b, key) == SC.DropOldestOf(b, key);
      NoneLeft(key);
    } else {
      var first, rest := [a[0]], a[1..];
      Regroup(first, rest, b);
      assert a == first + rest;
      DropAppend(rest, b, key);
      DropFirst(a[0], rest + b, key);
      DropFirst(a[0], rest, key);
      OfStep(a, key);
      Regroup(first, rest, SC.DropOldestOf(b, key));
      Regroup(first, SC.DropOldestOf(rest, key), b);
    }
  }

  lemma Regroup(a: seq<StaleEntry>, b: seq<StaleEntry>, c: seq<StaleEntry>)
    ensures a + b + c == a + (b + c)
  {
  }

  lemma NoneLeft(key: CacheKey)
    ensures SC.Of([], key) == []
  {
  }

  /** Cutting to the last `total` first makes no difference to an addition. */
  lemma CutThenAdd(r: seq<StaleEntry>, e: StaleEntry, k: nat, total: nat)
    requires k > 0 && total > 0 && |SC.Of(r, e.key)| <= k
    ensures SC.Added(Last(r, total), e, k, total) == Last(SC.Room(r, e.key, k) + [e], total)
  {
    hide SC.Of, SC.DropOldestOf, SC.Room;
    if |r| > total {
      var a, b := r[..|r| - total], r[|r| - total..];
      assert r == a + b;
      RoomInParts(a, b, e.key, k);
      if |SC.Of(r, e.key)| >= k && SC.Of(a, e.key) == [] {
        AppendedParts(a, SC.Room(b, e.key, k), e, total);
      } else {
        AppendedParts(SC.Room(r, e.key, k)[..|SC.Room(r, e.key, k)| - total], b, e, total);
      }
    }
  }

  lemma AppendedParts(a: seq<StaleEntry>, b: seq<StaleEntry>, e: StaleEntry, total: nat)
    requires total - 1 <= |b| <= total && total > 0
    ensures Last(a + b + [e], total) == SC.Newest(b + [e], total)
  {
  }

  /** Room is made in the older part if that has an entry of the key, and else in the newer one. */
  lemma RoomInParts(a: seq<StaleEntry>, b: seq<StaleEntry>, key: CacheKey, k: nat)
    requires |SC.Of(a + b, key)| <= k
    ensures var r := SC.Room(a + b, key, k);
            if |SC.Of(a + b, key)| >= k && SC.Of(a, key) == [] then
              r == a + SC.Room(b, key, k) && |b| - 1 <= |SC.Room(b, key, k)| <= |b|
            else
              |r| >= |b| && r == r[..|r| - |b|] + b && SC.Room(b, key, k) == b
  {
    hide SC.Of, SC.DropOldestOf;
    SC.OfAppend(a, b, key);
    DropAppend(a, b, key);
    SC.DropOldestFacts(b, key, key);
    if SC.Of(a, key) != [] {
      SC.DropOldestFacts(a, key, key);
      assert (SC.DropOldestOf(a, key) + b)[..|SC.DropOldestOf(a, key)|] == SC.DropOldestOf(a, key);
    }
  }

  // ----- The deliveries of a run -----

  /** The j-th operation gives the cache something to keep: an in-scope SELECT that delivers a result that is not too
      large, while OLD_BONE is configured. */
  predicate Keeps(cfg: Config, force: bool, ops: seq<Operation>, j: nat)
    requires j < |ops|
  {
    && cfg.policy.Probability(OLD_BONE) > 0.0
    && TakesPart(ops[j]) && InScope(cfg, ops[j].cls.tables) && ops[j].cls.kind == SELECT
    && Answer(cfg, force, ops, j).Delivered? && |Answer(cfg, force, ops, j).result.rows| <= cfg.maxInterventionRows
  }

  /** The cacheable deliveries of the first `n` operations, oldest first. */
  function Deliveries(cfg: Config, force: bool, ops: seq<Operation>, n: nat): seq<StaleEntry>
    requires n <= |ops|
  {
    if n == 0 then []
    else
      Deliveries(cfg, force, ops, n - 1) +
      if !Keeps(cfg, force, ops, n - 1) then []
      else
        var call := CallAt(cfg, force, ops, n - 1);
        [StaleEntry((call.template, if cfg.includeParams then Some(call.parameter) else None), call.occurrence,
                    Answer(cfg, force, ops, n - 1).result)]
  }

  lemma KeyIs(cfg: Config, call: Call)
    ensures KeyOf(cfg, call) == (call.template, if cfg.includeParams then Some(call.parameter) else None)
  {
    hide DecisionText, Tagged;
  }

  // ----- One operation -----

  /** What a call that delivers a result adds to the cache. */
  lemma CallAdds(cfg: Config, force: bool, s: State, call: Call, cls: Classification, reply: Reply)
    ensures var (s', delivery) := Intervene(cfg, force, s, call, cls, reply);
            s'.cache ==
            if delivery.Delivered? && cfg.Caching() && ScopedSelect(cfg, cls)
               && |delivery.result.rows| <= cfg.maxInterventionRows
            then SC.Added(s.cache, StaleEntry(KeyOf(cfg, call), call.occurrence, delivery.result), 4, 64)
            else s.cache
  {
    hide BeforePhase, DeferredDebug, Faults.OnResult, NextEventId, Intervenes, Fetch, SC.Added, KeyFor, DecisionFor, ScopeApplies;
    BeforeCache(cfg, force, s, call, cls, Proceed);
    var (s1, before) := BeforePhase(cfg, force, s, call, cls);
    BeforeCache(cfg, force, s1, call, cls, before);
    var s2 := DeferredDebug(cfg, force, s1, call, cls, before);
    if Fetch(reply, RowCap(cfg, cls)).Fetched? {
      OnResultCache(cfg, s2, DecisionFor(cfg, call, OnResult), cls, Fetch(reply, RowCap(cfg, cls)).result);
    }
  }

  lemma StepAdds(cfg: Config, force: bool, ops: seq<Operation>, n: nat)
    requires n < |ops|
    ensures var s, s' := After(cfg, force, ops[..n]), After(cfg, force, ops[..n + 1]);
            if Keeps(cfg, force, ops, n)
            then s'.cache == SC.Added(s.cache, Deliveries(cfg, force, ops, n + 1)[|Deliveries(cfg, force, ops, n)|], 4, 64)
            else s'.cache == s.cache
  {
    hide Inv.Core, Inv.Timed, Inv.MoodOk, BeginOperation, GiveBack, CancelAndLog, Intervene, CallFor, SC.Added, After,
         Inv.CacheOk, ScopeApplies, InScope, KeyOf;
    C.AfterNext(cfg, force, ops, n);
    StepInvariants.Reachable(cfg, force, ops[..n]);
    var s, op := After(cfg, force, ops[..n]), ops[n];
    match op {
      case Execute(_, _, _, _) =>
        StepInvariants.BeginKeeps(cfg, s);
        ScopeIs(cfg, op.cls.tables);
        if TakesPart(op) {
          var call := CallFor(cfg, BeginOperation(cfg, s), op);
          CallAdds(cfg, force, Begin(BeginOperation(cfg, s), call), call, op.cls, op.reply);
          KeyIs(cfg, call);
        }
      case ExecuteMany(_) => StepInvariants.BeginKeeps(cfg, s);
      case ReturnTreasure(id) => StepInvariants.ReturnTreasureKeeps(cfg, s, id);
      case ReturnAll => Inv.ReturnAllKeeps(cfg, force, s);
    }
  }

  // ----- Over whole runs -----

  lemma {:induction false} CacheUpTo(cfg: Config, force: bool, ops: seq<Operation>, n: nat)
    requires n <= |ops|
    ensures After(cfg, force, ops[..n]).cache == Last(Recent(Deliveries(cfg, force, ops, n), 4), 64)
  {
    hide Keeps, SC.Added, Recent, Last, After, Deliveries;
    if n == 0 {
      EmptyAtStart(cfg, force, ops);
    } else {
      CacheUpTo(cfg, force, ops, n - 1);
      StepAdds(cfg, force, ops, n - 1);
      DeliveriesStep(cfg, force, ops, n - 1);
      if Keeps(cfg, force, ops, n - 1) {
        var d := Deliveries(cfg, force, ops, n - 1);
        OneMore(d, Deliveries(cfg, force, ops, n)[|d|]);
      }
    }
  }

  lemma DeliveriesStep(cfg: Config, force: bool, ops: seq<Operation>, n: nat)
    requires n < |ops|
    ensures var d, d' := Deliveries(cfg, force, ops, n), Deliveries(cfg, force, ops, n + 1);
            if Keeps(cfg, force, ops, n) then |d'| == |d| + 1 && d' == d + [d'[|d|]] else d' == d
  {
    hide Keeps, CallAt, Answer;
  }

  lemma OneMore(d: seq<StaleEntry>, e: StaleEntry)
    ensures SC.Added(Last(Recent(d, 4), 64), e, 4, 64) == Last(Recent(d + [e], 4), 64)
  {
    hide SC.Added, Recent, Last, SC.Of;
    RecentGrows(d, e, 4);
    RecentOf(d, 4, e.key);
    LastIsShort(SC.Of(d, e.key), 4);
    CutThenAdd(Recent(d, 4), e, 4, 64);
  }

  lemma LastIsShort<T>(list: seq<T>, n: nat)
    ensures |Last(list, n)| <= n
  {
  }

  lemma EmptyAtStart(cfg: Config, force: bool, ops: seq<Operation>)
    ensures After(cfg, force, ops[..0]).cache == [] == Last(Recent(Deliveries(cfg, force, ops, 0), 4), 64)
  {
  }

  /** After every run the cache holds exactly the latest cacheable deliveries in order: of those that are among the last four
      of their key, the last 64. */
  lemma CacheIsLatestDeliveries(cfg: Config, force: bool, ops: seq<Operation>)
    ensures After(cfg, force, ops).cache == Last(Recent(Deliveries(cfg, force, ops, |ops|), 4), 64)
  {
    CacheUpTo(cfg, force, ops, |ops|);
    assert ops[..|ops|] == ops;
  }

  /** What an in-scope SELECT has just delivered is the newest entry. */
  lemma JustDelivered(cfg: Config, force: bool, ops: seq<Operation>, j: nat)
    requires j < |ops| && Keeps(cfg, force, ops, j)
    ensures var cache, call := After(cfg, force, ops[..j + 1]).cache, CallAt(cfg, force, ops, j);
            && cache != [] && Gave(cfg, force, ops, j, cache[|cache| - 1])
            && cache[|cache| - 1].key == (call.template, if cfg.includeParams then Some(call.parameter) else None)
  {
    hide After, Answer, CallAt, Recent;
    CacheUpTo(cfg, force, ops, j + 1);
    var d, call := Deliveries(cfg, force, ops, j), CallAt(cfg, force, ops, j);
    var e := Deliveries(cfg, force, ops, j + 1)[|d|];
    assert Deliveries(cfg, force, ops, j + 1) == d + [e];
    RecentGrows(d, e, 4);
    KeyIs(cfg, call);
  }
}
