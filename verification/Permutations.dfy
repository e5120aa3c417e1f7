/** The in-place Fisher-Yates shuffle, its swap vectors, and the permutations they stand for. */
module Permutations {

  function Swap<T>(s: seq<T>, i: nat, j: nat): (r: seq<T>)
    requires i < |s| && j < |s|
    ensures |r| == |s|
  {
    s[i := s[j]][j := s[i]]
  }

  /** A swap vector for `n` places: entry i is a place in 0..i. */
  predicate SwapVector(js: seq<nat>, n: nat) {
    |js| == n && forall i | 0 <= i < n :: js[i] <= i
  }

  /** The swaps for the places `i` down to 1, in that order. */
  function Shuffled<T>(s: seq<T>, js: seq<nat>, i: nat): (r: seq<T>)
    requires SwapVector(js, |s|) && (i < |s| || i == 0)
    ensures |r| == |s|
    decreases i
  {
    if i == 0 then s else Shuffled(Swap(s, i, js[i]), js, i - 1)
  }

  method FisherYates<T>(rows: array<T>, js: seq<nat>)
    requires SwapVector(js, rows.Length)
    modifies rows
    ensures rows[..] == Shuffled(old(rows[..]), js, if rows.Length == 0 then 0 else rows.Length - 1)
  {
    var index: nat := if rows.Length == 0 then 0 else rows.Length - 1;
    ghost var goal := Shuffled(rows[..], js, index);
    while index > 0
      invariant index == 0 || index < rows.Length
      invariant Shuffled(rows[..], js, index) == goal
    {
      ghost var before := rows[..];
      rows[index], rows[js[index]] := rows[js[index]], rows[index];
      assert rows[..] == Swap(before, index, js[index]);
      index := index - 1;
    }
  }

  ghost predicate Distinct<T>(s: seq<T>) {
    forall i, j | 0 <= i < j < |s| :: s[i] != s[j]
  }

  lemma SwapKeepsElements<T>(s: seq<T>, i: nat, j: nat)
    requires i < |s| && j < |s|
    ensures multiset(Swap(s, i, j)) == multiset(s)
    ensures Distinct(s) ==> Distinct(Swap(s, i, j))
  {
  }

  /** A shuffle permutes, leaves the places above `i` alone, and fills place `i` from place js[i]. */
  lemma {:induction false} ShuffledFacts<T>(s: seq<T>, js: seq<nat>, i: nat)
    requires SwapVector(js, |s|) && (i < |s| || i == 0)
    ensures multiset(Shuffled(s, js, i)) == multiset(s)
    ensures Shuffled(s, js, i)[if |s| == 0 then 0 else i + 1..] == s[if |s| == 0 then 0 else i + 1..]
    ensures i > 0 ==> Shuffled(s, js, i)[i] == s[js[i]]
    decreases i
  {
    if i > 0 {
      var t := Swap(s, i, js[i]);
      SwapKeepsElements(s, i, js[i]);
      ShuffledFacts(t, js, i - 1);
      var r := Shuffled(t, js, i - 1);
      assert r[i..] == t[i..] && t[i + 1..] == s[i + 1..];
      assert r[i + 1..] == r[i..][1..] && t[i + 1..] == t[i..][1..];
      assert r[i] == r[i..][0] && t[i] == t[i..][0];
    }
  }

  /** Where the element that ends at place `k` stood at the start: the swap at `k` fetches it from js[k], and every swap
      above that moved something to that place has fetched it from its own place. */
  function Origin(js: seq<nat>, k: nat, i: nat): (p: nat)
    requires k <= i < |js| && forall m | 0 <= m < |js| :: js[m] <= m
    ensures p <= i
  {
    if i == k then js[k]
    else
      var p := Origin(js, k, i - 1);
      if js[i] == p then i else p
  }

  /** Every place of a shuffle, traced back through the swaps. */
  lemma {:induction false} ShuffledTraces<T>(s: seq<T>, js: seq<nat>, k: nat, i: nat)
    requires SwapVector(js, |s|) && k <= i < |s|
    ensures Shuffled(s, js, i)[k] == s[Origin(js, k, i)]
    decreases i
  {
    ShuffledFacts(s, js, i);
    if k < i {
      ShuffledTraces(Swap(s, i, js[i]), js, k, i - 1);
    }
  }

  /** Different swap vectors give different arrangements of distinct rows. */
  lemma {:induction false} ShuffledInjective<T>(s: seq<T>, js: seq<nat>, ks: seq<nat>, i: nat)
    requires SwapVector(js, |s|) && SwapVector(ks, |s|) && i < |s| && Distinct(s)
    requires Shuffled(s, js, i) == Shuffled(s, ks, i)
    ensures js[..i + 1] == ks[..i + 1]
    decreases i
  {
    if i == 0 {
      assert js[0] == 0 && ks[0] == 0;
    } else {
      ShuffledFacts(s, js, i);
      ShuffledFacts(s, ks, i);
      assert js[i] == ks[i];
      SwapKeepsElements(s, i, js[i]);
      ShuffledInjective(Swap(s, i, js[i]), js, ks, i - 1);
      assert js[..i + 1] == js[..i] + [js[i]] && ks[..i + 1] == ks[..i] + [ks[i]];
    }
  }

  /** The swap vector that arranges `s` as `p`, if the two agree above place `i`. */
  ghost function SwapsFor<T>(s: seq<T>, p: seq<T>, i: nat): (js: seq<nat>)
    requires |s| == |p| && i < |s| && multiset(s) == multiset(p) && s[i + 1..] == p[i + 1..]
    ensures SwapVector(js, |s|) && Shuffled(s, js, i) == p
    decreases i
  {
    if i == 0 then
      PlaceFor(s, p, 0);
      assert s == [s[0]] + s[1..] && p == [p[0]] + p[1..];
      seq(|s|, _ => 0)
    else
      PlaceFor(s, p, i);
      var j :| 0 <= j <= i && s[j] == p[i];
      var t := Swap(s, i, j);
      SwapAgrees(s, p, i, j);
      var js := SwapsFor(t, p, i - 1)[i := j];
      ShuffledReadsBelow(t, SwapsFor(t, p, i - 1), js, i - 1);
      js
  }

  lemma PlaceFor<T>(s: seq<T>, p: seq<T>, i: nat)
    requires |s| == |p| && i < |s| && multiset(s) == multiset(p) && s[i + 1..] == p[i + 1..]
    ensures exists j :: 0 <= j <= i && s[j] == p[i]
  {
    FrontsAgree(s, p, i + 1);
    assert p[i] in p[..i + 1];
    assert p[i] in multiset(s[..i + 1]);
    var j :| 0 <= j < i + 1 && s[..i + 1][j] == p[i];
    assert s[j] == p[i];
  }

  lemma SwapAgrees<T>(s: seq<T>, p: seq<T>, i: nat, j: nat)
    requires |s| == |p| && i < |s| && multiset(s) == multiset(p) && s[i + 1..] == p[i + 1..]
    requires j <= i && s[j] == p[i]
    ensures multiset(Swap(s, i, j)) == multiset(p) && Swap(s, i, j)[i..] == p[i..]
  {
    SwapKeepsElements(s, i, j);
    var t := Swap(s, i, j);
    assert t[i..] == [t[i]] + s[i + 1..] && p[i..] == [p[i]] + p[i + 1..];
  }

  lemma FrontsAgree<T>(s: seq<T>, p: seq<T>, n: nat)
    requires |s| == |p| && n <= |s| && multiset(s) == multiset(p) && s[n..] == p[n..]
    ensures multiset(s[..n]) == multiset(p[..n])
  {
    assert s == s[..n] + s[n..] && p == p[..n] + p[n..];
    assert multiset(s[..n]) == multiset(s) - multiset(s[n..]);
    assert multiset(p[..n]) == multiset(p) - multiset(p[n..]);
  }

  lemma {:induction false} ShuffledReadsBelow<T>(s: seq<T>, js: seq<nat>, ks: seq<nat>, i: nat)
    requires SwapVector(js, |s|) && SwapVector(ks, |s|) && i < |s| && js[..i + 1] == ks[..i + 1]
    ensures Shuffled(s, js, i) == Shuffled(s, ks, i)
    decreases i
  {
    if i > 0 {
      assert js[i] == js[..i + 1][i] && ks[i] == ks[..i + 1][i];
      assert js[..i] == js[..i + 1][..i] && ks[..i] == ks[..i + 1][..i];
      ShuffledReadsBelow(Swap(s, i, js[i]), js, ks, i - 1);
    }
  }

  /** On distinct rows the swap vectors are in one-to-one correspondence with the permutations. */
  lemma SwapVectorsAreThePermutations<T>(s: seq<T>, p: seq<T>)
    requires s != [] && Distinct(s)
    ensures (exists js :: SwapVector(js, |s|) && Shuffled(s, js, |s| - 1) == p) <==> multiset(p) == multiset(s)
    ensures forall js, ks | SwapVector(js, |s|) && SwapVector(ks, |s|) &&
              Shuffled(s, js, |s| - 1) == p && Shuffled(s, ks, |s| - 1) == p :: js == ks
  {
    var n := |s| - 1;
    if multiset(p) == multiset(s) {
      assert |p| == |multiset(p)| && |s| == |multiset(s)|;
      assert s[n + 1..] == [] && p[n + 1..] == [];
      assert Shuffled(s, SwapsFor(s, p, n), n) == p;
    }
    forall js | SwapVector(js, |s|) && Shuffled(s, js, n) == p ensures multiset(p) == multiset(s) {
      ShuffledFacts(s, js, n);
    }
    forall js, ks | SwapVector(js, |s|) && SwapVector(ks, |s|) && Shuffled(s, js, n) == p && Shuffled(s, ks, n) == p
      ensures js == ks
    {
      ShuffledInjective(s, js, ks, n);
      assert js == js[..n + 1] && ks == ks[..n + 1];
    }
  }
}
