/** How evenly the 64-bit draws are spread over the indices derived from them. */
module Draws {
  const TWO64: nat := 0x1_0000_0000_0000_0000

  /** The draws below `n` that `f` sends to `i`. */
  ghost function Behind(n: nat, f: nat -> nat, i: nat): set<nat> {
    set d: nat | 0 <= d < n && f(d) == i
  }

  /** `_derived_index`: the draw reduced modulo the size. */
  function ModularIndex(draw: nat, size: nat): (i: nat)
    requires size > 0
    ensures i < size
  {
    draw % size
  }

  /** The Fisher-Yates draw: the unit-interval value draw / 2^64 scaled to the size and truncated. */
  function ScaledIndex(draw: nat, size: nat): (i: nat)
    requires size > 0
    ensures draw < TWO64 ==> i < size
  {
    Scaled(draw, size, TWO64)
  }

  function Scaled(draw: nat, size: nat, total: nat): (i: nat)
    requires size > 0 && total > 0
    ensures draw < total ==> i < size
  {
    DivBelow(draw * size, total, size);
    MulMono(size, draw, total);
    draw * size / total
  }

  lemma MulMono(k: nat, x: int, y: int)
    ensures k > 0 ==> (x < y <==> x * k < y * k)
    ensures x <= y ==> x * k <= y * k
  {
  }

  lemma DivBelow(a: nat, n: nat, k: nat)
    requires n > 0
    ensures a / n < k <==> a < k * n
  {
    var q := a / n;
    assert q * n <= a < (q + 1) * n by {
      assert (q + 1) * n == q * n + n;
    }
    MulMono(n, k, q);
    MulMono(n, q + 1, k);
  }

  /** The quotient and remainder of a division are the only pair of their kind. */
  lemma DivUnique(a: nat, k: nat, q: nat, r: nat)
    requires r < k && a == q * k + r
    ensures a / k == q && a % k == r
  {
    var q', r' := a / k, a % k;
    assert a == q' * k + r';
    assert q' * k < (q + 1) * k && q * k < (q' + 1) * k by {
      assert (q + 1) * k == q * k + k && (q' + 1) * k == q' * k + k;
    }
    MulMono(k, q', q + 1);
    MulMono(k, q, q' + 1);
  }

  lemma BehindGrows(n: nat, f: nat -> nat, i: nat)
    requires n > 0
    ensures Behind(0, f, i) == {}
    ensures |Behind(n, f, i)| == |Behind(n - 1, f, i)| + if f(n - 1) == i then 1 else 0
  {
    var before := Behind(n - 1, f, i);
    if f(n - 1) == i {
      assert Behind(n, f, i) == before + {n - 1};
    } else {
      assert Behind(n, f, i) == before;
    }
  }

  lemma {:induction false} ModularCount(n: nat, k: nat, i: nat)
    requires i < k
    ensures |Behind(n, d => d % k, i)| == n / k + if i < n % k then 1 else 0
  {
    if n > 0 {
      ModularCount(n - 1, k, i);
      BehindGrows(n, d => d % k, i);
      DivStep(n - 1, k);
    } else {
      assert Behind(0, d => d % k, i) == {};
    }
  }

  lemma DivStep(a: nat, k: nat)
    requires k > 0
    ensures if a % k + 1 < k then (a + 1) / k == a / k && (a + 1) % k == a % k + 1
            else (a + 1) / k == a / k + 1 && (a + 1) % k == 0
  {
    var q, r := a / k, a % k;
    assert a == q * k + r;
    if r + 1 < k {
      DivUnique(a + 1, k, q, r + 1);
    } else {
      assert (q + 1) * k == q * k + k;
      DivUnique(a + 1, k, q + 1, 0);
    }
  }

  /** The first draw that is scaled to `i` or more. */
  function Threshold(total: nat, k: nat, i: nat): nat
    requires k > 0
  {
    (i * total + k - 1) / k
  }

  lemma AtThreshold(total: nat, k: nat, i: nat, d: nat)
    requires k > 0 && total > 0
    ensures Scaled(d, k, total) >= i <==> d >= Threshold(total, k, i)
  {
    DivBelow(d * k, total, i);
    DivBelow(i * total + k - 1, k, d + 1);
    assert (d + 1) * k == d * k + k;
  }

  lemma {:induction false} ScaledCount(n: nat, total: nat, k: nat, i: nat)
    requires i < k && total > 0
    ensures var lo, hi := Threshold(total, k, i), Threshold(total, k, i + 1);
            lo <= hi && |Behind(n, d => Scaled(d, k, total), i)| == if n <= lo then 0 else if n <= hi then n - lo else hi - lo
  {
    hide Threshold, Scaled;
    ThresholdStep(total, k, i);
    if n > 0 {
      ScaledCount(n - 1, total, k, i);
      BehindGrows(n, d => Scaled(d, k, total), i);
      AtThreshold(total, k, i, n - 1);
      AtThreshold(total, k, i + 1, n - 1);
    } else {
      assert Behind(0, d => Scaled(d, k, total), i) == {};
    }
  }

  lemma ThresholdStep(total: nat, k: nat, i: nat)
    requires k > 0
    ensures total / k <= Threshold(total, k, i + 1) - Threshold(total, k, i) <= (total + k - 1) / k
  {
    assert (i + 1) * total + k - 1 == (i * total + k - 1) + total;
    DivSum(i * total + k - 1, total, k);
    DivSum(total, k - 1, k);
    DivUnique(k - 1, k, 0, k - 1);
  }

  /** A sum's quotient is the sum of the quotients, plus one exactly when the remainders carry. */
  lemma DivSum(a: nat, b: nat, k: nat)
    requires k > 0
    ensures (a + b) / k == a / k + b / k + if a % k + b % k >= k then 1 else 0
  {
    DivSumParts(a, a / k, a % k, b, b / k, b % k, k);
  }

  lemma DivSumParts(a: nat, qa: nat, ra: nat, b: nat, qb: nat, rb: nat, k: nat)
    requires ra < k && rb < k && a == qa * k + ra && b == qb * k + rb
    ensures (a + b) / k == qa + qb + if ra + rb >= k then 1 else 0
  {
    Distribute(qa, qb, k);
    if ra + rb >= k {
      Distribute(qa + qb, 1, k);
      DivUnique(a + b, k, qa + qb + 1, ra + rb - k);
    } else {
      DivUnique(a + b, k, qa + qb, ra + rb);
    }
  }

  lemma Distribute(x: nat, y: nat, k: nat)
    ensures (x + y) * k == x * k + y * k
  {
  }

  /** Every index of every size has floor(2^64 / k) or ceil(2^64 / k) draws behind it, for both draws. */
  lemma DrawsAreFair(k: nat, i: nat)
    requires i < k <= TWO64
    ensures TWO64 / k <= |Behind(TWO64, d => d % k, i)| <= (TWO64 + k - 1) / k
    ensures TWO64 / k <= |Behind(TWO64, d => ScaledIndex(d, k), i)| <= (TWO64 + k - 1) / k
  {
    FairFor(TWO64, k, i);
    assert Behind(TWO64, d => ScaledIndex(d, k), i) == Behind(TWO64, d => Scaled(d, k, TWO64), i);
  }

  lemma FairFor(total: nat, k: nat, i: nat)
    requires i < k <= total
    ensures total / k <= |Behind(total, d => d % k, i)| <= (total + k - 1) / k
    ensures total / k <= |Behind(total, d => Scaled(d, k, total), i)| <= (total + k - 1) / k
  {
    hide Threshold, Scaled;
    ModularCount(total, k, i);
    DivSum(total, k - 1, k);
    DivUnique(k - 1, k, 0, k - 1);
    ScaledCount(total, total, k, i);
    ThresholdStep(total, k, i);
    ThresholdInRange(total, k, i + 1);
  }

  lemma ThresholdInRange(total: nat, k: nat, i: nat)
    requires k > 0 && i <= k
    ensures Threshold(total, k, i) <= total
  {
    MulMono(total, i, k);
    assert (total + 1) * k == k * total + k;
    DivBelow(i * total + k - 1, k, total + 1);
  }
}
