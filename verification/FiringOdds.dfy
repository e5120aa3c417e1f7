/** How often a fault fires, and which fault of several is selected. */
module FiringOdds {
  import opened Models
  import opened Decisions
  import opened Draws
  import opened Faults
  import opened RawDraws

  // ----- Chances -----

  /** The configured probability, scaled by what the mood in force says about the fault; the error form of STASH has the
      chance of STASH. */
  function Chance(cfg: Config, mood: Mood, fault: Fault): real {
    var f := if fault == STASH_ERROR then STASH else fault;
    (if f in cfg.policy.probabilities then cfg.policy.probabilities[f] else 0.0) *
    (if cfg.mood.Some? && mood in cfg.mood.value.multipliers && f in cfg.mood.value.multipliers[mood]
     then cfg.mood.value.multipliers[mood][f] else 1.0)
  }

  function FireText(key: string, fault: Fault): string {
    key + (":" + ("fire:" + Name(if fault == STASH_ERROR then STASH else fault)))
  }

  /** The fault's draw, as a fraction of 2^64, lies below its chance. */
  predicate Hits(cfg: Config, mood: Mood, key: string, fault: Fault) {
    Drawn(cfg.session.sha256, FireText(key, fault)) as real < Chance(cfg, mood, fault) * TWO64 as real
  }

  lemma ChanceIs(cfg: Config, mood: Mood, fault: Fault)
    ensures EffectiveWeight(cfg, mood, fault) == Chance(cfg, mood, fault)
  {
  }

  lemma Below(d: nat, w: real)
    requires d < TWO64
    ensures w > 0.0 && (w >= 1.0 || d as real / TWO64 as real < w) <==> d as real < w * TWO64 as real
  {
    var n, x := TWO64 as real, d as real;
    assert x / n * n == x;
    ScaleBelow(x / n, w, n);
    ScaleBelow(0.0, w, n);
    ScaleBelow(x / n, 1.0, n);
    ScaleBelow(w, 1.0, n);
  }

  lemma ScaleBelow(x: real, y: real, n: real)
    requires n > 0.0
    ensures x < y <==> x * n < y * n
  {
    if x < y {
      assert (y - x) * n > 0.0;
    } else {
      assert (x - y) * n >= 0.0;
    }
  }

  /** A fault fires exactly when its draw hits. */
  lemma FiresIsHit(cfg: Config, mood: Mood, key: string, fault: Fault)
    ensures Fires(cfg, mood, key, fault) <==> Hits(cfg, mood, key, fault)
  {
    hide EffectiveWeight, Chance, TagText, Drawn, Name, Draw;
    Tags(Base(fault), 0);
    DrawIs(cfg.session, key, Fire(Base(fault)), "fire:" + Name(Base(fault)));
    ChanceIs(cfg, mood, fault);
    Below(Drawn(cfg.session.sha256, FireText(key, fault)), Chance(cfg, mood, fault));
  }

  /** What fires under some chance fires under every greater one, the draw being the same. */
  lemma FiringIsMonotone(cfg: Config, cfg': Config, mood: Mood, mood': Mood, key: string, fault: Fault)
    requires cfg'.session == cfg.session && Chance(cfg, mood, fault) <= Chance(cfg', mood', fault)
    ensures Fires(cfg, mood, key, fault) ==> Fires(cfg', mood', key, fault)
  {
    hide Fires, Chance, Drawn, FireText;
    FiresIsHit(cfg, mood, key, fault);
    FiresIsHit(cfg', mood', key, fault);
    var n := TWO64 as real;
    if Chance(cfg, mood, fault) < Chance(cfg', mood', fault) {
      ScaleBelow(Chance(cfg, mood, fault), Chance(cfg', mood', fault), n);
    }
  }

  // ----- Counting draws -----

  /** The n bytes of a number, the most significant first. */
  function Bytes(d: nat, n: nat): (r: seq<Byte>)
    ensures |r| == n
  {
    if n == 0 then [] else Bytes(d / 256, n - 1) + [d % 256]
  }

  function Power(n: nat): nat { if n == 0 then 1 else 256 * Power(n - 1) }

  lemma {:induction false} BytesRead(d: nat, n: nat)
    requires d < Power(n)
    ensures BigEndian(Bytes(d, n)) == d
  {
    if n > 0 {
      BytesRead(d / 256, n - 1);
      assert Bytes(d, n)[..n - 1] == Bytes(d / 256, n - 1);
    }
  }

  /** A digest whose first eight bytes are a given draw. */
  function DigestOf(d: nat): Digest { Bytes(d, 8) + Bytes(0, 24) }

  lemma DigestReads(d: nat)
    requires d < TWO64
    ensures Eight(DigestOf(d)[..8]) == d
  {
    assert DigestOf(d)[..8] == Bytes(d, 8);
    EightIs(Bytes(d, 8));
    assert Power(8) == TWO64 by {
      assert Power(1) == 0x100 && Power(2) == 0x1_0000;
      assert Power(3) == 0x100_0000 && Power(4) == 0x1_0000_0000;
      assert Power(5) == 0x100_0000_0000 && Power(6) == 0x1_0000_0000_0000;
      assert Power(7) == 0x100_0000_0000_0000;
    }
    BytesRead(d, 8);
  }

  /** The configuration under a hash that gives every text the same draw. */
  function Drawing(cfg: Config, d: nat): Config { cfg.(session := cfg.session.(sha256 := _ => DigestOf(d))) }

  /** The draws under which a fault fires. */
  function FiringDraws(cfg: Config, mood: Mood, key: string, fault: Fault): set<nat> {
    set d: nat | 0 <= d < TWO64 && Fires(Drawing(cfg, d), mood, key, fault)
  }

  lemma FiresBelow(cfg: Config, mood: Mood, key: string, fault: Fault, d: nat)
    requires d < TWO64
    ensures Fires(Drawing(cfg, d), mood, key, fault) <==> d as real < Chance(cfg, mood, fault) * TWO64 as real
  {
    hide Fires, Eight, Bytes;
    FiresIsHit(Drawing(cfg, d), mood, key, fault);
    DigestReads(d);
    assert Chance(Drawing(cfg, d), mood, fault) == Chance(cfg, mood, fault);
  }

  /** The numbers below `n`. */
  function Upto(n: nat): set<nat> { if n == 0 then {} else Upto(n - 1) + {n - 1} }

  lemma {:induction false} UptoFacts(n: nat)
    ensures |Upto(n)| == n && forall d: nat :: d in Upto(n) <==> d < n
  {
    if n > 0 {
      UptoFacts(n - 1);
    }
  }

  lemma ChanceIsNoDebt(cfg: Config, mood: Mood, fault: Fault)
    ensures Chance(cfg, mood, fault) >= 0.0
  {
  }

  /** The least integer not below a real. */
  function Ceiling(x: real): int { -((-x).Floor) }

  /** How many draws lie below a chance. */
  function Share(w: real): int { if w >= 1.0 then TWO64 else Ceiling(w * TWO64 as real) }

  lemma AsShare(w: real, n: real)
    requires w >= 0.0 && n > 0.0
    ensures 0.0 <= w * n && (w < 1.0 <==> w * n < n)
  {
    ScaleBelow(w, 1.0, n);
    ScaleBelow(w, 0.0, n);
  }

  lemma ShareBounds(w: real)
    requires w >= 0.0
    ensures 0 <= Share(w) <= TWO64
  {
    hide Ceiling;
    var x := w * TWO64 as real;
    AsShare(w, TWO64 as real);
    BelowCeiling(TWO64, x);
    BelowCeiling(-1, x);
  }

  lemma ShareSplits(w: real, d: nat)
    requires w >= 0.0 && d < TWO64
    ensures d as real < w * TWO64 as real <==> d < Share(w)
  {
    hide Ceiling;
    AsShare(w, TWO64 as real);
    BelowCeiling(d, w * TWO64 as real);
  }

  /** Of the 2^64 draws exactly as many fire as the chance says, rounded up. */
  lemma FiringCount(cfg: Config, mood: Mood, key: string, fault: Fault)
    ensures var w := Chance(cfg, mood, fault);
            |FiringDraws(cfg, mood, key, fault)| == if w >= 1.0 then TWO64 else Ceiling(w * TWO64 as real)
  {
    hide Chance, Fires, Ceiling, Upto;
    var w := Chance(cfg, mood, fault);
    ChanceIsNoDebt(cfg, mood, fault);
    ShareBounds(w);
    var n: nat := Share(w);
    assert forall d: nat | d < TWO64 :: Fires(Drawing(cfg, d), mood, key, fault) <==> d < n by {
      hide Share;
      forall d: nat | d < TWO64 ensures Fires(Drawing(cfg, d), mood, key, fault) <==> d < n {
        FiresBelow(cfg, mood, key, fault, d);
        ShareSplits(w, d);
      }
    }
    UptoFacts(n);
    assert FiringDraws(cfg, mood, key, fault) == Upto(n);
  }

  lemma BelowCeiling(d: int, x: real)
    ensures d as real < x <==> d < Ceiling(x)
  {
  }

  // ----- Selection -----

  /** The first fault of an order that is among the hits. */
  ghost predicate FirstOf(order: seq<Fault>, hits: iset<Fault>, fault: Fault) {
    exists k :: 0 <= k < |order| && order[k] == fault && fault in hits && forall i | 0 <= i < k :: order[i] !in hits
  }

  ghost function HitsAmong(cfg: Config, mood: Mood, key: string, eligible: iset<Fault>): iset<Fault> {
    iset f | f in eligible && Hits(cfg, mood, key, f)
  }

  lemma {:induction false} SelectIsFirst(cfg: Config, mood: Mood, key: string, order: seq<Fault>, eligible: seq<Fault>,
                                         among: iset<Fault>, fault: Fault)
    requires forall f :: f in eligible <==> f in among
    ensures Select(cfg, mood, key, order, eligible) == Some(fault) <==>
            FirstOf(order, HitsAmong(cfg, mood, key, among), fault)
  {
    hide Fires, Hits;
    var hits := HitsAmong(cfg, mood, key, among);
    if order != [] {
      FiresIsHit(cfg, mood, key, order[0]);
      SelectIsFirst(cfg, mood, key, order[1..], eligible, among, fault);
      FirstStep(order, hits, fault);
    }
  }

  lemma FirstStep(order: seq<Fault>, hits: iset<Fault>, fault: Fault)
    requires order != []
    ensures FirstOf(order, hits, fault) <==>
            if order[0] in hits then fault == order[0] else FirstOf(order[1..], hits, fault)
  {
    var rest := order[1..];
    if order[0] !in hits && FirstOf(rest, hits, fault) {
      var k :| 0 <= k < |rest| && rest[k] == fault && fault in hits && forall i | 0 <= i < k :: rest[i] !in hits;
      assert order[k + 1] == fault;
      forall i | 0 <= i < k + 1 ensures order[i] !in hits {
        assert i > 0 ==> order[i] == rest[i - 1];
      }
    }
    if FirstOf(order, hits, fault) {
      var k :| 0 <= k < |order| && order[k] == fault && fault in hits && forall i | 0 <= i < k :: order[i] !in hits;
      if order[0] !in hits {
        assert rest[k - 1] == fault;
        forall i | 0 <= i < k - 1 ensures rest[i] !in hits {
          assert rest[i] == order[i + 1];
        }
      }
    }
    if order[0] in hits && fault == order[0] {
      assert order[0] == fault;
    }
  }
}
