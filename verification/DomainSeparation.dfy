/** No two purposes, decisions or events of a session are hashed from the same text. */
module DomainSeparation {
  import opened Models
  import opened Decisions

  lemma Cut(a: string, b: string, x: string, y: string)
    requires |a| == |b| && a + x == b + y
    ensures a == b && x == y
  {
    assert a == (a + x)[..|a|] && b == (b + y)[..|a|];
    assert x == (a + x)[|a|..] && y == (b + y)[|a|..];
  }

  function FirstIndex(c: char, s: string): nat {
    if s == "" || s[0] == c then 0 else 1 + FirstIndex(c, s[1..])
  }

  lemma {:induction false} FirstAfter(c: char, a: string, x: string)
    requires c !in a
    ensures FirstIndex(c, a + ([c] + x)) == |a|
  {
    if a != "" {
      assert (a + ([c] + x))[1..] == a[1..] + ([c] + x);
      FirstAfter(c, a[1..], x);
    }
  }

  /** A separator that occurs in neither head makes the split unique. */
  lemma SplitAt(c: char, a: string, b: string, x: string, y: string)
    requires c !in a && c !in b && a + ([c] + x) == b + ([c] + y)
    ensures a == b && x == y
  {
    FirstAfter(c, a, x);
    FirstAfter(c, b, y);
    Cut(a, b, [c] + x, [c] + y);
    Cut([c], [c], x, y);
  }

  // ----- Decimal rendering -----

  lemma {:induction false} DigitsAreDigits(n: nat)
    ensures Digits(n) != "" && forall i | 0 <= i < |Digits(n)| :: '0' <= Digits(n)[i] <= '9'
  {
    if n >= 10 {
      DigitsAreDigits(n / 10);
    }
  }

  lemma DigitInjective(x: nat, y: nat)
    requires x < 16 && y < 16 && Digit(x) == Digit(y)
    ensures x == y
  {
    var digits := "0123456789abcdef";
    assert digits[0] == '0' && digits[9] == '9' && digits[10] == 'a' && digits[15] == 'f';
  }

  lemma {:induction false} DigitsInjective(m: nat, n: nat)
    requires Digits(m) == Digits(n)
    ensures m == n
  {
    hide Digits, Digit;
    DigitsEnd(m);
    DigitsEnd(n);
    DigitInjective(m % 10, n % 10);
    if m >= 10 || n >= 10 {
      var a, b := Digits(m), Digits(n);
      Cut(a[..|a| - 1], b[..|b| - 1], [a[|a| - 1]], [b[|b| - 1]]);
      DigitsInjective(m / 10, n / 10);
    }
  }

  lemma {:induction false} DigitsEnd(n: nat)
    ensures var s := Digits(n);
            && s != "" && s[|s| - 1] == Digit(n % 10) && s == s[..|s| - 1] + [s[|s| - 1]]
            && (if n >= 10 then s[..|s| - 1] == Digits(n / 10) && |s| > 1 else |s| == 1)
  {
    DigitsAreDigits(n / 10);
  }

  // ----- Tags -----

  lemma FaultTextInjective(f: Fault, g: Fault)
    requires FaultText(f) == FaultText(g)
    ensures f == g
  {
    var a, b := FaultText(f), FaultText(g);
    assert a != "" && b != "" && |a| == |b| && a[0] == b[0] && a[|a| - 1] == b[|a| - 1];
    assert |a| > 3 ==> a[1] == b[1] && a[2] == b[2] && a[3] == b[3];
  }

  lemma EventNameInjective(a: EventName, b: EventName)
    requires EventNameText(a) == EventNameText(b)
    ensures a == b
  {
    var s, t := EventNameText(a), EventNameText(b);
    assert s != "" && t != "" && |s| == |t| && s[0] == t[0] && s[1] == t[1];
    if a.OfFault? && b.OfFault? {
      FaultTextInjective(a.fault, b.fault);
    }
  }

  lemma WordHasNoColon(p: Purpose)
    ensures ':' !in Word(p)
  {
  }

  /** Different purposes, or the same purpose at different indices, have different tags. */
  lemma TagsDiffer(p: Purpose, q: Purpose)
    requires TagText(p) == TagText(q)
    ensures p == q
  {
    WordHasNoColon(p);
    WordHasNoColon(q);
    SplitAt(':', Word(p), Word(q), Rest(p), Rest(q));
    assert |Word(p)| == |Word(q)| && Word(p)[0] == Word(q)[0] && Word(p)[1] == Word(q)[1];
    SameWord(p, q);
  }

  lemma SameWord(p: Purpose, q: Purpose)
    requires Rest(p) == Rest(q)
    requires |Word(p)| == |Word(q)| && Word(p)[0] == Word(q)[0] && Word(p)[1] == Word(q)[1]
    ensures p == q
  {
    match p {
      case Fire(f) => FaultTextInjective(f, q.fault);
      case Rows(f) => FaultTextInjective(f, q.fault);
      case Permutation(i) =>
        Cut("SHUFFLE:", "SHUFFLE:", Digits(i), Digits(q.index));
        DigitsInjective(i, q.index);
      case MoodEpoch(e) => DigitsInjective(e, q.epoch);
      case TreasureId(r) => DigitsInjective(r, q.rowIndex);
      case EventId(n, name) =>
        DigitsAreDigits(n);
        DigitsAreDigits(q.seqNo);
        SplitAt(':', Digits(n), Digits(q.seqNo), EventNameText(name), EventNameText(q.name));
        DigitsInjective(n, q.seqNo);
        EventNameInjective(name, q.name);
      case _ =>
    }
  }

  /** Values are derived from different texts unless both the key and the purpose agree. */
  lemma DeriveTextsDiffer(key: string, p: Purpose, key': string, q: Purpose)
    requires |key| == |key'| && DeriveText(key, p) == DeriveText(key', q)
    ensures key == key' && p == q
  {
    Cut(key, key', ":" + TagText(p), ":" + TagText(q));
    Cut(":", ":", TagText(p), TagText(q));
    TagsDiffer(p, q);
  }

  // ----- Decision texts -----

  function Tail(occurrence: nat, phase: Phase, parameter: Option<string>): string {
    Digits(occurrence) + ("\0" + (PhaseText(phase) + match parameter case None => "" case Some(p) => "\0" + p))
  }

  lemma NoNul(phase: Phase)
    ensures '\0' !in PhaseText(phase)
  {
  }

  lemma TailsDiffer(o: nat, p: Phase, x: Option<string>, o': nat, p': Phase, x': Option<string>)
    requires Tail(o, p, x) == Tail(o', p', x') && x.Some? == x'.Some?
    ensures o == o' && p == p' && x == x'
  {
    DigitsAreDigits(o);
    DigitsAreDigits(o');
    var end, end' := if x.Some? then "\0" + x.value else "", if x'.Some? then "\0" + x'.value else "";
    SplitAt('\0', Digits(o), Digits(o'), PhaseText(p) + end, PhaseText(p') + end');
    DigitsInjective(o, o');
    NoNul(p);
    NoNul(p');
    if x.Some? {
      SplitAt('\0', PhaseText(p), PhaseText(p'), x.value, x'.value);
    } else {
      assert PhaseText(p) + end == PhaseText(p) && PhaseText(p') + end' == PhaseText(p');
    }
    assert PhaseText(p)[0] == PhaseText(p')[0] && |PhaseText(p)| == |PhaseText(p')|;
  }

  /** Within a session, decisions that differ in template, occurrence, phase or used parameter
      are hashed from different texts. */
  lemma DecisionTextsDiffer(seed: string, id: string, t: string, o: nat, p: Phase, x: Option<string>,
                            t': string, o': nat, p': Phase, x': Option<string>)
    requires |t| == |t'| && x.Some? == x'.Some?
    requires DecisionText(seed, id, t, o, p, x) == DecisionText(seed, id, t', o', p', x')
    ensures t == t' && o == o' && p == p' && x == x'
  {
    var head, head' := "\0" + (t + ("\0" + Tail(o, p, x))), "\0" + (t' + ("\0" + Tail(o', p', x')));
    SameFront(POLICY_VERSION, "\0" + (seed + ("\0" + (id + head))), "\0" + (seed + ("\0" + (id + head'))));
    SameFront("\0", seed + ("\0" + (id + head)), seed + ("\0" + (id + head')));
    SameFront(seed, "\0" + (id + head), "\0" + (id + head'));
    SameFront("\0", id + head, id + head');
    SameFront(id, head, head');
    SameFront("\0", t + ("\0" + Tail(o, p, x)), t' + ("\0" + Tail(o', p', x')));
    Cut(t, t', "\0" + Tail(o, p, x), "\0" + Tail(o', p', x'));
    SameFront("\0", Tail(o, p, x), Tail(o', p', x'));
    TailsDiffer(o, p, x, o', p', x');
  }

  lemma SameFront(a: string, x: string, y: string)
    requires a + x == a + y
    ensures x == y
  {
    Cut(a, a, x, y);
  }

  /** The mood chain is hashed from a text no decision uses. */
  lemma MoodTextIsSeparate(seed: string, id: string, t: string, o: nat, p: Phase, x: Option<string>)
    requires |t| == 71
    ensures MoodText(seed, id) != DecisionText(seed, id, t, o, p, x)
  {
    assert |DecisionText(seed, id, t, o, p, x)| > |MoodText(seed, id)|;
  }

  lemma LastIsAt(c: char, a: string, x: string)
    requires c !in x
    ensures var s := a + ([c] + x);
            s[|a|] == c && forall i | |a| < i < |s| :: s[i] != c
  {
    var s := a + ([c] + x);
    forall i | |a| < i < |s| ensures s[i] != c {
      assert s[i] == x[i - |a| - 1];
    }
  }

  /** A separator that occurs in neither tail makes the split unique. */
  lemma SplitLast(c: char, a: string, b: string, x: string, y: string)
    requires c !in x && c !in y && a + ([c] + x) == b + ([c] + y)
    ensures a == b && x == y
  {
    LastIsAt(c, a, x);
    LastIsAt(c, b, y);
    Cut(a, b, [c] + x, [c] + y);
    Cut([c], [c], x, y);
  }

  /** The part of a decision text before the parameter. */
  function Stem(seed: string, id: string, t: string, o: nat, p: Phase): string {
    ((POLICY_VERSION + "\0") + ((seed + ("\0" + id)) + ("\0" + t))) + ("\0" + Digits(o)) + ("\0" + PhaseText(p))
  }

  lemma TextHasStem(seed: string, id: string, t: string, o: nat, p: Phase, x: Option<string>)
    ensures DecisionText(seed, id, t, o, p, x) ==
            Stem(seed, id, t, o, p) + match x case None => "" case Some(value) => "\0" + value
  {
    NamesInText(seed, id, t, o, p, x);
    var end := match x case None => "" case Some(value) => "\0" + value;
    hide DecisionText;
    Reassociate(POLICY_VERSION + "\0", seed + ("\0" + id), t, Digits(o), PhaseText(p), end);
  }

  lemma Reassociate(a: string, b: string, t: string, o: string, p: string, end: string)
    ensures a + (b + ("\0" + (t + ("\0" + (o + ("\0" + (p + end))))))) ==
            (a + (b + ("\0" + t))) + ("\0" + o) + ("\0" + p) + end
  {
  }

  lemma StemsDiffer(seed: string, id: string, t: string, o: nat, p: Phase,
                    seed': string, id': string, t': string, o': nat, p': Phase)
    requires |t| == |t'| && Stem(seed, id, t, o, p) == Stem(seed', id', t', o', p')
    ensures seed + ("\0" + id) == seed' + ("\0" + id') && t == t' && o == o' && p == p'
  {
    var names, names' := seed + ("\0" + id), seed' + ("\0" + id');
    var front, front' := (POLICY_VERSION + "\0") + (names + ("\0" + t)), (POLICY_VERSION + "\0") + (names' + ("\0" + t'));
    hide Digits, PhaseText;
    NoNul(p);
    NoNul(p');
    SplitLast('\0', front + ("\0" + Digits(o)), front' + ("\0" + Digits(o')), PhaseText(p), PhaseText(p'));
    PhaseTextInjective(p, p');
    DigitsAreDigits(o);
    DigitsAreDigits(o');
    SplitLast('\0', front, front', Digits(o), Digits(o'));
    DigitsInjective(o, o');
    SameFront(POLICY_VERSION + "\0", names + ("\0" + t), names' + ("\0" + t'));
    assert |names + ("\0" + t)| == |names' + ("\0" + t')|;
    Cut(names, names', "\0" + t, "\0" + t');
    Cut("\0", "\0", t, t');
  }

  lemma PhaseTextInjective(p: Phase, p': Phase)
    requires PhaseText(p) == PhaseText(p')
    ensures p == p'
  {
    assert PhaseText(p)[0] == PhaseText(p')[0] && |PhaseText(p)| == |PhaseText(p')|;
  }

  lemma ParametersDiffer(stem: string, x: Option<string>, stem': string, x': Option<string>)
    requires x.Some? == x'.Some?
    requires x == x' || (x.Some? && '\0' !in x.value && '\0' !in x'.value)
    requires stem + (match x case None => "" case Some(value) => "\0" + value) ==
             stem' + (match x' case None => "" case Some(value) => "\0" + value)
    ensures stem == stem' && x == x'
  {
    if x == x' {
      var end := match x case None => "" case Some(value) => "\0" + value;
      assert |stem + end| == |stem' + end|;
      Cut(stem, stem', end, end);
    } else {
      SplitLast('\0', stem, stem', x.value, x'.value);
    }
  }

  /** Decisions of any two sessions share a text exactly when the names of the sessions join to the same text and the
      decisions agree in template, occurrence, phase and used parameter; so seeds separate the sessions of one id, and
      NUL-free seeds separate all sessions. Parameters that differ are compared as fingerprints, which hold no NUL. */
  lemma SessionsDiffer(seed: string, id: string, t: string, o: nat, p: Phase, x: Option<string>,
                       seed': string, id': string, t': string, o': nat, p': Phase, x': Option<string>)
    requires |t| == |t'| && x.Some? == x'.Some?
    requires x == x' || (x.Some? && '\0' !in x.value && '\0' !in x'.value)
    ensures var same := DecisionText(seed, id, t, o, p, x) == DecisionText(seed', id', t', o', p', x');
            && (same <==> seed + ("\0" + id) == seed' + ("\0" + id') && t == t' && o == o' && p == p' && x == x')
            && (same && id == id' ==> seed == seed')
            && (same && '\0' !in seed && '\0' !in seed' ==> seed == seed' && id == id')
  {
    TextHasStem(seed, id, t, o, p, x);
    TextHasStem(seed', id', t', o', p', x');
    hide DecisionText;
    if DecisionText(seed, id, t, o, p, x) == DecisionText(seed', id', t', o', p', x') {
      hide Stem;
      ParametersDiffer(Stem(seed, id, t, o, p), x, Stem(seed', id', t', o', p'), x');
      StemsDiffer(seed, id, t, o, p, seed', id', t', o', p');
      if id == id' {
        Cut(seed, seed', "\0" + id, "\0" + id');
      }
      if '\0' !in seed && '\0' !in seed' {
        SplitAt('\0', seed, seed', id, id');
      }
    }
  }

  lemma NamesInText(seed: string, id: string, t: string, o: nat, p: Phase, x: Option<string>)
    ensures DecisionText(seed, id, t, o, p, x) ==
            (POLICY_VERSION + "\0") + ((seed + ("\0" + id)) + ("\0" + (t + ("\0" + Tail(o, p, x)))))
  {
    var end := "\0" + (t + ("\0" + Tail(o, p, x)));
    assert DecisionText(seed, id, t, o, p, x) == POLICY_VERSION + ("\0" + (seed + ("\0" + (id + end))));
    hide DecisionText, Tail;
    assert seed + ("\0" + (id + end)) == (seed + ("\0" + id)) + end;
  }

  /** With a NUL in a seed, two differently named sessions can share every decision. */
  lemma SeedCollision(t: string, o: nat, p: Phase, x: Option<string>)
    ensures DecisionText("a\0b", "c", t, o, p, x) == DecisionText("a", "b\0c", t, o, p, x)
  {
    var end := "\0" + (t + ("\0" + Tail(o, p, x)));
    assert "a\0b" + ("\0" + ("c" + end)) == "a" + ("\0" + ("b\0c" + end));
  }
}
