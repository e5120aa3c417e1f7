/** Which spellings of an SQL text share its normal form: how letters may change case, and how white space counts. */
module Spelling {
  import opened SqlNormalizer
  import opened SqlRoundTrip

  // ----- A quoted token after text that ends in code -----

  /** The tokens of `p` before a quoted token that a `q` after `p` opens or goes on with. */
  function Before(p: string, q: char): seq<Token>
    decreases |p|
  {
    if p == "" || (p[0] == q && TokenLength(p) == |p|) then []
    else [FirstToken(p)] + Before(p[TokenLength(p)..], q)
  }

  /** What that token already holds: nothing, or a token that `p` ends with and the `q` that is doubled now. */
  function Held(p: string, q: char): string
    decreases |p|
  {
    if p == "" then ""
    else if p[0] == q && TokenLength(p) == |p| then p[1..] + [q]
    else Held(p[TokenLength(p)..], q)
  }

  lemma {:induction false} QuoteGoesOn(u: string, q: char, t: string)
    requires Closed(u, q) && QuoteEnd(u, q) == |u|
    ensures QuoteEnd(u + ([q] + t), q) == |u| + 1 + QuoteEnd(t, q)
  {
    var whole := u + ([q] + t);
    var k := if u[0] != q then 1 else if |u| > 1 && u[1] == q then 2 else 0;
    if k > 0 {
      assert whole[k..] == u[k..] + ([q] + t);
      QuoteGoesOn(u[k..], q, t);
    } else {
      assert |u| == 1 && whole[2..] == t;
    }
  }

  /** How a text reads when it begins with a quoted token. */
  lemma QuotedFirst(s: string, q: char)
    requires s != "" && s[0] == q && IsQuote(q)
    ensures var e := QuoteEnd(s[1..], q);
            TokenLength(s) == 1 + e && FirstToken(s) == Quoted(q, s[1..][..e]) && s[1 + e..] == s[1..][e..]
  {
    hide QuoteEnd, GapLength;
  }

  /** The first token of a text is not touched by a quote after the text, unless it is the text and of that quote. */
  lemma FirstKept(p: string, q: char, t: string)
    requires p != "" && EndsInCode(p) && IsQuote(q) && !(p[0] == q && TokenLength(p) == |p|)
    ensures TokenLength(p + ([q] + t)) == TokenLength(p) && FirstToken(p + ([q] + t)) == FirstToken(p)
    ensures EndsInCode(p[TokenLength(p)..])
  {
    hide EndsInCode, Closed, TokenLength, FirstToken, GapLength, QuoteEnd, IsSpace;
    CodeStep(p);
    if p[0] == q {
      QuotedFirst(p, q);
      SameQuoteKept(p, q, t);
      QuotedFirst(p + ([q] + t), q);
    } else if IsQuote(p[0]) {
      QuotedFirst(p, p[0]);
      QuoteAppendFirst(p, [q] + t);
      QuotedFirst(p + ([q] + t), p[0]);
    } else {
      GapAppend(p, [q] + t);
      SameGap(p, [q] + t);
    }
  }

  lemma SameGap(p: string, r: string)
    requires p != "" && !IsQuote(p[0]) && GapLength(p + r) == GapLength(p)
    ensures TokenLength(p + r) == TokenLength(p) && FirstToken(p + r) == FirstToken(p)
  {
    hide GapLength, QuoteEnd;
  }

  lemma SameQuoteKept(p: string, q: char, t: string)
    requires p != "" && p[0] == q && Closed(p[1..], q) && 1 + QuoteEnd(p[1..], q) != |p|
    ensures var e, whole := QuoteEnd(p[1..], q), p + ([q] + t);
            QuoteEnd(whole[1..], q) == e && whole[1..][..e] == p[1..][..e]
  {
    hide QuoteEnd, Closed;
    var e, r := QuoteEnd(p[1..], q), [q] + t;
    QuoteCut(p[1..], q);
    assert p[1..][..e] + (p[1..][e..] + r) == (p + r)[1..];
    ClosedAppend(p[1..][..e], q, p[1..][e..] + r);
  }

  lemma FirstGoesOn(p: string, q: char, t: string)
    requires p != "" && EndsInCode(p) && IsQuote(q) && p[0] == q && TokenLength(p) == |p|
    ensures var whole, e := p + ([q] + t), QuoteEnd(t, q);
            && TokenLength(whole) == |p| + 1 + e && whole[TokenLength(whole)..] == t[e..]
            && FirstToken(whole) == Quoted(q, p[1..] + [q] + t[..e])
  {
    hide EndsInCode, Closed, TokenLength, FirstToken, GapLength, QuoteEnd, IsSpace;
    CodeStep(p);
    QuotedFirst(p, q);
    var whole, e := p + ([q] + t), QuoteEnd(t, q);
    QuotedFirst(whole, q);
    assert whole[1..] == p[1..] + ([q] + t);
    QuoteGoesOn(p[1..], q, t);
    assert (p[1..] + ([q] + t))[..|p| + e] == p[1..] + [q] + t[..e];
    assert whole[|p| + 1 + e..] == t[e..];
  }

  lemma FirstOpens(q: char, t: string)
    requires IsQuote(q)
    ensures var whole, e := [q] + t, QuoteEnd(t, q);
            TokenLength(whole) == 1 + e && whole[1 + e..] == t[e..] && FirstToken(whole) == Quoted(q, t[..e])
  {
    hide QuoteEnd;
    assert ([q] + t)[1..] == t;
  }

  lemma {:induction false} LexIntoQuote(p: string, q: char, t: string)
    requires EndsInCode(p) && IsQuote(q)
    ensures var e := QuoteEnd(t, q);
            Lex(p + ([q] + t)) == Before(p, q) + ([Quoted(q, Held(p, q) + t[..e])] + Lex(t[e..]))
    decreases |p|
  {
    hide Lex, TokenLength, FirstToken, EndsInCode, QuoteEnd;
    var whole, e := p + ([q] + t), QuoteEnd(t, q);
    LexStep(whole);
    if p == "" {
      assert whole == [q] + t;
      FirstOpens(q, t);
      assert Held(p, q) + t[..e] == t[..e];
    } else if p[0] == q && TokenLength(p) == |p| {
      FirstGoesOn(p, q, t);
    } else {
      FirstKept(p, q, t);
      var n := TokenLength(p);
      assert whole[n..] == p[n..] + ([q] + t);
      LexIntoQuote(p[n..], q, t);
    }
  }

  // ----- One token that is no gap, in the canonical stream -----

  /** What merging makes of the tokens before one that is no gap. */
  function MergedBefore(a: seq<Token>): seq<Token> {
    if a == [] then []
    else
      var rest := MergedBefore(a[1..]);
      if a[0].Gap? then (if rest != [] && rest[0].Gap? then rest else [Gap] + rest) else [FoldToken(a[0])] + rest
  }

  lemma {:induction false} MergeAround(a: seq<Token>, t: Token, b: seq<Token>)
    requires !t.Gap?
    ensures Merge(a + ([t] + b)) == MergedBefore(a) + ([FoldToken(t)] + Merge(b))
  {
    if a == [] {
      assert a + ([t] + b) == [t] + b && ([t] + b)[1..] == b;
    } else {
      assert (a + ([t] + b))[1..] == a[1..] + ([t] + b);
      MergeAround(a[1..], t, b);
    }
  }

  /** Two streams that differ in one such token have the same canonical stream exactly when the tokens fold alike. */
  lemma CanonAround(a: seq<Token>, t: Token, t': Token, b: seq<Token>)
    requires !t.Gap? && !t'.Gap?
    ensures Canon(a + ([t] + b)) == Canon(a + ([t'] + b)) <==> FoldToken(t) == FoldToken(t')
  {
    MergeAround(a, t, b);
    MergeAround(a, t', b);
    var m, n := Merge(a + ([t] + b)), Merge(a + ([t'] + b));
    var k := |MergedBefore(a)|;
    assert m[k] == FoldToken(t) && n[k] == FoldToken(t');
    assert k == 0 || m[0] == n[0];
    if k > 0 && m[0].Gap? {
      assert m[1..][k - 1] == m[k] && n[1..][k - 1] == n[k];
    }
  }

  lemma FormsAround(s: string, s': string, a: seq<Token>, t: Token, t': Token, b: seq<Token>)
    requires !t.Gap? && !t'.Gap? && Lex(s) == a + ([t] + b) && Lex(s') == a + ([t'] + b)
    ensures Normalized(s) == Normalized(s') <==> FoldToken(t) == FoldToken(t')
  {
    hide Lex, Normalized, Canon, FoldToken;
    SameNormalForm(s, s');
    CanonAround(a, t, t', b);
  }

  // ----- Literals -----

  lemma {:induction false} LiteralsFoldToThemselves(s: string)
    ensures FoldAll('\'', s) == s
  {
    if s != "" {
      LiteralsFoldToThemselves(s[1..]);
      assert s == [s[0]] + s[1..];
    }
  }

  /** A quote-free text ends where the quote after it ends. */
  lemma {:induction false} QuoteAfter(x: string, q: char, r: string)
    requires q !in x
    ensures QuoteEnd(x + ([q] + r), q) == |x| + if r != "" && r[0] == q then 2 + QuoteEnd(r[1..], q) else 1
  {
    var t := x + ([q] + r);
    if x == "" {
      assert t == [q] + r && (r != "" ==> t[2..] == r[1..]);
    } else {
      assert t[1..] == x[1..] + ([q] + r);
      QuoteAfter(x[1..], q, r);
    }
  }

  /** What belongs to a quoted token after its quote-free inside `x`: the quote, and more if it is doubled. */
  function Tail(q: char, r: string): (n: nat)
    ensures n <= |r| + 1
  {
    if r != "" && r[0] == q then 2 + QuoteEnd(r[1..], q) else 1
  }

  lemma FormsAroundQuoted(p: string, q: char, x: string, y: string, r: string)
    requires EndsInCode(p) && IsQuote(q) && q !in x && q !in y
    ensures var held, tail := Held(p, q), ([q] + r)[..Tail(q, r)];
            Normalized(p + ([q] + (x + ([q] + r)))) == Normalized(p + ([q] + (y + ([q] + r)))) <==>
            FoldAll(q, held + (x + tail)) == FoldAll(q, held + (y + tail))
  {
    hide Lex, QuoteEnd, EndsInCode, Normalized, FoldAll;
    var t, u, k := x + ([q] + r), y + ([q] + r), Tail(q, r);
    QuoteAfter(x, q, r);
    QuoteAfter(y, q, r);
    LexIntoQuote(p, q, t);
    LexIntoQuote(p, q, u);
    assert t[|x| + k..] == ([q] + r)[k..] == u[|y| + k..];
    assert t[..|x| + k] == x + ([q] + r)[..k] && u[..|y| + k] == y + ([q] + r)[..k];
    FormsAround(p + ([q] + t), p + ([q] + u), Before(p, q), Quoted(q, Held(p, q) + t[..|x| + k]),
                Quoted(q, Held(p, q) + u[..|y| + k]), Lex(([q] + r)[k..]));
  }

  /** A literal counts letter by letter: two texts that differ inside one literal share a normal form only if the
      literals are the same. */
  lemma LiteralsAreKept(p: string, x: string, y: string, r: string)
    requires EndsInCode(p) && '\'' !in x && '\'' !in y
    ensures Normalized(p + ("'" + (x + ("'" + r)))) == Normalized(p + ("'" + (y + ("'" + r)))) <==> x == y
  {
    hide Normalized, FoldAll, EndsInCode;
    FormsAroundQuoted(p, '\'', x, y, r);
    var held, tail := Held(p, '\''), ("'" + r)[..Tail('\'', r)];
    LiteralsFoldToThemselves(held + (x + tail));
    LiteralsFoldToThemselves(held + (y + tail));
    SameMiddle(held, x, y, tail);
  }

  lemma SameMiddle(a: string, x: string, y: string, b: string)
    ensures a + (x + b) == a + (y + b) <==> x == y
  {
    if a + (x + b) == a + (y + b) {
      assert |x| == |y|;
      assert x == (a + (x + b))[|a|..|a| + |x|] && y == (a + (y + b))[|a|..|a| + |y|];
    }
  }

  // ----- Quoted identifiers and code -----

  /** The same texts but for the case of ASCII letters. */
  predicate SameButCase(x: string, y: string) {
    |x| == |y| && forall i | 0 <= i < |x| :: SameLetter(x[i], y[i])
  }

  predicate SameLetter(c: char, d: char) {
    c == d || ('A' <= c <= 'Z' && d as int == c as int + 32) || ('A' <= d <= 'Z' && c as int == d as int + 32)
  }

  lemma SameLetterFolds(c: char, d: char)
    ensures Lower(c) == Lower(d) <==> SameLetter(c, d)
  {
  }

  lemma {:induction false} IdentifiersFold(x: string, y: string)
    ensures FoldAll('"', x) == FoldAll('"', y) <==> SameButCase(x, y)
  {
    if x != "" && y != "" {
      IdentifiersFold(x[1..], y[1..]);
      SameLetterFolds(x[0], y[0]);
      hide Lower, SameLetter;
      var a, b := FoldAll('"', x), FoldAll('"', y);
      assert a[1..] == FoldAll('"', x[1..]) && b[1..] == FoldAll('"', y[1..]);
      assert a == [a[0]] + a[1..] && b == [b[0]] + b[1..];
      if SameButCase(x[1..], y[1..]) && SameLetter(x[0], y[0]) {
        forall i | 0 <= i < |x| ensures SameLetter(x[i], y[i]) {
          assert i > 0 ==> x[i] == x[1..][i - 1] && y[i] == y[1..][i - 1];
        }
      }
      if SameButCase(x, y) {
        forall i | 0 <= i < |x| - 1 ensures SameLetter(x[1..][i], y[1..][i]) {
          assert x[1..][i] == x[i + 1] && y[1..][i] == y[i + 1];
        }
      }
    }
  }

  lemma SameButCaseAround(a: string, x: string, y: string, b: string)
    ensures SameButCase(a + (x + b), a + (y + b)) <==> SameButCase(x, y)
  {
    hide SameLetter;
    var s, t := a + (x + b), a + (y + b);
    forall c ensures SameLetter(c, c) {
      ReflexiveLetter(c);
    }
    if |x| == |y| {
      forall i | 0 <= i < |s| ensures i < |a| || i >= |a| + |x| ==> s[i] == t[i]
      {
      }
      forall i | 0 <= i < |x| ensures x[i] == s[|a| + i] && y[i] == t[|a| + i] {
      }
    }
  }

  lemma ReflexiveLetter(c: char)
    ensures SameLetter(c, c)
  {
  }

  /** A double-quoted identifier counts up to the case of its letters. */
  lemma IdentifiersIgnoreCase(p: string, x: string, y: string, r: string)
    requires EndsInCode(p) && '"' !in x && '"' !in y
    ensures Normalized(p + ("\"" + (x + ("\"" + r)))) == Normalized(p + ("\"" + (y + ("\"" + r)))) <==> SameButCase(x, y)
  {
    hide Normalized, FoldAll, EndsInCode, SameButCase;
    FormsAroundQuoted(p, '"', x, y, r);
    var held, tail := Held(p, '"'), ("\"" + r)[..Tail('"', r)];
    IdentifiersFold(held + (x + tail), held + (y + tail));
    SameButCaseAround(held, x, y, tail);
  }

  /** A character that in code stands for itself, whatever surrounds it. */
  predicate PlainCode(c: char) { !IsQuote(c) && !IsSpace(c) && c !in "-/*" }

  /** In code a plain character counts up to its case. */
  lemma CodeIgnoresCase(p: string, c: char, d: char, r: string)
    requires EndsInCode(p) && PlainCode(c) && PlainCode(d)
    ensures Normalized(p + ([c] + r)) == Normalized(p + ([d] + r)) <==> SameLetter(c, d)
  {
    hide Lex, EndsInCode, Normalized, SameLetter, Lower;
    CodeFirst(p, c, r);
    CodeFirst(p, d, r);
    FormsAround(p + ([c] + r), p + ([d] + r), Lex(p), Code(c), Code(d), Lex(r));
    SameLetterFolds(c, d);
  }

  lemma CodeFirst(p: string, c: char, r: string)
    requires EndsInCode(p) && PlainCode(c)
    ensures Lex(p + ([c] + r)) == Lex(p) + ([Code(c)] + Lex(r))
  {
    hide EndsInCode, Lex;
    LexAppend(p, [c] + r);
    LexStep([c] + r);
    assert ([c] + r)[1..] == r;
  }

  // ----- White space -----

  /** The code points of white space. */
  const SPACES: set<int> := {9, 10, 11, 12, 13, 28, 29, 30, 31, 32, 133, 160, 5760, 8192, 8193, 8194, 8195, 8196, 8197, 8198,
                             8199, 8200, 8201, 8202, 8232, 8233, 8239, 8287, 12288}

  lemma SpacesAre(c: char)
    ensures IsSpace(c) <==> c as int in SPACES
  {
  }

  lemma SpaceFirst(c: char, r: string)
    requires IsSpace(c)
    ensures Lex([c] + r) == [Gap] + Lex(r)
  {
    hide Lex;
    LexStep([c] + r);
    assert ([c] + r)[1..] == r;
  }

  /** In code a run of white space reads as one space, whatever it is made of. */
  lemma SpacesCollapse(p: string, c: char, d: char, r: string)
    requires EndsInCode(p) && IsSpace(c) && IsSpace(d)
    ensures Normalized(p + ([c] + ([d] + r))) == Normalized(p + ([c] + r)) == Normalized(p + (" " + r))
  {
    hide Lex, EndsInCode, IsSpace;
    SpacesAreApart(c, p, [d] + r);
    SpacesAreApart(c, p, r);
    SpacesAreApart(' ', p, r);
    SpaceFirst(c, [d] + r);
    SpaceFirst(d, r);
    SpaceFirst(c, r);
    SpaceFirst(' ', r);
    LexAppend(p, [c] + ([d] + r));
    LexAppend(p, [c] + r);
    LexAppend(p, " " + r);
    MergeAbsorbs(Lex(p), [Gap] + Lex(r));
  }

  lemma SpacesAreApart(c: char, p: string, r: string)
    requires IsSpace(c) || c == ' '
    ensures IsSpace(c) && Detached(p, [c] + r)
  {
  }

  /** White space at either end does not count. */
  lemma EndsAreTrimmed(p: string, c: char, r: string)
    requires EndsInCode(p) && IsSpace(c)
    ensures Normalized([c] + r) == Normalized(r) && Normalized(p + [c]) == Normalized(p)
  {
    hide Lex, EndsInCode, IsSpace;
    SpaceFirst(c, r);
    SpaceFirst(c, "");
    LexStep("");
    assert [c] + "" == [c] && ([Gap] + Lex(r))[1..] == Lex(r);
    SpacesAreApart(c, p, "");
    LexAppend(p, [c]);
    MergeAbsorbs(Lex(p), []);
    assert [Gap] + [] == [Gap] && Lex(p) + [] == Lex(p);
    FirstGapDropped(Lex(r));
  }

  lemma FirstGapDropped(ts: seq<Token>)
    ensures Canon([Gap] + ts) == Canon(ts)
  {
    assert ([Gap] + ts)[1..] == ts;
  }

  /** Between plain characters of code white space does count. */
  lemma SpaceSeparates(p: string, c: char, d: char, r: string)
    requires EndsInCode(p) && PlainCode(c) && PlainCode(d)
    ensures Normalized(p + ([c] + (" " + ([d] + r)))) != Normalized(p + ([c] + ([d] + r)))
  {
    hide Lex, EndsInCode, Normalized, PlainCode, Canon;
    var apart, together := p + ([c] + (" " + ([d] + r))), p + ([c] + ([d] + r));
    CodeFirst(p, c, " " + ([d] + r));
    CodeFirst(p, c, [d] + r);
    CodeOnly(d, r);
    SpaceFirst(' ', [d] + r);
    OneGapMore(Lex(p), c, d, Lex(r));
    SameNormalForm(apart, together);
  }

  lemma CodeOnly(c: char, r: string)
    requires PlainCode(c)
    ensures Lex([c] + r) == [Code(c)] + Lex(r)
  {
    hide Lex;
    LexStep([c] + r);
    assert ([c] + r)[1..] == r;
  }

  lemma OneGapMore(a: seq<Token>, c: char, d: char, b: seq<Token>)
    ensures Canon(a + ([Code(c)] + ([Gap] + ([Code(d)] + b)))) != Canon(a + ([Code(c)] + ([Code(d)] + b)))
  {
    var close, wide := [Code(d)] + b, [Gap] + ([Code(d)] + b);
    MergeAround(a, Code(c), wide);
    MergeAround(a, Code(c), close);
    assert wide[1..] == close && close[1..] == b;
    assert Merge(wide) == [Gap] + Merge(close);
    var m, n := Merge(a + ([Code(c)] + wide)), Merge(a + ([Code(c)] + close));
    assert |m| == |n| + 1 && m[0] == n[0];
  }
}
