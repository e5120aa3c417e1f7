/** The printer of canonical token streams is inverted by the lexer, so the normal form of a SQL text
    is the text of its canonical stream, normalising twice changes nothing, and comments read as spaces. */
module SqlRoundTrip {
  import opened SqlNormalizer

  // ----- Which streams a text can have -----

  predicate ValidToken(t: Token) {
    match t
    case Gap => true
    case Code(c) => !IsSpace(c) && !IsQuote(c)
    case Quoted(q, tail) => IsQuote(q) && QuoteEnd(tail, q) == |tail|
  }

  /** Whether `b` may stand right after `a` without the two reading as something else. */
  predicate Separable(a: Token, b: Token) {
    match a
    case Gap => true
    case Code(c) => !(c == '-' && b == Code('-')) && !(c == '/' && b == Code('*'))
    case Quoted(q, tail) => Closed(tail, q) && !(b.Quoted? && b.q == q)
  }

  predicate Valid(ts: seq<Token>) {
    ts == [] ||
    (ValidToken(ts[0]) && (|ts| == 1 || Separable(ts[0], ts[1])) && Valid(ts[1..]))
  }

  /** No two gaps in a row, no gap at the end, everything outside literals in lower case. */
  predicate Merged(ts: seq<Token>) {
    ts == [] ||
    (FoldToken(ts[0]) == ts[0] && (ts[0].Gap? ==> |ts| > 1 && !ts[1].Gap?) && Merged(ts[1..]))
  }

  predicate Canonical(ts: seq<Token>) {
    Valid(ts) && Merged(ts) && (ts != [] ==> !ts[0].Gap?)
  }

  // ----- Quoted tokens -----

  lemma {:induction false} QuoteCut(t: string, q: char)
    ensures var e := QuoteEnd(t, q);
            && QuoteEnd(t[..e], q) == e
            && Closed(t[..e], q) == Closed(t, q)
            && (Closed(t, q) ==> e == |t| || t[e] != q)
            && (!Closed(t, q) ==> e == |t|)
  {
    if t != "" {
      var e := QuoteEnd(t, q);
      var k := if t[0] != q then 1 else if |t| > 1 && t[1] == q then 2 else 0;
      if k > 0 {
        QuoteCut(t[k..], q);
        assert t[..e][k..] == t[k..][..e - k];
      }
    }
  }

  lemma {:induction false} QuoteAppend(t: string, q: char, r: string)
    requires QuoteEnd(t, q) == |t|
    requires if Closed(t, q) then r == "" || r[0] != q else r == ""
    ensures QuoteEnd(t + r, q) == |t|
  {
    if r == "" {
      assert t + r == t;
    } else {
      var k := if t[0] != q then 1 else if |t| > 1 && t[1] == q then 2 else 0;
      if k > 0 {
        assert (t + r)[k..] == t[k..] + r;
        QuoteAppend(t[k..], q, r);
      } else {
        assert |t| == 1;
      }
    }
  }

  lemma {:induction false} FoldKeepsQuotes(t: string, q: char)
    requires IsQuote(q)
    ensures QuoteEnd(FoldAll(q, t), q) == QuoteEnd(t, q) && Closed(FoldAll(q, t), q) == Closed(t, q)
    ensures FoldAll(q, FoldAll(q, t)) == FoldAll(q, t)
  {
    if t != "" {
      var f := FoldAll(q, t);
      assert f[1..] == FoldAll(q, t[1..]);
      FoldKeepsQuotes(t[1..], q);
      if |t| > 1 {
        assert t[1..][1..] == t[2..] && f[1..][1..] == f[2..];
        assert f[1..][1..] == FoldAll(q, t[1..][1..]);
        FoldKeepsQuotes(t[2..], q);
      }
    }
  }

  // ----- Lexing gives valid streams, printing them is inverted by lexing -----

  function TokenLength(s: string): (n: nat)
    requires s != ""
    ensures 0 < n <= |s|
  {
    if IsQuote(s[0]) then 1 + QuoteEnd(s[1..], s[0]) else if GapLength(s) > 0 then GapLength(s) else 1
  }

  function FirstToken(s: string): Token
    requires s != ""
  {
    if IsQuote(s[0]) then Quoted(s[0], s[1..][..TokenLength(s) - 1])
    else if GapLength(s) > 0 then Gap else Code(s[0])
  }

  lemma {:induction false} LexStep(s: string)
    ensures s == "" <==> Lex(s) == []
    ensures s != "" ==> Lex(s) == [FirstToken(s)] + Lex(s[TokenLength(s)..])
  {
    if s != "" {
      assert s[1..][TokenLength(s) - 1..] == s[TokenLength(s)..];
    }
  }

  lemma {:induction false} LexIsValid(s: string)
    ensures Valid(Lex(s))
    decreases |s|
  {
    hide Lex;
    LexStep(s);
    if s != "" {
      var rest := s[TokenLength(s)..];
      LexIsValid(rest);
      LexStep(rest);
      if IsQuote(s[0]) {
        QuoteCut(s[1..], s[0]);
        assert s[1..][TokenLength(s) - 1..] == rest;
      }
      assert Lex(s)[1..] == Lex(rest);
    }
  }

  lemma {:induction false} PrintFirst(ts: seq<Token>)
    requires ts != []
    ensures Print(ts) != ""
    ensures Print(ts)[0] == match ts[0] case Gap => ' ' case Code(c) => c case Quoted(q, _) => q
    ensures Print(ts)[1..] == (if ts[0].Quoted? then ts[0].tail else "") + Print(ts[1..])
  {
    var first, rest := Text(ts[0]), Print(ts[1..]);
    assert Print(ts) == first + rest;
    hide Print;
    assert first[1..] == if ts[0].Quoted? then ts[0].tail else "";
    assert (first + rest)[1..] == first[1..] + rest;
  }

  lemma PrintNone()
    ensures Print([]) == ""
  {
  }

  /** A text whose first two characters do not open a comment begins with at most one space. */
  lemma GapOfPlain(s: string)
    requires s != "" && (|s| > 1 ==> !(s[0] == '-' && s[1] == '-') && !(s[0] == '/' && s[1] == '*'))
    ensures GapLength(s) == if IsSpace(s[0]) then 1 else 0
  {
  }

  lemma {:induction false} LexPrint(ts: seq<Token>)
    requires Valid(ts)
    ensures Lex(Print(ts)) == ts
  {
    hide Lex, Print, GapLength;
    if ts != [] {
      var s, rest := Print(ts), Print(ts[1..]);
      LexPrint(ts[1..]);
      PrintFirst(ts);
      if |ts| > 1 {
        PrintFirst(ts[1..]);
      } else {
        LexStep(rest);
      }
      if ts[0].Quoted? {
        var tail := ts[0].tail;
        QuoteAppend(tail, ts[0].q, rest);
        assert s[1..][..|tail|] == tail && s[1..][|tail|..] == rest && s[1 + |tail|..] == rest;
      } else {
        assert s[1..] == rest;
        GapOfPlain(s);
      }
      LexStep(s);
      assert ts == [ts[0]] + ts[1..];
    } else {
      PrintNone();
      LexStep("");
    }
  }

  // ----- Canonical streams -----

  lemma {:induction false} MergeIsMerged(ts: seq<Token>)
    requires Valid(ts)
    ensures var m := Merge(ts);
            && Valid(m) && Merged(m)
            && (m != [] ==> ts != [] && m[0] == FoldToken(ts[0]))
  {
    if ts != [] {
      var rest := Merge(ts[1..]);
      MergeIsMerged(ts[1..]);
      var m := Merge(ts);
      if m != rest {
        assert m[1..] == rest;
        if ts[0].Quoted? {
          FoldKeepsQuotes(ts[0].tail, ts[0].q);
        }
      }
    }
  }

  lemma CanonIsCanonical(ts: seq<Token>)
    requires Valid(ts)
    ensures Canonical(Canon(ts))
  {
    MergeIsMerged(ts);
  }

  lemma {:induction false} MergeFixesMerged(ts: seq<Token>)
    requires Merged(ts)
    ensures Merge(ts) == ts
  {
    if ts != [] {
      MergeFixesMerged(ts[1..]);
      assert ts == [ts[0]] + ts[1..];
    }
  }

  // ----- The round trip -----

  /** Lexing the normal form gives back the canonical stream it was printed from. */
  lemma NormalFormLexes(sql: string)
    ensures Lex(Normalized(sql)) == Canon(Lex(sql)) && Canonical(Lex(Normalized(sql)))
  {
    LexIsValid(sql);
    CanonIsCanonical(Lex(sql));
    LexPrint(Canon(Lex(sql)));
  }

  /** Two texts share a normal form exactly when they have the same canonical stream. */
  lemma SameNormalForm(a: string, b: string)
    ensures Normalized(a) == Normalized(b) <==> Canon(Lex(a)) == Canon(Lex(b))
  {
    NormalFormLexes(a);
    NormalFormLexes(b);
  }

  /** Normalising is idempotent, and its fixed points are exactly the prints of canonical streams. */
  lemma FixedPoints(sql: string)
    ensures Normalized(Normalized(sql)) == Normalized(sql)
    ensures Normalized(sql) == sql <==> exists ts :: Canonical(ts) && Print(ts) == sql
  {
    NormalFormLexes(sql);
    PrintsAreFixed(Canon(Lex(sql)));
    forall ts | Canonical(ts) && Print(ts) == sql ensures Normalized(sql) == sql {
      PrintsAreFixed(ts);
    }
  }

  lemma PrintsAreFixed(ts: seq<Token>)
    requires Canonical(ts)
    ensures Normalized(Print(ts)) == Print(ts)
  {
    LexPrint(ts);
    MergeFixesMerged(ts);
  }

  // ----- Comments read as spaces -----

  predicate BlockClosed(s: string) {
    s != "" && ((|s| > 1 && s[0] == '*' && s[1] == '/') || BlockClosed(s[1..]))
  }

  /** Whether the scanner is outside quotes and comments once it has read all of `p`. */
  predicate EndsInCode(p: string)
    decreases |p|
  {
    if p == "" then true
    else if IsQuote(p[0]) then
      Closed(p[1..], p[0]) && EndsInCode(p[1..][QuoteEnd(p[1..], p[0])..])
    else if GapLength(p) > 1 then
      && (if p[0] == '-' then LineLength(p[2..]) < |p| - 2 else BlockClosed(p[2..]))
      && EndsInCode(p[GapLength(p)..])
    else EndsInCode(p[1..])
  }

  lemma {:induction false} LineAppend(s: string, r: string)
    requires LineLength(s) < |s|
    ensures LineLength(s + r) == LineLength(s)
  {
    if s[0] != '\r' && s[0] != '\n' {
      assert (s + r)[1..] == s[1..] + r;
      LineAppend(s[1..], r);
    }
  }

  lemma {:induction false} BlockAppend(s: string, r: string)
    requires BlockClosed(s)
    ensures BlockLength(s + r) == BlockLength(s)
  {
    if !(|s| > 1 && s[0] == '*' && s[1] == '/') {
      assert (s + r)[1..] == s[1..] + r;
      BlockAppend(s[1..], r);
    }
  }

  lemma {:induction false} ClosedAppend(t: string, q: char, r: string)
    requires Closed(t, q) && (r == "" || r[0] != q)
    ensures QuoteEnd(t + r, q) == QuoteEnd(t, q) && Closed(t + r, q)
  {
    var k := if t[0] != q then 1 else if |t| > 1 && t[1] == q then 2 else 0;
    if k > 0 {
      assert (t + r)[k..] == t[k..] + r;
      ClosedAppend(t[k..], q, r);
    }
  }

  /** Whether `r` cannot open or continue a comment together with the end of `p`. */
  predicate Apart(p: string, r: string) {
    r == "" || (r[0] != '*' && (r[0] == '-' ==> p == "" || p[|p| - 1] != '-'))
  }

  /** Whether text starting with `r` cannot be read together with the end of `p`. */
  predicate Detached(p: string, r: string) { Apart(p, r) && (r == "" || !IsQuote(r[0])) }

  lemma GapAppend(p: string, r: string)
    requires p != "" && !IsQuote(p[0]) && EndsInCode(p) && Apart(p, r)
    ensures GapLength(p + r) == GapLength(p)
  {
    hide EndsInCode, LineLength, BlockLength, IsSpace;
    if |p| > 1 {
      assert (p + r)[2..] == p[2..] + r;
      if p[0] == '-' && p[1] == '-' {
        CommentEnds(p);
        LineAppend(p[2..], r);
      } else if p[0] == '/' && p[1] == '*' {
        CommentEnds(p);
        BlockAppend(p[2..], r);
      }
    }
  }

  lemma CommentEnds(p: string)
    requires |p| > 1 && EndsInCode(p) && ((p[0] == '-' && p[1] == '-') || (p[0] == '/' && p[1] == '*'))
    ensures if p[0] == '-' then LineLength(p[2..]) < |p| - 2 else BlockClosed(p[2..])
  {
  }

  /** Text read after a prefix that ends in code does not change how the prefix is read. */
  lemma {:induction false} LexAppend(p: string, r: string)
    requires EndsInCode(p) && Detached(p, r)
    ensures Lex(p + r) == Lex(p) + Lex(r)
    decreases |p|
  {
    hide Lex, TokenLength, FirstToken, EndsInCode, Detached;
    if p == "" {
      LexStep(p);
      assert p + r == r;
    } else {
      FirstAppend(p, r);
      var n := TokenLength(p);
      assert (p + r)[n..] == p[n..] + r;
      LexAppend(p[n..], r);
      LexStep(p);
      LexStep(p + r);
    }
  }

  lemma FirstAppend(p: string, r: string)
    requires p != "" && EndsInCode(p) && Detached(p, r)
    ensures TokenLength(p + r) == TokenLength(p) && FirstToken(p + r) == FirstToken(p)
    ensures EndsInCode(p[TokenLength(p)..]) && Detached(p[TokenLength(p)..], r)
  {
    hide EndsInCode, QuoteEnd, Closed, GapLength;
    CodeStep(p);
    if IsQuote(p[0]) {
      QuoteAppendFirst(p, r);
    } else {
      GapAppend(p, r);
    }
  }

  /** A text that ends in code has its first token closed, and ends in code after it. */
  lemma CodeStep(p: string)
    requires p != "" && EndsInCode(p)
    ensures EndsInCode(p[TokenLength(p)..]) && (IsQuote(p[0]) ==> Closed(p[1..], p[0]))
  {
    hide QuoteEnd, Closed, LineLength, BlockLength, BlockClosed, IsSpace;
    var n := TokenLength(p);
    if IsQuote(p[0]) {
      assert p[1..][n - 1..] == p[n..];
    }
  }

  lemma QuoteAppendFirst(p: string, r: string)
    requires p != "" && IsQuote(p[0]) && Closed(p[1..], p[0]) && (r == "" || r[0] != p[0])
    ensures var e := QuoteEnd(p[1..], p[0]);
            (p + r)[1..] == p[1..] + r && QuoteEnd((p + r)[1..], p[0]) == e && (p + r)[1..][..e] == p[1..][..e]
  {
    hide QuoteEnd, Closed;
    assert (p + r)[1..] == p[1..] + r;
    ClosedAppend(p[1..], p[0], r);
  }

  /** `c` can be the inside of a block comment. */
  predicate BlockText(c: string) {
    forall i | 0 <= i < |c| - 1 :: !(c[i] == '*' && c[i + 1] == '/')
  }

  lemma {:induction false} BlockEndsAtClose(c: string, q: string)
    requires BlockText(c)
    ensures BlockLength(c + "*/" + q) == |c| + 2
  {
    var s := c + "*/" + q;
    if c != "" {
      assert s[1..] == c[1..] + "*/" + q;
      forall i | 0 <= i < |c[1..]| - 1 ensures !(c[1..][i] == '*' && c[1..][i + 1] == '/') {
        assert c[1..][i] == c[i + 1] && c[1..][i + 1] == c[(i + 1) + 1];
      }
      BlockEndsAtClose(c[1..], q);
    }
  }

  /** A block comment reads as one space, whatever it says and wherever in code it stands. */
  lemma BlockCommentIsSpace(p: string, c: string, q: string)
    requires EndsInCode(p) && BlockText(c)
    ensures Normalized(p + ("/*" + c + "*/" + q)) == Normalized(p + (" " + q))
  {
    var r := "/*" + c + "*/" + q;
    assert r[2..] == c + "*/" + q;
    BlockEndsAtClose(c, q);
    assert r[GapLength(r)..] == q && (" " + q)[1..] == q;
    assert Lex(r) == [Gap] + Lex(q) == Lex(" " + q);
    LexAppend(p, r);
    LexAppend(p, " " + q);
  }

  // ----- Line comments -----

  /** `c` can be the inside of a line comment. */
  predicate LineText(c: string) {
    forall i | 0 <= i < |c| :: c[i] != '\r' && c[i] != '\n'
  }

  /** A line comment can end before this text: at a line break or at the end of all text. */
  predicate EndsLine(end: string) {
    end == "" || end[0] == '\r' || end[0] == '\n'
  }

  /** A gap is absorbed by a gap after it, and by the end of the stream. */
  lemma {:induction false} MergeAbsorbs(a: seq<Token>, b: seq<Token>)
    requires b == [] || b[0].Gap?
    ensures Merge(a + ([Gap] + b)) == Merge(a + b)
  {
    if a == [] {
      assert a + ([Gap] + b) == [Gap] + b && a + b == b;
      assert ([Gap] + b)[1..] == b;
      MergeStartsInGap(b);
    } else {
      MergeAbsorbs(a[1..], b);
      assert (a + ([Gap] + b))[1..] == a[1..] + ([Gap] + b);
      assert (a + b)[1..] == a[1..] + b;
    }
  }

  lemma MergeStartsInGap(b: seq<Token>)
    requires b == [] || b[0].Gap?
    ensures Merge(b) == [] || Merge(b)[0].Gap?
  {
  }

  lemma {:induction false} LineStopsAt(c: string, end: string)
    requires LineText(c) && EndsLine(end)
    ensures LineLength(c + end) == |c|
  {
    if c == "" {
      assert c + end == end;
    } else {
      assert (c + end)[1..] == c[1..] + end;
      LineStopsAt(c[1..], end);
    }
  }

  lemma LexLineComment(c: string, end: string)
    requires LineText(c) && EndsLine(end)
    ensures Lex("--" + c + end) == [Gap] + Lex(end)
    ensures Lex(end) == [] || Lex(end)[0] == Gap
  {
    hide Lex;
    var r := "--" + c + end;
    assert r[2..] == c + end;
    LineStopsAt(c, end);
    assert r[GapLength(r)..] == end;
    LexStep(end);
    LexStep(r);
  }

  // ----- A '-' right before a line comment -----

  lemma {:induction false} LinePrefix(s: string, m: nat)
    requires LineLength(s) < m <= |s|
    ensures LineLength(s[..m]) == LineLength(s)
  {
    if s[0] != '\r' && s[0] != '\n' {
      assert s[..m][1..] == s[1..][..m - 1];
      LinePrefix(s[1..], m - 1);
    }
  }

  lemma {:induction false} LineStops(s: string)
    requires LineLength(s) < |s|
    ensures s[LineLength(s)] == '\r' || s[LineLength(s)] == '\n'
  {
    if s[0] != '\r' && s[0] != '\n' {
      LineStops(s[1..]);
    }
  }

  lemma {:induction false} BlockPrefix(s: string, m: nat)
    requires BlockClosed(s) && BlockLength(s) <= m <= |s|
    ensures BlockClosed(s[..m]) && BlockLength(s[..m]) == BlockLength(s)
  {
    if !(|s| > 1 && s[0] == '*' && s[1] == '/') {
      assert s[..m][1..] == s[1..][..m - 1];
      BlockPrefix(s[1..], m - 1);
    }
  }

  lemma {:induction false} BlockStops(s: string)
    requires BlockClosed(s)
    ensures 2 <= BlockLength(s) <= |s| && s[BlockLength(s) - 1] == '/'
  {
    if !(|s| > 1 && s[0] == '*' && s[1] == '/') {
      BlockStops(s[1..]);
    }
  }

  lemma {:induction false} QuoteStops(t: string, q: char)
    requires Closed(t, q)
    ensures 0 < QuoteEnd(t, q) <= |t| && t[QuoteEnd(t, q) - 1] == q
  {
    var k := if t[0] != q then 1 else if |t| > 1 && t[1] == q then 2 else 0;
    if k > 0 {
      QuoteStops(t[k..], q);
    }
  }

  lemma {:induction false} QuotePrefix(t: string, q: char, m: nat)
    requires Closed(t, q) && QuoteEnd(t, q) <= m <= |t|
    ensures Closed(t[..m], q) && QuoteEnd(t[..m], q) == QuoteEnd(t, q)
  {
    var e := QuoteEnd(t, q);
    QuoteCut(t, q);
    ClosedAppend(t[..e], q, t[e..m]);
    assert t[..e] + t[e..m] == t[..m];
  }

  /** The first token of a text that ends in code and in '-' is either that '-' or is over before it, and is
      still the first token without it. */
  lemma FirstStaysBeforeDash(p: string)
    requires |p| > 1 && EndsInCode(p) && p[|p| - 1] == '-'
    ensures var n, front := TokenLength(p), p[..|p| - 1];
            && n <= |front| && TokenLength(front) == n
            && (EndsInCode(front[n..]) ==> EndsInCode(front)) && EndsInCode(p[n..])
            && (n == |front| ==> front[|front| - 1] != '-')
  {
    var n, front := TokenLength(p), p[..|p| - 1];
    if IsQuote(p[0]) {
      QuoteBeforeDash(p);
      hide QuoteEnd, Closed, LineLength, BlockLength, BlockClosed;
      assert p[1..][n - 1..] == p[n..] && front[1..][n - 1..] == front[n..];
    } else {
      GapBeforeDash(p);
      hide QuoteEnd, Closed, LineLength, BlockLength, BlockClosed;
    }
  }

  lemma QuoteBeforeDash(p: string)
    requires |p| > 1 && IsQuote(p[0]) && Closed(p[1..], p[0]) && p[|p| - 1] == '-'
    ensures var n, front := 1 + QuoteEnd(p[1..], p[0]), p[..|p| - 1];
            && n <= |front| && IsQuote(front[n - 1]) && front[0] == p[0]
            && Closed(front[1..], p[0]) && 1 + QuoteEnd(front[1..], p[0]) == n
  {
    QuoteStops(p[1..], p[0]);
    QuotePrefix(p[1..], p[0], |p| - 2);
    assert p[..|p| - 1][1..] == p[1..][..|p| - 2];
  }

  lemma GapBeforeDash(p: string)
    requires |p| > 1 && !IsQuote(p[0]) && EndsInCode(p) && p[|p| - 1] == '-'
    ensures var n, front := GapLength(p), p[..|p| - 1];
            && n <= |front| && GapLength(front) == n
            && (n > 1 ==> front[n - 1] != '-' || n < |front|)
            && (n > 1 && p[0] == '-' ==> LineLength(front[2..]) < |front| - 2)
            && (n > 1 && p[0] != '-' ==> BlockClosed(front[2..]))
            && (n <= 1 && p[0] == '-' ==> |front| > 1)
  {
    hide QuoteEnd, Closed;
    var front := p[..|p| - 1];
    if p[0] == '-' && p[1] == '-' {
      CommentEnds(p);
      LineStops(p[2..]);
      LinePrefix(p[2..], |p| - 3);
      assert front[2..] == p[2..][..|p| - 3];
    } else if p[0] == '/' && p[1] == '*' {
      CommentEnds(p);
      BlockStops(p[2..]);
      BlockPrefix(p[2..], |p| - 3);
      assert front[2..] == p[2..][..|p| - 3];
    }
  }

  lemma NothingIsCode()
    ensures EndsInCode("")
  {
  }

  /** A final '-' in code stands alone: without it the text still ends in code, and not in another '-'. */
  lemma {:induction false} DashAlone(p: string)
    requires EndsInCode(p) && p != "" && p[|p| - 1] == '-'
    ensures EndsInCode(p[..|p| - 1]) && (|p| > 1 ==> p[|p| - 2] != '-')
    decreases |p|
  {
    hide TokenLength, EndsInCode;
    if |p| == 1 {
      NothingIsCode();
    } else {
      var n, front := TokenLength(p), p[..|p| - 1];
      FirstStaysBeforeDash(p);
      DashAlone(p[n..]);
      assert p[n..][..|p[n..]| - 1] == front[n..];
    }
  }

  /** How many tokens are not gaps. */
  function Solids(ts: seq<Token>): nat {
    if ts == [] then 0 else Solids(ts[1..]) + if ts[0].Gap? then 0 else 1
  }

  lemma {:induction false} SolidsAppend(a: seq<Token>, b: seq<Token>)
    ensures Solids(a + b) == Solids(a) + Solids(b)
  {
    if a == [] {
      assert a + b == b;
    } else {
      assert (a + b)[1..] == a[1..] + b;
      SolidsAppend(a[1..], b);
    }
  }

  lemma {:induction false} MergeKeepsSolids(ts: seq<Token>)
    ensures Solids(Merge(ts)) == Solids(ts)
  {
    if ts != [] {
      MergeKeepsSolids(ts[1..]);
      var rest := Merge(ts[1..]);
      assert ([Gap] + rest)[1..] == rest && ([FoldToken(ts[0])] + rest)[1..] == rest;
    }
  }

  /** Texts with the same normal form have equally many tokens that are not gaps. */
  lemma SameFormSameSolids(a: string, b: string)
    requires Normalized(a) == Normalized(b)
    ensures Solids(Lex(a)) == Solids(Lex(b))
  {
    SameNormalForm(a, b);
    MergeKeepsSolids(Lex(a));
    MergeKeepsSolids(Lex(b));
  }

  /** A line comment in code can be left out in front of the line break or the end of the text that ends it, unless
      a '-' stands right before it: the comment then starts one character earlier and takes that '-' away. */
  lemma LineCommentIsBreak(p: string, c: string, end: string)
    requires EndsInCode(p) && LineText(c) && EndsLine(end)
    ensures Normalized(p + ("--" + c + end)) == Normalized(p + end) <==> p == "" || p[|p| - 1] != '-'
  {
    hide Lex, Normalized, EndsInCode;
    if p == "" || p[|p| - 1] != '-' {
      CommentAfterCode(p, c, end);
    } else if Normalized(p + ("--" + c + end)) == Normalized(p + end) {
      SameFormSameSolids(p + ("--" + c + end), p + end);
      CommentAfterDash(p, c, end);
    }
  }

  lemma CommentAfterCode(p: string, c: string, end: string)
    requires EndsInCode(p) && (p == "" || p[|p| - 1] != '-') && LineText(c) && EndsLine(end)
    ensures Normalized(p + ("--" + c + end)) == Normalized(p + end)
  {
    hide Lex, EndsInCode;
    LexLineComment(c, end);
    LexAppend(p, "--" + c + end);
    LexAppend(p, end);
    MergeAbsorbs(Lex(p), Lex(end));
  }

  lemma CommentAfterDash(p: string, c: string, end: string)
    requires EndsInCode(p) && p != "" && p[|p| - 1] == '-' && LineText(c) && EndsLine(end)
    ensures Solids(Lex(p + ("--" + c + end))) + 1 == Solids(Lex(p + end))
  {
    hide Lex, EndsInCode, Solids;
    var front, swallowed, kept := p[..|p| - 1], "--" + ("-" + c) + end, "-" + end;
    DashMoves(p, c, end);
    DashAlone(p);
    LexAppend(front, swallowed);
    LexAppend(front, kept);
    LexLineComment("-" + c, end);
    LexDash(end);
    SolidsAppend(Lex(front), Lex(swallowed));
    SolidsAppend(Lex(front), Lex(kept));
    SolidsAfterDash(Lex(end));
  }

  lemma DashMoves(p: string, c: string, end: string)
    requires p != "" && p[|p| - 1] == '-'
    ensures p + ("--" + c + end) == p[..|p| - 1] + ("--" + ("-" + c) + end)
    ensures p + end == p[..|p| - 1] + ("-" + end)
  {
    assert p == p[..|p| - 1] + "-";
    assert "-" + ("--" + c + end) == "--" + ("-" + c) + end;
  }

  lemma SolidsAfterDash(rest: seq<Token>)
    ensures Solids([Gap] + rest) + 1 == Solids([Code('-')] + rest)
  {
    assert ([Gap] + rest)[1..] == rest && ([Code('-')] + rest)[1..] == rest;
  }

  lemma LexDash(r: string)
    requires r == "" || r[0] != '-'
    ensures Lex("-" + r) == [Code('-')] + Lex(r)
  {
    assert ("-" + r)[1..] == r;
  }

  lemma {:induction false} BlockNeverEnds(c: string)
    requires BlockText(c)
    ensures BlockLength(c) == |c|
  {
    if c != "" {
      forall i | 0 <= i < |c[1..]| - 1 ensures !(c[1..][i] == '*' && c[1..][i + 1] == '/') {
        assert c[1..][i] == c[i + 1] && c[1..][i + 1] == c[(i + 1) + 1];
      }
      BlockNeverEnds(c[1..]);
    }
  }

  /** A block comment that is never closed reads as the end of the text. */
  lemma OpenBlockCommentIsEnd(p: string, c: string)
    requires EndsInCode(p) && BlockText(c)
    ensures Normalized(p + ("/*" + c)) == Normalized(p)
  {
    var r := "/*" + c;
    assert r[2..] == c;
    BlockNeverEnds(c);
    assert r[GapLength(r)..] == "";
    hide EndsInCode;
    LexAppend(p, r);
    MergeAbsorbs(Lex(p), []);
    assert Lex(p) + [] == Lex(p);
  }

  /** The smallest such text: the comment swallows the '-' before it. */
  lemma LineCommentAfterMinus()
    ensures EndsInCode("-") && Normalized("-" + "--\n") == "" && Normalized("-" + "\n") == "-"
  {
    assert "-" + "--\n" == "---\n" && "-" + "\n" == "-\n";
    assert Lex("\n") == [Gap];
    assert "---\n"[2..] == "-\n" && "-\n"[1..] == "\n" && "---\n"[3..] == "\n";
    assert Lex("---\n") == [Gap, Gap];
    assert Lex("-\n") == [Code('-'), Gap];
    assert [Gap, Gap][1..] == [Gap] && [Code('-'), Gap][1..] == [Gap];
  }
}
