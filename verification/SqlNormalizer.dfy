/** The policy-v4 SQL normaliser: the one-pass scanner, a reference lexer it is proved against,
    and the round trip that decides when two SQL texts share a template. */
module SqlNormalizer {

  /** The code points for which Python's str.isspace answers True. */
  predicate IsSpace(c: char) {
    || '\t' <= c <= '\r' || '\U{1c}' <= c <= '\U{1f}' || c == ' ' || c == '\U{85}' || c == '\U{a0}'
    || c == '\U{1680}' || '\U{2000}' <= c <= '\U{200a}' || c == '\U{2028}' || c == '\U{2029}'
    || c == '\U{202f}' || c == '\U{205f}' || c == '\U{3000}'
  }

  /** ASCII lowercasing. */
  function Lower(c: char): char {
    if 'A' <= c <= 'Z' then (c as int + 32) as char else c
  }

  predicate IsQuote(c: char) { c == '\'' || c == '"' }

  /** Literals are kept verbatim; everything else is lowercased. */
  function Fold(q: char, c: char): char {
    if q == '\'' then c else Lower(c)
  }

  function FoldAll(q: char, s: string): (r: string)
    ensures |r| == |s|
  {
    if s == "" then "" else [Fold(q, s[0])] + FoldAll(q, s[1..])
  }

  // ----- Reference lexer -----

  /** `Quoted` holds everything after the opening quote, including the closing quote if there is one. */
  datatype Token = Gap | Code(c: char) | Quoted(q: char, tail: string)

  /** How much of `t`, the text after an opening quote `q`, belongs to the quoted token. */
  function QuoteEnd(t: string, q: char): (n: nat)
    ensures n <= |t|
  {
    if t == "" then 0
    else if t[0] != q then 1 + QuoteEnd(t[1..], q)
    else if |t| > 1 && t[1] == q then 2 + QuoteEnd(t[2..], q)
    else 1
  }

  /** Whether the quoted token that begins `t` is closed. */
  predicate Closed(t: string, q: char) {
    if t == "" then false
    else if t[0] != q then Closed(t[1..], q)
    else if |t| > 1 && t[1] == q then Closed(t[2..], q)
    else true
  }

  function LineLength(s: string): (n: nat)
    ensures n <= |s|
  {
    if s == "" || s[0] == '\r' || s[0] == '\n' then 0 else 1 + LineLength(s[1..])
  }

  function BlockLength(s: string): (n: nat)
    ensures n <= |s|
  {
    if s == "" then 0
    else if |s| > 1 && s[0] == '*' && s[1] == '/' then 2
    else 1 + BlockLength(s[1..])
  }

  /** Length of the space or comment that begins `s`; 0 if there is none. */
  function GapLength(s: string): (n: nat)
    ensures n <= |s|
  {
    if |s| > 1 && s[0] == '-' && s[1] == '-' then 2 + LineLength(s[2..])
    else if |s| > 1 && s[0] == '/' && s[1] == '*' then 2 + BlockLength(s[2..])
    else if |s| > 0 && IsSpace(s[0]) then 1
    else 0
  }

  function Lex(s: string): seq<Token> {
    if s == "" then []
    else if IsQuote(s[0]) then
      var e := QuoteEnd(s[1..], s[0]);
      [Quoted(s[0], s[1..][..e])] + Lex(s[1..][e..])
    else if GapLength(s) > 0 then [Gap] + Lex(s[GapLength(s)..])
    else [Code(s[0])] + Lex(s[1..])
  }

  // ----- Canonical streams and their text -----

  function FoldToken(t: Token): Token {
    match t
    case Gap => Gap
    case Code(c) => Code(Lower(c))
    case Quoted(q, tail) => Quoted(q, FoldAll(q, tail))
  }

  /** Folded tokens, runs of gaps merged into one, no gap at the end. */
  function Merge(ts: seq<Token>): seq<Token> {
    if ts == [] then []
    else
      var rest := Merge(ts[1..]);
      if ts[0].Gap? then (if rest == [] || rest[0].Gap? then rest else [Gap] + rest)
      else [FoldToken(ts[0])] + rest
  }

  function Canon(ts: seq<Token>): seq<Token> {
    var m := Merge(ts);
    if m != [] && m[0].Gap? then m[1..] else m
  }

  function Text(t: Token): string {
    match t
    case Gap => " "
    case Code(c) => [c]
    case Quoted(q, tail) => [q] + tail
  }

  function Print(ts: seq<Token>): string {
    if ts == [] then "" else Text(ts[0]) + Print(ts[1..])
  }

  /** The text the normaliser is meant to produce. */
  function Normalized(sql: string): string { Print(Canon(Lex(sql))) }

  // ----- The scanner -----

  function Pad(pending: bool): string { if pending then " " else "" }

  /** What the scanner still has to append when it has `ts` ahead of it. */
  ghost function Remaining(ts: seq<Token>, started: bool, pending: bool): string {
    if ts == [] then ""
    else if ts[0].Gap? then Remaining(ts[1..], started, started)
    else Pad(pending) + Text(FoldToken(ts[0])) + Remaining(ts[1..], true, false)
  }

  lemma {:induction false} RemainingIsPrint(ts: seq<Token>, started: bool, pending: bool)
    requires pending ==> started
    ensures var m := Merge(ts);
            Remaining(ts, started, pending) ==
            if m == [] then ""
            else if m[0].Gap? then Print(if started then m else m[1..])
            else Pad(pending) + Print(m)
  {
    hide Print, FoldAll, Text;
    if ts != [] {
      var rest := Merge(ts[1..]);
      if ts[0].Gap? {
        RemainingIsPrint(ts[1..], started, started);
        PrintCons(Gap, rest);
      } else {
        RemainingIsPrint(ts[1..], true, false);
        PrintCons(FoldToken(ts[0]), rest);
        PrintNothing();
      }
    }
  }

  lemma PrintCons(t: Token, rest: seq<Token>)
    ensures Print([t] + rest) == Text(t) + Print(rest) && ([t] + rest)[1..] == rest
    ensures Text(Gap) == " "
  {
    assert ([t] + rest)[1..] == rest;
  }

  lemma PrintNothing()
    ensures Print([]) == ""
  {
  }

  /** What is left to append when the scanner stands before `s`, inside `quote` unless it is ' '. */
  ghost function Ahead(s: string, quote: char, started: bool, pending: bool): string {
    if quote == ' ' then Remaining(Lex(s), started, pending)
    else
      var e := QuoteEnd(s, quote);
      FoldAll(quote, s[..e]) + Remaining(Lex(s[e..]), true, false)
  }

  lemma {:induction false} FoldConcat(q: char, a: string, b: string)
    ensures FoldAll(q, a + b) == FoldAll(q, a) + FoldAll(q, b)
  {
    hide Fold;
    if a == "" {
      assert a + b == b;
    } else {
      assert (a + b)[1..] == a[1..] + b;
      FoldConcat(q, a[1..], b);
    }
  }

  lemma SplitFold(s: string, q: char, k: nat, e: nat)
    requires k <= e <= |s|
    ensures FoldAll(q, s[..e]) == FoldAll(q, s[..k]) + FoldAll(q, s[k..][..e - k])
    ensures s[k..][e - k..] == s[e..]
  {
    hide FoldAll;
    assert s[..e] == s[..k] + s[k..][..e - k];
    FoldConcat(q, s[..k], s[k..][..e - k]);
  }

  lemma AheadInQuote(s: string, q: char, k: nat, q': char)
    requires s != "" && IsQuote(q)
    requires k == (if s[0] == q && |s| > 1 && s[1] == q then 2 else 1)
    requires q' == (if s[0] == q && k == 1 then ' ' else q)
    ensures Ahead(s, q, true, false) == FoldAll(q, s[..k]) + Ahead(s[k..], q', true, false)
  {
    hide Ahead, QuotedAhead, QuoteEnd, FoldAll;
    QuoteEndStep(s, q, k);
    AheadQuoted(s, q);
    AheadSplit(s, q, k, QuoteEnd(s, q));
    AheadTail(s[k..], q, q', QuoteEnd(s, q) - k);
  }

  /** What is still to append once the end `e` of the quoted text is known. */
  ghost function QuotedAhead(s: string, q: char, e: nat): string
    requires e <= |s|
  {
    FoldAll(q, s[..e]) + Remaining(Lex(s[e..]), true, false)
  }

  lemma AheadSplit(s: string, q: char, k: nat, e: nat)
    requires k <= e <= |s|
    ensures QuotedAhead(s, q, e) == FoldAll(q, s[..k]) + QuotedAhead(s[k..], q, e - k)
  {
    hide Lex, Remaining, FoldAll;
    SplitFold(s, q, k, e);
    JoinFold(FoldAll(q, s[..e]), FoldAll(q, s[..k]), FoldAll(q, s[k..][..e - k]), Remaining(Lex(s[e..]), true, false));
  }

  lemma QuoteEndStep(s: string, q: char, k: nat)
    requires s != "" && k == (if s[0] == q && |s| > 1 && s[1] == q then 2 else 1)
    ensures k <= QuoteEnd(s, q)
    ensures QuoteEnd(s, q) - k == if s[0] == q && k == 1 then 0 else QuoteEnd(s[k..], q)
  {
  }

  lemma AheadQuoted(s: string, q: char)
    requires IsQuote(q)
    ensures Ahead(s, q, true, false) == QuotedAhead(s, q, QuoteEnd(s, q))
  {
    hide Lex, Remaining, FoldAll, QuoteEnd;
  }

  /** What is ahead of a text after one step inside a quote, which may have ended there. */
  lemma AheadTail(t: string, q: char, q': char, n: nat)
    requires IsQuote(q) && (q' == q || q' == ' ') && n == if q' == ' ' then 0 else QuoteEnd(t, q)
    ensures n <= |t| && Ahead(t, q', true, false) == QuotedAhead(t, q, n)
  {
    hide Lex, Remaining, QuoteEnd, FoldAll;
    if q' == ' ' {
      NothingQuoted(t, q);
    }
  }

  lemma NothingQuoted(t: string, q: char)
    ensures QuotedAhead(t, q, 0) == Remaining(Lex(t), true, false)
  {
    hide Lex, Remaining;
    assert t[..0] == "" && t[0..] == t;
  }

  lemma JoinFold(whole: string, first: string, second: string, rest: string)
    requires whole == first + second
    ensures whole + rest == first + (second + rest)
  {
  }

  lemma AheadAtGap(s: string, started: bool, pending: bool)
    requires GapLength(s) > 0
    ensures Ahead(s, ' ', started, pending) == Ahead(s[GapLength(s)..], ' ', started, started)
  {
    var rest := Lex(s[GapLength(s)..]);
    assert ([Gap] + rest)[1..] == rest;
  }

  lemma Regroup(a: string, b: string, c: string, d: string)
    ensures a + (b + c) + d == a + (b + (c + d))
    ensures a + b + c + d == a + (b + (c + d)) == a + ((b + c) + d)
  {
  }

  lemma AheadAtQuote(s: string, started: bool, pending: bool)
    requires s != "" && IsQuote(s[0])
    ensures Ahead(s, ' ', started, pending) ==
            Pad(pending) + ([s[0]] + Ahead(s[1..], s[0], true, false))
  {
    var e := QuoteEnd(s[1..], s[0]);
    var rest := Lex(s[1..][e..]);
    var token := Quoted(s[0], s[1..][..e]);
    calc {
      Ahead(s, ' ', started, pending);
      Remaining([token] + rest, started, pending);
      { assert ([token] + rest)[1..] == rest; }
      Pad(pending) + Text(FoldToken(token)) + Remaining(rest, true, false);
      { Regroup(Pad(pending), [s[0]], FoldAll(s[0], s[1..][..e]), Remaining(rest, true, false)); }
      Pad(pending) + ([s[0]] + (FoldAll(s[0], s[1..][..e]) + Remaining(rest, true, false)));
    }
  }

  lemma AheadAtCode(s: string, started: bool, pending: bool)
    requires s != "" && GapLength(s) == 0 && !IsQuote(s[0])
    ensures Ahead(s, ' ', started, pending) ==
            Pad(pending) + ([Lower(s[0])] + Ahead(s[1..], ' ', true, false))
  {
    assert Lex(s) == [Code(s[0])] + Lex(s[1..]);
    assert ([Code(s[0])] + Lex(s[1..]))[1..] == Lex(s[1..]);
  }

  lemma AheadAtEnds(sql: string)
    ensures Ahead(sql, ' ', false, false) == Normalized(sql)
    ensures forall q, started, pending :: Ahead("", q, started, pending) == ""
  {
    RemainingIsPrint(Lex(sql), false, false);
  }

  method NormalizeSql(sql: string) returns (normalized: string)
    ensures normalized == Normalized(sql)
  {
    hide Ahead, Normalized, FoldAll, Fold, Lower;
    normalized := "";
    var pendingSpace := false;
    var quote := ' ';   // ' ' stands for the source's None
    var index := 0;
    ghost var goal := Normalized(sql);
    AheadAtEnds(sql);
    assert sql[0..] == sql;
    while index < |sql|
      invariant 0 <= index <= |sql|
      invariant quote == ' ' || IsQuote(quote)
      invariant pendingSpace ==> normalized != "" && quote == ' '
      invariant quote != ' ' ==> normalized != ""
      invariant goal == normalized + Ahead(sql[index..], quote, normalized != "", pendingSpace)
    {
      var c := sql[index];
      if quote != ' ' {
        QuotedStep(sql, index, goal, normalized, quote);
        normalized := normalized + [Fold(quote, c)];
        if c == quote {
          if index + 1 < |sql| && sql[index + 1] == quote {
            normalized := normalized + [Fold(quote, sql[index + 1])];
            index := index + 2;
            continue;
          }
          quote := ' ';
        }
        index := index + 1;
      } else if c == '-' && index + 1 < |sql| && sql[index + 1] == '-' {
        GapStep(sql, index, goal, normalized, pendingSpace);
        index := SkipLine(sql, index + 2);
        pendingSpace := normalized != "";
      } else if c == '/' && index + 1 < |sql| && sql[index + 1] == '*' {
        GapStep(sql, index, goal, normalized, pendingSpace);
        index := SkipBlock(sql, index + 2);
        pendingSpace := normalized != "";
      } else if IsSpace(c) {
        GapStep(sql, index, goal, normalized, pendingSpace);
        pendingSpace := normalized != "";
        index := index + 1;
      } else {
        TokenStep(sql, index, goal, normalized, pendingSpace);
        ghost var spaced := normalized + Pad(pendingSpace);
        if pendingSpace {
          normalized := normalized + " ";
          pendingSpace := false;
        }
        assert normalized == spaced;
        if c == '\'' || c == '"' {
          quote := c;
          normalized := normalized + [c];
        } else {
          normalized := normalized + [Lower(c)];
        }
        index := index + 1;
      }
    }
    assert sql[index..] == "";
  }

  lemma QuotedStep(sql: string, index: nat, goal: string, before: string, q: char)
    requires IsQuote(q) && index < |sql|
    requires goal == before + Ahead(sql[index..], q, true, false)
    ensures var c := sql[index];
            if c == q && index + 1 < |sql| && sql[index + 1] == q then
              goal == before + [Fold(q, c)] + [Fold(q, q)] + Ahead(sql[index + 2..], q, true, false)
            else
              goal == before + [Fold(q, c)] + Ahead(sql[index + 1..], if c == q then ' ' else q, true, false)
  {
    var rest := sql[index..];
    var k := if rest[0] == q && |rest| > 1 && rest[1] == q then 2 else 1;
    var q' := if rest[0] == q && k == 1 then ' ' else q;
    AheadInQuote(rest, q, k, q');
    assert rest[k..] == sql[index + k..];
    FoldFirst(q, rest, k);
    var after := Ahead(rest[k..], q', true, false);
    assert goal == before + (FoldAll(q, rest[..k]) + after);
    Regroup(before, [Fold(q, rest[0])], if k == 2 then [Fold(q, rest[1])] else "", after);
    assert k == 1 ==> [Fold(q, rest[0])] + "" == [Fold(q, rest[0])];
    assert k == 1 ==> before + [Fold(q, rest[0])] + "" == before + [Fold(q, rest[0])];
  }

  lemma FoldFirst(q: char, s: string, k: nat)
    requires 1 <= k <= 2 && k <= |s|
    ensures FoldAll(q, s[..k]) == if k == 2 then [Fold(q, s[0])] + [Fold(q, s[1])] else [Fold(q, s[0])]
  {
    assert s[..k][1..] == if k == 2 then [s[1]] else [];
  }

  lemma GapStep(sql: string, index: nat, goal: string, before: string, pending: bool)
    requires index < |sql| && GapLength(sql[index..]) > 0
    requires goal == before + Ahead(sql[index..], ' ', before != "", pending)
    ensures GapLength(sql[index..]) ==
            if index + 1 < |sql| && sql[index] == sql[index + 1] == '-' then 2 + LineLength(sql[index + 2..])
            else if index + 1 < |sql| && sql[index] == '/' && sql[index + 1] == '*' then
              2 + BlockLength(sql[index + 2..])
            else 1
    ensures var next := index + GapLength(sql[index..]);
            goal == before + Ahead(sql[next..], ' ', before != "", before != "")
  {
    var rest := sql[index..];
    AheadAtGap(rest, before != "", pending);
    assert |rest| > 1 ==> rest[2..] == sql[index + 2..];
    assert rest[GapLength(rest)..] == sql[index + GapLength(rest)..];
  }

  lemma TokenStep(sql: string, index: nat, goal: string, before: string, pending: bool)
    requires index < |sql| && GapLength(sql[index..]) == 0
    requires goal == before + Ahead(sql[index..], ' ', before != "", pending)
    ensures var c := sql[index];
            && (IsQuote(c) ==> goal == before + Pad(pending) + [c] + Ahead(sql[index + 1..], c, true, false))
            && (!IsQuote(c) ==> goal == before + Pad(pending) + [Lower(c)] + Ahead(sql[index + 1..], ' ', true, false))
  {
    var rest := sql[index..];
    assert rest[1..] == sql[index + 1..];
    if IsQuote(rest[0]) {
      AheadAtQuote(rest, before != "", pending);
      Regroup(before, Pad(pending), [rest[0]], Ahead(rest[1..], rest[0], true, false));
    } else {
      AheadAtCode(rest, before != "", pending);
      Regroup(before, Pad(pending), [Lower(rest[0])], Ahead(rest[1..], ' ', true, false));
    }
  }

  /** The scanner's inner loop over a line comment. */
  method SkipLine(sql: string, start: nat) returns (index: nat)
    requires start <= |sql|
    ensures index == start + LineLength(sql[start..])
  {
    index := start;
    while index < |sql| && sql[index] != '\r' && sql[index] != '\n'
      invariant start <= index <= |sql|
      invariant index + LineLength(sql[index..]) == start + LineLength(sql[start..])
    {
      assert sql[index..][1..] == sql[index + 1..];
      index := index + 1;
    }
  }

  /** The scanner's inner loop over a block comment. */
  method SkipBlock(sql: string, start: nat) returns (index: nat)
    requires start <= |sql|
    ensures index == start + BlockLength(sql[start..])
  {
    index := start;
    while index < |sql|
      invariant start <= index <= |sql|
      invariant index + BlockLength(sql[index..]) == start + BlockLength(sql[start..])
    {
      assert sql[index..][1..] == sql[index + 1..];
      if sql[index] == '*' && index + 1 < |sql| && sql[index + 1] == '/' {
        return index + 2;
      }
      index := index + 1;
    }
  }
}
