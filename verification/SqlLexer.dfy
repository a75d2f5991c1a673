/**
  * The (quote, escape) automaton that internal/mysqlcopy runs in four places:
  * `tracker.Write`, `validatedSQLReader.Read`, `singleValuesTuple` and
  * `normalizeSchema`.  `Step` is the one transition all four loops refine.
  */
module SqlLexer {
  import opened Text

  const NONE := '\0'

  datatype Lex = Lex(quote: char, escape: bool) {
    // The quote is a quoting byte, and a pending escape only exists inside one.
    predicate Reachable() {
      && (quote == NONE || IsQuote(quote))
      && (escape ==> quote != NONE)
    }
  }

  const CLEAN := Lex(NONE, false)

  predicate IsQuote(c: char) {
    c == '\'' || c == '"' || c == '`'
  }

  function Step(l: Lex, c: char): (r: Lex)
    ensures l.Reachable() ==> r.Reachable()
  {
    if l.escape then l.(escape := false)
    else if l.quote != NONE then
      if c == '\\' then l.(escape := true)
      else if c == l.quote then l.(quote := NONE)
      else l
    else if IsQuote(c) then l.(quote := c)
    else l
  }

  // A byte that is neither inside a quote nor opens one.
  predicate Live(l: Lex, c: char) {
    l == CLEAN && !IsQuote(c)
  }

  function Scan(l: Lex, s: string): (r: Lex)
    ensures l.Reachable() ==> r.Reachable()
    decreases |s|
  {
    if s == "" then l else Scan(Step(l, s[0]), s[1..])
  }

  lemma ScanAppend(l: Lex, a: string, b: string)
    ensures Scan(l, a + b) == Scan(Scan(l, a), b)
    decreases |a|
  {
    if a == "" {
      assert a + b == b;
    } else {
      assert (a + b)[1..] == a[1..] + b;
      ScanAppend(Step(l, a[0]), a[1..], b);
    }
  }

  lemma ScanSnoc(l: Lex, s: string, c: char)
    ensures Scan(l, s + [c]) == Step(Scan(l, s), c)
  {
    ScanAppend(l, s, [c]);
  }

  // ---- Statement boundaries ------------------------------------------------

  // The byte at k is an unquoted semicolon.
  predicate Terminates(s: string, k: nat) {
    k < |s| && s[k] == ';' && Scan(CLEAN, s[..k]) == CLEAN
  }

  // No statement ends inside s.
  ghost predicate Open(s: string) {
    forall k: nat :: k < |s| ==> !Terminates(s, k)
  }

  // s is one whole statement: its first unquoted semicolon is its last byte.
  ghost predicate Delimited(s: string) {
    && s != ""
    && Terminates(s, |s| - 1)
    && forall k: nat :: k < |s| - 1 ==> !Terminates(s, k)
  }

  lemma TerminatesPrefix(s: string, t: string, k: nat)
    requires k < |s|
    ensures Terminates(s, k) == Terminates(s + t, k)
  {
    assert (s + t)[..k] == s[..k];
  }

  lemma OpenSnoc(s: string, c: char)
    requires Open(s)
    ensures c == ';' && Scan(CLEAN, s) == CLEAN ==> Delimited(s + [c])
    ensures !(c == ';' && Scan(CLEAN, s) == CLEAN) ==> Open(s + [c])
  {
    var t := s + [c];
    forall k: nat | k < |s| ensures !Terminates(t, k) { TerminatesPrefix(s, [c], k); }
    assert t[..|s|] == s;
  }

  // White space before a statement is invisible to the lexer.
  lemma TrimLeftDelimited(s: string)
    requires Delimited(s)
    ensures Delimited(TrimLeft(s))
    ensures TrimRight(TrimLeft(s)) == TrimLeft(s)
  {
    if IsSpace(s[0]) {
      var t := s[1..];
      assert Step(CLEAN, s[0]) == CLEAN;
      forall k: nat | k < |t| ensures Terminates(t, k) == Terminates(s, k + 1) {
        assert s[..k + 1][1..] == t[..k];
      }
      assert |s| > 1;
      TrimLeftDelimited(t);
    }
  }

  lemma TrimDelimited(s: string)
    requires Delimited(s)
    ensures Delimited(TrimSpace(s))
  {
    TrimLeftDelimited(s);
  }

  // Whole statements written one after the other without a separator decode uniquely.
  lemma {:induction false} ConcatDecodes(xs: seq<string>, ys: seq<string>)
    requires forall x :: x in xs ==> Delimited(x)
    requires forall y :: y in ys ==> Delimited(y)
    requires Concat(xs) == Concat(ys)
    ensures xs == ys
  {
    assert xs != [] ==> Delimited(xs[0]) && Concat(xs) != "";
    assert ys != [] ==> Delimited(ys[0]) && Concat(ys) != "";
    if xs != [] && ys != [] {
      var x, y := xs[0], ys[0];
      assert x in xs && y in ys;
      var whole := Concat(xs);
      assert whole[..|x|] == x && whole[..|y|] == y;
      FirstStatementLength(x, Concat(xs[1..]), y, Concat(ys[1..]));
      assert whole[|x|..] == Concat(xs[1..]) && whole[|y|..] == Concat(ys[1..]);
      forall z | z in xs[1..] ensures Delimited(z) { assert z in xs; }
      forall z | z in ys[1..] ensures Delimited(z) { assert z in ys; }
      ConcatDecodes(xs[1..], ys[1..]);
      assert xs == [x] + xs[1..] && ys == [y] + ys[1..];
    }
  }

  lemma FirstStatementLength(x: string, restX: string, y: string, restY: string)
    requires Delimited(x) && Delimited(y)
    requires x + restX == y + restY
    ensures |x| == |y|
  {
    TerminatesPrefix(x, restX, |x| - 1);
    TerminatesPrefix(y, restY, |y| - 1);
    if |x| < |y| {
      TerminatesPrefix(y, restY, |x| - 1);
    } else if |y| < |x| {
      TerminatesPrefix(x, restX, |y| - 1);
    }
  }

  // ---- Splitting a stream into statements -----------------------------------

  // The whole statements of a stream, given an unfinished statement already read.
  function Statements(head: string, s: string): seq<string>
    decreases |s|
  {
    if s == "" then []
    else if s[0] == ';' && Scan(CLEAN, head) == CLEAN then [head + [';']] + Statements("", s[1..])
    else Statements(head + [s[0]], s[1..])
  }

  // What is left after the last whole statement.
  function Remainder(head: string, s: string): string
    decreases |s|
  {
    if s == "" then head
    else if s[0] == ';' && Scan(CLEAN, head) == CLEAN then Remainder("", s[1..])
    else Remainder(head + [s[0]], s[1..])
  }

  lemma SumOf(a: string, b: string, c: string)
    ensures a + b + c == a + (b + c)
  {}

  // Splitting loses and moves no byte ...
  lemma {:induction false} SplitConcat(head: string, s: string)
    ensures Concat(Statements(head, s)) + Remainder(head, s) == head + s
    decreases |s|
  {
    hide Scan;
    if s != "" {
      var next := s[1..];
      if s[0] == ';' && Scan(CLEAN, head) == CLEAN {
        SplitConcat("", next);
        var first, rest := head + [';'], Statements("", next);
        assert Statements(head, s) == [first] + rest;
        assert Concat([first] + rest) == first + Concat(rest) by { assert ([first] + rest)[1..] == rest; }
        SumOf(first, Concat(rest), Remainder("", next));
        assert s == [';'] + next && "" + next == next;
        SumOf(head, [';'], next);
      } else {
        SplitConcat(head + [s[0]], next);
        assert s == [s[0]] + next;
        SumOf(head, [s[0]], next);
      }
    }
  }

  // ... and every piece is one whole statement, with no boundary left in the remainder.
  lemma {:induction false} SplitDelimited(head: string, s: string)
    requires Open(head)
    ensures forall x :: x in Statements(head, s) ==> Delimited(x)
    ensures Open(Remainder(head, s))
    decreases |s|
  {
    if s != "" {
      OpenSnoc(head, s[0]);
      if s[0] == ';' && Scan(CLEAN, head) == CLEAN {
        SplitDelimited("", s[1..]);
      } else {
        SplitDelimited(head + [s[0]], s[1..]);
      }
    }
  }

  // ---- Parenthesis depth outside quotes --------------------------------------

  function Weight(l: Lex, c: char): int {
    if Live(l, c) then (if c == '(' then 1 else if c == ')' then -1 else 0) else 0
  }

  function Depth(l: Lex, s: string): int
    decreases |s|
  {
    if s == "" then 0 else Weight(l, s[0]) + Depth(Step(l, s[0]), s[1..])
  }

  lemma DepthAppend(l: Lex, a: string, b: string)
    ensures Depth(l, a + b) == Depth(l, a) + Depth(Scan(l, a), b)
    decreases |a|
  {
    if a == "" {
      assert a + b == b;
    } else {
      assert (a + b)[1..] == a[1..] + b;
      DepthAppend(Step(l, a[0]), a[1..], b);
    }
  }

  lemma DepthSnoc(l: Lex, s: string, c: char)
    ensures Depth(l, s + [c]) == Depth(l, s) + Weight(Scan(l, s), c)
  {
    DepthAppend(l, s, [c]);
    assert [c][1..] == "";
  }
}
