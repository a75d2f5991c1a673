/**
  * One INSERT, one row: what `singleValuesTuple` of internal/mysqlcopy/stream.go decides.
  */
module SqlRows {
  import opened Text
  import opened SqlLexer
  import opened SqlTracker
  import Schema

  const VALUES := " VALUES ("

  // The tuple test starts a fresh lexer at `from`.  It sees every later byte in the same
  // state as the statement's own lexer exactly when it starts outside quotes.
  lemma TupleLexerAgrees(s: string, from: nat)
    requires from <= |s|
    ensures (forall k :: from <= k <= |s| ==> Scan(CLEAN, s[from..k]) == Scan(CLEAN, s[..k]))
       <==> Scan(CLEAN, s[..from]) == CLEAN
  {
    if Scan(CLEAN, s[..from]) == CLEAN {
      forall k | from <= k <= |s| ensures Scan(CLEAN, s[from..k]) == Scan(CLEAN, s[..k]) {
        assert s[..k] == s[..from] + s[from..k];
        ScanAppend(CLEAN, s[..from], s[from..k]);
      }
    } else {
      assert s[from..from] == "";
    }
  }

  // At k the statement's own lexer sees a parenthesis that ends a group opened after `from`.
  predicate RowEnd(s: string, from: nat, k: nat)
    requires from <= |s|
  {
    && from <= k < |s| && s[k] == ')'
    && Scan(CLEAN, s[..k]) == CLEAN
    && Depth(Scan(CLEAN, s[..from]), s[from..k + 1]) == 0
  }

  ghost predicate ExactlyOneRow(s: string, from: nat)
    requires from <= |s|
  {
    exists k: nat ::
      RowEnd(s, from, k) && (forall j: nat :: RowEnd(s, from, j) ==> j == k) && TrimSpace(s[k + 1..]) == ";"
  }

  lemma SpacesAndSemicolon(s: string)
    requires TrimSpace(s) == ";"
    ensures forall k :: 0 <= k < |s| ==> s[k] == ';' || IsSpace(s[k])
  {
    TrimLeftRest(s);
    TrimRightRest(TrimLeft(s));
  }

  lemma {:induction false} TrimLeftRest(s: string)
    ensures |TrimLeft(s)| <= |s| && TrimLeft(s) == s[|s| - |TrimLeft(s)|..]
    ensures forall k :: 0 <= k < |s| - |TrimLeft(s)| ==> IsSpace(s[k])
  {
    if s == "" || !IsSpace(s[0]) {
      assert TrimLeft(s) == s;
    } else {
      var rest := s[1..];
      TrimLeftRest(rest);
      assert TrimLeft(s) == TrimLeft(rest);
      forall k | 0 <= k < |s| - |TrimLeft(s)| ensures IsSpace(s[k]) {
        if k > 0 { assert s[k] == rest[k - 1]; }
      }
    }
  }

  lemma {:induction false} TrimRightRest(s: string)
    ensures |TrimRight(s)| <= |s| && TrimRight(s) == s[..|TrimRight(s)|]
    ensures forall k :: |TrimRight(s)| <= k < |s| ==> IsSpace(s[k])
  {
    if s == "" || !IsSpace(s[|s| - 1]) {
      assert TrimRight(s) == s;
    } else {
      var rest := s[..|s| - 1];
      TrimRightRest(rest);
      assert TrimRight(s) == TrimRight(rest);
      forall k | |TrimRight(s)| <= k < |s| ensures IsSpace(s[k]) {
        if k < |s| - 1 { assert s[k] == rest[k]; }
      }
    }
  }

  lemma NoneAfter(s: string, rest: nat)
    requires rest <= |s| && (forall m :: 0 <= m < |s[rest..]| ==> s[rest..][m] == ';' || IsSpace(s[rest..][m]))
    ensures forall j :: rest <= j < |s| ==> s[j] != ')'
  {
    forall j | rest <= j < |s| ensures s[j] != ')' {
      assert s[j] == s[rest..][j - rest];
    }
  }

  // From a clean start the tuple test's closing parentheses are the statement's own.
  lemma RowEndsAgree(s: string, from: nat, j: nat)
    requires from <= j < |s| && Scan(CLEAN, s[..from]) == CLEAN
    ensures RowEnd(s, from, j) <==> Closes(s[from..], j - from) && Depth(CLEAN, s[from..][..j - from + 1]) == 0
  {
    hide Scan, Depth;
    TupleLexerAgrees(s, from);
    assert s[from..j] == s[from..][..j - from];
    assert s[from..j + 1] == s[from..][..j - from + 1];
  }

  // An accepted INSERT whose first " VALUES (" stands outside quotes carries exactly one row.
  lemma AcceptedInsertIsOneRow(s: string, from: nat)
    requires from <= |s| && Scan(CLEAN, s[..from]) == CLEAN
    requires SingleTuple(s[from..])
    ensures ExactlyOneRow(s, from)
  {
    hide Scan, Depth, RowEnd, TrimSpace, IsSpace;
    var tail := s[from..];
    var k: nat :| FirstClose(tail, k) && Depth(CLEAN, tail[..k + 1]) == 0 && TrimSpace(tail[k + 1..]) == ";";
    ClosesWithin(tail, k);
    assert s[from + k + 1..] == tail[k + 1..];
    RowEndsAgree(s, from, from + k);
    SpacesAndSemicolon(tail[k + 1..]);
    NoneAfter(s, from + k + 1);
    forall j: nat | RowEnd(s, from, j) ensures j == from + k {
      RowEndWithin(s, from, j);
      RowEndsAgree(s, from, j);
    }
  }

  lemma ClosesWithin(s: string, k: nat)
    requires Closes(s, k)
    ensures k < |s|
  {}

  lemma RowEndWithin(s: string, from: nat, k: nat)
    requires from <= |s| && RowEnd(s, from, k)
    ensures from <= k < |s| && s[k] == ')'
  {}

  // ---- The condition cannot be dropped --------------------------------------------------

  // Started inside quotes, the tuple test takes the quote `a` for the start of a string, and
  // then accepts whatever bytes follow, up to its end and a string with an escaped quote.
  function Blind(a: char, mid: string): string {
    "(" + [a] + mid + [a, '\\', a, a] + ");"
  }

  lemma ScanInside(q: char, s: string)
    requires q != NONE && q !in s && '\\' !in s
    ensures Scan(Lex(q, false), s) == Lex(q, false) && Depth(Lex(q, false), s) == 0
  {
    if s != "" { ScanInside(q, s[1..]); }
  }

  // Up to its closing quote, the string that is none hides everything.
  lemma BlindInside(a: char, mid: string, n: nat)
    requires IsQuote(a) && a !in mid && '\\' !in mid && n <= |mid|
    ensures Scan(CLEAN, "(" + [a] + mid[..n]) == Lex(a, false) && Depth(CLEAN, "(" + [a] + mid[..n]) == 1
  {
    ScanInside(a, mid[..n]);
    ScanAppend(CLEAN, "(" + [a], mid[..n]);
    DepthAppend(CLEAN, "(" + [a], mid[..n]);
    Opening(a);
  }

  lemma Opening(a: char)
    requires IsQuote(a)
    ensures Scan(CLEAN, "(" + [a]) == Lex(a, false) && Depth(CLEAN, "(" + [a]) == 1
  {
    assert "(" == "" + "(";
    ScanSnoc(CLEAN, "", '(');
    ScanSnoc(CLEAN, "(", a);
    DepthSnoc(CLEAN, "", '(');
    DepthSnoc(CLEAN, "(", a);
  }

  // The closing quote, a lone backslash, and an empty string.
  lemma Closing(s: string, a: char)
    requires IsQuote(a) && Scan(CLEAN, s) == Lex(a, false) && Depth(CLEAN, s) == 1
    ensures Scan(CLEAN, s + [a, '\\', a, a]) == CLEAN && Depth(CLEAN, s + [a, '\\', a, a] + ")") == 0
  {
    var b := s + [a];
    var c := b + "\\";
    var d := c + [a];
    var e := d + [a];
    assert s + [a, '\\', a, a] == e;
    ScanSnoc(CLEAN, s, a);
    ScanSnoc(CLEAN, b, '\\');
    ScanSnoc(CLEAN, c, a);
    ScanSnoc(CLEAN, d, a);
    DepthSnoc(CLEAN, s, a);
    DepthSnoc(CLEAN, b, '\\');
    DepthSnoc(CLEAN, c, a);
    DepthSnoc(CLEAN, d, a);
    DepthSnoc(CLEAN, e, ')');
  }

  lemma BlindPasses(a: char, mid: string)
    requires IsQuote(a) && a !in mid && '\\' !in mid
    ensures SingleTuple(Blind(a, mid))
  {
    var s := Blind(a, mid);
    var k := |mid| + 6;
    assert mid[..|mid|] == mid;
    BlindInside(a, mid, |mid|);
    Closing("(" + [a] + mid, a);
    assert s[..k] == "(" + [a] + mid + [a, '\\', a, a] && s[..k + 1] == "(" + [a] + mid + [a, '\\', a, a] + ")";
    assert s[k] == ')' && s[k + 1..] == ";" && TrimSpace(";") == ";";
    forall j: nat | j < k ensures !Closes(s, j) {
      if 2 <= j < 2 + |mid| {
        BlindInside(a, mid, j - 2);
        assert s[..j] == "(" + [a] + mid[..j - 2];
      }
    }
    assert FirstClose(s, k);
  }

  // The statement's own lexer, inside the quote q, sees that tail quite differently: q ends,
  // and the one live parenthesis has no partner.
  lemma BlindFrom(l: Lex, a: char)
    requires l.Reachable() && l != CLEAN && IsQuote(a) && a != l.quote
    ensures var t := Blind(a, [l.quote]);
            |t| == 9 && Scan(l, t[..8]) == CLEAN && Depth(l, t[..8]) == -1
  {
    var q := l.quote;
    var t := Blind(a, [q]);
    var m := Lex(q, false);
    assert t[..8] == [t[0]] + [t[1]] + [t[2]] + t[3..8];
    assert t[3..8] == [a, '\\', a, a, ')'];
    assert Step(l, '(') == m && Step(m, a) == m && Step(m, q) == CLEAN;
    Peel(l, t[..8]);
    Peel(m, t[1..8]);
    Peel(m, t[2..8]);
    assert t[..8][1..] == t[1..8] && t[1..8][1..] == t[2..8] && t[2..8][1..] == t[3..8];
    Pair(a);
  }

  lemma Peel(l: Lex, s: string)
    requires s != ""
    ensures Scan(l, s) == Scan(Step(l, s[0]), s[1..]) && Depth(l, s) == Weight(l, s[0]) + Depth(Step(l, s[0]), s[1..])
  {}

  lemma Pair(a: char)
    requires IsQuote(a)
    ensures Scan(CLEAN, [a, '\\', a, a, ')']) == CLEAN && Depth(CLEAN, [a, '\\', a, a, ')']) == -1
  {
    var s := [a, '\\', a, a, ')'];
    assert s[1..] == ['\\', a, a, ')'] && s[2..] == [a, a, ')'] && s[3..] == [a, ')'] && s[4..] == [')'];
    Peel(CLEAN, s);
    Peel(Lex(a, false), s[1..]);
    Peel(Lex(a, true), s[2..]);
    Peel(Lex(a, false), s[3..]);
    Peel(CLEAN, s[4..]);
  }

  // Where the statement's lexer is inside quotes, a whole statement passes the test that
  // has no row at all.
  lemma QuotedSite(head: string) returns (tail: string)
    requires Open(head) && Scan(CLEAN, head) != CLEAN
    ensures tail != "" && tail[0] == '(' && SingleTuple(tail) && Delimited(head + tail)
    ensures !ExactlyOneRow(head + tail, |head|)
  {
    hide Scan, Depth;
    var l := Scan(CLEAN, head);
    var a := if l.quote == '\'' then '"' else '\'';
    tail := Blind(a, [l.quote]);
    BlindPasses(a, [l.quote]);
    BlindFrom(l, a);
    var s, n := head + tail, |head|;
    assert s[..n] == head && s[n..] == tail;
    assert s[..n + 8] == head + tail[..8] && s[n..n + 8] == tail[..8];
    ScanAppend(CLEAN, head, tail[..8]);
    forall k | 0 <= k < |s| - 1 ensures !Terminates(s, k) {
      if k < n { TerminatesPrefix(head, tail, k); }
    }
    assert forall k: nat :: RowEnd(s, n, k) ==> k == n + 7;
    assert !RowEnd(s, n, n + 7);
  }

  // The test finds one row, and no more, in every whole statement it accepts exactly when
  // the place where it starts, after the first " VALUES ", is outside quotes.
  lemma OneRowIff(head: string)
    requires Open(head)
    ensures (forall tail :: SingleTuple(tail) && Delimited(head + tail) ==> ExactlyOneRow(head + tail, |head|))
       <==> Scan(CLEAN, head) == CLEAN
  {
    hide Scan, Depth, SingleTuple, ExactlyOneRow, Delimited;
    if Scan(CLEAN, head) == CLEAN {
      forall tail | SingleTuple(tail) && Delimited(head + tail) ensures ExactlyOneRow(head + tail, |head|) {
        assert (head + tail)[..|head|] == head && (head + tail)[|head|..] == tail;
        AcceptedInsertIsOneRow(head + tail, |head|);
      }
    } else {
      var tail := QuotedSite(head);
    }
  }

  // One such statement: the column is called " VALUES ('", and two rows pass as one.
  const HEAD := "INSERT INTO `t` (`"
  const MID := "`) VALUES (1),("

  lemma TwoRowsPass(p: Plan, cat: Catalog)
    requires "t" in cat.tables && cat.rows < p.maxRows
    ensures var s := HEAD + " VALUES " + Blind('\'', MID);
            && InsertedTable(s) == "t"
            && Index(s, VALUES) == |HEAD|
            && SingleTuple(s[|HEAD| + 8..])
            && GroupEnd(s, 40) && s[41] == ',' && GroupEnd(s, 47) && s[48..] == ";"
            && Delimited(s) && Accept(p, cat, s).Some?
  {
    BothGroups();
    var s := HEAD + " VALUES " + Blind('\'', MID);
    assert s[|HEAD| + 8..] == Blind('\'', MID);
    BlindPasses('\'', MID);
    SiteFound(s, Blind('\'', MID));
    NameFound(s);
    OneStatement(s);
    assert CreatedTable(s) == "" && !("/*!" <= s) by { assert s[0] == 'I'; }
  }

  lemma OneStatement(s: string)
    requires s == HEAD + " VALUES " + Blind('\'', MID) && GroupEnd(s, 47)
    ensures Delimited(s) && TrimSpace(s) == s
  {
    hide Scan;
    assert s[..48] == s[..47] + ")";
    ScanSnoc(CLEAN, s[..47], ')');
    assert ';' !in HEAD + " VALUES " + "('" + MID + "'\\'')";
    assert s == HEAD + " VALUES " + "('" + MID + "'\\'')" + ";";
    assert |s| == 49 && s[48] == ';' && s[0] == 'I';
    forall k: nat | k < 48 ensures !Terminates(s, k) {
      assert s[k] == (HEAD + " VALUES " + "('" + MID + "'\\'')")[k];
    }
    assert TrimLeft(s) == s;
  }

  // At k the statement's own lexer sees the end of a group at the outermost level.
  predicate GroupEnd(s: string, k: nat) {
    k < |s| && s[k] == ')' && Scan(CLEAN, s[..k]) == CLEAN && Depth(CLEAN, s[..k]) == 1
  }

  lemma BothGroups()
    ensures var s := HEAD + " VALUES " + Blind('\'', MID);
            GroupEnd(s, 40) && s[41] == ',' && GroupEnd(s, 47) && s[48..] == ";"
  {
    hide Scan, Depth;
    var s := HEAD + " VALUES " + Blind('\'', MID);
    var name := " VALUES ('";
    var one := "`) VALUES (1";
    var two := "),('\\''";
    assert s == HEAD + name + one + two + ");";
    assert s[..40] == HEAD + name + one && s[..47] == HEAD + name + one + two;
    HeadScan();
    ScanInside('`', name);
    FirstGroup();
    SecondGroup();
    Then(CLEAN, HEAD, name);
    Then(CLEAN, HEAD + name, one);
    Then(CLEAN, HEAD + name + one, two);
  }

  lemma Then(l: Lex, a: string, b: string)
    ensures Scan(l, a + b) == Scan(Scan(l, a), b) && Depth(l, a + b) == Depth(l, a) + Depth(Scan(l, a), b)
  {
    ScanAppend(l, a, b);
    DepthAppend(l, a, b);
  }

  lemma HeadScan()
    ensures Scan(CLEAN, HEAD) == Lex('`', false) && Depth(CLEAN, HEAD) == 1
  {
    hide Scan, Depth;
    assert HEAD == "INSERT INTO " + "`t`" + " (`";
    Flat("INSERT INTO ");
    ShortPieces();
    Then(CLEAN, "INSERT INTO ", "`t`");
    Then(CLEAN, "INSERT INTO " + "`t`", " (`");
  }

  lemma ShortPieces()
    ensures Scan(CLEAN, "`t`") == CLEAN && Depth(CLEAN, "`t`") == 0
    ensures Scan(CLEAN, " (`") == Lex('`', false) && Depth(CLEAN, " (`") == 1
    ensures Scan(Lex('`', false), "`)") == CLEAN && Depth(Lex('`', false), "`)") == -1
    ensures Scan(CLEAN, "(1") == CLEAN && Depth(CLEAN, "(1") == 1
  {}

  lemma FirstGroup()
    ensures Scan(Lex('`', false), "`) VALUES (1") == CLEAN && Depth(Lex('`', false), "`) VALUES (1") == 0
  {
    hide Scan, Depth;
    assert "`) VALUES (1" == "`)" + " VALUES " + "(1";
    Flat(" VALUES ");
    ShortPieces();
    Then(Lex('`', false), "`)", " VALUES ");
    Then(Lex('`', false), "`)" + " VALUES ", "(1");
  }

  lemma SecondGroup()
    ensures Scan(CLEAN, "),('\\''") == CLEAN && Depth(CLEAN, "),('\\''") == 0
  {
    assert "),('\\''" == "),(" + "'\\''";
    ScanAppend(CLEAN, "),(", "'\\''");
    DepthAppend(CLEAN, "),(", "'\\''");
  }

  lemma Flat(s: string)
    requires forall c :: c in s ==> !IsQuote(c) && c != '(' && c != ')'
    ensures Scan(CLEAN, s) == CLEAN && Depth(CLEAN, s) == 0
  {
    Schema.FlatSegment(s);
  }

  lemma SiteFound(s: string, tail: string)
    requires s == HEAD + " VALUES " + tail && tail != "" && tail[0] == '('
    ensures Index(s, VALUES) == |HEAD|
  {
    assert s[18..27] == " VALUES " + [tail[0]] == VALUES;
    assert OccursAt(s, VALUES, 18);
    forall k: nat | k < 18 ensures !OccursAt(s, VALUES, k) {
      assert s[k] == HEAD[k];
      assert OccursAt(s, VALUES, k) ==> s[k] == VALUES[0] && s[k + 1] == VALUES[1];
      HeadSpaces(k);
      assert k == 17 || s[k + 1] == HEAD[k + 1];
    }
  }

  lemma HeadSpaces(k: nat)
    requires k < 18
    ensures HEAD[k] == ' ' ==> k < 17 && HEAD[k + 1] != 'V'
  {}

  lemma NameFound(s: string)
    requires HEAD <= s
    ensures InsertedTable(s) == "t"
  {
    assert s[..13] == "INSERT INTO `" && s[13] == 't' && s[14] == '`' && s[15] == ' ';
    assert WordEnd(s, 13) == 14;
    assert s[14..16] == "` " && s[13..14] == "t";
  }
}
