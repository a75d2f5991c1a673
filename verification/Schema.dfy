/**
  * internal/mysqlcopy/schema.go: a schema is compared without the table's
  * running AUTO_INCREMENT counter, and with everything else.
  */
module Schema {
  import opened Text
  import opened SqlLexer

  const OPTION := "AUTO_INCREMENT="

  // At i stands a counter option: outside quotes and parentheses, after a
  // space, with at least one digit, and closed by a space, a semicolon or the end.
  predicate CounterAt(s: string, i: nat) {
    && 0 < i < |s|
    && s[i - 1] == ' '
    && OccursAt(s, OPTION, i)
    && Scan(CLEAN, s[..i]) == CLEAN
    && Depth(CLEAN, s[..i]) == 0
    && var e := DigitsEnd(s, i + |OPTION|);
    && e > i + |OPTION|
    && (e == |s| || s[e] == ' ' || s[e] == ';')
  }

  // The first counter option at or after `from`, or -1.
  function FirstCounter(s: string, from: nat): (i: int)
    requires from <= |s|
    ensures i == -1 || (from <= i && CounterAt(s, i))
    ensures forall k: nat :: from <= k && (i == -1 || k < i) ==> !CounterAt(s, k)
    decreases |s| - from
  {
    if CounterAt(s, from) then from
    else if from == |s| then -1
    else FirstCounter(s, from + 1)
  }

  // s without the bytes from the space before i up to the end of the digits.
  function Erase(s: string, i: nat): string
    requires CounterAt(s, i)
  {
    s[..i - 1] + s[DigitsEnd(s, i + |OPTION|)..]
  }

  function Normalize(s: string): string {
    var i := FirstCounter(s, 0);
    if i == -1 then s else Erase(s, i)
  }

  method ScanDigits(s: string, start: nat) returns (end: nat)
    requires start <= |s|
    ensures end == DigitsEnd(s, start)
  {
    end := start;
    while end < |s| && IsDigit(s[end])
      invariant start <= end <= |s|
      invariant DigitsEnd(s, start) == DigitsEnd(s, end)
    {
      end := end + 1;
    }
  }

  lemma NothingScanned(s: string)
    ensures Scan(CLEAN, s[..0]) == CLEAN && Depth(CLEAN, s[..0]) == 0
  {}

  method NormalizeSchema(s: string) returns (r: string)
    ensures r == Normalize(s)
  {
    var quote := NONE;
    var escape := false;
    var depth := 0;
    var i := 0;
    hide Scan, Depth;
    NothingScanned(s);
    while i < |s|
      invariant 0 <= i <= |s|
      invariant Lex(quote, escape) == Scan(CLEAN, s[..i])
      invariant depth == Depth(CLEAN, s[..i])
      invariant FirstCounter(s, 0) == FirstCounter(s, i)
    {
      var c := s[i];
      assert s[..i + 1] == s[..i] + [c];
      ScanSnoc(CLEAN, s[..i], c);
      DepthSnoc(CLEAN, s[..i], c);
      assert OccursAt(s, OPTION, i) ==> c == 'A' by {
        if OccursAt(s, OPTION, i) { assert c == s[i..i + |OPTION|][0]; }
      }
      if escape {
        escape := false;
      } else if quote != NONE {
        if c == '\\' {
          escape := true;
        } else if c == quote {
          quote := NONE;
        }
      } else if IsQuote(c) {
        quote := c;
      } else if c == '(' {
        depth := depth + 1;
      } else if c == ')' {
        depth := depth - 1;
      } else if depth == 0 && i != 0 && s[i - 1] == ' ' && OccursAt(s, OPTION, i) {
        var start := i + |OPTION|;
        var end := ScanDigits(s, start);
        if !(end == start || (end < |s| && s[end] != ' ' && s[end] != ';')) {
          r := s[..i - 1] + s[end..];
          return;
        }
      }
      i := i + 1;
    }
    r := s;
  }

  // ---- What normalisation erases ---------------------------------------------

  // s is r with one counter option put in at k, outside quotes and parentheses.
  ghost predicate Inserted(s: string, r: string, k: nat, digits: string) {
    && k <= |r|
    && Digits(digits)
    && s == r[..k] + " AUTO_INCREMENT=" + digits + r[k..]
    && Scan(CLEAN, r[..k]) == CLEAN
    && Depth(CLEAN, r[..k]) == 0
  }

  // A clean lexer crosses the option and comes out clean, at the same depth.
  lemma OptionIsPlain(digits: string)
    requires Digits(digits)
    ensures Scan(CLEAN, " " + OPTION + digits) == CLEAN
    ensures Depth(CLEAN, " " + OPTION + digits) == 0
  {
    var seg := " " + OPTION + digits;
    forall c | c in seg ensures !IsQuote(c) && c != '(' && c != ')' {
      var k :| 0 <= k < |seg| && seg[k] == c;
      if k >= 16 { assert c == digits[k - 16]; assert IsDigit(digits[k - 16]); }
    }
    FlatSegment(seg);
  }

  lemma FlatSegment(s: string)
    requires forall c :: c in s ==> !IsQuote(c) && c != '(' && c != ')'
    ensures Scan(CLEAN, s) == CLEAN && Depth(CLEAN, s) == 0
  {
    if s != "" { FlatSegment(s[1..]); }
  }

  // The result is the input, or the input minus exactly one counter option.
  lemma ErasesOnlyCounter(s: string)
    ensures var i := FirstCounter(s, 0);
            if i == -1 then Normalize(s) == s
            else Inserted(s, Normalize(s), i - 1, s[i + |OPTION|..DigitsEnd(s, i + |OPTION|)])
  {
    var i := FirstCounter(s, 0);
    if i != -1 {
      EarlierInserted(s, i);
    }
  }

  lemma Pieces(s: string, i: nat, start: nat, end: nat)
    requires 0 < i <= start <= end <= |s| && s[i - 1] == ' ' && s[i..start] == OPTION
    ensures var r := s[..i - 1] + s[end..];
            s == r[..i - 1] + " " + OPTION + s[start..end] + r[i - 1..]
  {
    var r := s[..i - 1] + s[end..];
    assert r[..i - 1] == s[..i - 1] && r[i - 1..] == s[end..];
    assert s[..i] == s[..i - 1] + " ";
    assert s[..start] == s[..i] + OPTION;
    assert s[..end] == s[..start] + s[start..end];
    assert s == s[..end] + s[end..];
  }

  // The state at the space before a counter is the state at the counter.
  lemma BeforeSpace(s: string, i: nat)
    requires 0 < i <= |s| && s[i - 1] == ' '
    requires Scan(CLEAN, s[..i]) == CLEAN && Depth(CLEAN, s[..i]) == 0
    ensures Scan(CLEAN, s[..i - 1]) == CLEAN && Depth(CLEAN, s[..i - 1]) == 0
  {
    assert s[..i] == s[..i - 1] + [' '];
    assert Scan(CLEAN, s[..i - 1]).Reachable();
    ScanSnoc(CLEAN, s[..i - 1], ' ');
    DepthSnoc(CLEAN, s[..i - 1], ' ');
  }

  // Every byte that survives keeps its lexical state and its depth.
  lemma ErasureKeepsLexing(s: string, r: string, k: nat, digits: string, m: nat)
    requires Inserted(s, r, k, digits)
    requires k <= m <= |r|
    ensures var n := m + |s| - |r|;
            && s[n..] == r[m..]
            && Scan(CLEAN, s[..n]) == Scan(CLEAN, r[..m])
            && Depth(CLEAN, s[..n]) == Depth(CLEAN, r[..m])
  {
    var n := m + |s| - |r|;
    var seg := " " + OPTION + digits;
    assert s == r[..k] + seg + r[k..];
    assert s[..n] == r[..k] + (seg + r[k..m]);
    assert r[..m] == r[..k] + r[k..m];
    OptionIsPlain(digits);
    ScanAppend(CLEAN, r[..k], seg + r[k..m]);
    ScanAppend(CLEAN, seg, r[k..m]);
    ScanAppend(CLEAN, r[..k], r[k..m]);
    DepthAppend(CLEAN, r[..k], seg + r[k..m]);
    DepthAppend(CLEAN, seg, r[k..m]);
    DepthAppend(CLEAN, r[..k], r[k..m]);
  }

  // Some option was put in before position k.
  ghost predicate InsertedBefore(s: string, k: nat) {
    exists r, j: nat, digits :: j < k && Inserted(s, r, j, digits)
  }

  // The converse: the first option that was put in, closed by a space, a semicolon or the end, is
  // what normalisation takes out.
  lemma InsertedIsErased(s: string, r: string, k: nat, digits: string)
    requires Inserted(s, r, k, digits) && k <= |r| && (k == |r| || r[k] == ' ' || r[k] == ';')
    requires !InsertedBefore(s, k)
    ensures Normalize(s) == r
  {
    hide CounterAt, Inserted, Erase;
    var i := k + 1;
    OptionStands(s, r, k, digits);
    forall j: nat | j < i ensures !CounterAt(s, j) {
      if CounterAt(s, j) { EarlierOption(s, j, k); }
    }
    assert FirstCounter(s, 0) == i;
    assert r == r[..k] + r[k..];
  }

  lemma EarlierOption(s: string, i: nat, k: nat)
    requires CounterAt(s, i) && i <= k
    ensures InsertedBefore(s, k)
  {
    EarlierInserted(s, i);
    var e := DigitsEnd(s, i + |OPTION|);
    assert Inserted(s, s[..i - 1] + s[e..], i - 1, s[i + |OPTION|..e]);
  }

  // Where an option was put in and is closed, there is one, and taking it out leaves the rest.
  lemma OptionStands(s: string, r: string, k: nat, digits: string)
    requires Inserted(s, r, k, digits) && (k == |r| || r[k] == ' ' || r[k] == ';')
    ensures CounterAt(s, k + 1) && Erase(s, k + 1) == r[..k] + r[k..]
  {
    hide Scan, Depth;
    var i := k + 1;
    var start := i + |OPTION|;
    var end := start + |digits|;
    OptionPlaces(s, r[..k], digits, r[k..]);
    SpaceIsPlain(r[..k]);
    DigitsEndAt(s, start, end);
  }

  lemma OptionPlaces(s: string, a: string, digits: string, b: string)
    requires s == a + " " + OPTION + digits + b && Digits(digits)
    ensures var i, start := |a| + 1, |a| + 1 + |OPTION|;
            var end := start + |digits|;
            && s[..|a|] == a && s[|a|] == ' ' && s[..i] == a + " " && s[i..start] == OPTION && s[end..] == b
            && (forall j :: start <= j < end ==> IsDigit(s[j])) && (b != "" ==> end < |s| && s[end] == b[0])
  {
    var i, start := |a| + 1, |a| + 1 + |OPTION|;
    var end := start + |digits|;
    assert s == a + (" " + (OPTION + (digits + b)));
    assert forall j :: start <= j < end ==> s[j] == digits[j - start];
  }

  lemma SpaceIsPlain(a: string)
    requires Scan(CLEAN, a) == CLEAN && Depth(CLEAN, a) == 0
    ensures Scan(CLEAN, a + " ") == CLEAN && Depth(CLEAN, a + " ") == 0
  {
    ScanSnoc(CLEAN, a, ' ');
    DepthSnoc(CLEAN, a, ' ');
  }

  lemma {:induction false} DigitsEndAt(s: string, start: nat, end: nat)
    requires start <= end <= |s| && (forall k :: start <= k < end ==> IsDigit(s[k])) && (end < |s| ==> !IsDigit(s[end]))
    ensures DigitsEnd(s, start) == end
    decreases end - start
  {
    if start < end { DigitsEndAt(s, start + 1, end); }
  }

  lemma EarlierInserted(s: string, i: nat)
    requires CounterAt(s, i)
    ensures 0 < i && i + |OPTION| <= |s|
    ensures var e := DigitsEnd(s, i + |OPTION|);
            Inserted(s, s[..i - 1] + s[e..], i - 1, s[i + |OPTION|..e])
  {
    hide Scan, Depth;
    var start := i + |OPTION|;
    var end := DigitsEnd(s, start);
    assert Digits(s[start..end]);
    Pieces(s, i, start, end);
    BeforeSpace(s, i);
  }

  // t is s with the digits s[start..e] replaced by the digits t[start..f].
  ghost predicate SameButDigits(s: string, e: nat, t: string, f: nat, start: nat) {
    && start <= e <= |s| && start < f <= |t|
    && t[..start] == s[..start]
    && t[f..] == s[e..]
    && forall k :: start <= k < f ==> IsDigit(t[k])
  }

  // Schemas that differ only in the digits of the counter normalise to the same bytes.
  lemma CounterValueIrrelevant(s: string, t: string, i: nat, f: nat)
    requires FirstCounter(s, 0) == i
    requires SameButDigits(s, DigitsEnd(s, i + |OPTION|), t, f, i + |OPTION|)
    ensures Normalize(t) == Normalize(s)
    ensures FirstCounter(t, 0) == i && DigitsEnd(t, i + |OPTION|) == f
  {
    var start := i + |OPTION|;
    var e := DigitsEnd(s, start);
    DigitsRun(s, e, t, f, start);
    assert forall k :: 0 <= k < start ==> t[k] == t[..start][k] == s[k];
    assert t[..i] == s[..i] && t[..i - 1] == s[..i - 1];
    assert t[i..start] == s[i..start];
    assert CounterAt(t, i);
    forall j: nat | j < i ensures !CounterAt(t, j) {
      if CounterAt(t, j) { EarlierCounter(t, s, i, j); assert false; }
    }
    assert FirstCounter(t, 0) == i;
  }

  // The replacement digits are the ones the scan finds, and are closed like the old ones.
  lemma DigitsRun(s: string, e: nat, t: string, f: nat, start: nat)
    requires SameButDigits(s, e, t, f, start) && e == DigitsEnd(s, start)
    ensures DigitsEnd(t, start) == f
    ensures |t| - f == |s| - e
    ensures f < |t| ==> t[f] == s[e]
  {
    assert f < |t| ==> t[f] == t[f..][0] == s[e..][0];
  }

  // A counter before position i depends only on the bytes before i.
  lemma EarlierCounter(t: string, s: string, i: nat, j: nat)
    requires j < i <= |s| && i <= |t| && t[..i] == s[..i] && t[i - 1] == ' '
    requires CounterAt(t, j)
    ensures CounterAt(s, j)
  {
    var start := j + |OPTION|;
    var e := DigitsEnd(t, start);
    assert forall k :: 0 <= k < i ==> t[k] == t[..i][k] == s[k];
    assert forall k :: j <= k < start ==> t[k] == OPTION[k - j];
    assert e <= i - 1;
    assert s[j..start] == t[j..start];
    assert s[..j] == t[..j];
    assert DigitsEnd(s, start) == e;
  }
}
