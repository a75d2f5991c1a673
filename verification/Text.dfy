/**
  * Byte strings as the copy engines handle them.
  *
  * A Go string or byte slice is a Dafny `string` with one `char` per byte.  No
  * result here depends on a char being below 256, so every theorem stated over
  * all strings holds in particular for byte strings.
  */
module Text {

  // ---- White space ---------------------------------------------------------

  predicate IsSpace(c: char) {
    c == ' ' || '\t' <= c <= '\r'
  }

  function TrimLeft(s: string): string {
    if s != "" && IsSpace(s[0]) then TrimLeft(s[1..]) else s
  }

  function TrimRight(s: string): string {
    if s != "" && IsSpace(s[|s| - 1]) then TrimRight(s[..|s| - 1]) else s
  }

  function TrimSpace(s: string): string {
    TrimRight(TrimLeft(s))
  }

  // The text without the white space around it, and nothing but that is cut off.
  lemma TrimSpaceLaw(s: string) returns (front: string, back: string)
    ensures s == front + TrimSpace(s) + back
    ensures forall c :: c in front || c in back ==> c in [' ', '\t', '\n', '\U{0B}', '\U{0C}', '\r']
    ensures var t := TrimSpace(s); t != "" ==> t[0] !in WHITE && t[|t| - 1] !in WHITE
  {
    front := TrimLeftLaw(s);
    back := TrimRightLaw(TrimLeft(s));
    var t, u := TrimSpace(s), TrimLeft(s);
    assert s == front + (t + back);
    if t != "" { assert u[0] == t[0]; }
  }

  const WHITE := [' ', '\t', '\n', '\U{0B}', '\U{0C}', '\r']

  lemma {:induction false} TrimLeftLaw(s: string) returns (front: string)
    ensures s == front + TrimLeft(s) && forall c :: c in front ==> c in WHITE
    ensures TrimLeft(s) != "" ==> TrimLeft(s)[0] !in WHITE
  {
    if s != "" && IsSpace(s[0]) {
      var rest := TrimLeftLaw(s[1..]);
      front := [s[0]] + rest;
    } else {
      front := "";
    }
  }

  lemma {:induction false} TrimRightLaw(s: string) returns (back: string)
    ensures s == TrimRight(s) + back && forall c :: c in back ==> c in WHITE
    ensures TrimRight(s) != "" ==> TrimRight(s)[|TrimRight(s)| - 1] !in WHITE
  {
    if s != "" && IsSpace(s[|s| - 1]) {
      var rest := TrimRightLaw(s[..|s| - 1]);
      back := rest + [s[|s| - 1]];
    } else {
      back := "";
    }
  }

  // Upper-casing changes the letters a to z, each by the distance of the two cases, and nothing else.
  lemma ToUpperLaw(s: string)
    ensures |ToUpper(s)| == |s|
    ensures forall k :: 0 <= k < |s| ==>
      ToUpper(s)[k] == (if 97 <= s[k] as int <= 122 then (s[k] as int - 32) as char else s[k])
  {}

  // ---- Digits ---------------------------------------------------------------

  predicate IsDigit(c: char) {
    '0' <= c <= '9'
  }

  predicate Digits(s: string) {
    s != "" && forall k :: 0 <= k < |s| ==> IsDigit(s[k])
  }

  // The end of the run of digits that starts at `from`.
  function DigitsEnd(s: string, from: nat): (e: nat)
    requires from <= |s|
    ensures from <= e <= |s|
    ensures forall k :: from <= k < e ==> IsDigit(s[k])
    ensures e < |s| ==> !IsDigit(s[e])
    decreases |s| - from
  {
    if from < |s| && IsDigit(s[from]) then DigitsEnd(s, from + 1) else from
  }

  // ---- Searching -----------------------------------------------------------

  predicate OccursAt(s: string, sub: string, k: nat) {
    k + |sub| <= |s| && s[k..k + |sub|] == sub
  }

  // The first index at or after `from` where `sub` occurs, or -1.
  function IndexFrom(s: string, sub: string, from: nat): (i: int)
    requires from <= |s|
    ensures i == -1 || (from <= i && OccursAt(s, sub, i))
    ensures forall k :: from <= k && (i == -1 || k < i) ==> !OccursAt(s, sub, k)
    decreases |s| - from
  {
    if OccursAt(s, sub, from) then from
    else if from == |s| then -1
    else IndexFrom(s, sub, from + 1)
  }

  function Index(s: string, sub: string): int {
    IndexFrom(s, sub, 0)
  }

  predicate Contains(s: string, sub: string) {
    Index(s, sub) >= 0
  }

  function UpperChar(c: char): char {
    if 'a' <= c <= 'z' then c - 'a' + 'A' else c
  }

  function ToUpper(s: string): string {
    seq(|s|, i requires 0 <= i < |s| => UpperChar(s[i]))
  }

  // ---- Concatenation -------------------------------------------------------

  function Concat(xs: seq<string>): string {
    if xs == [] then "" else xs[0] + Concat(xs[1..])
  }

  lemma ConcatAppend(xs: seq<string>, ys: seq<string>)
    ensures Concat(xs + ys) == Concat(xs) + Concat(ys)
  {
    if xs == [] {
      assert xs + ys == ys;
    } else {
      assert (xs + ys)[1..] == xs[1..] + ys;
    }
  }

  // ---- Byte-wise order (Go's `<` on strings, and `sort.Strings`) -----------

  predicate Less(a: string, b: string) {
    LessFrom(a, b, 0)
  }

  // The comparison from position i on, given that the bytes before i agree.
  predicate LessFrom(a: string, b: string, i: nat)
    decreases |b| - i
  {
    i < |b| && (i >= |a| || a[i] < b[i] || (a[i] == b[i] && LessFrom(a, b, i + 1)))
  }

  // At k the two strings differ for the first time: a ends there, or has the smaller byte.
  predicate PrecedesAt(a: string, b: string, k: nat) {
    k <= |a| && k < |b| && a[..k] == b[..k] && (k == |a| || a[k] < b[k])
  }

  ghost predicate Precedes(a: string, b: string) {
    exists k: nat :: PrecedesAt(a, b, k)
  }

  // The recursive comparison is byte order.
  lemma LessIsByteOrder(a: string, b: string)
    ensures Less(a, b) <==> Precedes(a, b)
  {
    LessFromIs(a, b, 0);
  }

  lemma {:induction false} LessFromIs(a: string, b: string, i: nat)
    requires i <= |a| && i <= |b| && a[..i] == b[..i]
    ensures LessFrom(a, b, i) <==> exists k: nat :: i <= k && PrecedesAt(a, b, k)
    decreases |b| - i
  {
    if i < |a| && i < |b| && a[i] == b[i] {
      assert a[..i + 1] == a[..i] + [a[i]] && b[..i + 1] == b[..i] + [b[i]];
      LessFromIs(a, b, i + 1);
    } else if LessFrom(a, b, i) {
      assert PrecedesAt(a, b, i);
    } else if i < |a| && i < |b| {
      forall k: nat | i < k && k <= |a| && k < |b| ensures a[..k] != b[..k] {
        assert a[..k][i] != b[..k][i];
      }
    }
  }

  lemma SortedPrecedes(xs: seq<string>)
    requires StrictlySorted(xs)
    ensures forall i :: 0 < i < |xs| ==> Precedes(xs[i - 1], xs[i])
  {
    forall i | 0 < i < |xs| ensures Precedes(xs[i - 1], xs[i]) { LessIsByteOrder(xs[i - 1], xs[i]); }
  }

  lemma LessIrreflexive(a: string)
    ensures !Less(a, a)
  {
    NotLessFrom(a, 0);
  }

  lemma NotLessFrom(a: string, i: nat)
    ensures !LessFrom(a, a, i)
    decreases |a| - i
  {
    if i < |a| { NotLessFrom(a, i + 1); }
  }

  lemma LessTransitive(a: string, b: string, c: string)
    requires Less(a, b) && Less(b, c)
    ensures Less(a, c)
  {
    LessFromTransitive(a, b, c, 0);
  }

  lemma LessFromTransitive(a: string, b: string, c: string, i: nat)
    requires LessFrom(a, b, i) && LessFrom(b, c, i)
    ensures LessFrom(a, c, i)
    decreases |b| - i
  {
    if i < |a| && a[i] == b[i] && b[i] == c[i] { LessFromTransitive(a, b, c, i + 1); }
  }

  lemma LessTotal(a: string, b: string)
    ensures a == b || Less(a, b) || Less(b, a)
  {
    LessFromTotal(a, b, 0);
  }

  lemma LessFromTotal(a: string, b: string, i: nat)
    requires i <= |a| && i <= |b| && a[..i] == b[..i]
    ensures a == b || LessFrom(a, b, i) || LessFrom(b, a, i)
    decreases |b| - i
  {
    if i < |a| && i < |b| && a[i] == b[i] {
      assert a[..i + 1] == a[..i] + [a[i]] && b[..i + 1] == b[..i] + [b[i]];
      LessFromTotal(a, b, i + 1);
    } else if i == |a| && i == |b| {
      assert a == a[..i] && b == b[..i];
    }
  }

  // A proper prefix is smaller: this is what puts a directory before its children.
  lemma PrefixLess(a: string, b: string)
    requires a < b
    ensures Less(a, b)
  {
    PrefixLessFrom(a, b, 0);
  }

  lemma PrefixLessFrom(a: string, b: string, i: nat)
    requires a < b && i <= |a|
    ensures LessFrom(a, b, i)
    decreases |a| - i
  {
    if i < |a| { PrefixLessFrom(a, b, i + 1); }
  }

  function Elements(xs: seq<string>): set<string> {
    set x | x in xs
  }

  ghost predicate StrictlySorted(xs: seq<string>) {
    forall i, j :: 0 <= i < j < |xs| ==> Less(xs[i], xs[j])
  }

  ghost predicate Lists(xs: seq<string>, names: set<string>) {
    && StrictlySorted(xs)
    && (forall x :: x in xs <==> x in names)
  }

  lemma StrictlySortedDistinct(xs: seq<string>)
    requires StrictlySorted(xs)
    ensures forall i, j :: 0 <= i < j < |xs| ==> xs[i] != xs[j]
  {
    forall i, j | 0 <= i < j < |xs| ensures xs[i] != xs[j] { LessIrreflexive(xs[i]); }
  }

  lemma ListsLength(xs: seq<string>, names: set<string>)
    requires Lists(xs, names)
    ensures |xs| == |names|
  {
    if xs == [] {
      assert names == {};
    } else {
      var n := |xs| - 1;
      StrictlySortedDistinct(xs);
      assert xs[n] in names;
      forall x ensures x in xs[..n] <==> x in names - {xs[n]} {
        if x in names - {xs[n]} { assert x in xs; }
      }
      ListsLength(xs[..n], names - {xs[n]});
    }
  }

  // Only one strictly sorted list has a given set of elements.
  lemma {:induction false} ListsUnique(xs: seq<string>, ys: seq<string>, names: set<string>)
    requires Lists(xs, names) && Lists(ys, names)
    ensures xs == ys
  {
    ListsLength(xs, names);
    ListsLength(ys, names);
    if xs != [] {
      HeadIsLeast(xs, ys);
      StrictlySortedDistinct(xs);
      StrictlySortedDistinct(ys);
      var rest := names - {xs[0]};
      forall x ensures x in xs[1..] <==> x in rest { if x in rest { assert x in xs; } }
      forall x ensures x in ys[1..] <==> x in rest { if x in rest { assert x in ys; } }
      ListsUnique(xs[1..], ys[1..], rest);
      assert xs == [xs[0]] + xs[1..] && ys == [ys[0]] + ys[1..];
    }
  }

  lemma HeadIsLeast(xs: seq<string>, ys: seq<string>)
    requires xs != [] && ys != [] && StrictlySorted(xs) && StrictlySorted(ys)
    requires forall x :: x in xs <==> x in ys
    ensures xs[0] == ys[0]
  {
    assert xs[0] in ys && ys[0] in xs;
    var i :| 0 <= i < |ys| && ys[i] == xs[0];
    var j :| 0 <= j < |xs| && xs[j] == ys[0];
    if xs[0] != ys[0] {
      LessTransitive(xs[0], ys[0], xs[0]);
      LessIrreflexive(xs[0]);
    }
  }

  // The sorted list of a set of names; the executable sorts below are proved to return it.
  ghost function SortedNames(names: set<string>): (xs: seq<string>)
    ensures Lists(xs, names)
  {
    SortExists(names);
    var xs :| Lists(xs, names);
    xs
  }

  lemma SortExists(names: set<string>)
    ensures exists xs :: Lists(xs, names)
  {
    if names == {} {
      assert Lists([], names);
    } else {
      var x :| x in names;
      SortExists(names - {x});
      var ys :| Lists(ys, names - {x});
      var i := Slot(ys, x);
      InsertLists(ys, i, x, names - {x});
      assert names - {x} + {x} == names;
      assert Lists(ys[..i] + [x] + ys[i..], names);
    }
  }

  // How many names of a sorted list lie below x.
  function Slot(ys: seq<string>, x: string): (i: nat)
    ensures i <= |ys|
    ensures forall k :: 0 <= k < i ==> Less(ys[k], x)
    ensures i < |ys| ==> !Less(ys[i], x)
  {
    if ys == [] || !Less(ys[0], x) then 0 else 1 + Slot(ys[1..], x)
  }

  lemma InsertLists(ys: seq<string>, i: nat, x: string, names: set<string>)
    requires Lists(ys, names) && x !in names
    requires i == Slot(ys, x)
    ensures Lists(ys[..i] + [x] + ys[i..], names + {x})
  {
    var zs := ys[..i] + [x] + ys[i..];
    forall k | i <= k < |ys| ensures Less(x, ys[k]) {
      LessTotal(ys[i], x);
      assert ys[i] in ys;
      if k > i { LessTransitive(x, ys[i], ys[k]); }
    }
    forall a, b | 0 <= a < b < |zs| ensures Less(zs[a], zs[b]) {
      if a < i < b { LessTransitive(ys[a], x, ys[b - 1]); }
    }
    forall y ensures y in zs <==> y in names + {x} {
      if y in names { assert y in ys; assert ys == ys[..i] + ys[i..]; }
    }
  }

  // sort.Strings on a list without repetitions.
  method Sort(names: seq<string>) returns (xs: seq<string>)
    requires forall i, j :: 0 <= i < j < |names| ==> names[i] != names[j]
    ensures xs == SortedNames(Elements(names))
    ensures forall i :: 0 < i < |xs| ==> Precedes(xs[i - 1], xs[i])
  {
    xs := [];
    for i := 0 to |names|
      invariant Lists(xs, Elements(names[..i]))
    {
      assert names[..i + 1] == names[..i] + [names[i]];
      assert Elements(names[..i + 1]) == Elements(names[..i]) + {names[i]};
      var k := Slot(xs, names[i]);
      InsertLists(xs, k, names[i], Elements(names[..i]));
      xs := xs[..k] + [names[i]] + xs[k..];
    }
    assert names[..|names|] == names;
    ListsUnique(xs, SortedNames(Elements(names)), Elements(names));
    SortedPrecedes(xs);
  }
}
