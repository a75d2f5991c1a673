/**
  * internal/pvccopy/domain.go: storage quantities, access-mode sets, and the test that
  * a target claim is the one this plan created.
  */
module Quantity {
  import opened Options
  import opened Text
  import opened Decimals

  // ---- Quantities --------------------------------------------------------------------------

  // The matched parts of digits[.digits][suffix].
  datatype Parsed = Parsed(whole: string, fraction: string, suffix: string)

  // 0 for anything that is not a suffix.
  function Multiplier(suffix: string): nat {
    if suffix == "" then 1
    else if suffix == "Ki" then 0x400
    else if suffix == "Mi" then 0x10_0000
    else if suffix == "Gi" then 0x4000_0000
    else if suffix == "Ti" then 0x100_0000_0000
    else if suffix == "Pi" then 0x4_0000_0000_0000
    else if suffix == "Ei" then 0x1000_0000_0000_0000
    else if suffix == "k" then 1000
    else if suffix == "M" then 1_000_000
    else if suffix == "G" then 1_000_000_000
    else if suffix == "T" then 1_000_000_000_000
    else if suffix == "P" then 1_000_000_000_000_000
    else if suffix == "E" then 1_000_000_000_000_000_000
    else 0
  }

  // s is `whole`, a point and `fraction` if there is one, and `suffix`.
  predicate Spells(s: string, q: Parsed) {
    && Digits(q.whole) && AllDigits(q.fraction) && Multiplier(q.suffix) > 0
    && s == q.whole + (if q.fraction == "" then "" else "." + q.fraction) + q.suffix
  }

  function Parse(s: string): Option<Parsed> {
    var e := DigitsEnd(s, 0);
    if e == 0 then None
    else if e < |s| && s[e] == '.' then
      var f := DigitsEnd(s, e + 1);
      if f > e + 1 && Multiplier(s[f..]) > 0 then Some(Parsed(s[..e], s[e + 1..f], s[f..])) else None
    else if Multiplier(s[e..]) > 0 then Some(Parsed(s[..e], "", s[e..]))
    else None
  }

  lemma SuffixStart(suffix: string)
    requires Multiplier(suffix) > 0
    ensures suffix == "" || (!IsDigit(suffix[0]) && suffix[0] != '.')
  {}

  // Parsing finds the one way a string can be spelled.
  lemma ParseDecides(s: string, q: Parsed)
    ensures Parse(s) == Some(q) <==> Spells(s, q)
  {
    if Spells(s, q) {
      ParseComplete(s, q);
    }
    if Parse(s) == Some(q) {
      ParseSound(s, q);
    }
  }

  lemma ParseSound(s: string, q: Parsed)
    requires Parse(s) == Some(q)
    ensures Spells(s, q)
  {
    hide Multiplier, DigitsEnd;
    var e := DigitsEnd(s, 0);
    DigitsBetween(s, 0, e);
    assert s[0..e] == s[..e];
    if e < |s| && s[e] == '.' {
      var f := DigitsEnd(s, e + 1);
      DigitsBetween(s, e + 1, f);
      SplitAtPoint(s, e, f);
    } else {
      assert s == s[..e] + "" + s[e..];
    }
  }

  lemma DigitsBetween(s: string, from: nat, to: nat)
    requires from <= to <= |s| && forall k :: from <= k < to ==> IsDigit(s[k])
    ensures AllDigits(s[from..to])
  {
    forall k | 0 <= k < to - from ensures IsDigit(s[from..to][k]) { assert s[from..to][k] == s[from + k]; }
  }

  lemma SplitAtPoint(s: string, e: nat, f: nat)
    requires e < f <= |s| && s[e] == '.'
    ensures s == s[..e] + ("." + s[e + 1..f]) + s[f..]
  {
    assert s[e..f] == "." + s[e + 1..f];
    assert s == s[..e] + s[e..f] + s[f..];
  }

  lemma ParseComplete(s: string, q: Parsed)
    requires Spells(s, q)
    ensures Parse(s) == Some(q)
  {
    SuffixStart(q.suffix);
    if q.fraction == "" { ParseWhole(s, q); } else { ParsePoint(s, q); }
  }

  lemma ParseWhole(s: string, q: Parsed)
    requires Spells(s, q) && q.fraction == ""
    requires q.suffix == "" || (!IsDigit(q.suffix[0]) && q.suffix[0] != '.')
    ensures Parse(s) == Some(q)
  {
    hide Multiplier;
    var n := |q.whole|;
    assert s == q.whole + q.suffix;
    assert s[..n] == q.whole && s[n..] == q.suffix;
    assert n < |s| ==> s[n] == q.suffix[0];
    DigitsPrefix(s, 0, n);
  }

  lemma ParsePoint(s: string, q: Parsed)
    requires Spells(s, q) && q.fraction != ""
    requires q.suffix == "" || (!IsDigit(q.suffix[0]) && q.suffix[0] != '.')
    ensures Parse(s) == Some(q)
  {
    hide Multiplier;
    var n := |q.whole|;
    var f := n + 1 + |q.fraction|;
    assert s == q.whole + ("." + (q.fraction + q.suffix));
    assert s[..n] == q.whole && s[n] == '.' && s[n + 1..f] == q.fraction && s[f..] == q.suffix;
    assert f < |s| ==> s[f] == q.suffix[0];
    DigitsPrefix(s, 0, n);
    DigitsPrefix(s, n + 1, f);
  }

  // A run of digits that nothing continues is found whole.
  lemma DigitsPrefix(s: string, from: nat, to: nat)
    requires from <= to <= |s| && AllDigits(s[from..to]) && (to < |s| ==> !IsDigit(s[to]))
    ensures DigitsEnd(s, from) == to
  {
    assert forall k :: from <= k < to ==> s[k] == s[from..to][k - from];
  }

  function Pow10(k: nat): (r: nat)
    ensures r > 0
  {
    if k == 0 then 1 else 10 * Pow10(k - 1)
  }

  // The quantity as an exact fraction Numerator/Denominator.
  function Numerator(q: Parsed): nat
    requires AllDigits(q.whole) && AllDigits(q.fraction)
  {
    Value(q.whole + q.fraction) * Multiplier(q.suffix)
  }

  function Denominator(q: Parsed): (d: nat)
    ensures d > 0
  {
    Pow10(|q.fraction|)
  }

  // The least integer that is not below num/den.
  predicate IsCeiling(n: int, num: nat, den: nat) {
    (n - 1) * den < num <= n * den
  }

  lemma CeilingUnique(a: int, b: int, num: nat, den: nat)
    requires den > 0 && IsCeiling(a, num, den) && IsCeiling(b, num, den)
    ensures a == b
  {
    if a < b { LessTimes(a, b - 1, den); }
    if b < a { LessTimes(b, a - 1, den); }
  }

  lemma LessTimes(a: int, b: int, d: nat)
    requires a <= b
    ensures a * d <= b * d
  {}

  // The greatest common divisor, by Euclid's algorithm.
  function Gcd(a: nat, b: nat): (g: nat)
    requires a + b > 0
    ensures g > 0
    decreases b
  {
    if b == 0 then a else Gcd(b, a % b)
  }

  lemma {:induction false} GcdDivides(a: nat, b: nat) returns (x: nat, y: nat)
    requires a + b > 0
    ensures a == x * Gcd(a, b) && b == y * Gcd(a, b)
    decreases b
  {
    if b == 0 {
      x, y := 1, 0;
    } else {
      var u, v := GcdDivides(b, a % b);
      var g, k := Gcd(b, a % b), a / b;
      x, y := k * u + v, u;
      DivMod(a, b);
      Distribute(k, u, v, g);
    }
  }

  lemma Distribute(k: nat, u: nat, v: nat, g: nat)
    ensures k * (u * g) + v * g == (k * u + v) * g
  {}

  // big.Rat keeps a fraction in lowest terms ...
  method Reduce(num: nat, den: nat) returns (n: nat, d: nat)
    requires den > 0
    ensures d > 0 && forall q: int :: IsCeiling(q, n, d) <==> IsCeiling(q, num, den)
  {
    hide IsCeiling, Gcd;
    var g := Gcd(num, den);
    ghost var x, y := GcdDivides(num, den);
    Quotient(x, g);
    Quotient(y, g);
    n, d := num / g, den / g;
    assert d > 0 by { PositiveFactor(d, g); }
    forall q: int ensures IsCeiling(q, n, d) <==> IsCeiling(q, num, den) { CeilingOfReduced(q, n, d, g); }
  }

  lemma Quotient(x: nat, g: nat)
    requires g > 0
    ensures x * g / g == x
  {
    DivMod(x * g, g);
    var q := x * g / g;
    if q < x {
      LessTimes(q + 1, x, g);
    } else if q > x {
      LessTimes(x + 1, q, g);
    }
  }

  lemma PositiveFactor(d: nat, g: nat)
    requires d * g > 0
    ensures d > 0
  {}

  // ... which does not change the ceiling.
  lemma CeilingOfReduced(n: int, num: nat, den: nat, k: nat)
    requires k > 0 && den > 0
    ensures IsCeiling(n, num * k, den * k) <==> IsCeiling(n, num, den)
  {
    assert (n - 1) * (den * k) == ((n - 1) * den) * k;
    assert n * (den * k) == (n * den) * k;
    ScaleLess((n - 1) * den, num, k);
    ScaleLess(n * den, num, k);
  }

  lemma ScaleLess(a: int, b: int, k: nat)
    requires k > 0
    ensures a * k < b * k <==> a < b
  {}

  // The integer a quantity string stands for: its exact value, rounded up.
  ghost predicate Denotes(s: string, n: int) {
    exists q :: Spells(s, q) && IsCeiling(n, Numerator(q), Denominator(q))
  }

  // A string stands for at most one integer.
  lemma DenotesOne(s: string, q: Parsed, n: int, m: int)
    requires Spells(s, q) && IsCeiling(n, Numerator(q), Denominator(q)) && Denotes(s, m)
    ensures m == n
  {
    hide Numerator, Denominator, IsCeiling, Parse, Multiplier;
    var q' :| Spells(s, q') && IsCeiling(m, Numerator(q'), Denominator(q'));
    ParseDecides(s, q);
    ParseDecides(s, q');
    CeilingUnique(m, n, Numerator(q), Denominator(q));
  }

  // What the decimal suffixes stand for ...
  lemma DecimalSizes()
    ensures Denotes("1", 1) && Denotes("1k", 1000) && Denotes("1M", 1000000) && Denotes("1G", 1000000000)
    ensures Denotes("1T", 1000000000000) && Denotes("1P", 1000000000000000) && Denotes("1E", 1000000000000000000)
  {
    hide Denotes;
    assert "1" + "" == "1" && "1" + "k" == "1k" && "1" + "M" == "1M" && "1" + "G" == "1G";
    assert "1" + "T" == "1T" && "1" + "P" == "1P" && "1" + "E" == "1E";
    OneOf("", 1);
    OneOf("k", 1000);
    OneOf("M", 1000000);
    OneOf("G", 1000000000);
    OneOf("T", 1000000000000);
    OneOf("P", 1000000000000000);
    OneOf("E", 1000000000000000000);
  }

  // ... what the binary ones do ...
  lemma BinarySizes()
    ensures Denotes("1Ki", 1024) && Denotes("1Mi", 1024 * 1024) && Denotes("1Gi", 1024 * 1024 * 1024)
    ensures Denotes("1Ti", 1024 * 1024 * 1024 * 1024) && Denotes("1Pi", 1024 * 1024 * 1024 * 1024 * 1024)
    ensures Denotes("1Ei", 1024 * 1024 * 1024 * 1024 * 1024 * 1024)
  {
    hide Denotes;
    assert "1" + "Ki" == "1Ki" && "1" + "Mi" == "1Mi" && "1" + "Gi" == "1Gi";
    assert "1" + "Ti" == "1Ti" && "1" + "Pi" == "1Pi" && "1" + "Ei" == "1Ei";
    OneOf("Ki", 1024);
    OneOf("Mi", 1024 * 1024);
    OneOf("Gi", 1024 * 1024 * 1024);
    OneOf("Ti", 1024 * 1024 * 1024 * 1024);
    OneOf("Pi", 1024 * 1024 * 1024 * 1024 * 1024);
    OneOf("Ei", 1024 * 1024 * 1024 * 1024 * 1024 * 1024);
  }

  // ... and that there are no others.
  lemma NoOtherSuffix(s: string, q: Parsed)
    requires Spells(s, q)
    ensures q.suffix in ["", "k", "M", "G", "T", "P", "E", "Ki", "Mi", "Gi", "Ti", "Pi", "Ei"]
  {}

  lemma OneOf(suffix: string, size: nat)
    requires Multiplier(suffix) == size && size > 0
    ensures Denotes("1" + suffix, size)
  {
    hide Multiplier;
    var q := Parsed("1", "", suffix);
    assert "1" + suffix == "1" + "" + suffix;
    assert "1" + "" == "1" && Value("1") == 1 by { ValueSnoc("", '1'); assert "" + ['1'] == "1"; }
    assert Spells("1" + suffix, q);
    assert IsCeiling(size, Numerator(q), Denominator(q));
  }

  // A fraction is exact before it is rounded up.
  lemma HalfSizes()
    ensures Denotes("1.5Gi", 1610612736) && Denotes("0.05Ki", 52)
  {
    var q, z := Parsed("1", "5", "Gi"), Parsed("0", "05", "Ki");
    assert "1.5Gi" == "1" + ("." + "5") + "Gi" && "0.05Ki" == "0" + ("." + "05") + "Ki";
    Digits15();
    assert Spells("1.5Gi", q) && Spells("0.05Ki", z);
    assert Pow10(0) == 1 && Pow10(1) == 10 && Pow10(2) == 100;
    assert Numerator(q) == 15 * 1073741824 && Denominator(q) == 10;
    assert Numerator(z) == 5 * 1024 && Denominator(z) == 100;
    assert IsCeiling(1610612736, 15 * 1073741824, 10) && IsCeiling(52, 5 * 1024, 100);
  }

  lemma Digits15()
    ensures AllDigits("1") && AllDigits("5") && AllDigits("0") && AllDigits("05")
    ensures AllDigits("1" + "5") && Value("1" + "5") == 15 && AllDigits("0" + "05") && Value("0" + "05") == 5
  {
    ValueSnoc("", '1');
    ValueSnoc("1", '5');
    ValueSnoc("", '0');
    ValueSnoc("0", '0');
    ValueSnoc("00", '5');
    assert "" + ['1'] == "1" && "1" + ['5'] == "1" + "5";
    assert "" + ['0'] == "0" && "0" + ['0'] == "00" && "00" + ['5'] == "0" + "05";
    assert "05" == ['0', '5'];
  }

  // QuoRem, and one more if there is a remainder.
  method RoundUp(num: nat, den: nat) returns (q: nat)
    requires den > 0
    ensures IsCeiling(q, num, den)
  {
    var rest;
    q, rest := num / den, num % den;
    DivMod(num, den);
    if rest != 0 {
      q := q + 1;
    }
  }

  lemma DivMod(num: nat, den: nat)
    requires den > 0
    ensures num == (num / den) * den + num % den && 0 <= num % den < den
    ensures (num / den + 1) * den == (num / den) * den + den
    ensures (num / den - 1) * den == (num / den) * den - den
  {}

  // The value a string denotes, if that is from 1 to 2^63-1; a refusal otherwise.
  method QuantityBytes(s: string) returns (r: Option<nat>)
    ensures r.Some? ==> Denotes(s, r.value) && 1 <= r.value < 0x8000_0000_0000_0000
    ensures r.None? ==> forall n :: Denotes(s, n) ==> !(1 <= n < 0x8000_0000_0000_0000)
  {
    hide Numerator, Denominator, IsCeiling, Parse, Spells, Multiplier;
    var m := Parse(s);
    if m.None? {
      forall q ensures !Spells(s, q) { ParseDecides(s, q); }
      return None;
    }
    ParseDecides(s, m.value);
    SpelledDigits(s, m.value);
    var num, den := Reduce(Numerator(m.value), Denominator(m.value));
    var q := RoundUp(num, den);
    assert Denotes(s, q);
    forall n | Denotes(s, n) ensures n == q { DenotesOne(s, m.value, q, n); }
    if q > MAX_INT64 || q <= 0 {
      return None;
    }
    return Some(q);
  }

  lemma SpelledDigits(s: string, q: Parsed)
    requires Spells(s, q)
    ensures AllDigits(q.whole) && AllDigits(q.fraction)
  {}

  // A printed size reads back as itself.
  lemma PrintedSize(n: nat)
    ensures Spells(Decimal(n), Parsed(Decimal(n), "", ""))
    ensures Numerator(Parsed(Decimal(n), "", "")) == n && Denominator(Parsed(Decimal(n), "", "")) == 1
    ensures IsCeiling(n, n, 1)
  {
    assert Decimal(n) + "" + "" == Decimal(n);
    assert Decimal(n) + "" == Decimal(n);
    ValueOfDecimal(n);
  }

  // The size written into a new claim passes the size test when the claim is read back.
  method CreatedSizePasses(requested: nat) returns (r: Option<nat>)
    requires 1 <= requested <= MAX_INT64
    ensures r == Some(requested)
  {
    hide Numerator, Denominator, Parse, Spells, Multiplier, Decimal;
    PrintedSize(requested);
    var q := Parsed(Decimal(requested), "", "");
    assert Denotes(Decimal(requested), requested);
    r := QuantityBytes(Decimal(requested));
    if r.Some? { DenotesOne(Decimal(requested), q, requested, r.value); }
  }

  // ---- Access modes as a set ------------------------------------------------------------------------

  // Not strictly rising, so that repeated names stay.
  ghost predicate Ascending(xs: seq<string>) {
    forall i, j :: 0 <= i < j < |xs| ==> !Less(xs[j], xs[i])
  }

  // slices.Sort on a clone.
  method SortAll(names: seq<string>) returns (xs: seq<string>)
    ensures Ascending(xs) && multiset(xs) == multiset(names)
  {
    xs := [];
    for i := 0 to |names|
      invariant Ascending(xs) && multiset(xs) == multiset(names[..i])
    {
      hide Less, Slot, Ascending;
      var k := Slot(xs, names[i]);
      InsertAscending(xs, k, names[i]);
      InsertCounts(xs, k, names[i]);
      OneMore(names, i);
      xs := xs[..k] + [names[i]] + xs[k..];
    }
    assert names[..|names|] == names;
  }

  lemma OneMore(xs: seq<string>, i: nat)
    requires i < |xs|
    ensures multiset(xs[..i + 1]) == multiset(xs[..i]) + multiset{xs[i]}
  {
    assert xs[..i + 1] == xs[..i] + [xs[i]];
  }

  lemma InsertCounts(ys: seq<string>, k: nat, x: string)
    requires k <= |ys|
    ensures multiset(ys[..k] + [x] + ys[k..]) == multiset(ys) + multiset{x}
  {
    assert ys == ys[..k] + ys[k..];
  }

  lemma InsertAscending(ys: seq<string>, k: nat, x: string)
    requires Ascending(ys) && k == Slot(ys, x)
    ensures Ascending(ys[..k] + [x] + ys[k..])
  {
    var zs := ys[..k] + [x] + ys[k..];
    forall a, b | 0 <= a < b < |zs| ensures !Less(zs[b], zs[a]) {
      if b == k && Less(x, ys[a]) {
        LessTransitive(x, ys[a], x);
        LessIrreflexive(x);
      } else if a == k && Less(ys[b - 1], x) && b - 1 > k {
        LessTotal(ys[k], x);
        if ys[k] != x { LessTransitive(ys[b - 1], x, ys[k]); }
      }
    }
  }

  // Two ascending lists with the same elements, counted, are the same list.
  lemma {:induction false} AscendingUnique(xs: seq<string>, ys: seq<string>)
    requires Ascending(xs) && Ascending(ys) && multiset(xs) == multiset(ys)
    ensures xs == ys
    decreases |xs|
  {
    assert |xs| == |multiset(xs)| && |ys| == |multiset(ys)|;
    if xs != [] {
      SameLeast(xs, ys);
      RestOf(xs);
      RestOf(ys);
      AscendingUnique(xs[1..], ys[1..]);
      assert xs == [xs[0]] + xs[1..] && ys == [ys[0]] + ys[1..];
    }
  }

  lemma SameLeast(xs: seq<string>, ys: seq<string>)
    requires Ascending(xs) && Ascending(ys) && multiset(xs) == multiset(ys) && xs != [] && ys != []
    ensures xs[0] == ys[0]
  {
    assert xs[0] in multiset(ys) && ys[0] in multiset(xs);
    assert xs[0] in ys && ys[0] in xs;
    LessTotal(xs[0], ys[0]);
  }

  lemma RestOf(xs: seq<string>)
    requires xs != []
    ensures multiset(xs[1..]) == multiset(xs) - multiset{xs[0]}
  {
    assert xs == [xs[0]] + xs[1..];
  }

  // Equal as multisets, whatever the order.
  method SameSet(a: seq<string>, b: seq<string>) returns (r: bool)
    ensures r <==> multiset(a) == multiset(b)
  {
    var x := SortAll(a);
    var y := SortAll(b);
    if multiset(a) == multiset(b) { AscendingUnique(x, y); }
    r := x == y;
  }

  // ---- Ownership of a target claim -------------------------------------------------------------------

  datatype CopyPlan = CopyPlan(digest: string, tenant: string, project: string, environment: string, namespace: string)
  datatype Item = Item(id: string, sourceUid: string, targetName: string, storageClass: string,
                       accessModes: seq<string>, requestedBytes: nat)

  // The label and annotation keys; OtherKey is any key the plan does not use.
  datatype Key =
    | PlanKey | CopyTenant | CopyProject | CopyEnvironment | ItemKey | SourceUidKey
    | TenantKey | ProjectKey | EnvironmentKey | Managed | ProjectId | EnvironmentId
    | OtherKey(name: string)

  datatype Claim = Claim(namespace: string, name: string, uid: string, deleting: bool,
                         labels: map<Key, string>, annotations: map<Key, string>,
                         storageClass: string, accessModes: seq<string>, storage: string,
                         volumeMode: string, dataSource: bool)

  // A digest, represented by its argument; it is never empty.
  function LabelIdentity(value: string): string {
    "#" + value
  }

  function TargetLabels(p: CopyPlan): map<Key, string> {
    map[PlanKey := LabelIdentity(p.digest), CopyTenant := LabelIdentity(p.tenant),
        CopyProject := LabelIdentity(p.project), CopyEnvironment := LabelIdentity(p.environment)]
  }

  function TargetAnnotations(p: CopyPlan, item: Item): map<Key, string> {
    map[PlanKey := p.digest, ItemKey := item.id,
        SourceUidKey := item.sourceUid, TenantKey := p.tenant,
        ProjectKey := p.project, EnvironmentKey := p.environment]
  }

  // A Go map read: a missing key has the empty value.
  function Lookup(found: map<Key, string>, k: Key): string {
    if k in found then found[k] else ""
  }

  // Every key of `wanted` has its value in `found`.
  ghost predicate Includes(found: map<Key, string>, wanted: map<Key, string>) {
    forall k :: k in wanted ==> Lookup(found, k) == wanted[k]
  }

  method HasAll(found: map<Key, string>, wanted: map<Key, string>) returns (ok: bool)
    ensures ok <==> Includes(found, wanted)
  {
    var left := wanted.Keys;
    while left != {}
      invariant left <= wanted.Keys
      invariant forall k :: k in wanted && k !in left ==> Lookup(found, k) == wanted[k]
      decreases left
    {
      var k :| k in left;
      if Lookup(found, k) != wanted[k] {
        return false;
      }
      left := left - {k};
    }
    return true;
  }

  // The four labels and six annotations that say whose a claim is.
  predicate Labelled(found: map<Key, string>, p: CopyPlan) {
    && Lookup(found, PlanKey) == LabelIdentity(p.digest)
    && Lookup(found, CopyTenant) == LabelIdentity(p.tenant)
    && Lookup(found, CopyProject) == LabelIdentity(p.project)
    && Lookup(found, CopyEnvironment) == LabelIdentity(p.environment)
  }

  predicate Annotated(found: map<Key, string>, p: CopyPlan, item: Item) {
    && Lookup(found, PlanKey) == p.digest && Lookup(found, ItemKey) == item.id
    && Lookup(found, SourceUidKey) == item.sourceUid && Lookup(found, TenantKey) == p.tenant
    && Lookup(found, ProjectKey) == p.project && Lookup(found, EnvironmentKey) == p.environment
  }

  lemma MarkedIff(c: Claim, p: CopyPlan, item: Item)
    ensures Includes(c.labels, TargetLabels(p)) <==> Labelled(c.labels, p)
    ensures Includes(c.annotations, TargetAnnotations(p, item)) <==> Annotated(c.annotations, p, item)
  {
    hide Lookup, LabelIdentity;
    var a, b := TargetLabels(p), TargetAnnotations(p, item);
    assert PlanKey in a && CopyTenant in a && CopyProject in a && CopyEnvironment in a;
    assert PlanKey in b && ItemKey in b && SourceUidKey in b && TenantKey in b && ProjectKey in b && EnvironmentKey in b;
  }

  ghost predicate Owned(c: Claim, p: CopyPlan, item: Item) {
    && c.uid != "" && c.namespace == p.namespace && c.name == item.targetName && !c.deleting
    && Labelled(c.labels, p) && Annotated(c.annotations, p, item)
    && c.storageClass == item.storageClass && multiset(c.accessModes) == multiset(item.accessModes)
    && Denotes(c.storage, item.requestedBytes) && 1 <= item.requestedBytes < 0x8000_0000_0000_0000
    && c.volumeMode == "Filesystem" && !c.dataSource
  }

  method OwnedTarget(c: Claim, p: CopyPlan, item: Item) returns (ok: bool)
    ensures ok <==> Owned(c, p, item)
  {
    hide Denotes, TargetLabels, TargetAnnotations, Includes, Labelled, Annotated;
    MarkedIff(c, p, item);
    if c.uid == "" || c.namespace != p.namespace || c.name != item.targetName || c.deleting {
      return false;
    }
    ok := HasAll(c.labels, TargetLabels(p));
    if !ok { return; }
    ok := HasAll(c.annotations, TargetAnnotations(p, item));
    if !ok { return; }
    var n := QuantityBytes(c.storage);
    if n.None? {
      return false;
    }
    forall m | Denotes(c.storage, m) ensures m == n.value { DenotesAtMostOne(c.storage, m, n.value); }
    var modes := SameSet(c.accessModes, item.accessModes);
    ok := c.storageClass == item.storageClass && modes && n.value == item.requestedBytes
          && c.volumeMode == "Filesystem" && !c.dataSource;
  }

  lemma DenotesAtMostOne(s: string, m: int, n: int)
    requires Denotes(s, m) && Denotes(s, n)
    ensures m == n
  {
    hide Numerator, Denominator, IsCeiling, Multiplier;
    var q :| Spells(s, q) && IsCeiling(n, Numerator(q), Denominator(q));
    DenotesOne(s, q, n, m);
  }

  // The claim of the manifest, as the API server returns it unmodified.
  function Created(p: CopyPlan, item: Item, uid: string): Claim {
    var labels := TargetLabels(p)[Managed := "true"][ProjectKey := p.project]
                  [EnvironmentKey := p.environment][ProjectId := p.project]
                  [EnvironmentId := p.environment];
    Claim(p.namespace, item.targetName, uid, false, labels, TargetAnnotations(p, item), item.storageClass,
          item.accessModes, Decimal(item.requestedBytes), "Filesystem", false)
  }

  // A claim made by this plan and item is accepted ...
  lemma CreatedIsOwned(p: CopyPlan, item: Item, uid: string)
    requires uid != "" && 1 <= item.requestedBytes <= MAX_INT64
    ensures Owned(Created(p, item, uid), p, item)
  {
    hide Numerator, Denominator, Parse, Spells, Multiplier, Decimal;
    PrintedSize(item.requestedBytes);
  }

  // ... and a claim accepted for one plan and item belongs to no other.
  lemma OwnedByOne(c: Claim, p: CopyPlan, i: Item, q: CopyPlan, j: Item)
    requires Owned(c, p, i) && Owned(c, q, j)
    ensures p == q && i.id == j.id && i.sourceUid == j.sourceUid && i.targetName == j.targetName
    ensures i.requestedBytes == j.requestedBytes
  {
    hide Denotes, Labelled;
    DenotesAtMostOne(c.storage, i.requestedBytes, j.requestedBytes);
  }
}
