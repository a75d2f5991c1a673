/**
  * The archives of internal/pvccopy/archive.go, said without its predicates: paths by their
  * elements and characters, order by bytes, ownership and mode by numbers.
  */
module ArchiveRules {
  import opened Text
  import opened Archive
  import opened ArchiveTail
  import opened TarStream

  // ---- Characters --------------------------------------------------------------------------

  // A Unicode scalar value.
  predicate Scalar(c: int) {
    0 <= c <= 0x10FFFF && !(0xD800 <= c <= 0xDFFF)
  }

  // Its UTF-8 bytes, as section 3 of RFC 3629 lays them out.
  function Encode(c: int): (s: string)
    requires Scalar(c)
    ensures 1 <= |s| <= 4
  {
    if c < 0x80 then [c as char]
    else if c < 0x800 then [(0xC0 + c / 64) as char, (0x80 + c % 64) as char]
    else if c < 0x1_0000 then [(0xE0 + c / 4096) as char, (0x80 + c / 64 % 64) as char, (0x80 + c % 64) as char]
    else [(0xF0 + c / 262144) as char, (0x80 + c / 4096 % 64) as char, (0x80 + c / 64 % 64) as char,
          (0x80 + c % 64) as char]
  }

  function EncodeAll(cs: seq<int>): string
    requires forall c :: c in cs ==> Scalar(c)
  {
    if cs == [] then "" else Encode(cs[0]) + EncodeAll(cs[1..])
  }

  ghost predicate IsEncoded(s: string) {
    exists cs: seq<int> :: (forall c :: c in cs ==> Scalar(c)) && s == EncodeAll(cs)
  }

  // The byte ranges of the scan are exactly the encodings of scalar values.
  lemma Utf8Iff(s: string)
    ensures Utf8(s, 0) <==> IsEncoded(s)
  {
    if Utf8(s, 0) {
      var cs := Decoded(s, 0);
      assert s[0..] == s;
    }
    if IsEncoded(s) {
      var cs: seq<int> :| (forall c :: c in cs ==> Scalar(c)) && s == EncodeAll(cs);
      EncodedScans("", cs);
      assert "" + s == s;
    }
  }

  // The first character from position i on.
  lemma FirstChar(s: string, i: nat) returns (c: int)
    requires i < |s| && Utf8(s, i)
    ensures Scalar(c) && i + |Encode(c)| <= |s| && s[i..i + |Encode(c)|] == Encode(c) && Utf8(s, i + |Encode(c)|)
  {
    hide Encode;
    var a := s[i] as int;
    if a < 0x80 {
      c := a;
      OneByte(c);
      assert s[i..i + 1] == [s[i]];
    } else if a < 0xE0 {
      c := TwoBytes(a, s[i + 1] as int);
      assert s[i..i + 2] == [s[i], s[i + 1]];
    } else if a < 0xF0 {
      c := ThreeBytes(a, s[i + 1] as int, s[i + 2] as int);
      assert s[i..i + 3] == [s[i], s[i + 1], s[i + 2]];
    } else {
      c := FourBytes(a, s[i + 1] as int, s[i + 2] as int, s[i + 3] as int);
      assert s[i..i + 4] == [s[i], s[i + 1], s[i + 2], s[i + 3]];
    }
  }

  lemma OneByte(c: int)
    requires 0 <= c < 0x80
    ensures Encode(c) == [c as char]
  {}

  lemma TwoBytes(a: int, b: int) returns (c: int)
    requires 0xC2 <= a <= 0xDF && 0x80 <= b <= 0xBF
    ensures Scalar(c) && 0x80 <= c < 0x800 && Encode(c) == [a as char, b as char]
  {
    c := (a - 0xC0) * 64 + (b - 0x80);
    assert c / 64 == a - 0xC0 && c % 64 == b - 0x80;
  }

  lemma ThreeBytes(a: int, b: int, d: int) returns (c: int)
    requires 0xE0 <= a <= 0xEF && 0x80 <= d <= 0xBF
    requires (if a == 0xE0 then 0xA0 else 0x80) <= b <= (if a == 0xED then 0x9F else 0xBF)
    ensures Scalar(c) && 0x800 <= c < 0x1_0000 && Encode(c) == [a as char, b as char, d as char]
  {
    c := (a - 0xE0) * 4096 + (b - 0x80) * 64 + (d - 0x80);
    assert c / 64 == (a - 0xE0) * 64 + (b - 0x80);
    assert 0xE0 + c / 4096 == a && 0x80 + c / 64 % 64 == b && 0x80 + c % 64 == d;
  }

  lemma FourBytes(a: int, b: int, d: int, e: int) returns (c: int)
    requires 0xF0 <= a <= 0xF4 && 0x80 <= d <= 0xBF && 0x80 <= e <= 0xBF
    requires (if a == 0xF0 then 0x90 else 0x80) <= b <= (if a == 0xF4 then 0x8F else 0xBF)
    ensures Scalar(c) && 0x1_0000 <= c && Encode(c) == [a as char, b as char, d as char, e as char]
  {
    c := (a - 0xF0) * 262144 + (b - 0x80) * 4096 + (d - 0x80) * 64 + (e - 0x80);
    assert c / 64 == (a - 0xF0) * 4096 + (b - 0x80) * 64 + (d - 0x80);
    assert c / 4096 == (a - 0xF0) * 64 + (b - 0x80);
    assert 0xF0 + c / 262144 == a && 0x80 + c / 4096 % 64 == b && 0x80 + c / 64 % 64 == d && 0x80 + c % 64 == e;
  }

  lemma {:induction false} Decoded(s: string, i: nat) returns (cs: seq<int>)
    requires i <= |s| && Utf8(s, i)
    ensures (forall c :: c in cs ==> Scalar(c)) && s[i..] == EncodeAll(cs)
    decreases |s| - i
  {
    if i == |s| {
      cs := [];
    } else {
      var c := FirstChar(s, i);
      var rest := Decoded(s, i + |Encode(c)|);
      cs := [c] + rest;
      assert s[i..] == s[i..i + |Encode(c)|] + s[i + |Encode(c)|..];
      assert cs[1..] == rest;
    }
  }

  lemma {:induction false} EncodedScans(before: string, cs: seq<int>)
    requires forall c :: c in cs ==> Scalar(c)
    ensures Utf8(before + EncodeAll(cs), |before|)
    decreases |cs|
  {
    if cs != [] {
      var head, rest := Encode(cs[0]), EncodeAll(cs[1..]);
      EncodedScans(before + head, cs[1..]);
      assert before + (head + rest) == before + head + rest;
      OneScans(before, cs[0], rest);
    }
  }

  lemma OneScans(before: string, c: int, rest: string)
    requires Scalar(c) && Utf8(before + Encode(c) + rest, |before| + |Encode(c)|)
    ensures Utf8(before + Encode(c) + rest, |before|)
  {
    hide Encode, Scalar;
    var s, i := before + Encode(c) + rest, |before|;
    InRanges(c);
    assert forall k :: 0 <= k < |Encode(c)| ==> s[i + k] == Encode(c)[k];
  }

  // The bytes of one character are in the ranges of the scan.
  predicate Ranges(e: string) {
    match |e|
    case 1 => In(e[0], 0, 0x7F)
    case 2 => In(e[0], 0xC2, 0xDF) && In(e[1], 0x80, 0xBF)
    case 3 =>
      && In(e[0], 0xE0, 0xEF) && In(e[2], 0x80, 0xBF)
      && In(e[1], if e[0] as int == 0xE0 then 0xA0 else 0x80, if e[0] as int == 0xED then 0x9F else 0xBF)
    case 4 =>
      && In(e[0], 0xF0, 0xF4) && In(e[2], 0x80, 0xBF) && In(e[3], 0x80, 0xBF)
      && In(e[1], if e[0] as int == 0xF0 then 0x90 else 0x80, if e[0] as int == 0xF4 then 0x8F else 0xBF)
    case _ => false
  }

  lemma InRanges(c: int)
    requires Scalar(c)
    ensures Ranges(Encode(c))
  {
    if 0x800 <= c < 0x1_0000 { Digits64(c / 64); } else if 0x1_0000 <= c { Digits64(c / 4096); }
  }

  lemma Digits64(n: int)
    ensures n == n / 64 * 64 + n % 64 && 0 <= n % 64 < 64
  {}

  // ---- Paths ---------------------------------------------------------------------------------

  predicate Element(e: string) {
    e != "" && e != "." && e != ".." && '/' !in e
  }

  function Joined(es: seq<string>): string {
    if es == [] then "" else if |es| == 1 then es[0] else es[0] + "/" + Joined(es[1..])
  }

  ghost predicate Spells(es: seq<string>, s: string) {
    es != [] && (forall e :: e in es ==> Element(e)) && s == Joined(es)
  }

  // A path an archive may name.
  ghost predicate Path(s: string) {
    && |s| <= 1024 && IsEncoded(s)
    && (forall c :: c in s ==> c !in ['\\', '\0', '\r', '\n'])
    && exists es :: Spells(es, s) && es[0] != ".envplane-pvccopy"
  }

  ghost predicate AllGood(s: string, from: nat) {
    forall k: nat :: from <= k <= |s| && ElementStart(s, k) ==> GoodElement(s, k)
  }

  lemma PathIff(s: string)
    ensures ValidPath(s) <==> Path(s)
  {
    hide Utf8, IsEncoded;
    Utf8Iff(s);
    if ValidPath(s) {
      assert AllGood(s, 0);
      var es := Split(s, 0);
      assert s[0..] == s;
      FirstElement(es, s);
    }
    if Path(s) {
      var es :| Spells(es, s) && es[0] != ".envplane-pvccopy";
      JoinedGood("", es);
      assert "" + s == s;
      FirstElement(es, s);
      NotRoot(es, s);
    }
  }

  // The state directory is the first element of what lies in it.
  lemma FirstElement(es: seq<string>, s: string)
    requires Spells(es, s)
    ensures es[0] == ".envplane-pvccopy" <==> s == STATE || STATE + "/" <= s
  {
    var e := es[0];
    assert e in es && '/' !in e;
    if |es| > 1 {
      assert s == e + ("/" + Joined(es[1..])) && s[|e|] == '/';
      if STATE + "/" <= s {
        SlashAfter(s, e);
        SlashAfter(s, STATE);
        OneFirstSlash(s, |e|, 17);
      }
    } else if STATE + "/" <= s {
      SlashAfter(s, STATE);
    }
  }

  // The first slash of s stands at i.
  predicate FirstSlash(s: string, i: nat) {
    i < |s| && s[i] == '/' && forall j :: 0 <= j < i ==> s[j] != '/'
  }

  lemma SlashAfter(s: string, e: string)
    requires e + "/" <= s && '/' !in e
    ensures FirstSlash(s, |e|) && s[..|e|] == e
  {
    assert (e + "/")[|e|] == '/';
    forall j | 0 <= j < |e| ensures s[j] != '/' { assert s[j] == e[j]; }
  }

  lemma OneFirstSlash(s: string, i: nat, j: nat)
    requires FirstSlash(s, i) && FirstSlash(s, j)
    ensures i == j
  {}

  lemma NotRoot(es: seq<string>, s: string)
    requires Spells(es, s)
    ensures s != ROOT && s != ""
  {
    assert es[0] in es;
    if |es| > 1 { assert s[|es[0]|] == '/'; }
  }

  lemma {:induction false} Split(s: string, k: nat) returns (es: seq<string>)
    requires k <= |s| && ElementStart(s, k) && AllGood(s, k)
    ensures Spells(es, s[k..])
    decreases |s| - k
  {
    var e := SlashFrom(s, k);
    assert GoodElement(s, k);
    var first := s[k..e];
    assert ElementEnd(s, e);
    GoodIsElement(s, k, e);
    if e == |s| {
      es := [first];
    } else {
      var rest := Split(s, e + 1);
      es := [first] + rest;
      assert es[1..] == rest;
      assert s[k..] == first + "/" + s[e + 1..];
    }
  }

  // The end of the element that starts at k.
  function SlashFrom(s: string, k: nat): (e: nat)
    requires k <= |s|
    ensures k <= e <= |s| && (e < |s| ==> s[e] == '/')
    ensures forall j :: k <= j < e ==> s[j] != '/'
    decreases |s| - k
  {
    if k < |s| && s[k] != '/' then SlashFrom(s, k + 1) else k
  }

  lemma GoodIsElement(s: string, k: nat, e: nat)
    requires k <= e <= |s| && ElementEnd(s, e) && forall j :: k <= j < e ==> s[j] != '/'
    ensures GoodElement(s, k) <==> Element(s[k..e])
  {
    var x := s[k..e];
    assert forall j :: 0 <= j < |x| ==> x[j] == s[k + j];
    assert '/' !in x;
  }

  lemma {:induction false} JoinedGood(before: string, es: seq<string>)
    requires es != [] && forall e :: e in es ==> Element(e)
    requires before == "" || before[|before| - 1] == '/'
    ensures AllGood(before + Joined(es), |before|)
    decreases |es|
  {
    hide Element, AllGood, Joined;
    var s, b, x := before + Joined(es), |before|, es[0];
    assert x in es;
    JoinedStep(es);
    var e, rest := b + |x|, if |es| == 1 then "" else "/" + Joined(es[1..]);
    assert s == before + x + rest;
    Part(before, x, rest);
    if |es| > 1 {
      var next := before + x + "/";
      JoinedGood(next, es[1..]);
      assert s == next + Joined(es[1..]);
    }
    OneElement(s, b, e);
  }

  lemma JoinedStep(es: seq<string>)
    requires es != []
    ensures Joined(es) == es[0] + (if |es| == 1 then "" else "/" + Joined(es[1..]))
  {}

  lemma Part(before: string, x: string, rest: string)
    ensures var s := before + x + rest;
            var e := |before| + |x|;
            s[|before|..e] == x && (rest == "" ==> e == |s|) && (rest != "" ==> e < |s| && s[e] == rest[0])
  {}

  lemma OneElement(s: string, b: nat, e: nat)
    requires b <= e <= |s| && ElementStart(s, b) && ElementEnd(s, e) && Element(s[b..e])
    requires e < |s| ==> AllGood(s, e + 1)
    ensures AllGood(s, b)
  {
    assert forall j :: b <= j < e ==> s[j] == s[b..e][j - b];
    GoodIsElement(s, b, e);
    forall k: nat | b <= k <= |s| && ElementStart(s, k) ensures GoodElement(s, k) {
      assert k == b || k > e;
    }
  }

  // ---- Archives -----------------------------------------------------------------------------------

  // Permissions of nine bits, owners that fit 31.
  predicate Plain(m: Meta) {
    0 <= m.mode <= 511 && 0 <= m.uid <= 2147483647 && 0 <= m.gid <= 2147483647
  }

  function TotalSize(rs: seq<Record>): nat {
    if rs == [] then 0 else |rs[0].data| + TotalSize(rs[1..])
  }

  // A directory that stands before record i holds it, or the root does.
  ghost predicate Housed(rs: seq<Record>, i: nat)
    requires i < |rs|
  {
    || '/' !in rs[i].name
    || exists j: nat, last: string :: j < i && Holds(rs[j], rs[i].name, last)
  }

  predicate Holds(d: Record, name: string, last: string) {
    d.dir && name == d.name + "/" + last && '/' !in last
  }

  // The root first, then paths in byte order, each below a directory named before.
  ghost predicate WellFormed(p: Plan, rs: seq<Record>) {
    && 1 <= |rs| <= p.maxEntries
    && rs[0].name == "." && rs[0].dir
    && (forall i :: 1 <= i < |rs| ==> Path(rs[i].name) && Housed(rs, i))
    && (forall i :: 2 <= i < |rs| ==> Precedes(rs[i - 1].name, rs[i].name))
    && (forall i :: 0 <= i < |rs| ==> Plain(rs[i].meta) && (rs[i].dir ==> rs[i].data == ""))
    && TotalSize(rs) <= p.maxBytes
  }

  lemma CanonicalIff(p: Plan, rs: seq<Record>)
    ensures Canonical(p, rs) <==> WellFormed(p, rs)
  {
    hide ValidPath, Path, Less, Precedes, Parent, Holds;
    SizesAgree(rs);
    forall i | 1 <= i < |rs| ensures ValidPath(rs[i].name) <==> Path(rs[i].name) { PathIff(rs[i].name); }
    if Canonical(p, rs) || WellFormed(p, rs) {
      OrderedIff(rs);
      forall i | 1 <= i < |rs| ensures ParentSeen(rs, i) <==> Housed(rs, i) {
        assert ValidPath(rs[i].name);
        HousedIff(rs, i);
      }
    }
  }

  lemma {:induction false} SizesAgree(rs: seq<Record>)
    ensures Bytes(rs) == TotalSize(rs)
    decreases |rs|
  {
    if rs != [] {
      var n := |rs| - 1;
      if n == 0 {
        assert rs[..0] == [] && rs[1..] == [];
      } else {
        SizesAgree(rs[..n]);
        SizesAgree(rs[1..]);
        SizesAgree(rs[1..n]);
        assert rs[..n][1..] == rs[1..n] && rs[1..][..n - 1] == rs[1..n] && rs[1..][n - 1] == rs[n];
      }
    }
  }

  lemma OrderedIff(rs: seq<Record>)
    ensures Ordered(rs) <==> forall i :: 2 <= i < |rs| ==> Precedes(rs[i - 1].name, rs[i].name)
  {
    hide Less, Precedes;
    forall i | 2 <= i < |rs| ensures Less(rs[i - 1].name, rs[i].name) <==> Precedes(rs[i - 1].name, rs[i].name) {
      LessIsByteOrder(rs[i - 1].name, rs[i].name);
    }
    if forall i :: 2 <= i < |rs| ==> Less(rs[i - 1].name, rs[i].name) {
      forall i, j | 1 <= i < j < |rs| ensures Less(rs[i].name, rs[j].name) { Chain(rs, i, j); }
    }
  }

  lemma {:induction false} Chain(rs: seq<Record>, i: nat, j: nat)
    requires 1 <= i < j < |rs| && forall k :: 2 <= k < |rs| ==> Less(rs[k - 1].name, rs[k].name)
    ensures Less(rs[i].name, rs[j].name)
    decreases j
  {
    hide Less;
    if i < j - 1 {
      Chain(rs, i, j - 1);
      LessTransitive(rs[i].name, rs[j - 1].name, rs[j].name);
    }
  }

  // The path without its last element is the parent.
  lemma ParentIs(name: string, d: string, last: string)
    requires name == d + "/" + last && '/' !in last
    ensures Parent(name) == d
  {
    var i := LastSlash(name);
    assert name[|d|] == '/';
    assert forall k :: |d| < k < |name| ==> name[k] == last[k - |d| - 1];
    assert name[..|d|] == d;
  }

  lemma HousedIff(rs: seq<Record>, i: nat)
    requires 1 <= i < |rs| && rs[0].name == ROOT && ValidPath(rs[i].name)
    ensures ParentSeen(rs, i) <==> Housed(rs, i)
  {
    hide ValidPath;
    var name := rs[i].name;
    var k := LastSlash(name);
    if k < 0 {
      assert '/' !in name;
    } else {
      var d, last := name[..k], name[k + 1..];
      assert name == d + "/" + last && '/' !in last;
      ParentIs(name, d, last);
      NotBelowRoot(name, d);
      assert name[k] in name;
      if ParentSeen(rs, i) {
        var j :| 1 <= j < i && rs[j].name == Parent(rs[i].name) && rs[j].dir;
        assert Holds(rs[j], name, last);
      }
      if Housed(rs, i) {
        var j: nat, l: string :| j < i && Holds(rs[j], name, l);
        ParentIs(name, rs[j].name, l);
      }
    }
  }

  // "./x" is no path: its first element would be ".".
  lemma NotBelowRoot(name: string, d: string)
    requires ValidPath(name) && d + "/" <= name
    ensures d != ROOT
  {
    assert ElementStart(name, 0) && GoodElement(name, 0);
    assert name[|d|] == '/' && (d != "" ==> name[0] == d[0]);
  }

  // ---- Trees ------------------------------------------------------------------------------------------

  // What the archive says of one entry.
  predicate Describes(r: Record, n: string, node: Node) {
    match node
    case Dir(m) => r == Record(n, true, m, "")
    case File(m, data) => r == Record(n, false, m, data)
    case Other => false
  }

  // The archive of a tree: the root, and every entry once, in byte order.
  lemma RecordsAre(t: Tree)
    requires forall n :: n in t.nodes ==> !t.nodes[n].Other?
    ensures var rs := Records(t);
            && |rs| == 1 + |t.nodes| && rs[0] == Record(".", true, t.root, "")
            && (forall i :: 1 <= i < |rs| ==>
                  rs[i].name in t.nodes && Describes(rs[i], rs[i].name, t.nodes[rs[i].name]))
            && (forall i :: 2 <= i < |rs| ==> Precedes(rs[i - 1].name, rs[i].name))
  {
    var names := SortedNames(t.nodes.Keys);
    ListsLength(names, t.nodes.Keys);
    SortedPrecedes(names);
    forall i | 1 <= i < |Records(t)|
      ensures Records(t)[i].name == names[i - 1] && names[i - 1] in t.nodes
      ensures Describes(Records(t)[i], names[i - 1], t.nodes[names[i - 1]])
    {
      assert names[i - 1] in names;
    }
  }

  // ---- Streams ----------------------------------------------------------------------------------------

  // One entry as the tar reader must deliver it: a plain header of a file or directory, and all
  // its payload.
  predicate Entry(h: Raw, r: Record) {
    && h.ustar && h.linkname == "" && h.pax == 0
    && h.typeflag == (if r.dir then '5' else '0')
    && h.name == r.name && h.meta == r.meta && h.payload == r.data && h.size == |r.data|
  }

  ghost predicate Delivers(s: Stream, rs: seq<Record>) {
    && |s.raws| == |rs| && (forall i :: 0 <= i < |rs| ==> Entry(s.raws[i], rs[i]))
    && !s.failed && s.trailing == ""
  }

  // Every byte of the stream, one entry after the other, then what follows the last.
  function Wire(raws: seq<Raw>, rest: string): string {
    if raws == [] then rest else raws[0].lead + raws[0].payload + raws[0].padding + Wire(raws[1..], rest)
  }

  function After(s: Stream): string {
    s.hidden + seq(512 * s.ends, _ => '\0') + s.trailing
  }

  // Whole blocks, the last two of them zero.
  ghost predicate Closed(wire: string) {
    exists body, tail :: ClosedBy(wire, body, tail)
  }

  predicate ClosedBy(wire: string, body: string, tail: string) {
    && wire == body + tail && |body| % 512 == 0
    && |tail| == 1024 && forall c :: c in tail ==> c == '\0'
  }

  // The streams the reader accepts: a well-formed archive, below the wire limit, closed.
  lemma AcceptedIff(p: Plan, s: Stream)
    ensures Accepted(p, s) <==>
      && (exists rs :: WellFormed(p, rs) && Delivers(s, rs))
      && var wire := Wire(s.raws, After(s));
      && |wire| < p.maxBytes + 2048 * (p.maxEntries + 1) && Closed(wire)
  {
    hide Canonical, WellFormed, Sent, Wire, Closed;
    WireIs(s.raws, After(s));
    assert Sent(s) == EntriesBytes(s.raws) + After(s) by { WireSplit(s); }
    ClosedIff(Sent(s));
    if Accepted(p, s) {
      var rs := CleanAll(s.raws);
      CanonicalIff(p, rs);
      CanonicalDirs(p, rs);
      assert Delivers(s, rs);
    }
    if exists rs :: WellFormed(p, rs) && Delivers(s, rs) {
      var rs :| WellFormed(p, rs) && Delivers(s, rs);
      CanonicalIff(p, rs);
      CanonicalDirs(p, rs);
      assert CleanAll(s.raws) == rs;
    }
  }

  lemma {:induction false} WireIs(raws: seq<Raw>, rest: string)
    ensures Wire(raws, rest) == EntriesBytes(raws) + rest
    decreases |raws|
  {
    if raws != [] {
      var n := |raws| - 1;
      var last := EntryBytes(raws[n]) + rest;
      WireSnoc(raws, rest);
      WireIs(raws[..n], last);
      Regroup(EntriesBytes(raws[..n]), EntryBytes(raws[n]), rest);
    }
  }

  lemma Regroup(a: string, b: string, c: string)
    ensures (a + b) + c == a + (b + c)
  {}

  lemma {:induction false} WireSnoc(raws: seq<Raw>, rest: string)
    requires raws != []
    ensures Wire(raws, rest) == Wire(raws[..|raws| - 1], EntryBytes(raws[|raws| - 1]) + rest)
    decreases |raws|
  {
    var n := |raws| - 1;
    if n == 0 {
      assert raws[1..] == [] && raws[..0] == [];
    } else {
      WireSnoc(raws[1..], rest);
      assert raws[1..][..n - 1] == raws[..n][1..];
    }
  }

  lemma WireSplit(s: Stream)
    ensures Sent(s) == EntriesBytes(s.raws) + After(s)
  {
    assert Zeros(BLOCK * s.ends) == seq(512 * s.ends, _ => '\0');
  }

  lemma CanonicalDirs(p: Plan, rs: seq<Record>)
    requires Canonical(p, rs)
    ensures forall i :: 0 <= i < |rs| ==> MetaOk(rs[i].meta) && (rs[i].dir ==> rs[i].data == "")
  {}

  lemma ClosedIff(wire: string)
    ensures EndsWithZeroBlocks(wire) <==> Closed(wire)
  {
    hide EndsWithZeroBlocks, ClosedBy;
    if EndsWithZeroBlocks(wire) { EndsClosed(wire); }
    if Closed(wire) {
      var body, tail :| ClosedBy(wire, body, tail);
      ClosedEnds(wire, body, tail);
    }
  }

  lemma EndsClosed(wire: string)
    requires EndsWithZeroBlocks(wire)
    ensures Closed(wire)
  {
    var n := |wire| - 1024;
    var body, tail := wire[..n], wire[n..];
    assert |wire| == 512 * (|wire| / 512) && |body| == 512 * (|wire| / 512 - 2);
    Multiple(|wire| / 512 - 2);
    assert ClosedBy(wire, body, tail);
  }

  lemma ClosedEnds(wire: string, body: string, tail: string)
    requires ClosedBy(wire, body, tail)
    ensures EndsWithZeroBlocks(wire)
  {
    var blocks := |body| / 512;
    assert |body| == 512 * blocks;
    assert |wire| == BLOCK * (blocks + 2);
    Multiple(blocks + 2);
    forall k | |wire| - 1024 <= k < |wire| ensures wire[k] == '\0' {
      assert wire[k] == tail[k - |body|] && tail[k - |body|] in tail;
    }
  }
}
