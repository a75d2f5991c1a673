/**
  * internal/pvccopy/archive.go, `hashHeader`, and the Receipt of plan.go: what
  * equality of two receipts says.  A digest is represented by the bytes fed to it.
  */
module Receipts {
  import opened Archive

  datatype Receipt = Receipt(root: Meta, bytes: nat, entries: nat, hash: string)

  const NO_RECEIPT := Receipt(Meta(0, 0, 0), 0, 0, "")

  // ---- Fixed-width big-endian integers ----------------------------------------------------

  function Pow256(k: nat): (r: nat)
    ensures r > 0
  {
    if k == 0 then 1 else 256 * Pow256(k - 1)
  }

  // binary.Write of an unsigned integer in k bytes; higher bytes are cut off.
  function BigEndian(n: nat, k: nat): (s: string)
    ensures |s| == k
  {
    if k == 0 then "" else BigEndian(n / 256, k - 1) + [(n % 256) as char]
  }

  lemma {:induction false} BigEndianInjective(m: nat, n: nat, k: nat)
    requires m < Pow256(k) && n < Pow256(k)
    requires BigEndian(m, k) == BigEndian(n, k)
    ensures m == n
    decreases k
  {
    if k > 0 {
      var a, b := BigEndian(m, k), BigEndian(n, k);
      assert a[..k - 1] == BigEndian(m / 256, k - 1) && b[..k - 1] == BigEndian(n / 256, k - 1);
      assert a[k - 1] == (m % 256) as char && b[k - 1] == (n % 256) as char;
      assert m % 256 == n % 256;
      BigEndianInjective(m / 256, n / 256, k - 1);
    }
  }

  // The number that bytes stand for, the first one the highest.
  function Unsigned(s: string): nat {
    if s == "" then 0 else 256 * Unsigned(s[..|s| - 1]) + s[|s| - 1] as int
  }

  lemma {:induction false} BigEndianReads(n: nat, k: nat)
    requires n < Pow256(k)
    ensures Unsigned(BigEndian(n, k)) == n
  {
    if k > 0 {
      BigEndianReads(n / 256, k - 1);
      assert BigEndian(n, k)[..k - 1] == BigEndian(n / 256, k - 1);
    }
  }

  // A signed 64-bit integer in two's complement.
  function Int64(n: int): (s: string)
    ensures |s| == 8
  {
    BigEndian(n % 0x1_0000_0000_0000_0000, 8)
  }

  predicate IsInt64(n: int) {
    -0x8000_0000_0000_0000 <= n < 0x8000_0000_0000_0000
  }

  lemma Pow256Values()
    ensures Pow256(4) == 0x1_0000_0000
    ensures Pow256(8) == 0x1_0000_0000_0000_0000
  {
    assert Pow256(2) == 65536;
    assert Pow256(4) == 65536 * 65536;
    assert Pow256(6) == 65536 * Pow256(4);
    assert Pow256(8) == 65536 * Pow256(6);
  }

  lemma Int64Injective(m: int, n: int)
    requires IsInt64(m) && IsInt64(n) && Int64(m) == Int64(n)
    ensures m == n
  {
    hide Pow256, BigEndian;
    Pow256Values();
    BigEndianInjective(m % 0x1_0000_0000_0000_0000, n % 0x1_0000_0000_0000_0000, 8);
  }

  // ---- One record ------------------------------------------------------------------------------

  function Flag(r: Record): char {
    if r.dir then '5' else '0'
  }

  function Numbers(r: Record): (s: string)
    ensures |s| == 32
  {
    Int64(|r.data|) + Int64(r.meta.mode) + Int64(r.meta.uid) + Int64(r.meta.gid)
  }

  // hashHeader: length-prefixed name, type flag, size, mode, uid and gid.
  function HashHeader(r: Record): string {
    BigEndian(|r.name|, 4) + r.name + [Flag(r)] + Numbers(r)
  }

  function HashRecord(r: Record): string {
    HashHeader(r) + r.data
  }

  function HashRecords(rs: seq<Record>): string {
    if rs == [] then "" else HashRecord(rs[0]) + HashRecords(rs[1..])
  }

  // A record that fits its encoding.
  predicate Encodable(r: Record) {
    && |r.name| < 0x1_0000_0000
    && IsInt64(|r.data|) && IsInt64(r.meta.mode) && IsInt64(r.meta.uid) && IsInt64(r.meta.gid)
  }

  lemma NumbersInjective(a: Record, b: Record)
    requires Encodable(a) && Encodable(b) && Numbers(a) == Numbers(b)
    ensures |a.data| == |b.data| && a.meta == b.meta
  {
    var x, y := Numbers(a), Numbers(b);
    assert x[..8] == Int64(|a.data|) && y[..8] == Int64(|b.data|);
    assert x[8..16] == Int64(a.meta.mode) && y[8..16] == Int64(b.meta.mode);
    assert x[16..24] == Int64(a.meta.uid) && y[16..24] == Int64(b.meta.uid);
    assert x[24..] == Int64(a.meta.gid) && y[24..] == Int64(b.meta.gid);
    Int64Injective(|a.data|, |b.data|);
    Int64Injective(a.meta.mode, b.meta.mode);
    Int64Injective(a.meta.uid, b.meta.uid);
    Int64Injective(a.meta.gid, b.meta.gid);
  }

  // The fields of a header stand at positions fixed by the length of the name.
  lemma HeaderLayout(r: Record, rest: string)
    ensures var s := HashHeader(r) + rest;
            var n := 4 + |r.name|;
            && |s| == n + 33 + |rest|
            && s[..4] == BigEndian(|r.name|, 4)
            && s[4..n] == r.name
            && s[n] == Flag(r)
            && s[n + 1..n + 33] == Numbers(r)
            && s[n + 33..] == rest
  {
    var s := HashHeader(r) + rest;
    assert s == BigEndian(|r.name|, 4) + (r.name + ([Flag(r)] + (Numbers(r) + rest)));
  }

  // What a reader of the header finds: name length, name, type flag, size, mode, uid and gid.
  lemma HeaderReads(r: Record)
    requires Encodable(r)
    ensures var s, n := HashHeader(r), 4 + |r.name|;
            && |s| == n + 33
            && Unsigned(s[..4]) == |r.name| && s[4..n] == r.name && s[n] == (if r.dir then '5' else '0')
            && Reads(s[n + 1..n + 9], |r.data|) && Reads(s[n + 9..n + 17], r.meta.mode)
            && Reads(s[n + 17..n + 25], r.meta.uid) && Reads(s[n + 25..n + 33], r.meta.gid)
  {
    hide BigEndian, Unsigned;
    var s, n := HashHeader(r), 4 + |r.name|;
    HeaderLayout(r, "");
    assert s + "" == s;
    Pow256Values();
    BigEndianReads(|r.name|, 4);
    var x := s[n + 1..n + 33];
    assert s[n + 1..n + 9] == x[..8] == Int64(|r.data|) && s[n + 9..n + 17] == x[8..16] == Int64(r.meta.mode);
    assert s[n + 17..n + 25] == x[16..24] == Int64(r.meta.uid) && s[n + 25..n + 33] == x[24..] == Int64(r.meta.gid);
    Int64Reads(|r.data|);
    Int64Reads(r.meta.mode);
    Int64Reads(r.meta.uid);
    Int64Reads(r.meta.gid);
  }

  // Eight bytes that stand for a signed integer.
  predicate Reads(s: string, v: int) {
    |s| == 8 && Unsigned(s) == (if v >= 0 then v else v + 0x1_0000_0000_0000_0000)
  }

  lemma Int64Reads(v: int)
    requires IsInt64(v)
    ensures Reads(Int64(v), v)
  {
    hide Pow256, BigEndian, Unsigned;
    Pow256Values();
    BigEndianReads(v % 0x1_0000_0000_0000_0000, 8);
  }

  lemma HeaderPrefix(a: Record, u: string, b: Record, v: string)
    requires Encodable(a) && Encodable(b)
    requires HashHeader(a) + u == HashHeader(b) + v
    ensures a.name == b.name && a.dir == b.dir && a.meta == b.meta && |a.data| == |b.data|
    ensures u == v
  {
    HeaderLayout(a, u);
    HeaderLayout(b, v);
    Pow256Values();
    BigEndianInjective(|a.name|, |b.name|, 4);
    NumbersInjective(a, b);
  }

  // No record is a proper prefix of another: a stream that starts with one starts with no other.
  lemma RecordPrefix(a: Record, x: string, b: Record, y: string)
    requires Encodable(a) && Encodable(b)
    requires HashRecord(a) + x == HashRecord(b) + y
    ensures a == b && x == y
  {
    hide HashHeader, Encodable;
    assert HashRecord(a) + x == HashHeader(a) + (a.data + x);
    assert HashRecord(b) + y == HashHeader(b) + (b.data + y);
    HeaderPrefix(a, a.data + x, b, b.data + y);
    SameHalves(a.data, x, b.data, y);
  }

  lemma SameHalves(a: string, x: string, b: string, y: string)
    requires a + x == b + y && |a| == |b|
    ensures a == b && x == y
  {
    assert a == (a + x)[..|a|] && b == (b + y)[..|b|];
    assert x == (a + x)[|a|..] && y == (b + y)[|b|..];
  }

  // ---- Whole archives ----------------------------------------------------------------------------

  // The hashed bytes of any list of records decode to exactly that list.
  lemma {:induction false} HashDecodes(a: seq<Record>, b: seq<Record>)
    requires forall i :: 0 <= i < |a| ==> Encodable(a[i])
    requires forall i :: 0 <= i < |b| ==> Encodable(b[i])
    requires HashRecords(a) == HashRecords(b)
    ensures a == b
    decreases |a|
  {
    if a != [] && b != [] {
      RecordPrefix(a[0], HashRecords(a[1..]), b[0], HashRecords(b[1..]));
      HashDecodes(a[1..], b[1..]);
      assert a == [a[0]] + a[1..] && b == [b[0]] + b[1..];
    }
  }

  lemma HashAppend(a: seq<Record>, r: Record)
    ensures HashRecords(a + [r]) == HashRecords(a) + HashRecord(r)
  {
    if a == [] {
      assert [r][1..] == [] && a + [r] == [r];
    } else {
      assert (a + [r])[1..] == a[1..] + [r];
    }
  }

  function ReceiptOf(rs: seq<Record>): Receipt
    requires rs != []
  {
    Receipt(rs[0].meta, Bytes(rs), |rs|, HashRecords(rs))
  }

  lemma SizeWithin(rs: seq<Record>, i: nat)
    requires i < |rs|
    ensures |rs[i].data| <= Bytes(rs)
  {
    if i < |rs| - 1 { SizeWithin(rs[..|rs| - 1], i); }
  }

  lemma CanonicalEncodable(p: Plan, rs: seq<Record>)
    requires p.Valid() && Canonical(p, rs)
    ensures forall i :: 0 <= i < |rs| ==> Encodable(rs[i])
  {
    forall i | 0 <= i < |rs| ensures Encodable(rs[i]) {
      SizeWithin(rs, i);
      assert FieldsOk(rs[i]);
      if i > 0 { assert ValidPath(rs[i].name); }
    }
  }

  // Two accepted archives with one receipt are one archive.
  lemma ReceiptDecodes(p: Plan, a: seq<Record>, q: Plan, b: seq<Record>)
    requires p.Valid() && q.Valid() && Canonical(p, a) && Canonical(q, b)
    ensures ReceiptOf(a) == ReceiptOf(b) <==> a == b
  {
    CanonicalEncodable(p, a);
    CanonicalEncodable(q, b);
    if ReceiptOf(a) == ReceiptOf(b) { HashDecodes(a, b); }
  }

  ghost function TreeReceipt(t: Tree): Receipt {
    ReceiptOf(Records(t))
  }

  // Receipts of supported trees are equal exactly when the trees are equal in
  // names, kinds, modes, owners and contents.
  lemma ReceiptIdentifiesTree(p: Plan, s: Tree, q: Plan, t: Tree)
    requires p.Valid() && q.Valid() && Supported(p, s) && Supported(q, t)
    ensures TreeReceipt(s) == TreeReceipt(t) <==> s == t
  {
    ExportIsCanonical(p, s);
    ExportIsCanonical(q, t);
    ReceiptDecodes(p, Records(s), q, Records(t));
    Bijection(p, Records(s), s);
    Bijection(q, Records(t), t);
  }
}
