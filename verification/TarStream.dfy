/**
  * The tar stream between `export` and `consume` of internal/pvccopy/archive.go: the
  * entries the tar reader delivers, and the bytes they take on the wire.
  */
module TarStream {
  import opened Archive
  import opened ArchiveTail

  const BLOCK: nat := 512

  // One entry as the tar reader returns it.  `lead` are the blocks read up to its payload: its
  // header, after any meta headers; `payload` and `padding` are the bytes that followed.
  datatype Raw = Raw(lead: string, name: string, typeflag: char, size: int, meta: Meta,
                     ustar: bool, linkname: string, pax: nat, payload: string, padding: string)

  // `hidden` are meta headers after the last entry, which the tar reader reads and does not
  // return; `ends` zero blocks follow, where it stops, and then `trailing` bytes.  It takes an
  // end of file in place of either zero block.  `failed`: it reported an error and no end.
  datatype Stream = Stream(raws: seq<Raw>, hidden: string, ends: nat, trailing: string, failed: bool)

  function Clean(h: Raw): Record {
    Record(h.name, h.typeflag == '5', h.meta, h.payload)
  }

  function CleanAll(raws: seq<Raw>): (rs: seq<Record>)
    ensures |rs| == |raws|
    ensures forall i :: 0 <= i < |rs| ==> rs[i] == Clean(raws[i])
  {
    seq(|raws|, i requires 0 <= i < |raws| => Clean(raws[i]))
  }

  // ---- The bytes -----------------------------------------------------------------------------

  function EntryBytes(h: Raw): string {
    h.lead + h.payload + h.padding
  }

  function EntriesBytes(raws: seq<Raw>): string {
    if raws == [] then "" else EntriesBytes(raws[..|raws| - 1]) + EntryBytes(raws[|raws| - 1])
  }

  // Everything up to where the tar reader stops.
  function Scanned(s: Stream): string {
    EntriesBytes(s.raws) + s.hidden + Zeros(BLOCK * s.ends)
  }

  function Sent(s: Stream): string {
    Scanned(s) + s.trailing
  }

  // The number of bytes up to the next block boundary.
  function Gap(n: nat): nat {
    (BLOCK - n % BLOCK) % BLOCK
  }

  // ---- Acceptance -----------------------------------------------------------------------------

  // The header shape `consume` insists on, apart from name order and limits.
  predicate ShapeOk(h: Raw) {
    && h.ustar && h.linkname == "" && h.pax == 0
    && MetaOk(h.meta)
    && (h.typeflag == '0' || h.typeflag == '5')
    && h.size >= 0 && (h.typeflag == '5' ==> h.size == 0)
  }

  // What following a size field means for any reader.
  predicate Framed(h: Raw) {
    h.size >= 0 ==> |h.payload| <= h.size
  }

  // What the tar reader can have made of a wire: it stops after two zero blocks.
  predicate Readable(s: Stream) {
    s.ends <= 2 && forall i :: 0 <= i < |s.raws| ==> Framed(s.raws[i])
  }

  // The streams `consume` accepts: a canonical list of whole entries, nothing after the place
  // where the tar reader stops, a wire below the limit, and 1024 zero bytes at its end.
  ghost predicate Accepted(p: Plan, s: Stream) {
    && (forall i :: 0 <= i < |s.raws| ==> ShapeOk(s.raws[i]) && |s.raws[i].payload| == s.raws[i].size)
    && Canonical(p, CleanAll(s.raws))
    && !s.failed && s.trailing == ""
    && |Sent(s)| < WireLimit(p) && EndsWithZeroBlocks(Sent(s))
  }

  // ---- What the end test decides ---------------------------------------------------------------

  // A header block is never zero: a zero block would be read as the end.
  predicate HeaderBlock(b: string) {
    |b| == BLOCK && b != Zeros(BLOCK)
  }

  // One header block, and the payload padded to whole blocks.
  predicate Blocked(h: Raw) {
    HeaderBlock(h.lead) && |h.padding| == Gap(|h.payload|)
  }

  function Body(h: Raw): string {
    h.payload + h.padding
  }

  predicate ZeroTail(b: string, n: nat) {
    |b| >= n && forall k :: |b| - n <= k < |b| ==> b[k] == '\0'
  }

  lemma WholeBlocks(n: nat) returns (m: nat)
    ensures n + Gap(n) == BLOCK * m
  {
    var q, rest := n / BLOCK, n % BLOCK;
    assert n == BLOCK * q + rest;
    m := if rest == 0 then q else q + 1;
  }

  lemma EntryWhole(h: Raw) returns (m: nat)
    requires Blocked(h)
    ensures |EntryBytes(h)| == BLOCK * m
  {
    hide Gap, Zeros;
    var body := WholeBlocks(|h.payload|);
    m := 1 + body;
  }

  // The number of blocks the entries take.
  lemma {:induction false} EntriesWhole(raws: seq<Raw>) returns (m: nat)
    requires forall i :: 0 <= i < |raws| ==> Blocked(raws[i])
    ensures |EntriesBytes(raws)| == BLOCK * m
  {
    hide Blocked, EntryBytes;
    m := 0;
    if raws != [] {
      var n := |raws| - 1;
      var before := EntriesWhole(raws[..n]);
      var last := EntryWhole(raws[n]);
      m := before + last;
    }
  }

  // Zero bytes at the end are the end blocks and then the end of the last entry's payload;
  // they never reach into its header.
  lemma ZeroTailStops(before: string, block: string, body: string, blocks: nat, n: nat, wanted: nat)
    requires HeaderBlock(block) && |body| == BLOCK * blocks && n == BLOCK * wanted
    ensures ZeroTail(before + block + body, n) <==> ZeroTail(body, n)
  {
    var s := before + block + body;
    var at := |before| + BLOCK;
    assert forall k :: 0 <= k < |body| ==> s[at + k] == body[k];
    if |body| < n {
      assert |body| + BLOCK <= n;
      var k :| 0 <= k < BLOCK && block[k] != '\0';
      assert s[|before| + k] == block[k];
    } else if ZeroTail(s, n) {
      assert forall k :: |body| - n <= k < |body| ==> body[k] == s[at + k];
    }
  }

  lemma ZerosAtEnd(s: string, ends: nat)
    requires ends <= 2
    ensures ZeroTail(s + Zeros(BLOCK * ends), WINDOW) <==> ZeroTail(s, WINDOW - BLOCK * ends)
  {
    var z := BLOCK * ends;
    var t := s + Zeros(z);
    assert forall k :: 0 <= k < |s| ==> t[k] == s[k];
    assert forall k :: |s| <= k < |t| ==> t[k] == '\0';
  }

  // With nothing hidden, a list of entries passes the end test exactly when it has both end
  // blocks, or the last payload ends in as many zero bytes as are missing.
  lemma EndDecides(s: Stream)
    requires s.raws != [] && forall i :: 0 <= i < |s.raws| ==> Blocked(s.raws[i])
    requires s.hidden == "" && s.trailing == "" && s.ends <= 2
    ensures EndsWithZeroBlocks(Sent(s)) <==> ZeroTail(Body(s.raws[|s.raws| - 1]), WINDOW - BLOCK * s.ends)
  {
    hide Gap;
    var n := |s.raws| - 1;
    var before, h := EntriesBytes(s.raws[..n]), s.raws[n];
    var entries := before + h.lead + Body(h);
    assert EntriesBytes(s.raws) == entries;
    assert Sent(s) == entries + Zeros(BLOCK * s.ends);
    var all := EntriesWhole(s.raws);
    var last := WholeBlocks(|h.payload|);
    EndTest(entries, all, s.ends);
    ZeroTailStops(before, h.lead, Body(h), last, WINDOW - BLOCK * s.ends, 2 - s.ends);
  }

  // On whole blocks the end test asks for zero bytes only.
  lemma EndTest(s: string, blocks: nat, ends: nat)
    requires |s| == BLOCK * blocks && ends <= 2
    ensures EndsWithZeroBlocks(s + Zeros(BLOCK * ends)) <==> ZeroTail(s, WINDOW - BLOCK * ends)
  {
    ZerosAtEnd(s, ends);
    assert |s + Zeros(BLOCK * ends)| == BLOCK * (blocks + ends);
    Multiple(blocks + ends);
  }

  lemma Multiple(k: nat)
    ensures BLOCK * k % BLOCK == 0
  {}

  // ---- The stream of a list of records --------------------------------------------------------

  // h is what tar.Writer makes of r.
  predicate Encodes(h: Raw, r: Record) {
    && HeaderBlock(h.lead)
    && h == Raw(h.lead, r.name, if r.dir then '5' else '0', |r.data|, r.meta, true, "", 0, r.data,
                Zeros(Gap(|r.data|)))
  }

  // s is what is left of a written archive when it stops after the records rs: both end
  // blocks if it was closed, and one or none of them if it was cut.
  predicate Renders(rs: seq<Record>, s: Stream) {
    && |s.raws| == |rs| && (forall i :: 0 <= i < |rs| ==> Encodes(s.raws[i], rs[i]))
    && s.hidden == "" && s.ends <= 2 && s.trailing == "" && !s.failed
  }

  lemma RendersClean(rs: seq<Record>, s: Stream)
    requires Renders(rs, s)
    ensures CleanAll(s.raws) == rs
  {}

  lemma {:induction false} WireLength(rs: seq<Record>, raws: seq<Raw>)
    requires |raws| == |rs| && forall i :: 0 <= i < |rs| ==> Encodes(raws[i], rs[i])
    ensures |EntriesBytes(raws)| + WINDOW == Wire(rs)
  {
    if raws != [] {
      var n := |raws| - 1;
      WireLength(rs[..n], raws[..n]);
      PaddedLength(|rs[n].data|);
    }
  }

  lemma PaddedLength(n: nat)
    ensures n + Gap(n) == (n + 511) / 512 * 512
  {
    var q, rest := n / 512, n % 512;
    assert n == 512 * q + rest;
    if rest == 0 {
      assert (n + 511) / 512 == q;
    } else {
      assert n + 511 == 512 * (q + 1) + (rest - 1);
      assert (n + 511) / 512 == q + 1;
    }
  }

  function Padded(data: string): string {
    data + Zeros(Gap(|data|))
  }

  // An archive within the plan, closed or cut at an entry boundary, is accepted exactly when it
  // has both end blocks, or its last payload with its padding ends in as many zeros as are missing.
  lemma RenderedAccepted(p: Plan, rs: seq<Record>, s: Stream)
    requires Canonical(p, rs) && Renders(rs, s)
    ensures Accepted(p, s) <==> ZeroTail(Padded(rs[|rs| - 1].data), WINDOW - BLOCK * s.ends)
  {
    RendersClean(rs, s);
    forall i | 0 <= i < |rs| ensures ShapeOk(s.raws[i]) && |s.raws[i].payload| == s.raws[i].size && Blocked(s.raws[i]) {
      assert FieldsOk(rs[i]);
    }
    WireLength(rs, s.raws);
    WireWithinLimit(p, rs);
    EndDecides(s);
  }

  // Meta headers after the last entry of a closed archive are not seen by any test but the
  // limit on the wire.
  lemma HiddenAccepted(p: Plan, rs: seq<Record>, s: Stream)
    requires Canonical(p, rs) && Renders(rs, s.(hidden := "")) && s.ends == 2 && |s.hidden| % BLOCK == 0
    ensures Accepted(p, s) <==> |Sent(s)| < WireLimit(p)
  {
    hide Gap;
    var plain := s.(hidden := "");
    RendersClean(rs, plain);
    RenderedAccepted(p, rs, plain.(ends := 2));
    forall i | 0 <= i < |rs| ensures Blocked(s.raws[i]) {}
    var all := EntriesWhole(s.raws);
    EndTest(EntriesBytes(s.raws) + s.hidden, all + |s.hidden| / BLOCK, 2);
    assert Sent(s) == EntriesBytes(s.raws) + s.hidden + Zeros(BLOCK * 2);
  }

  // ---- Writers --------------------------------------------------------------------------------

  // tar.Writer, closed after the last record; what it puts into a header block is its own affair.
  method WriteArchive(rs: seq<Record>) returns (s: Stream)
    ensures Renders(rs, s) && s.ends == 2
  {
    var raws: seq<Raw> := [];
    for i := 0 to |rs|
      invariant |raws| == i && forall k :: 0 <= k < i ==> Encodes(raws[k], rs[k])
    {
      var lead: string := *;
      if !HeaderBlock(lead) {
        lead := seq(BLOCK, _ => 'x');
        assert lead[0] == 'x' && Zeros(BLOCK)[0] == '\0';
      }
      var r := rs[i];
      raws := raws + [Raw(lead, r.name, if r.dir then '5' else '0', |r.data|, r.meta, true, "", 0, r.data,
                          Zeros(Gap(|r.data|)))];
    }
    s := Stream(raws, "", 2, "", false);
  }

  // Whatever came through before a writer gave up with an error.
  method AnyStream() returns (s: Stream)
    ensures Readable(s)
  {
    s := *;
    if !Readable(s) {
      s := Stream([], "", 0, "", true);
    }
  }
}
