/**
  * internal/pvccopy/archive.go: `archiveReader`, the rolling tail that tells a
  * complete tar stream from a truncated one, and the bound on the wire length.
  */
module ArchiveTail {
  import opened Text
  import opened Archive

  const WINDOW: nat := 1024

  function Zeros(n: nat): string {
    seq(n, _ => '\0')
  }

  // The last 1024 bytes of a stream, with zero bytes in front of a short one.
  function Last(stream: string): (s: string)
    ensures |s| == WINDOW
  {
    (Zeros(WINDOW) + stream)[|stream|..]
  }

  // Two zero blocks at a block boundary: the end-of-archive indicator.
  predicate EndsWithZeroBlocks(stream: string) {
    && |stream| >= WINDOW && |stream| % 512 == 0
    && forall k :: |stream| - WINDOW <= k < |stream| ==> stream[k] == '\0'
  }

  lemma LastAppend(stream: string, b: string)
    ensures |b| >= WINDOW ==> Last(stream + b) == b[|b| - WINDOW..]
    ensures |b| < WINDOW ==> Last(stream + b) == Last(stream)[|b|..] + b
  {
    assert Zeros(WINDOW) + (stream + b) == (Zeros(WINDOW) + stream) + b;
  }

  // Go's copy: the source is read as if before the first write.
  method Copy(dst: array<char>, at: nat, src: string)
    requires at + |src| <= dst.Length
    modifies dst
    ensures dst[..] == old(dst[..])[..at] + src + old(dst[..])[at + |src|..]
  {
    for i := 0 to |src|
      invariant forall k :: 0 <= k < dst.Length && !(at <= k < at + i) ==> dst[k] == old(dst[k])
      invariant forall k :: 0 <= k < i ==> dst[at + k] == src[k]
    {
      dst[at + i] := src[i];
    }
  }

  class ArchiveReader {
    const tail: array<char>
    var count: nat
    ghost var stream: string   // every byte read so far

    ghost predicate Valid()
      reads this, tail
    {
      tail.Length == WINDOW && count == |stream| && tail[..] == Last(stream)
    }

    constructor ()
      ensures Valid() && stream == "" && fresh(tail)
    {
      tail := new char[WINDOW](_ => '\0');
      count := 0;
      stream := "";
      new;
      assert tail[..] == Zeros(WINDOW) == Last("");
    }

    // One read from the underlying stream that returned the bytes b.
    method Read(b: string)
      requires Valid()
      modifies this, tail
      ensures Valid() && stream == old(stream) + b
    {
      hide Last;
      var n := |b|;
      LastAppend(stream, b);
      ghost var before := tail[..];
      if n >= WINDOW {
        Copy(tail, 0, b[n - WINDOW..n]);
        Whole(before, b[n - WINDOW..], tail[..]);
      } else if n > 0 {
        Copy(tail, 0, tail[..][n..]);
        ghost var between := tail[..];
        Copy(tail, WINDOW - n, b);
        Rolled(before, between, b, tail[..]);
      } else {
        assert stream + b == stream;
      }
      count := count + n;
      stream := stream + b;
    }

    lemma Whole(before: string, src: string, after: string)
      requires |before| == |src| && after == before[..0] + src + before[|src|..]
      ensures after == src
    {}

    // The two copies shift the window and put the new bytes at its end.
    lemma Rolled(before: string, between: string, b: string, after: string)
      requires |b| < |before| && between == before[..0] + before[|b|..] + before[|before| - |b|..]
      requires after == between[..|before| - |b|] + b + between[|before|..]
      ensures after == before[|b|..] + b
    {
      assert between[..|before| - |b|] == before[|b|..] && between[|before|..] == "";
    }

    // However the stream was cut into reads, the answer depends on its bytes alone.
    method Complete() returns (r: bool)
      requires Valid()
      ensures r == EndsWithZeroBlocks(stream)
    {
      assert count >= WINDOW ==> Last(stream) == stream[count - WINDOW..];
      if count < 1024 || count % 512 != 0 {
        return false;
      }
      for i := 0 to tail.Length
        invariant forall k :: 0 <= k < i ==> tail[k] == '\0'
      {
        assert tail[i] == tail[..][i] == stream[count - WINDOW + i];
        if tail[i] != '\0' {
          return false;
        }
      }
      assert forall k :: count - WINDOW <= k < count ==> stream[k] == tail[..][k - (count - WINDOW)];
      return true;
    }
  }

  // Any sequence of reads leaves the window of the concatenated bytes.
  method ReadEach(r: ArchiveReader, chunks: seq<string>)
    requires r.Valid()
    modifies r, r.tail
    ensures r.Valid() && r.stream == old(r.stream) + Concat(chunks)
  {
    for i := 0 to |chunks|
      invariant r.Valid() && r.stream == old(r.stream) + Concat(chunks[..i])
    {
      assert chunks[..i + 1] == chunks[..i] + [chunks[i]];
      ConcatAppend(chunks[..i], [chunks[i]]);
      assert Concat([chunks[i]]) == chunks[i] + Concat([]);
      r.Read(chunks[i]);
    }
    assert chunks[..|chunks|] == chunks;
  }

  // ---- Length on the wire ----------------------------------------------------------------------

  // One header block and the payload padded to whole blocks.
  function RecordWire(r: Record): nat {
    512 + (|r.data| + 511) / 512 * 512
  }

  function Wire(rs: seq<Record>): nat {
    if rs == [] then WINDOW else Wire(rs[..|rs| - 1]) + RecordWire(rs[|rs| - 1])
  }

  function WireLimit(p: Plan): nat {
    p.maxBytes + p.maxEntries * 2048 + 2048
  }

  lemma WireBound(rs: seq<Record>)
    ensures Wire(rs) <= Bytes(rs) + 1023 * |rs| + WINDOW
  {}

  // The wire limit never turns away an archive whose entries and payload are within the plan.
  lemma WireWithinLimit(p: Plan, rs: seq<Record>)
    requires |rs| <= p.maxEntries && Bytes(rs) <= p.maxBytes
    ensures Wire(rs) < WireLimit(p)
  {
    WireBound(rs);
  }
}
