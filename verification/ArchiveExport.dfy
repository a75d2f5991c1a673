/**
  * internal/pvccopy/archive.go: `export`, the bounded directory walk in whatever
  * order the filesystem lists entries, and the sorted emission of records.
  */
module ArchiveExport {
  import opened Options
  import opened Text
  import opened Archive
  import opened ArchiveIO
  import opened Receipts
  import opened Volumes

  // ---- The walk ----------------------------------------------------------------------------

  // The names collected so far: distinct, existing, supported, each after its parent.
  ghost predicate Visited(nodes: map<string, Node>, names: seq<string>) {
    && (forall i, j :: 0 <= i < j < |names| ==> names[i] != names[j])
    && names != [] && names[0] == ROOT
    && (forall n :: n in names && n != ROOT ==> n in nodes && ValidPath(n) && !nodes[n].Other?)
    && (forall n {:trigger Parent(n)} :: n in names && n != ROOT ==> Parent(n) in names)
  }

  // Every entry of a collected directory is collected, except in the open ones.
  ghost predicate Closed(nodes: map<string, Node>, names: seq<string>, open: set<string>) {
    forall n :: n in nodes && Parent(n) in names && Parent(n) !in open ==> n in names
  }

  // What the walk from `dir` adds lies below `dir`.
  ghost predicate Below(names: seq<string>, names': seq<string>, dir: string) {
    && names <= names'
    && forall n :: n in names' && n !in names ==> Parent(n) == dir || Parent(n) !in names
  }

  // The walk refuses nothing.
  ghost predicate Walkable(vol: Volume, p: Plan, ignoreState: bool)
    reads vol
  {
    && (forall n :: n in vol.nodes ==> ValidPath(n) && !vol.nodes[n].Other?)
    && 1 + |vol.nodes| <= p.maxEntries
    && (ignoreState || vol.state.None?)
  }

  lemma VisitedCount(nodes: map<string, Node>, names: seq<string>)
    requires Visited(nodes, names)
    ensures |names| <= 1 + |nodes|
  {
    var all := {ROOT} + nodes.Keys;
    DistinctWithin(names, all);
    assert |nodes.Keys| == |nodes|;
  }

  lemma DistinctWithin(names: seq<string>, all: set<string>)
    requires forall i, j :: 0 <= i < j < |names| ==> names[i] != names[j]
    requires forall n :: n in names ==> n in all
    ensures |names| <= |all|
  {
    if names != [] {
      var k := |names| - 1;
      assert names[k] in names;
      forall n | n in names[..k] ensures n in all - {names[k]} { assert n in names; }
      DistinctWithin(names[..k], all - {names[k]});
    }
  }

  // The state of one directory's loop: `left` are the entries still to come.
  ghost predicate Walking(vol: Volume, names: seq<string>, dir: string, open: set<string>, left: set<string>)
    reads vol
  {
    && Visited(vol.nodes, names) && dir in names
    && Closed(vol.nodes, names, open + {dir})
    && (forall n :: n in left ==> n !in names)
    && (forall n :: n in left && n != STATE ==> n in vol.nodes && Parent(n) == dir)
    && (STATE in left ==> vol.state.Some?)
    && (forall n :: n in vol.nodes && Parent(n) == dir && n !in left ==> n in names)
  }

  // Taking one more entry keeps the bookkeeping.
  lemma TakeEntry(vol: Volume, names: seq<string>, dir: string, open: set<string>, left: set<string>, c: string)
    requires vol.Valid() && Walking(vol, names, dir, open, left)
    requires c in left && c in vol.nodes && ValidPath(c) && !vol.nodes[c].Other?
    ensures var grown := names + [c];
            && Visited(vol.nodes, grown)
            && Closed(vol.nodes, grown, open + {dir} + {c})
            && (forall n :: n in vol.nodes && Parent(n) == c ==> n !in grown)
  {
    var grown := names + [c];
    assert forall n :: n in grown <==> n in names || n == c;
    forall n | n in vol.nodes && Parent(n) == c ensures n !in grown {
      ParentShorter(n);
      assert n != c;
    }
    forall n | n in grown && n != ROOT
      ensures n in vol.nodes && ValidPath(n) && !vol.nodes[n].Other? && Parent(n) in grown
    {
      if n != c { assert n in names; }
    }
  }

  lemma ParentShorter(n: string)
    ensures Parent(n) == ROOT || |Parent(n)| < |n|
  {}

  // Coming back from a subdirectory, the rest of this directory is untouched.
  lemma ReturnFrom(vol: Volume, names: seq<string>, names': seq<string>, dir: string, open: set<string>,
                   left: set<string>, c: string)
    requires vol.Valid() && Walking(vol, names, dir, open, left)
    requires c in left && c in vol.nodes && c != dir
    requires Visited(vol.nodes, names') && Closed(vol.nodes, names', open + {dir})
    requires Below(names + [c], names', c)
    ensures Walking(vol, names', dir, open, left - {c})
    ensures Below(names, names', dir)
  {
    assert forall n :: n in names + [c] <==> n in names || n == c;
    assert forall n :: n in names + [c] ==> n in names';
    assert forall n :: n in left - {c} ==> n !in names + [c];
    assert names <= names';
  }

  // A file has no entries of its own.
  lemma TakeFile(vol: Volume, names: seq<string>, dir: string, open: set<string>, left: set<string>, c: string)
    requires vol.Valid() && Walking(vol, names, dir, open, left)
    requires c in left && c in vol.nodes && ValidPath(c) && vol.nodes[c].File? && c != dir
    ensures Walking(vol, names + [c], dir, open, left - {c})
    ensures Below(names, names + [c], dir)
  {
    TakeEntry(vol, names, dir, open, left, c);
    ReturnFrom(vol, names, names + [c], dir, open, left, c);
  }

  // One listed entry of `dir`: refuse it, collect it, and go into it if it is a directory.
  method Visit(vol: Volume, p: Plan, ignoreState: bool, dir: string, names: seq<string>, ghost open: set<string>,
               left: set<string>, c: string)
    returns (failure: Option<Error>, names': seq<string>)
    requires vol.Valid() && Walking(vol, names, dir, open, left) && |names| <= p.maxEntries
    requires c in left && !(ignoreState && c == STATE)
    ensures failure.None? ==> Walking(vol, names', dir, open, left - {c}) && Below(names, names', dir)
    ensures failure.None? ==> c != STATE && |names'| <= p.maxEntries
    ensures failure == Some(Unsafe) ==> !Walkable(vol, p, ignoreState)
    ensures failure == Some(Io) ==> vol.faulty
    ensures failure != Some(Partial)
    decreases 1 + |vol.nodes| - |names|, 0
  {
    if !ValidPath(c) || vol.nodes[c].Other? {
      return Some(Unsafe), names;
    }
    TakeEntry(vol, names, dir, open, left, c);
    VisitedCount(vol.nodes, names + [c]);
    if |names| >= p.maxEntries {
      return Some(Unsafe), names;
    }
    if vol.nodes[c].Dir? {
      failure, names' := Walk(vol, p, ignoreState, c, names + [c], open + {dir});
      if failure.None? { ReturnFrom(vol, names, names', dir, open, left, c); }
    } else {
      TakeFile(vol, names, dir, open, left, c);
      failure, names' := None, names + [c];
    }
  }

  // Collect everything below `dir`, in the order the filesystem happens to list it.
  // `open` are the directories whose loops are still running.
  method Walk(vol: Volume, p: Plan, ignoreState: bool, dir: string, names: seq<string>, ghost open: set<string>)
    returns (failure: Option<Error>, names': seq<string>)
    requires vol.Valid() && Visited(vol.nodes, names) && dir in names && |names| <= p.maxEntries
    requires Closed(vol.nodes, names, open + {dir})
    requires forall n :: n in vol.nodes && Parent(n) == dir ==> n !in names
    ensures failure.None? ==> Visited(vol.nodes, names') && Closed(vol.nodes, names', open)
    ensures failure.None? ==> Below(names, names', dir) && |names'| <= p.maxEntries
    ensures failure.None? && dir == ROOT ==> ignoreState || vol.state.None?
    ensures failure == Some(Unsafe) ==> !Walkable(vol, p, ignoreState)
    ensures failure == Some(Io) ==> vol.faulty
    ensures failure != Some(Partial)
    decreases 1 + |vol.nodes| - |names|, 1
  {
    hide Walking, Visited, Closed, Walkable, Parent;
    names' := names;
    VisitedCount(vol.nodes, names);
    var ok := vol.Attempt();
    if !ok {
      return Some(Io), names';
    }
    var left := Listing(vol, dir);
    StartWalking(vol, names, dir, open);
    while left != {}
      invariant Walking(vol, names', dir, open, left)
      invariant Below(names, names', dir) && |names'| <= p.maxEntries
      invariant dir == ROOT && vol.state.Some? && !ignoreState ==> STATE in left
      decreases left
    {
      var c :| c in left;
      if ignoreState && c == STATE {
        SkipState(vol, names', dir, open, left);
        left := left - {c};
      } else {
        var before := names';
        failure, names' := Visit(vol, p, ignoreState, dir, before, open, left, c);
        if failure.Some? { return; }
        BelowTrans(names, before, names', dir);
        left := left - {c};
      }
    }
    failure := None;
    EndWalking(vol, names', dir, open);
  }

  // The entries a directory lists: the root also lists the state directory.
  function Listing(vol: Volume, dir: string): set<string>
    reads vol
  {
    (set n | n in vol.nodes && Parent(n) == dir) + (if dir == ROOT && vol.state.Some? then {STATE} else {})
  }

  lemma StartWalking(vol: Volume, names: seq<string>, dir: string, open: set<string>)
    requires vol.Valid() && Visited(vol.nodes, names) && dir in names
    requires Closed(vol.nodes, names, open + {dir})
    requires forall n :: n in vol.nodes && Parent(n) == dir ==> n !in names
    ensures Walking(vol, names, dir, open, Listing(vol, dir))
  {
    assert STATE !in vol.nodes && STATE != ROOT;
  }

  lemma SkipState(vol: Volume, names: seq<string>, dir: string, open: set<string>, left: set<string>)
    requires vol.Valid() && Walking(vol, names, dir, open, left)
    ensures Walking(vol, names, dir, open, left - {STATE})
  {
    assert STATE !in vol.nodes;
  }

  lemma EndWalking(vol: Volume, names: seq<string>, dir: string, open: set<string>)
    requires Walking(vol, names, dir, open, {})
    ensures Visited(vol.nodes, names) && Closed(vol.nodes, names, open)
  {}

  lemma BelowTrans(a: seq<string>, b: seq<string>, c: seq<string>, dir: string)
    requires Below(a, b, dir) && Below(b, c, dir)
    ensures Below(a, c, dir)
  {
    assert forall n :: n in a ==> n in b;
  }

  // With no directory open, everything has been collected.
  lemma AllCollected(vol: Volume, names: seq<string>, n: string)
    requires vol.Valid() && Visited(vol.nodes, names) && Closed(vol.nodes, names, {}) && n in vol.nodes
    ensures n in names
    decreases |n|
  {
    if Parent(n) != ROOT {
      ParentShorter(n);
      AllCollected(vol, names, Parent(n));
    } else {
      assert names[0] in names;
    }
  }

  // ---- Emitting the records ----------------------------------------------------------------------

  // The walk from the root collects every entry of the volume exactly once.
  method CollectNames(vol: Volume, p: Plan, ignoreState: bool) returns (failure: Option<Error>, names: seq<string>)
    requires vol.Valid() && p.Valid()
    ensures failure.None? ==> Walkable(vol, p, ignoreState) && names == [ROOT] + SortedNames(vol.nodes.Keys)
    ensures failure == Some(Unsafe) ==> !Walkable(vol, p, ignoreState)
    ensures failure == Some(Io) ==> vol.faulty
    ensures failure != Some(Partial)
  {
    assert Parent(ROOT) == ROOT;
    failure, names := Walk(vol, p, ignoreState, ROOT, [ROOT], {});
    if failure.Some? { return; }
    forall n | n in vol.nodes ensures n in names { AllCollected(vol, names, n); }
    EntriesCollected(vol, names);
    var sorted := Sort(names[1..]);
    names := [names[0]] + sorted;
  }

  lemma EntriesCollected(vol: Volume, names: seq<string>)
    requires vol.Valid() && Visited(vol.nodes, names)
    requires forall n :: n in vol.nodes ==> n in names
    ensures Elements(names[1..]) == vol.nodes.Keys
    ensures |names| == 1 + |vol.nodes|
    ensures forall n :: n in vol.nodes ==> ValidPath(n) && !vol.nodes[n].Other?
  {
    var rest := names[1..];
    assert names == [ROOT] + rest;
    forall n ensures n in rest <==> n in vol.nodes {
      if n in rest {
        var i :| 0 <= i < |rest| && rest[i] == n;
        assert names[i + 1] == n && names[0] != names[i + 1];
      }
    }
    VisitedCount(vol.nodes, names);
    ElementsAtMost(rest);
    assert |vol.nodes.Keys| == |vol.nodes|;
  }

  lemma ElementsAtMost(xs: seq<string>)
    ensures |Elements(xs)| <= |xs|
  {
    if xs != [] {
      var n := |xs| - 1;
      ElementsAtMost(xs[..n]);
      assert xs == xs[..n] + [xs[n]];
      assert Elements(xs) == Elements(xs[..n]) + {xs[n]};
    }
  }

  // The payload can be carried, and no state directory is in the way.
  ghost predicate Exportable(vol: Volume, p: Plan, ignoreState: bool)
    reads vol
  {
    Supported(p, vol.Payload()) && (ignoreState || vol.state.None?)
  }

  function EntryNamed(vol: Volume, name: string): Record
    requires name == ROOT || name in vol.nodes
    reads vol
  {
    if name == ROOT then Record(ROOT, true, vol.root, "") else Entry(name, vol.nodes[name])
  }

  lemma RecordAt(vol: Volume, names: seq<string>, i: nat)
    requires vol.Valid() && names == [ROOT] + SortedNames(vol.nodes.Keys) && i < |names|
    ensures names[i] == ROOT || names[i] in vol.nodes
    ensures |Records(vol.Payload())| == |names|
    ensures Records(vol.Payload())[i] == EntryNamed(vol, names[i])
  {
    if i > 0 { assert names[i] in SortedNames(vol.nodes.Keys); }
  }

  // A record with bad metadata, or beyond the byte limit, makes the tree unsupported.
  lemma RefusedRecord(vol: Volume, p: Plan, i: nat)
    requires vol.Valid() && Refusable(p, Records(vol.Payload()), i)
    ensures !Supported(p, vol.Payload())
  {
    var t := vol.Payload();
    var rs := Records(t);
    var names := SortedNames(t.nodes.Keys);
    assert rs[..i + 1] == rs[..i] + [rs[i]];
    BytesSnoc(rs[..i], rs[i]);
    BytesPrefix(rs, i + 1);
    if i > 0 {
      assert names[i - 1] in names;
      assert rs[i] == Entry(names[i - 1], t.nodes[names[i - 1]]);
      assert Supported(p, t) ==> NodeOk(names[i - 1], t.nodes[names[i - 1]]);
    }
  }

  lemma AllRecordsOk(vol: Volume, p: Plan, ignoreState: bool)
    requires vol.Valid() && Walkable(vol, p, ignoreState)
    requires var rs := Records(vol.Payload());
             (forall k :: 0 <= k < |rs| ==> MetaOk(rs[k].meta)) && Bytes(rs) <= p.maxBytes
    ensures Exportable(vol, p, ignoreState)
  {
    hide ValidPath, MetaOk, Bytes, Less;
    var t := vol.Payload();
    var rs := Records(t);
    var names := SortedNames(t.nodes.Keys);
    forall n | n in t.nodes ensures NodeOk(n, t.nodes[n]) {
      assert n in names;
      var i :| 0 <= i < |names| && names[i] == n;
      assert rs[i + 1] == Entry(n, t.nodes[n]);
      assert MetaOk(rs[i + 1].meta);
    }
    assert rs[0].meta == t.root;
  }

  // Record i is refused: bad metadata, or more bytes than the plan leaves.
  ghost predicate Refusable(p: Plan, rs: seq<Record>, i: nat) {
    i < |rs| && (!MetaOk(rs[i].meta) || |rs[i].data| > p.maxBytes - Bytes(rs[..i]))
  }

  lemma NothingEmitted()
    ensures Bytes([]) == 0 && HashRecords([]) == ""
  {}

  // Write the records of the named entries one after the other.
  method Emit(vol: Volume, p: Plan, names: seq<string>, ghost rs: seq<Record>)
    returns (failure: Option<Error>, out: seq<Record>, bytes: nat, hash: string)
    requires |rs| == |names|
    requires forall i :: 0 <= i < |names| ==> names[i] == ROOT || names[i] in vol.nodes
    requires forall i :: 0 <= i < |names| ==> rs[i] == EntryNamed(vol, names[i])
    ensures out <= rs
    ensures failure.None? ==> out == rs && bytes == Bytes(rs) <= p.maxBytes && hash == HashRecords(rs)
    ensures failure.None? ==> forall k :: 0 <= k < |rs| ==> MetaOk(rs[k].meta)
    ensures failure == Some(Unsafe) ==> exists i: nat :: Refusable(p, rs, i)
    ensures failure == Some(Io) ==> vol.faulty
    ensures failure != Some(Partial)
  {
    hide HashRecord, HashRecords, Bytes, MetaOk, EntryNamed;
    NothingEmitted();
    out, bytes, hash := [], 0, "";
    for i := 0 to |names|
      invariant out == rs[..i] && bytes == Bytes(out) <= p.maxBytes && hash == HashRecords(out)
      invariant forall k :: 0 <= k < i ==> MetaOk(rs[k].meta)
    {
      var ok := vol.Attempt();
      if !ok {
        return Some(Io), out, bytes, hash;
      }
      var record := EntryNamed(vol, names[i]);
      if |record.data| > p.maxBytes - bytes || !MetaOk(record.meta) {
        assert Refusable(p, rs, i);
        return Some(Unsafe), out, bytes, hash;
      }
      BytesSnoc(out, record);
      HashAppend(out, record);
      assert rs[..i + 1] == out + [record];
      bytes := bytes + |record.data|;
      hash := hash + HashRecord(record);
      out := out + [record];
    }
    failure := None;
  }

  // Export a volume.  The outcome is decided by the payload alone, not by the order in
  // which the filesystem lists it; what is written before a failure is a prefix of the archive.
  method Export(vol: Volume, p: Plan, ignoreState: bool) returns (r: Result<Receipt>, out: seq<Record>)
    requires vol.Valid() && p.Valid()
    ensures out <= Records(vol.Payload())
    ensures match r
            case Ok(receipt) =>
              && Exportable(vol, p, ignoreState)
              && out == Records(vol.Payload()) && receipt == TreeReceipt(vol.Payload())
            case Err(Unsafe) => !Exportable(vol, p, ignoreState)
            case Err(Io) => vol.faulty
            case Err(Partial) => false
    ensures out != [] ==> out[0].name == "." && out[0].dir && out[0].meta == vol.root
    ensures forall i :: 2 <= i < |out| ==> Precedes(out[i - 1].name, out[i].name)
  {
    hide Precedes, Less, Bytes, HashRecords;
    RecordsSorted(vol.Payload());
    out := [];
    var failure, names := CollectNames(vol, p, ignoreState);
    if failure.Some? {
      WalkNeeded(vol, p, ignoreState);
      return Err(failure.value), out;
    }
    ghost var rs := Records(vol.Payload());
    forall i | 0 <= i < |names|
      ensures (names[i] == ROOT || names[i] in vol.nodes) && rs[i] == EntryNamed(vol, names[i])
    {
      RecordAt(vol, names, i);
    }
    var bytes, hash;
    failure, out, bytes, hash := Emit(vol, p, names, rs);
    if failure.Some? {
      if failure.value == Unsafe {
        ghost var i: nat :| Refusable(p, rs, i);
        RefusedRecord(vol, p, i);
      }
      return Err(failure.value), out;
    }
    AllRecordsOk(vol, p, ignoreState);
    r := Ok(Receipt(vol.root, bytes, |names|, hash));
  }

  lemma RecordsSorted(t: Tree)
    ensures forall i :: 2 <= i < |Records(t)| ==> Precedes(Records(t)[i - 1].name, Records(t)[i].name)
  {
    var names := SortedNames(t.nodes.Keys);
    SortedPrecedes(names);
    assert forall i :: 1 <= i < |Records(t)| ==> Records(t)[i].name == names[i - 1];
  }

  lemma WalkNeeded(vol: Volume, p: Plan, ignoreState: bool)
    ensures Exportable(vol, p, ignoreState) ==> Walkable(vol, p, ignoreState)
  {
    if Exportable(vol, p, ignoreState) {
      assert forall n :: n in vol.Payload().nodes ==> NodeOk(n, vol.nodes[n]);
    }
  }
}
