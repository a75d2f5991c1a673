/**
  * internal/pvccopy/archive.go: `consume` with its receiver.
  */
module ArchiveIO {
  import opened Options
  import opened Text
  import opened Archive
  import opened ArchiveTail
  import opened TarStream
  import ArchiveRules
  import opened Receipts
  import opened Volumes

  // ---- Growing an accepted archive by one record ---------------------------------------------------

  // The checks `consume` makes on a record after the root, given what it remembers.
  predicate StepOk(p: Plan, last: string, dirs: set<string>, entries: nat, bytes: nat, r: Record) {
    && ValidPath(r.name) && Less(last, r.name)
    && FieldsOk(r)
    && (Parent(r.name) == ROOT || Parent(r.name) in dirs)
    && entries < p.maxEntries && |r.data| <= p.maxBytes - bytes
  }

  // What the loop of `consume` remembers of the records so far.
  ghost predicate Remembers(rs: seq<Record>, last: string, dirs: set<string>)
    requires rs != []
  {
    && last == (if |rs| == 1 then "" else rs[|rs| - 1].name)
    && forall d :: d in dirs <==> exists j :: 0 <= j < |rs| && rs[j].name == d && rs[j].dir
  }

  lemma CanonicalPrefix(p: Plan, rs: seq<Record>, n: nat)
    requires Canonical(p, rs) && 0 < n <= |rs|
    ensures Canonical(p, rs[..n])
  {
    var q := rs[..n];
    forall i | 1 <= i < n ensures ParentSeen(q, i) {
      assert ParentSeen(rs, i);
      if Parent(rs[i].name) != ROOT {
        var j :| 1 <= j < i && rs[j].name == Parent(rs[i].name) && rs[j].dir;
        assert q[j].name == Parent(q[i].name) && q[j].dir;
      }
    }
    BytesPrefix(rs, n);
  }

  lemma BytesPrefix(rs: seq<Record>, n: nat)
    requires n <= |rs|
    ensures Bytes(rs[..n]) <= Bytes(rs)
  {
    if n < |rs| {
      assert rs[..|rs| - 1][..n] == rs[..n];
      BytesPrefix(rs[..|rs| - 1], n);
    } else {
      assert rs[..n] == rs;
    }
  }

  lemma BytesSnoc(rs: seq<Record>, r: Record)
    ensures Bytes(rs + [r]) == Bytes(rs) + |r.data|
  {
    assert (rs + [r])[..|rs|] == rs;
  }

  // The record-by-record checks decide exactly whether the grown archive is accepted.
  lemma StepDecides(p: Plan, rs: seq<Record>, last: string, dirs: set<string>, r: Record)
    requires Canonical(p, rs) && Remembers(rs, last, dirs)
    ensures StepOk(p, last, dirs, |rs|, Bytes(rs), r) <==> Canonical(p, rs + [r])
  {
    var q := rs + [r];
    BytesSnoc(rs, r);
    if StepOk(p, last, dirs, |rs|, Bytes(rs), r) {
      StepExtends(p, rs, last, dirs, r);
    }
    if Canonical(p, q) {
      StepNeeded(p, rs, last, dirs, r);
    }
  }

  lemma StepExtends(p: Plan, rs: seq<Record>, last: string, dirs: set<string>, r: Record)
    requires Canonical(p, rs) && Remembers(rs, last, dirs)
    requires StepOk(p, last, dirs, |rs|, Bytes(rs), r)
    ensures Canonical(p, rs + [r])
  {
    var q := rs + [r];
    BytesSnoc(rs, r);
    OrderedSnoc(rs, r);
    ParentedSnoc(rs, r, dirs);
    forall i | 0 <= i < |q| ensures FieldsOk(q[i]) && (1 <= i ==> ValidPath(q[i].name)) {
      if i < |rs| { assert q[i] == rs[i]; }
    }
  }

  lemma OrderedSnoc(rs: seq<Record>, r: Record)
    requires Ordered(rs)
    requires |rs| > 1 ==> Less(rs[|rs| - 1].name, r.name)
    ensures Ordered(rs + [r])
  {
    var q, n := rs + [r], |rs|;
    forall i, j | 1 <= i < j < |q| ensures Less(q[i].name, q[j].name) {
      if j == n && i < n - 1 { LessTransitive(rs[i].name, rs[n - 1].name, r.name); }
    }
  }

  lemma ParentedSnoc(rs: seq<Record>, r: Record, dirs: set<string>)
    requires rs != [] && rs[0].name == ROOT && Parented(rs)
    requires forall d :: d in dirs ==> exists j :: 0 <= j < |rs| && rs[j].name == d && rs[j].dir
    requires Parent(r.name) == ROOT || Parent(r.name) in dirs
    ensures Parented(rs + [r])
  {
    var q, n := rs + [r], |rs|;
    forall i | 1 <= i < |q| ensures ParentSeen(q, i) {
      if i < n {
        ParentStays(rs, r, i);
      } else if Parent(r.name) != ROOT {
        var j :| 0 <= j < n && rs[j].name == Parent(r.name) && rs[j].dir;
        assert q[j].name == Parent(q[i].name) && q[j].dir;
      }
    }
  }

  lemma ParentStays(rs: seq<Record>, r: Record, i: nat)
    requires i < |rs| && ParentSeen(rs, i)
    ensures ParentSeen(rs + [r], i)
  {
    var q := rs + [r];
    if Parent(rs[i].name) != ROOT {
      var j :| 1 <= j < i && rs[j].name == Parent(rs[i].name) && rs[j].dir;
      assert q[j].name == Parent(q[i].name) && q[j].dir;
    }
  }

  lemma StepNeeded(p: Plan, rs: seq<Record>, last: string, dirs: set<string>, r: Record)
    requires Canonical(p, rs) && Remembers(rs, last, dirs)
    requires Canonical(p, rs + [r])
    ensures StepOk(p, last, dirs, |rs|, Bytes(rs), r)
  {
    var q := rs + [r];
    var n := |rs|;
    BytesSnoc(rs, r);
    assert q[n] == r && ValidPath(q[n].name) && FieldsOk(q[n]);
    if n > 1 { assert Less(q[n - 1].name, q[n].name) && q[n - 1] == rs[n - 1]; }
    assert ParentSeen(q, n);
    if Parent(r.name) != ROOT {
      var j :| 1 <= j < n && q[j].name == Parent(q[n].name) && q[j].dir;
      assert rs[j] == q[j];
    }
  }

  lemma RootDecides(p: Plan, r: Record)
    requires p.Valid()
    ensures Canonical(p, [r]) <==> r.name == ROOT && r.dir && FieldsOk(r)
  {
    BytesSnoc([], r);
    assert [] + [r] == [r];
  }

  // ---- The receiver --------------------------------------------------------------------------------

  // Every name is there; files are final, directories may still carry temporary metadata.
  ghost predicate Drafted(nodes: map<string, Node>, rs: seq<Record>) {
    && (forall i :: 1 <= i < |rs| ==> rs[i].name in nodes && Matches(nodes[rs[i].name], rs[i]))
    && (forall n :: n in nodes ==> exists i :: 1 <= i < |rs| && rs[i].name == n)
  }

  predicate Matches(node: Node, r: Record) {
    if r.dir then node.Dir? else node == NodeOf(r)
  }

  class Receiver {
    const target: Volume
    var directories: seq<Record>

    constructor (target: Volume)
      ensures this.target == target && directories == []
    {
      this.target := target;
      directories := [];
    }

    // The directory records so far, and nothing else.
    ghost predicate Collected(rs: seq<Record>)
      reads this
    {
      && (forall d :: d in directories ==> d in rs && d.dir)
      && (forall i :: 0 <= i < |rs| && rs[i].dir ==> rs[i] in directories)
    }

    // Create the entry of the next record.
    method Open(ghost rs: seq<Record>, r: Record) returns (ok: bool)
      requires r.name == ROOT <==> rs == []
      requires r.name != ROOT ==> target.Creatable(r.name)
      requires target.Valid() && Drafted(target.nodes, rs) && Collected(rs)
      modifies this, target`nodes
      ensures target.Valid()
      ensures ok ==> Drafted(target.nodes, rs + [r]) && Collected(rs + [r])
      ensures !target.faulty ==> ok
    {
      CollectSnoc(rs, r);
      if r.dir {
        directories := directories + [r];
      }
      if r.name == ROOT {
        assert |rs + [r]| == 1;
        return true;
      }
      ghost var before := target.nodes;
      if r.dir {
        ok := target.Mkdir(r.name);
      } else {
        ok := target.CreateFile(r.name, r.meta, r.data);
      }
      if ok { DraftSnoc(rs, r, before, target.nodes[r.name]); }
    }

    // Directories stay writable for the helper until everything below them is restored.
    method Finish(p: Plan, ghost rs: seq<Record>) returns (ok: bool)
      requires Canonical(p, rs)
      requires target.Valid() && Drafted(target.nodes, rs) && Collected(rs)
      modifies target`nodes, target`root
      ensures target.Valid()
      ensures ok ==> target.Payload() == Build(rs)
      ensures !target.faulty ==> ok
    {
      NamesUnambiguous(p, rs);
      ok := RestoreAll(rs);
      if ok { RestoredIsBuilt(p, rs, target.root, target.nodes); }
    }

    method RestoreAll(ghost rs: seq<Record>) returns (ok: bool)
      requires Unambiguous(rs)
      requires target.Valid() && Drafted(target.nodes, rs) && Collected(rs)
      modifies target`nodes, target`root
      ensures target.Valid()
      ensures ok ==> Drafted(target.nodes, rs)
      ensures ok ==> forall i :: 0 <= i < |rs| && rs[i].dir ==> Restored(target.root, target.nodes, rs[i])
      ensures !target.faulty ==> ok
    {
      hide Drafted, Restored, Unambiguous, Volume.Valid;
      var i := |directories|;
      while i > 0
        invariant 0 <= i <= |directories|
        invariant target.Valid() && Drafted(target.nodes, rs)
        invariant forall d :: d in directories[i..] ==> Restored(target.root, target.nodes, d)
      {
        i := i - 1;
        var h := directories[i];
        assert h in directories && directories[i..] == [h] + directories[i + 1..];
        DirectoryThere(rs, h, target.nodes);
        RestoreOne(rs, h, directories[i + 1..], target.root, target.nodes);
        ok := target.SetMeta(h.name, h.meta);
        if !ok { return; }
      }
      ok := true;
      assert directories[0..] == directories;
    }

    lemma CollectSnoc(rs: seq<Record>, r: Record)
      requires Collected(rs)
      ensures forall d :: d in (if r.dir then directories + [r] else directories) ==> d in rs + [r] && d.dir
      ensures forall i :: 0 <= i < |rs + [r]| && (rs + [r])[i].dir ==>
        (rs + [r])[i] in (if r.dir then directories + [r] else directories)
    {}
  }

  // The metadata of a directory record is in place.
  predicate Restored(root: Meta, nodes: map<string, Node>, d: Record) {
    if d.name == ROOT then root == d.meta
    else d.name in nodes && nodes[d.name] == Dir(d.meta)
  }

  // One record per name, the root first.
  ghost predicate Unambiguous(rs: seq<Record>) {
    && (forall i, j :: 0 <= i < j < |rs| ==> rs[i].name != rs[j].name)
    && (forall i :: 0 <= i < |rs| ==> (rs[i].name == ROOT <==> i == 0))
  }

  lemma NamesUnambiguous(p: Plan, rs: seq<Record>)
    requires Canonical(p, rs)
    ensures Unambiguous(rs)
  {
    CanonicalNames(p, rs);
    forall i | 0 <= i < |rs| ensures rs[i].name == ROOT <==> i == 0 {
      assert 0 < i ==> ValidPath(rs[i].name);
    }
  }

  lemma DirectoryThere(rs: seq<Record>, d: Record, nodes: map<string, Node>)
    requires Unambiguous(rs) && Drafted(nodes, rs) && d in rs && d.dir
    ensures d.name == ROOT || (d.name in nodes && nodes[d.name].Dir?)
  {
    var i :| 0 <= i < |rs| && rs[i] == d;
  }

  lemma SameNameSameRecord(rs: seq<Record>, a: Record, b: Record)
    requires Unambiguous(rs) && a in rs && b in rs && a.name == b.name
    ensures a == b
  {
    var i :| 0 <= i < |rs| && rs[i] == a;
    var j :| 0 <= j < |rs| && rs[j] == b;
    assert i == j;
  }

  // Restoring one directory disturbs no other entry.
  lemma RestoreOne(rs: seq<Record>, h: Record, later: seq<Record>, root: Meta, nodes: map<string, Node>)
    requires Unambiguous(rs) && Drafted(nodes, rs) && h in rs && h.dir
    requires forall d :: d in later ==> d in rs && Restored(root, nodes, d)
    ensures h.name == ROOT ==> forall d :: d in [h] + later ==> Restored(h.meta, nodes, d)
    ensures h.name != ROOT ==> Drafted(nodes[h.name := Dir(h.meta)], rs)
    ensures h.name != ROOT ==> forall d :: d in [h] + later ==> Restored(root, nodes[h.name := Dir(h.meta)], d)
  {
    forall d | d in later && d.name == h.name ensures d == h { SameNameSameRecord(rs, d, h); }
    if h.name != ROOT {
      DirectoryThere(rs, h, nodes);
      var after := nodes[h.name := Dir(h.meta)];
      forall i | 1 <= i < |rs| ensures rs[i].name in after && Matches(after[rs[i].name], rs[i]) {
        if rs[i].name == h.name { SameNameSameRecord(rs, rs[i], h); }
      }
      assert after.Keys == nodes.Keys;
    }
  }

  // With every directory restored, the volume holds the tree of the archive.
  lemma RestoredIsBuilt(p: Plan, rs: seq<Record>, root: Meta, nodes: map<string, Node>)
    requires Canonical(p, rs) && Drafted(nodes, rs)
    requires forall i :: 0 <= i < |rs| && rs[i].dir ==> Restored(root, nodes, rs[i])
    ensures Tree(root, nodes) == Build(rs)
  {
    hide ValidPath, Less, MetaOk, Bytes, Parented, BuildNodes;
    CanonicalNames(p, rs);
    NamesUnambiguous(p, rs);
    var built := BuildNodes(rs[1..]);
    assert Restored(root, nodes, rs[0]);
    forall i | 1 <= i < |rs| ensures nodes[rs[i].name] == built[rs[i].name] {
      if rs[i].dir { assert Restored(root, nodes, rs[i]); }
    }
    forall n | n in built ensures n in nodes {
      assert n in NamesOf(rs[1..]);
      var i :| 0 <= i < |rs[1..]| && NamesOf(rs[1..])[i] == n;
      assert rs[i + 1].name == n;
    }
    assert nodes == built;
  }

  lemma RootIsFirst(p: Plan, rs: seq<Record>, r: Record)
    requires Canonical(p, rs + [r])
    ensures r.name == ROOT <==> rs == []
  {
    var n := |rs|;
    assert (rs + [r])[n] == r;
    assert n >= 1 ==> ValidPath((rs + [r])[n].name);
  }

  // The next record of an accepted archive never collides and never lacks its parent.
  lemma NextCreatable(p: Plan, rs: seq<Record>, r: Record, nodes: map<string, Node>)
    requires rs != [] && Canonical(p, rs + [r]) && Drafted(nodes, rs)
    ensures ValidPath(r.name) && r.name !in nodes
    ensures Parent(r.name) == ROOT || (Parent(r.name) in nodes && nodes[Parent(r.name)].Dir?)
  {
    hide ValidPath, Less, Bytes, FieldsOk, Parent;
    var q := rs + [r];
    var n := |rs|;
    assert q[n] == r && ValidPath(q[n].name) && ParentSeen(q, n);
    if r.name in nodes {
      var i :| 1 <= i < n && rs[i].name == r.name;
      assert Less(q[i].name, q[n].name);
      LessIrreflexive(r.name);
    }
    if Parent(r.name) != ROOT {
      var j :| 1 <= j < n && q[j].name == Parent(q[n].name) && q[j].dir;
      assert rs[j] == q[j];
    }
  }

  lemma DraftSnoc(rs: seq<Record>, r: Record, nodes: map<string, Node>, node: Node)
    requires rs != [] && Drafted(nodes, rs) && r.name !in nodes && Matches(node, r)
    ensures Drafted(nodes[r.name := node], rs + [r])
  {
    var q := rs + [r];
    var after := nodes[r.name := node];
    forall i | 1 <= i < |q| ensures q[i].name in after && Matches(after[q[i].name], q[i]) {
      if i < |rs| { assert q[i] == rs[i]; }
    }
    forall n | n in after ensures exists i :: 1 <= i < |q| && q[i].name == n {
      if n == r.name {
        assert q[|rs|].name == n;
      } else {
        var i :| 1 <= i < |rs| && rs[i].name == n;
        assert q[i].name == n;
      }
    }
  }

  // ---- Reading an archive ---------------------------------------------------------------------------

  // The checks on one header, with what the loop remembers.
  predicate HeaderOk(p: Plan, last: string, dirs: set<string>, entries: nat, bytes: nat, h: Raw) {
    var rootEntry := entries == 0 && h.name == ROOT && h.typeflag == '5';
    && (rootEntry || (ValidPath(h.name) && Less(last, h.name)))
    && (entries == 0 ==> rootEntry)
    && ShapeOk(h)
    && (Parent(h.name) == ROOT || Parent(h.name) in dirs)
    && entries < p.maxEntries && h.size <= p.maxBytes - bytes
  }

  // The state of the loop after the records rs.
  ghost predicate Reached(p: Plan, rs: seq<Record>, last: string, dirs: set<string>) {
    if rs == [] then last == "" && dirs == {} else Canonical(p, rs) && Remembers(rs, last, dirs)
  }

  // A header that passes extends the accepted archive; one that fails ends all hope.
  lemma HeaderDecides(p: Plan, s: Stream, i: nat, last: string, dirs: set<string>)
    requires p.Valid() && i < |s.raws| && Framed(s.raws[i])
    requires Reached(p, CleanAll(s.raws)[..i], last, dirs)
    ensures var rs := CleanAll(s.raws)[..i];
            var h := s.raws[i];
            && (HeaderOk(p, last, dirs, i, Bytes(rs), h) ==> Canonical(p, rs + [Clean(h)]))
            && (!HeaderOk(p, last, dirs, i, Bytes(rs), h) ==> !Accepted(p, s))
  {
    var all := CleanAll(s.raws);
    var rs, h := all[..i], s.raws[i];
    assert all[..i + 1] == rs + [Clean(h)];
    if rs == [] {
      RootDecides(p, Clean(h));
      assert rs + [Clean(h)] == [Clean(h)];
      assert LastSlash(ROOT) == -1;
    } else {
      StepDecides(p, rs, last, dirs, Clean(h));
    }
    if Accepted(p, s) { CanonicalPrefix(p, all, i + 1); }
  }

  lemma RememberSnoc(rs: seq<Record>, r: Record, last: string, dirs: set<string>)
    requires rs == [] ==> last == "" && dirs == {} && r.name == ROOT
    requires rs != [] ==> Remembers(rs, last, dirs) && r.name != ROOT
    ensures Remembers(rs + [r], if r.name == ROOT then last else r.name, if r.dir then dirs + {r.name} else dirs)
  {
    var q := rs + [r];
    var after := if r.dir then dirs + {r.name} else dirs;
    forall d ensures d in after <==> exists j :: 0 <= j < |q| && q[j].name == d && q[j].dir {
      if d in after {
        if d == r.name && r.dir {
          assert q[|rs|].name == d && q[|rs|].dir;
        } else {
          var j :| 0 <= j < |rs| && rs[j].name == d && rs[j].dir;
          assert q[j].name == d && q[j].dir;
        }
      }
      if exists j :: 0 <= j < |q| && q[j].name == d && q[j].dir {
        var j :| 0 <= j < |q| && q[j].name == d && q[j].dir;
        if j < |rs| { assert rs[j].name == d && rs[j].dir; }
      }
    }
  }

  // The variables of the loop: the records written out, and what is remembered of them.
  datatype Progress = Progress(output: seq<Record>, last: string, dirs: set<string>, bytes: nat, hash: string)

  // After i headers of the stream.
  ghost predicate Advanced(p: Plan, s: Stream, i: nat, g: Progress)
    requires i <= |s.raws|
  {
    && g.output == CleanAll(s.raws)[..i]
    && Reached(p, g.output, g.last, g.dirs)
    && g.bytes == Bytes(g.output) && g.hash == HashRecords(g.output)
    && forall k :: 0 <= k < i ==> ShapeOk(s.raws[k]) && |s.raws[k].payload| == s.raws[k].size
  }

  // The receiver's volume mirrors the records so far.
  ghost predicate Mirrors(receiver: Receiver?, rs: seq<Record>)
    reads receiver, if receiver == null then {} else {receiver.target}
  {
    receiver != null ==>
      receiver.target.Valid() && Drafted(receiver.target.nodes, rs) && receiver.Collected(rs)
  }

  function Next(g: Progress, r: Record): Progress {
    Progress(g.output + [r],
             if r.name == ROOT then g.last else r.name,
             if r.dir then g.dirs + {r.name} else g.dirs,
             g.bytes + |r.data|,
             g.hash + HashRecord(r))
  }

  lemma NextAdvanced(p: Plan, s: Stream, i: nat, g: Progress)
    requires i < |s.raws| && Advanced(p, s, i, g)
    requires ShapeOk(s.raws[i]) && |s.raws[i].payload| == s.raws[i].size
    requires Canonical(p, g.output + [Clean(s.raws[i])])
    ensures Advanced(p, s, i + 1, Next(g, Clean(s.raws[i])))
  {
    hide HashRecord, HashRecords, Bytes, Canonical, Remembers, ShapeOk;
    var r := Clean(s.raws[i]);
    RootIsFirst(p, g.output, r);
    RememberSnoc(g.output, r, g.last, g.dirs);
    HashAppend(g.output, r);
    BytesSnoc(g.output, r);
    assert CleanAll(s.raws)[..i + 1] == g.output + [r];
  }

  // The next record of an accepted archive can be created.
  lemma NextOpens(p: Plan, rs: seq<Record>, r: Record, receiver: Receiver?)
    requires Canonical(p, rs + [r]) && Mirrors(receiver, rs)
    ensures r.name == ROOT <==> rs == []
    ensures receiver != null && r.name != ROOT ==> receiver.target.Creatable(r.name)
  {
    RootIsFirst(p, rs, r);
    if receiver != null && rs != [] { NextCreatable(p, rs, r, receiver.target.nodes); }
  }

  // Pass a record to the receiver, if there is one.
  method Deliver(rs: seq<Record>, r: Record, receiver: Receiver?) returns (ok: bool)
    requires Mirrors(receiver, rs)
    requires r.name == ROOT <==> rs == []
    requires receiver != null && r.name != ROOT ==> receiver.target.Creatable(r.name)
    modifies if receiver == null then {} else {receiver, receiver.target}
    ensures receiver != null ==> receiver.target.Valid()
    ensures receiver != null ==> receiver.target.root == old(receiver.target.root)
    ensures receiver != null ==> receiver.target.state == old(receiver.target.state)
    ensures ok ==> Mirrors(receiver, rs + [r])
    ensures !ok ==> receiver != null && receiver.target.faulty
  {
    ok := true;
    if receiver != null { ok := receiver.Open(rs, r); }
  }

  // One turn of the loop of `consume`: the header is checked before anything of it is
  // written anywhere.
  method ConsumeEntry(p: Plan, s: Stream, i: nat, g: Progress, receiver: Receiver?)
    returns (failure: Option<Error>, g': Progress)
    requires p.Valid() && i < |s.raws| && Framed(s.raws[i])
    requires Advanced(p, s, i, g) && Mirrors(receiver, g.output)
    modifies if receiver == null then {} else {receiver, receiver.target}
    ensures receiver != null ==> receiver.target.Valid()
    ensures receiver != null ==> receiver.target.root == old(receiver.target.root)
    ensures receiver != null ==> receiver.target.state == old(receiver.target.state)
    ensures failure.None? ==> Advanced(p, s, i + 1, g') && Mirrors(receiver, g'.output)
    ensures failure == Some(Unsafe) ==> !Accepted(p, s)
    ensures failure == Some(Io) ==> receiver != null && receiver.target.faulty
    ensures failure != Some(Partial)
  {
    g' := g;
    var h := s.raws[i];
    HeaderDecides(p, s, i, g.last, g.dirs);
    if !HeaderOk(p, g.last, g.dirs, i, g.bytes, h) {
      return Some(Unsafe), g;
    }
    var clean := Clean(h);
    NextOpens(p, g.output, clean, receiver);
    var ok := Deliver(g.output, clean, receiver);
    if !ok {
      return Some(Io), g;
    }
    if |h.payload| != h.size {
      return Some(Unsafe), g;
    }
    NextAdvanced(p, s, i, g);
    return None, Next(g, clean);
  }

  // Read a whole stream.  Without a receiver this is the relay, whose output is the
  // re-encoded archive.  Success and refusal are decided by the stream alone.
  method Consume(p: Plan, s: Stream, receiver: Receiver?) returns (r: Result<Receipt>, output: seq<Record>)
    requires p.Valid() && Readable(s)
    requires Mirrors(receiver, [])
    modifies if receiver == null then {} else {receiver, receiver.target}
    ensures match r
            case Ok(receipt) => Accepted(p, s) && output == CleanAll(s.raws) && receipt == ReceiptOf(output)
            case Err(Unsafe) => !Accepted(p, s)
            case Err(Io) => receiver != null && receiver.target.faulty
            case Err(Partial) => false
    ensures receiver != null ==> receiver.target.Valid()
    ensures receiver != null ==> receiver.target.root == old(receiver.target.root)
    ensures receiver != null ==> receiver.target.state == old(receiver.target.state)
    ensures r.Ok? ==> Mirrors(receiver, output)
    ensures r.Ok? ==> ArchiveRules.WellFormed(p, output) && ArchiveRules.Delivers(s, output)
  {
    hide HashRecords, Bytes, Canonical, Drafted, EndsWithZeroBlocks, Advanced, Zeros, Accepted, ShapeOk, EntriesBytes;
    hide ArchiveRules.WellFormed, ArchiveRules.Delivers;
    var wire := new ArchiveReader();
    var failure, g := ConsumeEntries(p, s, wire, receiver);
    output := g.output;
    if failure.Some? {
      return Err(failure.value), output;
    }
    AllAdvanced(p, s, g);
    EndVerdict(p, s);
    if s.failed {
      return Err(Unsafe), output;
    }
    Pull(wire, s.hidden + Zeros(BLOCK * s.ends));
    assert wire.stream == Scanned(s);
    // One more byte is asked for.
    if s.trailing != "" {
      return Err(Unsafe), output;
    }
    assert Sent(s) == Scanned(s);
    var complete := wire.Complete();
    if output == [] || wire.count >= WireLimit(p) || !complete {
      return Err(Unsafe), output;
    }
    ArchiveRules.CanonicalIff(p, output);
    Delivered(p, s);
    r := Ok(Receipt(output[0].meta, g.bytes, |output|, g.hash));
  }

  lemma Delivered(p: Plan, s: Stream)
    requires Accepted(p, s)
    ensures ArchiveRules.Delivers(s, CleanAll(s.raws))
  {
    ArchiveRules.CanonicalDirs(p, CleanAll(s.raws));
  }

  // What is left to decide once every entry has passed.
  lemma EndVerdict(p: Plan, s: Stream)
    requires s.raws != [] ==> Canonical(p, CleanAll(s.raws))
    requires forall i :: 0 <= i < |s.raws| ==> ShapeOk(s.raws[i]) && |s.raws[i].payload| == s.raws[i].size
    ensures Accepted(p, s) <==>
      s.raws != [] && !s.failed && s.trailing == "" && |Sent(s)| < WireLimit(p) && EndsWithZeroBlocks(Sent(s))
  {
    hide EndsWithZeroBlocks, ShapeOk, ValidPath, Sent;
  }

  lemma AllAdvanced(p: Plan, s: Stream, g: Progress)
    requires Advanced(p, s, |s.raws|, g)
    ensures g.output == CleanAll(s.raws) && (g.output != [] ==> Canonical(p, g.output))
    ensures g.bytes == Bytes(g.output) && g.hash == HashRecords(g.output)
    ensures forall i :: 0 <= i < |s.raws| ==> ShapeOk(s.raws[i]) && |s.raws[i].payload| == s.raws[i].size
  {
    hide Canonical;
  }

  lemma NothingConsumed(p: Plan, s: Stream)
    ensures Advanced(p, s, 0, Progress([], "", {}, 0, "")) && EntriesBytes(s.raws[..0]) == ""
  {}

  lemma EntriesSnoc(raws: seq<Raw>, i: nat)
    requires i < |raws|
    ensures EntriesBytes(raws[..i + 1]) == EntriesBytes(raws[..i]) + EntryBytes(raws[i])
  {
    assert raws[..i + 1][..i] == raws[..i];
  }

  // The loop of `consume`: every byte of an entry passes the rolling window.
  method ConsumeEntries(p: Plan, s: Stream, wire: ArchiveReader, receiver: Receiver?)
    returns (failure: Option<Error>, g: Progress)
    requires p.Valid() && Readable(s)
    requires wire.Valid() && wire.stream == "" && Mirrors(receiver, [])
    modifies wire, wire.tail, if receiver == null then {} else {receiver, receiver.target}
    ensures wire.Valid()
    ensures failure.None? ==> Advanced(p, s, |s.raws|, g) && Mirrors(receiver, g.output)
    ensures failure.None? ==> wire.stream == EntriesBytes(s.raws)
    ensures failure == Some(Unsafe) ==> !Accepted(p, s)
    ensures failure == Some(Io) ==> receiver != null && receiver.target.faulty
    ensures failure != Some(Partial)
    ensures receiver != null ==> receiver.target.Valid()
    ensures receiver != null ==> receiver.target.root == old(receiver.target.root)
    ensures receiver != null ==> receiver.target.state == old(receiver.target.state)
  {
    hide Drafted, Accepted, Advanced, EntryBytes, EntriesBytes;
    g := Progress([], "", {}, 0, "");
    NothingConsumed(p, s);
    for i := 0 to |s.raws|
      invariant Advanced(p, s, i, g) && Mirrors(receiver, g.output)
      invariant receiver != null ==> receiver.target.root == old(receiver.target.root)
      invariant receiver != null ==> receiver.target.state == old(receiver.target.state)
      invariant wire.Valid() && wire.stream == EntriesBytes(s.raws[..i])
    {
      Pull(wire, EntryBytes(s.raws[i]));
      EntriesSnoc(s.raws, i);
      var g';
      failure, g' := ConsumeEntry(p, s, i, g, receiver);
      if failure.Some? { return; }
      g := g';
    }
    assert s.raws[..|s.raws|] == s.raws;
    failure := None;
  }

  // The tar reader's reads of some bytes, cut in any way.
  method Pull(wire: ArchiveReader, bytes: string)
    requires wire.Valid()
    modifies wire, wire.tail
    ensures wire.Valid() && wire.stream == old(wire.stream) + bytes
  {
    var chunks: seq<string> := *;
    if Concat(chunks) != bytes {
      chunks := [bytes];
      assert Concat(chunks) == bytes + Concat([]);
    }
    ReadEach(wire, chunks);
  }

  // ---- Archives that were cut ------------------------------------------------------------------------

  // An archive cut after k entries, with one end block or none, passes exactly when the last
  // payload that came through ends, with its padding, in as many zero bytes as are missing.
  lemma CutArchive(p: Plan, rs: seq<Record>, k: nat, s: Stream)
    requires Canonical(p, rs) && 0 < k <= |rs| && Renders(rs[..k], s)
    ensures Accepted(p, s) <==> s.ends == 2 || ZeroTail(Padded(rs[k - 1].data), WINDOW - BLOCK * s.ends)
  {
    CanonicalPrefix(p, rs, k);
    RenderedAccepted(p, rs[..k], s);
  }

  // Such an archive: a file of 1024 zero bytes, and nothing after it.
  lemma ZeroFilePasses(p: Plan, root: Meta, meta: Meta, s: Stream)
    requires p.maxEntries >= 2 && p.maxBytes >= 1024 && MetaOk(root) && MetaOk(meta)
    requires Renders([Record(ROOT, true, root, ""), Record("f", false, meta, Zeros(1024))], s) && s.ends == 0
    ensures Accepted(p, s)
  {
    var dir, file := Record(ROOT, true, root, ""), Record("f", false, meta, Zeros(1024));
    assert Bytes([dir]) == 0 && Bytes([dir] + [file]) == 1024 by { BytesSnoc([dir], file); }
    assert [dir] + [file] == [dir, file];
    assert ValidPath("f") && Parent("f") == ROOT;
    assert ParentSeen([dir, file], 1);
    assert Canonical(p, [dir, file]);
    RenderedAccepted(p, [dir, file], s);
  }
}
