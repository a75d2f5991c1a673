/**
  * internal/pvccopy/archive.go: the canonical tree archive as a value.
  *
  * A tree is a root and a map from paths to nodes.  An archive is the list of
  * (header, payload) records of its tar stream.  `Canonical` is what `consume`
  * demands of that list; `Records` is what `export` emits; `Build` is the tree
  * the receiver makes of it.
  */
module Archive {
  import opened Text

  const STATE := ".envplane-pvccopy"
  const ROOT := "."

  datatype Plan = Plan(maxBytes: nat, maxEntries: nat) {
    predicate Valid() {
      0 < maxBytes <= 0x100_0000_0000 && 0 < maxEntries <= 100000
    }
  }

  // Ownership and mode; mode includes any setuid, setgid or sticky bit.
  datatype Meta = Meta(uid: int, gid: int, mode: int)

  // Other stands for everything the archive does not carry: links, devices,
  // hard-linked files, entries with extended attributes.
  datatype Node = Dir(meta: Meta) | File(meta: Meta, data: string) | Other

  datatype Tree = Tree(root: Meta, nodes: map<string, Node>)

  // ---- Paths --------------------------------------------------------------------------

  function LastSlash(s: string): (i: int)
    ensures -1 <= i < |s|
    ensures i >= 0 ==> s[i] == '/'
    ensures forall k :: i < k < |s| ==> s[k] != '/'
  {
    if s == "" then -1
    else if s[|s| - 1] == '/' then |s| - 1
    else LastSlash(s[..|s| - 1])
  }

  // path.Dir of a clean relative path.
  function Parent(s: string): string {
    var i := LastSlash(s);
    if i < 0 then ROOT else s[..i]
  }

  predicate In(c: char, low: int, high: int) {
    low <= c as int <= high
  }

  // Well-formed UTF-8 from position i on, as utf8.ValidString decides it.
  predicate Utf8(s: string, i: nat)
    requires i <= |s|
    decreases |s| - i
  {
    if i == |s| then true
    else if In(s[i], 0, 0x7F) then Utf8(s, i + 1)
    else if i + 2 <= |s| && In(s[i], 0xC2, 0xDF) then In(s[i + 1], 0x80, 0xBF) && Utf8(s, i + 2)
    else if i + 3 <= |s| && In(s[i], 0xE0, 0xEF) then
      && In(s[i + 1], if s[i] as int == 0xE0 then 0xA0 else 0x80, if s[i] as int == 0xED then 0x9F else 0xBF)
      && In(s[i + 2], 0x80, 0xBF) && Utf8(s, i + 3)
    else if i + 4 <= |s| && In(s[i], 0xF0, 0xF4) then
      && In(s[i + 1], if s[i] as int == 0xF0 then 0x90 else 0x80, if s[i] as int == 0xF4 then 0x8F else 0xBF)
      && In(s[i + 2], 0x80, 0xBF) && In(s[i + 3], 0x80, 0xBF) && Utf8(s, i + 4)
    else false
  }

  predicate ElementStart(s: string, k: nat) {
    k <= |s| && (k == 0 || s[k - 1] == '/')
  }

  predicate ElementEnd(s: string, k: nat) {
    k == |s| || (k < |s| && s[k] == '/')
  }

  // The path element that starts at k is not empty, "." or "..".
  predicate GoodElement(s: string, k: nat)
    requires k <= |s|
  {
    && !ElementEnd(s, k)
    && !(s[k] == '.' && ElementEnd(s, k + 1))
    && !(s[k] == '.' && k + 1 < |s| && s[k + 1] == '.' && ElementEnd(s, k + 2))
  }

  predicate ValidPath(s: string) {
    && s != ROOT && 0 < |s| <= 1024
    && Utf8(s, 0)
    && (forall k: nat :: k <= |s| && ElementStart(s, k) ==> GoodElement(s, k))
    && '\\' !in s && '\0' !in s && '\r' !in s && '\n' !in s
    && s != STATE && !(STATE + "/" <= s)
  }

  // ---- Records -------------------------------------------------------------------------

  datatype Record = Record(name: string, dir: bool, meta: Meta, data: string)

  predicate MetaOk(m: Meta) {
    0 <= m.mode <= 0x1FF && 0 <= m.uid <= 0x7FFF_FFFF && 0 <= m.gid <= 0x7FFF_FFFF
  }

  function Bytes(rs: seq<Record>): nat {
    if rs == [] then 0 else Bytes(rs[..|rs| - 1]) + |rs[|rs| - 1].data|
  }

  predicate FieldsOk(r: Record) {
    MetaOk(r.meta) && (r.dir ==> r.data == "")
  }

  // The parent directory of record i stands before it.
  ghost predicate ParentSeen(rs: seq<Record>, i: nat)
    requires i < |rs|
  {
    Parent(rs[i].name) == ROOT || exists j :: 1 <= j < i && rs[j].name == Parent(rs[i].name) && rs[j].dir
  }

  ghost predicate Ordered(rs: seq<Record>) {
    forall i, j :: 1 <= i < j < |rs| ==> Less(rs[i].name, rs[j].name)
  }

  ghost predicate Parented(rs: seq<Record>) {
    forall i :: 1 <= i < |rs| ==> ParentSeen(rs, i)
  }

  // The archives `consume` accepts.
  ghost predicate Canonical(p: Plan, rs: seq<Record>) {
    && 0 < |rs| <= p.maxEntries
    && rs[0].name == ROOT && rs[0].dir
    && (forall i :: 0 <= i < |rs| ==> FieldsOk(rs[i]))
    && (forall i :: 1 <= i < |rs| ==> ValidPath(rs[i].name))
    && Ordered(rs)
    && Parented(rs)
    && Bytes(rs) <= p.maxBytes
  }

  // ---- Trees and their archives ----------------------------------------------------------

  // What any filesystem guarantees: an entry lies in a directory.
  ghost predicate Rooted(t: Tree) {
    forall n {:trigger Parent(n)} :: n in t.nodes ==>
      Parent(n) == ROOT || (Parent(n) in t.nodes && t.nodes[Parent(n)].Dir?)
  }

  predicate NodeOk(n: string, node: Node) {
    ValidPath(n) && !node.Other? && MetaOk(node.meta)
  }

  // The trees `export` carries.
  ghost predicate Supported(p: Plan, t: Tree) {
    && Rooted(t)
    && MetaOk(t.root)
    && (forall n :: n in t.nodes ==> NodeOk(n, t.nodes[n]))
    && 1 + |t.nodes| <= p.maxEntries
    && Bytes(Records(t)) <= p.maxBytes
  }

  function RecordOf(name: string, node: Node): Record
    requires !node.Other?
  {
    Record(name, node.Dir?, node.meta, if node.Dir? then "" else node.data)
  }

  // Other nodes never reach an archive; the totalised value is not used for them.
  function Entry(name: string, node: Node): Record {
    if node.Other? then Record(name, false, Meta(-1, -1, -1), "") else RecordOf(name, node)
  }

  function NodeOf(r: Record): Node {
    if r.dir then Dir(r.meta) else File(r.meta, r.data)
  }

  ghost function EntriesFor(nodes: map<string, Node>, names: seq<string>): (rs: seq<Record>)
    requires forall n :: n in names ==> n in nodes
    ensures |rs| == |names|
    ensures forall i :: 0 <= i < |names| ==> rs[i] == Entry(names[i], nodes[names[i]])
  {
    seq(|names|, i requires 0 <= i < |names| && names[i] in nodes => Entry(names[i], nodes[names[i]]))
  }

  // The archive of a tree: the root, then every entry in byte order of its path.
  ghost function Records(t: Tree): seq<Record> {
    [Record(ROOT, true, t.root, "")] + EntriesFor(t.nodes, SortedNames(t.nodes.Keys))
  }

  function BuildNodes(rs: seq<Record>): map<string, Node> {
    if rs == [] then map[]
    else BuildNodes(rs[..|rs| - 1])[rs[|rs| - 1].name := NodeOf(rs[|rs| - 1])]
  }

  // The tree of an archive.
  function Build(rs: seq<Record>): Tree
    requires rs != []
  {
    Tree(rs[0].meta, BuildNodes(rs[1..]))
  }

  // ---- Tree to archive and back ------------------------------------------------------------

  lemma {:induction false} BuildNodesLookup(rs: seq<Record>)
    requires forall i, j :: 0 <= i < j < |rs| ==> rs[i].name != rs[j].name
    ensures forall i :: 0 <= i < |rs| ==> rs[i].name in BuildNodes(rs) && BuildNodes(rs)[rs[i].name] == NodeOf(rs[i])
    ensures forall n :: n in BuildNodes(rs) ==> exists i :: 0 <= i < |rs| && rs[i].name == n
    decreases |rs|
  {
    hide NodeOf;
    if rs != [] {
      var k := |rs| - 1;
      BuildNodesLookup(rs[..k]);
      assert forall i :: 0 <= i < k ==> rs[..k][i] == rs[i];
      assert BuildNodes(rs) == BuildNodes(rs[..k])[rs[k].name := NodeOf(rs[k])];
      hide BuildNodes;
      forall n | n in BuildNodes(rs) ensures exists i :: 0 <= i < |rs| && rs[i].name == n {
        if n != rs[k].name {
          var i :| 0 <= i < k && rs[..k][i].name == n;
          assert rs[i].name == n;
        }
      }
    }
  }

  lemma EntriesRebuild(nodes: map<string, Node>, names: seq<string>)
    requires Lists(names, nodes.Keys)
    requires forall n :: n in nodes ==> !nodes[n].Other?
    ensures BuildNodes(EntriesFor(nodes, names)) == nodes
  {
    hide BuildNodes, Less;
    var rs := EntriesFor(nodes, names);
    var built := BuildNodes(rs);
    StrictlySortedDistinct(names);
    BuildNodesLookup(rs);
    forall n | n in nodes ensures n in built && built[n] == nodes[n] {
      assert n in names;
      var i :| 0 <= i < |names| && names[i] == n;
      assert rs[i].name == n;
    }
    forall n | n in built ensures n in nodes {
      var i :| 0 <= i < |rs| && rs[i].name == n;
      assert names[i] in names;
    }
  }

  // The receiver rebuilds the exported tree.
  lemma ExportThenBuild(t: Tree)
    requires forall n :: n in t.nodes ==> !t.nodes[n].Other?
    ensures Build(Records(t)) == t
  {
    var names := SortedNames(t.nodes.Keys);
    EntriesRebuild(t.nodes, names);
    assert Records(t)[1..] == EntriesFor(t.nodes, names);
  }

  lemma ParentLess(s: string)
    requires Parent(s) != ROOT || LastSlash(s) >= 0
    ensures Less(Parent(s), s)
  {
    assert Parent(s) < s;
    PrefixLess(Parent(s), s);
  }

  // In a sorted listing of a rooted tree the parent comes first.
  lemma ParentBefore(t: Tree, i: nat)
    requires Rooted(t) && 1 <= i < |Records(t)|
    requires forall n :: n in t.nodes ==> !t.nodes[n].Other?
    ensures ParentSeen(Records(t), i)
  {
    var rs := Records(t);
    var names := SortedNames(t.nodes.Keys);
    var n := names[i - 1];
    assert rs[i].name == n && n in names;
    if Parent(n) != ROOT {
      ParentLess(n);
      assert Parent(n) in names;
      var j :| 0 <= j < |names| && names[j] == Parent(n);
      if j >= i {
        LessTransitive(n, names[j], n);
        LessIrreflexive(n);
      } else if j == i - 1 {
        LessIrreflexive(n);
      }
      assert rs[j + 1].name == Parent(n) && rs[j + 1].dir;
    }
  }

  // Each record of an exported tree carries its entry's name and is well formed.
  lemma ExportedEntry(t: Tree, names: seq<string>, i: nat)
    requires names == SortedNames(t.nodes.Keys) && 1 <= i < |Records(t)|
    requires forall n :: n in t.nodes ==> NodeOk(n, t.nodes[n])
    ensures |Records(t)| == 1 + |names| && Records(t)[i].name == names[i - 1]
    ensures FieldsOk(Records(t)[i]) && ValidPath(Records(t)[i].name)
  {
    assert names[i - 1] in names;
    assert NodeOk(names[i - 1], t.nodes[names[i - 1]]);
  }

  // Every supported tree has an accepted archive.
  lemma ExportIsCanonical(p: Plan, t: Tree)
    requires Supported(p, t)
    ensures Canonical(p, Records(t))
  {
    hide ValidPath, MetaOk, Less, Bytes;
    var rs := Records(t);
    var names := SortedNames(t.nodes.Keys);
    ListsLength(names, t.nodes.Keys);
    assert |t.nodes| == |t.nodes.Keys|;
    assert forall n :: n in t.nodes ==> NodeOk(n, t.nodes[n]);
    forall i | 1 <= i < |rs|
      ensures FieldsOk(rs[i]) && ValidPath(rs[i].name) && rs[i].name == names[i - 1]
      ensures ParentSeen(rs, i)
    {
      ExportedEntry(t, names, i);
      ParentBefore(t, i);
    }
  }

  // ---- Archive to tree and back ------------------------------------------------------------

  function NamesOf(rs: seq<Record>): seq<string> {
    seq(|rs|, i requires 0 <= i < |rs| => rs[i].name)
  }

  // An accepted archive names each entry once, in order.
  lemma CanonicalNames(p: Plan, rs: seq<Record>)
    requires Canonical(p, rs)
    ensures Lists(NamesOf(rs[1..]), BuildNodes(rs[1..]).Keys)
    ensures forall i, j :: 1 <= i < j < |rs| ==> rs[i].name != rs[j].name
    ensures forall i :: 1 <= i < |rs| ==>
      rs[i].name in BuildNodes(rs[1..]) && BuildNodes(rs[1..])[rs[i].name] == NodeOf(rs[i])
  {
    hide FieldsOk, ValidPath, Less, Bytes, Parented, BuildNodes, NodeOf;
    var es := rs[1..];
    var names := NamesOf(es);
    forall i, j | 0 <= i < j < |es| ensures Less(names[i], names[j]) {
      assert Less(rs[i + 1].name, rs[j + 1].name);
    }
    StrictlySortedDistinct(names);
    forall i, j | 0 <= i < j < |es| ensures es[i].name != es[j].name {
      assert names[i] != names[j];
    }
    BuildNodesLookup(es);
    forall i | 1 <= i < |rs|
      ensures rs[i].name in BuildNodes(es) && BuildNodes(es)[rs[i].name] == NodeOf(rs[i])
    {
      assert rs[i] == es[i - 1];
    }
    forall i, j | 1 <= i < j < |rs| ensures rs[i].name != rs[j].name {
      assert es[i - 1].name != es[j - 1].name;
    }
    forall x ensures x in names <==> x in BuildNodes(es) {
      if x in BuildNodes(es) {
        var i :| 0 <= i < |es| && es[i].name == x;
        assert names[i] == x;
      }
      if x in names {
        var i :| 0 <= i < |names| && names[i] == x;
        assert es[i].name == x;
      }
    }
  }

  lemma EntriesAreRecords(nodes: map<string, Node>, es: seq<Record>)
    requires forall i :: 0 <= i < |es| ==>
      FieldsOk(es[i]) && es[i].name in nodes && nodes[es[i].name] == NodeOf(es[i])
    ensures forall n :: n in NamesOf(es) ==> n in nodes
    ensures EntriesFor(nodes, NamesOf(es)) == es
  {
    var names := NamesOf(es);
    forall n | n in names ensures n in nodes {
      var i :| 0 <= i < |names| && names[i] == n;
      assert es[i].name == n;
    }
    var out := EntriesFor(nodes, names);
    forall i | 0 <= i < |es| ensures out[i] == es[i] {
      assert names[i] == es[i].name;
    }
  }

  // Re-exporting the tree built from an accepted archive gives that archive again.
  lemma BuildThenExport(p: Plan, rs: seq<Record>)
    requires Canonical(p, rs)
    ensures Records(Build(rs)) == rs
  {
    hide BuildNodes, ValidPath, Less, Bytes, Parented, Ordered, MetaOk, Lists;
    var es := rs[1..];
    var nodes := BuildNodes(es);
    CanonicalNames(p, rs);
    ListsUnique(NamesOf(es), SortedNames(nodes.Keys), nodes.Keys);
    forall i | 0 <= i < |es|
      ensures FieldsOk(es[i]) && es[i].name in nodes && nodes[es[i].name] == NodeOf(es[i])
    {
      assert es[i] == rs[i + 1];
    }
    EntriesAreRecords(nodes, es);
    assert FieldsOk(rs[0]);
    assert rs == [rs[0]] + es;
  }

  // The tree built from an accepted archive is supported.
  lemma BuildIsSupported(p: Plan, rs: seq<Record>)
    requires Canonical(p, rs)
    ensures Supported(p, Build(rs))
  {
    hide ValidPath, MetaOk, Less, Records, Bytes;
    var es := rs[1..];
    var t := Build(rs);
    CanonicalNames(p, rs);
    BuildThenExport(p, rs);
    ListsLength(NamesOf(es), t.nodes.Keys);
    assert |t.nodes| == |t.nodes.Keys|;
    forall n | n in t.nodes
      ensures NodeOk(n, t.nodes[n])
      ensures Parent(n) == ROOT || (Parent(n) in t.nodes && t.nodes[Parent(n)].Dir?)
    {
      assert n in NamesOf(es);
      var i :| 0 <= i < |es| && NamesOf(es)[i] == n;
      assert rs[i + 1].name == n && FieldsOk(rs[i + 1]) && ValidPath(rs[i + 1].name);
      assert ParentSeen(rs, i + 1);
      if Parent(n) != ROOT {
        var j :| 1 <= j < i + 1 && rs[j].name == Parent(n) && rs[j].dir;
      }
    }
    assert FieldsOk(rs[0]);
  }

  // Accepted archives and supported trees are in bijection.
  lemma Bijection(p: Plan, rs: seq<Record>, t: Tree)
    ensures (Canonical(p, rs) && Build(rs) == t) <==> (Supported(p, t) && Records(t) == rs)
  {
    if Canonical(p, rs) && Build(rs) == t {
      BuildIsSupported(p, rs);
      BuildThenExport(p, rs);
    }
    if Supported(p, t) && Records(t) == rs {
      ExportIsCanonical(p, t);
      assert forall n :: n in t.nodes ==> NodeOk(n, t.nodes[n]);
      ExportThenBuild(t);
    }
  }
}
