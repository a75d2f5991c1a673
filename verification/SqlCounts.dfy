/**
  * The counters of internal/mysqlcopy/stream.go and the table checks that
  * internal/mysqlcopy/executor.go makes on a proof.
  */
module SqlCounts {
  import opened Options
  import opened Text
  import opened SqlLexer
  import opened SqlTracker
  import opened SqlProof
  import Schema

  predicate IsInsert(raw: string) {
    var s := TrimSpace(raw);
    !("/*!" <= s) && CreatedTable(s) == "" && InsertedTable(s) != ""
  }

  function InsertCount(stmts: seq<string>): nat {
    if stmts == [] then 0
    else InsertCount(stmts[..|stmts| - 1]) + if IsInsert(stmts[|stmts| - 1]) then 1 else 0
  }

  function RowSum(tables: seq<TableProof>): nat {
    if tables == [] then 0 else RowSum(tables[..|tables| - 1]) + tables[|tables| - 1].rows
  }

  // ---- Limits --------------------------------------------------------------------------

  lemma {:induction false} RunLimits(p: Plan, stmts: seq<string>)
    requires Run(p, EMPTY, stmts).Some?
    ensures var cat := Run(p, EMPTY, stmts).value;
            && cat.rows == InsertCount(stmts) <= p.maxRows
            && |cat.tables| <= p.maxTables
    decreases |stmts|
  {
    hide Accept, IsInsert;
    if stmts != [] {
      var n := |stmts| - 1;
      var s := stmts[n];
      assert stmts == stmts[..n] + [s];
      RunSnoc(p, EMPTY, stmts[..n], s);
      RunLimits(p, stmts[..n]);
      StepLimits(p, Run(p, EMPTY, stmts[..n]).value, s);
    }
  }

  lemma StepLimits(p: Plan, cat: Catalog, s: string)
    requires Accept(p, cat, s).Some? && |cat.tables| <= p.maxTables && cat.rows <= p.maxRows
    ensures var next := Accept(p, cat, s).value;
            && next.rows == cat.rows + (if IsInsert(s) then 1 else 0)
            && next.rows <= p.maxRows && |next.tables| <= p.maxTables
  {
    hide IsSessionSet, CreatedTable, InsertedTable, TrimSpace, Forbidden, EngineAllowed, SingleTuple, Schema.Normalize;
    var t := TrimSpace(s);
    var next := Accept(p, cat, s).value;
    if !("/*!" <= t) {
      if CreatedTable(t) != "" {
        assert next.tables.Keys == cat.tables.Keys + {CreatedTable(t)};
        assert |next.tables.Keys| == |cat.tables.Keys| + 1;
      } else {
        assert next.tables.Keys == cat.tables.Keys;
        assert |next.tables.Keys| == |cat.tables.Keys|;
      }
    }
  }

  // ---- Every INSERT follows its one CREATE --------------------------------------------------

  lemma SchemasNonempty(stmts: seq<string>, t: string) returns (j: nat)
    requires SchemasOf(stmts, t) != []
    ensures j < |stmts| && IsCreateOf(stmts[j], t)
  {
    var n := |stmts| - 1;
    if IsCreateOf(stmts[n], t) {
      j := n;
    } else {
      j := SchemasNonempty(stmts[..n], t);
    }
  }

  lemma {:induction false} CreateIsUnique(stmts: seq<string>, t: string, j: nat, k: nat)
    requires |SchemasOf(stmts, t)| <= 1
    requires j < |stmts| && k < |stmts| && IsCreateOf(stmts[j], t) && IsCreateOf(stmts[k], t)
    ensures j == k
    decreases |stmts|
  {
    var n := |stmts| - 1;
    if j < n && k < n {
      CreateIsUnique(stmts[..n], t, j, k);
    } else if j < n {
      SchemasHold(stmts[..n], t, j);
    } else if k < n {
      SchemasHold(stmts[..n], t, k);
    }
  }

  lemma SchemasHold(stmts: seq<string>, t: string, j: nat)
    requires j < |stmts| && IsCreateOf(stmts[j], t)
    ensures SchemasOf(stmts, t) != []
  {
    var n := |stmts| - 1;
    if j < n { SchemasHold(stmts[..n], t, j); }
  }

  lemma InsertsHold(stmts: seq<string>, t: string, i: nat)
    requires i < |stmts| && IsInsertInto(stmts[i], t)
    ensures InsertsInto(stmts, t) != []
  {
    var n := |stmts| - 1;
    if i < n { InsertsHold(stmts[..n], t, i); }
  }

  // A prefix of an accepted run is accepted.
  lemma RunPrefix(p: Plan, stmts: seq<string>, n: nat)
    requires Run(p, EMPTY, stmts).Some? && n <= |stmts|
    ensures Run(p, EMPTY, stmts[..n]).Some?
    decreases |stmts|
  {
    hide Accept;
    if n < |stmts| {
      var m := |stmts| - 1;
      assert stmts == stmts[..m] + [stmts[m]];
      RunSnoc(p, EMPTY, stmts[..m], stmts[m]);
      RunPrefix(p, stmts[..m], n);
      assert stmts[..m][..n] == stmts[..n];
    } else {
      assert stmts[..n] == stmts;
    }
  }

  lemma NotBoth(raw: string, t: string)
    ensures !(IsCreateOf(raw, t) && IsInsertInto(raw, t))
  {}

  // In an accepted run each INSERT has one CREATE of its table, and comes after it.
  lemma InsertFollowsCreate(p: Plan, stmts: seq<string>, i: nat, t: string) returns (j: nat)
    requires Run(p, EMPTY, stmts).Some?
    requires i < |stmts| && IsInsertInto(stmts[i], t)
    ensures j < i && IsCreateOf(stmts[j], t)
    ensures forall k: nat :: k < |stmts| && IsCreateOf(stmts[k], t) ==> k == j
  {
    hide Run, IsCreateOf, IsInsertInto, InsertsInto, SchemasOf;
    RunPrefix(p, stmts, i + 1);
    RunRecords(p, stmts[..i + 1], t);
    InsertsHold(stmts[..i + 1], t, i);
    j := SchemasNonempty(stmts[..i + 1], t);
    NotBoth(stmts[i], t);
    RunRecords(p, stmts, t);
    forall k: nat | k < |stmts| && IsCreateOf(stmts[k], t) ensures k == j {
      CreateIsUnique(stmts, t, j, k);
    }
  }

  // ---- Total rows are the sum of the rows per table ------------------------------------------

  function InsertSum(stmts: seq<string>, names: seq<string>): nat {
    if names == [] then 0
    else InsertSum(stmts, names[..|names| - 1]) + |InsertsInto(stmts, names[|names| - 1])|
  }

  ghost predicate Distinct(names: seq<string>) {
    forall i, j :: 0 <= i < j < |names| ==> names[i] != names[j]
  }

  // One more statement adds one to the sum over distinct names if it inserts into one of them.
  lemma {:induction false} InsertSumSnoc(stmts: seq<string>, s: string, names: seq<string>)
    requires Distinct(names)
    ensures InsertSum(stmts + [s], names) ==
            InsertSum(stmts, names) + if exists t :: t in names && IsInsertInto(s, t) then 1 else 0
    decreases |names|
  {
    if names != [] {
      var n := |names| - 1;
      InsertSumSnoc(stmts, s, names[..n]);
      Snoc(stmts, s, names[n]);
      assert names == names[..n] + [names[n]];
      if IsInsertInto(s, names[n]) {
        assert names[n] in names;
        forall t | t in names[..n] ensures !IsInsertInto(s, t) {}
      } else if exists t :: t in names && IsInsertInto(s, t) {
        var t :| t in names && IsInsertInto(s, t);
        assert t in names[..n];
      }
    }
  }

  lemma {:induction false} InsertSumIsCount(stmts: seq<string>, names: seq<string>)
    requires Distinct(names)
    requires forall i, t :: 0 <= i < |stmts| && IsInsertInto(stmts[i], t) ==> t in names
    ensures InsertSum(stmts, names) == InsertCount(stmts)
    decreases |stmts|
  {
    if stmts == [] {
      NoInserts(names);
    } else {
      var n := |stmts| - 1;
      var s := stmts[n];
      InsertSumIsCount(stmts[..n], names);
      InsertSumSnoc(stmts[..n], s, names);
      assert stmts == stmts[..n] + [s];
      if IsInsert(s) { assert IsInsertInto(s, InsertedTable(TrimSpace(s))); }
    }
  }

  lemma NoInserts(names: seq<string>)
    ensures InsertSum([], names) == 0
  {}

  lemma {:induction false} RowSumIsInsertSum(tables: map<string, Table>, names: seq<string>, stmts: seq<string>)
    requires forall n :: n in names ==> n in tables && tables[n].rows == |InsertsInto(stmts, n)|
    ensures RowSum(TableProofs(tables, names)) == InsertSum(stmts, names)
    decreases |names|
  {
    hide InsertsInto, TableProofs;
    if names != [] {
      var n := |names| - 1;
      var all := TableProofs(tables, names);
      RowSumIsInsertSum(tables, names[..n], stmts);
      assert names[n] in names && all[n].rows == tables[names[n]].rows;
      ProofsPrefix(tables, names, n);
    }
  }

  lemma ProofsPrefix(tables: map<string, Table>, names: seq<string>, n: nat)
    requires n <= |names| && forall x :: x in names ==> x in tables
    ensures TableProofs(tables, names)[..n] == TableProofs(tables, names[..n])
  {}

  // The proof of an accepted dump: its row counts add up to the number of INSERT
  // statements, within the plan's limits, and it lists each table once in name order.
  lemma ProofCounts(p: Plan, b: string)
    requires ProofFor(p, b).Some?
    ensures var proof := ProofFor(p, b).value;
            && RowSum(proof.tables) == InsertCount(Statements("", b)) <= p.maxRows
            && 0 < |proof.tables| <= p.maxTables
            && proof.bytes == |b| <= p.maxBytes
            && proof.hash == b
            && StrictlySorted(Names(proof.tables))
            && Elements(Names(proof.tables)) == CatalogFor(p, b).tables.Keys
  {
    var stmts := Statements("", b);
    var tables := CatalogFor(p, b).tables;
    var names := SortedNames(tables.Keys);
    FeedIsRun(p, START, b);
    RunLimits(p, stmts);
    ListsLength(names, tables.Keys);
    StrictlySortedDistinct(names);
    forall t ensures Records(CatalogFor(p, b), stmts, t) { ProofRecords(p, b, t); }
    forall i, t | 0 <= i < |stmts| && IsInsertInto(stmts[i], t) ensures t in names {
      InsertsHold(stmts, t, i);
      assert Records(CatalogFor(p, b), stmts, t);
    }
    InsertSumIsCount(stmts, names);
    forall n | n in names ensures n in tables && tables[n].rows == |InsertsInto(stmts, n)| {
      assert Records(CatalogFor(p, b), stmts, n);
    }
    RowSumIsInsertSum(tables, names, stmts);
    assert Names(TableProofs(tables, names)) == names;
    assert "" + b == b;
  }

  // ---- The table list of the source ---------------------------------------------------------

  function Names(tables: seq<TableProof>): seq<string> {
    seq(|tables|, i requires 0 <= i < |tables| => tables[i].name)
  }

  // Equal lengths and one-way containment force the two table sets to be equal.
  lemma TableSetsEqual(proof: seq<TableProof>, source: seq<string>)
    requires StrictlySorted(Names(proof))
    requires Distinct(source)
    ensures |proof| == |source| && (forall n :: n in source ==> n in Names(proof))
       <==> Elements(Names(proof)) == Elements(source)
  {
    var a, b := Elements(Names(proof)), Elements(source);
    ListsLength(Names(proof), a);
    DistinctCount(source);
    if |proof| == |source| && forall n :: n in source ==> n in Names(proof) {
      assert b <= a;
      SubsetOfEqualSize(b, a);
    }
    assert a == b ==> forall n :: n in source ==> n in a;
  }

  lemma DistinctCount(xs: seq<string>)
    requires Distinct(xs)
    ensures |Elements(xs)| == |xs|
  {
    if xs != [] {
      var n := |xs| - 1;
      DistinctCount(xs[..n]);
      assert xs == xs[..n] + [xs[n]];
      assert Elements(xs) == Elements(xs[..n]) + {xs[n]};
    }
  }

  lemma SubsetOfEqualSize(b: set<string>, a: set<string>)
    requires b <= a && |a| == |b|
    ensures a == b
  {
    assert a == b + (a - b);
    assert |a| == |b| + |a - b|;
  }
}
