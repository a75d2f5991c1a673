/**
  * What an accepted dump and its proof mean: internal/mysqlcopy/stream.go read
  * together with `sameProof` and the table checks of internal/mysqlcopy/executor.go.
  */
module SqlProof {
  import opened Options
  import opened Text
  import opened SqlLexer
  import opened SqlTracker
  import Schema

  // ---- Chunk independence ----------------------------------------------------------

  lemma {:induction false} FeedAppend(p: Plan, core: Core, a: string, b: string)
    ensures Feed(p, core, a + b) ==
            match Feed(p, core, a)
            case Refused(why) => Refused(why)
            case Ok(next) => Feed(p, next, b)
    decreases |a|
  {
    if a == "" {
      assert a + b == b;
    } else {
      assert (a + b)[0] == a[0] && (a + b)[1..] == a[1..] + b;
      var step := FeedByte(p, core, a[0]);
      if step.Ok? { FeedAppend(p, step.value, a[1..], b); }
    }
  }

  // Consecutive Write calls, stopping at the first refusal.
  ghost function WrittenEach(p: Plan, st: State, chunks: seq<string>): Result<State>
    decreases |chunks|
  {
    if chunks == [] then (if st.failed then Refused(AlreadyFailed) else Ok(st))
    else
      match Written(p, st, chunks[0])
      case Refused(why) => Refused(why)
      case Ok(next) => WrittenEach(p, next, chunks[1..])
  }

  lemma WrittenAppend(p: Plan, st: State, a: string, b: string)
    requires st.bytes <= p.maxBytes
    ensures Written(p, st, a).Refused? ==> Written(p, st, a + b).Refused?
    ensures Written(p, st, a).Ok? ==>
              var next := Written(p, st, a).value;
              && next.bytes <= p.maxBytes && !next.failed
              && Written(p, next, b).Ok? == Written(p, st, a + b).Ok?
              && (Written(p, next, b).Ok? ==> Written(p, next, b) == Written(p, st, a + b))
  {
    hide Feed;
    FeedAppend(p, st.core, a, b);
    assert (st.hash + a) + b == st.hash + (a + b);
  }

  // However a stream is cut, the tracker gives the verdict and reaches the
  // state of one single Write of the whole.
  lemma {:induction false} ChunkIndependence(p: Plan, st: State, chunks: seq<string>)
    requires !st.failed && st.bytes <= p.maxBytes
    ensures WrittenEach(p, st, chunks).Ok? == Written(p, st, Concat(chunks)).Ok?
    ensures WrittenEach(p, st, chunks).Ok? ==> WrittenEach(p, st, chunks) == Written(p, st, Concat(chunks))
    decreases |chunks|
  {
    if chunks == [] {
      assert st.hash + "" == st.hash;
    } else {
      WrittenAppend(p, st, chunks[0], Concat(chunks[1..]));
      var step := Written(p, st, chunks[0]);
      if step.Ok? { ChunkIndependence(p, step.value, chunks[1..]); }
    }
  }

  // The chunks of a command's output, written as they arrive.
  method Stream(t: Tracker, chunks: seq<string>) returns (ok: bool)
    requires !t.failed && t.bytes <= t.plan.maxBytes
    modifies t
    ensures ok == Written(t.plan, old(t.View()), Concat(chunks)).Ok?
    ensures ok ==> t.View() == Written(t.plan, old(t.View()), Concat(chunks)).value
    ensures !ok ==> Finished(t.View()) == None
  {
    ChunkIndependence(t.plan, t.View(), chunks);
    ok := true;
    for i := 0 to |chunks|
      invariant !t.failed
      invariant WrittenEach(t.plan, old(t.View()), chunks) == WrittenEach(t.plan, t.View(), chunks[i..])
    {
      assert chunks[i..][1..] == chunks[i + 1..];
      ok := t.Write(chunks[i]);
      if !ok { return; }
    }
  }

  // ---- A run of bytes is a run of statements --------------------------------------------

  ghost function Run(p: Plan, cat: Catalog, stmts: seq<string>): Option<Catalog>
    decreases |stmts|
  {
    if stmts == [] then Some(cat)
    else
      match Accept(p, cat, stmts[0])
      case None => None
      case Some(next) => Run(p, next, stmts[1..])
  }

  lemma RunSnoc(p: Plan, cat: Catalog, stmts: seq<string>, s: string)
    ensures Run(p, cat, stmts + [s]) ==
            match Run(p, cat, stmts)
            case None => None
            case Some(next) => Accept(p, next, s)
    decreases |stmts|
  {
    if stmts != [] {
      assert (stmts + [s])[1..] == stmts[1..] + [s];
      var step := Accept(p, cat, stmts[0]);
      if step.Some? { RunSnoc(p, step.value, stmts[1..], s); }
    }
  }

  // The lexer state always is the one the pending bytes lead to.
  ghost predicate Coherent(core: Core) {
    core.lex == Scan(CLEAN, core.pending) && Open(core.pending)
  }

  lemma FeedByteCoherent(p: Plan, core: Core, c: char)
    requires Coherent(core) && FeedByte(p, core, c).Ok?
    ensures Coherent(FeedByte(p, core, c).value)
  {
    OpenSnoc(core.pending, c);
    ScanSnoc(CLEAN, core.pending, c);
  }

  // An accepted stream is exactly an accepted list of whole statements and a rest.
  lemma {:induction false} FeedIsRun(p: Plan, core: Core, b: string)
    requires Coherent(core) && Feed(p, core, b).Ok?
    ensures var after := Feed(p, core, b).value;
            && Coherent(after)
            && after.pending == Remainder(core.pending, b)
            && Run(p, core.cat, Statements(core.pending, b)) == Some(after.cat)
    decreases |b|
  {
    if b != "" {
      var next := FeedByte(p, core, b[0]).value;
      FeedByteCoherent(p, core, b[0]);
      FeedIsRun(p, next, b[1..]);
      if b[0] == ';' && core.lex == CLEAN {
        var stmts := Statements(core.pending, b);
        assert stmts[0] == core.pending + [';'] && stmts[1..] == Statements("", b[1..]);
      }
    }
  }

  // ---- The logical content of a list of statements ----------------------------------------

  predicate IsCreateOf(raw: string, t: string) {
    var s := TrimSpace(raw);
    !("/*!" <= s) && CreatedTable(s) != "" && CreatedTable(s) == t
  }

  predicate IsInsertInto(raw: string, t: string) {
    var s := TrimSpace(raw);
    !("/*!" <= s) && CreatedTable(s) == "" && InsertedTable(s) != "" && InsertedTable(s) == t
  }

  // The INSERT statements of a table, in order and without surrounding white space.
  function InsertsInto(stmts: seq<string>, t: string): seq<string> {
    if stmts == [] then []
    else
      var n := |stmts| - 1;
      InsertsInto(stmts[..n], t) + if IsInsertInto(stmts[n], t) then [TrimSpace(stmts[n])] else []
  }

  // The normalised CREATE statements of a table.
  function SchemasOf(stmts: seq<string>, t: string): seq<string> {
    if stmts == [] then []
    else
      var n := |stmts| - 1;
      SchemasOf(stmts[..n], t) + if IsCreateOf(stmts[n], t) then [Schema.Normalize(TrimSpace(stmts[n]))] else []
  }

  // The catalogue records one schema and the ordered rows of each created table.
  ghost predicate Records(cat: Catalog, stmts: seq<string>, t: string) {
    var schemas, inserts := SchemasOf(stmts, t), InsertsInto(stmts, t);
    if t in cat.tables then
      && |schemas| == 1
      && cat.tables[t] == Table(schemas[0], |inserts|, Concat(inserts))
    else schemas == [] && inserts == []
  }

  lemma ConcatSnoc(xs: seq<string>, x: string)
    ensures Concat(xs + [x]) == Concat(xs) + x
  {
    ConcatAppend(xs, [x]);
    assert Concat([x]) == x + Concat([]);
  }

  lemma Snoc(stmts: seq<string>, s: string, t: string)
    ensures InsertsInto(stmts + [s], t) == InsertsInto(stmts, t) + if IsInsertInto(s, t) then [TrimSpace(s)] else []
    ensures SchemasOf(stmts + [s], t) ==
            SchemasOf(stmts, t) + if IsCreateOf(s, t) then [Schema.Normalize(TrimSpace(s))] else []
  {
    assert (stmts + [s])[..|stmts|] == stmts;
  }

  lemma RecordsStep(p: Plan, cat: Catalog, stmts: seq<string>, s: string, t: string)
    requires Records(cat, stmts, t) && Accept(p, cat, s).Some?
    ensures Records(Accept(p, cat, s).value, stmts + [s], t)
  {
    hide InsertsInto, SchemasOf, TrimSpace, Forbidden, EngineAllowed, SingleTuple, IsSessionSet, Schema.Normalize;
    Snoc(stmts, s, t);
    var inserts := InsertsInto(stmts, t);
    if IsInsertInto(s, t) {
      ConcatSnoc(inserts, TrimSpace(s));
      assert InsertsInto(stmts + [s], t) == inserts + [TrimSpace(s)];
      assert SchemasOf(stmts + [s], t) == SchemasOf(stmts, t);
    } else {
      assert InsertsInto(stmts + [s], t) == inserts;
    }
  }

  lemma {:induction false} RunRecords(p: Plan, stmts: seq<string>, t: string)
    requires Run(p, EMPTY, stmts).Some?
    ensures Records(Run(p, EMPTY, stmts).value, stmts, t)
    decreases |stmts|
  {
    hide Accept;
    if stmts != [] {
      var n := |stmts| - 1;
      assert stmts == stmts[..n] + [stmts[n]];
      RunSnoc(p, EMPTY, stmts[..n], stmts[n]);
      RunRecords(p, stmts[..n], t);
      RecordsStep(p, Run(p, EMPTY, stmts[..n]).value, stmts[..n], stmts[n], t);
    }
  }

  lemma InsertsDelimited(stmts: seq<string>, t: string)
    requires forall s :: s in stmts ==> Delimited(s)
    ensures forall x :: x in InsertsInto(stmts, t) ==> Delimited(x)
  {
    if stmts != [] {
      var n := |stmts| - 1;
      assert stmts[n] in stmts;
      TrimDelimited(stmts[n]);
      InsertsDelimited(stmts[..n], t);
    }
  }

  // ---- Equal proofs mean equal data ----------------------------------------------------------

  predicate SameProof(a: Proof, b: Proof) {
    a.tables == b.tables
  }

  // What the bytes of a dump say: per table its normalised schema and ordered rows.
  ghost predicate SameContent(a: string, b: string) {
    forall t :: SameTable(Statements("", a), Statements("", b), t)
  }

  ghost predicate SameTable(a: seq<string>, b: seq<string>, t: string) {
    SchemasOf(a, t) == SchemasOf(b, t) && InsertsInto(a, t) == InsertsInto(b, t)
  }

  // The proof a fresh tracker gives for a whole stream.
  ghost function ProofFor(p: Plan, b: string): Option<Proof> {
    match Written(p, FRESH, b)
    case Refused(_) => None
    case Ok(st) => Finished(st)
  }

  ghost function CatalogFor(p: Plan, b: string): Catalog
    requires ProofFor(p, b).Some?
  {
    Written(p, FRESH, b).value.core.cat
  }

  lemma ProofRecords(p: Plan, b: string, t: string)
    requires ProofFor(p, b).Some?
    ensures Records(CatalogFor(p, b), Statements("", b), t)
    ensures forall x :: x in InsertsInto(Statements("", b), t) ==> Delimited(x)
  {
    FeedIsRun(p, START, b);
    RunRecords(p, Statements("", b), t);
    SplitDelimited("", b);
    InsertsDelimited(Statements("", b), t);
  }

  // The table list of a proof and the catalogue determine each other.
  lemma ProofsAreCatalog(a: map<string, Table>, b: map<string, Table>)
    ensures TableProofs(a, SortedNames(a.Keys)) == TableProofs(b, SortedNames(b.Keys)) <==> a == b
  {
    var xs, ys := SortedNames(a.Keys), SortedNames(b.Keys);
    var ra, rb := TableProofs(a, xs), TableProofs(b, ys);
    if ra == rb {
      assert |xs| == |ys|;
      forall i | 0 <= i < |xs| ensures xs[i] == ys[i] && a[xs[i]] == b[xs[i]] {
        assert xs[i] in xs && ys[i] in ys;
        assert ra[i] == rb[i];
      }
      assert xs == ys;
      assert a.Keys == b.Keys;
      forall k | k in a ensures a[k] == b[k] {
        assert k in xs;
        var i :| 0 <= i < |xs| && xs[i] == k;
      }
    }
  }

  lemma {:induction false} SameTableFromRecords(c: Catalog, d: Catalog, a: seq<string>, b: seq<string>, t: string)
    requires Records(c, a, t) && Records(d, b, t)
    requires forall x :: x in InsertsInto(a, t) ==> Delimited(x)
    requires forall x :: x in InsertsInto(b, t) ==> Delimited(x)
    ensures SameTable(a, b, t) <==>
      (t in c.tables <==> t in d.tables) && (t in c.tables ==> c.tables[t] == d.tables[t])
  {
    if t in c.tables && t in d.tables && c.tables[t] == d.tables[t] {
      ConcatDecodes(InsertsInto(a, t), InsertsInto(b, t));
    }
  }

  // Two accepted dumps have the same proof exactly when they create the same
  // tables with the same normalised schemas and the same rows in the same order.
  lemma ProofEquality(p: Plan, q: Plan, a: string, b: string)
    requires ProofFor(p, a).Some? && ProofFor(q, b).Some?
    ensures SameProof(ProofFor(p, a).value, ProofFor(q, b).value) <==> SameContent(a, b)
  {
    var c, d := CatalogFor(p, a), CatalogFor(q, b);
    var sa, sb := Statements("", a), Statements("", b);
    ProofsAreCatalog(c.tables, d.tables);
    forall t
      ensures SameTable(sa, sb, t) <==>
        (t in c.tables <==> t in d.tables) && (t in c.tables ==> c.tables[t] == d.tables[t])
    {
      ProofRecords(p, a, t);
      ProofRecords(q, b, t);
      SameTableFromRecords(c, d, sa, sb, t);
    }
    if SameContent(a, b) {
      forall t ensures (t in c.tables <==> t in d.tables) && (t in c.tables ==> c.tables[t] == d.tables[t]) {
        assert SameTable(sa, sb, t);
      }
      assert c.tables == d.tables;
    }
  }
}
