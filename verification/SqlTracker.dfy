/**
  * internal/mysqlcopy/stream.go: the dump validator.
  *
  * `Accept` is the rule for one statement, `Feed` the rule for a run of bytes,
  * and class `Tracker` the incremental code.  A digest is represented by the
  * bytes fed to it.
  */
module SqlTracker {
  import opened Options
  import opened Text
  import opened SqlLexer
  import Schema

  datatype Refusal = AlreadyFailed | ByteLimit | StatementLimit | BadStatement
  datatype Result<+T> = Ok(value: T) | Refused(why: Refusal)

  datatype Plan = Plan(maxBytes: nat, maxStatement: nat, maxTables: nat, maxRows: nat, quiescence: bool)

  // schema: the normalised CREATE statement; stream: the bytes hashed row by row.
  datatype Table = Table(schema: string, rows: nat, stream: string)
  datatype Catalog = Catalog(tables: map<string, Table>, rows: nat)

  const EMPTY := Catalog(map[], 0)

  // ---- Recognising one statement -----------------------------------------------

  predicate IsLetter(c: char) {
    'A' <= c <= 'Z' || 'a' <= c <= 'z'
  }

  predicate IsWord(c: char) {
    IsLetter(c) || IsDigit(c) || c == '_'
  }

  function WordEnd(s: string, from: nat): (e: nat)
    requires from <= |s|
    ensures from <= e <= |s|
    decreases |s| - from
  {
    if from < |s| && IsWord(s[from]) then WordEnd(s, from + 1) else from
  }

  // The identifier in `keyword` + "name` ", or "" when s does not start that way.
  function NameAfter(keyword: string, s: string): string {
    if !(keyword <= s) then ""
    else
      var from := |keyword|;
      var e := WordEnd(s, from);
      if from < e <= from + 64 && IsLetter(s[from]) && OccursAt(s, "` ", e) then s[from..e] else ""
  }

  function CreatedTable(s: string): string {
    NameAfter("CREATE TABLE `", s)
  }

  function InsertedTable(s: string): string {
    NameAfter("INSERT INTO `", s)
  }

  predicate IsGap(c: char) {
    c == ' ' || c == '\t' || c == '\n' || c == '\U{0C}' || c == '\r'
  }

  function GapEnd(s: string): (e: nat)
    ensures e <= |s|
  {
    if s != "" && IsGap(s[0]) then 1 + GapEnd(s[1..]) else 0
  }

  // left, white space, "=", white space, right.
  predicate IsAssignment(s: string, left: string, right: string) {
    && left <= s
    && var rest := s[|left|..];
    && var n := GapEnd(rest);
    && 0 < n < |rest| && rest[n] == '='
    && var tail := rest[n + 1..];
    && var m := GapEnd(tail);
    && 0 < m && tail[m..] == right
  }

  // The session-only SET wrappers of mysqldump.
  predicate IsSessionSet(s: string) {
    && |s| >= 17
    && s[..3] == "/*!"
    && (forall k :: 3 <= k < 8 ==> IsDigit(s[k]))
    && s[8..13] == " SET "
    && s[|s| - 4..] == " */;"
    && var body := s[13..|s| - 4];
    || IsAssignment(body, "@saved_cs_client", "@@character_set_client")
    || IsAssignment(body, "character_set_client", "utf8mb4")
    || IsAssignment(body, "character_set_client", "@saved_cs_client")
  }

  predicate Forbidden(upper: string) {
    || Contains(upper, "DATA DIRECTORY") || Contains(upper, "INDEX DIRECTORY")
    || Contains(upper, "TABLESPACE") || Contains(upper, "DEFINER")
    || Contains(upper, "SELECT ") || Contains(upper, "/*")
  }

  predicate EngineAllowed(p: Plan, upper: string) {
    || Contains(upper, "ENGINE=INNODB")
    || (p.quiescence && (Contains(upper, "ENGINE=MYISAM") || Contains(upper, "ENGINE=MEMORY")))
  }

  // ---- A single tuple of values ---------------------------------------------------

  // The unquoted parenthesis at k brings the depth back to zero.
  predicate Closes(s: string, k: nat) {
    && k < |s| && s[k] == ')'
    && Scan(CLEAN, s[..k]) == CLEAN
    && Depth(CLEAN, s[..k + 1]) <= 0
  }

  // k is the first parenthesis to bring the depth to zero or below.
  ghost predicate FirstClose(s: string, k: nat) {
    Closes(s, k) && forall j: nat :: j < k ==> !Closes(s, j)
  }

  // One parenthesised group and then nothing but the semicolon.
  ghost predicate SingleTuple(s: string) {
    exists k: nat :: FirstClose(s, k) && Depth(CLEAN, s[..k + 1]) == 0 && TrimSpace(s[k + 1..]) == ";"
  }

  method SingleValuesTuple(s: string) returns (r: bool)
    ensures r == SingleTuple(s)
  {
    var depth := 0;
    var quote := NONE;
    var escape := false;
    var i := 0;
    while i < |s|
      invariant 0 <= i <= |s|
      invariant Lex(quote, escape) == Scan(CLEAN, s[..i])
      invariant depth == Depth(CLEAN, s[..i])
      invariant forall j: nat :: j < i ==> !Closes(s, j)
    {
      var c := s[i];
      assert s[..i + 1] == s[..i] + [c];
      ScanSnoc(CLEAN, s[..i], c);
      DepthSnoc(CLEAN, s[..i], c);
      if escape {
        escape := false;
      } else if quote != NONE {
        if c == '\\' {
          escape := true;
        } else if c == quote {
          quote := NONE;
        }
      } else if IsQuote(c) {
        quote := c;
      } else if c == '(' {
        depth := depth + 1;
      } else if c == ')' {
        depth := depth - 1;
        if depth <= 0 {
          assert FirstClose(s, i);
          r := depth == 0 && TrimSpace(s[i + 1..]) == ";";
          return;
        }
      }
      i := i + 1;
    }
    r := false;
  }

  // ---- One statement -----------------------------------------------------------------

  ghost predicate CreateAllowed(p: Plan, cat: Catalog, s: string) {
    && |cat.tables| < p.maxTables
    && CreatedTable(s) !in cat.tables
    && !Forbidden(ToUpper(s))
    && EngineAllowed(p, ToUpper(s))
  }

  ghost predicate InsertAllowed(p: Plan, cat: Catalog, s: string) {
    && InsertedTable(s) in cat.tables
    && cat.rows < p.maxRows
    && var i := Index(s, " VALUES (");
    && i >= 0 && SingleTuple(s[i + 8..])
  }

  function WithTable(cat: Catalog, s: string): Catalog {
    cat.(tables := cat.tables[CreatedTable(s) := Table(Schema.Normalize(s), 0, "")])
  }

  function WithRow(cat: Catalog, s: string): Catalog
    requires InsertedTable(s) in cat.tables
  {
    var v := cat.tables[InsertedTable(s)];
    Catalog(cat.tables[InsertedTable(s) := v.(rows := v.rows + 1, stream := v.stream + s)], cat.rows + 1)
  }

  // What a whole statement does to the catalogue, or None when it is refused.
  ghost function Accept(p: Plan, cat: Catalog, raw: string): Option<Catalog> {
    var s := TrimSpace(raw);
    if "/*!" <= s then (if IsSessionSet(s) then Some(cat) else None)
    else if CreatedTable(s) != "" then
      if CreateAllowed(p, cat, s) then Some(WithTable(cat, s)) else None
    else if InsertedTable(s) != "" then
      if InsertAllowed(p, cat, s) then Some(WithRow(cat, s)) else None
    else None
  }

  // ---- A run of bytes ------------------------------------------------------------------

  datatype Core = Core(pending: string, lex: Lex, cat: Catalog)

  const START := Core("", CLEAN, EMPTY)

  ghost function FeedByte(p: Plan, core: Core, c: char): Result<Core> {
    if |core.pending| >= p.maxStatement then Refused(StatementLimit)
    else if c == ';' && core.lex == CLEAN then
      match Accept(p, core.cat, core.pending + [c])
      case None => Refused(BadStatement)
      case Some(cat) => Ok(Core("", CLEAN, cat))
    else Ok(Core(core.pending + [c], Step(core.lex, c), core.cat))
  }

  ghost function Feed(p: Plan, core: Core, b: string): Result<Core>
    decreases |b|
  {
    if b == "" then Ok(core)
    else
      match FeedByte(p, core, b[0])
      case Refused(why) => Refused(why)
      case Ok(next) => Feed(p, next, b[1..])
  }

  // bytes and hash describe the raw stream; core is the lexer and the catalogue.
  datatype State = State(bytes: nat, hash: string, core: Core, failed: bool)

  const FRESH := State(0, "", START, false)

  ghost function Written(p: Plan, st: State, b: string): Result<State> {
    if st.failed then Refused(AlreadyFailed)
    else if |b| > p.maxBytes - st.bytes then Refused(ByteLimit)
    else
      match Feed(p, st.core, b)
      case Refused(why) => Refused(why)
      case Ok(core) => Ok(State(st.bytes + |b|, st.hash + b, core, false))
  }

  // ---- The proof a finished tracker hands out -------------------------------------------

  datatype TableProof = TableProof(name: string, rows: nat, schema: string, stream: string)
  datatype Proof = Proof(bytes: nat, hash: string, tables: seq<TableProof>)

  predicate Finishable(st: State) {
    && !st.failed
    && st.core.lex.quote == NONE
    && TrimSpace(st.core.pending) == ""
    && st.core.cat.tables != map[]
  }

  ghost function TableProofs(tables: map<string, Table>, names: seq<string>): (r: seq<TableProof>)
    requires forall n :: n in names ==> n in tables
    ensures |r| == |names|
    ensures forall i :: 0 <= i < |names| ==> r[i] == ProofOf(names[i], tables[names[i]])
  {
    seq(|names|, i requires 0 <= i < |names| && names[i] in tables => ProofOf(names[i], tables[names[i]]))
  }

  function ProofOf(name: string, t: Table): TableProof {
    TableProof(name, t.rows, t.schema, t.stream)
  }

  ghost function Finished(st: State): Option<Proof> {
    if Finishable(st) then
      Some(Proof(st.bytes, st.hash, TableProofs(st.core.cat.tables, SortedNames(st.core.cat.tables.Keys))))
    else None
  }

  // ---- The incremental code ----------------------------------------------------------------

  class Tracker {
    const plan: Plan
    var bytes: nat
    var hash: string
    var pending: string
    var quote: char
    var escape: bool
    var tables: map<string, Table>
    var rows: nat
    var failed: bool

    ghost function Inner(): Core
      reads this
    {
      Core.Core(pending, Lex(quote, escape), Catalog(tables, rows))
    }

    ghost function View(): State
      reads this
    {
      State(bytes, hash, Inner(), failed)
    }

    constructor (plan: Plan)
      ensures this.plan == plan && View() == FRESH
    {
      this.plan := plan;
      bytes, hash, pending, quote, escape := 0, "", "", NONE, false;
      tables, rows, failed := map[], 0, false;
    }

    method CreateTable(s: string) returns (ok: bool)
      requires CreatedTable(s) != ""
      modifies `tables
      ensures ok == CreateAllowed(plan, old(Catalog(tables, rows)), s)
      ensures Catalog(tables, rows)
           == if ok then WithTable(old(Catalog(tables, rows)), s) else old(Catalog(tables, rows))
    {
      var name := CreatedTable(s);
      if |tables| >= plan.maxTables || name in tables {
        return false;
      }
      var u := ToUpper(s);
      if Forbidden(u) || !EngineAllowed(plan, u) {
        return false;
      }
      var schema := Schema.NormalizeSchema(s);
      tables := tables[name := Table(schema, 0, "")];
      return true;
    }

    method InsertRow(s: string) returns (ok: bool)
      requires InsertedTable(s) != ""
      modifies `tables, `rows
      ensures ok == InsertAllowed(plan, old(Catalog(tables, rows)), s)
      ensures Catalog(tables, rows) == if ok then WithRow(old(Catalog(tables, rows)), s) else old(Catalog(tables, rows))
    {
      var name := InsertedTable(s);
      if name !in tables || rows >= plan.maxRows {
        return false;
      }
      var i := Index(s, " VALUES (");
      if i < 0 {
        return false;
      }
      var single := SingleValuesTuple(s[i + 8..]);
      if !single {
        return false;
      }
      var v := tables[name];
      tables := tables[name := v.(rows := v.rows + 1, stream := v.stream + s)];
      rows := rows + 1;
      return true;
    }

    method Statement(raw: string) returns (ok: bool)
      modifies `tables, `rows
      ensures ok == Accept(plan, old(Catalog(tables, rows)), raw).Some?
      ensures ok ==> Catalog(tables, rows) == Accept(plan, old(Catalog(tables, rows)), raw).value
      ensures !ok ==> Catalog(tables, rows) == old(Catalog(tables, rows))
    {
      var s := TrimSpace(raw);
      if "/*!" <= s {
        return IsSessionSet(s);
      }
      if CreatedTable(s) != "" {
        ok := CreateTable(s);
      } else if InsertedTable(s) != "" {
        ok := InsertRow(s);
      } else {
        ok := false;
      }
    }

    // Any bytes at all: a split inside a quote or an escape is just another call.
    method Write(b: string) returns (ok: bool)
      modifies this
      ensures ok == Written(plan, old(View()), b).Ok?
      ensures ok ==> View() == Written(plan, old(View()), b).value
      ensures !ok ==> failed
    {
      if failed || |b| > plan.maxBytes - bytes {
        failed := true;
        return false;
      }
      for i := 0 to |b|
        invariant !failed && bytes == old(bytes) && hash == old(hash)
        invariant Feed(plan, old(Inner()), b) == Feed(plan, Inner(), b[i..])
      {
        var c := b[i];
        assert b[i..][1..] == b[i + 1..];
        if |pending| >= plan.maxStatement {
          failed := true;
          return false;
        }
        pending := pending + [c];
        if escape {
          escape := false;
        } else if quote != NONE {
          if c == '\\' {
            escape := true;
          } else if c == quote {
            quote := NONE;
          }
        } else if IsQuote(c) {
          quote := c;
        } else if c == ';' {
          var accepted := Statement(pending);
          if !accepted {
            failed := true;
            return false;
          }
          pending := "";
        }
      }
      bytes := bytes + |b|;
      hash := hash + b;
      return true;
    }

    method Names() returns (names: seq<string>)
      ensures Elements(names) == tables.Keys
      ensures forall i, j :: 0 <= i < j < |names| ==> names[i] != names[j]
    {
      names := [];
      var left := tables.Keys;
      while left != {}
        invariant left <= tables.Keys && Elements(names) == tables.Keys - left
        invariant forall i, j :: 0 <= i < j < |names| ==> names[i] != names[j]
        decreases |left|
      {
        var n :| n in left;
        assert forall i :: 0 <= i < |names| ==> names[i] in Elements(names);
        assert Elements(names + [n]) == Elements(names) + {n};
        names := names + [n];
        left := left - {n};
      }
    }

    method Finish() returns (r: Option<Proof>)
      ensures r == Finished(View())
      ensures r.Some? ==>
        forall i :: 0 < i < |r.value.tables| ==> Precedes(r.value.tables[i - 1].name, r.value.tables[i].name)
    {
      if failed || quote != NONE || TrimSpace(pending) != "" || |tables| == 0 {
        return None;
      }
      var unsorted := Names();
      var names := Sort(unsorted);
      SortedPrecedes(names);
      var proofs: seq<TableProof> := [];
      for i := 0 to |names|
        invariant |proofs| == i
        invariant forall k :: 0 <= k < i ==> names[k] in tables && proofs[k] == ProofOf(names[k], tables[names[k]])
      {
        assert names[i] in names;
        proofs := proofs + [ProofOf(names[i], tables[names[i]])];
      }
      assert proofs == TableProofs(tables, names);
      return Some(Proof(bytes, hash, proofs));
    }
  }
}
