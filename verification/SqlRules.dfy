/**
  * The statements internal/mysqlcopy/stream.go accepts, said without its recognisers: by the
  * words a statement consists of and the phrases that occur in it.
  */
module SqlRules {
  import opened Options
  import opened Text
  import opened SqlLexer
  import opened SqlTracker
  import opened SqlProof
  import Schema

  // ---- Words -----------------------------------------------------------------------------------

  predicate Letter(c: char) {
    65 <= c as int <= 90 || 97 <= c as int <= 122
  }

  // [A-Za-z][A-Za-z0-9_]{0,63}
  predicate Name(t: string) {
    && 1 <= |t| <= 64 && Letter(t[0])
    && forall k :: 0 <= k < |t| ==> Letter(t[k]) || 48 <= t[k] as int <= 57 || t[k] == '_'
  }

  // s is the keyword, the quoted name, and more.
  ghost predicate Introduces(s: string, keyword: string, t: string) {
    Name(t) && exists rest: string :: s == keyword + t + "` " + rest
  }

  lemma NameAfterIff(keyword: string, s: string, t: string)
    ensures t != "" ==> (NameAfter(keyword, s) == t <==> Introduces(s, keyword, t))
  {
    if t != "" && NameAfter(keyword, s) == t { NameFound(keyword, s, t); }
    if Introduces(s, keyword, t) { NameTaken(keyword, s, t); }
  }

  lemma NameFound(keyword: string, s: string, t: string)
    requires t != "" && NameAfter(keyword, s) == t
    ensures Introduces(s, keyword, t)
  {
    var from, e := |keyword|, |keyword| + |t|;
    WordRun(s, from);
    assert forall k :: 0 <= k < |t| ==> t[k] == s[from + k];
    Cut(s, from, e, e + 2);
    assert s == keyword + t + "` " + s[e + 2..];
  }

  lemma NameTaken(keyword: string, s: string, t: string)
    requires Introduces(s, keyword, t)
    ensures NameAfter(keyword, s) == t
  {
    var rest: string :| s == keyword + t + "` " + rest;
    var from, e := |keyword|, |keyword| + |t|;
    var tail := "` " + rest;
    assert s == keyword + t + tail;
    Middle(keyword, t, tail);
    NamePlaces(keyword, t, tail, s);
    WordRunUpTo(s, from, e);
    assert s[e..e + 2] == tail[..2] == "` ";
    assert keyword <= s;
  }

  lemma NamePlaces(keyword: string, t: string, tail: string, s: string)
    requires s == keyword + t + tail && tail != "" && tail[0] == '`' && Name(t)
    ensures forall k :: |keyword| <= k < |keyword| + |t| ==> IsWord(s[k])
    ensures s[|keyword| + |t|] == '`' && IsLetter(s[|keyword|])
  {
    forall k | |keyword| <= k < |keyword| + |t| ensures IsWord(s[k]) { assert s[k] == t[k - |keyword|]; }
  }

  lemma Cut(s: string, i: nat, j: nat, k: nat)
    requires i <= j <= k <= |s|
    ensures s == s[..i] + s[i..j] + s[j..k] + s[k..]
  {}

  lemma Middle(a: string, b: string, c: string)
    ensures var s := a + b + c; s[..|a|] == a && s[|a|..|a| + |b|] == b && s[|a| + |b|..] == c && s[|a|..] == b + c
  {}

  lemma WordRun(s: string, from: nat)
    requires from <= |s|
    ensures forall k :: from <= k < WordEnd(s, from) ==> IsWord(s[k])
    decreases |s| - from
  {}

  lemma {:induction false} WordRunUpTo(s: string, from: nat, e: nat)
    requires from <= e < |s| && (forall k :: from <= k < e ==> IsWord(s[k])) && !IsWord(s[e])
    ensures WordEnd(s, from) == e
    decreases e - from
  {
    if from < e { WordRunUpTo(s, from + 1, e); }
  }

  lemma OneIntroduction(s: string, keyword: string, t: string, u: string)
    requires Introduces(s, keyword, t) && Introduces(s, keyword, u)
    ensures t == u
  {
    NameAfterIff(keyword, s, t);
    NameAfterIff(keyword, s, u);
  }

  // ---- Session settings ---------------------------------------------------------------------------

  // White space of at least one byte, as \s+ means it.
  predicate Gap(g: string) {
    g != "" && forall k :: 0 <= k < |g| ==> g[k] in [' ', '\t', '\n', '\U{0C}', '\r']
  }

  ghost predicate Assigns(body: string, left: string, right: string) {
    exists a, b :: Gap(a) && Gap(b) && body == left + a + "=" + b + right
  }

  ghost predicate SessionSet(s: string) {
    exists version, body :: SetsAt(s, version, body) && Setting(body)
  }

  predicate SetsAt(s: string, version: string, body: string) {
    && s == "/*!" + version + " SET " + body + " */;"
    && |version| == 5 && (forall k :: 0 <= k < 5 ==> 48 <= version[k] as int <= 57)
  }

  ghost predicate Setting(body: string) {
    || Assigns(body, "@saved_cs_client", "@@character_set_client")
    || Assigns(body, "character_set_client", "utf8mb4")
    || Assigns(body, "character_set_client", "@saved_cs_client")
  }

  lemma {:induction false} GapRun(a: string, rest: string)
    requires (forall k :: 0 <= k < |a| ==> IsGap(a[k])) && (rest == "" || !IsGap(rest[0]))
    ensures GapEnd(a + rest) == |a|
  {
    if a == "" {
      assert a + rest == rest;
    } else {
      assert (a + rest)[0] == a[0] && (a + rest)[1..] == a[1..] + rest;
      GapRun(a[1..], rest);
    }
  }

  lemma {:induction false} GapPrefix(s: string)
    ensures forall k :: 0 <= k < GapEnd(s) ==> IsGap(s[k])
  {
    if s != "" && IsGap(s[0]) { GapPrefix(s[1..]); }
  }

  lemma AssignmentIff(body: string, left: string, right: string)
    requires right != "" && !IsGap(right[0])
    ensures IsAssignment(body, left, right) <==> Assigns(body, left, right)
  {
    if IsAssignment(body, left, right) { AssignmentFound(body, left, right); }
    if Assigns(body, left, right) { AssignmentTaken(body, left, right); }
  }

  lemma AssignmentFound(body: string, left: string, right: string)
    requires IsAssignment(body, left, right)
    ensures Assigns(body, left, right)
  {
    var rest := body[|left|..];
    var n := GapEnd(rest);
    var tail := rest[n + 1..];
    var m := GapEnd(tail);
    hide GapEnd;
    GapPrefix(rest);
    GapPrefix(tail);
    var a, b := rest[..n], tail[..m];
    assert Gap(a) && Gap(b);
    assert tail == b + right && rest == a + "=" + tail && body == left + rest;
    Flatten(left, a, b, right);
  }

  lemma Flatten(left: string, a: string, b: string, right: string)
    ensures left + (a + "=" + (b + right)) == left + a + "=" + b + right
  {}

  lemma AssignmentTaken(body: string, left: string, right: string)
    requires right != "" && !IsGap(right[0]) && Assigns(body, left, right)
    ensures IsAssignment(body, left, right)
  {
    hide GapEnd;
    var a, b :| Gap(a) && Gap(b) && body == left + a + "=" + b + right;
    var tail := b + right;
    var rest := a + ("=" + tail);
    assert body == left + rest;
    assert body[|left|..] == rest;
    GapRun(a, "=" + tail);
    assert rest[|a|] == '=' && rest[|a| + 1..] == tail;
    GapRun(b, right);
    assert tail[|b|..] == right;
  }

  lemma SessionSetIff(s: string)
    ensures IsSessionSet(s) <==> SessionSet(s)
  {
    if IsSessionSet(s) { SessionFound(s); }
    if SessionSet(s) { SessionTaken(s); }
  }

  lemma SessionFound(s: string)
    requires IsSessionSet(s)
    ensures SessionSet(s)
  {
    hide IsAssignment, Assigns;
    var version, body := s[3..8], s[13..|s| - 4];
    BodyAllowed(body);
    assert forall k :: 0 <= k < 5 ==> version[k] == s[3 + k];
    SessionParts(s);
    assert SetsAt(s, version, body) && Setting(body);
  }

  lemma SessionParts(s: string)
    requires |s| >= 17
    ensures s == s[..3] + s[3..8] + s[8..13] + s[13..|s| - 4] + s[|s| - 4..]
  {
    Cut(s, 3, 8, 13);
    assert s[13..] == s[13..|s| - 4] + s[|s| - 4..];
  }

  lemma SessionTaken(s: string)
    requires SessionSet(s)
    ensures IsSessionSet(s)
  {
    hide IsAssignment, Assigns;
    var version, body :| SetsAt(s, version, body) && Setting(body);
    BodyAllowed(body);
    SessionPlaces(s, version, body);
  }

  lemma SessionPlaces(s: string, version: string, body: string)
    requires SetsAt(s, version, body)
    ensures |s| >= 17 && s[..3] == "/*!" && s[8..13] == " SET " && s[13..|s| - 4] == body && s[|s| - 4..] == " */;"
    ensures forall k :: 3 <= k < 8 ==> IsDigit(s[k])
  {
    var a, b := "/*!" + version, body + " */;";
    assert s == a + (" SET " + b);
    assert s[8..] == " SET " + b && s[13..] == b;
    forall k | 3 <= k < 8 ensures IsDigit(s[k]) { assert s[k] == a[k] == version[k - 3]; }
    assert s[..3] == a[..3] == "/*!";
    assert s[|s| - 4..] == b[|body|..] == " */;";
    assert s[13..|s| - 4] == b[..|body|] == body;
  }

  lemma BodyAllowed(body: string)
    ensures IsAssignment(body, "@saved_cs_client", "@@character_set_client")
       <==> Assigns(body, "@saved_cs_client", "@@character_set_client")
    ensures IsAssignment(body, "character_set_client", "utf8mb4") <==> Assigns(body, "character_set_client", "utf8mb4")
    ensures IsAssignment(body, "character_set_client", "@saved_cs_client")
       <==> Assigns(body, "character_set_client", "@saved_cs_client")
  {
    AssignmentIff(body, "@saved_cs_client", "@@character_set_client");
    AssignmentIff(body, "character_set_client", "utf8mb4");
    AssignmentIff(body, "character_set_client", "@saved_cs_client");
  }

  // ---- Phrases ----------------------------------------------------------------------------------------

  ghost predicate Occurs(s: string, phrase: string) {
    exists before, after :: Around(s, before, phrase, after)
  }

  predicate Around(s: string, before: string, phrase: string, after: string) {
    s == before + phrase + after
  }

  lemma ContainsIff(s: string, phrase: string)
    ensures Contains(s, phrase) <==> Occurs(s, phrase)
  {
    if Occurs(s, phrase) {
      var before, after :| Around(s, before, phrase, after);
      Middle(before, phrase, after);
      assert OccursAt(s, phrase, |before|);
    }
    var k := Index(s, phrase);
    if k >= 0 { PhraseAround(s, phrase, k); }
  }

  lemma PhraseAround(s: string, phrase: string, k: nat)
    requires OccursAt(s, phrase, k)
    ensures Occurs(s, phrase)
  {
    assert s == s[..k] + s[k..k + |phrase|] + s[k + |phrase|..];
    assert Around(s, s[..k], phrase, s[k + |phrase|..]);
  }

  // None of the clauses a copied table may not have.
  ghost predicate Harmless(u: string) {
    && !Occurs(u, "DATA DIRECTORY") && !Occurs(u, "INDEX DIRECTORY") && !Occurs(u, "TABLESPACE")
    && !Occurs(u, "DEFINER") && !Occurs(u, "SELECT ") && !Occurs(u, "/*")
  }

  // An engine that the lock of this mode can hold still.
  ghost predicate Lockable(quiescence: bool, u: string) {
    || Occurs(u, "ENGINE=INNODB")
    || (quiescence && (Occurs(u, "ENGINE=MYISAM") || Occurs(u, "ENGINE=MEMORY")))
  }

  lemma PhrasesIff(p: Plan, u: string)
    ensures !Forbidden(u) <==> Harmless(u)
    ensures EngineAllowed(p, u) <==> Lockable(p.quiescence, u)
  {
    hide Contains, Occurs;
    ContainsIff(u, "DATA DIRECTORY");
    ContainsIff(u, "INDEX DIRECTORY");
    ContainsIff(u, "TABLESPACE");
    ContainsIff(u, "DEFINER");
    ContainsIff(u, "SELECT ");
    ContainsIff(u, "/*");
    ContainsIff(u, "ENGINE=INNODB");
    ContainsIff(u, "ENGINE=MYISAM");
    ContainsIff(u, "ENGINE=MEMORY");
  }

  // ---- One statement ------------------------------------------------------------------------------------

  // A CREATE is accepted exactly with a new name, room for a table, no forbidden phrase and
  // an engine its mode can lock; it adds that table with its normalised text, and nothing else.
  lemma CreateAccepted(p: Plan, cat: Catalog, raw: string, t: string)
    requires Introduces(TrimSpace(raw), "CREATE TABLE `", t)
    ensures var s := TrimSpace(raw);
            var u := ToUpper(s);
            && (Accept(p, cat, raw).Some? <==>
                  t !in cat.tables && |cat.tables| < p.maxTables && Harmless(u) && Lockable(p.quiescence, u))
            && (Accept(p, cat, raw).Some? ==>
                  Accept(p, cat, raw).value
                  == Catalog(cat.tables[t := Table(Schema.Normalize(s), 0, "")], cat.rows))
  {
    hide Forbidden, EngineAllowed, Harmless, Lockable, TrimSpace, NameAfter;
    var s := TrimSpace(raw);
    NameAfterIff("CREATE TABLE `", s, t);
    PhrasesIff(p, ToUpper(s));
    FirstByte(s, "CREATE TABLE `", t, 'C');
  }

  lemma FirstByte(s: string, keyword: string, t: string, c: char)
    requires Introduces(s, keyword, t) && keyword != "" && keyword[0] == c
    ensures s != "" && s[0] == c
  {}

  // An INSERT is accepted exactly into a table created before, with room for a row and one
  // tuple after the first " VALUES (" of its text; it adds that row to the end of that table.
  lemma InsertAccepted(p: Plan, cat: Catalog, raw: string, t: string)
    requires Introduces(TrimSpace(raw), "INSERT INTO `", t)
    ensures var s := TrimSpace(raw);
            && (Accept(p, cat, raw).Some? <==>
                  && t in cat.tables && cat.rows < p.maxRows
                  && exists i: nat :: FirstSite(s, i) && SingleTuple(s[i + 8..]))
            && (Accept(p, cat, raw).Some? ==>
                  var v := cat.tables[t];
                  Accept(p, cat, raw).value
                  == Catalog(cat.tables[t := Table(v.schema, v.rows + 1, v.stream + s)], cat.rows + 1))
  {
    hide SingleTuple, TrimSpace, NameAfter, IsSessionSet, OccursAt;
    var s := TrimSpace(raw);
    NameAfterIff("INSERT INTO `", s, t);
    FirstByte(s, "INSERT INTO `", t, 'I');
    NotBothKinds(s, t);
    var i := Index(s, " VALUES (");
    if i >= 0 { assert FirstSite(s, i); }
    forall j: nat | FirstSite(s, j) ensures j == i {
      assert OccursAt(s, " VALUES (", j);
      if i >= 0 { assert OccursAt(s, " VALUES (", i); }
    }
  }

  // The first place where " VALUES (" stands.
  ghost predicate FirstSite(s: string, i: nat) {
    OccursAt(s, " VALUES (", i) && forall j: nat :: j < i ==> !OccursAt(s, " VALUES (", j)
  }

  lemma NotBothKinds(s: string, t: string)
    requires s != "" && s[0] == 'I'
    ensures CreatedTable(s) == ""
  {}

  // Everything else is accepted only as a session setting, and then changes nothing.
  lemma OthersAccepted(p: Plan, cat: Catalog, raw: string)
    requires forall t :: !Introduces(TrimSpace(raw), "CREATE TABLE `", t)
    requires forall t :: !Introduces(TrimSpace(raw), "INSERT INTO `", t)
    ensures Accept(p, cat, raw) == if SessionSet(TrimSpace(raw)) then Some(cat) else None
  {
    hide TrimSpace, NameAfter, IsSessionSet, SessionSet, Introduces;
    var s := TrimSpace(raw);
    var t, u := CreatedTable(s), InsertedTable(s);
    NameAfterIff("CREATE TABLE `", s, t);
    NameAfterIff("INSERT INTO `", s, u);
    SessionSetIff(s);
    if SessionSet(s) { SessionStart(s); }
  }

  lemma SessionStart(s: string)
    requires SessionSet(s)
    ensures "/*!" <= s
  {}

  // ---- Whole runs ---------------------------------------------------------------------------------------

  // In every accepted run, whatever it is made of, no CREATE has a forbidden phrase, and each
  // names an engine that the mode's lock can hold still.
  lemma EveryCreate(p: Plan, start: Catalog, stmts: seq<string>, i: nat, t: string)
    requires Run(p, start, stmts).Some? && i < |stmts|
    requires Introduces(TrimSpace(stmts[i]), "CREATE TABLE `", t)
    ensures Harmless(ToUpper(TrimSpace(stmts[i]))) && Lockable(p.quiescence, ToUpper(TrimSpace(stmts[i])))
  {
    hide Harmless, Lockable, Introduces, Accept, TrimSpace;
    var cat := StepOfRun(p, start, stmts, i);
    CreateAccepted(p, cat, stmts[i], t);
  }

  // The catalogue before statement i of an accepted run, which accepts it.
  lemma {:induction false} StepOfRun(p: Plan, start: Catalog, stmts: seq<string>, i: nat) returns (cat: Catalog)
    requires Run(p, start, stmts).Some? && i < |stmts|
    ensures Accept(p, cat, stmts[i]).Some? && Run(p, start, stmts[..i]) == Some(cat)
    decreases |stmts|
  {
    hide Accept;
    var n := |stmts| - 1;
    assert stmts == stmts[..n] + [stmts[n]];
    RunSnoc(p, start, stmts[..n], stmts[n]);
    if i == n {
      cat := Run(p, start, stmts[..n]).value;
    } else {
      cat := StepOfRun(p, start, stmts[..n], i);
      assert stmts[..n][..i] == stmts[..i];
    }
  }
}
