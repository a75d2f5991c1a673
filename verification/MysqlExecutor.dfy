/**
  * internal/mysqlcopy/executor.go: one MySQL copy as the trace of its effects on a
  * transport whose every answer is arbitrary.
  */
module MysqlExecutor {
  import opened Options
  import opened Text
  import F = Failures
  import T = SqlTracker
  import P = SqlProof
  import R = SqlReader
  import C = SqlCounts
  import SqlRules
  import B = BackupHold

  // Digests of credentials; 0 is the zero digest.
  datatype Creds = Creds(source: nat, target: nat, targetRoot: nat, backup: nat, rest: nat)
  datatype TableInfo = TableInfo(name: string, engine: string, primaryKey: bool)
  datatype Source = Source(podUid: string, serverUuid: string, version: string, tables: seq<TableInfo>)
  datatype TargetId = TargetId(pvcUid: string, podUid: string, secretUid: string)

  // `valid` is the verdict of Plan.Validate, `digest` stands for the whole plan.
  datatype Plan = Plan(valid: bool, digest: string, binding: string, pvcUid: string, statefulSetUid: string,
                       secretUid: string, sql: T.Plan)

  datatype Receipt = Receipt(version: int, digest: string, binding: string, pvcUid: string, statefulSetUid: string,
                             serverUuid: string, target: TargetId, proof: T.Proof, shutdownVerified: bool)

  // ---- Source identity ------------------------------------------------------------------

  predicate IsIdentifier(s: string) {
    0 < |s| <= 64 && T.IsLetter(s[0]) && forall k :: 0 <= k < |s| ==> T.IsWord(s[k])
  }

  function TableNames(s: Source): seq<string> {
    seq(|s.tables|, i requires 0 <= i < |s.tables| => s.tables[i].name)
  }

  predicate Keyed(t: TableInfo) {
    SqlRules.Name(t.name) && t.primaryKey
  }

  // An engine that the lock of this mode can hold still.
  predicate Lockable(p: Plan, engine: string) {
    engine == "InnoDB" || (p.sql.quiescence && engine in ["MyISAM", "MEMORY"])
  }

  // A source the copy is made for: named, version 8, distinct keyed tables of allowed engines.
  ghost predicate SourceOk(p: Plan, s: Source) {
    && s.podUid != "" && 1 <= |s.serverUuid| <= 128
    && 2 <= |s.version| && s.version[0] == '8' && s.version[1] == '.'
    && 0 < |s.tables| <= p.sql.maxTables
    && (forall i :: 0 <= i < |s.tables| ==> Keyed(s.tables[i]) && Lockable(p, s.tables[i].engine))
    && C.Distinct(TableNames(s))
  }

  method ValidateSource(p: Plan, s: Source) returns (ok: bool)
    ensures ok == SourceOk(p, s)
  {
    if s.podUid == "" || s.serverUuid == "" || |s.serverUuid| > 128 || !("8." <= s.version)
       || |s.tables| == 0 || |s.tables| > p.sql.maxTables {
      return false;
    }
    var seen: set<string> := {};
    for i := 0 to |s.tables|
      invariant forall k :: 0 <= k < i ==> Keyed(s.tables[k]) && Lockable(p, s.tables[k].engine)
      invariant forall n :: n in seen <==> exists k :: 0 <= k < i && s.tables[k].name == n
      invariant forall j, k :: 0 <= j < k < i ==> TableNames(s)[j] != TableNames(s)[k]
    {
      var t := s.tables[i];
      IdentifierIs(t.name);
      if !IsIdentifier(t.name) || t.name in seen || !t.primaryKey {
        if t.name in seen {
          ghost var k :| 0 <= k < i && s.tables[k].name == t.name;
          assert TableNames(s)[k] == TableNames(s)[i];
        }
        return false;
      }
      seen := seen + {t.name};
      if t.engine != "InnoDB" && (!p.sql.quiescence || (t.engine != "MyISAM" && t.engine != "MEMORY")) {
        return false;
      }
      assert forall j :: 0 <= j < i ==> TableNames(s)[j] == s.tables[j].name;
    }
    return true;
  }

  lemma IdentifierIs(s: string)
    ensures IsIdentifier(s) <==> SqlRules.Name(s)
  {}

  predicate SameIdentity(a: Source, b: Source) {
    a.podUid == b.podUid && a.serverUuid == b.serverUuid && a.version == b.version && a.tables == b.tables
  }

  // ---- Traces -----------------------------------------------------------------------------------

  datatype Event =
    | Gate(stage: F.Stage, allowed: bool)
    | CredsRead(creds: Option<Creds>)
    | SourceRead(source: Option<Source>)
    | HoldTaken(taken: bool)
    | HoldChecked(alive: bool, line: string)      // the line a passing check relied on
    | Inspected(found: Option<Option<Receipt>>)   // Some(None): an empty target
    | Provisioned(made: Option<TargetId>)
    | Transferred(target: TargetId, dump: string, ok: bool)
    | TargetDumped(target: TargetId, dump: string, ok: bool)
    | ShutDown(target: TargetId, ok: bool)
    | Committed(receipt: Receipt, ok: bool)
    | Released(ok: bool, answer: string)
    | Cleaned(ok: bool)

  // The guarded effects, in the order they may happen; 0 for everything else.
  function Rank(e: Event): nat {
    match e
    case Provisioned(_) => 1
    case Transferred(_, _, _) => 2
    case TargetDumped(_, _, _) => 3
    case ShutDown(_, _) => 4
    case Committed(_, _) => 5
    case _ => 0
  }

  // The authority each guarded effect needs.
  function StageFor(rank: nat): F.Stage {
    match rank
    case 1 => F.ProvisionTarget
    case 2 => F.Transfer
    case 3 => F.Verify
    case _ => F.Complete
  }

  // What was established before the first effect.
  datatype Baseline = Baseline(plan: Plan, creds: Creds, source: Source)

  // Four consecutive events: authority, hold alive, credentials unchanged, source unchanged.
  predicate FullCheckAt(tr: seq<Event>, j: nat, stage: F.Stage, b: Baseline) {
    AllowedAt(tr, j, stage) && UnchangedAt(tr, j + 2, b)
  }

  predicate AllowedAt(tr: seq<Event>, j: nat, stage: F.Stage) {
    && j + 2 <= |tr|
    && tr[j] == Gate(stage, true)
    && tr[j + 1].HoldChecked? && tr[j + 1].alive
  }

  predicate UnchangedAt(tr: seq<Event>, j: nat, b: Baseline) {
    && j + 2 <= |tr|
    && tr[j] == CredsRead(Some(b.creds))
    && tr[j + 1] == SourceRead(Some(b.source))
  }

  // A full check for `stage`, with no guarded effect since.
  ghost predicate Armed(tr: seq<Event>, stage: F.Stage, b: Baseline) {
    exists j: nat :: FullCheckAt(tr, j, stage, b) && NoEffectSince(tr, j + 4)
  }

  ghost predicate NoEffectSince(tr: seq<Event>, from: nat) {
    forall k :: from <= k < |tr| ==> Rank(tr[k]) == 0
  }

  // A receipt that lets a later run with this plan and source stop at once.
  predicate ResumeOk(b: Baseline, r: Receipt) {
    && r.version == 1 && r.digest == b.plan.digest && r.binding == b.plan.binding
    && r.pvcUid == b.plan.pvcUid && r.statefulSetUid == b.plan.statefulSetUid
    && r.serverUuid == b.source.serverUuid && r.shutdownVerified
  }

  predicate TargetOk(p: Plan, t: TargetId) {
    t.pvcUid != "" && t.podUid != "" && t.secretUid == p.secretUid && t.pvcUid != p.pvcUid
  }

  // A committed receipt is backed by an accepted transfer into the provisioned target, an
  // equal dump of that target and its completed shutdown.
  ghost predicate Justified(tr: seq<Event>, b: Baseline, r: Receipt) {
    && Provisioned(Some(r.target)) in tr && TargetOk(b.plan, r.target) && ShutDown(r.target, true) in tr
    && ResumeOk(b, r)
    && Elements(C.Names(r.proof.tables)) == Elements(TableNames(b.source))
    && exists dump, back :: Backed(tr, b, r, dump, back)
  }

  ghost predicate Backed(tr: seq<Event>, b: Baseline, r: Receipt, dump: string, back: string) {
    && Transferred(r.target, dump, true) in tr && TargetDumped(r.target, back, true) in tr
    && P.ProofFor(b.plan.sql, dump) == Some(r.proof)
    && P.ProofFor(b.plan.sql, back).Some?
    && P.SameProof(r.proof, P.ProofFor(b.plan.sql, back).value)
  }

  // Every guarded effect has its own full check, they happen in order and once each, and
  // only a justified receipt is committed.
  ghost predicate Disciplined(tr: seq<Event>, b: Baseline) {
    && (forall i :: 0 <= i < |tr| && Rank(tr[i]) > 0 ==> Armed(tr[..i], StageFor(Rank(tr[i])), b))
    && (forall i, j :: 0 <= i < j < |tr| && Rank(tr[i]) > 0 && Rank(tr[j]) > 0 ==> Rank(tr[i]) < Rank(tr[j]))
    && (forall i :: 0 <= i < |tr| && tr[i].Committed? ==> Justified(tr[..i], b, tr[i].receipt))
  }

  predicate Below(tr: seq<Event>, rank: nat) {
    forall i :: 0 <= i < |tr| ==> Rank(tr[i]) < rank
  }

  lemma DisciplineSnoc(tr: seq<Event>, e: Event, b: Baseline)
    requires Disciplined(tr, b)
    requires Rank(e) > 0 ==> Armed(tr, StageFor(Rank(e)), b) && Below(tr, Rank(e))
    requires e.Committed? ==> Justified(tr, b, e.receipt)
    ensures Disciplined(tr + [e], b)
  {
    hide Armed, Justified;
    var q := tr + [e];
    forall i | 0 <= i < |q| ensures q[..i] == if i < |tr| then tr[..i] else tr {}
  }

  lemma ArmedSnoc(tr: seq<Event>, e: Event, stage: F.Stage, b: Baseline)
    requires Armed(tr, stage, b) && Rank(e) == 0
    ensures Armed(tr + [e], stage, b)
  {
    var j: nat :| FullCheckAt(tr, j, stage, b) && NoEffectSince(tr, j + 4);
    assert FullCheckAt(tr + [e], j, stage, b) && NoEffectSince(tr + [e], j + 4);
  }

  // Without effects there is nothing to guard, whatever the baseline.
  lemma NoEffectsDisciplined(tr: seq<Event>, b: Baseline)
    requires Below(tr, 1)
    ensures Disciplined(tr, b)
  {}

  // ---- The order of a run ------------------------------------------------------------------------

  datatype Step =
    | Gating(stage: F.Stage) | Holding | Inspecting(empty: bool) | Provisioning | Transferring | Dumping
    | Stopping | Committing | Releasing | Cleaning

  // The step of an event; the readings of a check belong to its gate.
  function StepOf(e: Event): seq<Step> {
    match e
    case Gate(stage, _) => [Gating(stage)]
    case CredsRead(_) => []
    case SourceRead(_) => []
    case HoldTaken(_) => [Holding]
    case HoldChecked(_, _) => []
    case Inspected(found) => [Inspecting(found == Some(None))]
    case Provisioned(_) => [Provisioning]
    case Transferred(_, _, _) => [Transferring]
    case TargetDumped(_, _, _) => [Dumping]
    case ShutDown(_, _) => [Stopping]
    case Committed(_, _) => [Committing]
    case Released(_, _) => [Releasing]
    case Cleaned(_) => [Cleaning]
  }

  function Shape(tr: seq<Event>): seq<Step> {
    if tr == [] then [] else Shape(tr[..|tr| - 1]) + StepOf(tr[|tr| - 1])
  }

  lemma ShapeSnoc(tr: seq<Event>, e: Event)
    ensures Shape(tr + [e]) == Shape(tr) + StepOf(e)
  {
    assert (tr + [e])[..|tr|] == tr;
  }

  lemma ShapeStart()
    ensures Shape([]) == []
  {}

  // From shape a to shape b: a part of the given steps, and all of them without an error.
  predicate Grew(a: seq<Step>, b: seq<Step>, steps: seq<Step>, ok: bool) {
    a <= b <= a + steps && (ok ==> b == a + steps)
  }

  // The steps from i to k of a plan of steps.
  lemma GoOn(base: seq<Step>, all: seq<Step>, i: nat, k: nat, b: seq<Step>, ok: bool)
    requires i <= k <= |all| && Grew(base + all[..i], b, all[i..k], ok)
    ensures Grew(base, b, all, false) && (ok ==> b == base + all[..k])
  {
    assert base + all[..i] + all[i..k] == base + all[..k] <= base + all;
  }

  lemma GoAfter(first: seq<Step>, b: seq<Step>, more: seq<Step>, ok: bool)
    requires Grew(first, b, more, ok)
    ensures Grew([], b, first + more, ok)
  {
    assert [] + (first + more) == first + more;
  }

  const PREPARING := [Gating(F.ReadSource), Gating(F.HoldDDL), Holding]
  const COPYING := [Gating(F.Transfer), Transferring, Gating(F.Verify), Dumping,
                    Gating(F.Complete), Stopping, Gating(F.Complete), Committing]

  // The steps under the hold when the target proves empty, or not.
  function Working(empty: bool): seq<Step> {
    [Gating(F.ProvisionTarget), Inspecting(empty)] + if empty then [Provisioning] + COPYING else [Gating(F.Complete)]
  }

  lemma StepParts()
    ensures COPYING[..4][..2] == COPYING[0..2] == [Gating(F.Transfer), Transferring]
    ensures COPYING[..4][2..4] == COPYING[2..4] == [Gating(F.Verify), Dumping]
    ensures COPYING[4..6] == [Gating(F.Complete), Stopping] && COPYING[6..8] == [Gating(F.Complete), Committing]
    ensures forall empty :: Working(empty)[0..2] == [Gating(F.ProvisionTarget), Inspecting(empty)]
    ensures |Working(true)| == 11 && Working(true)[2..11] == [Provisioning] + COPYING
    ensures |Working(false)| == 3 && Working(false)[2..3] == [Gating(F.Complete)]
  {}

  // A run takes these steps in this order as far as it gets, and all of them to succeed.
  ghost predicate InOrder(tr: seq<Event>, ok: bool) {
    Grew([], Shape(tr), PREPARING + Working(true), ok) || Grew([], Shape(tr), PREPARING + Working(false), ok)
  }

  // ---- The meaning of a failure ---------------------------------------------------------------------

  // The last answer is one that a run must not go on from; the stage names the step that asked
  // for it, and what was judged is reported as a refusal.
  ghost predicate Failed(tr: seq<Event>, b: Baseline, stage: F.Stage, err: F.Err) {
    tr != [] && err.Leaf? && F.Sentinel(err.kind) &&
    var n := |tr| - 1;
    var unsafe := err.kind == F.Unsafe;
    match tr[n]
    case Gate(s, ok) => !ok && stage == s
    case CredsRead(c) =>
      if n == 1 then stage == F.CheckCredentials && (c.None? || (unsafe && !CredsOk(b.plan, c.value)))
      else n > 1 && tr[n - 2] == Gate(stage, true) && (c.None? || (unsafe && c.value != b.creds))
    case SourceRead(source) =>
      if n == 2 then stage == F.ReadSource && (source.None? || (unsafe && !SourceOk(b.plan, source.value)))
      else n > 2 && tr[n - 3] == Gate(stage, true) && (source.None? || (unsafe && source.value != b.source))
    case HoldTaken(ok) => !ok && unsafe && stage == F.HoldDDL
    case HoldChecked(alive, _) => !alive && unsafe && n > 0 && tr[n - 1] == Gate(stage, true)
    case Inspected(found) =>
      && stage == F.InspectTarget && err.kind == F.Partial
      && (found.None? || (found.value.Some? && !ResumeOk(b, found.value.value)))
    case Provisioned(made) => stage == F.ProvisionTarget && (made.None? || (unsafe && !TargetOk(b.plan, made.value)))
    case Transferred(_, dump, ok) => stage == F.Transfer && (!ok || (unsafe && !Complete(b, dump)))
    case TargetDumped(_, back, ok) =>
      stage == F.Verify && (!ok || (unsafe && (P.ProofFor(b.plan.sql, back).None? || Differs(tr, back))))
    case ShutDown(_, ok) => !ok && stage == F.ShutdownTarget
    case Committed(_, ok) => !ok && stage == F.CommitReceipt
    case Released(_, _) => false
    case Cleaned(_) => false
  }

  // The dump is accepted and has exactly the source's tables.
  ghost predicate Complete(b: Baseline, dump: string) {
    && P.ProofFor(b.plan.sql, dump).Some?
    && Elements(C.Names(P.ProofFor(b.plan.sql, dump).value.tables)) == Elements(TableNames(b.source))
  }

  // An earlier dump says something else.
  ghost predicate Differs(tr: seq<Event>, back: string) {
    exists k :: 0 <= k < |tr| && tr[k].Transferred? && !P.SameContent(tr[k].dump, back)
  }

  // ---- The meaning of a commit -------------------------------------------------------------------

  // In a disciplined run, what is committed was first dumped from the source, accepted,
  // restored, dumped back and found equal in tables, normalised schemas and ordered rows.
  lemma CommitMeansEqualContent(tr: seq<Event>, b: Baseline, i: nat) returns (dump: string, back: string)
    requires Disciplined(tr, b) && i < |tr| && tr[i].Committed?
    ensures Provisioned(Some(tr[i].receipt.target)) in tr[..i]
    ensures Transferred(tr[i].receipt.target, dump, true) in tr[..i]
    ensures TargetDumped(tr[i].receipt.target, back, true) in tr[..i]
    ensures ShutDown(tr[i].receipt.target, true) in tr[..i]
    ensures P.SameContent(dump, back)
    ensures Elements(C.Names(tr[i].receipt.proof.tables)) == Elements(TableNames(b.source))
  {
    var r := tr[i].receipt;
    assert Justified(tr[..i], b, r);
    dump, back :| Backed(tr[..i], b, r, dump, back);
    P.ProofEquality(b.plan.sql, b.plan.sql, dump, back);
  }

  // A later run with the same plan accepts a committed receipt exactly when it meets the
  // same server.
  lemma CommitThenResume(tr: seq<Event>, b: Baseline, i: nat, later: Baseline)
    requires Disciplined(tr, b) && i < |tr| && tr[i].Committed? && later.plan == b.plan
    ensures ResumeOk(later, tr[i].receipt) <==> later.source.serverUuid == b.source.serverUuid
  {
    assert Justified(tr[..i], b, tr[i].receipt);
  }

  // ---- The hold's session ------------------------------------------------------------------------

  // An event that relied on an answer of the hold.
  predicate Relied(e: Event) {
    (e.HoldChecked? && e.alive) || (e.Released? && e.ok)
  }

  function Answer(e: Event): string
    requires Relied(e)
  {
    if e.HoldChecked? then e.line else e.answer
  }

  // The text that an answer starts with.
  function Echo(e: Event): string
    requires Relied(e)
  {
    B.Fields(TrimSpace(Answer(e)))[0]
  }

  // Every answer relied on came from one connection of one server, and no two of them answer
  // the same question.
  ghost predicate Saw(tr: seq<Event>, id: nat, uuid: string, asked: seq<string>) {
    && (forall i :: 0 <= i < |tr| && Relied(tr[i]) ==>
          B.FromConnection(Answer(tr[i]), id, uuid) && Echo(tr[i]) in asked)
    && (forall i, j :: 0 <= i < j < |tr| && Relied(tr[i]) && Relied(tr[j]) ==> Echo(tr[i]) != Echo(tr[j]))
  }

  ghost predicate OneSession(tr: seq<Event>) {
    exists id, uuid, asked :: Saw(tr, id, uuid, asked)
  }

  predicate NoneRelied(tr: seq<Event>) {
    forall i :: 0 <= i < |tr| ==> !Relied(tr[i])
  }

  predicate NoHoldYet(tr: seq<Event>) {
    forall i :: 0 <= i < |tr| ==> !tr[i].HoldTaken?
  }

  lemma SawSnoc(tr: seq<Event>, e: Event, id: nat, uuid: string, asked: seq<string>, more: seq<string>)
    requires Saw(tr, id, uuid, asked) && asked <= more
    requires Relied(e) ==> B.FromConnection(Answer(e), id, uuid) && Echo(e) in more && Echo(e) !in asked
    ensures Saw(tr + [e], id, uuid, more)
  {
    hide B.FromConnection, Echo;
    var q := tr + [e];
    forall i | 0 <= i < |q| && Relied(q[i]) ensures B.FromConnection(Answer(q[i]), id, uuid) && Echo(q[i]) in more {
      if i < |tr| { assert q[i] == tr[i]; }
    }
    forall i, j | 0 <= i < j < |q| && Relied(q[i]) && Relied(q[j]) ensures Echo(q[i]) != Echo(q[j]) {
      assert q[i] == tr[i];
    }
  }

  // ---- The transport ---------------------------------------------------------------------------

  // Any behaviour at all: each call records itself and answers arbitrarily.  A guarded effect
  // may only be asked for after its own full check and after the effects before it.  Where the
  // hold is a backup lock, its answers are those of the lock's session.
  class Transport {
    const locks: bool             // in the other mode the hold is the driver's own
    const session: B.Session
    var hold: B.Hold?
    ghost var trace: seq<Event>

    constructor (locks: bool, session: B.Session)
      requires session.asked == [] && session.answered == 0
      ensures Valid() && trace == [] && hold == null && this.locks == locks && this.session == session
    {
      this.locks, this.session := locks, session;
      hold, trace := null, [];
    }

    ghost predicate Valid()
      reads this, hold, session
    {
      Tied(trace)
    }

    // The hold and its session are where the trace says.
    ghost predicate Tied(tr: seq<Event>)
      reads this`hold, hold, session
    {
      && (hold != null ==>
            && hold.session == session && hold.Valid() && hold.connectionId != 0
            && Saw(tr, hold.connectionId, hold.uuid, session.asked))
      && (hold == null && locks ==> NoneRelied(tr))
      && (NoHoldYet(tr) ==> hold == null && session.asked == [] && session.answered == 0)
    }

    // An event that has nothing to do with the hold.
    lemma Noted(e: Event)
      requires Valid() && !Relied(e) && !e.HoldTaken?
      ensures Tied(trace + [e])
    {
      hide Saw;
      var q := trace + [e];
      assert forall i :: 0 <= i < |trace| ==> q[i] == trace[i];
      if hold != null { SawSnoc(trace, e, hold.connectionId, hold.uuid, session.asked, session.asked); }
    }

    // An error of the package's own vocabulary, as safeError leaves it.
    method AnyKind() returns (k: F.Kind)
      ensures F.Sentinel(k)
    {
      k := *;
      if k.Foreign? { k := F.Operation; }
    }

    method AllowedBy(stage: F.Stage) returns (err: F.Err)
      requires Valid()
      modifies this`trace
      ensures Valid() && trace == old(trace) + [Gate(stage, err.Nil?)]
      ensures err.Nil? || (err.Leaf? && F.Sentinel(err.kind))
      ensures Shape(trace) == old(Shape(trace)) + [Gating(stage)]
    {
      hide Saw, Shape;
      var ok: bool := *;
      var k := AnyKind();
      err := if ok then F.Nil else F.Leaf(k);
      Noted(Gate(stage, ok));
      ShapeSnoc(trace, Gate(stage, ok));
      trace := trace + [Gate(stage, ok)];
    }

    method CheckCredentials() returns (c: Option<Creds>)
      requires Valid()
      modifies this`trace
      ensures Valid() && trace == old(trace) + [CredsRead(c)]
      ensures Shape(trace) == old(Shape(trace))
    {
      hide Saw, Shape;
      c := *;
      Noted(CredsRead(c));
      ShapeSnoc(trace, CredsRead(c));
      trace := trace + [CredsRead(c)];
    }

    method ReadSource() returns (s: Option<Source>)
      requires Valid()
      modifies this`trace
      ensures Valid() && trace == old(trace) + [SourceRead(s)]
      ensures Shape(trace) == old(Shape(trace))
    {
      hide Saw, Shape;
      s := *;
      Noted(SourceRead(s));
      ShapeSnoc(trace, SourceRead(s));
      trace := trace + [SourceRead(s)];
    }

    method TakeHold() returns (ok: bool)
      requires Valid() && NoHoldYet(trace) && NoneRelied(trace)
      modifies this, session
      ensures Valid() && trace == old(trace) + [HoldTaken(ok)]
      ensures (hold == null || fresh(hold)) && (locks ==> (ok <==> hold != null))
      ensures Shape(trace) == old(Shape(trace)) + [Holding]
    {
      hide Saw, Shape;
      ok := *;
      if locks {
        var identity: Option<string> := *;
        ghost var written;
        ghost var line;
        hold, written, line := B.HoldDDL(session, identity);
        ok := hold != null;
      }
      FirstSight(trace, ok);
      ShapeSnoc(trace, HoldTaken(ok));
      trace := trace + [HoldTaken(ok)];
    }

    lemma FirstSight(tr: seq<Event>, ok: bool)
      requires NoneRelied(tr)
      ensures NoneRelied(tr + [HoldTaken(ok)]) && !NoHoldYet(tr + [HoldTaken(ok)])
      ensures hold != null ==> Saw(tr + [HoldTaken(ok)], hold.connectionId, hold.uuid, session.asked)
    {
      var q := tr + [HoldTaken(ok)];
      assert forall i :: 0 <= i < |tr| ==> q[i] == tr[i];
      assert q[|tr|].HoldTaken?;
    }

    method CheckHold() returns (ok: bool, ghost line: string)
      requires Valid()
      modifies this`trace, hold, session
      ensures Valid() && trace == old(trace) + [HoldChecked(ok, line)]
      ensures Shape(trace) == old(Shape(trace))
    {
      hide Saw, Shape;
      ok, line := *, "";
      ghost var before := session.asked;
      if hold != null {
        ghost var read;
        ok, read := hold.Check();
        if ok {
          line := read.value;
          NewEcho(HoldChecked(ok, line), before, B.Challenge(hold.sequence));
        }
        SawSnoc(trace, HoldChecked(ok, line), hold.connectionId, hold.uuid, before, session.asked);
      } else if locks {
        ok := false;
      }
      Extended(HoldChecked(ok, line));
      ShapeSnoc(trace, HoldChecked(ok, line));
      trace := trace + [HoldChecked(ok, line)];
    }

    // The last text asked was not asked before.
    lemma NewEcho(e: Event, before: seq<string>, text: string)
      requires hold != null && hold.Valid() && hold.session == session && session.asked == before + [text]
      requires Relied(e) && hold.accepted != [] && Answer(e) == hold.accepted[|hold.accepted| - 1] && Echo(e) == text
      ensures B.FromConnection(Answer(e), hold.connectionId, hold.uuid)
      ensures Echo(e) in session.asked && Echo(e) !in before
    {
      var n := |before|;
      assert session.asked[n] == text;
      forall i | 0 <= i < n ensures before[i] != text { assert session.asked[i] == before[i]; }
    }

    lemma Extended(e: Event)
      requires !e.HoldTaken?
      ensures NoHoldYet(trace + [e]) ==> NoHoldYet(trace)
      ensures NoneRelied(trace) && !Relied(e) ==> NoneRelied(trace + [e])
    {
      var q := trace + [e];
      assert forall i :: 0 <= i < |trace| ==> q[i] == trace[i];
    }

    method Inspect() returns (r: Option<Option<Receipt>>)
      requires Valid()
      modifies this`trace
      ensures Valid() && trace == old(trace) + [Inspected(r)]
      ensures Shape(trace) == old(Shape(trace)) + [Inspecting(r == Some(None))]
    {
      hide Saw, Shape;
      r := *;
      Noted(Inspected(r));
      ShapeSnoc(trace, Inspected(r));
      trace := trace + [Inspected(r)];
    }

    method Provision(ghost b: Baseline) returns (t: Option<TargetId>)
      requires Valid() && Disciplined(trace, b) && Armed(trace, F.ProvisionTarget, b) && Below(trace, 1)
      modifies this`trace
      ensures Valid() && trace == old(trace) + [Provisioned(t)] && Disciplined(trace, b)
      ensures Shape(trace) == old(Shape(trace)) + [Provisioning]
    {
      hide Disciplined, Armed, Shape;
      t := *;
      DisciplineSnoc(trace, Provisioned(t), b);
      Noted(Provisioned(t));
      ShapeSnoc(trace, Provisioned(t));
      trace := trace + [Provisioned(t)];
    }

    // Dump and Restore joined by the pipe and the validating reader: the source command
    // writes any bytes and ends well or badly, the restore reads as much as it likes.
    method Transfer(ghost b: Baseline, sql: T.Plan, target: TargetId)
      returns (ok: bool, tracker: T.Tracker, ghost dump: string)
      requires Valid() && Disciplined(trace, b) && Armed(trace, F.Transfer, b) && Below(trace, 2)
      modifies this`trace
      ensures Valid() && trace == old(trace) + [Transferred(target, dump, ok)] && Disciplined(trace, b)
      ensures fresh(tracker)
      ensures ok ==> P.ProofFor(sql, dump) == T.Finished(tracker.View())
      ensures Shape(trace) == old(Shape(trace)) + [Transferring]
    {
      hide Disciplined, Armed, P.ProofFor, T.Finished, Shape;
      var input: string, clean: bool := *, *;
      tracker := new T.Tracker(sql);
      var exhausted := Restore(input, clean, tracker);
      var restored: bool := *;
      ok := restored && exhausted && clean;
      dump := input;
      DisciplineSnoc(trace, Transferred(target, dump, ok), b);
      Noted(Transferred(target, dump, ok));
      ShapeSnoc(trace, Transferred(target, dump, ok));
      trace := trace + [Transferred(target, dump, ok)];
    }

    // Any number of reads, up to the first error; then the exhausted() test.
    method Restore(input: string, clean: bool, tracker: T.Tracker) returns (exhausted: bool)
      requires tracker.View() == T.FRESH
      modifies tracker
      ensures exhausted && clean ==> P.ProofFor(tracker.plan, input) == T.Finished(tracker.View())
    {
      hide P.ProofFor, T.Finished;
      var reader := new R.ValidatedReader(input, clean, tracker);
      var turns: nat :| turns >= 0;
      for i := 0 to turns
        invariant reader.Valid() && fresh(reader) && reader.tracker == tracker && reader.input == input
      {
        var n: nat :| n >= 0;
        var _, err := reader.Read(n);
        if err.Unsafe? || err.InputError? {
          exhausted := reader.done && reader.offset == |reader.ready|;
          return;
        }
      }
      exhausted := reader.Exhausted();
    }

    method TargetDump(ghost b: Baseline, sql: T.Plan, target: TargetId)
      returns (ok: bool, tracker: T.Tracker, ghost back: string)
      requires Valid() && Disciplined(trace, b) && Armed(trace, F.Verify, b) && Below(trace, 3)
      modifies this`trace
      ensures Valid() && trace == old(trace) + [TargetDumped(target, back, ok)] && Disciplined(trace, b)
      ensures fresh(tracker)
      ensures ok ==> P.ProofFor(sql, back) == T.Finished(tracker.View())
      ensures Shape(trace) == old(Shape(trace)) + [Dumping]
    {
      hide Disciplined, Armed, T.Finished, Shape;
      var chunks: seq<string> := *;
      tracker := new T.Tracker(sql);
      var _ := P.Stream(tracker, chunks);
      ok := *;
      back := Concat(chunks);
      DisciplineSnoc(trace, TargetDumped(target, back, ok), b);
      Noted(TargetDumped(target, back, ok));
      ShapeSnoc(trace, TargetDumped(target, back, ok));
      trace := trace + [TargetDumped(target, back, ok)];
    }

    method Shutdown(ghost b: Baseline, target: TargetId) returns (ok: bool)
      requires Valid() && Disciplined(trace, b) && Armed(trace, F.Complete, b) && Below(trace, 4)
      modifies this`trace
      ensures Valid() && trace == old(trace) + [ShutDown(target, ok)] && Disciplined(trace, b)
      ensures Shape(trace) == old(Shape(trace)) + [Stopping]
    {
      hide Disciplined, Armed, Shape;
      ok := *;
      DisciplineSnoc(trace, ShutDown(target, ok), b);
      Noted(ShutDown(target, ok));
      ShapeSnoc(trace, ShutDown(target, ok));
      trace := trace + [ShutDown(target, ok)];
    }

    method Commit(ghost b: Baseline, r: Receipt) returns (ok: bool)
      requires Valid() && Disciplined(trace, b) && Armed(trace, F.Complete, b) && Below(trace, 5)
      requires Justified(trace, b, r)
      modifies this`trace
      ensures Valid() && trace == old(trace) + [Committed(r, ok)] && Disciplined(trace, b)
      ensures Shape(trace) == old(Shape(trace)) + [Committing]
    {
      hide Disciplined, Armed, Justified, Shape;
      ok := *;
      DisciplineSnoc(trace, Committed(r, ok), b);
      Noted(Committed(r, ok));
      ShapeSnoc(trace, Committed(r, ok));
      trace := trace + [Committed(r, ok)];
    }

    method Release() returns (err: F.Err, ghost answer: string)
      requires Valid()
      modifies this`trace, hold, session
      ensures Valid() && trace == old(trace) + [Released(err.Nil?, answer)]
    {
      hide Saw;
      err, answer := *, "";
      ghost var before := session.asked;
      if hold != null {
        var ok;
        ghost var read;
        ghost var exited;
        ok, read, exited := hold.Release();
        if ok {
          err, answer := F.Nil, read.value;
          NewEcho(Released(ok, answer), before, B.UNLOCK);
        } else if err.Nil? {
          err := F.Leaf(F.Unsafe);
        }
        SawSnoc(trace, Released(err.Nil?, answer), hold.connectionId, hold.uuid, before, session.asked);
      } else if locks && err.Nil? {
        err := F.Leaf(F.Unsafe);
      }
      Extended(Released(err.Nil?, answer));
      trace := trace + [Released(err.Nil?, answer)];
    }

    method Cleanup() returns (err: F.Err)
      requires Valid()
      modifies this`trace
      ensures Valid() && trace == old(trace) + [Cleaned(err.Nil?)]
    {
      hide Saw;
      err := *;
      Noted(Cleaned(err.Nil?));
      trace := trace + [Cleaned(err.Nil?)];
    }
  }

  // ---- The executor -----------------------------------------------------------------------------

  predicate Teardown(e: Event) {
    e.Released? || e.Cleaned? || e.HoldTaken?
  }

  // `after` continues `before` with neither guarded effects nor hold or teardown events.
  ghost predicate Quiet(before: seq<Event>, after: seq<Event>) {
    && before <= after
    && forall i :: |before| <= i < |after| ==> Rank(after[i]) == 0 && !Teardown(after[i])
  }

  // The same, but guarded effects may have happened.
  ghost predicate Worked(before: seq<Event>, after: seq<Event>) {
    && before <= after
    && forall i :: |before| <= i < |after| ==> !Teardown(after[i])
  }

  predicate Primary(err: F.Err) {
    err.Nil? || (err.Leaf? && F.Sentinel(err.kind))
  }

  lemma QuietKeeps(before: seq<Event>, after: seq<Event>, b: Baseline)
    requires Quiet(before, after) && Disciplined(before, b)
    ensures Disciplined(after, b)
    ensures forall r: nat :: r > 0 && Below(before, r) ==> Below(after, r)
    decreases |after|
  {
    hide Disciplined;
    if |after| > |before| {
      var n := |after| - 1;
      QuietKeeps(before, after[..n], b);
      assert after == after[..n] + [after[n]];
      DisciplineSnoc(after[..n], after[n], b);
    } else {
      assert after == before;
    }
  }

  // The check closure: authority, hold, credentials and source, in this order.
  method Check(t: Transport, stage: F.Stage, b: Baseline) returns (err: F.Err)
    requires t.Valid() && SourceOk(b.plan, b.source) && t.trace != []
    modifies t, t.hold, t.session
    ensures t.Valid() && t.hold == old(t.hold)
    ensures Primary(err) && Quiet(old(t.trace), t.trace)
    ensures err.Nil? <==> FullCheckAt(t.trace, |old(t.trace)|, stage, b)
    ensures err.Nil? ==> Armed(t.trace, stage, b)
    ensures !err.Nil? ==> Failed(t.trace, b, stage, err)
    ensures Shape(t.trace) == old(Shape(t.trace)) + [Gating(stage)]
  {
    hide Transport.Valid, SourceOk, Failed, Shape, StepOf;
    ghost var start := |t.trace|;
    err := CheckAuthority(t, stage, b);
    if !err.Nil? { return; }
    err := CheckUnchanged(t, b);
    if !err.Nil? { return; }
    assert FullCheckAt(t.trace, start, stage, b) && NoEffectSince(t.trace, start + 4);
  }

  method CheckAuthority(t: Transport, stage: F.Stage, ghost b: Baseline) returns (err: F.Err)
    requires t.Valid()
    modifies t, t.hold, t.session
    ensures t.Valid() && t.hold == old(t.hold)
    ensures Primary(err) && Quiet(old(t.trace), t.trace) && |t.trace| <= |old(t.trace)| + 2
    ensures err.Nil? <==> AllowedAt(t.trace, |old(t.trace)|, stage)
    ensures !err.Nil? ==> Failed(t.trace, b, stage, err)
    ensures Shape(t.trace) == old(Shape(t.trace)) + [Gating(stage)]
  {
    hide Transport.Valid, Shape, StepOf;
    err := t.AllowedBy(stage);
    if !err.Nil? { return; }
    var alive;
    ghost var line;
    alive, line := t.CheckHold();
    err := if alive then F.Nil else F.Leaf(F.Unsafe);
  }

  method CheckUnchanged(t: Transport, b: Baseline) returns (err: F.Err)
    requires t.Valid() && SourceOk(b.plan, b.source) && |t.trace| > 2
    modifies t, t.hold, t.session
    ensures t.Valid() && t.hold == old(t.hold)
    ensures Primary(err) && Quiet(old(t.trace), t.trace) && |t.trace| <= |old(t.trace)| + 2
    ensures err.Nil? <==> UnchangedAt(t.trace, |old(t.trace)|, b)
    ensures forall stage :: !err.Nil? && old(t.trace)[|old(t.trace)| - 2] == Gate(stage, true) ==>
      Failed(t.trace, b, stage, err)
    ensures Shape(t.trace) == old(Shape(t.trace))
  {
    hide Transport.Valid, SourceOk, Shape, StepOf;
    var current := t.CheckCredentials();
    if current.None? {
      var k := t.AnyKind();
      return F.Leaf(k);
    }
    if current.value != b.creds {
      return F.Leaf(F.Unsafe);
    }
    var source := t.ReadSource();
    if source.None? {
      var k := t.AnyKind();
      return F.Leaf(k);
    }
    var ok := ValidateSource(b.plan, source.value);
    err := if ok && SameIdentity(b.source, source.value) then F.Nil else F.Leaf(F.Unsafe);
  }

  predicate CredsOk(p: Plan, c: Creds) {
    && c.source != c.target && c.source != 0 && c.target != 0 && c.targetRoot != 0
    && c.target != c.targetRoot && c.source != c.targetRoot
    && (!p.sql.quiescence ==> c.backup != c.target && c.backup != c.targetRoot)
  }

  // The trace of a run that got its hold.
  ghost predicate Prepared(tr: seq<Event>, b: Baseline) {
    && tr == [Gate(F.ReadSource, true), CredsRead(Some(b.creds)), SourceRead(Some(b.source)),
              Gate(F.HoldDDL, true), HoldTaken(true)]
    && CredsOk(b.plan, b.creds) && SourceOk(b.plan, b.source)
  }

  method CheckDistinct(p: Plan, c: Creds) returns (ok: bool)
    ensures ok <==> CredsOk(p, c)
  {
    if c.source == c.target {
      return false;
    }
    if c.source == 0 || c.target == 0 || c.targetRoot == 0 {
      return false;
    }
    if c.target == c.targetRoot || c.source == c.targetRoot {
      return false;
    }
    if !p.sql.quiescence && (c.backup == c.target || c.backup == c.targetRoot) {
      return false;
    }
    return true;
  }

  // What the run is held to from then on: authority, credentials and the source's identity.
  method ReadBaseline(t: Transport, p: Plan) returns (err: F.Err, stage: F.Stage, b: Baseline)
    requires t.Valid() && t.trace == []
    modifies t`trace
    ensures t.Valid() && Primary(err) && F.DefinedStage(stage) && b.plan == p
    ensures |t.trace| <= 3
    ensures forall i :: 0 <= i < |t.trace| ==> t.trace[i].Gate? || t.trace[i].CredsRead? || t.trace[i].SourceRead?
    ensures err.Nil? <==>
      && t.trace == [Gate(F.ReadSource, true), CredsRead(Some(b.creds)), SourceRead(Some(b.source))]
      && CredsOk(p, b.creds) && SourceOk(p, b.source)
    ensures !err.Nil? ==> Failed(t.trace, b, stage, err)
    ensures Shape(t.trace) == [Gating(F.ReadSource)]
  {
    hide Transport.Valid, SourceOk, CredsOk, Shape, StepOf;
    b := Baseline(p, Creds(0, 0, 0, 0, 0), Source("", "", "", []));
    stage := F.ReadSource;
    ShapeStart();
    err := t.AllowedBy(F.ReadSource);
    if !err.Nil? { return; }
    stage := F.CheckCredentials;
    var creds := t.CheckCredentials();
    if creds.None? {
      var k := t.AnyKind();
      return F.Leaf(k), stage, b;
    }
    var distinct := CheckDistinct(p, creds.value);
    if !distinct {
      return F.Leaf(F.Unsafe), stage, b;
    }
    stage := F.ReadSource;
    var source := t.ReadSource();
    assert t.trace[2] == SourceRead(source);
    if source.None? {
      var k := t.AnyKind();
      return F.Leaf(k), stage, b;
    }
    b := Baseline(p, creds.value, source.value);
    var ok := ValidateSource(p, source.value);
    err := if ok then F.Nil else F.Leaf(F.Unsafe);
  }

  // Everything up to the hold.
  method Prepare(t: Transport, p: Plan) returns (err: F.Err, stage: F.Stage, b: Baseline)
    requires t.Valid() && t.trace == []
    modifies t, t.session
    ensures t.Valid() && (t.hold == null || fresh(t.hold))
    ensures Primary(err) && F.DefinedStage(stage)
    ensures Below(t.trace, 1)
    ensures forall i :: 0 <= i < |t.trace| ==> !t.trace[i].Released? && !t.trace[i].Cleaned?
    ensures b.plan == p
    ensures err.Nil? <==> HoldTaken(true) in t.trace
    ensures err.Nil? <==> Prepared(t.trace, b)
    ensures !err.Nil? ==> Failed(t.trace, b, stage, err)
    ensures Grew([], Shape(t.trace), PREPARING, err.Nil?)
  {
    hide Transport.Valid, SourceOk, CredsOk, Shape, StepOf;
    NoHoldAtStart(t);
    err, stage, b := ReadBaseline(t, p);
    if !err.Nil? { return; }
    stage := F.HoldDDL;
    err := t.AllowedBy(F.HoldDDL);
    if !err.Nil? { return; }
    var ok := t.TakeHold();
    err := if ok then F.Nil else F.Leaf(F.Unsafe);
  }

  lemma NoHoldAtStart(t: Transport)
    requires t.Valid() && t.trace == []
    ensures t.hold == null
  {}

  // The tables of a proof are the source's tables: equal counts and one-way containment.
  method TablesMatch(proof: T.Proof, s: Source) returns (ok: bool)
    requires StrictlySorted(C.Names(proof.tables)) && C.Distinct(TableNames(s))
    ensures ok <==> Elements(C.Names(proof.tables)) == Elements(TableNames(s))
  {
    C.TableSetsEqual(proof.tables, TableNames(s));
    if |proof.tables| != |s.tables| {
      return false;
    }
    for i := 0 to |s.tables|
      invariant forall k :: 0 <= k < i ==> TableNames(s)[k] in C.Names(proof.tables)
    {
      if !exists j :: 0 <= j < |proof.tables| && proof.tables[j].name == s.tables[i].name {
        assert TableNames(s)[i] !in C.Names(proof.tables);
        return false;
      }
      ghost var j :| 0 <= j < |proof.tables| && proof.tables[j].name == s.tables[i].name;
      assert C.Names(proof.tables)[j] == TableNames(s)[i];
    }
    return true;
  }

  // Transfer the dump into the target and take its proof.
  method TransferPhase(t: Transport, b: Baseline, target: TargetId)
    returns (err: F.Err, proof: T.Proof, ghost dump: string)
    requires Disciplined(t.trace, b) && Below(t.trace, 2) && SourceOk(b.plan, b.source)
    requires t.Valid() && t.trace != []
    modifies t, t.hold, t.session
    ensures t.Valid() && t.hold == old(t.hold)
    ensures Primary(err) && Disciplined(t.trace, b) && Worked(old(t.trace), t.trace) && Below(t.trace, 3)
    ensures err.Nil? ==> Transferred(target, dump, true) in t.trace && P.ProofFor(b.plan.sql, dump) == Some(proof)
    ensures err.Nil? ==> Elements(C.Names(proof.tables)) == Elements(TableNames(b.source))
    ensures !err.Nil? ==> Failed(t.trace, b, F.Transfer, err)
    ensures Grew(old(Shape(t.trace)), Shape(t.trace), [Gating(F.Transfer), Transferring], err.Nil?)
  {
    hide Transport.Valid, Shape, StepOf;
    hide Disciplined, Armed, P.ProofFor, T.Finished, CredsOk, ResumeOk, TargetOk, Differs, FullCheckAt, SourceOk;
    hide TableNames, C.Names;
    proof := T.Proof(0, "", []);
    dump := "";
    err := Check(t, F.Transfer, b);
    QuietKeeps(old(t.trace), t.trace, b);
    if !err.Nil? { return; }
    var ok, tracker;
    ok, tracker, dump := t.Transfer(b, b.plan.sql, target);
    if !ok {
      var k := t.AnyKind();
      return F.Leaf(k), proof, dump;
    }
    ok, proof := TakeProof(tracker, b, dump);
    if !ok {
      return F.Leaf(F.Unsafe), proof, dump;
    }
  }

  // The proof of an accepted dump with exactly the source's tables.
  method TakeProof(tracker: T.Tracker, b: Baseline, ghost dump: string) returns (ok: bool, proof: T.Proof)
    requires SourceOk(b.plan, b.source) && P.ProofFor(b.plan.sql, dump) == T.Finished(tracker.View())
    ensures ok <==> Complete(b, dump)
    ensures ok ==> P.ProofFor(b.plan.sql, dump) == Some(proof)
  {
    hide P.ProofFor, T.Finished;
    var finished := tracker.Finish();
    if finished.None? {
      return false, T.Proof(0, "", []);
    }
    proof := finished.value;
    C.ProofCounts(b.plan.sql, dump);
    ok := TablesMatch(proof, b.source);
  }

  // Dump the target back and compare the proofs.
  method VerifyPhase(t: Transport, b: Baseline, target: TargetId, proof: T.Proof, ghost dump: string)
    returns (err: F.Err, ghost back: string)
    requires Disciplined(t.trace, b) && Below(t.trace, 3)
    requires t.Valid() && SourceOk(b.plan, b.source) && t.trace != []
    modifies t, t.hold, t.session
    ensures t.Valid() && t.hold == old(t.hold)
    ensures Primary(err) && Disciplined(t.trace, b) && Worked(old(t.trace), t.trace) && Below(t.trace, 4)
    requires Transferred(target, dump, true) in t.trace && P.ProofFor(b.plan.sql, dump) == Some(proof)
    ensures err.Nil? <==>
      && TargetDumped(target, back, true) in t.trace && P.ProofFor(b.plan.sql, back).Some?
      && P.SameContent(dump, back)
    ensures err.Nil? ==> P.SameProof(proof, P.ProofFor(b.plan.sql, back).value)
    ensures !err.Nil? ==> Failed(t.trace, b, F.Verify, err)
    ensures Grew(old(Shape(t.trace)), Shape(t.trace), [Gating(F.Verify), Dumping], err.Nil?)
  {
    hide Transport.Valid, Shape, StepOf;
    hide Disciplined, Armed, P.ProofFor, P.SameContent, P.SameProof, T.Finished, SourceOk, Differs, FullCheckAt;
    hide ResumeOk, Complete;
    ghost var before := t.trace;
    back := "";
    err := Check(t, F.Verify, b);
    QuietKeeps(old(t.trace), t.trace, b);
    if !err.Nil? { return; }
    var ok, restored;
    ok, restored, back := t.TargetDump(b, b.plan.sql, target);
    if !ok {
      var k := t.AnyKind();
      return F.Leaf(k), back;
    }
    ok := CompareProof(restored, b, proof, dump, back);
    if !ok {
      if !P.SameContent(dump, back) { DiffersFrom(before, t.trace, target, dump, back); }
      return F.Leaf(F.Unsafe), back;
    }
  }

  // The target's dump is accepted and says the same as the source's.
  method CompareProof(restored: T.Tracker, b: Baseline, proof: T.Proof, ghost dump: string, ghost back: string)
    returns (ok: bool)
    requires P.ProofFor(b.plan.sql, dump) == Some(proof) && P.ProofFor(b.plan.sql, back) == T.Finished(restored.View())
    ensures ok <==> P.ProofFor(b.plan.sql, back).Some? && P.SameContent(dump, back)
    ensures ok ==> P.SameProof(proof, P.ProofFor(b.plan.sql, back).value)
  {
    hide P.ProofFor, P.SameContent, P.SameProof, T.Finished;
    var actual := restored.Finish();
    if actual.None? {
      return false;
    }
    P.ProofEquality(b.plan.sql, b.plan.sql, dump, back);
    ok := P.SameProof(proof, actual.value);
  }

  lemma DiffersFrom(before: seq<Event>, after: seq<Event>, target: TargetId, dump: string, back: string)
    requires before <= after && Transferred(target, dump, true) in before && !P.SameContent(dump, back)
    ensures Differs(after, back)
  {
    var k :| 0 <= k < |before| && before[k] == Transferred(target, dump, true);
    assert after[k] == before[k];
  }

  // Shut the target down.
  method ShutdownPhase(t: Transport, b: Baseline, target: TargetId) returns (err: F.Err, stage: F.Stage)
    requires Disciplined(t.trace, b) && Below(t.trace, 4)
    requires t.Valid() && SourceOk(b.plan, b.source) && t.trace != []
    modifies t, t.hold, t.session
    ensures t.Valid() && t.hold == old(t.hold)
    ensures Primary(err) && F.DefinedStage(stage)
    ensures Disciplined(t.trace, b) && Worked(old(t.trace), t.trace) && Below(t.trace, 5)
    ensures err.Nil? <==> ShutDown(target, true) in t.trace
    ensures !err.Nil? ==> Failed(t.trace, b, stage, err)
    ensures Grew(old(Shape(t.trace)), Shape(t.trace), [Gating(F.Complete), Stopping], err.Nil?)
  {
    hide Transport.Valid, Shape, StepOf;
    hide Disciplined, Armed;
    stage := F.Complete;
    err := Check(t, F.Complete, b);
    QuietKeeps(old(t.trace), t.trace, b);
    if !err.Nil? { return; }
    stage := F.ShutdownTarget;
    var ok := t.Shutdown(b, target);
    if !ok {
      var k := t.AnyKind();
      return F.Leaf(k), stage;
    }
  }

  // Commit the receipt of a verified and shut down target.
  method CommitPhase(t: Transport, b: Baseline, r: Receipt) returns (err: F.Err, stage: F.Stage)
    requires Disciplined(t.trace, b) && Below(t.trace, 5) && Justified(t.trace, b, r)
    requires t.Valid() && SourceOk(b.plan, b.source) && t.trace != []
    modifies t, t.hold, t.session
    ensures t.Valid() && t.hold == old(t.hold)
    ensures Primary(err) && F.DefinedStage(stage)
    ensures Disciplined(t.trace, b) && Worked(old(t.trace), t.trace)
    ensures forall x: Receipt :: Committed(x, true) in t.trace <==> err.Nil? && x == r
    ensures !err.Nil? ==> Failed(t.trace, b, stage, err)
    ensures Grew(old(Shape(t.trace)), Shape(t.trace), [Gating(F.Complete), Committing], err.Nil?)
  {
    hide Transport.Valid, Shape, StepOf;
    hide Disciplined, Armed, Justified, SourceOk, CredsOk, ResumeOk, TargetOk, Complete, Differs, Below, FullCheckAt;
    stage := F.Complete;
    err := Check(t, F.Complete, b);
    QuietKeeps(old(t.trace), t.trace, b);
    Uncommitted(t.trace, 5);
    if !err.Nil? { return; }
    JustifiedStays(old(t.trace), t.trace, b, r);
    stage := F.CommitReceipt;
    ghost var before := t.trace;
    var ok := t.Commit(b, r);
    OnlyCommit(before, r, ok);
    if !ok {
      var k := t.AnyKind();
      return F.Leaf(k), stage;
    }
  }

  lemma JustifiedStays(before: seq<Event>, after: seq<Event>, b: Baseline, r: Receipt)
    requires before <= after && Justified(before, b, r)
    ensures Justified(after, b, r)
  {
    var dump, back :| Backed(before, b, r, dump, back);
    assert forall e :: e in before ==> e in after;
    assert Backed(after, b, r, dump, back);
  }

  lemma Stays(e: Event, before: seq<Event>, after: seq<Event>)
    requires e in before && before <= after
    ensures e in after
  {}

  lemma Uncommitted(tr: seq<Event>, rank: nat)
    requires Below(tr, rank) && rank <= 5
    ensures forall x: Receipt :: Committed(x, true) !in tr
  {}

  lemma OnlyCommit(tr: seq<Event>, r: Receipt, ok: bool)
    requires Below(tr, 5)
    ensures forall x: Receipt :: Committed(x, true) in tr + [Committed(r, ok)] <==> ok && x == r
  {
    Uncommitted(tr, 5);
  }

  // Transfer and verify.
  method MovePhase(t: Transport, b: Baseline, target: TargetId)
    returns (err: F.Err, stage: F.Stage, proof: T.Proof, ghost dump: string, ghost back: string)
    requires Disciplined(t.trace, b) && Below(t.trace, 2) && SourceOk(b.plan, b.source)
    requires t.Valid() && t.trace != []
    modifies t, t.hold, t.session
    ensures t.Valid() && t.hold == old(t.hold)
    ensures Primary(err) && F.DefinedStage(stage)
    ensures Disciplined(t.trace, b) && Worked(old(t.trace), t.trace) && Below(t.trace, 4)
    ensures err.Nil? ==>
      && Transferred(target, dump, true) in t.trace && TargetDumped(target, back, true) in t.trace
      && P.ProofFor(b.plan.sql, dump) == Some(proof) && P.ProofFor(b.plan.sql, back).Some?
      && P.SameProof(proof, P.ProofFor(b.plan.sql, back).value)
      && Elements(C.Names(proof.tables)) == Elements(TableNames(b.source))
    ensures !err.Nil? ==> Failed(t.trace, b, stage, err)
    ensures Grew(old(Shape(t.trace)), Shape(t.trace), COPYING[..4], err.Nil?)
  {
    hide Transport.Valid, Shape, StepOf;
    hide Disciplined, Armed, P.ProofFor, P.SameProof, SourceOk, TargetOk, TableNames, C.Names, Failed;
    back := "";
    ghost var base := Shape(t.trace);
    StepParts();
    stage := F.Transfer;
    err, proof, dump := TransferPhase(t, b, target);
    GoOn(base, COPYING[..4], 0, 2, Shape(t.trace), err.Nil?);
    if !err.Nil? { return; }
    ghost var one := t.trace;
    stage := F.Verify;
    err, back := VerifyPhase(t, b, target, proof, dump);
    GoOn(base, COPYING[..4], 2, 4, Shape(t.trace), err.Nil?);
    Stays(Transferred(target, dump, true), one, t.trace);
  }

  // Steps after provisioning.
  method CopyPhase(t: Transport, b: Baseline, target: TargetId) returns (err: F.Err, stage: F.Stage, r: Receipt)
    requires Disciplined(t.trace, b) && Below(t.trace, 2) && SourceOk(b.plan, b.source)
    requires Provisioned(Some(target)) in t.trace && TargetOk(b.plan, target)
    requires t.Valid() && t.trace != []
    modifies t, t.hold, t.session
    ensures t.Valid() && t.hold == old(t.hold)
    ensures Primary(err) && F.DefinedStage(stage)
    ensures Disciplined(t.trace, b) && Worked(old(t.trace), t.trace)
    ensures forall x: Receipt :: Committed(x, true) in t.trace <==> err.Nil? && x == r
    ensures !err.Nil? ==> Failed(t.trace, b, stage, err)
    ensures Grew(old(Shape(t.trace)), Shape(t.trace), COPYING, err.Nil?)
  {
    hide Transport.Valid, Shape, StepOf;
    hide Disciplined, Armed, P.ProofFor, P.SameProof, SourceOk, TargetOk, TableNames, C.Names, Below, Failed;
    r := Receipt(1, b.plan.digest, b.plan.binding, b.plan.pvcUid, b.plan.statefulSetUid, b.source.serverUuid,
                 target, T.Proof(0, "", []), true);
    ghost var base := Shape(t.trace);
    StepParts();
    var proof;
    ghost var dump, back;
    err, stage, proof, dump, back := MovePhase(t, b, target);
    Uncommitted(t.trace, 4);
    GoOn(base, COPYING, 0, 4, Shape(t.trace), err.Nil?);
    if !err.Nil? { return; }
    ghost var two := t.trace;
    err, stage := ShutdownPhase(t, b, target);
    Uncommitted(t.trace, 5);
    GoOn(base, COPYING, 4, 6, Shape(t.trace), err.Nil?);
    if !err.Nil? { return; }
    r := r.(proof := proof);
    Stays(Provisioned(Some(target)), old(t.trace), t.trace);
    Stays(Transferred(target, dump, true), two, t.trace);
    Stays(TargetDumped(target, back, true), two, t.trace);
    assert Backed(t.trace, b, r, dump, back);
    err, stage := CommitPhase(t, b, r);
    GoOn(base, COPYING, 6, 8, Shape(t.trace), err.Nil?);
  }

  // Nothing was changed: the target already held this receipt, and a full check for
  // completion followed.
  ghost predicate Resumed(tr: seq<Event>, b: Baseline, r: Receipt) {
    Inspected(Some(Some(r))) in tr && ResumeOk(b, r) && Below(tr, 1) && Armed(tr, F.Complete, b)
  }

  // What the steps under the hold come to: without error their receipt was committed or
  // found, and a receipt that was committed is theirs, without error.
  ghost predicate Outcome(tr: seq<Event>, b: Baseline, err: F.Err, r: Receipt) {
    && (err.Nil? ==> Committed(r, true) in tr || Resumed(tr, b, r))
    && (forall x: Receipt :: Committed(x, true) in tr ==> err.Nil? && x == r)
  }

  lemma OutcomeSnoc(tr: seq<Event>, e: Event, b: Baseline, err: F.Err, r: Receipt)
    requires Outcome(tr, b, err, r) && Rank(e) == 0
    ensures Outcome(tr + [e], b, err, r)
  {
    hide Armed;
    if err.Nil? && Resumed(tr, b, r) { ArmedSnoc(tr, e, F.Complete, b); }
  }

  method CheckReceipt(b: Baseline, r: Receipt) returns (ok: bool)
    ensures ok <==> ResumeOk(b, r)
  {
    if r.version != 1 || r.digest != b.plan.digest || r.binding != b.plan.binding || r.pvcUid != b.plan.pvcUid
       || r.statefulSetUid != b.plan.statefulSetUid || r.serverUuid != b.source.serverUuid || !r.shutdownVerified {
      return false;
    }
    return true;
  }

  method CheckTarget(p: Plan, t: TargetId) returns (ok: bool)
    ensures ok <==> TargetOk(p, t)
  {
    if t.pvcUid == "" || t.podUid == "" || t.secretUid != p.secretUid || t.pvcUid == p.pvcUid {
      return false;
    }
    return true;
  }

  // The target already holds a receipt.
  method Resume(t: Transport, b: Baseline, r: Receipt) returns (err: F.Err, stage: F.Stage)
    requires Disciplined(t.trace, b) && Below(t.trace, 1)
    requires t.trace != [] && t.trace[|t.trace| - 1] == Inspected(Some(Some(r)))
    requires t.Valid() && SourceOk(b.plan, b.source) && t.trace != []
    modifies t, t.hold, t.session
    ensures t.Valid() && t.hold == old(t.hold)
    ensures Primary(err) && F.DefinedStage(stage)
    ensures Disciplined(t.trace, b) && Quiet(old(t.trace), t.trace) && Below(t.trace, 1)
    ensures err.Nil? <==> ResumeOk(b, r) && FullCheckAt(t.trace, |old(t.trace)|, F.Complete, b)
    ensures err.Nil? ==> Resumed(t.trace, b, r)
    ensures !err.Nil? ==> Failed(t.trace, b, stage, err)
    ensures Grew(old(Shape(t.trace)), Shape(t.trace), [Gating(F.Complete)], err.Nil?)
  {
    hide Transport.Valid, Shape, StepOf;
    hide Disciplined, Armed, FullCheckAt, ResumeOk;
    var ours := CheckReceipt(b, r);
    if !ours {
      return F.Leaf(F.Partial), F.InspectTarget;
    }
    stage := F.Complete;
    err := Check(t, F.Complete, b);
    QuietKeeps(old(t.trace), t.trace, b);
    assert Inspected(Some(Some(r))) in t.trace;
  }

  // Look at the target, after the first full check.
  method Look(t: Transport, b: Baseline)
    returns (err: F.Err, stage: F.Stage, existing: Option<Receipt>, ghost empty: bool)
    requires Disciplined(t.trace, b) && Below(t.trace, 1) && SourceOk(b.plan, b.source)
    requires t.Valid() && t.trace != []
    modifies t, t.hold, t.session
    ensures t.Valid() && t.hold == old(t.hold)
    ensures Primary(err) && F.DefinedStage(stage)
    ensures Disciplined(t.trace, b) && Worked(old(t.trace), t.trace) && Below(t.trace, 1)
    ensures err.Nil? ==> t.trace != [] && t.trace[|t.trace| - 1] == Inspected(Some(existing)) && empty == existing.None?
    ensures err.Nil? ==> Armed(t.trace, F.ProvisionTarget, b)
    ensures !err.Nil? ==> Failed(t.trace, b, stage, err)
    ensures Grew(old(Shape(t.trace)), Shape(t.trace), [Gating(F.ProvisionTarget), Inspecting(empty)], err.Nil?)
  {
    hide Transport.Valid, Shape, StepOf;
    hide Disciplined, Armed, SourceOk, FullCheckAt, TargetOk, ResumeOk, Complete, Differs;
    empty, existing := true, None;
    stage := F.ProvisionTarget;
    err := Check(t, F.ProvisionTarget, b);
    QuietKeeps(old(t.trace), t.trace, b);
    if !err.Nil? { return; }
    stage := F.InspectTarget;
    ghost var before := t.trace;
    var found := t.Inspect();
    ArmedSnoc(before, Inspected(found), F.ProvisionTarget, b);
    DisciplineSnoc(before, Inspected(found), b);
    empty := found == Some(None);
    if found.None? {
      return F.Leaf(F.Partial), stage, None, empty;
    }
    existing := found.value;
  }

  // Everything done under the hold.
  method UnderHold(t: Transport, b: Baseline) returns (err: F.Err, stage: F.Stage, r: Receipt)
    requires Disciplined(t.trace, b) && Below(t.trace, 1) && SourceOk(b.plan, b.source)
    requires t.Valid() && t.trace != []
    modifies t, t.hold, t.session
    ensures t.Valid() && t.hold == old(t.hold)
    ensures Primary(err) && F.DefinedStage(stage)
    ensures Disciplined(t.trace, b) && Worked(old(t.trace), t.trace)
    ensures Outcome(t.trace, b, err, r)
    ensures !err.Nil? ==> Failed(t.trace, b, stage, err)
    ensures || Grew(old(Shape(t.trace)), Shape(t.trace), Working(true), err.Nil?)
            || Grew(old(Shape(t.trace)), Shape(t.trace), Working(false), err.Nil?)
  {
    hide Transport.Valid, Shape, StepOf;
    hide Disciplined, Armed, SourceOk, FullCheckAt, ResumeOk, Failed, Resumed, Working;
    ghost var base := Shape(t.trace);
    StepParts();
    r := Receipt(0, "", "", "", "", "", TargetId("", "", ""), T.Proof(0, "", []), false);
    var existing;
    ghost var empty;
    err, stage, existing, empty := Look(t, b);
    GoOn(base, Working(empty), 0, 2, Shape(t.trace), err.Nil?);
    if !err.Nil? { return; }
    if existing.Some? {
      r := existing.value;
      err, stage := Resume(t, b, r);
      GoOn(base, Working(false), 2, 3, Shape(t.trace), err.Nil?);
      return;
    }
    err, stage, r := Build(t, b, r);
    GoOn(base, Working(true), 2, 11, Shape(t.trace), err.Nil?);
  }

  // The target is empty: provision it and copy.
  method Build(t: Transport, b: Baseline, nothing: Receipt) returns (err: F.Err, stage: F.Stage, r: Receipt)
    requires Disciplined(t.trace, b) && Below(t.trace, 1) && SourceOk(b.plan, b.source)
    requires Armed(t.trace, F.ProvisionTarget, b)
    requires t.Valid() && t.trace != []
    modifies t, t.hold, t.session
    ensures t.Valid() && t.hold == old(t.hold)
    ensures Primary(err) && F.DefinedStage(stage)
    ensures Disciplined(t.trace, b) && Worked(old(t.trace), t.trace)
    ensures forall x: Receipt :: Committed(x, true) in t.trace <==> err.Nil? && x == r
    ensures !err.Nil? ==> Failed(t.trace, b, stage, err)
    ensures Grew(old(Shape(t.trace)), Shape(t.trace), [Provisioning] + COPYING, err.Nil?)
  {
    hide Transport.Valid, Shape, StepOf;
    hide Disciplined, Armed, SourceOk, TargetOk, CredsOk, ResumeOk, Complete, Differs;
    r := nothing;
    stage := F.ProvisionTarget;
    var target := t.Provision(b);
    if target.None? {
      var k := t.AnyKind();
      return F.Leaf(k), stage, r;
    }
    var fine := CheckTarget(b.plan, target.value);
    if !fine {
      return F.Leaf(F.Unsafe), stage, r;
    }
    err, stage, r := CopyPhase(t, b, target.value);
    assert [Provisioning] + COPYING == ([Provisioning] + COPYING)[..1] + COPYING;
  }

  // ---- The whole call ----------------------------------------------------------------------------------

  // Only teardown comes after the work.
  ghost predicate Followed(work: seq<Event>, tr: seq<Event>) {
    work <= tr && forall i :: |work| <= i < |tr| ==> tr[i].Released? || tr[i].Cleaned?
  }

  // The single cleanup ends the trace; an obtained hold is released once, just before it.
  ghost predicate TornDown(tr: seq<Event>) {
    var n := |tr|;
    && n > 0 && tr[n - 1].Cleaned?
    && (forall i :: 0 <= i < n - 1 ==> !tr[i].Cleaned?)
    && (HoldTaken(true) in tr ==> n > 1 && tr[n - 2].Released? && forall i :: 0 <= i < n - 2 ==> !tr[i].Released?)
    && (HoldTaken(true) !in tr ==> forall i :: 0 <= i < n ==> !tr[i].Released?)
  }

  method ExecuteDomain(t: Transport, p: Plan)
    returns (result: Option<Receipt>, err: F.Err, ghost b: Baseline, ghost stage: F.Stage, ghost primary: F.Err,
             ghost release: F.Err, ghost cleanup: F.Err, ghost work: seq<Event>)
    requires t.Valid() && t.trace == []
    modifies t, t.session
    ensures t.locks ==> OneSession(t.trace)
    ensures !p.valid ==> t.trace == [] && primary == F.Leaf(F.Unsafe) && stage == F.ValidatePlan
    ensures p.valid ==> TornDown(t.trace)
    ensures p.valid ==> InOrder(work, primary.Nil?)
    ensures p.valid ==> Followed(work, t.trace) && (primary.Nil? || Failed(work, b, stage, primary))
    ensures Disciplined(t.trace, b)
    ensures result.Some? <==> err.Nil?
    ensures err == F.FinalError(stage, primary, release, cleanup) && F.Redacted(err)
    ensures F.DefinedStage(stage) && Primary(primary)
    ensures result.Some? <==> primary.Nil? && !F.Real(release) && !F.Real(cleanup)
    ensures result.Some? ==> Committed(result.value, true) in t.trace || Resumed(t.trace, b, result.value)
    ensures forall x: Receipt :: Committed(x, true) in t.trace ==> primary.Nil? && (result.Some? ==> result.value == x)
    ensures forall i :: 0 <= i < |t.trace| && Rank(t.trace[i]) > 0 ==> 5 <= i && Prepared(t.trace[..5], b)
    ensures primary.Leaf? ==> F.PrimaryStage(err) == stage
  {
    hide Transport.Valid;
    hide Disciplined, TornDown, Outcome, Resumed, Prepared, Failed, Followed, InOrder;
    hide F.FinalError, F.Real, F.SafeFailure, F.PrimaryStage, F.Redacted, F.Joined;
    release, cleanup, work := F.Nil, F.Nil, [];
    result := None;
    if !p.valid {
      b := Baseline(p, Creds(0, 0, 0, 0, 0), Source("", "", "", []));
      stage, primary := F.ValidatePlan, F.Leaf(F.Unsafe);
      NoEffectsDisciplined([], b);
      SessionSeen(t);
      err := Settle(F.ValidatePlan, F.Leaf(F.Unsafe), F.Nil, F.Nil);
      return;
    }
    var retErr, at, r, released, cleaned;
    retErr, at, r, released, cleaned, b, work := Attempt(t, p);
    stage, primary, release, cleanup := at, retErr, released, cleaned;
    OutcomeMeans(t.trace, b, primary, r);
    SessionSeen(t);
    err := Settle(at, retErr, released, cleaned);
    result := if err.Nil? then Some(r) else None;
  }

  // Everything between the validation and the joining of errors: the cleanup runs on every path.
  method Attempt(t: Transport, p: Plan)
    returns (err: F.Err, stage: F.Stage, r: Receipt, released: F.Err, cleaned: F.Err, ghost b: Baseline,
             ghost work: seq<Event>)
    requires t.Valid() && t.trace == []
    modifies t, t.session
    ensures t.Valid()
    ensures Primary(err) && F.DefinedStage(stage)
    ensures TornDown(t.trace) && Disciplined(t.trace, b) && Outcome(t.trace, b, err, r)
    ensures Followed(work, t.trace) && (err.Nil? || Failed(work, b, stage, err))
    ensures forall i :: 0 <= i < |t.trace| && Rank(t.trace[i]) > 0 ==> 5 <= i && Prepared(t.trace[..5], b)
    ensures InOrder(work, err.Nil?)
  {
    hide Transport.Valid, Shape, StepOf;
    hide Disciplined, Outcome, SourceOk, CredsOk, Failed;
    var base;
    err, stage, base := Prepare(t, p);
    b := base;
    NoEffectsDisciplined(t.trace, b);
    released := F.Nil;
    r := Receipt(0, "", "", "", "", "", TargetId("", "", ""), T.Proof(0, "", []), false);
    if err.Nil? {
      err, stage, r, released, work := Held(t, base);
    } else {
      work := t.trace;
      NothingDone(t.trace, b, err, r);
    }
    ghost var last := t.trace;
    cleaned := t.Cleanup();
    DisciplineSnoc(last, Cleaned(cleaned.Nil?), b);
    OutcomeSnoc(last, Cleaned(cleaned.Nil?), b, err, r);
  }

  lemma SessionSeen(t: Transport)
    requires t.Valid()
    ensures t.locks ==> OneSession(t.trace)
  {
    if t.hold == null && t.locks {
      assert Saw(t.trace, 1, "", []);
    }
  }

  lemma OutcomeMeans(tr: seq<Event>, b: Baseline, err: F.Err, r: Receipt)
    requires Outcome(tr, b, err, r)
    ensures err.Nil? ==> Committed(r, true) in tr || Resumed(tr, b, r)
    ensures forall x: Receipt :: Committed(x, true) in tr ==> err.Nil? && x == r
  {
    hide Resumed;
  }

  lemma NothingDone(tr: seq<Event>, b: Baseline, err: F.Err, r: Receipt)
    requires Below(tr, 1) && !err.Nil?
    ensures Outcome(tr, b, err, r)
  {}

  // The steps under the hold, and its release whatever they came to.
  method Held(t: Transport, b: Baseline)
    returns (err: F.Err, stage: F.Stage, r: Receipt, released: F.Err, ghost work: seq<Event>)
    requires Prepared(t.trace, b) && Disciplined(t.trace, b) && Shape(t.trace) == PREPARING
    requires t.Valid()
    modifies t, t.hold, t.session
    ensures t.Valid() && t.hold == old(t.hold)
    ensures Primary(err) && F.DefinedStage(stage)
    ensures Disciplined(t.trace, b) && Outcome(t.trace, b, err, r)
    ensures old(t.trace) <= t.trace && |old(t.trace)| < |t.trace| && t.trace[|t.trace| - 1].Released?
    ensures forall i :: |old(t.trace)| <= i < |t.trace| - 1 ==> !Teardown(t.trace[i])
    ensures Followed(work, t.trace) && (err.Nil? || Failed(work, b, stage, err))
    ensures InOrder(work, err.Nil?)
  {
    hide Transport.Valid, Shape, StepOf;
    hide Disciplined, SourceOk, CredsOk, Outcome, Failed;
    err, stage, r := UnderHold(t, b);
    ghost var worked := t.trace;
    work := worked;
    if Grew(PREPARING, Shape(work), Working(true), err.Nil?) {
      GoAfter(PREPARING, Shape(work), Working(true), err.Nil?);
    } else {
      GoAfter(PREPARING, Shape(work), Working(false), err.Nil?);
    }
    ghost var answer;
    released, answer := t.Release();
    DisciplineSnoc(worked, Released(released.Nil?, answer), b);
    OutcomeSnoc(worked, Released(released.Nil?, answer), b, err, r);
  }

  // The deferred joins and the final redaction.
  method Settle(stage: F.Stage, primary: F.Err, release: F.Err, cleanup: F.Err) returns (err: F.Err)
    requires F.DefinedStage(stage) && Primary(primary)
    ensures err == F.FinalError(stage, primary, release, cleanup) && F.Redacted(err)
    ensures err.Nil? <==> primary.Nil? && !F.Real(release) && !F.Real(cleanup)
    ensures primary.Leaf? ==> F.PrimaryStage(err) == stage
  {
    hide F.SafeFailure, F.PrimaryStage, F.Redacted;
    var joined := F.Joined(stage, primary, F.ReleaseDDL, release);
    joined := F.Joined(stage, joined, F.CleanupHelpers, cleanup);
    err := F.SafeFailure(stage, joined);
    F.SafeFailureRedacts(stage, joined);
    F.FinalErrorNil(stage, primary, release, cleanup);
    if primary.Leaf? { F.PrimaryComesFirst(stage, primary.kind, release, cleanup); }
  }
}
