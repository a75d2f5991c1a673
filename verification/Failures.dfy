/**
  * internal/mysqlcopy/failure.go: redaction of errors and the bounded walks that
  * report their stages.  An error is the finite tree that unwrapping it yields.
  */
module Failures {

  datatype Kind = Canceled | Deadline | Partial | Unsafe | Operation | Foreign(id: nat)

  datatype Stage =
    | ReadSource | HoldDDL | ProvisionTarget | Transfer | Verify | Complete
    | ValidatePlan | CheckCredentials | InspectTarget | ShutdownTarget | CommitReceipt
    | ReleaseDDL | CleanupHelpers | CleanupNamespace
    | DeleteSourceHelper | WaitSourceHelperDeleted | DeleteTargetHelper | WaitTargetHelperDeleted
    | UnknownFailure
    | NoStage | OtherStage(name: nat)   // "" and any string that is not a constant

  datatype Code =
    | Cancelled | DeadlineExceeded | PartialTarget | SafetyRefusal | OperationFailed
    | NoCode | OtherCode(name: nat)

  // Nil is no error, Leaf a plain error, Wrap anything that unwraps to one error.
  datatype Err =
    | Nil
    | Leaf(kind: Kind)
    | Failure(stage: Stage, code: Code, cause: Err)
    | Join(children: seq<Err>)
    | Wrap(inner: Err)

  predicate DefinedStage(s: Stage) {
    !s.NoStage? && !s.OtherStage?
  }

  // ---- errors.Is, errors.As, errors.Join -------------------------------------------------

  predicate Is(e: Err, k: Kind) {
    match e
    case Nil => false
    case Leaf(kind) => kind == k
    case Failure(_, _, cause) => Is(cause, k)
    case Join(children) => exists i :: 0 <= i < |children| && Is(children[i], k)
    case Wrap(inner) => Is(inner, k)
  }

  // The first Failure that errors.As finds, or Nil.
  function FirstFailure(e: Err): (f: Err)
    ensures f.Nil? || f.Failure?
    decreases e, 0
  {
    match e
    case Nil => Nil
    case Leaf(_) => Nil
    case Failure(_, _, _) => e
    case Join(children) => FirstFailureIn(children)
    case Wrap(inner) => FirstFailure(inner)
  }

  function FirstFailureIn(es: seq<Err>): (f: Err)
    ensures f.Nil? || f.Failure?
    decreases es, 1
  {
    if es == [] then Nil
    else if FirstFailure(es[0]) != Nil then FirstFailure(es[0])
    else FirstFailureIn(es[1..])
  }

  function DropNil(es: seq<Err>): (r: seq<Err>)
    ensures forall i :: 0 <= i < |r| ==> !r[i].Nil?
  {
    if es == [] then [] else (if es[0].Nil? then [] else [es[0]]) + DropNil(es[1..])
  }

  function JoinErrors(es: seq<Err>): Err {
    if DropNil(es) == [] then Nil else Join(DropNil(es))
  }

  // ---- Redaction ------------------------------------------------------------------------------

  function SafeKind(e: Err): Kind {
    if Is(e, Canceled) then Canceled
    else if Is(e, Deadline) then Deadline
    else if Is(e, Partial) then Partial
    else if Is(e, Unsafe) then Unsafe
    else Operation
  }

  function SafeCause(e: Err): Err {
    Leaf(SafeKind(e))
  }

  function CodeOf(k: Kind): Code {
    match k
    case Canceled => Cancelled
    case Deadline => DeadlineExceeded
    case Partial => PartialTarget
    case Unsafe => SafetyRefusal
    case _ => OperationFailed
  }

  function SafeFailure(stage: Stage, e: Err): Err
    decreases e, 0
  {
    match e
    case Nil => Nil
    case Join(children) => JoinErrors(SafeFailures(stage, children))
    case _ =>
      var f := FirstFailure(e);
      if f.Failure? && !f.stage.NoStage? && !f.code.NoCode? then Failure(f.stage, f.code, SafeCause(f.cause))
      else Failure(if DefinedStage(stage) then stage else UnknownFailure, CodeOf(SafeKind(e)), SafeCause(e))
  }

  function SafeFailures(stage: Stage, es: seq<Err>): (r: seq<Err>)
    ensures |r| == |es|
    ensures forall i :: 0 <= i < |es| ==> r[i] == SafeFailure(stage, es[i])
    decreases es, 1
  {
    if es == [] then [] else [SafeFailure(stage, es[0])] + SafeFailures(stage, es[1..])
  }

  predicate Sentinel(k: Kind) {
    !k.Foreign?
  }

  // Only stages, codes and the package's own sentinels: nothing of a foreign error.
  predicate Redacted(e: Err) {
    match e
    case Nil => true
    case Failure(stage, code, cause) => !stage.NoStage? && !code.NoCode? && cause.Leaf? && Sentinel(cause.kind)
    case Join(children) =>
      children != [] && forall i :: 0 <= i < |children| ==> !children[i].Nil? && Redacted(children[i])
    case _ => false
  }

  lemma DropNilRedacted(es: seq<Err>)
    requires forall i :: 0 <= i < |es| ==> Redacted(es[i])
    ensures forall i :: 0 <= i < |DropNil(es)| ==> Redacted(DropNil(es)[i])
  {}

  // Nothing of a foreign error survives, whatever its shape.
  lemma {:induction false} SafeFailureRedacts(stage: Stage, e: Err)
    ensures Redacted(SafeFailure(stage, e))
    decreases e
  {
    if e.Join? {
      var safe := SafeFailures(stage, e.children);
      forall i | 0 <= i < |safe| ensures Redacted(safe[i]) { SafeFailureRedacts(stage, e.children[i]); }
      DropNilRedacted(safe);
    }
  }

  // Redacting again, under any stage, changes nothing: the first stage sticks.
  lemma {:induction false} RedactedIsFixed(stage: Stage, e: Err)
    requires Redacted(e)
    ensures SafeFailure(stage, e) == e
    decreases e
  {
    if e.Join? {
      var safe := SafeFailures(stage, e.children);
      forall i | 0 <= i < |safe| ensures safe[i] == e.children[i] { RedactedIsFixed(stage, e.children[i]); }
      assert safe == e.children;
      DropNothing(safe);
    } else if e.Failure? {
      assert SafeKind(e.cause) == e.cause.kind;
    }
  }

  lemma DropNothing(es: seq<Err>)
    requires forall i :: 0 <= i < |es| ==> !es[i].Nil?
    ensures DropNil(es) == es
  {
    if es != [] {
      DropNothing(es[1..]);
      assert es == [es[0]] + es[1..];
    }
  }

  lemma SafeFailureIdempotent(first: Stage, second: Stage, e: Err)
    ensures SafeFailure(second, SafeFailure(first, e)) == SafeFailure(first, e)
  {
    SafeFailureRedacts(first, e);
    RedactedIsFixed(second, SafeFailure(first, e));
  }

  // ---- The tree in the order the walks visit it --------------------------------------------------

  function Preorder(e: Err): (r: seq<Err>)
    ensures r != [] && r[0] == e
    decreases e, 0
  {
    match e
    case Nil => [e]
    case Leaf(_) => [e]
    case Failure(_, _, cause) => [e] + Preorder(cause)
    case Join(children) => [e] + PreorderAll(children)
    case Wrap(inner) => [e] + Preorder(inner)
  }

  function PreorderAll(es: seq<Err>): (r: seq<Err>)
    ensures |r| >= |es|
    decreases es, 1
  {
    if es == [] then [] else Preorder(es[0]) + PreorderAll(es[1..])
  }

  lemma PreorderAllAppend(a: seq<Err>, b: seq<Err>)
    ensures PreorderAll(a + b) == PreorderAll(a) + PreorderAll(b)
    decreases a
  {
    if a == [] {
      assert a + b == b;
    } else {
      assert (a + b)[1..] == a[1..] + b;
      PreorderAllAppend(a[1..], b);
    }
  }

  const VISITS: nat := 64

  // ---- What redaction says of a single error --------------------------------------------------------

  // errors.Is looks at every node.
  lemma {:induction false} IsSomewhere(e: Err, k: Kind)
    ensures Is(e, k) <==> Leaf(k) in Preorder(e)
    decreases e, 0
  {
    match e
    case Nil =>
    case Leaf(_) =>
    case Failure(_, _, cause) => IsSomewhere(cause, k);
    case Join(children) => IsInSome(children, k);
    case Wrap(inner) => IsSomewhere(inner, k);
  }

  lemma {:induction false} IsInSome(es: seq<Err>, k: Kind)
    ensures (exists i :: 0 <= i < |es| && Is(es[i], k)) <==> Leaf(k) in PreorderAll(es)
    decreases es, 1
  {
    if es != [] {
      IsSomewhere(es[0], k);
      IsInSome(es[1..], k);
      if exists i :: 0 <= i < |es| && Is(es[i], k) {
        var i :| 0 <= i < |es| && Is(es[i], k);
        if i > 0 { assert es[1..][i - 1] == es[i]; }
      }
      if exists i :: 0 <= i < |es[1..]| && Is(es[1..][i], k) {
        var i :| 0 <= i < |es[1..]| && Is(es[1..][i], k);
        assert es[i + 1] == es[1..][i];
      }
    }
  }

  // The position of the first Failure.
  predicate FirstAt(nodes: seq<Err>, i: nat) {
    i < |nodes| && nodes[i].Failure? && forall j :: 0 <= j < i ==> !nodes[j].Failure?
  }

  // errors.As finds the first Failure in preorder.
  lemma {:induction false} FirstFailureIs(e: Err, i: nat)
    requires FirstAt(Preorder(e), i)
    ensures FirstFailure(e) == Preorder(e)[i]
    decreases e, 0
  {
    match e
    case Nil =>
    case Leaf(_) =>
    case Failure(_, _, cause) => assert Preorder(e)[0].Failure?;
    case Join(children) =>
      FirstLater([e], PreorderAll(children), i);
      FirstFailureInIs(children, i - 1);
    case Wrap(inner) =>
      FirstLater([e], Preorder(inner), i);
      FirstFailureIs(inner, i - 1);
  }

  lemma FirstLater(a: seq<Err>, b: seq<Err>, i: nat)
    requires FirstAt(a + b, i)
    ensures i < |a| ==> FirstAt(a, i)
    ensures i >= |a| ==> FirstAt(b, i - |a|) && forall j :: 0 <= j < |a| ==> !a[j].Failure?
  {
    assert forall j :: 0 <= j < |a| ==> (a + b)[j] == a[j];
    assert forall j :: 0 <= j < |b| ==> (a + b)[|a| + j] == b[j];
  }

  lemma {:induction false} FirstFailureInIs(es: seq<Err>, i: nat)
    requires FirstAt(PreorderAll(es), i)
    ensures FirstFailureIn(es) == PreorderAll(es)[i]
    decreases es, 1
  {
    var first, rest := Preorder(es[0]), PreorderAll(es[1..]);
    FirstLater(first, rest, i);
    if i < |first| {
      FirstFailureIs(es[0], i);
    } else {
      NoFailureFound(es[0]);
      FirstFailureInIs(es[1..], i - |first|);
    }
  }

  predicate NoFailureIn(nodes: seq<Err>) {
    forall j :: 0 <= j < |nodes| ==> !nodes[j].Failure?
  }

  lemma NoneInParts(a: seq<Err>, b: seq<Err>)
    requires NoFailureIn(a + b)
    ensures NoFailureIn(a) && NoFailureIn(b)
  {
    forall j | 0 <= j < |a| ensures !a[j].Failure? { assert (a + b)[j] == a[j]; }
    forall j | 0 <= j < |b| ensures !b[j].Failure? { assert (a + b)[|a| + j] == b[j]; }
  }

  lemma {:induction false} NoFailureFound(e: Err)
    requires NoFailureIn(Preorder(e))
    ensures FirstFailure(e) == Nil
    decreases e, 0
  {
    hide NoFailureIn;
    match e
    case Nil =>
    case Leaf(_) =>
    case Failure(_, _, _) => NotFirst(e);
    case Join(children) =>
      NoneInParts([e], PreorderAll(children));
      NoneFound(children);
    case Wrap(inner) =>
      NoneInParts([e], Preorder(inner));
      NoFailureFound(inner);
  }

  lemma NotFirst(e: Err)
    requires NoFailureIn(Preorder(e))
    ensures !e.Failure?
  {
    assert Preorder(e)[0] == e;
  }

  lemma {:induction false} NoneFound(es: seq<Err>)
    requires NoFailureIn(PreorderAll(es))
    ensures FirstFailureIn(es) == Nil
    decreases es, 1
  {
    hide NoFailureIn;
    if es != [] {
      NoneInParts(Preorder(es[0]), PreorderAll(es[1..]));
      NoFailureFound(es[0]);
      NoneFound(es[1..]);
    }
  }

  // The code and cause a kind of error is reported with, the first kind that occurs in this order:
  // cancelled, deadline, partial target, refusal, anything else.
  predicate Reduces(nodes: seq<Err>, code: Code, cause: Err) {
    if Leaf(Canceled) in nodes then code == Cancelled && cause == Leaf(Canceled)
    else if Leaf(Deadline) in nodes then code == DeadlineExceeded && cause == Leaf(Deadline)
    else if Leaf(Partial) in nodes then code == PartialTarget && cause == Leaf(Partial)
    else if Leaf(Unsafe) in nodes then code == SafetyRefusal && cause == Leaf(Unsafe)
    else code == OperationFailed && cause == Leaf(Operation)
  }

  lemma KindReduces(e: Err)
    ensures Reduces(Preorder(e), CodeOf(SafeKind(e)), SafeCause(e))
  {
    hide Is, Preorder;
    IsSomewhere(e, Canceled);
    IsSomewhere(e, Deadline);
    IsSomewhere(e, Partial);
    IsSomewhere(e, Unsafe);
  }

  // A single error that holds no Failure is reported under the given stage, or as unknown.
  lemma SingleRedaction(stage: Stage, e: Err)
    requires !e.Nil? && !e.Join? && NoFailureIn(Preorder(e))
    ensures var f := SafeFailure(stage, e);
            && f.Failure? && Reduces(Preorder(e), f.code, f.cause)
            && f.stage == if stage.NoStage? || stage.OtherStage? then UnknownFailure else stage
  {
    NoFailureFound(e);
    KindReduces(e);
  }

  // One that holds a Failure with stage and code keeps both, and the kind of its cause.
  lemma FailureKept(stage: Stage, e: Err, i: nat)
    requires !e.Join? && FirstAt(Preorder(e), i)
    requires !Preorder(e)[i].stage.NoStage? && !Preorder(e)[i].code.NoCode?
    ensures var f, g := SafeFailure(stage, e), Preorder(e)[i];
            f.Failure? && f.stage == g.stage && f.code == g.code && exists c :: Reduces(Preorder(g.cause), c, f.cause)
  {
    FirstFailureIs(e, i);
    KindReduces(Preorder(e)[i].cause);
  }

  // What the members of a group redact to.
  function Members(stage: Stage, es: seq<Err>): seq<Err> {
    DropNil(SafeFailures(stage, es))
  }

  // A group keeps its order, and loses exactly the members that redact to nothing.
  lemma GroupRedaction(stage: Stage, before: seq<Err>, one: Err, after: seq<Err>)
    ensures var safe := SafeFailure(stage, one);
            Members(stage, before + [one] + after)
            == Members(stage, before) + (if safe.Nil? then [] else [safe]) + Members(stage, after)
    ensures SafeFailure(stage, Join(before))
         == if Members(stage, before) == [] then Nil else Join(Members(stage, before))
  {
    hide SafeFailure, DropNil, SafeFailures;
    var a, b, c := SafeFailures(stage, before), SafeFailures(stage, [one]), SafeFailures(stage, after);
    assert SafeFailures(stage, before + [one] + after) == a + b + c;
    DropNilAppend(a + b, c);
    DropNilAppend(a, b);
    OneKept(SafeFailure(stage, one));
    assert b == [SafeFailure(stage, one)];
    GroupIs(stage, before);
  }

  lemma GroupIs(stage: Stage, es: seq<Err>)
    ensures SafeFailure(stage, Join(es)) == if Members(stage, es) == [] then Nil else Join(Members(stage, es))
  {}

  lemma OneKept(e: Err)
    ensures DropNil([e]) == if e.Nil? then [] else [e]
  {
    assert [e][1..] == [];
  }

  lemma {:induction false} DropNilAppend(a: seq<Err>, b: seq<Err>)
    ensures DropNil(a + b) == DropNil(a) + DropNil(b)
    decreases |a|
  {
    if a == [] {
      assert a + b == b;
    } else {
      assert (a + b)[1..] == a[1..] + b && (a + b)[0] == a[0];
      DropNilAppend(a[1..], b);
    }
  }

  function Take<T>(s: seq<T>, n: nat): seq<T> {
    if n <= |s| then s[..n] else s
  }

  // Unwrapping a node: what takes its place at the head of the queue.
  function Unwrapped(e: Err): seq<Err> {
    match e
    case Join(children) => Take(children, VISITS)
    case Failure(_, _, cause) => [cause]
    case Wrap(inner) => [inner]
    case _ => []
  }

  lemma TakeConcat<T>(a: seq<T>, b: seq<T>, c: seq<T>, n: nat)
    requires Take(a, n) == Take(b, n) && (|a| == |b| || (|a| >= n && |b| >= n))
    ensures Take(a + c, n) == Take(b + c, n)
  {
    if |a| >= n {
      assert (a + c)[..n] == a[..n] && (b + c)[..n] == b[..n];
    } else {
      assert a == b;
    }
  }

  // Cutting off the children beyond the visit bound cannot be noticed within it.
  lemma CutChildren(e: Err, n: nat)
    requires n <= VISITS
    ensures var all := Preorder(e)[1..];
            var cut := PreorderAll(Unwrapped(e));
            Take(cut, n) == Take(all, n) && (|cut| == |all| || (|cut| >= n && |all| >= n))
  {
    match e
    case Join(children) =>
      assert Preorder(e)[1..] == PreorderAll(children);
      CutList(children, n);
    case Failure(_, _, cause) => Single(cause); assert Preorder(e)[1..] == Preorder(cause);
    case Wrap(inner) => Single(inner); assert Preorder(e)[1..] == Preorder(inner);
    case _ =>
  }

  lemma Single(e: Err)
    ensures PreorderAll([e]) == Preorder(e)
  {
    assert [e][1..] == [] && PreorderAll([e]) == Preorder(e) + PreorderAll([]);
  }

  lemma CutList(es: seq<Err>, n: nat)
    requires n <= VISITS
    ensures var cut, all := PreorderAll(Take(es, VISITS)), PreorderAll(es);
            Take(cut, n) == Take(all, n) && (|cut| == |all| || (|cut| >= n && |all| >= n))
  {
    if |es| > VISITS {
      var kept, dropped := es[..VISITS], es[VISITS..];
      assert es == kept + dropped;
      PreorderAllAppend(kept, dropped);
      assert (PreorderAll(kept) + PreorderAll(dropped))[..n] == PreorderAll(kept)[..n];
    } else {
      assert Take(es, VISITS) == es;
    }
  }

  lemma PreorderStart(queue: seq<Err>)
    requires queue != []
    ensures PreorderAll(queue) == Preorder(queue[0]) + PreorderAll(queue[1..])
  {}

  // One turn of the worklist visits the next node of the preorder.
  lemma TurnVisits(queue: seq<Err>, n: nat)
    requires queue != [] && 0 < n <= VISITS
    ensures var next := Unwrapped(queue[0]) + queue[1..];
            && PreorderAll(queue)[0] == queue[0]
            && Take(PreorderAll(next), n - 1) == Take(PreorderAll(queue)[1..], n - 1)
  {
    hide Preorder, Unwrapped, PreorderAll, Take;
    var e, rest := queue[0], queue[1..];
    var cut, all, more := PreorderAll(Unwrapped(e)), Preorder(e)[1..], PreorderAll(rest);
    PreorderAllAppend(Unwrapped(e), rest);
    CutChildren(e, n - 1);
    PreorderStart(queue);
    assert PreorderAll(queue)[1..] == all + more by { TailOfSum(Preorder(e), more); }
    TakeConcat(cut, all, more, n - 1);
  }

  lemma TailOfSum<T>(a: seq<T>, b: seq<T>)
    requires a != []
    ensures (a + b)[0] == a[0] && (a + b)[1..] == a[1..] + b
  {}

  // ---- FailureStages, FailureInfo, StageOf ----------------------------------------------------------

  // The distinct defined stages of a list of nodes, in order of first appearance.
  function StagesIn(nodes: seq<Err>): seq<Stage> {
    if nodes == [] then []
    else
      var n := |nodes| - 1;
      AddStage(StagesIn(nodes[..n]), nodes[n])
  }

  function AddStage(stages: seq<Stage>, e: Err): seq<Stage> {
    if e.Failure? && DefinedStage(e.stage) && e.stage !in stages then stages + [e.stage] else stages
  }

  const ALL_STAGES: seq<Stage> :=
    [ReadSource, HoldDDL, ProvisionTarget, Transfer, Verify, Complete, ValidatePlan, CheckCredentials, InspectTarget,
     ShutdownTarget, CommitReceipt, ReleaseDDL, CleanupHelpers, CleanupNamespace, DeleteSourceHelper,
     WaitSourceHelperDeleted, DeleteTargetHelper, WaitTargetHelperDeleted, UnknownFailure]

  lemma DefinedStagesListed(s: Stage)
    requires DefinedStage(s)
    ensures s in ALL_STAGES
  {}

  ghost predicate DistinctDefined(stages: seq<Stage>) {
    && (forall i, j :: 0 <= i < j < |stages| ==> stages[i] != stages[j])
    && (forall i :: 0 <= i < |stages| ==> DefinedStage(stages[i]))
  }

  lemma StagesInDistinct(nodes: seq<Err>)
    ensures DistinctDefined(StagesIn(nodes))
  {}

  lemma Pigeonhole(stages: seq<Stage>, from: set<Stage>)
    requires forall i, j :: 0 <= i < j < |stages| ==> stages[i] != stages[j]
    requires forall i :: 0 <= i < |stages| ==> stages[i] in from
    ensures |stages| <= |from|
  {
    if stages != [] {
      var n := |stages| - 1;
      Pigeonhole(stages[..n], from - {stages[n]});
    }
  }

  lemma SetOfAtMost(xs: seq<Stage>)
    ensures |set x | x in xs| <= |xs|
  {
    if xs != [] {
      var n := |xs| - 1;
      SetOfAtMost(xs[..n]);
      assert xs == xs[..n] + [xs[n]];
      assert (set x | x in xs) == (set x | x in xs[..n]) + {xs[n]};
    }
  }

  // There are nineteen constants, so the cap of twenty reported stages is never reached.
  lemma CapNeverReached(stages: seq<Stage>)
    requires DistinctDefined(stages)
    ensures |stages| < 20
  {
    forall i | 0 <= i < |stages| ensures stages[i] in (set x | x in ALL_STAGES) { DefinedStagesListed(stages[i]); }
    Pigeonhole(stages, set x | x in ALL_STAGES);
    SetOfAtMost(ALL_STAGES);
  }

  // Where a worklist stands after some visits: its queue continues the preorder.
  ghost predicate OnTrack(pre: seq<Err>, queue: seq<Err>, visited: nat) {
    && visited <= |pre| && visited <= VISITS
    && Take(PreorderAll(queue), VISITS - visited) == Take(pre[visited..], VISITS - visited)
  }

  lemma TrackStart(e: Err)
    ensures OnTrack(Preorder(e), [e], 0)
  {
    Single(e);
    assert Preorder(e)[0..] == Preorder(e);
  }

  lemma TrackTurn(pre: seq<Err>, queue: seq<Err>, visited: nat)
    requires OnTrack(pre, queue, visited) && queue != [] && visited < VISITS
    ensures visited < |pre| && pre[visited] == queue[0]
    ensures OnTrack(pre, Unwrapped(queue[0]) + queue[1..], visited + 1)
  {
    hide Preorder, PreorderAll, Unwrapped;
    var n := VISITS - visited;
    PreorderStart(queue);
    TurnVisits(queue, n);
    var a, b := PreorderAll(queue), pre[visited..];
    assert Take(a, n)[0] == a[0] == queue[0];
    assert Take(b, n)[0] == b[0];
    TakeTail(a, b, n);
    assert b[1..] == pre[visited + 1..];
  }

  lemma TakeTail<T>(a: seq<T>, b: seq<T>, n: nat)
    requires n > 0 && Take(a, n) == Take(b, n) && a != [] && b != []
    ensures Take(a[1..], n - 1) == Take(b[1..], n - 1)
  {
    assert Take(a, n)[1..] == Take(a[1..], n - 1);
    assert Take(b, n)[1..] == Take(b[1..], n - 1);
  }

  lemma TrackEnd(pre: seq<Err>, queue: seq<Err>, visited: nat)
    requires OnTrack(pre, queue, visited) && (queue == [] || visited == VISITS)
    ensures pre[..visited] == Take(pre, VISITS)
  {
    if visited < VISITS {
      assert Take(pre[visited..], VISITS - visited) == [];
    }
  }

  // The walk visits at most 64 nodes, and reports exactly the stages of the first 64 in
  // preorder: neither the cut of long groups nor the cap on the result is ever noticed.
  method FailureStages(err: Err) returns (stages: seq<Stage>)
    ensures stages == StagesIn(Take(Preorder(err), VISITS))
  {
    hide Preorder, Unwrapped, PreorderAll;
    var queue := [err];
    stages := [];
    var visited := 0;
    ghost var pre := Preorder(err);
    TrackStart(err);
    while |queue| > 0 && visited < 64 && |stages| < 20
      invariant OnTrack(pre, queue, visited)
      invariant stages == StagesIn(pre[..visited])
      decreases 64 - visited
    {
      var e := queue[0];
      TrackTurn(pre, queue, visited);
      assert pre[..visited + 1][..visited] == pre[..visited];
      queue := Unwrapped(e) + queue[1..];
      stages := AddStage(stages, e);
      visited := visited + 1;
    }
    StagesInDistinct(pre[..visited]);
    CapNeverReached(stages);
    TrackEnd(pre, queue, visited);
  }

  function FirstFailureNode(nodes: seq<Err>): (f: Err)
    ensures f.Nil? || (f.Failure? && f in nodes)
  {
    if nodes == [] then Nil
    else if nodes[0].Failure? then nodes[0]
    else FirstFailureNode(nodes[1..])
  }

  function ReportedStage(s: Stage): Stage {
    if DefinedStage(s) then s else UnknownFailure
  }

  function ReportedCode(c: Code): Code {
    if c.NoCode? || c.OtherCode? then OperationFailed else c
  }

  // The stage and code of the first Failure among the first 64 nodes.
  function Info(err: Err): (Stage, Code) {
    var f := FirstFailureNode(Take(Preorder(err), VISITS));
    if f.Failure? then (ReportedStage(f.stage), ReportedCode(f.code))
    else if err.Nil? then (NoStage, NoCode)
    else (UnknownFailure, OperationFailed)
  }

  // Nothing but the package's own stages and codes is ever reported.
  lemma InfoVocabulary(err: Err)
    ensures err.Nil? <==> Info(err) == (NoStage, NoCode)
    ensures !err.Nil? ==>
      && DefinedStage(Info(err).0)
      && Info(err).1 in {Cancelled, DeadlineExceeded, PartialTarget, SafetyRefusal, OperationFailed}
  {
    assert err.Nil? ==> Preorder(err) == [Nil];
  }

  method FailureInfo(err: Err) returns (stage: Stage, code: Code)
    ensures (stage, code) == Info(err)
  {
    hide Preorder, Unwrapped, PreorderAll;
    var queue := [err];
    var visited := 0;
    ghost var pre := Preorder(err);
    TrackStart(err);
    while |queue| > 0 && visited < 64
      invariant OnTrack(pre, queue, visited)
      invariant FirstFailureNode(pre[..visited]) == Nil
      decreases 64 - visited
    {
      var e := queue[0];
      TrackTurn(pre, queue, visited);
      FirstFailureSnoc(pre[..visited], e);
      assert pre[..visited + 1] == pre[..visited] + [e];
      if e.Failure? {
        FirstFailureStays(pre[..visited + 1], Take(pre, VISITS));
        return ReportedStage(e.stage), ReportedCode(e.code);
      }
      queue := Unwrapped(e) + queue[1..];
      visited := visited + 1;
    }
    TrackEnd(pre, queue, visited);
    if err.Nil? {
      return NoStage, NoCode;
    }
    return UnknownFailure, OperationFailed;
  }

  lemma {:induction false} FirstFailureSnoc(nodes: seq<Err>, e: Err)
    ensures FirstFailureNode(nodes) == Nil ==> FirstFailureNode(nodes + [e]) == (if e.Failure? then e else Nil)
  {
    if nodes == [] {
      assert nodes + [e] == [e] && [e][1..] == [];
      assert FirstFailureNode([]) == Nil;
    } else {
      FirstFailureSnoc(nodes[1..], e);
      assert (nodes + [e])[0] == nodes[0] && (nodes + [e])[1..] == nodes[1..] + [e];
    }
  }

  lemma FirstFailureStays(a: seq<Err>, b: seq<Err>)
    requires a <= b && FirstFailureNode(a) != Nil
    ensures FirstFailureNode(b) == FirstFailureNode(a)
  {
    if !a[0].Failure? { FirstFailureStays(a[1..], b[1..]); }
  }

  function PrimaryStage(err: Err): Stage {
    var stages := StagesIn(Take(Preorder(err), VISITS));
    if stages != [] then stages[0] else if err.Nil? then NoStage else UnknownFailure
  }

  method StageOf(err: Err) returns (stage: Stage)
    ensures stage == PrimaryStage(err)
  {
    var stages := FailureStages(err);
    if |stages| > 0 {
      return stages[0];
    }
    if err.Nil? {
      return NoStage;
    }
    return UnknownFailure;
  }

  // ---- Teardown -----------------------------------------------------------------------------------

  // The deferred functions of ExecuteDomain: a failed release and a failed cleanup are
  // joined after the primary error, and the result is redacted once more.
  function Joined(stage: Stage, err: Err, teardown: Stage, failed: Err): Err {
    if failed.Nil? then err else JoinErrors([SafeFailure(stage, err), SafeFailure(teardown, failed)])
  }

  function FinalError(stage: Stage, primary: Err, release: Err, cleanup: Err): Err {
    SafeFailure(stage, Joined(stage, Joined(stage, primary, ReleaseDDL, release), CleanupHelpers, cleanup))
  }

  // The head of an error: the node reached through the first children of its groups.
  function Head(e: Err): Err {
    if e.Join? && e.children != [] then Head(e.children[0]) else e
  }

  function Nesting(e: Err): nat {
    if e.Join? && e.children != [] then 1 + Nesting(e.children[0]) else 0
  }

  lemma HeadPosition(e: Err)
    ensures Nesting(e) < |Preorder(e)| && Preorder(e)[Nesting(e)] == Head(e)
    ensures forall i :: 0 <= i < Nesting(e) ==> Preorder(e)[i].Join?
  {
    if e.Join? && e.children != [] {
      HeadPosition(e.children[0]);
      var first := Preorder(e.children[0]);
      assert Preorder(e) == [e] + (first + PreorderAll(e.children[1..]));
      assert forall i :: 0 < i <= |first| ==> Preorder(e)[i] == first[i - 1];
    }
  }

  lemma {:induction false} StagesInPrefix(a: seq<Err>, b: seq<Err>)
    requires a <= b
    ensures StagesIn(a) <= StagesIn(b)
    decreases |b|
  {
    hide DefinedStage;
    if |a| < |b| {
      var n := |b| - 1;
      StagesInPrefix(a, b[..n]);
      StagesInSnoc(b[..n], b[n]);
      assert b == b[..n] + [b[n]];
    } else {
      assert a == b;
    }
  }

  lemma StagesInSnoc(nodes: seq<Err>, e: Err)
    ensures StagesIn(nodes + [e]) == AddStage(StagesIn(nodes), e)
  {
    hide AddStage;
    assert (nodes + [e])[..|nodes|] == nodes;
  }

  lemma {:induction false} OnlyJoins(nodes: seq<Err>)
    requires forall i :: 0 <= i < |nodes| ==> nodes[i].Join?
    ensures StagesIn(nodes) == [] && FirstFailureNode(nodes) == Nil
  {
    hide DefinedStage;
    if nodes != [] {
      OnlyJoins(nodes[..|nodes| - 1]);
      OnlyJoins(nodes[1..]);
    }
  }

  // A Failure at the head of at most 63 nested groups is the one reported.
  lemma HeadReported(e: Err)
    requires Head(e).Failure? && DefinedStage(Head(e).stage) && Nesting(e) < VISITS
    ensures PrimaryStage(e) == Head(e).stage
    ensures Info(e) == (Head(e).stage, ReportedCode(Head(e).code))
  {
    hide Preorder, Head, Nesting, StagesIn, FirstFailureNode, ReportedCode, DefinedStage;
    HeadPosition(e);
    var k, f := Nesting(e), Head(e);
    var pre := Preorder(e);
    var seen := Take(pre, VISITS);
    assert seen[..k + 1] == pre[..k] + [f];
    assert forall i :: 0 <= i < k ==> pre[..k][i].Join?;
    FailureAfterJoins(pre[..k], f);
    StagesInPrefix(seen[..k + 1], seen);
    FirstFailureStays(seen[..k + 1], seen);
  }

  lemma FailureAfterJoins(joins: seq<Err>, f: Err)
    requires forall i :: 0 <= i < |joins| ==> joins[i].Join?
    requires f.Failure? && DefinedStage(f.stage)
    ensures StagesIn(joins + [f]) == [f.stage] && FirstFailureNode(joins + [f]) == f
  {
    hide StagesIn, FirstFailureNode, DefinedStage;
    OnlyJoins(joins);
    StagesInSnoc(joins, f);
    FirstFailureSnoc(joins, f);
  }

  // However many teardown failures follow, the primary failure's stage and code come first.
  lemma PrimaryComesFirst(stage: Stage, kind: Kind, release: Err, cleanup: Err)
    requires DefinedStage(stage)
    ensures var e := FinalError(stage, Leaf(kind), release, cleanup);
            && !e.Nil?
            && PrimaryStage(e) == stage
            && Info(e) == (stage, CodeOf(SafeKind(Leaf(kind))))
  {
    var p := SafeFailure(stage, Leaf(kind));
    assert p == Failure(stage, CodeOf(SafeKind(Leaf(kind))), SafeCause(Leaf(kind)));
    var a := Joined(stage, Leaf(kind), ReleaseDDL, release);
    JoinedHead(stage, Leaf(kind), p, ReleaseDDL, release, 0);
    SafeFailureRedacts(stage, Leaf(kind));
    JoinedHead(stage, a, SafeFailure(stage, a), CleanupHelpers, cleanup, 1);
    HeadReported(FinalError(stage, Leaf(kind), release, cleanup));
  }

  // Joining and redacting keeps the head, at most one group deeper.
  lemma JoinedHead(stage: Stage, err: Err, safe: Err, teardown: Stage, failed: Err, depth: nat)
    requires safe == SafeFailure(stage, err) && Head(safe).Failure? && Nesting(safe) <= depth
    ensures var e := SafeFailure(stage, Joined(stage, err, teardown, failed));
            Head(e) == Head(safe) && Nesting(e) <= depth + 1
  {
    if !failed.Nil? {
      var t := SafeFailure(teardown, failed);
      SafeFailureRedacts(stage, err);
      SafeFailureRedacts(teardown, failed);
      var es := [safe, t];
      assert DropNil(es) == [safe] + DropNil(es[1..]);
      assert es[1..] == [t];
      DropNilRedacted(es);
      RedactedIsFixed(stage, JoinErrors(es));
    }
  }

  // The report on e is that of the failure f.
  predicate Reports(e: Err, f: Err) {
    f.Failure? && PrimaryStage(e) == f.stage && Info(e) == (f.stage, ReportedCode(f.code))
  }

  // Real, of a known stage, and not below more groups than the walks can get through.
  predicate Reportable(teardown: Stage, failed: Err) {
    var safe := SafeFailure(teardown, failed);
    Real(failed) && Nesting(safe) <= 60 && (Head(safe).Failure? ==> DefinedStage(Head(safe).stage))
  }

  // Without a primary failure the first failed teardown step is reported, the release before
  // the cleanup.
  lemma TeardownReported(stage: Stage, release: Err, cleanup: Err)
    ensures FinalError(stage, Nil, Nil, Nil) == Nil
    ensures var e := FinalError(stage, Nil, release, cleanup);
            && (Reportable(ReleaseDDL, release) ==> Reports(e, Head(SafeFailure(ReleaseDDL, release))))
            && (!Real(release) && Reportable(CleanupHelpers, cleanup) ==>
                  Reports(e, Head(SafeFailure(CleanupHelpers, cleanup))))
            && (release.Leaf? ==> PrimaryStage(e) == ReleaseDDL && Info(e) == (ReleaseDDL, CodeOf(SafeKind(release))))
            && (!Real(release) && cleanup.Leaf? ==>
                  PrimaryStage(e) == CleanupHelpers && Info(e) == (CleanupHelpers, CodeOf(SafeKind(cleanup))))
  {
    hide SafeFailure, Real, Info, PrimaryStage, FinalError, Reportable, Head;
    SafeFailureOfNil(stage);
    FinalErrorOfNil(stage);
    PlainFailure(ReleaseDDL, release);
    PlainFailure(CleanupHelpers, cleanup);
    if Reportable(ReleaseDDL, release) { ReleaseReported(stage, release, cleanup); }
    if !Real(release) && Reportable(CleanupHelpers, cleanup) { CleanupReported(stage, release, cleanup); }
  }

  lemma ReleaseReported(stage: Stage, release: Err, cleanup: Err)
    requires Reportable(ReleaseDDL, release)
    ensures Reports(FinalError(stage, Nil, release, cleanup), Head(SafeFailure(ReleaseDDL, release)))
  {
    hide SafeFailure, Real, Info, PrimaryStage, Joined;
    var a := Joined(stage, Nil, ReleaseDDL, release);
    JoinOne(stage, ReleaseDDL, release);
    JoinedHead(stage, a, SafeFailure(stage, a), CleanupHelpers, cleanup, 61);
    HeadReported(FinalError(stage, Nil, release, cleanup));
  }

  lemma CleanupReported(stage: Stage, release: Err, cleanup: Err)
    requires !Real(release) && Reportable(CleanupHelpers, cleanup)
    ensures Reports(FinalError(stage, Nil, release, cleanup), Head(SafeFailure(CleanupHelpers, cleanup)))
  {
    hide SafeFailure, Real, Info, PrimaryStage;
    SafeFailureOfNil(stage);
    SafeFailureNil(ReleaseDDL, release);
    assert Joined(stage, Nil, ReleaseDDL, release) == Nil by { assert [Nil, Nil][1..] == [Nil] && [Nil][1..] == []; }
    JoinOne(stage, CleanupHelpers, cleanup);
    HeadReported(FinalError(stage, Nil, release, cleanup));
  }

  lemma FinalErrorOfNil(stage: Stage)
    ensures FinalError(stage, Nil, Nil, Nil) == Nil
  {}

  lemma PlainFailure(teardown: Stage, e: Err)
    requires DefinedStage(teardown)
    ensures e.Leaf? ==> Reportable(teardown, e) && ReportedCode(CodeOf(SafeKind(e))) == CodeOf(SafeKind(e))
    ensures e.Leaf? ==> Head(SafeFailure(teardown, e)) == Failure(teardown, CodeOf(SafeKind(e)), SafeCause(e))
  {}

  lemma SafeFailureOfNil(stage: Stage)
    ensures SafeFailure(stage, Nil) == Nil
  {}

  // An error that is more than an empty group.
  predicate Real(e: Err) {
    match e
    case Nil => false
    case Join(children) => exists i :: 0 <= i < |children| && Real(children[i])
    case _ => true
  }

  lemma {:induction false} SafeFailureNil(stage: Stage, e: Err)
    ensures SafeFailure(stage, e).Nil? <==> !Real(e)
    decreases e
  {
    if e.Join? {
      var safe := SafeFailures(stage, e.children);
      forall i | 0 <= i < |safe| ensures safe[i].Nil? <==> !Real(e.children[i]) {
        SafeFailureNil(stage, e.children[i]);
      }
      DropNilEmpty(safe);
    }
  }

  lemma DropNilEmpty(es: seq<Err>)
    ensures DropNil(es) == [] <==> forall i :: 0 <= i < |es| ==> es[i].Nil?
  {
    if es != [] {
      DropNilEmpty(es[1..]);
      assert forall i :: 0 < i < |es| ==> es[i] == es[1..][i - 1];
    }
  }

  lemma {:induction false} RedactedHead(e: Err)
    requires Redacted(e) && !e.Nil?
    ensures Head(e).Failure?
    decreases e
  {
    if e.Join? { RedactedHead(e.children[0]); }
  }

  lemma JoinOne(stage: Stage, teardown: Stage, failed: Err)
    requires Real(failed)
    ensures var e := SafeFailure(stage, Joined(stage, Nil, teardown, failed));
            && Head(e) == Head(SafeFailure(teardown, failed)) && Head(e).Failure?
            && Nesting(e) == 1 + Nesting(SafeFailure(teardown, failed))
  {
    var t := SafeFailure(teardown, failed);
    SafeFailureNil(teardown, failed);
    SafeFailureRedacts(teardown, failed);
    RedactedHead(t);
    var es := [Nil, t];
    assert es[1..] == [t] && [t][1..] == [];
    assert DropNil([t]) == [t] + DropNil([]);
    assert DropNil(es) == [] + DropNil([t]);
    RedactedIsFixed(stage, Join([t]));
  }

  lemma RedactedReal(e: Err)
    requires Redacted(e) && !e.Nil?
    ensures Real(e)
  {
    if e.Join? { RedactedReal(e.children[0]); }
  }

  // Joining loses no failure and invents none.
  lemma JoinedReal(stage: Stage, e: Err, teardown: Stage, failed: Err)
    ensures Real(Joined(stage, e, teardown, failed)) <==> Real(e) || Real(failed)
  {
    if !failed.Nil? {
      var es := [SafeFailure(stage, e), SafeFailure(teardown, failed)];
      SafeFailureRedacts(stage, e);
      SafeFailureRedacts(teardown, failed);
      SafeFailureNil(stage, e);
      SafeFailureNil(teardown, failed);
      DropNilRedacted(es);
      DropNilEmpty(es);
      assert es[0] == SafeFailure(stage, e) && es[1] == SafeFailure(teardown, failed);
      if JoinErrors(es) != Nil { RedactedReal(JoinErrors(es)); }
    }
  }

  // The call succeeds exactly when neither it nor its teardown failed.
  lemma FinalErrorNil(stage: Stage, primary: Err, release: Err, cleanup: Err)
    ensures FinalError(stage, primary, release, cleanup).Nil? <==> !Real(primary) && !Real(release) && !Real(cleanup)
  {
    hide SafeFailure, Real;
    var a := Joined(stage, primary, ReleaseDDL, release);
    JoinedReal(stage, primary, ReleaseDDL, release);
    JoinedReal(stage, a, CleanupHelpers, cleanup);
    SafeFailureNil(stage, Joined(stage, a, CleanupHelpers, cleanup));
  }
}
