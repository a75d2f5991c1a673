/**
  * internal/pvccopy/executor.go: one PVC copy through helper pods, as the trace of its
  * calls on a transport whose every answer is arbitrary.
  */
module PvcExecutor {
  import opened Options
  import A = Archive
  import TS = TarStream
  import IO = ArchiveIO
  import Rc = Receipts
  import V = Volumes
  import E = ArchiveExport
  import L = PvcLocal

  datatype Ref = Ref(namespace: string, name: string, uid: string)
  datatype Pvc = Pvc(ref: Ref, volume: string, filesystem: bool, bound: bool, deleting: bool, offline: bool,
                     pending: bool)
  datatype Pod = Pod(namespace: string, name: string, uid: string, phase: string, claims: seq<string>)
  datatype Helper = Helper(namespace: string, name: string, uid: string, owner: string, pvc: Ref, readOnly: bool,
                           image: string)
  datatype Spec = Spec(namespace: string, name: string, owner: string, pvc: Ref, readOnly: bool, image: string)

  // `valid` is the verdict of Plan.Validate, `binding` the target with tenant, project and environment.
  datatype Plan = Plan(valid: bool, copy: V.CopyPlan, source: Ref, target: Ref, image: string, binding: string)
  datatype Policy = Policy(imagePinned: bool, image: string, namespaces: seq<string>, binding: string)

  predicate PolicyOk(policy: Policy, p: Plan) {
    && policy.imagePinned && p.image == policy.image && policy.binding == p.binding
    && p.source.namespace in policy.namespaces
  }

  // ---- The safety check ------------------------------------------------------------------------

  // The two claims as they must be read back.  Before both helpers exist the target may still
  // wait for its first consumer.
  predicate ClaimsFine(p: Plan, source: Pvc, target: Pvc, helpers: nat) {
    && source.ref == p.source && target.ref == p.target
    && source.filesystem && target.filesystem && !source.deleting && !target.deleting
    && source.bound && source.volume != "" && source.offline
    && ((target.bound && target.volume != "") || (target.pending && helpers < 2))
    && (target.volume == "" || target.volume != source.volume)
  }

  // A pod that may touch a claim: it names one, has not ended, and is no helper of the run.
  predicate Intrudes(pod: Pod, p: Plan, ns: string, helpers: seq<Helper>) {
    && (|| (ns == p.source.namespace && p.source.name in pod.claims)
        || (ns == p.target.namespace && p.target.name in pod.claims))
    && pod.phase != "Succeeded" && pod.phase != "Failed"
    && forall h :: h in helpers ==> !(h.uid == pod.uid && h.name == pod.name && h.namespace == pod.namespace)
  }

  predicate PodsFine(p: Plan, ns: string, pods: seq<Pod>, helpers: seq<Helper>) {
    forall pod :: pod in pods ==> pod.namespace == ns && pod.uid != "" && !Intrudes(pod, p, ns, helpers)
  }

  // ---- Traces ---------------------------------------------------------------------------------------

  datatype Event =
    | Got(ref: Ref, pvc: Option<Pvc>)
    | Controllers(ref: Ref, ok: bool)
    | Permitted(source: Pvc, target: Pvc, ok: bool)
    | Listed(ns: string, pods: Option<seq<Pod>>)
    | Alive(ok: bool)                                            // the context's state
    | Create(spec: Spec, helper: Helper, created: bool)
    | Ready(helper: Helper, ok: bool)
    | Verified(helper: Helper, found: Option<Option<V.Marker>>)
    | Streamed(from: Helper, into: Helper, stream: TS.Stream, received: Option<Rc.Receipt>)
    | Reexported(from: Helper, stream: TS.Stream, ok: bool)
    | Completed(helper: Helper, expected: Rc.Receipt, marker: Option<V.Marker>)
    | Deleted(helper: Helper, ok: bool)

  // Calls that create a helper or run a command in one.
  predicate Acts(e: Event) {
    e.Create? || e.Verified? || e.Streamed? || e.Reexported? || e.Completed?
  }

  // The answers of one full check, in order; two namespaces are listed when they differ.
  ghost predicate FullCheck(seg: seq<Event>, p: Plan, helpers: seq<Helper>) {
    |seg| == 6 + Further(p) && VolumesChecked(seg[..4], p, helpers) && PodsChecked(seg[4..], p, helpers)
  }

  // The rest of it: the pods of each namespace, and the context.
  ghost predicate PodsChecked(seg: seq<Event>, p: Plan, helpers: seq<Helper>) {
    && |seg| == 2 + Further(p)
    && PodsListed(seg[0], p, p.source.namespace, helpers)
    && (Further(p) == 1 ==> PodsListed(seg[1], p, p.target.namespace, helpers))
    && seg[|seg| - 1] == Alive(true)
  }

  // The last call was the end of a check that passed.
  predicate Ended(tr: seq<Event>) {
    tr != [] && tr[|tr| - 1] == Alive(true)
  }

  // How many namespaces there are besides the source's.
  function Further(p: Plan): nat {
    if p.source.namespace == p.target.namespace then 0 else 1
  }

  // The first four answers of a full check.
  ghost predicate VolumesChecked(seg: seq<Event>, p: Plan, helpers: seq<Helper>) {
    && |seg| == 4
    && seg[0].Got? && seg[0].ref == p.source && seg[0].pvc.Some?
    && seg[1].Got? && seg[1].ref == p.target && seg[1].pvc.Some?
    && ClaimsFine(p, seg[0].pvc.value, seg[1].pvc.value, |helpers|)
    && seg[2] == Controllers(p.source, true)
    && seg[3] == Permitted(seg[0].pvc.value, seg[1].pvc.value, true)
  }

  ghost predicate PodsListed(e: Event, p: Plan, ns: string, helpers: seq<Helper>) {
    e.Listed? && e.ns == ns && e.pods.Some? && PodsFine(p, ns, e.pods.value, helpers)
  }

  // The trace ends with a full check that knew exactly the helpers recorded so far.
  ghost predicate Armed(tr: seq<Event>, p: Plan) {
    exists j :: 0 <= j <= |tr| && FullCheck(tr[j..], p, Recorded(tr[..j]))
  }

  // The helpers a trace has recorded: those created as specified, and those whose creation
  // failed but whose exact identity is known.
  function Recorded(tr: seq<Event>): seq<Helper> {
    if tr == [] then []
    else
      var n := |tr| - 1;
      Recorded(tr[..n]) + if tr[n].Create? && Keeps(tr[n]) then [tr[n].helper] else []
  }

  predicate Keeps(e: Event)
    requires e.Create?
  {
    var h, s := e.helper, e.spec;
    && h.uid != "" && h.namespace == s.namespace && h.name == s.name && h.owner == s.owner
    && (e.created ==> h.pvc == s.pvc && h.readOnly == s.readOnly && h.image == s.image)
  }

  // Nothing acts except right after a full check.
  ghost predicate Guarded(tr: seq<Event>, p: Plan) {
    forall i :: 0 <= i < |tr| && Acts(tr[i]) ==> Armed(tr[..i], p)
  }

  predicate Undeleted(tr: seq<Event>) {
    forall i :: 0 <= i < |tr| ==> !tr[i].Deleted?
  }

  // The first |oks| deletions, from the end of the list.
  function Deletions(helpers: seq<Helper>, oks: seq<bool>): seq<Event>
    requires |oks| <= |helpers|
  {
    seq(|oks|, i requires 0 <= i < |oks| => Deleted(helpers[|helpers| - 1 - i], oks[i]))
  }

  // A finished trace: a body without deletions, then each recorded helper deleted once,
  // the last one created first.
  ghost predicate CleanedUp(tr: seq<Event>, body: seq<Event>) {
    exists oks :: FinishedAs(tr, body, oks)
  }

  ghost predicate FinishedAs(tr: seq<Event>, body: seq<Event>, oks: seq<bool>) {
    && |oks| == |Recorded(body)| && Undeleted(body)
    && tr == body + Deletions(Recorded(body), oks)
  }

  // ---- The order of a run -----------------------------------------------------------------------------

  datatype Step =
    | Checking | Creating(spec: Spec) | Waiting | Verifying(empty: bool) | Streaming | Exporting | Completing | Deleting

  // The step an event ends; the answers within a check end none.
  function StepOf(e: Event): seq<Step> {
    match e
    case Alive(_) => [Checking]
    case Create(spec, _, _) => [Creating(spec)]
    case Ready(_, _) => [Waiting]
    case Verified(_, found) => [Verifying(found == Some(None))]
    case Streamed(_, _, _, _) => [Streaming]
    case Reexported(_, _, _) => [Exporting]
    case Completed(_, _, _) => [Completing]
    case Deleted(_, _) => [Deleting]
    case _ => []
  }

  function Shape(tr: seq<Event>): seq<Step> {
    if tr == [] then [] else Shape(tr[..|tr| - 1]) + StepOf(tr[|tr| - 1])
  }

  lemma ShapeSnoc(tr: seq<Event>, e: Event)
    ensures Shape(tr + [e]) == Shape(tr) + StepOf(e)
  {
    assert (tr + [e])[..|tr|] == tr;
  }

  // From shape a to shape b: a part of the given steps, and all of them without a failure.
  predicate Grew(a: seq<Step>, b: seq<Step>, steps: seq<Step>, ok: bool) {
    a <= b <= a + steps && (ok ==> b == a + steps)
  }

  // The steps from i to k of a plan of steps.
  lemma GoOn(all: seq<Step>, i: nat, k: nat, b: seq<Step>, ok: bool)
    requires i <= k <= |all| && Grew(all[..i], b, all[i..k], ok)
    ensures b <= all && (ok ==> b == all[..k])
  {
    assert all[..i] + all[i..k] == all[..k];
  }

  // ---- What a run may rely on, and what it may fail of ------------------------------------------------

  // Just before event i the claims, their controllers, the permission, the pods of both
  // namespaces and the context were asked for, and nothing stood against acting.
  ghost predicate Safe(tr: seq<Event>, i: nat, p: Plan)
    requires i <= |tr|
  {
    exists j: nat, source, target :: SafeFrom(tr, i, p, j, source, target)
  }

  ghost predicate SafeFrom(tr: seq<Event>, i: nat, p: Plan, j: nat, source: Pvc, target: Pvc)
    requires i <= |tr|
  {
    var last := if p.source.namespace == p.target.namespace then j + 4 else j + 5;
    && last + 2 == i
    && tr[j] == Got(p.source, Some(source)) && tr[j + 1] == Got(p.target, Some(target))
    && tr[j + 2] == Controllers(p.source, true) && tr[j + 3] == Permitted(source, target, true)
    && ClaimsFine(p, source, target, |Recorded(tr[..j])|)
    && PodsListed(tr[j + 4], p, p.source.namespace, Recorded(tr[..j]))
    && PodsListed(tr[last], p, p.target.namespace, Recorded(tr[..j]))
    && tr[last + 1] == Alive(true)
  }

  lemma ArmedIsSafe(tr: seq<Event>, p: Plan)
    requires Armed(tr, p)
    ensures Safe(tr, |tr|, p)
  {
    hide ClaimsFine, PodsListed, Recorded;
    var j: nat :| j <= |tr| && FullCheck(tr[j..], p, Recorded(tr[..j]));
    var seg, helpers := tr[j..], Recorded(tr[..j]);
    assert seg[..4][0] == tr[j] && seg[..4][1] == tr[j + 1] && seg[..4][2] == tr[j + 2] && seg[..4][3] == tr[j + 3];
    assert seg[4..][0] == tr[j + 4] && seg[4..][Further(p)] == tr[j + 4 + Further(p)];
    assert seg[4..][1 + Further(p)] == tr[j + 5 + Further(p)];
    assert SafeFrom(tr, |tr|, p, j, tr[j].pvc.value, tr[j + 1].pvc.value);
  }

  lemma GuardedIsSafe(tr: seq<Event>, p: Plan)
    requires Guarded(tr, p)
    ensures forall i :: 0 <= i < |tr| && Acts(tr[i]) ==> Safe(tr, i, p)
  {
    hide ClaimsFine, PodsListed, Recorded, Armed;
    forall i | 0 <= i < |tr| && Acts(tr[i]) ensures Safe(tr, i, p) {
      ArmedIsSafe(tr[..i], p);
      var j: nat, source, target :| SafeFrom(tr[..i], i, p, j, source, target);
      assert tr[..i][..j] == tr[..j];
      assert SafeFrom(tr, i, p, j, source, target);
    }
  }

  // The last answer is one that a run must not go on from.
  ghost predicate Bad(tr: seq<Event>, p: Plan) {
    BadFor(tr, p, Recorded(tr))
  }

  ghost predicate BadFor(tr: seq<Event>, p: Plan, helpers: seq<Helper>) {
    tr != [] &&
    var n := |tr| - 1;
    match tr[n]
    case Got(ref, None) => true
    case Got(ref, Some(target)) =>
      && n > 0 && tr[n - 1].Got? && tr[n - 1].pvc.Some?
      && !ClaimsFine(p, tr[n - 1].pvc.value, target, |helpers|)
    case Controllers(_, ok) => !ok
    case Permitted(_, _, ok) => !ok
    case Listed(ns, pods) => pods.None? || !PodsFine(p, ns, pods.value, helpers)
    case Alive(ok) => !ok
    case Create(s, h, created) =>
      !created || h.uid == "" || h != Helper(s.namespace, s.name, h.uid, s.owner, s.pvc, s.readOnly, s.image)
    case Ready(_, ok) => !ok
    case Verified(_, found) => found.None? || (found.value.Some? && found.value.value.plan != p.copy)
    case Streamed(_, _, s, received) =>
      !TS.Accepted(p.copy.limits, s) || received != Some(Rc.ReceiptOf(TS.CleanAll(s.raws)))
    case Reexported(_, s, ok) =>
      || !ok || !TS.Accepted(p.copy.limits, s)
      || exists k :: 0 <= k < n && tr[k].Streamed? && TS.CleanAll(tr[k].stream.raws) != TS.CleanAll(s.raws)
    case Completed(_, expected, m) => m != Some(V.Marker(p.copy, expected))
    case Deleted(_, _) => false
  }

  lemma GuardedSnoc(tr: seq<Event>, e: Event, p: Plan)
    requires Guarded(tr, p) && (Acts(e) ==> Armed(tr, p))
    ensures Guarded(tr + [e], p)
  {
    hide Armed;
    var q := tr + [e];
    forall i | 0 <= i < |q| ensures q[..i] == if i < |tr| then tr[..i] else tr {}
  }

  lemma RecordedSnoc(tr: seq<Event>, e: Event)
    ensures Recorded(tr + [e]) == Recorded(tr) + if e.Create? && Keeps(e) then [e.helper] else []
  {
    assert (tr + [e])[..|tr|] == tr;
  }

  lemma RecordedQuiet(tr: seq<Event>, more: seq<Event>)
    requires forall i :: 0 <= i < |more| ==> !more[i].Create?
    ensures Recorded(tr + more) == Recorded(tr)
  {
    if more == [] {
      assert tr + more == tr;
    } else {
      var n := |more| - 1;
      assert tr + more == (tr + more[..n]) + [more[n]];
      RecordedSnoc(tr + more[..n], more[n]);
      RecordedQuiet(tr, more[..n]);
    }
  }

  lemma GuardedQuiet(tr: seq<Event>, more: seq<Event>, p: Plan)
    requires Guarded(tr, p) && forall i :: 0 <= i < |more| ==> !Acts(more[i])
    ensures Guarded(tr + more, p)
  {
    if more == [] {
      assert tr + more == tr;
    } else {
      var n := |more| - 1;
      assert tr + more == (tr + more[..n]) + [more[n]];
      GuardedQuiet(tr, more[..n], p);
      GuardedSnoc(tr + more[..n], more[n], p);
    }
  }

  // ---- The transport -----------------------------------------------------------------------------------

  // A read-only helper on the source and a writing helper on the target.
  predicate Serves(p: Plan, from: Helper, into: Helper) {
    && from.pvc == p.source && from.readOnly && from.image == p.image
    && into.pvc == p.target && !into.readOnly && into.image == p.image
  }

  // Any behaviour at all: each call records itself and answers arbitrarily.  What acts on the
  // cluster may only be called right after a full check.
  //
  // On an honest transport the commands are those of the helper binary, on two volumes: an
  // export that reports success has delivered all it wrote, while an import may be fed
  // anything, and every reply may be lost.
  class Transport {
    const honest: bool
    const source: V.Volume
    const target: V.Volume
    ghost var trace: seq<Event>

    ghost predicate Valid()
      reads source, target
    {
      source != target && source.Valid() && target.Valid()
    }

    // What success says about the volumes: the target is complete, and if it was empty before,
    // it equals the source.
    ghost predicate Copied(p: Plan, m: V.Marker, wasEmpty: bool)
      reads source, target
    {
      honest ==> L.Completed(target, p.copy, m) && (wasEmpty ==> target.Payload() == source.Payload())
    }

    constructor (honest: bool, source: V.Volume, target: V.Volume)
      requires source != target && source.Valid() && target.Valid()
      ensures Valid() && trace == []
      ensures this.honest == honest && this.source == source && this.target == target
    {
      this.honest, this.source, this.target := honest, source, target;
      trace := [];
    }

    // The target holds what was received, as its own receipt says.
    ghost predicate Holds(p: Plan, r: Rc.Receipt)
      reads target
    {
      && target.state == Some(L.ReceivedState(p.copy, r))
      && E.Exportable(target, p.copy.limits, true) && Rc.TreeReceipt(target.Payload()) == r
    }

    method GetPVC(ref: Ref) returns (r: Option<Pvc>)
      modifies this
      ensures trace == old(trace) + [Got(ref, r)]
      ensures Shape(trace) == old(Shape(trace))
    {
      r := *;
      ShapeSnoc(trace, Got(ref, r));
      trace := trace + [Got(ref, r)];
    }

    method CheckControllers(ref: Ref) returns (ok: bool)
      modifies this
      ensures trace == old(trace) + [Controllers(ref, ok)]
      ensures Shape(trace) == old(Shape(trace))
    {
      ok := *;
      ShapeSnoc(trace, Controllers(ref, ok));
      trace := trace + [Controllers(ref, ok)];
    }

    method Permission(source: Pvc, target: Pvc) returns (ok: bool)
      modifies this
      ensures trace == old(trace) + [Permitted(source, target, ok)]
      ensures Shape(trace) == old(Shape(trace))
    {
      ok := *;
      ShapeSnoc(trace, Permitted(source, target, ok));
      trace := trace + [Permitted(source, target, ok)];
    }

    method ContextAlive() returns (ok: bool)
      modifies this
      ensures trace == old(trace) + [Alive(ok)]
      ensures Shape(trace) == old(Shape(trace)) + [Checking]
    {
      ok := *;
      ShapeSnoc(trace, Alive(ok));
      trace := trace + [Alive(ok)];
    }

    method ListPods(ns: string) returns (r: Option<seq<Pod>>)
      modifies this
      ensures trace == old(trace) + [Listed(ns, r)]
      ensures Shape(trace) == old(Shape(trace))
    {
      r := *;
      ShapeSnoc(trace, Listed(ns, r));
      trace := trace + [Listed(ns, r)];
    }

    method CreateHelper(ghost p: Plan, spec: Spec) returns (h: Helper, ok: bool)
      requires Guarded(trace, p) && Armed(trace, p)
      modifies this
      ensures trace == old(trace) + [Create(spec, h, ok)] && Guarded(trace, p)
      ensures Shape(trace) == old(Shape(trace)) + [Creating(spec)]
    {
      h, ok := *, *;
      GuardedSnoc(trace, Create(spec, h, ok), p);
      ShapeSnoc(trace, Create(spec, h, ok));
      trace := trace + [Create(spec, h, ok)];
    }

    method WaitReady(h: Helper) returns (ok: bool)
      modifies this
      ensures trace == old(trace) + [Ready(h, ok)]
      ensures Shape(trace) == old(Shape(trace)) + [Waiting]
    {
      ok := *;
      ShapeSnoc(trace, Ready(h, ok));
      trace := trace + [Ready(h, ok)];
    }

    // pvc-verify in the target helper: None is a failed command, Some(None) an empty target.
    method Verify(p: Plan, h: Helper) returns (r: Option<Option<V.Marker>>)
      requires Valid() && Guarded(trace, p) && Armed(trace, p)
      modifies this
      ensures trace == old(trace) + [Verified(h, r)] && Guarded(trace, p)
      ensures Shape(trace) == old(Shape(trace)) + [Verifying(r == Some(None))]
      ensures honest && h.pvc == p.target && r == Some(None) ==> target.Empty()
      ensures honest && h.pvc == p.target && r.Some? && r.value.Some? ==> L.Completed(target, p.copy, r.value.value)
    {
      hide Guarded, Armed, L.Completed, Shape;
      r := *;
      if honest && h.pvc == p.target && r.Some? {
        var found := L.Inspect(target, p.copy);
        r := if found.Ok? then Some(found.value) else None;
      }
      GuardedSnoc(trace, Verified(h, r), p);
      ShapeSnoc(trace, Verified(h, r));
      trace := trace + [Verified(h, r)];
    }

    // pvc-export in the source helper: what it delivers, and whether it reports success.
    method Export(p: Plan, from: Helper) returns (s: TS.Stream, ok: bool)
      requires Valid() && p.copy.Valid()
      ensures TS.Readable(s)
      ensures honest && from.pvc == p.source && ok ==> Delivered(p, s)
    {
      hide E.Exportable, TS.Accepted, A.Records, A.Build;
      s := TS.AnyStream();
      ok := *;
      if honest && from.pvc == p.source && ok {
        var sent, out := E.Export(source, p.copy.limits, false);
        ok := sent.Ok?;
        if ok {
          s := TS.WriteArchive(out);
          ExportedWhole(p, s);
        }
      }
    }

    // The stream is the archive of the source.
    ghost predicate Delivered(p: Plan, s: TS.Stream)
      reads source
    {
      && E.Exportable(source, p.copy.limits, false) && TS.Accepted(p.copy.limits, s)
      && TS.CleanAll(s.raws) == A.Records(source.Payload())
    }

    lemma ExportedWhole(p: Plan, s: TS.Stream)
      requires E.Exportable(source, p.copy.limits, false)
      requires TS.Renders(A.Records(source.Payload()), s) && s.ends == 2
      ensures Delivered(p, s) && TS.Readable(s)
    {
      L.ExportedStream(p.copy.limits, source.Payload(), s);
    }

    // pvc-export in the source helper and pvc-import in the target helper, with the relay between.
    method Stream(p: Plan, from: Helper, into: Helper) returns (s: TS.Stream, received: Option<Rc.Receipt>)
      requires Valid() && p.copy.Valid() && Guarded(trace, p) && Armed(trace, p)
      modifies this, target
      ensures Valid() && trace == old(trace) + [Streamed(from, into, s, received)] && Guarded(trace, p)
      ensures Shape(trace) == old(Shape(trace)) + [Streaming]
      ensures TS.Readable(s)
      ensures honest && Serves(p, from, into) && received.Some? ==> Delivered(p, s) && Holds(p, received.value)
    {
      hide Guarded, Armed, TS.Accepted, Delivered, E.Exportable, Shape;
      var exported;
      s, exported := Export(p, from);
      received := *;
      if honest && Serves(p, from, into) {
        var fed := TS.AnyStream();
        var got := L.Receive(target, p.copy, fed);
        received := if exported && received.Some? && got.Ok? then Some(got.value) else None;
      }
      GuardedSnoc(trace, Streamed(from, into, s, received), p);
      ShapeSnoc(trace, Streamed(from, into, s, received));
      trace := trace + [Streamed(from, into, s, received)];
    }

    // pvc-export in the source helper once more.
    method Reexport(p: Plan, from: Helper) returns (s: TS.Stream, ok: bool)
      requires Valid() && p.copy.Valid() && Guarded(trace, p) && Armed(trace, p)
      modifies this
      ensures trace == old(trace) + [Reexported(from, s, ok)] && Guarded(trace, p)
      ensures Shape(trace) == old(Shape(trace)) + [Exporting]
      ensures TS.Readable(s)
    {
      hide Guarded, Armed, Shape;
      s, ok := Export(p, from);
      GuardedSnoc(trace, Reexported(from, s, ok), p);
      ShapeSnoc(trace, Reexported(from, s, ok));
      trace := trace + [Reexported(from, s, ok)];
    }

    // pvc-complete in the target helper.
    method Complete(p: Plan, h: Helper, expected: Rc.Receipt) returns (m: Option<V.Marker>)
      requires Valid() && Guarded(trace, p) && Armed(trace, p)
      modifies this, target
      ensures Valid() && trace == old(trace) + [Completed(h, expected, m)] && Guarded(trace, p)
      ensures Shape(trace) == old(Shape(trace)) + [Completing]
      ensures target.Payload() == old(target.Payload())
      ensures honest && h.pvc == p.target && old(Holds(p, expected)) && m.Some? ==> L.Completed(target, p.copy, m.value)
    {
      hide Guarded, Armed, Rc.TreeReceipt, A.Supported, Shape;
      m := *;
      if honest && h.pvc == p.target {
        var done := L.Complete(target, p.copy, expected);
        m := if m.Some? && done.Ok? then Some(done.value) else None;
      }
      GuardedSnoc(trace, Completed(h, expected, m), p);
      ShapeSnoc(trace, Completed(h, expected, m));
      trace := trace + [Completed(h, expected, m)];
    }

    method Delete(h: Helper) returns (ok: bool)
      modifies this
      ensures trace == old(trace) + [Deleted(h, ok)]
      ensures Shape(trace) == old(Shape(trace)) + [Deleting]
    {
      ok := *;
      ShapeSnoc(trace, Deleted(h, ok));
      trace := trace + [Deleted(h, ok)];
    }
  }

  // ---- The executor ------------------------------------------------------------------------------------

  method CheckPods(p: Plan, ns: string, pods: seq<Pod>, helpers: seq<Helper>) returns (ok: bool)
    ensures ok <==> PodsFine(p, ns, pods, helpers)
  {
    for i := 0 to |pods|
      invariant PodsFine(p, ns, pods[..i], helpers)
    {
      var pod := pods[i];
      assert pod in pods && pods[..i + 1] == pods[..i] + [pod];
      if pod.namespace != ns || pod.uid == "" {
        return false;
      }
      var owned := false;
      for j := 0 to |helpers|
        invariant owned <==> exists h ::
          h in helpers[..j] && h.uid == pod.uid && h.name == pod.name && h.namespace == pod.namespace
      {
        var h := helpers[j];
        assert helpers[..j + 1] == helpers[..j] + [h];
        if h.uid == pod.uid && h.name == pod.name && h.namespace == pod.namespace {
          owned := true;
        }
      }
      assert helpers[..|helpers|] == helpers;
      if owned {
        continue;
      }
      if pod.phase == "Succeeded" || pod.phase == "Failed" {
        continue;
      }
      for k := 0 to |pod.claims|
        invariant forall claim :: claim in pod.claims[..k] ==>
          && !(ns == p.source.namespace && claim == p.source.name)
          && !(ns == p.target.namespace && claim == p.target.name)
      {
        var claim := pod.claims[k];
        assert claim in pod.claims && pod.claims[..k + 1] == pod.claims[..k] + [claim];
        if (ns == p.source.namespace && claim == p.source.name)
           || (ns == p.target.namespace && claim == p.target.name) {
          return false;
        }
      }
      assert pod.claims[..|pod.claims|] == pod.claims;
    }
    assert pods[..|pods|] == pods;
    return true;
  }

  // The events of a check: none of them acts, creates or deletes.
  ghost predicate Looks(before: seq<Event>, after: seq<Event>) {
    && before <= after
    && forall i :: |before| <= i < |after| ==> !Acts(after[i]) && !after[i].Deleted?
  }

  lemma LooksKeeps(before: seq<Event>, after: seq<Event>, p: Plan)
    requires Looks(before, after) && Guarded(before, p)
    ensures Guarded(after, p) && Recorded(after) == Recorded(before)
    ensures Undeleted(before) ==> Undeleted(after)
  {
    hide Guarded;
    var more := after[|before|..];
    assert after == before + more;
    GuardedQuiet(before, more, p);
    RecordedQuiet(before, more);
  }

  method CheckPolicy(policy: Policy, p: Plan) returns (ok: bool)
    ensures ok <==> PolicyOk(policy, p)
  {
    if !policy.imagePinned || p.image != policy.image || policy.binding != p.binding {
      return false;
    }
    for i := 0 to |policy.namespaces|
      invariant p.source.namespace !in policy.namespaces[..i]
    {
      if policy.namespaces[i] == p.source.namespace {
        return true;
      }
      assert policy.namespaces[..i + 1] == policy.namespaces[..i] + [policy.namespaces[i]];
    }
    assert policy.namespaces[..|policy.namespaces|] == policy.namespaces;
    return false;
  }

  // Both claims in one loop, then what they have to do with each other.
  method CheckClaims(p: Plan, source: Pvc, target: Pvc, helpers: nat) returns (ok: bool)
    ensures ok <==> ClaimsFine(p, source, target, helpers)
  {
    for i := 0 to 2
      invariant i >= 1 ==>
        && source.ref == p.source && source.filesystem && !source.deleting && source.bound && source.volume != ""
      invariant i >= 2 ==>
        && target.ref == p.target && target.filesystem && !target.deleting
        && ((target.bound && target.volume != "") || (target.pending && helpers < 2))
    {
      var got, want := if i == 0 then source else target, if i == 0 then p.source else p.target;
      var bindingOk := got.bound && got.volume != "";
      if i == 1 && helpers < 2 && got.pending {
        bindingOk := true;
      }
      if got.ref != want || !got.filesystem || !bindingOk || got.deleting {
        return false;
      }
    }
    if target.volume != "" && source.volume == target.volume {
      return false;
    }
    return source.offline;
  }

  method CheckVolumes(t: Transport, p: Plan, helpers: seq<Helper>) returns (ok: bool)
    modifies t
    ensures Looks(old(t.trace), t.trace) && |old(t.trace)| < |t.trace| <= |old(t.trace)| + 4 && !Ended(t.trace)
    ensures ok <==> VolumesChecked(t.trace[|old(t.trace)|..], p, helpers)
    ensures Shape(t.trace) == old(Shape(t.trace))
    ensures !ok ==> BadFor(t.trace, p, helpers)
  {
    hide ClaimsFine, Shape, StepOf;
    var source := t.GetPVC(p.source);
    if source.None? {
      return false;
    }
    var target := t.GetPVC(p.target);
    if target.None? {
      return false;
    }
    ok := CheckClaims(p, source.value, target.value, |helpers|);
    if !ok { return; }
    ok := t.CheckControllers(p.source);
    if !ok { return; }
    ok := t.Permission(source.value, target.value);
    assert t.trace[|old(t.trace)|..] ==
      [Got(p.source, source), Got(p.target, target), Controllers(p.source, true),
       Permitted(source.value, target.value, ok)];
  }

  // Executor.check with the helpers known so far: it passes exactly when its calls make a full check.
  method Check(t: Transport, policy: Policy, p: Plan, helpers: seq<Helper>) returns (ok: bool)
    modifies t
    ensures Looks(old(t.trace), t.trace)
    ensures ok <==> PolicyOk(policy, p) && FullCheck(t.trace[|old(t.trace)|..], p, helpers)
    ensures PolicyOk(policy, p) ==> (ok <==> Ended(t.trace))
    ensures PolicyOk(policy, p) && !ok ==> BadFor(t.trace, p, helpers)
    ensures Grew(old(Shape(t.trace)), Shape(t.trace), [Checking], ok)
  {
    hide VolumesChecked, PodsChecked, PolicyOk, BadFor;
    ghost var n := |t.trace|;
    ok := CheckPolicy(policy, p);
    if !ok { return; }
    ok := CheckVolumes(t, p, helpers);
    ghost var volumes := t.trace[n..];
    if !ok { return; }
    NeedsFour(volumes, p, helpers);
    ok := CheckNamespaces(t, p, helpers);
    assert t.trace[n..][..4] == volumes && t.trace[n..][4..] == t.trace[n + 4..];
  }

  method CheckNamespaces(t: Transport, p: Plan, helpers: seq<Helper>) returns (ok: bool)
    modifies t
    ensures Looks(old(t.trace), t.trace) && |old(t.trace)| < |t.trace| <= |old(t.trace)| + 2 + Further(p)
    ensures ok <==> PodsChecked(t.trace[|old(t.trace)|..], p, helpers)
    ensures Grew(old(Shape(t.trace)), Shape(t.trace), [Checking], ok)
    ensures !ok ==> BadFor(t.trace, p, helpers)
    ensures ok <==> Ended(t.trace)
    ensures ok ==> |t.trace| == |old(t.trace)| + 2 + Further(p)
  {
    hide PodsListed, BadFor, Shape, StepOf;
    ghost var start := t.trace;
    ok := CheckNamespace(t, p, p.source.namespace, helpers);
    ghost var seg := [t.trace[|start|]];
    assert t.trace == start + seg;
    if !ok { return; }
    if p.target.namespace != p.source.namespace {
      ok := CheckNamespace(t, p, p.target.namespace, helpers);
      seg := seg + [t.trace[|start| + 1]];
      assert t.trace == start + seg;
      if !ok { return; }
    }
    ok := t.ContextAlive();
    assert t.trace == start + (seg + [Alive(ok)]);
    if !ok { DeadIsBad(t.trace, p, helpers); }
  }

  lemma DeadIsBad(tr: seq<Event>, p: Plan, helpers: seq<Helper>)
    requires tr != [] && tr[|tr| - 1] == Alive(false)
    ensures BadFor(tr, p, helpers)
  {}

  lemma NeedsFour(seg: seq<Event>, p: Plan, helpers: seq<Helper>)
    requires VolumesChecked(seg, p, helpers)
    ensures |seg| == 4
  {}

  method CheckNamespace(t: Transport, p: Plan, ns: string, helpers: seq<Helper>) returns (ok: bool)
    modifies t
    ensures |t.trace| == |old(t.trace)| + 1 && t.trace[..|old(t.trace)|] == old(t.trace)
    ensures t.trace[|old(t.trace)|].Listed?
    ensures ok <==> PodsListed(t.trace[|old(t.trace)|], p, ns, helpers)
    ensures Shape(t.trace) == old(Shape(t.trace))
    ensures !ok ==> BadFor(t.trace, p, helpers)
  {
    hide PodsFine;
    var pods := t.ListPods(ns);
    if pods.None? {
      return false;
    }
    ok := CheckPods(p, ns, pods.value, helpers);
  }

  // The body of a run so far: guarded, nothing deleted, the helper list up to date.
  ghost predicate Good(tr: seq<Event>, p: Plan, helpers: seq<Helper>) {
    Guarded(tr, p) && Undeleted(tr) && helpers == Recorded(tr)
  }

  lemma GoodLook(before: seq<Event>, after: seq<Event>, p: Plan, helpers: seq<Helper>)
    requires Good(before, p, helpers) && Looks(before, after)
    ensures Good(after, p, helpers)
  {
    LooksKeeps(before, after, p);
  }

  // A command or a wait adds no helper.
  lemma GoodSnoc(tr: seq<Event>, e: Event, p: Plan, helpers: seq<Helper>)
    requires Good(tr, p, helpers) && Guarded(tr + [e], p) && !e.Create? && !e.Deleted?
    ensures Good(tr + [e], p, helpers)
  {
    RecordedSnoc(tr, e);
  }

  lemma GoodCreate(tr: seq<Event>, e: Event, p: Plan, helpers: seq<Helper>)
    requires Good(tr, p, helpers) && Guarded(tr + [e], p) && e.Create?
    ensures Good(tr + [e], p, if Keeps(e) then helpers + [e.helper] else helpers)
  {
    RecordedSnoc(tr, e);
  }

  predicate MadeFor(h: Helper, spec: Spec) {
    h.uid != "" && h == Helper(spec.namespace, spec.name, h.uid, spec.owner, spec.pvc, spec.readOnly, spec.image)
  }

  // Create one helper, wait for it and check again with it.
  method AddHelper(t: Transport, policy: Policy, p: Plan, spec: Spec, helpers: seq<Helper>)
    returns (ok: bool, helpers': seq<Helper>)
    requires PolicyOk(policy, p) && Good(t.trace, p, helpers) && Armed(t.trace, p)
    modifies t
    ensures ok <==> Ended(t.trace)
    ensures !ok ==> Bad(t.trace, p)
    ensures Grew(old(Shape(t.trace)), Shape(t.trace), [Creating(spec), Waiting, Checking], ok)
    ensures Good(t.trace, p, helpers') && |helpers'| <= |helpers| + 1 && helpers <= helpers'
    ensures ok ==> Armed(t.trace, p) && |helpers'| == |helpers| + 1 && MadeFor(helpers'[|helpers|], spec)
  {
    hide Good, Armed, Guarded, Recorded, PolicyOk, FullCheck, Shape, StepOf;
    ghost var tr := t.trace;
    GoodFacts(tr, p, helpers);
    var h, created := t.CreateHelper(p, spec);
    GoodCreate(tr, Create(spec, h, created), p, helpers);
    helpers' := helpers;
    if !created {
      if h.uid != "" && h.namespace == spec.namespace && h.name == spec.name && h.owner == spec.owner {
        helpers' := helpers + [h];
      }
      return false, helpers';
    }
    if h.uid == "" || h.namespace != spec.namespace || h.name != spec.name || h.owner != spec.owner
       || h.pvc != spec.pvc || h.readOnly != spec.readOnly || h.image != spec.image {
      return false, helpers';
    }
    helpers' := helpers + [h];
    tr := t.trace;
    ok := t.WaitReady(h);
    GoodWait(tr, h, ok, p, helpers');
    if !ok { return; }
    ok := Recheck(t, policy, p, helpers');
  }

  lemma GoodFacts(tr: seq<Event>, p: Plan, helpers: seq<Helper>)
    requires Good(tr, p, helpers)
    ensures Guarded(tr, p) && helpers == Recorded(tr)
  {}

  lemma GoodWait(tr: seq<Event>, h: Helper, ok: bool, p: Plan, helpers: seq<Helper>)
    requires Good(tr, p, helpers)
    ensures Good(tr + [Ready(h, ok)], p, helpers)
  {
    GuardedSnoc(tr, Ready(h, ok), p);
    GoodSnoc(tr, Ready(h, ok), p, helpers);
  }

  method Recheck(t: Transport, policy: Policy, p: Plan, helpers: seq<Helper>) returns (ok: bool)
    requires Good(t.trace, p, helpers)
    modifies t
    ensures Good(t.trace, p, helpers) && old(t.trace) <= t.trace
    ensures PolicyOk(policy, p) ==> (ok <==> Ended(t.trace))
    ensures PolicyOk(policy, p) && !ok ==> Bad(t.trace, p)
    ensures Grew(old(Shape(t.trace)), Shape(t.trace), [Checking], ok)
    ensures ok <==> PolicyOk(policy, p) && FullCheck(t.trace[|old(t.trace)|..], p, helpers)
    ensures ok ==> Armed(t.trace, p)
  {
    hide FullCheck, Guarded, Recorded, PolicyOk, BadFor;
    ghost var tr := t.trace;
    ok := Check(t, policy, p, helpers);
    GoodLook(tr, t.trace, p, helpers);
    assert t.trace[..|tr|] == tr;
  }

  // Validate and re-encode an archive on its way.
  method Relay(p: Plan, s: TS.Stream) returns (r: V.Result<Rc.Receipt>)
    requires p.copy.Valid() && TS.Readable(s)
    ensures r.Ok? <==> TS.Accepted(p.copy.limits, s)
    ensures r.Ok? ==> r.value == Rc.ReceiptOf(TS.CleanAll(s.raws))
  {
    hide Rc.ReceiptOf;
    var out;
    r, out := IO.Consume(p.copy.limits, s, null);
  }

  // The steps of a copy.
  const COPYING := [Streaming, Checking, Exporting, Checking, Completing, Checking]

  // The source delivered one accepted archive twice, the importer and the final marker
  // vouch for its receipt, and for no other.
  ghost predicate Agreed(tr: seq<Event>, p: Plan, m: V.Marker) {
    exists from, into, first, second :: Serves(p, from, into) && Agreement(tr, p, m, from, into, first, second)
  }

  ghost predicate Agreement(tr: seq<Event>, p: Plan, m: V.Marker, from: Helper, into: Helper,
                            first: TS.Stream, second: TS.Stream) {
    && Streamed(from, into, first, Some(m.receipt)) in tr && Reexported(from, second, true) in tr
    && Completed(into, m.receipt, Some(m)) in tr
    && TS.Accepted(p.copy.limits, first) && TS.Accepted(p.copy.limits, second)
    && TS.CleanAll(first.raws) == TS.CleanAll(second.raws)
    && m == V.Marker(p.copy, Rc.ReceiptOf(TS.CleanAll(first.raws)))
  }

  // A target that was complete before: the marker its helper verified.
  ghost predicate Resumed(tr: seq<Event>, p: Plan, m: V.Marker) {
    exists into: Helper :: Verified(into, Some(Some(m))) in tr && into.pvc == p.target && m.plan == p.copy
  }

  // Equal receipts of two accepted archives: they are one archive.
  lemma SameArchive(p: Plan, a: TS.Stream, b: TS.Stream)
    requires p.copy.Valid() && TS.Accepted(p.copy.limits, a) && TS.Accepted(p.copy.limits, b)
    requires Rc.ReceiptOf(TS.CleanAll(a.raws)) == Rc.ReceiptOf(TS.CleanAll(b.raws))
    ensures TS.CleanAll(a.raws) == TS.CleanAll(b.raws)
  {
    Rc.ReceiptDecodes(p.copy.limits, TS.CleanAll(a.raws), p.copy.limits, TS.CleanAll(b.raws));
  }

  // An importer's receipt that equals the relay's is that of the source.
  lemma ReceivedIsSource(t: Transport, p: Plan, s: TS.Stream, r: Rc.Receipt)
    requires p.copy.Valid() && t.Delivered(p, s) && t.Holds(p, r) && r == Rc.ReceiptOf(TS.CleanAll(s.raws))
    ensures t.target.Payload() == t.source.Payload()
  {
    Rc.ReceiptIdentifiesTree(p.copy.limits, t.target.Payload(), p.copy.limits, t.source.Payload());
  }

  // Export and import one archive; the importer agrees with the relay on its receipt.
  method CopyOnce(t: Transport, p: Plan, helpers: seq<Helper>)
    returns (ok: bool, s: TS.Stream, r: Rc.Receipt, ghost e: Event)
    requires t.Valid() && p.copy.Valid() && Good(t.trace, p, helpers) && Armed(t.trace, p)
    requires |helpers| == 2 && Serves(p, helpers[0], helpers[1])
    modifies t, t.target
    ensures t.Valid() && Good(t.trace, p, helpers) && !Ended(t.trace) && e in t.trace
    ensures !ok ==> Bad(t.trace, p)
    ensures ok ==> && e == Streamed(helpers[0], helpers[1], s, Some(r)) && TS.Accepted(p.copy.limits, s)
                   && r == Rc.ReceiptOf(TS.CleanAll(s.raws))
                   && (t.honest ==> t.Holds(p, r) && t.target.Payload() == t.source.Payload())
    ensures Shape(t.trace) == old(Shape(t.trace)) + [Streaming]
  {
    hide Transport.Holds, Transport.Delivered;
    hide Good, Armed, Guarded, Recorded, TS.Accepted, Rc.ReceiptOf, TS.CleanAll, TS.Readable, Shape, StepOf;
    GoodFacts(t.trace, p, helpers);
    ghost var tr := t.trace;
    var received;
    s, received := t.Stream(p, helpers[0], helpers[1]);
    e := Streamed(helpers[0], helpers[1], s, received);
    GoodSnoc(tr, e, p, helpers);
    var relayed := Relay(p, s);
    if relayed.Err? || received.None? || received.value != relayed.value {
      return false, s, Rc.NO_RECEIPT, e;
    }
    ok, r := true, relayed.value;
    if t.honest { ReceivedIsSource(t, p, s, r); }
  }

  // Export the source once more: nothing else than before.
  method ExportAgain(t: Transport, p: Plan, helpers: seq<Helper>, ghost first: TS.Stream, r: Rc.Receipt,
                     ghost streamed: Event)
    returns (ok: bool, ghost second: TS.Stream, ghost e: Event)
    requires t.Valid() && p.copy.Valid() && Good(t.trace, p, helpers) && Armed(t.trace, p)
    requires |helpers| == 2 && Serves(p, helpers[0], helpers[1])
    requires streamed in t.trace && streamed == Streamed(helpers[0], helpers[1], first, Some(r))
    requires TS.Accepted(p.copy.limits, first) && r == Rc.ReceiptOf(TS.CleanAll(first.raws))
    modifies t
    ensures t.Valid() && Good(t.trace, p, helpers) && !Ended(t.trace) && e in t.trace && streamed in t.trace
    ensures !ok ==> Bad(t.trace, p)
    ensures ok ==> && e == Reexported(helpers[0], second, true) && TS.Accepted(p.copy.limits, second)
                   && TS.CleanAll(second.raws) == TS.CleanAll(first.raws)
    ensures Shape(t.trace) == old(Shape(t.trace)) + [Exporting]
  {
    hide Good, Armed, Guarded, Recorded, TS.Accepted, Rc.ReceiptOf, TS.CleanAll, TS.Readable, Shape, StepOf;
    GoodFacts(t.trace, p, helpers);
    ghost var tr := t.trace;
    var s, exported := t.Reexport(p, helpers[0]);
    second, e := s, Reexported(helpers[0], s, exported);
    GoodSnoc(tr, e, p, helpers);
    var verified := Relay(p, s);
    ghost var k :| 0 <= k < |tr| && tr[k] == streamed;
    assert t.trace[k] == streamed;
    if verified.Err? || !exported || verified.value != r {
      return false, second, e;
    }
    SameArchive(p, first, s);
    return true, second, e;
  }

  // From the verified empty target to the final marker.
  method Transfer(t: Transport, policy: Policy, p: Plan, helpers: seq<Helper>) returns (ok: bool, m: V.Marker)
    requires p.copy.Valid() && Good(t.trace, p, helpers) && Armed(t.trace, p)
    requires t.Valid() && PolicyOk(policy, p) && |helpers| == 2 && Serves(p, helpers[0], helpers[1])
    modifies t, t.target
    ensures t.Valid() && (ok <==> Ended(t.trace)) && (!ok ==> Bad(t.trace, p))
    ensures Good(t.trace, p, helpers)
    ensures ok ==> Armed(t.trace, p) && Agreed(t.trace, p, m)
    ensures ok ==> t.Copied(p, m, true)
    ensures Grew(old(Shape(t.trace)), Shape(t.trace), COPYING, ok)
  {
    hide Transport.Holds, Transport.Delivered, L.Completed;
    hide Good, Armed, Guarded, Recorded, PolicyOk, FullCheck, TS.Accepted, Rc.ReceiptOf, TS.CleanAll, TS.Readable;
    hide Shape, StepOf;
    m := V.Marker(p.copy, Rc.NO_RECEIPT);
    var first, receipt;
    ghost var streamed;
    ok, first, receipt, streamed := CopyOnce(t, p, helpers);
    if !ok { return; }
    ok := Recheck(t, policy, p, helpers);
    if !ok { return; }
    ghost var second, reexported;
    ok, second, reexported := ExportAgain(t, p, helpers, first, receipt, streamed);
    if !ok { return; }
    ok, m := Publish(t, policy, p, helpers, receipt, [streamed, reexported]);
    if ok {
      assert streamed in [streamed, reexported] && reexported in [streamed, reexported];
      assert Agreement(t.trace, p, m, helpers[0], helpers[1], first, second);
    }
  }

  // Check, complete, and check once more before returning; earlier events stay in the trace.
  method Publish(t: Transport, policy: Policy, p: Plan, helpers: seq<Helper>, r: Rc.Receipt, ghost earlier: seq<Event>)
    returns (ok: bool, m: V.Marker)
    requires t.Valid() && PolicyOk(policy, p) && Good(t.trace, p, helpers) && |helpers| == 2
    requires helpers[1].pvc == p.target && forall e :: e in earlier ==> e in t.trace
    modifies t, t.target
    ensures t.Valid() && (ok <==> Ended(t.trace)) && (!ok ==> Bad(t.trace, p))
    ensures t.target.Payload() == old(t.target.Payload())
    ensures ok && t.honest && old(t.Holds(p, r)) ==> L.Completed(t.target, p.copy, m)
    ensures Good(t.trace, p, helpers) && forall e :: e in earlier ==> e in t.trace
    ensures ok ==> Armed(t.trace, p) && m == V.Marker(p.copy, r) && Completed(helpers[1], r, Some(m)) in t.trace
    ensures Grew(old(Shape(t.trace)), Shape(t.trace), [Checking, Completing, Checking], ok)
  {
    hide Good, Armed, Guarded, Recorded, PolicyOk, FullCheck, Transport.Holds, L.Completed;
    hide Shape, StepOf;
    m := V.Marker(p.copy, r);
    ok := Recheck(t, policy, p, helpers);
    PrefixKeeps(old(t.trace), t.trace, earlier);
    if !ok { return; }
    GoodFacts(t.trace, p, helpers);
    ghost var tr := t.trace;
    var marker := t.Complete(p, helpers[1], r);
    GoodSnoc(tr, Completed(helpers[1], r, marker), p, helpers);
    PrefixKeeps(tr, t.trace, earlier);
    if marker.None? || marker.value != V.Marker(p.copy, r) {
      return false, m;
    }
    ghost var published := t.trace;
    assert Completed(helpers[1], r, Some(m)) in published;
    ok := Recheck(t, policy, p, helpers);
    PrefixKeeps(published, t.trace, earlier);
  }

  lemma PrefixKeeps(a: seq<Event>, b: seq<Event>, es: seq<Event>)
    requires a <= b && forall e :: e in es ==> e in a
    ensures forall e :: e in es ==> e in b
  {
    assert forall e :: e in a ==> e in b;
  }

  // ---- The whole call -----------------------------------------------------------------------------------

  // The digest of the reference is represented by the reference itself.
  function SourceHelperName(r: Ref): string {
    "pvccopy-source-" + r.namespace + "/" + r.name + "/" + r.uid
  }

  // The helper that reads the source and the one that writes the target.
  function Specs(p: Plan, entropy: string): (Spec, Spec) {
    (Spec(p.source.namespace, SourceHelperName(p.source), p.copy.identity + "-" + entropy, p.source, true, p.image),
     Spec(p.target.namespace, "pvccopy-target-" + entropy, p.copy.identity + "-" + entropy, p.target, false, p.image))
  }

  // The steps of a run whose target proves empty, or not.
  function Steps(p: Plan, entropy: string, empty: bool): seq<Step> {
    [Checking, Creating(Specs(p, entropy).0), Waiting, Checking, Creating(Specs(p, entropy).1), Waiting, Checking,
     Checking, Verifying(empty), Checking]
    + if empty then COPYING else []
  }

  // A run takes these steps in this order as far as it gets.  To succeed it takes them all and
  // returns the marker it found, or the one published over the copied archive.
  ghost predicate InOrder(tr: seq<Event>, p: Plan, entropy: string, m: V.Marker, ok: bool) {
    && (Shape(tr) <= Steps(p, entropy, true) || Shape(tr) <= Steps(p, entropy, false))
    && (ok ==> || (Resumed(tr, p, m) && Shape(tr) == Steps(p, entropy, false))
               || (Agreed(tr, p, m) && Shape(tr) == Steps(p, entropy, true)))
  }

  lemma GoodStart(p: Plan)
    ensures Good([], p, [])
  {}

  // Both helpers, with a check before, between and after.
  method AddHelpers(t: Transport, policy: Policy, p: Plan, entropy: string) returns (ok: bool, helpers: seq<Helper>)
    requires PolicyOk(policy, p) && t.trace == []
    modifies t
    ensures (ok <==> Ended(t.trace)) && (!ok ==> Bad(t.trace, p))
    ensures Good(t.trace, p, helpers) && |helpers| <= 2
    ensures ok ==> Armed(t.trace, p) && |helpers| == 2 && Serves(p, helpers[0], helpers[1])
    ensures |Steps(p, entropy, true)| == 16 && Shape(t.trace) <= Steps(p, entropy, true)
    ensures ok ==> Shape(t.trace) == Steps(p, entropy, true)[..8]
  {
    hide Good, Armed, Guarded, PolicyOk, FullCheck, Shape, StepOf, Recorded, BadFor, Ended, Steps;
    helpers := [];
    GoodStart(p);
    ShapeStart();
    ghost var steps := Steps(p, entropy, true);
    FirstSteps(p, entropy);
    ok := Recheck(t, policy, p, helpers);
    GoOn(steps, 0, 1, Shape(t.trace), ok);
    if !ok { return; }
    var owner := p.copy.identity + "-" + entropy;
    var source := Spec(p.source.namespace, SourceHelperName(p.source), owner, p.source, true, p.image);
    ok, helpers := AddHelper(t, policy, p, source, helpers);
    GoOn(steps, 1, 4, Shape(t.trace), ok);
    if !ok { return; }
    var target := Spec(p.target.namespace, "pvccopy-target-" + entropy, owner, p.target, false, p.image);
    ok, helpers := AddHelper(t, policy, p, target, helpers);
    GoOn(steps, 4, 7, Shape(t.trace), ok);
    if !ok { return; }
    ok := Recheck(t, policy, p, helpers);
    GoOn(steps, 7, 8, Shape(t.trace), ok);
  }

  lemma FirstSteps(p: Plan, entropy: string)
    ensures var steps := Steps(p, entropy, true);
      && |steps| == 16 && steps[0..1] == [Checking] && steps[7..8] == [Checking]
      && steps[1..4] == [Creating(Specs(p, entropy).0), Waiting, Checking]
      && steps[4..7] == [Creating(Specs(p, entropy).1), Waiting, Checking]
  {}

  lemma ShapeStart()
    ensures Shape([]) == []
  {}

  // Both helpers, the verification of the target, and the transfer if it is empty.
  method Run(t: Transport, policy: Policy, p: Plan, entropy: string)
    returns (ok: bool, m: V.Marker, helpers: seq<Helper>)
    requires t.Valid() && p.copy.Valid() && PolicyOk(policy, p) && t.trace == []
    modifies t, t.target
    ensures ok <==> Ended(t.trace)
    ensures !ok ==> Bad(t.trace, p)
    ensures ok ==> t.Copied(p, m, old(t.target.Empty()))
    ensures Good(t.trace, p, helpers) && |helpers| <= 2
    ensures ok ==> Armed(t.trace, p)
    ensures InOrder(t.trace, p, entropy, m, ok)
  {
    hide Good, Armed, Guarded, PolicyOk, Agreed, FullCheck, E.Exportable, Rc.TreeReceipt, Recorded;
    hide Shape, StepOf, Specs;
    m := V.Marker(p.copy, Rc.NO_RECEIPT);
    ghost var whole, found := Steps(p, entropy, true), Steps(p, entropy, false);
    ok, helpers := AddHelpers(t, policy, p, entropy);
    if !ok { return; }
    GoodFacts(t.trace, p, helpers);
    ghost var tr := t.trace;
    var existing := t.Verify(p, helpers[1]);
    GoodSnoc(tr, Verified(helpers[1], existing), p, helpers);
    assert existing == Some(None) ==> Shape(t.trace) == whole[..9];
    if existing.None? {
      return false, m, helpers;
    }
    if existing.value.Some? {
      m := existing.value.value;
      if m.plan != p.copy {
        return false, m, helpers;
      }
      assert Verified(helpers[1], existing) in t.trace;
      ok := Recheck(t, policy, p, helpers);
      GoOn(found, 9, 10, Shape(t.trace), ok);
      return;
    }
    ok := Recheck(t, policy, p, helpers);
    GoOn(whole, 9, 10, Shape(t.trace), ok);
    if !ok { return; }
    ok, m := Transfer(t, policy, p, helpers);
    GoOn(whole, 10, 16, Shape(t.trace), ok);
  }

  // Execute.  On every path each recorded helper is deleted once, in reverse order of
  // creation, after everything else; success means that nothing failed, deletions included.
  // On an honest transport, success means a completed target, and on a target that was empty
  // one that equals the source.
  method Execute(t: Transport, policy: Policy, p: Plan, entropy: string)
    returns (ok: bool, m: V.Marker, ghost body: seq<Event>)
    requires t.Valid() && t.trace == []
    modifies t, t.target
    ensures ok ==> t.Copied(p, m, old(t.target.Empty()))
    ensures CleanedUp(t.trace, body) && Guarded(t.trace, p)
    ensures body <= t.trace && Undeleted(body)
    ensures InOrder(body, p, entropy, m, Ended(body))
    ensures ok ==> Armed(body, p) && PolicyOk(policy, p) && (Agreed(body, p, m) || Resumed(body, p, m))
    ensures !p.valid || !p.copy.Valid() || !PolicyOk(policy, p) ==> !ok && t.trace == []
    ensures p.valid && p.copy.Valid() && PolicyOk(policy, p) ==> Ended(body) || Bad(body, p)
    ensures forall i :: 0 <= i < |t.trace| && Acts(t.trace[i]) ==> Safe(t.trace, i, p)
    ensures ok <==>
      Ended(body) && forall i :: |body| <= i < |t.trace| ==> t.trace[i] == Deleted(t.trace[i].helper, true)
  {
    hide Armed, Agreed, Resumed, Guarded, PolicyOk, Transport.Copied, Recorded, Shape, Steps;
    m := V.Marker(p.copy, Rc.NO_RECEIPT);
    ok := CheckPolicy(policy, p);
    if !p.valid || !p.copy.Valid() || !ok {
      GoodStart(p);
      GoodFacts([], p, []);
      ShapeStart();
      assert FinishedAs([], [], []);
      return false, m, [];
    }
    var helpers;
    ok, m, helpers := Run(t, policy, p, entropy);
    body := t.trace;
    GoodFacts(body, p, helpers);
    var deleted := DeleteAll(t, p, helpers);
    GuardedIsSafe(t.trace, p);
    ok := ok && deleted;
  }

  // The deferred deletions, last helper first.
  method DeleteAll(t: Transport, ghost p: Plan, helpers: seq<Helper>) returns (ok: bool)
    requires Good(t.trace, p, helpers)
    modifies t
    ensures CleanedUp(t.trace, old(t.trace)) && Guarded(t.trace, p) && old(t.trace) <= t.trace
    ensures ok <==> forall i :: |old(t.trace)| <= i < |t.trace| ==> t.trace[i] == Deleted(t.trace[i].helper, true)
  {
    hide Guarded, Recorded;
    ghost var body := t.trace;
    ok := true;
    var oks: seq<bool> := [];
    var i := |helpers|;
    while i > 0
      invariant 0 <= i <= |helpers| && |oks| == |helpers| - i
      invariant t.trace == body + Deletions(helpers, oks)
      invariant ok <==> false !in oks
    {
      i := i - 1;
      var deleted := t.Delete(helpers[i]);
      DeletionsSnoc(helpers, oks, deleted);
      oks := oks + [deleted];
      ok := ok && deleted;
    }
    assert FinishedAs(t.trace, body, oks);
    assert forall k :: 0 <= k < |oks| ==> t.trace[|body| + k] == Deleted(helpers[|helpers| - 1 - k], oks[k]);
    GuardedQuiet(body, Deletions(helpers, oks), p);
  }

  lemma DeletionsSnoc(helpers: seq<Helper>, oks: seq<bool>, ok: bool)
    requires |oks| < |helpers|
    ensures Deletions(helpers, oks + [ok]) == Deletions(helpers, oks) + [Deleted(helpers[|helpers| - 1 - |oks|], ok)]
  {}

  // If the importer's receipt is that of a supported target tree, that tree is the one the
  // source exported, on both occasions.
  lemma AgreementIdentifiesTarget(tr: seq<Event>, p: Plan, m: V.Marker, target: A.Tree)
    returns (from: Helper, into: Helper, first: TS.Stream)
    requires p.copy.Valid() && Agreed(tr, p, m)
    requires A.Supported(p.copy.limits, target) && Rc.TreeReceipt(target) == m.receipt
    ensures Serves(p, from, into) && Streamed(from, into, first, Some(m.receipt)) in tr
    ensures A.Records(target) == TS.CleanAll(first.raws) && A.Build(TS.CleanAll(first.raws)) == target
  {
    var second;
    from, into, first, second :| Serves(p, from, into) && Agreement(tr, p, m, from, into, first, second);
    var rs := TS.CleanAll(first.raws);
    A.ExportIsCanonical(p.copy.limits, target);
    Rc.ReceiptDecodes(p.copy.limits, A.Records(target), p.copy.limits, rs);
    A.Bijection(p.copy.limits, rs, target);
  }
}
