/**
  * internal/pvccopy/local.go: inspect, receive, complete and the whole local copy.
  */
module PvcLocal {
  import opened Options
  import opened Archive
  import opened TarStream
  import opened ArchiveIO
  import opened ArchiveExport
  import opened Receipts
  import opened Volumes

  // The state directory of a received, and of a completed copy.  The claim has the empty receipt.
  function ReceivedState(p: CopyPlan, r: Receipt): StateDir {
    StateDir(Written(Marker(p, Receipt(Meta(0, 0, 0), 0, 0, ""))), Written(r), Absent, 0)
  }

  function CompletedState(p: CopyPlan, r: Receipt): StateDir {
    ReceivedState(p, r).(complete := Written(Marker(p, r)))
  }

  // A completed target: all three markers agree with the plan and with the payload.
  ghost predicate Completed(vol: Volume, p: CopyPlan, m: Marker)
    reads vol
  {
    && m.plan == p
    && vol.state == Some(CompletedState(p, m.receipt))
    && Exportable(vol, p.limits, true)
    && TreeReceipt(vol.Payload()) == m.receipt
  }

  function Present<T>(s: Slot<T>): nat {
    if s.Absent? then 0 else 1
  }

  // The number of names in the state directory.
  function StateNames(s: StateDir): nat {
    Present(s.claim) + Present(s.received) + Present(s.complete) + s.others
  }

  // Inspect reports an empty target, or a completed one it has hashed again; every
  // other state is refused.
  method Inspect(vol: Volume, p: CopyPlan) returns (r: Result<Option<Marker>>)
    requires vol.Valid()
    ensures r == Ok(None) ==> vol.Empty() && p.Valid()
    ensures r.Ok? && r.value.Some? ==> Completed(vol, p, r.value.value) && p.Valid()
    ensures !vol.faulty && p.Valid() && vol.Empty() ==> r == Ok(None)
    ensures forall m :: !vol.faulty && p.Valid() && Completed(vol, p, m) ==> r == Ok(Some(m))
  {
    hide Supported, TreeReceipt, Records;
    if !p.Valid() {
      return Err(Unsafe);
    }
    var ok := vol.Attempt();
    if !ok {
      return Err(Io);
    }
    if vol.Empty() {
      return Ok(None);
    }
    if vol.state.None? {
      return Err(Partial);
    }
    var s := vol.state.value;
    ok := vol.Attempt();
    if !ok || s.claim != Written(Marker(p, NO_RECEIPT)) {
      return Err(Partial);
    }
    ok := vol.Attempt();
    if !ok || !s.complete.Written? || s.complete.value != Marker(p, s.complete.value.receipt) {
      return Err(Partial);
    }
    var marker := s.complete.value;
    ok := vol.Attempt();
    if !ok || StateNames(s) != 3 {
      return Err(Partial);
    }
    if s.received != Written(marker.receipt) {
      return Err(Partial);
    }
    var actual, _ := Export(vol, p.limits, true);
    if actual.Err? {
      return Err(actual.error);
    }
    if actual.value != marker.receipt {
      return Err(Partial);
    }
    return Ok(Some(marker));
  }

  // An accepted stream is received as exactly the tree it describes.
  lemma ReceivedTree(p: Plan, rs: seq<Record>)
    requires Canonical(p, rs)
    ensures Supported(p, Build(rs)) && TreeReceipt(Build(rs)) == ReceiptOf(rs)
  {
    BuildIsSupported(p, rs);
    BuildThenExport(p, rs);
  }

  // Receive: claim the target exclusively, write the payload, verify it by reading it back.
  method Receive(vol: Volume, p: CopyPlan, s: Stream) returns (r: Result<Receipt>)
    requires vol.Valid() && Readable(s)
    modifies vol
    ensures vol.Valid()
    ensures r.Ok? ==> old(vol.Empty()) && p.Valid() && Accepted(p.limits, s)
    ensures r.Ok? ==> vol.Payload() == Build(CleanAll(s.raws)) && r.value == ReceiptOf(CleanAll(s.raws))
    ensures r.Ok? ==> vol.state == Some(ReceivedState(p, r.value))
    ensures r.Ok? ==> Exportable(vol, p.limits, true) && TreeReceipt(vol.Payload()) == r.value
    ensures !old(vol.Empty()) ==> r.Err?
    ensures !old(vol.Empty()) || vol.state.None? ==> vol.Payload() == old(vol.Payload()) && vol.state == old(vol.state)
    ensures r.Err? && vol.state.Some? && old(vol.Empty()) ==> vol.state.value.complete.Absent?
    ensures !vol.faulty && old(vol.Empty()) && p.Valid() ==> (r.Ok? <==> Accepted(p.limits, s))
  {
    hide Canonical, HashRecords, Supported, TreeReceipt;
    if !p.Valid() {
      return Err(Unsafe);
    }
    var m := Inspect(vol, p);
    if m.Err? {
      return Err(m.error);
    }
    if m.value.Some? {
      return Err(Partial);
    }
    var ok := vol.MkdirState();
    if !ok {
      return Err(Partial);
    }
    ok := vol.WriteClaim(Marker(p, NO_RECEIPT));
    if !ok {
      return Err(Io);
    }
    ok := vol.Attempt();
    if !ok {
      return Err(Io);
    }
    r := WritePayload(vol, p, s);
    if r.Err? { return; }
    ok := vol.WriteReceived(r.value);
    if !ok {
      return Err(Io);
    }
    ok := vol.Attempt();
    if !ok {
      return Err(Io);
    }
  }

  // The payload phase of Receive: consume, restore directories, and compare by export.
  method WritePayload(vol: Volume, p: CopyPlan, s: Stream) returns (r: Result<Receipt>)
    requires vol.Valid() && p.Valid() && Readable(s)
    requires vol.nodes == map[]
    modifies vol
    ensures vol.Valid() && vol.state == old(vol.state)
    ensures r.Ok? ==> Accepted(p.limits, s)
    ensures r.Ok? ==> vol.Payload() == Build(CleanAll(s.raws)) && r.value == ReceiptOf(CleanAll(s.raws))
    ensures r.Ok? ==> Exportable(vol, p.limits, true) && TreeReceipt(vol.Payload()) == r.value
    ensures !vol.faulty ==> (r.Ok? <==> Accepted(p.limits, s))
  {
    hide HashRecords, ValidPath;
    var receiver := new Receiver(vol);
    var rs;
    r, rs := Consume(p.limits, s, receiver);
    if r.Err? { return; }
    var ok := receiver.Finish(p.limits, rs);
    if !ok {
      return Err(Io);
    }
    ReceivedTree(p.limits, rs);
    var actual, _ := Export(vol, p.limits, true);
    if actual.Err? {
      return Err(actual.error);
    }
    if actual.value != r.value {
      return Err(Unsafe);
    }
  }

  // A state that Complete may finish: claimed for this plan, received as expected, not finished.
  predicate Finishable(state: Option<StateDir>, p: CopyPlan, expected: Receipt) {
    && state.Some?
    && state.value.claim == Written(Marker(p, NO_RECEIPT))
    && state.value.received == Written(expected)
    && state.value.complete.Absent?
  }

  // Complete: publish the final marker once, after reading the payload back.  It never
  // changes the payload, the claim or the received receipt, and never rewrites a marker.
  method Complete(vol: Volume, p: CopyPlan, expected: Receipt) returns (r: Result<Marker>)
    requires vol.Valid()
    modifies vol`state
    ensures vol.Valid() && vol.Payload() == old(vol.Payload())
    ensures r.Ok? ==> p.Valid() && Finishable(old(vol.state), p, expected)
    ensures r.Ok? ==> r.value == Marker(p, expected)
    ensures r.Ok? ==> vol.state == Some(old(vol.state).value.(complete := Written(r.value)))
    ensures r.Ok? ==> Exportable(vol, p.limits, true) && TreeReceipt(vol.Payload()) == expected
    ensures vol.state != old(vol.state) ==>
      && Finishable(old(vol.state), p, expected) && vol.state.Some?
      && vol.state == Some(old(vol.state).value.(complete := vol.state.value.complete))
    ensures !vol.faulty && p.Valid() && Finishable(old(vol.state), p, expected) ==>
      (r.Ok? <==> Exportable(vol, p.limits, true) && TreeReceipt(vol.Payload()) == expected)
  {
    hide Supported, TreeReceipt;
    var ok := vol.Attempt();
    if !ok {
      return Err(Io);
    }
    if !p.Valid() {
      return Err(Unsafe);
    }
    ok := vol.Attempt();
    if !ok || vol.state.None? || vol.state.value.claim != Written(Marker(p, NO_RECEIPT)) {
      return Err(Partial);
    }
    if vol.state.value.received != Written(expected) {
      return Err(Partial);
    }
    var actual, _ := Export(vol, p.limits, true);
    if actual.Err? {
      return Err(actual.error);
    }
    if actual.value != expected {
      return Err(Partial);
    }
    // Every payload directory is synced before the marker is published.
    ok := vol.Attempt();
    if !ok {
      return Err(Io);
    }
    var marker := Marker(p, actual.value);
    ok := vol.WriteComplete(marker);
    if !ok {
      return Err(Io);
    }
    ok := vol.Attempt();
    if !ok {
      return Err(Io);
    }
    return Ok(marker);
  }

  // A finished export is accepted, and builds the exported tree.
  lemma ExportedStream(p: Plan, t: Tree, s: Stream)
    requires Supported(p, t) && Renders(Records(t), s) && s.ends == 2
    ensures Accepted(p, s) && CleanAll(s.raws) == Records(t) && Build(Records(t)) == t
    ensures Readable(s)
  {
    Bijection(p, Records(t), t);
    RendersClean(Records(t), s);
    RenderedAccepted(p, Records(t), s);
  }

  // The whole copy.  On a fresh target success means equality with the source; on a
  // completed target the call only reads, and returns the marker found there.
  method CopyLocal(source: Volume?, target: Volume, p: CopyPlan) returns (r: Result<Marker>)
    requires target.Valid() && (source != null ==> source.Valid())
    modifies target
    ensures target.Valid()
    ensures r.Ok? ==> Completed(target, p, r.value) && p.Valid() && source != target
    ensures r.Ok? && old(target.Empty()) ==>
      source != null && Exportable(source, p.limits, false) && target.Payload() == source.Payload()
    ensures r.Ok? && !old(target.Empty()) ==>
      && old(Completed(target, p, r.value))
      && target.Payload() == old(target.Payload()) && target.state == old(target.state)
    ensures forall m :: old(Completed(target, p, m)) ==>
      && target.Payload() == old(target.Payload()) && target.state == old(target.state)
      && (r.Ok? ==> r.value == m)
      && (!target.faulty && p.Valid() && source != target ==> r == Ok(m))
    ensures source != null && source != target && !source.faulty && !target.faulty && p.Valid() ==>
      old(target.Empty()) ==> (r.Ok? <==> Exportable(source, p.limits, false))
  {
    hide Supported, TreeReceipt, Records, ReceiptOf, Build, Accepted;
    if !p.Valid() {
      return Err(Unsafe);
    }
    if source == target {
      return Err(Unsafe);
    }
    var m := Inspect(target, p);
    assert forall m' :: old(Completed(target, p, m')) ==> Completed(target, p, m');
    if m.Err? {
      return Err(m.error);
    }
    if m.value.Some? {
      return Ok(m.value.value);
    }
    r := CopyFresh(source, target, p);
  }

  // Export into the pipe, receive from it, and publish.  A missing source produces no stream.
  method CopyFresh(source: Volume?, target: Volume, p: CopyPlan) returns (r: Result<Marker>)
    requires target.Valid() && target.Empty() && p.Valid() && source != target && (source != null ==> source.Valid())
    modifies target
    ensures target.Valid()
    ensures r.Ok? ==> Completed(target, p, r.value)
    ensures r.Ok? ==> source != null && Exportable(source, p.limits, false) && target.Payload() == source.Payload()
    ensures source != null && !source.faulty && !target.faulty ==> (r.Ok? <==> Exportable(source, p.limits, false))
  {
    hide Supported, TreeReceipt, Records, ReceiptOf, Build, Accepted;
    // An export that fails closes the pipe with its error, wherever it was.
    var sent: Result<Receipt> := Err(Io);
    var s := AnyStream();
    s := s.(failed := true);
    if source != null {
      var out;
      sent, out := Export(source, p.limits, false);
      if sent.Ok? {
        s := WriteArchive(out);
        ExportedStream(p.limits, source.Payload(), s);
      }
    }
    FailedRefused(p.limits, s);
    var received := Receive(target, p, s);
    var failure := Joined(received, sent);
    if failure.Some? {
      return Err(failure.value);
    }
    r := Complete(target, p, received.value);
  }

  // errors.Join of the two ends of the pipe.
  function Joined<A, B>(a: Result<A>, b: Result<B>): Option<Error> {
    if a.Err? then Some(a.error) else if b.Err? then Some(b.error) else None
  }

  lemma FailedRefused(p: Plan, s: Stream)
    ensures s.failed ==> !Accepted(p, s)
  {}

  // ---- When success means equality with the source ---------------------------------------------------

  // On a target that was already complete, the source is not read again: the copy equals
  // the source exactly when the source still has the receipt recorded in the marker.
  lemma ResumedCopyEqualsSource(source: Volume, target: Volume, p: CopyPlan, m: Marker)
    requires p.Valid() && Completed(target, p, m) && Exportable(source, p.limits, false)
    ensures target.Payload() == source.Payload() <==> TreeReceipt(source.Payload()) == m.receipt
  {
    ReceiptIdentifiesTree(p.limits, target.Payload(), p.limits, source.Payload());
  }

  // Copy, let the source become any other tree, and copy again: the second call succeeds
  // with the first marker and leaves the target as it is, equal to the old source and
  // so different from the new one unless nothing changed.
  method CopyChangeCopy(source: Volume, target: Volume, p: CopyPlan, changed: Tree)
    returns (first: Result<Marker>, second: Result<Marker>)
    requires source != target && source.Valid() && target.Valid() && target.Empty()
    requires Rooted(changed) && ROOT !in changed.nodes
    requires forall n :: n in changed.nodes ==> n != STATE && !(STATE + "/" <= n)
    modifies source, target
    ensures first.Ok? && second.Ok? ==> second == first && target.Payload() == old(source.Payload())
    ensures first.Ok? && second.Ok? ==> (target.Payload() == source.Payload() <==> changed == old(source.Payload()))
    ensures first.Ok? && !target.faulty ==> second.Ok?
  {
    hide Supported, TreeReceipt, Exportable;
    first := CopyLocal(source, target, p);
    second := first;
    if first.Ok? {
      source.root, source.nodes := changed.root, changed.nodes;
      assert Completed(target, p, first.value);
      assert !target.Empty();
      second := CopyLocal(source, target, p);
    }
  }
}
