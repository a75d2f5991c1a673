/**
  * internal/pvccopy/local.go as a protocol: any number of Receive, Complete and
  * Inspect calls interleave on one target, system call by system call.  Any of them may
  * stop anywhere, and the machine may lose power, which drops whatever was not yet synced.
  */
module PvcProtocol {
  import opened Options
  import opened Archive
  import opened Receipts
  import opened Volumes
  import PvcLocal

  // ---- Calls in progress ------------------------------------------------------------------

  // `tree` is the tree that the received stream describes.
  datatype Call =
    | Receive(plan: CopyPlan, tree: Tree)
    | Complete(plan: CopyPlan, expected: Receipt)
    | Inspect(plan: CopyPlan)

  // The system call a process makes next.
  datatype Pc =
    // Receive
    | Looking | Claiming | CreatingClaim | WritingClaim | SyncingClaim | ListingClaim | SyncingRoot
    | Filling | Verifying | CreatingReceived | WritingReceived | SyncingReceived | ListingReceived
    // Complete
    | ReadingClaim | ReadingReceived | Rehashing | SyncingTree
    | CreatingComplete | WritingComplete | SyncingComplete | ListingComplete | SyncingRootAgain
    // Inspect
    | Listing | CheckingClaim | CheckingComplete | CheckingReceived | HashingAgain

  // `marker` is what an Inspect read from complete.json.
  datatype Proc = Proc(call: Call, pc: Pc, marker: Marker)

  datatype Outcome =
    | Failed | ReceivedOk(receipt: Receipt) | CompletedOk(m: Marker) | SeenEmpty | SeenComplete(seen: Marker)

  // ---- The target -------------------------------------------------------------------------------

  // What of a marker file would survive a power loss: its content, by the sync of the file,
  // and its name, by a sync of the state directory.
  datatype Sync = Sync(data: bool, entry: bool) {
    predicate Durable() {
      data && entry
    }
  }

  const UNSYNCED := Sync(false, false)

  datatype Disk = Disk(
    state: Option<StateDir>,
    payload: Tree,
    dirSynced: bool,          // the state directory itself would survive a power loss
    claimSync: Sync,
    receivedSync: Sync,
    completeSync: Sync,
    payloadSynced: bool,      // the payload would survive, too
    owner: Option<nat>)       // the call that made the state directory

  datatype World = World(
    disk: Disk,
    procs: map<nat, Proc>,    // the calls in progress
    calls: map<nat, Call>,    // every call ever started
    writers: set<nat>,        // every call that ever wrote payload
    outcomes: map<nat, Outcome>)

  const NO_MARKER := Marker(CopyPlan("", Plan(0, 0)), NO_RECEIPT)

  // An empty target, mounted and synced.
  function Fresh(root: Meta): World {
    World(Disk(None, Tree(root, map[]), false, UNSYNCED, UNSYNCED, UNSYNCED, true, None), map[], map[], {}, map[])
  }

  // The receipt an export of the payload would give.
  ghost function Hashed(p: CopyPlan, t: Tree): Option<Receipt> {
    if Supported(p.limits, t) then Some(TreeReceipt(t)) else None
  }

  function Claim(p: CopyPlan): Slot<Marker> {
    Written(Marker(p, NO_RECEIPT))
  }

  function Listed<T>(slot: Slot<T>, sync: Sync): Sync {
    sync.(entry := !slot.Absent?)
  }

  // A sync of the state directory: the names in it are on the disk.
  function StateSynced(d: Disk): Disk {
    if d.state.None? then d
    else
      var s := d.state.value;
      d.(claimSync := Listed(s.claim, d.claimSync), receivedSync := Listed(s.received, d.receivedSync),
         completeSync := Listed(s.complete, d.completeSync))
  }

  // ---- One system call ------------------------------------------------------------------------------

  // Where a process goes next.
  datatype Control = Goto(pc: Pc) | Read(pc: Pc, marker: Marker) | Done(outcome: Outcome)

  ghost function StepReceive(d: Disk, pid: nat, p: CopyPlan, t: Tree, pc: Pc): (Disk, Control) {
    match pc
    case Looking =>
      // An empty root directory; everything else makes Inspect, and so Receive, refuse.
      (d, if p.Valid() && d.state.None? && d.payload.nodes == map[] then Goto(Claiming) else Done(Failed))
    case Claiming =>
      if d.state.None? then (d.(state := Some(NEW_STATE), owner := Some(pid)), Goto(CreatingClaim))
      else (d, Done(Failed))
    case CreatingClaim =>
      if d.state.Some? && d.state.value.claim.Absent?
      then (d.(state := Some(d.state.value.(claim := Torn))), Goto(WritingClaim)) else (d, Done(Failed))
    case WritingClaim =>
      if d.state.Some?
      then (d.(state := Some(d.state.value.(claim := Claim(p))), claimSync := d.claimSync.(data := false)),
            Goto(SyncingClaim))
      else (d, Done(Failed))
    case SyncingClaim => (d.(claimSync := d.claimSync.(data := true)), Goto(ListingClaim))
    case ListingClaim => (StateSynced(d), Goto(SyncingRoot))
    case SyncingRoot => (d.(dirSynced := true), Goto(Filling))
    case Filling =>
      // The archive was consumed, so it has a tree that can be exported, and the directories
      // were restored; what came of it on the disk is for the next step to find out.
      (d, if Supported(p.limits, t) then Goto(Verifying) else Done(Failed))
    case Verifying =>
      (d, if Hashed(p, d.payload) == Some(TreeReceipt(t)) then Goto(CreatingReceived) else Done(Failed))
    case CreatingReceived =>
      if d.state.Some? && d.state.value.received.Absent?
      then (d.(state := Some(d.state.value.(received := Torn))), Goto(WritingReceived)) else (d, Done(Failed))
    case WritingReceived =>
      if d.state.Some?
      then (d.(state := Some(d.state.value.(received := Written(TreeReceipt(t)))),
               receivedSync := d.receivedSync.(data := false)), Goto(SyncingReceived))
      else (d, Done(Failed))
    case SyncingReceived => (d.(receivedSync := d.receivedSync.(data := true)), Goto(ListingReceived))
    case ListingReceived => (StateSynced(d), Done(ReceivedOk(TreeReceipt(t))))
    case _ => (d, Done(Failed))
  }

  ghost function StepComplete(d: Disk, p: CopyPlan, expected: Receipt, pc: Pc): (Disk, Control) {
    match pc
    case ReadingClaim =>
      (d, if p.Valid() && d.state.Some? && d.state.value.claim == Claim(p) then Goto(ReadingReceived) else Done(Failed))
    case ReadingReceived =>
      (d, if d.state.Some? && d.state.value.received == Written(expected) then Goto(Rehashing) else Done(Failed))
    case Rehashing =>
      (d, if Hashed(p, d.payload) == Some(expected) then Goto(SyncingTree) else Done(Failed))
    case SyncingTree =>
      // Every directory of the target, the state directory and the root among them.
      (StateSynced(d).(payloadSynced := true, dirSynced := true), Goto(CreatingComplete))
    case CreatingComplete =>
      if d.state.Some? && d.state.value.complete.Absent?
      then (d.(state := Some(d.state.value.(complete := Torn))), Goto(WritingComplete)) else (d, Done(Failed))
    case WritingComplete =>
      if d.state.Some?
      then (d.(state := Some(d.state.value.(complete := Written(Marker(p, expected)))),
               completeSync := d.completeSync.(data := false)), Goto(SyncingComplete))
      else (d, Done(Failed))
    case SyncingComplete => (d.(completeSync := d.completeSync.(data := true)), Goto(ListingComplete))
    case ListingComplete => (StateSynced(d), Goto(SyncingRootAgain))
    case SyncingRootAgain => (d.(dirSynced := true), Done(CompletedOk(Marker(p, expected))))
    case _ => (d, Done(Failed))
  }

  // Inspect only reads.
  ghost function StepInspect(d: Disk, p: CopyPlan, m: Marker, pc: Pc): Control {
    match pc
    case Listing =>
      if !p.Valid() then Done(Failed)
      else if d.state.None? && d.payload.nodes == map[] then Done(SeenEmpty) else Goto(CheckingClaim)
    case CheckingClaim =>
      if d.state.Some? && d.state.value.claim == Claim(p) then Goto(CheckingComplete) else Done(Failed)
    case CheckingComplete =>
      if d.state.Some? && d.state.value.complete.Written? && d.state.value.complete.value.plan == p
      then Read(CheckingReceived, d.state.value.complete.value) else Done(Failed)
    case CheckingReceived =>
      if d.state.Some? && PvcLocal.StateNames(d.state.value) == 3 && d.state.value.received == Written(m.receipt)
      then Goto(HashingAgain) else Done(Failed)
    case HashingAgain =>
      if Hashed(p, d.payload) == Some(m.receipt) then Done(SeenComplete(m)) else Done(Failed)
    case _ => Done(Failed)
  }

  ghost function StepOf(d: Disk, pid: nat, proc: Proc): (Disk, Control) {
    match proc.call
    case Receive(p, t) => StepReceive(d, pid, p, t, proc.pc)
    case Complete(p, r) => StepComplete(d, p, r, proc.pc)
    case Inspect(p) => (d, StepInspect(d, p, proc.marker, proc.pc))
  }

  // ---- Everything that can happen --------------------------------------------------------------------

  datatype Action =
    | Begin(pid: nat, call: Call)
    | Advance(pid: nat)              // the next system call of a process
    | Fill(pid: nat, tree: Tree)     // one payload write, leaving some tree behind
    | Stop(pid: nat)                 // a process fails, is cancelled or is killed
    | PowerLoss(left: Option<StateDir>, tree: Tree)

  // What a power loss may leave of a file: all of it; part of it, unless its content was
  // synced; nothing, unless its name was.
  predicate Survives<T(==)>(before: Slot<T>, sync: Sync, after: Slot<T>) {
    || after == before
    || (!sync.entry && after.Absent?)
    || (!sync.data && after.Torn? && !before.Absent?)
  }

  predicate MayRemain(d: Disk, left: Option<StateDir>, tree: Tree) {
    && (d.payloadSynced ==> tree == d.payload)
    && (left.None? ==> !d.dirSynced)
    && (left.Some? ==>
          && d.state.Some? && left.value.others == d.state.value.others
          && Survives(d.state.value.claim, d.claimSync, left.value.claim)
          && Survives(d.state.value.received, d.receivedSync, left.value.received)
          && Survives(d.state.value.complete, d.completeSync, left.value.complete))
  }

  function OnDisk<T>(slot: Slot<T>): Sync {
    Sync(!slot.Absent?, !slot.Absent?)
  }

  // What is still there after a power loss is on the disk.
  function Reboot(d: Disk, left: Option<StateDir>, tree: Tree): Disk {
    Disk(left, tree, left.Some?,
         if left.Some? then OnDisk(left.value.claim) else UNSYNCED,
         if left.Some? then OnDisk(left.value.received) else UNSYNCED,
         if left.Some? then OnDisk(left.value.complete) else UNSYNCED,
         true,
         if left.Some? then d.owner else None)
  }

  function FirstPc(call: Call): Pc {
    match call
    case Receive(_, _) => Looking
    case Complete(_, _) => ReadingClaim
    case Inspect(_) => Listing
  }

  function After(proc: Proc, c: Control): Proc
    requires !c.Done?
  {
    match c
    case Goto(pc) => proc.(pc := pc)
    case Read(pc, m) => proc.(pc := pc, marker := m)
  }

  // The world after an action; an action that is not possible changes nothing.
  ghost function Do(w: World, a: Action): World {
    match a
    case Begin(pid, call) =>
      if pid in w.calls then w
      else w.(calls := w.calls[pid := call], procs := w.procs[pid := Proc(call, FirstPc(call), NO_MARKER)])
    case Advance(pid) =>
      if pid !in w.procs then w
      else
        var (d, c) := StepOf(w.disk, pid, w.procs[pid]);
        if c.Done? then w.(disk := d, procs := w.procs - {pid}, outcomes := w.outcomes[pid := c.outcome])
        else w.(disk := d, procs := w.procs[pid := After(w.procs[pid], c)])
    case Fill(pid, tree) =>
      if pid in w.procs && w.procs[pid].call.Receive? && w.procs[pid].pc == Filling
      then w.(disk := w.disk.(payload := tree, payloadSynced := false), writers := w.writers + {pid})
      else w
    case Stop(pid) =>
      if pid !in w.procs then w
      else w.(procs := w.procs - {pid}, outcomes := w.outcomes[pid := Failed])
    case PowerLoss(left, tree) =>
      if MayRemain(w.disk, left, tree) then w.(disk := Reboot(w.disk, left, tree), procs := map[]) else w
  }

  // ---- What every reachable state satisfies -----------------------------------------------------------

  // A Receive that holds the claim, with the files as its program counter says.
  ghost predicate Holding(d: Disk, pid: nat, claim: Slot<Marker>, received: Slot<Receipt>) {
    && d.owner == Some(pid)
    && d.state == Some(StateDir(claim, received, Absent, 0))
  }

  ghost predicate ReceiveOk(d: Disk, pid: nat, p: CopyPlan, t: Tree, pc: Pc) {
    match pc
    case Looking => true
    case Claiming => p.Valid()
    case CreatingClaim => p.Valid() && Holding(d, pid, Absent, Absent)
    case WritingClaim => p.Valid() && Holding(d, pid, Torn, Absent)
    case SyncingClaim => p.Valid() && Holding(d, pid, Claim(p), Absent)
    case ListingClaim => p.Valid() && Holding(d, pid, Claim(p), Absent) && d.claimSync.data
    case SyncingRoot => p.Valid() && Holding(d, pid, Claim(p), Absent) && d.claimSync.Durable()
    case Filling => p.Valid() && Holding(d, pid, Claim(p), Absent) && ClaimDurable(d)
    case Verifying => p.Valid() && Holding(d, pid, Claim(p), Absent) && ClaimDurable(d) && Supported(p.limits, t)
    case CreatingReceived => Holding(d, pid, Claim(p), Absent) && Verified(d, p, t)
    case WritingReceived => Holding(d, pid, Claim(p), Torn) && Verified(d, p, t)
    case SyncingReceived => Held(d, pid, p, t)
    case ListingReceived => Held(d, pid, p, t) && d.receivedSync.data
    case _ => false
  }

  // The payload is the tree that was received, and has been read back.
  ghost predicate Verified(d: Disk, p: CopyPlan, t: Tree) {
    p.Valid() && ClaimDurable(d) && d.payload == t && Hashed(p, t) == Some(TreeReceipt(t))
  }

  // The receipt is written; a Complete may have started by now.
  ghost predicate Held(d: Disk, pid: nat, p: CopyPlan, t: Tree) {
    && Verified(d, p, t) && d.owner == Some(pid)
    && d.state.value.claim == Claim(p) && d.state.value.received == Written(TreeReceipt(t))
  }

  // How far a Complete has come is what it has found to hold, and still holds.
  function CompleteRank(pc: Pc): nat {
    match pc
    case ReadingReceived => 1
    case Rehashing => 2
    case SyncingTree => 3
    case CreatingComplete => 4
    case WritingComplete => 5
    case SyncingComplete => 6
    case ListingComplete => 7
    case SyncingRootAgain => 8
    case _ => 0
  }

  ghost predicate CompleteOk(d: Disk, p: CopyPlan, expected: Receipt, pc: Pc) {
    var n := CompleteRank(pc);
    && (n >= 1 ==> d.state.Some? && d.state.value.claim == Claim(p))
    && (n >= 2 ==> d.state.value.received == Written(expected))
    && (n >= 3 ==> Hashed(p, d.payload) == Some(expected))
    && (n >= 4 ==> d.payloadSynced && d.receivedSync.entry)
    && (n == 5 ==> d.state.value.complete.Torn?)
    && (n >= 6 ==> d.state.value.complete == Written(Marker(p, expected)))
    && (n >= 7 ==> d.completeSync.data)
    && (n >= 8 ==> d.completeSync.entry)
  }

  ghost predicate InspectOk(d: Disk, p: CopyPlan, m: Marker, pc: Pc) {
    && (pc in {CheckingComplete, CheckingReceived, HashingAgain} ==> d.state.Some? && d.state.value.claim == Claim(p))
    && (pc in {CheckingReceived, HashingAgain} ==> d.state.value.complete == Written(m) && m.plan == p)
    && (pc == HashingAgain ==> d.state.value.received == Written(m.receipt))
  }

  ghost predicate ProcOk(d: Disk, pid: nat, proc: Proc) {
    match proc.call
    case Receive(p, t) => ReceiveOk(d, pid, p, t, proc.pc)
    case Complete(p, r) => CompleteOk(d, p, r, proc.pc)
    case Inspect(p) => InspectOk(d, p, proc.marker, proc.pc)
  }

  predicate Publishing(proc: Proc) {
    proc.call.Complete? && proc.pc == WritingComplete
  }

  ghost predicate DiskOk(d: Disk) {
    && (d.state.None? ==>
          && !d.dirSynced && d.claimSync == UNSYNCED && d.receivedSync == UNSYNCED && d.completeSync == UNSYNCED
          && d.owner.None?)
    && (d.state.Some? ==> d.owner.Some? && FilesOk(d, d.state.value))
  }

  ghost predicate FilesOk(d: Disk, s: StateDir) {
    && s.others == 0
    // A file marked as synced is there.
    && (s.claim.Absent? ==> d.claimSync == UNSYNCED)
    && (s.received.Absent? ==> d.receivedSync == UNSYNCED)
    && (s.complete.Absent? ==> d.completeSync == UNSYNCED)
    // The receipt is created after the claim is durable.
    && (!s.received.Absent? ==> ClaimDurable(d))
    // The final marker is created over a synced payload, and agrees with it.
    && (!s.complete.Absent? ==> ClaimDurable(d) && d.payloadSynced)
    && (s.complete.Written? ==>
          && s.claim == Claim(s.complete.value.plan)
          && Hashed(s.complete.value.plan, d.payload) == Some(s.complete.value.receipt))
  }

  // The state directory and its claim survive every power loss.
  predicate ClaimDurable(d: Disk) {
    d.dirSynced && d.claimSync.Durable() && d.state.Some? && d.state.value.claim.Written?
  }

  ghost predicate Inv(w: World) {
    && w.writers <= w.calls.Keys && w.outcomes.Keys <= w.calls.Keys
    && (forall pid :: pid in w.procs ==> pid in w.calls && w.procs[pid].call == w.calls[pid])
    && DiskOk(w.disk)
    // Nothing is written before the claim is durable, and only by the one that made it.
    && (w.disk.owner.Some? ==> w.disk.owner.value in w.calls)
    && (w.writers != {} ==> ClaimDurable(w.disk) && w.disk.owner.Some? && w.writers == {w.disk.owner.value})
    && (forall pid :: pid in w.procs ==> ProcOk(w.disk, pid, w.procs[pid]))
    // At most one call is creating the final marker.
    && (forall a, b :: a in w.procs && b in w.procs && Publishing(w.procs[a]) && Publishing(w.procs[b]) ==> a == b)
  }

  lemma FreshInv(root: Meta)
    ensures Inv(Fresh(root))
  {}

  // ---- One system call, seen by the other processes ------------------------------------------------

  // A file only ever gets created, and then filled once.
  predicate Later<T(==)>(before: Slot<T>, after: Slot<T>) {
    after == before || before.Absent? || (before.Torn? && after.Written?)
  }

  // What was on the disk stays there.
  predicate Kept<T>(before: Slot<T>, a: Sync, b: Sync) {
    (a.entry ==> b.entry) && (a.data && before.Written? ==> b.data)
  }

  // What a system call of `pid` may do: nothing to the payload, and to the files only forward.
  ghost predicate Effect(d: Disk, d': Disk, pid: nat, proc: Proc) {
    && d'.payload == d.payload
    && (d.payloadSynced ==> d'.payloadSynced)
    && (d.dirSynced ==> d'.dirSynced)
    && (d.state.None? ==> d' == d || (d'.owner == Some(pid) && d'.state == Some(NEW_STATE)))
    && (d.state.Some? ==>
          && d'.state.Some? && d'.owner == d.owner
          && FilesMove(d.state.value, d'.state.value, d.owner == Some(pid), Publishing(proc))
          && Kept(d.state.value.claim, d.claimSync, d'.claimSync)
          && Kept(d.state.value.received, d.receivedSync, d'.receivedSync)
          && Kept(d.state.value.complete, d.completeSync, d'.completeSync))
  }

  // Claim and receipt belong to the owner; the final marker follows the receipt, and a
  // torn one belongs to the Complete that is writing it.
  predicate FilesMove(a: StateDir, b: StateDir, owner: bool, publishing: bool) {
    && Later(a.claim, b.claim) && Later(a.received, b.received) && Later(a.complete, b.complete)
    && b.others == a.others
    && (!owner ==> b.claim == a.claim && b.received == a.received)
    && (b.complete != a.complete ==> a.received.Written? && (a.complete.Absent? || (a.complete.Torn? && publishing)))
  }

  // Whatever another process has found out stays true.
  lemma OthersKeep(d: Disk, d': Disk, pid: nat, proc: Proc, q: nat, other: Proc)
    requires Effect(d, d', pid, proc) && q != pid && ProcOk(d, q, other)
    requires !(Publishing(proc) && Publishing(other))
    ensures ProcOk(d', q, other)
  {
    hide Hashed, TreeReceipt;
  }

  // ---- The system calls themselves ----------------------------------------------------------------

  ghost predicate Sound(d: Disk, pid: nat, proc: Proc, d': Disk, c: Control) {
    && Effect(d, d', pid, proc)
    && DiskOk(d')
    && (!c.Done? ==> ProcOk(d', pid, After(proc, c)))
    && (!c.Done? && Publishing(After(proc, c)) ==> d.state.Some? && d.state.value.complete.Absent?)
  }

  lemma ReceiveSound(d: Disk, pid: nat, proc: Proc)
    requires DiskOk(d) && ProcOk(d, pid, proc) && proc.call.Receive?
    ensures var (d', c) := StepOf(d, pid, proc); Sound(d, pid, proc, d', c)
  {
    hide DiskOk, ProcOk, StepOf, Sound;
    if ClaimPart(proc.pc) { ClaimSound(d, pid, proc); } else { PayloadSound(d, pid, proc); }
  }

  predicate ClaimPart(pc: Pc) {
    pc in {Looking, Claiming, CreatingClaim, WritingClaim, SyncingClaim, ListingClaim, SyncingRoot}
  }

  lemma ClaimSound(d: Disk, pid: nat, proc: Proc)
    requires DiskOk(d) && ProcOk(d, pid, proc) && proc.call.Receive? && ClaimPart(proc.pc)
    ensures var (d', c) := StepOf(d, pid, proc); Sound(d, pid, proc, d', c)
  {
    hide Hashed, TreeReceipt, Archive.Plan.Valid;
  }

  lemma PayloadSound(d: Disk, pid: nat, proc: Proc)
    requires DiskOk(d) && ProcOk(d, pid, proc) && proc.call.Receive? && !ClaimPart(proc.pc)
    ensures var (d', c) := StepOf(d, pid, proc); Sound(d, pid, proc, d', c)
  {
    hide Hashed, TreeReceipt, Supported, Archive.Plan.Valid;
    if proc.pc == Verifying { ReadBack(proc.call.plan, d.payload, proc.call.tree); }
  }

  // The comparison of receipts after the read-back: it passes only for the received tree.
  lemma ReadBack(p: CopyPlan, payload: Tree, t: Tree)
    requires p.Valid() && Supported(p.limits, t)
    ensures Hashed(p, payload) == Some(TreeReceipt(t)) <==> payload == t
  {
    hide Supported, TreeReceipt;
    if Hashed(p, payload) == Some(TreeReceipt(t)) { SameTree(p, payload, t); }
  }

  lemma CompleteSound(d: Disk, pid: nat, proc: Proc)
    requires DiskOk(d) && ProcOk(d, pid, proc) && proc.call.Complete?
    ensures var (d', c) := StepOf(d, pid, proc); Sound(d, pid, proc, d', c)
  {
    hide Hashed, TreeReceipt;
  }

  lemma InspectSound(d: Disk, pid: nat, proc: Proc)
    requires DiskOk(d) && ProcOk(d, pid, proc) && proc.call.Inspect?
    ensures var (d', c) := StepOf(d, pid, proc); Sound(d, pid, proc, d', c)
  {
    hide Hashed, TreeReceipt;
  }

  lemma StepSound(d: Disk, pid: nat, proc: Proc)
    requires DiskOk(d) && ProcOk(d, pid, proc)
    ensures var (d', c) := StepOf(d, pid, proc); Sound(d, pid, proc, d', c)
  {
    hide DiskOk, ProcOk, StepOf, Sound;
    match proc.call
    case Receive(p, t) => ReceiveSound(d, pid, proc);
    case Complete(p, r) => CompleteSound(d, pid, proc);
    case Inspect(p) => InspectSound(d, pid, proc);
  }

  // ---- Every action keeps the invariant --------------------------------------------------------------

  lemma AdvanceInv(w: World, pid: nat)
    requires Inv(w) && pid in w.procs
    ensures Inv(Do(w, Advance(pid)))
  {
    hide Hashed, TreeReceipt, StepOf, DiskOk, ProcOk;
    var proc := w.procs[pid];
    var (d, c) := StepOf(w.disk, pid, proc);
    var w' := Do(w, Advance(pid));
    StepSound(w.disk, pid, proc);
    forall q | q in w'.procs ensures ProcOk(d, q, w'.procs[q]) {
      if q != pid { OthersKeep(w.disk, d, pid, proc, q, w.procs[q]); }
    }
    forall a, b | a in w'.procs && b in w'.procs && Publishing(w'.procs[a]) && Publishing(w'.procs[b]) ensures a == b {
      NoSecondPublisher(w, w', pid, a);
      NoSecondPublisher(w, w', pid, b);
    }
    OwnerKept(w.disk, d, pid, proc);
  }

  // A process starts to publish only while nobody else is publishing.
  lemma NoSecondPublisher(w: World, w': World, pid: nat, a: nat)
    requires Inv(w) && pid in w.procs && w' == Do(w, Advance(pid)) && a in w'.procs && Publishing(w'.procs[a])
    ensures a != pid ==>
      a in w.procs && Publishing(w.procs[a]) && w.disk.state.Some? && w.disk.state.value.complete.Torn?
    ensures a == pid ==> w.disk.state.Some? && w.disk.state.value.complete.Absent?
  {
    hide Hashed, TreeReceipt, StepOf, DiskOk, Effect;
    StepSound(w.disk, pid, w.procs[pid]);
    if a != pid { assert ProcOk(w.disk, a, w.procs[a]); }
  }

  lemma OwnerKept(d: Disk, d': Disk, pid: nat, proc: Proc)
    requires DiskOk(d) && DiskOk(d') && Effect(d, d', pid, proc)
    ensures ClaimDurable(d) ==> ClaimDurable(d') && d'.owner == d.owner
    ensures d'.owner == d.owner || d'.owner == Some(pid)
  {}

  lemma FillInv(w: World, pid: nat, tree: Tree)
    requires Inv(w)
    ensures Inv(Do(w, Fill(pid, tree)))
  {
    hide Hashed, TreeReceipt;
    var w' := Do(w, Fill(pid, tree));
    if w' != w {
      assert ProcOk(w.disk, pid, w.procs[pid]);
      forall q | q in w'.procs ensures ProcOk(w'.disk, q, w'.procs[q]) { assert ProcOk(w.disk, q, w.procs[q]); }
    }
  }

  lemma PowerLossInv(w: World, left: Option<StateDir>, tree: Tree)
    requires Inv(w)
    ensures Inv(Do(w, PowerLoss(left, tree)))
  {
    hide Hashed, TreeReceipt;
  }

  lemma BeginInv(w: World, pid: nat, call: Call)
    requires Inv(w)
    ensures Inv(Do(w, Begin(pid, call)))
  {
    hide DiskOk, ProcOk, ClaimDurable;
    JustBegun(w.disk, pid, call);
  }

  lemma JustBegun(d: Disk, pid: nat, call: Call)
    ensures ProcOk(d, pid, Proc(call, FirstPc(call), NO_MARKER))
  {}

  lemma StopInv(w: World, pid: nat)
    requires Inv(w)
    ensures Inv(Do(w, Stop(pid)))
  {
    hide Hashed, TreeReceipt, DiskOk, ProcOk;
  }

  // Every system call of every process, every failure and every power loss.
  lemma DoInv(w: World, a: Action)
    requires Inv(w)
    ensures Inv(Do(w, a))
  {
    hide Inv;
    match a
    case Begin(pid, call) => BeginInv(w, pid, call);
    case Advance(pid) => if pid in w.procs { AdvanceInv(w, pid); }
    case Fill(pid, tree) => FillInv(w, pid, tree);
    case Stop(pid) => StopInv(w, pid);
    case PowerLoss(left, tree) => PowerLossInv(w, left, tree);
  }

  // ---- Whole runs ---------------------------------------------------------------------------------------

  ghost function Exec(w: World, run: seq<Action>): World
    decreases |run|
  {
    if run == [] then w else Exec(Do(w, run[0]), run[1..])
  }

  lemma {:induction false} ExecInv(w: World, run: seq<Action>)
    requires Inv(w)
    ensures Inv(Exec(w, run))
    decreases |run|
  {
    hide Inv, Do;
    if run != [] {
      DoInv(w, run[0]);
      ExecInv(Do(w, run[0]), run[1..]);
    }
  }

  // In every run, over all incarnations of the target's power supply, at most one
  // Receive writes payload, and only after its claim has become durable.
  lemma AtMostOneWriter(root: Meta, run: seq<Action>)
    ensures var w := Exec(Fresh(root), run);
            && |w.writers| <= 1
            && (w.writers != {} ==> ClaimDurable(w.disk))
  {
    FreshInv(root);
    ExecInv(Fresh(root), run);
  }

  // ---- Phases ------------------------------------------------------------------------------------------

  // 0 empty, 1 claimed, 2 received, 3 completed, as anyone looking at the target sees it.
  function Phase(d: Disk): nat {
    if d.state.None? then 0
    else if d.state.value.complete.Written? then 3
    else if d.state.value.received.Written? then 2
    else 1
  }

  // The same, counting only what would survive a power loss.
  function DurablePhase(d: Disk): nat {
    if !d.dirSynced || d.state.None? then 0
    else if d.state.value.complete.Written? && d.completeSync.Durable() then 3
    else if d.state.value.received.Written? && d.receivedSync.Durable() then 2
    else 1
  }

  // What any action does to the files, power losses apart: none goes back, none is rewritten.
  lemma FilesForward(w: World, a: Action)
    requires Inv(w) && !a.PowerLoss?
    ensures var d, d' := w.disk, Do(w, a).disk;
            && (d.state.Some? ==>
                  && d'.state.Some? && d'.owner == d.owner
                  && Later(d.state.value.claim, d'.state.value.claim)
                  && Later(d.state.value.received, d'.state.value.received)
                  && Later(d.state.value.complete, d'.state.value.complete)
                  && Kept(d.state.value.claim, d.claimSync, d'.claimSync)
                  && Kept(d.state.value.received, d.receivedSync, d'.receivedSync)
                  && Kept(d.state.value.complete, d.completeSync, d'.completeSync))
            && (d.dirSynced ==> d'.dirSynced)
  {
    hide Hashed, TreeReceipt, StepOf, DiskOk, ProcOk;
    if a.Advance? && a.pid in w.procs { StepSound(w.disk, a.pid, w.procs[a.pid]); }
  }

  // The visible phase goes up one at a time, and never back while the machine runs; the
  // durable phase never goes back.
  lemma PhaseOnlyAdvances(w: World, a: Action)
    requires Inv(w)
    ensures !a.PowerLoss? ==> Phase(w.disk) <= Phase(Do(w, a).disk) <= Phase(w.disk) + 1
    ensures DurablePhase(w.disk) <= DurablePhase(Do(w, a).disk)
    ensures DurablePhase(w.disk) <= Phase(w.disk)
  {
    DurableIsVisible(w);
    hide Inv, StepOf, Phase, DurablePhase;
    if a.PowerLoss? { LossKeepsDurable(w, a); } else { OnePhase(w, a); DurableForward(w, a); }
  }

  lemma DurableIsVisible(w: World)
    requires Inv(w)
    ensures DurablePhase(w.disk) <= Phase(w.disk)
  {
    hide ProcOk, Hashed;
  }

  lemma OnePhase(w: World, a: Action)
    requires Inv(w) && !a.PowerLoss?
    ensures Phase(w.disk) <= Phase(Do(w, a).disk) <= Phase(w.disk) + 1
  {
    hide Hashed, TreeReceipt, StepOf, DiskOk, ProcOk;
    if a.Advance? && a.pid in w.procs { StepSound(w.disk, a.pid, w.procs[a.pid]); }
  }

  lemma DurableForward(w: World, a: Action)
    requires Inv(w) && !a.PowerLoss?
    ensures DurablePhase(w.disk) <= DurablePhase(Do(w, a).disk)
  {
    hide Inv, Do;
    FilesForward(w, a);
  }

  lemma LossKeepsDurable(w: World, a: Action)
    requires a.PowerLoss?
    ensures DurablePhase(w.disk) <= DurablePhase(Do(w, a).disk)
  {}

  // A marker that was written stays as it is; once synced, through every power loss too.
  lemma MarkersAreFinal(w: World, a: Action)
    requires Inv(w) && w.disk.state.Some?
    ensures var s, d' := w.disk.state.value, Do(w, a).disk;
            && (s.claim.Written? && (!a.PowerLoss? || ClaimDurable(w.disk)) ==>
                  d'.state.Some? && d'.state.value.claim == s.claim)
            && (s.received.Written? && (!a.PowerLoss? || (w.disk.dirSynced && w.disk.receivedSync.Durable())) ==>
                  d'.state.Some? && d'.state.value.received == s.received)
            && (s.complete.Written? && (!a.PowerLoss? || (w.disk.dirSynced && w.disk.completeSync.Durable())) ==>
                  d'.state.Some? && d'.state.value.complete == s.complete)
  {
    if !a.PowerLoss? { FilesForward(w, a); }
  }

  lemma {:induction false} DurablePhaseInRuns(w: World, run: seq<Action>)
    requires Inv(w)
    ensures DurablePhase(w.disk) <= DurablePhase(Exec(w, run).disk)
    decreases |run|
  {
    hide Inv, Do, DurablePhase;
    if run != [] {
      DoInv(w, run[0]);
      PhaseOnlyAdvances(w, run[0]);
      DurablePhaseInRuns(Do(w, run[0]), run[1..]);
    }
  }

  // ---- What the answers mean ---------------------------------------------------------------------------

  // A target that is not empty turns every new Receive away, and one whose claim is
  // another's gives nothing to a Receive under way.
  lemma ReceiveRefused(w: World, pid: nat)
    requires Inv(w) && pid in w.procs && w.procs[pid].call.Receive?
    requires w.disk.state.Some? && w.disk.owner != Some(pid)
    ensures Do(w, Advance(pid)) == w.(procs := w.procs - {pid}, outcomes := w.outcomes[pid := Failed])
  {
    assert ProcOk(w.disk, pid, w.procs[pid]);
  }

  predicate ReceiptDurable(d: Disk, r: Receipt) {
    ClaimDurable(d) && d.receivedSync.Durable() && d.state.value.received == Written(r)
  }

  // What a Receive that returned r has left behind, for ever.
  ghost predicate Returned(d: Disk, call: Call, r: Receipt) {
    && call.Receive? && call.plan.Valid() && Hashed(call.plan, call.tree) == Some(r)
    && ReceiptDurable(d, r) && d.state.value.claim == Claim(call.plan)
  }

  // The target as a call that returns finds it.
  ghost predicate Means(d: Disk, call: Call, o: Outcome) {
    match o
    case Failed => true
    case ReceivedOk(r) =>
      && call.Receive? && d.payload == call.tree && Returned(d, call, r)
    case CompletedOk(m) =>
      && call.Complete? && m == Marker(call.plan, call.expected) && ClaimDurable(d)
      && d.receivedSync.entry && d.completeSync.Durable() && d.payloadSynced
      && d.state == Some(PvcLocal.CompletedState(m.plan, m.receipt)) && Hashed(m.plan, d.payload) == Some(m.receipt)
    case SeenEmpty => call.Inspect? && d.state.None? && d.payload.nodes == map[]
    case SeenComplete(m) =>
      && call.Inspect? && m.plan == call.plan
      && d.state == Some(PvcLocal.CompletedState(m.plan, m.receipt)) && Hashed(m.plan, d.payload) == Some(m.receipt)
  }

  // Each successful return says what is true at that moment; in particular a claimed but
  // incomplete target is never reported as empty or complete.
  lemma ReturnsAreTrue(w: World, pid: nat)
    requires Inv(w) && pid in w.procs
    ensures var (d, c) := StepOf(w.disk, pid, w.procs[pid]);
            c.Done? ==> Means(d, w.procs[pid].call, c.outcome) && Do(w, Advance(pid)).disk == d
  {
    hide TreeReceipt, Supported;
    assert ProcOk(w.disk, pid, w.procs[pid]);
  }

  // ---- Durability ----------------------------------------------------------------------------------------

  // Completed, with every part of it on the disk.
  ghost predicate Settled(d: Disk, m: Marker) {
    && d.dirSynced && d.claimSync.Durable() && d.receivedSync.Durable() && d.completeSync.Durable() && d.payloadSynced
    && d.state == Some(PvcLocal.CompletedState(m.plan, m.receipt))
  }

  lemma SettledStep(w: World, pid: nat, m: Marker)
    requires Inv(w) && Settled(w.disk, m) && pid in w.procs
    ensures Settled(Do(w, Advance(pid)).disk, m) && Do(w, Advance(pid)).disk.payload == w.disk.payload
  {
    hide TreeReceipt, Hashed, StepOf, DiskOk, ProcOk;
    StepSound(w.disk, pid, w.procs[pid]);
    OthersOnly(w.disk, StepOf(w.disk, pid, w.procs[pid]).0);
  }

  lemma OthersOnly(d: Disk, d': Disk)
    requires DiskOk(d')
    ensures d'.state.Some? ==> d'.state.value.others == 0
  {}

  lemma NobodyFills(w: World, pid: nat, tree: Tree, m: Marker)
    requires Inv(w) && Settled(w.disk, m)
    ensures Do(w, Fill(pid, tree)) == w
  {
    hide TreeReceipt, Hashed, DiskOk;
    if pid in w.procs { assert ProcOk(w.disk, pid, w.procs[pid]); }
  }

  lemma SettledStays(w: World, a: Action, m: Marker)
    requires Inv(w) && Settled(w.disk, m)
    ensures Settled(Do(w, a).disk, m) && Do(w, a).disk.payload == w.disk.payload
  {
    hide Inv, StepOf;
    match a
    case Begin(_, _) =>
    case Advance(pid) => if pid in w.procs { SettledStep(w, pid, m); }
    case Fill(pid, tree) => NobodyFills(w, pid, tree, m);
    case Stop(_) =>
    case PowerLoss(_, _) =>
  }

  // A settled target answers the same for ever, whatever calls, failures and power losses follow.
  lemma {:induction false} SettledForever(w: World, run: seq<Action>, m: Marker)
    requires Inv(w) && Settled(w.disk, m)
    ensures Settled(Exec(w, run).disk, m) && Exec(w, run).disk.payload == w.disk.payload
    decreases |run|
  {
    hide Inv, Do, Settled;
    if run != [] {
      DoInv(w, run[0]);
      SettledStays(w, run[0], m);
      SettledForever(Do(w, run[0]), run[1..], m);
    }
  }

  // When Complete returns, its result survives every continuation exactly if the content of the
  // receipt it read had been synced, which is so from the sync of that file on: the name is
  // put on the disk by Complete itself.
  lemma CompletionIsDurable(w: World, pid: nat, m: Marker)
    requires Inv(w) && pid in w.procs && StepOf(w.disk, pid, w.procs[pid]).1 == Done(CompletedOk(m))
    ensures var w' := Do(w, Advance(pid));
            (forall run :: Exec(w', run).disk.state == w'.disk.state) <==> w'.disk.receivedSync.data
  {
    hide Inv, StepOf, TreeReceipt, Hashed, Exec, StateSynced;
    var w' := Do(w, Advance(pid));
    ReturnsAreTrue(w, pid);
    AdvanceInv(w, pid);
    if w'.disk.receivedSync.data {
      forall run ensures Exec(w', run).disk.state == w'.disk.state { SettledForever(w', run, m); }
    } else {
      var left := Some(w'.disk.state.value.(received := Torn));
      LossOf(w', left);
    }
  }

  lemma LossOf(w: World, left: Option<StateDir>)
    requires MayRemain(w.disk, left, w.disk.payload)
    ensures Exec(w, [PowerLoss(left, w.disk.payload)]).disk.state == left
  {
    var a := PowerLoss(left, w.disk.payload);
    assert [a][1..] == [];
    assert Exec(Do(w, a), []) == Do(w, a);
  }

  // Every Receive that ever returned left its receipt behind.
  ghost predicate ReturnedReceipts(w: World) {
    forall pid :: pid in w.outcomes && w.outcomes[pid].ReceivedOk? ==>
      pid in w.calls && Returned(w.disk, w.calls[pid], w.outcomes[pid].receipt)
  }

  lemma ReturnedStays(w: World, a: Action, call: Call, r: Receipt)
    requires Inv(w) && Returned(w.disk, call, r)
    ensures Returned(Do(w, a).disk, call, r)
  {
    hide Inv, StepOf, Hashed, StateSynced;
    if !a.PowerLoss? { FilesForward(w, a); }
  }

  lemma ReceiptsStep(w: World, a: Action)
    requires Inv(w) && ReturnedReceipts(w)
    ensures ReturnedReceipts(Do(w, a))
  {
    hide DiskOk, ProcOk, StepOf, Returned, Hashed;
    var w' := Do(w, a);
    if a.Advance? && a.pid in w.procs { ReturnsAreTrue(w, a.pid); }
    forall pid | pid in w'.outcomes && w'.outcomes[pid].ReceivedOk?
      ensures pid in w'.calls && Returned(w'.disk, w'.calls[pid], w'.outcomes[pid].receipt)
    {
      if pid in w.outcomes && w.outcomes[pid] == w'.outcomes[pid] {
        ReturnedStays(w, a, w.calls[pid], w.outcomes[pid].receipt);
      }
    }
  }

  lemma {:induction false} ReceiptsInRuns(w: World, run: seq<Action>)
    requires Inv(w) && ReturnedReceipts(w)
    ensures ReturnedReceipts(Exec(w, run))
    decreases |run|
  {
    hide Inv, Do, ReturnedReceipts;
    if run != [] {
      DoInv(w, run[0]);
      ReceiptsStep(w, run[0]);
      ReceiptsInRuns(Do(w, run[0]), run[1..]);
    }
  }

  // The order a copy follows: once a Receive has returned and then a Complete returns, the
  // target is complete with that very receipt, and holds the tree of that very Receive, in
  // every continuation of the run.
  lemma CopiedForever(root: Meta, run: seq<Action>, receiver: nat, pid: nat, m: Marker, more: seq<Action>)
    requires var w := Exec(Fresh(root), run);
             && receiver in w.outcomes && w.outcomes[receiver].ReceivedOk?
             && pid in w.procs && StepOf(w.disk, pid, w.procs[pid]).1 == Done(CompletedOk(m))
    ensures var w := Exec(Fresh(root), run);
            var end := Exec(Do(w, Advance(pid)), more);
            && m.receipt == w.outcomes[receiver].receipt
            && end.disk.state == Some(PvcLocal.CompletedState(m.plan, m.receipt))
            && receiver in w.calls && w.calls[receiver].Receive? && w.calls[receiver].plan == m.plan
            && end.disk.payload == w.calls[receiver].tree
  {
    hide Hashed, TreeReceipt, Inv, StepOf;
    var w := Exec(Fresh(root), run);
    FreshInv(root);
    ExecInv(Fresh(root), run);
    ReceiptsInRuns(Fresh(root), run);
    AdvanceInv(w, pid);
    ReturnsAreTrue(w, pid);
    ReturnedStays(w, Advance(pid), w.calls[receiver], w.outcomes[receiver].receipt);
    SameTree(m.plan, Do(w, Advance(pid)).disk.payload, w.calls[receiver].tree);
    SettledForever(Do(w, Advance(pid)), more, m);
  }

  lemma SameTree(p: CopyPlan, a: Tree, b: Tree)
    requires p.Valid() && Hashed(p, a).Some? && Hashed(p, a) == Hashed(p, b)
    ensures a == b
  {
    ReceiptIdentifiesTree(p.limits, a, p.limits, b);
  }

  // ---- Runs there are -----------------------------------------------------------------------------------

  function Advances(pid: nat, n: nat): seq<Action> {
    seq(n, _ => Advance(pid))
  }

  lemma {:induction false} ExecAppend(w: World, a: seq<Action>, b: seq<Action>)
    ensures Exec(w, a + b) == Exec(Exec(w, a), b)
    decreases |a|
  {
    hide Do;
    if a == [] {
      assert a + b == b;
    } else {
      assert (a + b)[1..] == a[1..] + b;
      ExecAppend(Do(w, a[0]), a[1..], b);
    }
  }

  lemma ExecOne(w: World, a: Action)
    ensures Exec(w, [a]) == Do(w, a)
  {
    hide Do;
    assert [a][1..] == [] && Exec(Do(w, a), []) == Do(w, a);
  }

  // w with one process at the given place.
  function Alone(w: World, pid: nat, proc: Proc, d: Disk): World {
    w.(disk := d, procs := map[pid := proc])
  }

  // The i-th system call leads to the next disk and the next place.
  ghost predicate Goes(pid: nat, disks: nat -> Disk, places: nat -> Proc, i: nat) {
    var (d, c) := StepOf(disks(i), pid, places(i));
    !c.Done? && d == disks(i + 1) && After(places(i), c) == places(i + 1)
  }

  // One process alone, from step m to step n, over the disks and places given.
  lemma {:induction false} LoneRun(w: World, pid: nat, disks: nat -> Disk, places: nat -> Proc, m: nat, n: nat)
    requires m <= n
    requires forall i: nat :: m <= i < n ==> Goes(pid, disks, places, i)
    ensures Exec(Alone(w, pid, places(m), disks(m)), Advances(pid, n - m)) == Alone(w, pid, places(n), disks(n))
    decreases n
  {
    hide StepOf, After;
    if m < n {
      LoneRun(w, pid, disks, places, m, n - 1);
      assert Goes(pid, disks, places, n - 1);
      var before := Alone(w, pid, places(n - 1), disks(n - 1));
      assert Advances(pid, n - m) == Advances(pid, n - 1 - m) + [Advance(pid)];
      ExecAppend(Alone(w, pid, places(m), disks(m)), Advances(pid, n - 1 - m), [Advance(pid)]);
      ExecOne(before, Advance(pid));
      assert Do(before, Advance(pid)) == Alone(w, pid, places(n), disks(n));
    }
  }

  // The last system call of a process that is alone.
  lemma LoneEnd(w: World, pid: nat, proc: Proc, d: Disk)
    requires StepOf(d, pid, proc).1.Done?
    ensures var (d', c) := StepOf(d, pid, proc);
            Exec(Alone(w, pid, proc, d), [Advance(pid)])
            == w.(disk := d', procs := map[], outcomes := w.outcomes[pid := c.outcome])
  {
    hide StepOf;
    ExecOne(Alone(w, pid, proc, d), Advance(pid));
    assert map[pid := proc] - {pid} == map[];
  }

  // ---- A Receive alone ------------------------------------------------------------------------------------

  // The target before the n-th system call, whatever its payload.
  ghost function ReceiveDisk(p: CopyPlan, t: Tree, payload: Tree, clean: bool, n: nat): Disk {
    Disk(if n < 2 then None
         else Some(StateDir(if n < 3 then Absent else if n < 4 then Torn else Claim(p),
                            if n < 10 then Absent else if n < 11 then Torn else Written(TreeReceipt(t)), Absent, 0)),
         payload, n >= 7, Sync(n >= 5, n >= 6), Sync(n >= 12, n >= 13), UNSYNCED, clean,
         if n < 2 then None else Some(0))
  }

  function ReceiveAt(p: CopyPlan, t: Tree, n: nat): Proc {
    Proc(Receive(p, t),
         match n
         case 0 => Looking case 1 => Claiming case 2 => CreatingClaim case 3 => WritingClaim case 4 => SyncingClaim
         case 5 => ListingClaim case 6 => SyncingRoot case 7 => Filling case 8 => Verifying
         case 9 => CreatingReceived case 10 => WritingReceived case 11 => SyncingReceived case _ => ListingReceived,
         NO_MARKER)
  }

  lemma ReceiveStep(p: CopyPlan, t: Tree, payload: Tree, clean: bool, n: nat)
    requires n < 12 && p.Valid() && Supported(p.limits, t)
    requires n < 7 ==> payload.nodes == map[]
    requires n >= 7 ==> payload == t
    ensures var (d, c) := StepOf(ReceiveDisk(p, t, payload, clean, n), 0, ReceiveAt(p, t, n));
            && !c.Done? && d == ReceiveDisk(p, t, payload, clean, n + 1)
            && After(ReceiveAt(p, t, n), c) == ReceiveAt(p, t, n + 1)
  {
    hide TreeReceipt, Supported, Archive.Plan.Valid;
  }

  lemma ReceiveEnd(p: CopyPlan, t: Tree)
    ensures StepOf(ReceiveDisk(p, t, t, false, 12), 0, ReceiveAt(p, t, 12))
         == (ReceiveDisk(p, t, t, false, 13), Done(ReceivedOk(TreeReceipt(t))))
  {
    hide TreeReceipt;
  }

  // A world whose only call so far is that Receive.
  ghost function Receiving(p: CopyPlan, t: Tree, d: Disk, writers: set<nat>): World {
    World(d, map[], map[0 := Receive(p, t)], writers, map[])
  }

  // The first n system calls of a Receive, with its payload written between the seventh and the eighth.
  ghost function ReceiveRun(p: CopyPlan, t: Tree, n: nat): seq<Action>
    requires n >= 7
  {
    [Begin(0, Receive(p, t))] + Advances(0, 7) + [Fill(0, t)] + Advances(0, n - 7)
  }

  lemma ReceiveRuns(root: Meta, p: CopyPlan, t: Tree, n: nat)
    requires 7 <= n <= 12 && p.Valid() && Supported(p.limits, t)
    ensures Exec(Fresh(root), ReceiveRun(p, t, n))
         == Alone(Receiving(p, t, Fresh(root).disk, {0}), 0, ReceiveAt(p, t, n), ReceiveDisk(p, t, t, false, n))
  {
    hide Exec, Supported, TreeReceipt, StepOf, Archive.Plan.Valid;
    var empty := Tree(root, map[]);
    var w := Fresh(root);
    var before, after := Receiving(p, t, w.disk, {}), Receiving(p, t, w.disk, {0});
    var early, late := (i: nat) => ReceiveDisk(p, t, empty, true, i), (i: nat) => ReceiveDisk(p, t, t, false, i);
    var places := (i: nat) => ReceiveAt(p, t, i);
    var a, b, c, d := [Begin(0, Receive(p, t))], Advances(0, 7), [Fill(0, t)], Advances(0, n - 7);
    ExecAppend(w, a + b + c, d);
    ExecAppend(w, a + b, c);
    ExecAppend(w, a, b);
    ExecOne(w, a[0]);
    assert Do(w, a[0]) == Alone(before, 0, places(0), early(0));
    forall i: nat | i < 7 ensures Goes(0, early, places, i) {
      ReceiveStep(p, t, empty, true, i);
    }
    LoneRun(before, 0, early, places, 0, 7);
    var filling := Alone(before, 0, places(7), early(7));
    ExecOne(filling, c[0]);
    assert Do(filling, c[0]) == Alone(after, 0, places(7), late(7));
    forall i: nat | 7 <= i < n ensures Goes(0, late, places, i) {
      ReceiveStep(p, t, t, false, i);
    }
    LoneRun(after, 0, late, places, 7, n);
  }

  // ---- A Complete alone ------------------------------------------------------------------------------------

  // A target that was received, as far as anyone can see.
  ghost predicate Received(d: Disk, p: CopyPlan, t: Tree) {
    && d.payload == t && d.dirSynced && d.claimSync.Durable()
    && d.state == Some(PvcLocal.ReceivedState(p, TreeReceipt(t)))
  }

  ghost function CompleteDisk(base: Disk, p: CopyPlan, t: Tree, n: nat): Disk
    requires base.state.Some?
  {
    base.(state := Some(base.state.value.(complete := if n < 5 then Absent else if n < 6 then Torn
                                                      else Written(Marker(p, TreeReceipt(t))))),
          receivedSync := base.receivedSync.(entry := n >= 4 || base.receivedSync.entry),
          completeSync := Sync(n >= 7, n >= 8),
          payloadSynced := n >= 4 || base.payloadSynced)
  }

  ghost function CompleteAt(p: CopyPlan, t: Tree, n: nat): Proc {
    Proc(Complete(p, TreeReceipt(t)),
         match n
         case 0 => ReadingClaim case 1 => ReadingReceived case 2 => Rehashing case 3 => SyncingTree
         case 4 => CreatingComplete case 5 => WritingComplete case 6 => SyncingComplete case 7 => ListingComplete
         case _ => SyncingRootAgain,
         NO_MARKER)
  }

  lemma CompleteStep(base: Disk, p: CopyPlan, t: Tree, n: nat)
    requires n < 8 && p.Valid() && Supported(p.limits, t) && Received(base, p, t)
    ensures var (d, c) := StepOf(CompleteDisk(base, p, t, n), 1, CompleteAt(p, t, n));
            !c.Done? && d == CompleteDisk(base, p, t, n + 1) && After(CompleteAt(p, t, n), c) == CompleteAt(p, t, n + 1)
  {
    hide TreeReceipt, Supported, Archive.Plan.Valid;
  }

  lemma CompleteEnd(base: Disk, p: CopyPlan, t: Tree)
    requires Received(base, p, t)
    ensures StepOf(CompleteDisk(base, p, t, 8), 1, CompleteAt(p, t, 8))
         == (CompleteDisk(base, p, t, 8), Done(CompletedOk(Marker(p, TreeReceipt(t)))))
  {
    hide TreeReceipt;
  }

  // After any run that leaves such a target and no process, a Complete gets to its last call.
  lemma CompleteRuns(w: World, p: CopyPlan, t: Tree)
    requires p.Valid() && Supported(p.limits, t) && Received(w.disk, p, t) && w.procs == map[] && 1 !in w.calls
    requires w.disk.completeSync == UNSYNCED
    ensures Exec(w, [Begin(1, Complete(p, TreeReceipt(t)))] + Advances(1, 8))
         == Alone(w.(calls := w.calls[1 := Complete(p, TreeReceipt(t))]), 1, CompleteAt(p, t, 8),
                  CompleteDisk(w.disk, p, t, 8))
  {
    hide Exec, Supported, TreeReceipt, StepOf, Archive.Plan.Valid;
    var begin := Begin(1, Complete(p, TreeReceipt(t)));
    var started := w.(calls := w.calls[1 := Complete(p, TreeReceipt(t))]);
    var disks, places := (i: nat) => CompleteDisk(w.disk, p, t, i), (i: nat) => CompleteAt(p, t, i);
    ExecAppend(w, [begin], Advances(1, 8));
    ExecOne(w, begin);
    assert disks(0) == w.disk;
    assert Do(w, begin) == Alone(started, 1, places(0), disks(0));
    forall i: nat | i < 8 ensures Goes(1, disks, places, i) {
      CompleteStep(w.disk, p, t, i);
    }
    LoneRun(started, 1, disks, places, 0, 8);
  }

  // ---- An Inspect alone ------------------------------------------------------------------------------------

  function InspectAt(p: CopyPlan, m: Marker, n: nat): Proc {
    Proc(Inspect(p),
         match n
         case 0 => Listing case 1 => CheckingClaim case 2 => CheckingComplete case 3 => CheckingReceived
         case _ => HashingAgain,
         if n < 3 then NO_MARKER else m)
  }

  lemma InspectStep(d: Disk, p: CopyPlan, m: Marker, n: nat)
    requires n < 4 && p.Valid() && m.plan == p && d.state == Some(PvcLocal.CompletedState(p, m.receipt))
    ensures StepOf(d, 2, InspectAt(p, m, n)).0 == d
    ensures var c := StepOf(d, 2, InspectAt(p, m, n)).1;
            !c.Done? && After(InspectAt(p, m, n), c) == InspectAt(p, m, n + 1)
  {
    hide Archive.Plan.Valid;
  }

  lemma InspectRuns(w: World, p: CopyPlan, m: Marker)
    requires p.Valid() && m.plan == p && w.disk.state == Some(PvcLocal.CompletedState(p, m.receipt))
    requires Hashed(p, w.disk.payload) == Some(m.receipt) && w.procs == map[] && 2 !in w.calls
    ensures Exec(w, [Begin(2, Inspect(p))] + Advances(2, 4) + [Advance(2)])
         == w.(calls := w.calls[2 := Inspect(p)], outcomes := w.outcomes[2 := SeenComplete(m)])
  {
    hide Exec, Hashed, StepOf, Archive.Plan.Valid;
    var started := w.(calls := w.calls[2 := Inspect(p)]);
    var disks, places := (i: nat) => w.disk, (i: nat) => InspectAt(p, m, i);
    ExecAppend(w, [Begin(2, Inspect(p))] + Advances(2, 4), [Advance(2)]);
    ExecAppend(w, [Begin(2, Inspect(p))], Advances(2, 4));
    ExecOne(w, Begin(2, Inspect(p)));
    assert Do(w, Begin(2, Inspect(p))) == Alone(started, 2, places(0), disks(0));
    forall i: nat | i < 4 ensures Goes(2, disks, places, i) {
      InspectStep(w.disk, p, m, i);
    }
    LoneRun(started, 2, disks, places, 0, 4);
    InspectEnd(w.disk, p, m);
    LoneEnd(started, 2, places(4), w.disk);
  }

  lemma InspectEnd(d: Disk, p: CopyPlan, m: Marker)
    requires Hashed(p, d.payload) == Some(m.receipt)
    ensures StepOf(d, 2, InspectAt(p, m, 4)) == (d, Done(SeenComplete(m)))
  {
    hide Hashed;
  }

  // ---- The whole copy, and the copy that was cut short --------------------------------------------------------

  ghost function CopyRun(p: CopyPlan, t: Tree): seq<Action> {
    ReceiveRun(p, t, 12) + [Advance(0)]
    + ([Begin(1, Complete(p, TreeReceipt(t)))] + Advances(1, 8)) + [Advance(1)]
    + ([Begin(2, Inspect(p))] + Advances(2, 4) + [Advance(2)])
  }

  // Nothing in the protocol stands in the way of a copy: for every valid plan and every tree it
  // can carry there is a run in which the tree is received, completed and found complete.
  lemma CopySucceeds(root: Meta, p: CopyPlan, t: Tree)
    requires p.Valid() && Supported(p.limits, t)
    ensures var w := Exec(Fresh(root), CopyRun(p, t));
            var m := Marker(p, TreeReceipt(t));
            && w.outcomes == map[0 := ReceivedOk(TreeReceipt(t)), 1 := CompletedOk(m), 2 := SeenComplete(m)]
            && Settled(w.disk, m) && w.disk.payload == t
  {
    hide Exec, Supported, TreeReceipt, StepOf, Archive.Plan.Valid;
    var w := Fresh(root);
    var m := Marker(p, TreeReceipt(t));
    var a, b := ReceiveRun(p, t, 12), [Advance(0)];
    var c, d := [Begin(1, Complete(p, TreeReceipt(t)))] + Advances(1, 8), [Advance(1)];
    var e := [Begin(2, Inspect(p))] + Advances(2, 4) + [Advance(2)];
    ExecAppend(w, a + b + c + d, e);
    ExecAppend(w, a + b + c, d);
    ExecAppend(w, a + b, c);
    ExecAppend(w, a, b);
    ReceiveRuns(root, p, t, 12);
    ReceiveEnd(p, t);
    LoneEnd(Receiving(p, t, w.disk, {0}), 0, ReceiveAt(p, t, 12), ReceiveDisk(p, t, t, false, 12));
    var received := Exec(w, a + b);
    CompleteRuns(received, p, t);
    CompleteEnd(received.disk, p, t);
    LoneEnd(received.(calls := received.calls[1 := Complete(p, TreeReceipt(t))]), 1, CompleteAt(p, t, 8),
            CompleteDisk(received.disk, p, t, 8));
    InspectRuns(Exec(w, a + b + c + d), p, m);
  }

  // The condition of CompletionIsDurable is not idle: a Receive killed between writing and syncing
  // its receipt, then a Complete that succeeds on what it can see.
  ghost function KilledReceive(p: CopyPlan, t: Tree): seq<Action> {
    ReceiveRun(p, t, 11) + [Stop(0)] + ([Begin(1, Complete(p, TreeReceipt(t)))] + Advances(1, 8))
  }

  // For every valid plan and every tree it can carry there is such a run.
  lemma UnsyncedCompletion(root: Meta, p: CopyPlan, t: Tree)
    requires p.Valid() && Supported(p.limits, t)
    ensures var w := Exec(Fresh(root), KilledReceive(p, t));
            && 1 in w.procs && StepOf(w.disk, 1, w.procs[1]).1 == Done(CompletedOk(Marker(p, TreeReceipt(t))))
            && !Do(w, Advance(1)).disk.receivedSync.data
  {
    hide Exec, Supported, TreeReceipt, StepOf, Archive.Plan.Valid;
    var w := Fresh(root);
    var a, b, c := ReceiveRun(p, t, 11), [Stop(0)], [Begin(1, Complete(p, TreeReceipt(t)))] + Advances(1, 8);
    ExecAppend(w, a + b, c);
    ExecAppend(w, a, b);
    ReceiveRuns(root, p, t, 11);
    var killed := Exec(w, a);
    ExecOne(killed, Stop(0));
    var left := Do(killed, Stop(0));
    assert left.procs == map[];
    CompleteRuns(left, p, t);
    CompleteEnd(left.disk, p, t);
  }
}
