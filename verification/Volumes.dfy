/**
  * A mounted volume as internal/pvccopy sees it through os.Root: the payload
  * tree, and the state directory with its marker files.
  */
module Volumes {
  import opened Options
  import opened Text
  import opened Archive
  import opened Receipts

  // Unsafe and Partial are the package's refusals; Io is any operating-system error.
  datatype Error = Unsafe | Partial | Io
  datatype Result<+T> = Ok(value: T) | Err(error: Error)

  // A copy plan: `identity` stands for everything its digest covers.
  datatype CopyPlan = CopyPlan(identity: string, limits: Plan) {
    predicate Valid() {
      limits.Valid()
    }
  }

  // markerFor: the plan's identity and a receipt.
  datatype Marker = Marker(plan: CopyPlan, receipt: Receipt)

  // A marker file: missing, present but not readable as JSON, or whole.
  datatype Slot<+T> = Absent | Torn | Written(value: T)

  // `others` counts unexpected names in the state directory.
  datatype StateDir = StateDir(claim: Slot<Marker>, received: Slot<Receipt>, complete: Slot<Marker>, others: nat)

  const NEW_STATE := StateDir(Absent, Absent, Absent, 0)

  class Volume {
    var root: Meta
    var nodes: map<string, Node>        // the payload, without the state directory
    var state: Option<StateDir>
    const faulty: bool                  // whether system calls may fail on their own
    const helper: Meta                  // what a freshly created entry gets

    ghost function Payload(): Tree
      reads this
    {
      Tree(root, nodes)
    }

    predicate Empty()
      reads this
    {
      nodes == map[] && state.None?
    }

    // A payload name never lies in the state directory, and always in a directory.
    ghost predicate Valid()
      reads this
    {
      && Rooted(Payload())
      && ROOT !in nodes
      && forall n :: n in nodes ==> n != STATE && !(STATE + "/" <= n)
    }

    // Any system call on a faulty volume may fail.
    method Attempt() returns (ok: bool)
      ensures !faulty ==> ok
    {
      ok := true;
      if faulty { ok := *; }
    }

    predicate Creatable(name: string)
      reads this
    {
      && ValidPath(name) && name !in nodes
      && (Parent(name) == ROOT || (Parent(name) in nodes && nodes[Parent(name)].Dir?))
    }

    // Mkdir fails on an existing name or a missing parent.
    method Mkdir(name: string) returns (ok: bool)
      requires Valid()
      modifies `nodes
      ensures Valid()
      ensures ok ==> old(Creatable(name)) && nodes == old(nodes)[name := Dir(helper)]
      ensures !ok ==> nodes == old(nodes)
      ensures !faulty ==> ok == old(Creatable(name))
    {
      ok := Attempt();
      ok := ok && Creatable(name);
      if ok { nodes := nodes[name := Dir(helper)]; }
    }

    // Exclusive creation, the copied payload, and Close with its chown, chmod and
    // sync.  A failure after the creation leaves some part of the file behind.
    method CreateFile(name: string, meta: Meta, data: string) returns (ok: bool)
      requires Valid()
      modifies `nodes
      ensures Valid()
      ensures ok ==> old(Creatable(name)) && nodes == old(nodes)[name := File(meta, data)]
      ensures !ok ==>
        || nodes == old(nodes)
        || (old(Creatable(name)) && exists part :: nodes == old(nodes)[name := File(helper, part)])
      ensures !faulty ==> ok == old(Creatable(name))
    {
      ok := Attempt();
      ok := ok && Creatable(name);
      if ok {
        nodes := nodes[name := File(helper, "")];
        ok := Attempt();
        if ok {
          nodes := nodes[name := File(meta, data)];
        } else {
          var n: nat :| n <= |data|;
          nodes := nodes[name := File(helper, data[..n])];
        }
      }
    }

    // Lstat, Chown and Chmod of a directory.
    method SetMeta(name: string, meta: Meta) returns (ok: bool)
      requires Valid()
      requires name == ROOT || (name in nodes && nodes[name].Dir?)
      modifies `nodes, `root
      ensures Valid()
      ensures ok && name == ROOT ==> root == meta && nodes == old(nodes)
      ensures ok && name != ROOT ==> root == old(root) && nodes == old(nodes)[name := Dir(meta)]
      ensures !ok ==> root == old(root) && nodes == old(nodes)
      ensures !faulty ==> ok
    {
      ok := Attempt();
      if ok {
        if name == ROOT { root := meta; } else { nodes := nodes[name := Dir(meta)]; }
      }
    }

    // ---- The state directory -------------------------------------------------------------------

    // Mkdir of the state directory: the exclusive claim.
    method MkdirState() returns (ok: bool)
      modifies `state
      ensures ok ==> old(state).None? && state == Some(NEW_STATE)
      ensures !ok ==> state == old(state)
      ensures !faulty ==> ok == old(state).None?
    {
      ok := Attempt();
      ok := ok && state.None?;
      if ok { state := Some(NEW_STATE); }
    }

    // Exclusive creation of a marker file, its content and its sync.  A failure after the
    // creation leaves a torn file, or a whole one whose sync is not known to have happened.
    method WriteClaim(m: Marker) returns (ok: bool)
      requires state.Some?
      modifies `state
      ensures state.Some? && state == Some(old(state).value.(claim := state.value.claim))
      ensures ok ==> old(state).value.claim.Absent? && state.value.claim == Written(m)
      ensures !ok ==> state.value.claim == old(state).value.claim || state.value.claim in {Torn, Written(m)}
      ensures !old(state).value.claim.Absent? ==> !ok && state == old(state)
      ensures !faulty ==> ok == old(state).value.claim.Absent?
    {
      var slot;
      ok, slot := WriteSlot(state.value.claim, m);
      state := Some(state.value.(claim := slot));
    }

    method WriteReceived(r: Receipt) returns (ok: bool)
      requires state.Some?
      modifies `state
      ensures state.Some? && state == Some(old(state).value.(received := state.value.received))
      ensures ok ==> old(state).value.received.Absent? && state.value.received == Written(r)
      ensures !ok ==> state.value.received == old(state).value.received || state.value.received in {Torn, Written(r)}
      ensures !old(state).value.received.Absent? ==> !ok && state == old(state)
      ensures !faulty ==> ok == old(state).value.received.Absent?
    {
      var slot;
      ok, slot := WriteSlot(state.value.received, r);
      state := Some(state.value.(received := slot));
    }

    method WriteComplete(m: Marker) returns (ok: bool)
      requires state.Some?
      modifies `state
      ensures state.Some? && state == Some(old(state).value.(complete := state.value.complete))
      ensures ok ==> old(state).value.complete.Absent? && state.value.complete == Written(m)
      ensures !ok ==> state.value.complete == old(state).value.complete || state.value.complete in {Torn, Written(m)}
      ensures !old(state).value.complete.Absent? ==> !ok && state == old(state)
      ensures !faulty ==> ok == old(state).value.complete.Absent?
    {
      var slot;
      ok, slot := WriteSlot(state.value.complete, m);
      state := Some(state.value.(complete := slot));
    }

    method WriteSlot<T(==)>(slot: Slot<T>, value: T) returns (ok: bool, slot': Slot<T>)
      ensures ok ==> slot.Absent? && slot' == Written(value)
      ensures !ok ==> slot' == slot || (slot.Absent? && slot' in {Torn, Written(value)})
      ensures !faulty ==> ok == slot.Absent?
    {
      ok := Attempt();
      ok := ok && slot.Absent?;
      if !ok {
        return ok, slot;
      }
      ok := Attempt();
      if ok {
        return ok, Written(value);
      }
      var encoded := Attempt();
      return ok, if encoded then Written(value) else Torn;
    }
  }
}
