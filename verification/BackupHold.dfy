/**
  * internal/mysqlcopy/kube.go: `backupHold`, the challenge-response session that
  * proves a backup lock is still held by one and the same connection.
  */
module BackupHold {
  import opened Options
  import opened Text
  import opened Decimals

  const UNLOCK := "envplane_unlock"

  function Challenge(n: nat): string {
    "envplane_lock_" + Decimal(n)
  }

  lemma ChallengesDiffer(m: nat, n: nat)
    ensures Challenge(m) == Challenge(n) ==> m == n
    ensures Challenge(m) != UNLOCK
  {
    assert Challenge(m)[9] == 'l' && UNLOCK[9] == 'u';
    if Challenge(m) == Challenge(n) {
      assert Challenge(m)[14..] == Decimal(m) && Challenge(n)[14..] == Decimal(n);
      DecimalInjective(m, n);
    }
  }

  // strings.Split at tabs.
  function Fields(s: string): (fs: seq<string>)
    ensures fs != []
  {
    var i := Index(s, "\t");
    if i < 0 then [s] else [s[..i]] + Fields(s[i + 1..])
  }

  predicate Tabless(f: string) {
    '\t' !in f
  }

  function TabJoined(fs: seq<string>): string {
    if fs == [] then "" else if |fs| == 1 then fs[0] else fs[0] + "\t" + TabJoined(fs[1..])
  }

  // Splitting at tabs is the one way to write a text as tabless fields with tabs between them.
  lemma {:induction false} FieldsIff(s: string, fs: seq<string>)
    ensures Fields(s) == fs <==> fs != [] && (forall f :: f in fs ==> Tabless(f)) && s == TabJoined(fs)
    decreases |s|, |fs|
  {
    SplitJoins(s);
    if fs != [] && (forall f :: f in fs ==> Tabless(f)) && s == TabJoined(fs) { JoinSplits(fs); }
  }

  lemma {:induction false} SplitJoins(s: string)
    ensures Fields(s) != [] && (forall f :: f in Fields(s) ==> Tabless(f)) && s == TabJoined(Fields(s))
    decreases |s|
  {
    var i := Index(s, "\t");
    if i < 0 {
      forall k | 0 <= k < |s| ensures s[k] != '\t' { assert !OccursAt(s, "\t", k) && s[k..k + 1] == [s[k]]; }
    } else {
      var rest := Fields(s[i + 1..]);
      SplitJoins(s[i + 1..]);
      forall k | 0 <= k < i ensures s[k] != '\t' { assert !OccursAt(s, "\t", k) && s[k..k + 1] == [s[k]]; }
      assert s[i..i + 1] == "\t" && s == s[..i] + "\t" + s[i + 1..];
      assert Fields(s) == [s[..i]] + rest && Fields(s)[1..] == rest;
      assert Tabless(s[..i]);
    }
  }

  lemma NoTabAt(s: string, k: nat)
    requires k < |s| && s[k] != '\t'
    ensures !OccursAt(s, "\t", k)
  {
    assert s[k..k + 1] == [s[k]] && "\t"[0] == '\t';
  }

  lemma {:induction false} JoinSplits(fs: seq<string>)
    requires fs != [] && forall f :: f in fs ==> Tabless(f)
    ensures Fields(TabJoined(fs)) == fs
    decreases |fs|
  {
    var s, f := TabJoined(fs), fs[0];
    assert f in fs;
    assert forall k :: 0 <= k < |f| ==> s[k] == f[k];
    forall k | 0 <= k < |f| ensures !OccursAt(s, "\t", k) { NoTabAt(s, k); }
    var i := Index(s, "\t");
    if |fs| == 1 {
      assert fs == [s];
    } else {
      assert s[|f|] == '\t' && s[|f|..|f| + 1] == "\t";
      assert OccursAt(s, "\t", |f|);
      assert i == |f|;
      assert s[..i] == f && s[i + 1..] == TabJoined(fs[1..]);
      JoinSplits(fs[1..]);
      assert fs == [f] + fs[1..];
    }
  }

  // ---- The session ----------------------------------------------------------------------------

  // One mysql client process: it answers its queries in the order they were written, each
  // answer starting with the text its query selected.  The connection id and server uuid
  // in an answer are whatever the server says.
  class Session {
    var asked: seq<string>     // the texts selected so far
    var answered: nat          // how many answers were read
    var locked: bool           // whether a lock statement was written and no unlock since

    ghost predicate Valid()
      reads this
    {
      answered <= |asked|
    }

    // A write that fails may or may not have reached the client.
    method Ask(text: string) returns (ok: bool)
      requires Valid()
      modifies this
      ensures Valid() && answered == old(answered) && locked == old(locked)
      ensures asked == old(asked) + [text] || (!ok && asked == old(asked))
    {
      ok := *;
      var reached: bool := *;
      if ok || reached { asked := asked + [text]; }
    }

    // LOCK INSTANCE FOR BACKUP
    method Lock() returns (ok: bool)
      modifies this`locked
      ensures ok ==> locked
    {
      ok := *;
      if ok { locked := true; }
    }

    // UNLOCK INSTANCE, and the question that its acknowledgement answers.
    method Unlock(text: string) returns (ok: bool)
      requires Valid()
      modifies this
      ensures Valid() && answered == old(answered)
      ensures asked == old(asked) + [text] || (!ok && asked == old(asked))
      ensures ok ==> !locked
    {
      locked := false;
      ok := Ask(text);
    }

    // The next line, or a read error.
    method ReadLine() returns (line: Option<string>)
      requires Valid()
      modifies this
      ensures Valid() && asked == old(asked) && locked == old(locked)
      ensures line.Some? ==>
        && old(answered) < |asked| && answered == old(answered) + 1
        && Fields(TrimSpace(line.value))[0] == asked[old(answered)]
      ensures line.None? ==> answered == old(answered)
    {
      var l: string := *;
      if answered < |asked| && Fields(TrimSpace(l))[0] == asked[answered] {
        answered := answered + 1;
        return Some(l);
      }
      return None;
    }
  }

  // ---- The hold -----------------------------------------------------------------------------------

  class Hold {
    const session: Session
    const uuid: string
    var sequence: nat
    var closed: bool
    var connectionId: nat
    ghost var accepted: seq<string>   // every line a successful call relied on

    // The texts asked are challenges with rising numbers, and the unlock only at the end.
    ghost predicate Asked()
      reads this, session
    {
      && (forall i :: 0 <= i < |session.asked| ==>
            || IsChallenge(session.asked[i], sequence)
            || (closed && i == |session.asked| - 1 && session.asked[i] == UNLOCK))
      && (forall i, j :: 0 <= i < j < |session.asked| ==> session.asked[i] != session.asked[j])
    }

    // Every accepted line came from one connection of one server.
    ghost predicate Pinned()
      reads this
    {
      && connectionId <= MAX_UINT64
      && (accepted != [] ==> connectionId != 0)
      && forall i :: 0 <= i < |accepted| ==> FromConnection(accepted[i], connectionId, uuid)
    }

    ghost predicate Valid()
      reads this, session
    {
      session.Valid() && Asked() && Pinned() && (!closed ==> session.locked)
    }

    constructor (session: Session, uuid: string)
      requires session.asked == [] && session.answered == 0 && session.locked
      ensures Valid() && this.session == session && this.uuid == uuid
      ensures connectionId == 0 && !closed && accepted == [] && sequence == 0
    {
      this.session, this.uuid := session, uuid;
      sequence, closed, connectionId, accepted := 0, false, 0, [];
    }

    // A check succeeds exactly on a line that answers its own challenge from the pinned
    // connection; then nothing is left unread.
    method Check() returns (ok: bool, ghost line: Option<string>)
      requires Valid()
      modifies this, session
      ensures Valid() && closed == old(closed)
      ensures ok <==> line.Some? && Answers(line.value, Challenge(sequence), uuid, old(connectionId))
      ensures ok ==> session.locked
      ensures old(closed) ==> line.None?
      ensures old(accepted) <= accepted && old(session.asked) <= session.asked
      ensures ok ==> accepted == old(accepted) + [line.value]
      ensures !ok ==> accepted == old(accepted) && connectionId == old(connectionId)
      ensures ok ==> Proven(old(session.asked), old(accepted), Challenge(sequence))
      ensures line.Some? ==> sequence == old(sequence) + 1
      ensures old(connectionId) != 0 ==> connectionId == old(connectionId)
      ensures old(session.answered) < |old(session.asked)| ==> !ok   // an answer left unread: never again
    {
      hide Fields, Challenge, TrimSpace;
      line := None;
      var alive: bool := *;
      if closed || !alive {
        return false, line;
      }
      sequence := sequence + 1;
      FreshChallenge();
      ghost var before := session.asked;
      ok := session.Ask(Challenge(sequence));
      if !ok { return; }
      var read := session.ReadLine();
      line := read;
      if read.None? {
        return false, line;
      }
      var f := Fields(TrimSpace(read.value));
      if |f| != 3 || f[0] != Challenge(sequence) || f[2] != uuid {
        return false, line;
      }
      var id := ParseUint(f[1]);
      if id.None? || id.value == 0 {
        return false, line;
      }
      if connectionId != 0 && connectionId != id.value {
        return false, line;
      }
      assert session.asked[|before|] == Challenge(sequence);
      connectionId := id.value;
      accepted := accepted + [read.value];
      return true, line;
    }

    // The next challenge has not been asked yet.
    lemma FreshChallenge()
      requires forall i :: 0 <= i < |session.asked| ==>
        IsChallenge(session.asked[i], sequence - 1) || session.asked[i] == UNLOCK
      requires sequence > 0
      ensures Challenge(sequence) !in session.asked
    {
      forall i | 0 <= i < |session.asked| ensures session.asked[i] != Challenge(sequence) {
        if IsChallenge(session.asked[i], sequence - 1) {
          var n: nat :| 0 < n <= sequence - 1 && session.asked[i] == Challenge(n);
          ChallengesDiffer(n, sequence);
        } else {
          ChallengesDiffer(sequence, sequence);
        }
      }
    }

    lemma NotUnlocked()
      requires Asked() && !closed
      ensures UNLOCK !in session.asked
    {
      forall i | 0 <= i < |session.asked| ensures session.asked[i] != UNLOCK {
        var n: nat :| 0 < n <= sequence && session.asked[i] == Challenge(n);
        ChallengesDiffer(n, n);
      }
    }

    // What a success says: one more accepted line, the answer to the last text asked.
    ghost predicate Proven(asked: seq<string>, lines: seq<string>, text: string)
      reads this, session
    {
      && session.asked == asked + [text] && session.answered == |session.asked|
      && |accepted| == |lines| + 1 && accepted[..|lines|] == lines
      && Fields(TrimSpace(accepted[|lines|]))[0] == text
    }

    // A release succeeds exactly on the acknowledgement of the pinned connection and a clean exit.
    method Release() returns (ok: bool, ghost line: Option<string>, ghost exited: bool)
      requires Valid()
      modifies this, session
      ensures Valid() && closed
      ensures ok <==> exited && line.Some? && Acknowledges(line.value, uuid, connectionId)
      ensures ok ==> !session.locked
      ensures old(closed) || old(connectionId) == 0 ==> line.None?
      ensures old(accepted) <= accepted && connectionId == old(connectionId) && old(session.asked) <= session.asked
      ensures ok ==> accepted == old(accepted) + [line.value]
      ensures ok ==> Proven(old(session.asked), old(accepted), UNLOCK) && connectionId != 0
      ensures old(session.answered) < |old(session.asked)| ==> !ok
    {
      line, exited := None, false;
      if closed {
        return false, line, exited;
      }
      NotUnlocked();
      closed := true;
      var alive: bool := *;
      if connectionId == 0 || !alive {
        return false, line, exited;
      }
      ghost var before := session.asked;
      ok := session.Unlock(UNLOCK);
      if !ok { return; }
      var read := session.ReadLine();
      line := read;
      if read.None? {
        return false, line, exited;
      }
      var f := Fields(TrimSpace(read.value));
      if |f| != 3 || f[0] != UNLOCK || f[1] != Decimal(connectionId) || f[2] != uuid {
        return false, line, exited;
      }
      assert session.asked[|before|] == UNLOCK;
      ValueOfDecimal(connectionId);
      accepted := accepted + [read.value];
      // quit, and a clean exit of the client.
      var quit: bool := *;
      exited := quit;
      return quit, line, exited;
    }
  }

  // The line of three fields that answers a challenge: from this server, with a connection
  // id that is not zero and is the pinned one, if there is one.
  predicate Answers(line: string, challenge: string, uuid: string, pinned: nat) {
    var f := Fields(TrimSpace(line));
    && |f| == 3 && f[0] == challenge && f[2] == uuid
    && ParseUint(f[1]).Some? && ParseUint(f[1]).value != 0
    && (pinned == 0 || ParseUint(f[1]).value == pinned)
  }

  predicate Acknowledges(line: string, uuid: string, pinned: nat) {
    Fields(TrimSpace(line)) == ["envplane_unlock", Decimal(pinned), uuid]
  }

  ghost predicate IsChallenge(text: string, upTo: int) {
    exists n: nat :: 0 < n <= upTo && text == Challenge(n)
  }

  // A line of three fields that names this server and this non-zero connection.
  predicate FromConnection(line: string, id: nat, uuid: string) {
    var f := Fields(TrimSpace(line));
    |f| == 3 && f[2] == uuid && id != 0 && ParseUint(f[1]) == Some(id)
  }

  datatype Call = Checking | Releasing

  function Successes(oks: seq<bool>): nat {
    if oks == [] then 0 else Successes(oks[..|oks| - 1]) + if oks[|oks| - 1] then 1 else 0
  }

  // Any sequence of calls: each success relied on a line of its own, every line relied on names
  // one server and one connection, and nothing succeeds after the first release.
  method Drive(hold: Hold, calls: seq<Call>) returns (oks: seq<bool>)
    requires hold.Valid() && !hold.closed
    modifies hold, hold.session
    ensures hold.Valid() && |oks| == |calls|
    ensures forall i, j :: 0 <= i < j < |calls| && calls[i] == Releasing ==> !oks[j]
    ensures forall k :: 0 <= k < |hold.accepted| ==> FromConnection(hold.accepted[k], hold.connectionId, hold.uuid)
    ensures old(hold.accepted) <= hold.accepted
    ensures |hold.accepted| >= |old(hold.accepted)| + Successes(oks)
  {
    oks := [];
    for i := 0 to |calls|
      invariant hold.Valid() && |oks| == i && old(hold.accepted) <= hold.accepted
      invariant |hold.accepted| >= |old(hold.accepted)| + Successes(oks)
      invariant hold.closed <==> Releasing in calls[..i]
      invariant forall a, b :: 0 <= a < b < i && calls[a] == Releasing ==> !oks[b]
    {
      assert calls[..i + 1] == calls[..i] + [calls[i]];
      assert forall a :: 0 <= a < i ==> calls[a] in calls[..i];
      var ok;
      ghost var line;
      ghost var exited;
      if calls[i] == Checking {
        ok, line := hold.Check();
      } else {
        ok, line, exited := hold.Release();
      }
      assert (oks + [ok])[..i] == oks;
      oks := oks + [ok];
    }
  }

  // Taking the hold: the server's identity, asked for beforehand, the lock statement, and a
  // first successful check on that session.
  method HoldDDL(session: Session, identity: Option<string>)
    returns (hold: Hold?, ghost written: bool, ghost line: Option<string>)
    requires session.asked == [] && session.answered == 0
    modifies session
    ensures hold != null ==> fresh(hold) && hold.Valid() && !hold.closed && hold.session == session
    ensures hold != null ==> identity.Some? && hold.uuid == TrimSpace(identity.value) && session.locked
    ensures hold != null ==> hold.connectionId != 0 && |hold.accepted| == 1
    ensures hold != null ==> FromConnection(hold.accepted[0], hold.connectionId, hold.uuid)
    ensures hold != null <==>
      && identity.Some? && written
      && line.Some? && Answers(line.value, "envplane_lock_1", TrimSpace(identity.value), 0)
  {
    written, line := false, None;
    if identity.None? {
      return null, written, line;
    }
    var ok := session.Lock();
    written := ok;
    if !ok {
      return null, written, line;
    }
    var h := new Hold(session, TrimSpace(identity.value));
    ok, line := h.Check();
    assert Challenge(1) == "envplane_lock_1";
    hold := if ok then h else null;
  }
}
