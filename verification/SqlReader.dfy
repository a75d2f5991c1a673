/**
  * internal/mysqlcopy/reader.go: `validatedSQLReader` runs its own copy of the
  * lexer in front of the tracker and hands out whole accepted statements only.
  */
module SqlReader {
  import opened Options
  import opened SqlLexer
  import opened SqlTracker
  import opened SqlProof

  // NoError and EndOfInput are Go's nil and io.EOF; the others stop the consumer.
  datatype ReadError = NoError | EndOfInput | Unsafe | InputError

  // ---- What the reader's own checks guarantee to the tracker -----------------------

  // Bytes without a statement boundary only accumulate in the pending buffer.
  lemma {:induction false} FeedOpen(p: Plan, head: string, cat: Catalog, x: string)
    requires Open(head + x) && |head| + |x| <= p.maxStatement
    ensures Feed(p, Core(head, Scan(CLEAN, head), cat), x) == Ok(Core(head + x, Scan(CLEAN, head + x), cat))
    decreases |x|
  {
    if x == "" {
      assert head + x == head;
    } else {
      var next := head + [x[0]];
      assert head + x == next + x[1..];
      ScanSnoc(CLEAN, head, x[0]);
      assert !Terminates(head + x, |head|);
      assert (head + x)[..|head|] == head;
      FeedOpen(p, next, cat, x[1..]);
    }
  }

  // A synchronised tracker is between two statements.
  ghost predicate Synchronised(st: State) {
    !st.failed && st.core.pending == "" && st.core.lex == CLEAN
  }

  // Given a whole statement within the reader's bounds, a synchronised tracker
  // can only refuse it for what it says: both of its size guards are unreachable.
  lemma GuardsUnreachable(p: Plan, st: State, s: string)
    requires Synchronised(st) && Delimited(s)
    requires |s| <= p.maxStatement && |s| <= p.maxBytes - st.bytes
    ensures Written(p, st, s).Refused? ==> Written(p, st, s).why == BadStatement
    ensures Written(p, st, s).Ok? ==> Synchronised(Written(p, st, s).value)
  {
    var n := |s| - 1;
    assert s == s[..n] + [s[n]];
    forall k: nat | k < n ensures !Terminates(s[..n], k) { TerminatesPrefix(s[..n], [s[n]], k); }
    FeedFromStart(p, st.core, s[..n]);
    FeedAppend(p, st.core, s[..n], [s[n]]);
    FeedOne(p, Core(s[..n], CLEAN, st.core.cat), s[n]);
  }

  lemma FeedOne(p: Plan, core: Core, c: char)
    ensures Feed(p, core, [c]) == FeedByte(p, core, c)
  {
    assert [c][1..] == "";
  }

  // The bytes left at the end of the stream are always taken.
  lemma RestAccepted(p: Plan, st: State, s: string)
    requires Synchronised(st) && Open(s)
    requires |s| <= p.maxStatement && |s| <= p.maxBytes - st.bytes
    ensures Written(p, st, s).Ok?
  {
    FeedFromStart(p, st.core, s);
  }

  lemma FeedFromStart(p: Plan, core: Core, s: string)
    requires core.pending == "" && core.lex == CLEAN && Open(s) && |s| <= p.maxStatement
    ensures Feed(p, core, s) == Ok(Core(s, Scan(CLEAN, s), core.cat))
  {
    assert "" + s == s && core == Core("", Scan(CLEAN, ""), core.cat);
    FeedOpen(p, "", core.cat, s);
  }

  lemma NothingWritten(p: Plan)
    ensures Written(p, FRESH, "") == Ok(FRESH)
  {
    assert Feed(p, START, "") == Ok(START);
    assert "" + "" == "";
  }

  // One byte more than the statement limit is refused by the tracker as well.
  lemma TooLongRefused(p: Plan, st: State, s: string, c: char)
    requires Synchronised(st) && Open(s) && |s| == p.maxStatement
    ensures Written(p, st, s + [c]).Refused?
  {
    FeedFromStart(p, st.core, s);
    FeedAppend(p, st.core, s, [c]);
    FeedOne(p, Core(s, Scan(CLEAN, s), st.core.cat), c);
  }

  // ---- Verdicts on a prefix carry over to the whole ------------------------------------

  // Once a piece of the input is refused after an accepted prefix, no proof exists.
  lemma RefusalIsFinal(p: Plan, input: string, i: nat, j: nat)
    requires i <= j <= |input|
    requires Written(p, FRESH, input[..i]).Ok?
    requires Written(p, Written(p, FRESH, input[..i]).value, input[i..j]).Refused?
    ensures ProofFor(p, input) == None
  {
    hide Feed;
    assert input[..j] == input[..i] + input[i..j];
    assert input == input[..j] + input[j..];
    WrittenAppend(p, FRESH, input[..i], input[i..j]);
    WrittenAppend(p, FRESH, input[..j], input[j..]);
  }

  lemma AcceptedPiece(p: Plan, input: string, i: nat, j: nat)
    requires i <= j <= |input|
    requires Written(p, FRESH, input[..i]).Ok?
    requires Written(p, Written(p, FRESH, input[..i]).value, input[i..j]).Ok?
    ensures Written(p, FRESH, input[..j]) == Written(p, Written(p, FRESH, input[..i]).value, input[i..j])
  {
    hide Written;
    assert input[..j] == input[..i] + input[i..j];
    WrittenAppend(p, FRESH, input[..i], input[i..j]);
  }

  // ---- The reader ---------------------------------------------------------------------------

  class ValidatedReader {
    const input: string       // every byte the dump command produces
    const endsCleanly: bool   // whether it then ends, or breaks off with an error
    var pos: nat              // bytes taken from the input
    const tracker: Tracker
    var ready: string         // accepted bytes, of which the first `offset` were handed out
    var offset: nat
    var done: bool
    ghost var delivered: string

    // Holds from construction until a Read returns an error other than the end.
    ghost predicate Valid()
      reads this, tracker
    {
      && pos <= |input| && offset <= |ready|
      && Written(tracker.plan, FRESH, input[..pos]) == Ok(tracker.View())
      && delivered + ready[offset..] == input[..pos]
      && (!done ==> Synchronised(tracker.View()))
      && (done ==> pos == |input| && endsCleanly && Finished(tracker.View()).Some?)
    }

    // In the middle of a Read: the tracker has taken input[..start], and the
    // bytes since then are within both of the reader's limits.
    ghost predicate Reading(start: nat, statement: string)
      reads this, tracker
    {
      && start <= pos <= |input| && statement == input[start..pos]
      && delivered == input[..start] && offset == |ready|
      && Written(tracker.plan, FRESH, input[..start]) == Ok(tracker.View())
      && Synchronised(tracker.View())
      && |statement| <= tracker.plan.maxStatement
      && |statement| <= tracker.plan.maxBytes - tracker.bytes
    }

    constructor (input: string, endsCleanly: bool, tracker: Tracker)
      requires tracker.View() == FRESH
      ensures Valid() && fresh(this)
      ensures this.input == input && this.endsCleanly == endsCleanly && this.tracker == tracker
      ensures delivered == "" && !done
    {
      this.input, this.endsCleanly, this.tracker := input, endsCleanly, tracker;
      pos, ready, offset, done, delivered := 0, "", 0, false, "";
      NothingWritten(tracker.plan);
      assert input[..0] == "";
    }

    // The consumer took everything, and everything was accepted.
    method Exhausted() returns (r: bool)
      requires Valid()
      ensures r ==> delivered == input && ProofFor(tracker.plan, input) == Finished(tracker.View())
      ensures r ==> ProofFor(tracker.plan, input).Some?
      ensures r <==> done && offset == |ready|
    {
      r := done && offset == |ready|;
      if r { assert input[..pos] == input && ready[offset..] == ""; }
    }

    // bytes.Reader.Read on the accepted bytes.
    method Take(n: nat) returns (out: string)
      requires Valid() && n > 0 && offset < |ready|
      modifies `offset, `delivered
      ensures Valid()
      ensures 0 < |out| <= n && delivered == old(delivered) + out
    {
      hide Written, Finished, Synchronised;
      var k := if |ready| - offset < n then |ready| - offset else n;
      out := ready[offset..offset + k];
      assert ready[offset..] == out + ready[offset + k..];
      offset := offset + k;
      delivered := delivered + out;
    }

    // Hand one whole statement, or the rest of the stream, to the tracker.
    method Submit(ghost start: nat, statement: string) returns (ok: bool)
      requires Reading(start, statement) && (Delimited(statement) || Open(statement))
      modifies tracker
      ensures ok ==> Written(tracker.plan, FRESH, input[..pos]) == Ok(tracker.View())
      ensures ok && Delimited(statement) ==> Synchronised(tracker.View())
      ensures !ok ==> ProofFor(tracker.plan, input) == None && tracker.failed
    {
      ghost var before := tracker.View();
      if Delimited(statement) {
        GuardsUnreachable(tracker.plan, before, statement);
      } else {
        RestAccepted(tracker.plan, before, statement);
      }
      ok := tracker.Write(statement);
      if ok {
        AcceptedPiece(tracker.plan, input, start, pos);
      } else {
        RefusalIsFinal(tracker.plan, input, start, pos);
      }
    }

    // Read up to n bytes.  Output only ever comes from bytes the tracker accepted;
    // an Unsafe result means that no way of reading this input could succeed.
    method Read(n: nat) returns (out: string, err: ReadError)
      requires Valid()
      modifies this, tracker
      ensures err.NoError? || err.EndOfInput? ==> Valid()
      ensures err.NoError? ==> |out| <= n && (n > 0 ==> out != "")
      ensures delivered == old(delivered) + out
      ensures !err.NoError? ==> out == ""
      ensures err.EndOfInput? ==> done && offset == |ready|
      ensures err.Unsafe? ==> ProofFor(tracker.plan, input) == None
      ensures err.InputError? ==> !endsCleanly
      ensures (err.Unsafe? || err.InputError?) && done ==> Finished(tracker.View()) == None
    {
      out := "";
      if n == 0 {
        return out, NoError;
      }
      if offset < |ready| {
        out := Take(n);
        return out, NoError;
      }
      if done {
        return out, EndOfInput;
      }
      assert ready[offset..] == "" && input[pos..pos] == "";
      out, err := Fill(n, pos);
    }

    lemma StartOpen()
      ensures Open("") && Scan(CLEAN, "") == CLEAN
    {}

    // The loop of Read: collect one statement, with the lexer run byte by byte.
    method Fill(n: nat, ghost start: nat) returns (out: string, err: ReadError)
      requires n > 0 && Reading(start, "") && !done
      modifies this, tracker
      ensures err.NoError? || err.EndOfInput? ==> Valid()
      ensures err.NoError? ==> 0 < |out| <= n
      ensures delivered == old(delivered) + out
      ensures !err.NoError? ==> out == ""
      ensures err.EndOfInput? ==> done && offset == |ready|
      ensures err.Unsafe? ==> ProofFor(tracker.plan, input) == None
      ensures err.InputError? ==> !endsCleanly
      ensures (err.Unsafe? || err.InputError?) && done ==> Finished(tracker.View()) == None
    {
      hide Scan, Open, Delimited, Written, Synchronised, Finished, ProofFor;
      StartOpen();
      out := "";
      var statement := "";
      var quote := NONE;
      var escape := false;
      while true
        invariant Reading(start, statement) && !done && delivered == old(delivered) && out == ""
        invariant Lex(quote, escape) == Scan(CLEAN, statement) && Open(statement)
        decreases |input| - pos
      {
        if pos == |input| {
          if !endsCleanly {
            return out, InputError;
          }
          out, err := AtEnd(n, start, statement);
          return;
        }
        var c := input[pos];
        if |statement| >= tracker.plan.maxStatement || |statement| >= tracker.plan.maxBytes - tracker.bytes {
          Overlong(start, statement, c);
          return out, Unsafe;
        }
        OpenSnoc(statement, c);
        ScanSnoc(CLEAN, statement, c);
        assert input[start..pos + 1] == input[start..pos] + [c];
        pos := pos + 1;
        statement := statement + [c];
        if escape {
          escape := false;
        } else if quote != NONE {
          if c == '\\' {
            escape := true;
          } else if c == quote {
            quote := NONE;
          }
        } else if IsQuote(c) {
          quote := c;
        } else if c == ';' {
          out, err := AtSemicolon(n, start, statement);
          return;
        }
      }
    }

    // A whole statement was read: it is handed out only if the tracker takes it.
    method AtSemicolon(n: nat, ghost start: nat, statement: string) returns (out: string, err: ReadError)
      requires n > 0 && Reading(start, statement) && !done && Delimited(statement)
      modifies this, tracker
      ensures err.NoError? ==> Valid() && 0 < |out| <= n
      ensures delivered == old(delivered) + out
      ensures err.Unsafe? ==> out == "" && ProofFor(tracker.plan, input) == None && !done
      ensures err.NoError? || err.Unsafe?
    {
      out := "";
      var ok := Submit(start, statement);
      if !ok {
        return out, Unsafe;
      }
      ready, offset := statement, 0;
      assert input[..pos] == input[..start] + statement;
      out := Take(n);
      return out, NoError;
    }

    // A byte beyond either of the reader's limits would be refused by the tracker too.
    lemma Overlong(start: nat, statement: string, c: char)
      requires Reading(start, statement) && Open(statement) && pos < |input| && c == input[pos]
      requires |statement| == tracker.plan.maxStatement || |statement| == tracker.plan.maxBytes - tracker.bytes
      ensures ProofFor(tracker.plan, input) == None
    {
      assert input[start..pos + 1] == statement + [c];
      if |statement| == tracker.plan.maxStatement {
        TooLongRefused(tracker.plan, tracker.View(), statement, c);
      }
      RefusalIsFinal(tracker.plan, input, start, pos + 1);
    }

    // The input ended: the rest of the stream goes to the tracker, which must finish.
    method AtEnd(n: nat, ghost start: nat, statement: string) returns (out: string, err: ReadError)
      requires n > 0 && Reading(start, statement) && Open(statement) && pos == |input| && endsCleanly
      modifies this, tracker
      ensures err.NoError? || err.EndOfInput? ==> Valid()
      ensures err.NoError? ==> 0 < |out| <= n
      ensures delivered == old(delivered) + out
      ensures !err.NoError? ==> out == ""
      ensures err.EndOfInput? ==> done && offset == |ready|
      ensures err.Unsafe? ==> ProofFor(tracker.plan, input) == None && Finished(tracker.View()) == None
      ensures !err.InputError?
    {
      out := "";
      done := true;
      if |statement| > 0 {
        var ok := Submit(start, statement);
        if !ok {
          return out, Unsafe;
        }
      }
      assert input[..pos] == input;
      assert statement == "" ==> input[..start] == input;
      var proof := tracker.Finish();
      if proof.None? {
        return out, Unsafe;
      }
      if statement == "" {
        return out, EndOfInput;
      }
      ready, offset := statement, 0;
      assert input == input[..start] + statement;
      out := Take(n);
      return out, NoError;
    }
  }

  // ---- Whole runs -------------------------------------------------------------------------------

  // The first k bytes are accepted, and they end at a statement boundary or at the end of the input.
  ghost predicate AcceptedUpTo(p: Plan, input: string, k: nat) {
    && k <= |input|
    && Written(p, FRESH, input[..k]).Ok?
    && (k == |input| || Remainder("", input[..k]) == "")
  }

  lemma ValidIsAccepted(r: ValidatedReader)
    requires r.Valid()
    ensures AcceptedUpTo(r.tracker.plan, r.input, r.pos) && |r.delivered| <= r.pos && r.delivered <= r.input
  {
    var p, seen := r.tracker.plan, r.input[..r.pos];
    assert r.delivered <= seen <= r.input;
    FeedIsRun(p, START, seen);
  }

  // Any sequence of reads of any sizes, up to the first error or the end.  What comes out
  // lies within accepted whole statements; the run reaches the end exactly when the
  // input ends cleanly and the tracker alone would accept all of it, and then nothing
  // is missing from the output.
  method ReadAll(r: ValidatedReader) returns (out: string, ok: bool, ghost k: nat)
    requires r.Valid() && r.delivered == ""
    modifies r, r.tracker
    ensures out <= r.input && |out| <= k && AcceptedUpTo(r.tracker.plan, r.input, k)
    ensures ok <==> r.endsCleanly && ProofFor(r.tracker.plan, r.input).Some?
    ensures ok ==> out == r.input && ProofFor(r.tracker.plan, r.input) == Finished(r.tracker.View())
  {
    out := "";
    ValidIsAccepted(r);
    k := r.pos;
    while true
      invariant r.Valid() && out == r.delivered
      invariant out <= r.input && |out| <= k && AcceptedUpTo(r.tracker.plan, r.input, k)
      decreases |r.input| - |out|
    {
      var n: nat :| n > 0;
      var b, err := r.Read(n);
      out := out + b;
      if err.NoError? || err.EndOfInput? {
        ValidIsAccepted(r);
        k := r.pos;
      }
      if !err.NoError? {
        if err.EndOfInput? {
          var all := r.Exhausted();
          assert all;
        }
        ok := err.EndOfInput?;
        return;
      }
    }
  }
}
