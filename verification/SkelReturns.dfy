/** What the calls of USB/usbdrv3.c return, and how often a read goes round, over all runs. */
module SkelReturns {
  import opened Bytes
  import opened Errno
  import opened SkelLog
  import opened SkelModel
  import opened SkelInvariant
  import opened SkelSteps
  import opened SkelCounts
  import opened SkelRetry
  import opened SkelTheorems

  // -------------------------------------------------------------- verdicts

  /** What a call has settled on returning, once it has. */
  datatype Verdict = Unsettled | Settled(rv: int)

  function VerdictOf(c: Call): Verdict {
    match c
    case Read(_, _, _, RIo(_, _, Return(rv)), _) => Settled(rv)
    case Read(_, _, _, RIo(IoFail(err), _, Again), _) => Settled(err)
    case Read(_, _, _, RExit(rv), _) => Settled(rv)
    case Read(_, _, _, RDone(rv), _) => Settled(rv)
    case Write(_, count, _, WUnlock) => Settled(Min(count, MAX_TRANSFER))
    case Write(_, _, _, WUnlockFailed(_, err)) => Settled(err)
    case Write(_, _, _, WUnanchor(_, err)) => Settled(err)
    case Write(_, _, _, WUp(rv)) => Settled(rv)
    case Write(_, _, _, WDone(rv)) => Settled(rv)
    case Flush(_, FUnlock(rv)) => Settled(rv)
    case Flush(_, FDone(rv)) => Settled(rv)
    case _ => Unsettled
  }

  /** What a finished call returns. */
  function Result(c: Call): int
    requires Finished(c)
  {
    match c
    case Read(_, _, _, pc, _) => pc.rv
    case Write(_, _, _, pc) => pc.rv
    case Flush(_, pc) => pc.rv
  }

  /** Nothing a settled call does, starting a prefetch included, changes its verdict or is logged. */
  lemma VerdictStays(d: Dev, id: nat, c: Call, answer: Answer)
    requires VerdictOf(c).Settled? && CallStep(d, id, c, answer).Moved?
    ensures VerdictOf(CallStep(d, id, c, answer).call) == VerdictOf(c)
    ensures CallStep(d, id, c, answer).dev.log == d.log
  {
    if c.Read? && c.rpc.RIo? {
      assert CallStep(d, id, c, answer) == IoStep(d, id, c, answer);
    }
  }

  /** Call `id` has begun and, as long as it lasts, is settled on `rv`. */
  predicate Committed(s: State, id: nat, rv: int) {
    id < s.dev.nextCall && (id in s.calls ==> VerdictOf(s.calls[id]) == Settled(rv))
  }

  lemma CommittedStep(s: State, e: Event, id: nat, rv: int)
    requires Committed(s, id, rv)
    ensures Committed(Step(s, e), id, rv)
  {
    if e.StepCall? {
      if e.id in s.calls && CallStep(s.dev, e.id, s.calls[e.id], e.answer).Moved? {
        UrbChange(s.dev, e.id, s.calls[e.id], e.answer);
        if e.id == id {
          VerdictStays(s.dev, id, s.calls[id], e.answer);
        }
      }
    } else if e.StepCore? {
      assert CoreStep(s.dev, e.move).nextCall == s.dev.nextCall;
    }
  }

  lemma {:induction false} CommittedForGood(buffer: seq<Byte>, es: seq<Event>, id: nat, rv: int, later: seq<Event>)
    requires Committed(Exec(buffer, es), id, rv)
    ensures Committed(Exec(buffer, es + later), id, rv)
    decreases |later|
  {
    if later == [] {
      assert es + later == es;
    } else {
      var sooner, e := later[..|later| - 1], later[|later| - 1];
      CommittedForGood(buffer, es, id, rv, sooner);
      assert es + later == (es + sooner) + [e];
      ExecAppend(buffer, es + sooner, e);
      CommittedStep(Exec(buffer, es + sooner), e, id, rv);
    }
  }

  /** A call that has settled on `rv` returns `rv`, whatever happens until then. */
  lemma {:induction false} SettledIsReturned(buffer: seq<Byte>, es: seq<Event>, id: nat, later: seq<Event>)
    requires id in Exec(buffer, es).calls && VerdictOf(Exec(buffer, es).calls[id]).Settled?
    ensures
      var rv, s := VerdictOf(Exec(buffer, es).calls[id]).rv, Exec(buffer, es + later);
      id in s.calls ==> VerdictOf(s.calls[id]) == Settled(rv) && (Finished(s.calls[id]) ==> Result(s.calls[id]) == rv)
  {
    InvHolds(buffer, es);
    assert CallOk(Exec(buffer, es).dev, id, Exec(buffer, es).calls[id]);
    CommittedForGood(buffer, es, id, VerdictOf(Exec(buffer, es).calls[id]).rv, later);
  }

  // ------------------------------------------------- what is logged is returned

  /** The observations that decide what a call returns. */
  predicate Decides(o: Obs) {
    o.Took? || o.Cleared? || o.Copied?
  }

  function Outcome(o: Obs): int
    requires Decides(o)
  {
    match o
    case Took(_, rv) => rv
    case Cleared(_, rv) => rv
    case Copied(bytes, fault) => if fault then EFAULT else |bytes|
  }

  lemma LoggedByCall(s: State, id: nat, answer: Answer)
    requires |Step(s, StepCall(id, answer)).dev.log| > |s.dev.log|
    ensures id in s.calls && CallStep(s.dev, id, s.calls[id], answer).Moved?
    ensures
      var Moved(d', c') := CallStep(s.dev, id, s.calls[id], answer);
      Step(s, StepCall(id, answer)) == State(d', s.calls[id := c'])
  {
  }

  lemma OthersDecideNothing(s: State, e: Event, o: Obs)
    requires !e.StepCall? && Step(s, e).dev.log == s.dev.log + [o]
    ensures !Decides(o)
  {
    assert (s.dev.log + [o])[|s.dev.log|] == o;
    if e.StepCore? {
      CoreFrame(s.dev, e.move);
    }
  }

  /** Only a read at RBuffer logs a copy. */
  lemma CopierIs(d: Dev, id: nat, c: Call, answer: Answer, o: Obs)
    requires o.Copied? && CallStep(d, id, c, answer).Moved? && CallStep(d, id, c, answer).dev.log == d.log + [o]
    ensures c.Read? && c.rpc.RBuffer?
  {
    assert (d.log + [o])[|d.log|] == o;
    match c
    case Read(_, _, _, pc, _) =>
      if !pc.RBuffer? && !pc.RIo? {
        ReadStreamFrame(d, id, c, answer);
      }
    case Write(_, _, _, _) => WriteStreamFrame(d, id, c, answer);
    case Flush(_, _) => FlushStreamFrame(d, id, c);
  }

  lemma CopyStep(d: Dev, c: Call, answer: Answer, o: Obs)
    requires c.Read? && c.rpc.RBuffer? && BufferStep(d, c, answer).dev.log == d.log + [o]
    ensures o.Copied? && d.copied < d.filled <= |d.buf|
    ensures o.bytes == Pending(d)[..Min(|Pending(d)|, c.count)] && (o.fault <==> answer.Fail?)
    ensures VerdictOf(BufferStep(d, c, answer).call) == Settled(Outcome(o))
  {
    assert (d.log + [o])[|d.log|] == o;
    assert d.log + [o] != d.log;
    var chunk := Min(d.filled - d.copied, c.count);
    assert o.bytes == d.buf[d.copied..d.copied + chunk];
    SliceOfSlice(d.buf, d.copied, d.filled, chunk);
  }

  /** The step that logs a copy, a take or a clear settles the call on what it says. */
  lemma Settles(d: Dev, id: nat, c: Call, answer: Answer, o: Obs)
    requires Decides(o) && CallStep(d, id, c, answer).Moved? && CallStep(d, id, c, answer).dev.log == d.log + [o]
    ensures VerdictOf(CallStep(d, id, c, answer).call) == Settled(Outcome(o))
  {
    assert (d.log + [o])[|d.log|] == o;
    if o.Copied? {
      CopierIs(d, id, c, answer, o);
    }
    if c.Read? && c.rpc.RBuffer? {
      CopyStep(d, c, answer, o);
    } else {
      LatchSettles(d, id, c, answer, o);
    }
  }

  lemma LatchSettles(d: Dev, id: nat, c: Call, answer: Answer, o: Obs)
    requires !(c.Read? && c.rpc.RBuffer?) && (o.Took? || o.Cleared?)
    requires CallStep(d, id, c, answer).Moved? && CallStep(d, id, c, answer).dev.log == d.log + [o]
    ensures VerdictOf(CallStep(d, id, c, answer).call) == Settled(o.rv)
  {
    match c
    case Read(_, _, _, _, _) => ClearSettles(d, id, c, answer, o);
    case Write(_, _, _, _) => TakeSettles(d, id, c, answer, o);
    case Flush(_, _) => assert (d.log + [o])[|d.log|] == o;
  }

  lemma ClearSettles(d: Dev, id: nat, c: Call, answer: Answer, o: Obs)
    requires c.Read? && !c.rpc.RBuffer? && (o.Took? || o.Cleared?)
    requires ReadStep(d, id, c, answer).Moved? && ReadStep(d, id, c, answer).dev.log == d.log + [o]
    ensures VerdictOf(ReadStep(d, id, c, answer).call) == Settled(o.rv)
  {
    assert (d.log + [o])[|d.log|] == o;
    if c.rpc.RIo? {
      IoLogsNothing(d, id, c, answer);
    }
  }

  lemma TakeSettles(d: Dev, id: nat, c: Call, answer: Answer, o: Obs)
    requires c.Write? && (o.Took? || o.Cleared?)
    requires WriteStep(d, id, c, answer).Moved? && WriteStep(d, id, c, answer).dev.log == d.log + [o]
    ensures VerdictOf(WriteStep(d, id, c, answer).call) == Settled(o.rv)
  {
    assert (d.log + [o])[|d.log|] == o;
  }

  lemma IoLogsNothing(d: Dev, id: nat, c: Call, answer: Answer)
    requires IsIo(c)
    ensures CallStep(d, id, c, answer).Moved? && CallStep(d, id, c, answer).dev.log == d.log
  {
    assert CallStep(d, id, c, answer) == IoStep(d, id, c, answer);
  }

  /**
   The call whose step logs a copy, a take of the latch or its clearing returns what was logged:
   the number of bytes, -EFAULT or the error.  No later step of that call logs anything, so a call
   copies once or reports one error, never both.
   */
  lemma {:induction false} LoggedIsReturned(buffer: seq<Byte>, es: seq<Event>, e: Event, o: Obs, later: seq<Event>)
    requires Exec(buffer, es + [e]).dev.log == Exec(buffer, es).dev.log + [o] && Decides(o)
    ensures
      var s := Exec(buffer, es + [e] + later);
      && e.StepCall? && e.id in Exec(buffer, es).calls
      && (e.id in s.calls && Finished(s.calls[e.id]) ==> Result(s.calls[e.id]) == Outcome(o))
      && forall answer :: Exec(buffer, es + [e] + later + [StepCall(e.id, answer)]).dev.log == s.dev.log
  {
    ExecAppend(buffer, es, e);
    var s := Exec(buffer, es);
    if e.StepCall? {
      LoggedByCall(s, e.id, e.answer);
      Settles(s.dev, e.id, s.calls[e.id], e.answer, o);
      SettledIsReturned(buffer, es + [e], e.id, later);
      SettledIsSilent(buffer, es + [e] + later, e.id);
    } else {
      OthersDecideNothing(s, e, o);
    }
  }

  lemma SettledIsSilent(buffer: seq<Byte>, es: seq<Event>, id: nat)
    requires id in Exec(buffer, es).calls ==> VerdictOf(Exec(buffer, es).calls[id]).Settled?
    ensures forall answer :: Exec(buffer, es + [StepCall(id, answer)]).dev.log == Exec(buffer, es).dev.log
  {
    var s := Exec(buffer, es);
    forall answer ensures Exec(buffer, es + [StepCall(id, answer)]).dev.log == s.dev.log {
      ExecAppend(buffer, es, StepCall(id, answer));
      if id in s.calls && CallStep(s.dev, id, s.calls[id], answer).Moved? {
        VerdictStays(s.dev, id, s.calls[id], answer);
      }
    }
  }

  /**
   A read that takes bytes from the buffer takes the next ones of the stream, as many as it asked
   for if there are so many, and returns their number, or -EFAULT if the copy faults.
   */
  lemma {:induction false} CopiedIsReturned(
      buffer: seq<Byte>, es: seq<Event>, id: nat, answer: Answer, bytes: seq<Byte>, fault: bool, later: seq<Event>)
    requires Exec(buffer, es + [StepCall(id, answer)]).dev.log == Exec(buffer, es).dev.log + [Copied(bytes, fault)]
    ensures
      var s, s' := Exec(buffer, es), Exec(buffer, es + [StepCall(id, answer)] + later);
      && id in s.calls && s.calls[id].Read?
      && s.dev.copied <= s.dev.filled <= |s.dev.buf|
      && bytes == Pending(s.dev)[..Min(|Pending(s.dev)|, s.calls[id].count)]
      && (fault <==> answer.Fail?)
      && (id in s'.calls && Finished(s'.calls[id]) ==> Result(s'.calls[id]) == if fault then EFAULT else |bytes|)
  {
    ExecAppend(buffer, es, StepCall(id, answer));
    LoggedIsReturned(buffer, es, StepCall(id, answer), Copied(bytes, fault), later);
    var s := Exec(buffer, es);
    LoggedByCall(s, id, answer);
    CopierIs(s.dev, id, s.calls[id], answer, Copied(bytes, fault));
    CopyStep(s.dev, s.calls[id], answer, Copied(bytes, fault));
  }

  /** A read of zero bytes returns 0; any other returns an error or 1..min(count, bulk_in_size). */
  lemma {:induction false} ReadReturns(buffer: seq<Byte>, es: seq<Event>, id: nat)
    requires id in Exec(buffer, es).calls && Exec(buffer, es).calls[id].Read? && Exec(buffer, es).calls[id].rpc.RDone?
    ensures
      var c := Exec(buffer, es).calls[id];
      if c.count == 0 then c.rpc.rv == 0 else c.rpc.rv < 0 || 1 <= c.rpc.rv <= Min(c.count, |buffer|)
  {
    InvHolds(buffer, es);
    BufferSize(buffer, es);
    assert CallOk(Exec(buffer, es).dev, id, Exec(buffer, es).calls[id]);
  }

  /** A write returns an error or min(count, MAX_TRANSFER). */
  lemma {:induction false} WriteReturns(buffer: seq<Byte>, es: seq<Event>, id: nat)
    requires id in Exec(buffer, es).calls && Exec(buffer, es).calls[id].Write? && Exec(buffer, es).calls[id].wpc.WDone?
    ensures
      var c := Exec(buffer, es).calls[id];
      c.wpc.rv < 0 || c.wpc.rv == Min(c.count, MAX_TRANSFER)
  {
    InvHolds(buffer, es);
    assert CallOk(Exec(buffer, es).dev, id, Exec(buffer, es).calls[id]);
  }

  // ---------------------------------------------------------------- retries

  /**
   A read, at whatever position, has passed through `retry` at most twice, plus once for every
   transfer of its own that completed empty, plus once for every transfer of its own that failed
   and whose error somebody took before the read's next transfer completed.
   */
  lemma {:induction false} RetryBound(buffer: seq<Byte>, es: seq<Event>, id: nat)
    requires id in Exec(buffer, es).calls && Exec(buffer, es).calls[id].Read?
    ensures
      var s := Exec(buffer, es);
      s.calls[id].turns.passes <= 2 + Zeros(s.dev.log, id) + Robbed(s.dev.log, id)
  {
    RetriesHold(buffer, es);
    assert RetryOk(Exec(buffer, es).dev, id, Exec(buffer, es).calls[id]);
  }

  /**
   Every pass after the second answers a transfer of the read's own that came back empty, or is a
   restart after one that was robbed of its error.  So, wherever the read is, two passes plus one per
   empty transfer is a bound exactly if it restarted no more often than it left empty transfers
   unanswered.  In its loop it leaves at most one; when it waits for a transfer of its own it has
   left none and has restarted after each robbery, so that the bound holds exactly if it was never
   robbed.
   */
  lemma {:induction false} RetryExactly(buffer: seq<Byte>, es: seq<Event>, id: nat)
    requires id in Exec(buffer, es).calls && Exec(buffer, es).calls[id].Read?
    ensures
      var s := Exec(buffer, es);
      var c, zeros, robbed := s.calls[id], Zeros(s.dev.log, id), Robbed(s.dev.log, id);
      var Turns(passes, answered, restarts) := c.turns;
      && answered <= zeros && restarts <= robbed
      && (if passes >= 2 then passes == 2 + answered + restarts else answered == restarts == 0)
      && (passes <= 2 + zeros <==> restarts <= zeros - answered)
      && (Looping(c.rpc) ==> zeros <= answered + 1 && robbed <= restarts + 1)
      && (Looping(c.rpc) && Mine(s.dev, id) == 1 ==>
            zeros == answered && robbed == restarts && (passes <= 2 + zeros <==> robbed == 0))
  {
    RetriesHold(buffer, es);
    assert RetryOk(Exec(buffer, es).dev, id, Exec(buffer, es).calls[id]);
  }

  /** The events contain no step of call `id`. */
  predicate Without(es: seq<Event>, id: nat) {
    forall e :: e in es ==> !(e.StepCall? && e.id == id)
  }

  /** The read has failed to transfer and is past its wait: about to load, to clear or to look for bytes. */
  predicate FailedAt(s: State, id: nat, c: Call) {
    && id in s.calls && s.calls[id] == c && c.Read? && (c.rpc.RErrors? || c.rpc.RClear? || c.rpc.RBuffer?)
    && LastFailed(s.dev.log, id)
  }

  /** What others do completes no transfer of a read that is past its wait. */
  lemma OthersLog(s: State, e: Event, id: nat, c: Call)
    requires Inv(s) && FailedAt(s, id, c)
    ensures NoCompletion(s.dev.log, Step(s, e).dev.log)
  {
    assert CallOk(s.dev, id, c);
    if e.StepCall? {
      if e.id in s.calls && CallStep(s.dev, e.id, s.calls[e.id], e.answer).Moved? {
        CallLogs(s.dev, e.id, s.calls[e.id], e.answer);
      }
    } else {
      ElseLog(s, e);
    }
  }

  lemma ElseLog(s: State, e: Event)
    requires s.dev.readUrb.Idle? && !e.StepCall?
    ensures NoCompletion(s.dev.log, Step(s, e).dev.log)
  {
    if e.StepCore? {
      CoreFrame(s.dev, e.move);
      assert NotRead(ResetMarked);
    } else if e.CompleteWrite? {
      assert NotRead(WriteCompleted(e.status));
    }
  }

  /** A call moves by its own steps only. */
  lemma OthersLeave(s: State, e: Event, id: nat)
    requires id in s.calls && s.dev.nextCall !in s.calls && !Finished(s.calls[id]) && !(e.StepCall? && e.id == id)
    ensures id in Step(s, e).calls && Step(s, e).calls[id] == s.calls[id]
  {
  }

  lemma FailedStays(s: State, e: Event, id: nat, c: Call)
    requires Inv(s) && FailedAt(s, id, c) && !(e.StepCall? && e.id == id)
    ensures FailedAt(Step(s, e), id, c)
  {
    NextCallFree(s);
    OthersLeave(s, e, id);
    OthersLog(s, e, id, c);
    FailureKept(s.dev.log, Step(s, e).dev.log, id);
  }

  lemma FailureKept(log: seq<Obs>, log': seq<Obs>, id: nat)
    requires LastFailed(log, id) && NoCompletion(log, log')
    ensures LastFailed(log', id)
  {
    if log' != log {
      var o :| NotRead(o) && log' == log + [o];
      ExtendHistory(log, o, id);
    }
  }

  lemma {:induction false} FailedMeanwhile(buffer: seq<Byte>, es: seq<Event>, mid: seq<Event>, id: nat, c: Call)
    requires FailedAt(Exec(buffer, es), id, c) && Without(mid, id)
    ensures FailedAt(Exec(buffer, es + mid), id, c)
    decreases |mid|
  {
    if mid == [] {
      assert es + mid == es;
    } else {
      var sooner, e := mid[..|mid| - 1], mid[|mid| - 1];
      FailedMeanwhile(buffer, es, sooner, id, c);
      assert es + mid == (es + sooner) + [e];
      ExecAppend(buffer, es + sooner, e);
      InvHolds(buffer, es + sooner);
      FailedStays(Exec(buffer, es + sooner), e, id, c);
    }
  }

  /** The load of line 260. */
  lemma LoadGoes(s: State, id: nat, c: Call, answer: Answer)
    requires FailedAt(s, id, c) && c.rpc.RErrors? && Legal(answer) && s.dev.errors <= 0
    ensures
      var next := c.(rpc := if s.dev.errors == 0 then RBuffer else RClear(s.dev.errors));
      FailedAt(Step(s, StepCall(id, answer)), id, next)
  {
    ExtendHistory(s.dev.log, Loaded(s.dev.errors), id);
  }

  /** The step after it. */
  lemma ThenGoes(s: State, id: nat, c: Call, answer: Answer)
    requires FailedAt(s, id, c) && !c.rpc.RErrors? && Legal(answer) && RetryOk(s.dev, id, c)
    ensures
      var s' := Step(s, StepCall(id, answer));
      && id in s'.calls && s'.calls[id].Read?
      && s'.calls[id].rpc == if c.rpc.RBuffer? then RIo(IoMark, c.count, Again) else RExit(Report(c.rpc.e))
  {
  }

  /**
   A read whose own last transfer failed loads the latch (line 260), other events follow, and it
   goes on: to another transfer exactly when it loaded 0, and else it returns the error it loaded.
   It loads 0 only if somebody has taken the latch since the transfer failed.
   */
  lemma {:induction false} RestartGuard(
      buffer: seq<Byte>, es: seq<Event>, id: nat, c: Call, load: Answer, mid: seq<Event>, go: Answer)
    requires FailedAt(Exec(buffer, es), id, c) && c.rpc.RErrors? && Legal(load) && Legal(go) && Without(mid, id)
    ensures
      var d, s := Exec(buffer, es).dev, Exec(buffer, es + [StepCall(id, load)] + mid + [StepCall(id, go)]);
      && id in s.calls && s.calls[id].Read?
      && s.calls[id].rpc == (if d.errors == 0 then RIo(IoMark, c.count, Again) else RExit(Report(d.errors)))
      && (d.errors == 0 ==> !FailureStands(d.log, id))
  {
    var loaded := es + [StepCall(id, load)];
    var s := Exec(buffer, es);
    InvHolds(buffer, es);
    RetriesHold(buffer, es);
    assert RetryOk(s.dev, id, c);
    ExecAppend(buffer, es, StepCall(id, load));
    LoadGoes(s, id, c, load);
    var next := c.(rpc := if s.dev.errors == 0 then RBuffer else RClear(s.dev.errors));
    FailedMeanwhile(buffer, loaded, mid, id, next);
    RetriesHold(buffer, loaded + mid);
    assert RetryOk(Exec(buffer, loaded + mid).dev, id, next);
    ExecAppend(buffer, loaded + mid, StepCall(id, go));
    ThenGoes(Exec(buffer, loaded + mid), id, next, go);
  }
}
