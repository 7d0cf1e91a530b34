/**
 Why every call of USB/usbdrv3.c answers what it answers.  The causes below are conditions on the
 fields and on what the kernel replied; over all runs a call settles on a value exactly if one of
 them has occurred.
 */
module SkelAnswers {
  import opened Bytes
  import opened Errno
  import opened SkelLog
  import opened SkelModel
  import opened SkelInvariant
  import opened SkelProof
  import opened SkelSteps
  import opened SkelTheorems
  import opened SkelReturns

  // ---------------------------------------------------------------- causes

  /** A signal, a device gone or busy, a latched error, bytes to be had, or a transfer that cannot start. */
  predicate ReadCause(d: Dev, c: Call, answer: Answer, rv: int)
    requires c.Read? && d.filled <= |d.buf|
  {
    match c.rpc
    case RLock => answer.Fail? && rv == EINTR
    case RCheck => d.disconnected && rv == ENODEV
    case RRetry => d.ongoing && c.nonblock && rv == EAGAIN
    case RWait => answer.Fail? && rv == ERESTARTSYS
    case RClear(e) => Reported(e, rv)
    case RBuffer => Pending(d) != [] && rv == if answer.Fail? then EFAULT else Min(|Pending(d)|, c.count)
    case RIo(IoSubmit, _, Again) => answer.Fail? && rv == if answer.code == ENOMEM then ENOMEM else EIO
    case _ => false
  }

  /** No permit, a signal, a latched error, no memory, a fault, a device gone, or the submission's outcome. */
  predicate WriteCause(d: Dev, c: Call, answer: Answer, rv: int)
    requires c.Write?
  {
    match c.wpc
    case WDown =>
      if c.nonblock then d.permits == 0 && rv == EAGAIN else answer.Fail? && rv == ERESTARTSYS
    case WErrors => d.errors < 0 && Reported(d.errors, rv)
    case WAlloc => answer.Fail? && rv == ENOMEM
    case WBuffer(_) => answer.Fail? && rv == if answer.code == ENOMEM then ENOMEM else EFAULT
    case WCheck(_) => d.disconnected && rv == ENODEV
    case WSubmit(_) => rv == if answer.Fail? then answer.code else Min(c.count, MAX_TRANSFER)
    case _ => false
  }

  predicate FlushCause(d: Dev, c: Call, rv: int)
    requires c.Flush?
  {
    c.fpc.FErrors? && if d.errors == 0 then rv == 0 else Reported(d.errors, rv)
  }

  predicate CauseIn(d: Dev, c: Call, answer: Answer, rv: int)
    requires d.filled <= |d.buf|
  {
    match c
    case Read(_, _, _, _, _) => ReadCause(d, c, answer, rv)
    case Write(_, _, _, _) => WriteCause(d, c, answer, rv)
    case Flush(_, _) => FlushCause(d, c, rv)
  }

  /** The event is a step of call `id`, and a cause of `rv`. */
  predicate Cause(s: State, e: Event, id: nat, rv: int) {
    && e.StepCall? && e.id == id && Legal(e.answer) && id in s.calls && s.dev.filled <= |s.dev.buf|
    && CauseIn(s.dev, s.calls[id], e.answer, rv)
  }

  // ---------------------------------------------------------------- one step

  predicate SettlesOn(m: Move, rv: int) {
    m.Moved? && VerdictOf(m.call) == Settled(rv)
  }

  lemma ReportIs(e: int, rv: int)
    requires e < 0
    ensures Reported(e, rv) <==> rv == Report(e)
  {
  }

  lemma BufferCause(d: Dev, c: Call, answer: Answer, rv: int)
    requires c.Read? && c.rpc.RBuffer? && d.filled <= |d.buf|
    ensures ReadCause(d, c, answer, rv) <==> SettlesOn(BufferStep(d, c, answer), rv)
  {
  }

  lemma IoCause(d: Dev, id: nat, c: Call, answer: Answer, rv: int)
    requires IsIo(c) && VerdictOf(c).Unsettled? && d.filled <= |d.buf|
    ensures ReadCause(d, c, answer, rv) <==> SettlesOn(IoStep(d, id, c, answer), rv)
  {
  }

  lemma ReadCauses(d: Dev, id: nat, c: Call, answer: Answer, rv: int)
    requires c.Read? && VerdictOf(c).Unsettled? && UrbsOk(d) && ReadOk(d, c)
    ensures ReadCause(d, c, answer, rv) <==> SettlesOn(ReadStep(d, id, c, answer), rv)
  {
    match c.rpc
    case RBuffer => BufferCause(d, c, answer, rv);
    case RIo(_, _, _) => IoCause(d, id, c, answer, rv);
    case RClear(e) => ReportIs(e, rv);
    case _ =>
  }

  lemma WriteCauses(d: Dev, id: nat, c: Call, answer: Answer, rv: int)
    requires c.Write? && VerdictOf(c).Unsettled? && Legal(answer)
    ensures WriteCause(d, c, answer, rv) <==> SettlesOn(WriteStep(d, id, c, answer), rv)
  {
    if c.wpc.WErrors? && d.errors < 0 {
      ReportIs(d.errors, rv);
    }
  }

  lemma FlushCauses(d: Dev, id: nat, c: Call, rv: int)
    requires c.Flush? && VerdictOf(c).Unsettled? && d.errors <= 0
    ensures FlushCause(d, c, rv) <==> SettlesOn(FlushStep(d, id, c), rv)
  {
    if d.errors < 0 {
      ReportIs(d.errors, rv);
    }
  }

  /** A call that has not settled settles on `rv` by exactly the steps that are a cause of `rv`. */
  lemma CallCauses(d: Dev, id: nat, c: Call, answer: Answer, rv: int)
    requires VerdictOf(c).Unsettled? && UrbsOk(d) && CallOk(d, id, c) && Legal(answer)
    ensures CauseIn(d, c, answer, rv) <==> SettlesOn(CallStep(d, id, c, answer), rv)
  {
    match c
    case Read(_, _, _, _, _) => ReadCauses(d, id, c, answer, rv);
    case Write(_, _, _, _) => WriteCauses(d, id, c, answer, rv);
    case Flush(_, _) => FlushCauses(d, id, c, rv);
  }

  /** A call that has settled meets no further cause. */
  lemma SettledOnce(d: Dev, c: Call, answer: Answer, rv: int)
    requires VerdictOf(c).Settled? && d.filled <= |d.buf|
    ensures !CauseIn(d, c, answer, rv)
  {
  }

  /** What a call was asked for does not change. */
  predicate SameRequest(c: Call, c': Call) {
    match c
    case Read(f, n, nb, _, _) => c'.Read? && c'.file == f && c'.count == n && c'.nonblock == nb
    case Write(f, n, nb, _) => c'.Write? && c'.file == f && c'.count == n && c'.nonblock == nb
    case Flush(f, _) => c'.Flush? && c'.file == f
  }

  lemma RequestStays(d: Dev, id: nat, c: Call, answer: Answer)
    requires CallStep(d, id, c, answer).Moved?
    ensures SameRequest(c, CallStep(d, id, c, answer).call)
  {
    if IsIo(c) {
      IoRequestStays(d, id, c, answer);
    }
  }

  lemma IoRequestStays(d: Dev, id: nat, c: Call, answer: Answer)
    requires IsIo(c)
    ensures SameRequest(c, IoStep(d, id, c, answer).call)
  {
  }

  /** A read or write of zero bytes, which is done when it enters. */
  predicate AsksNothing(c: Call) {
    (c.Read? || c.Write?) && c.count == 0
  }

  predicate SettledAt(s: State, id: nat, rv: int)
    requires id in s.calls
  {
    VerdictOf(s.calls[id]) == Settled(rv)
  }

  lemma OwnStepSettles(s: State, id: nat, answer: Answer, rv: int)
    requires Inv(s) && id in s.calls && Legal(answer)
    ensures
      var s' := Step(s, StepCall(id, answer));
      && id in s'.calls && SameRequest(s.calls[id], s'.calls[id])
      && (SettledAt(s', id, rv) <==> SettledAt(s, id, rv) || Cause(s, StepCall(id, answer), id, rv))
      && (VerdictOf(s.calls[id]).Settled? ==> !Cause(s, StepCall(id, answer), id, rv))
  {
    var c := s.calls[id];
    assert CallOk(s.dev, id, c);
    if CallStep(s.dev, id, c, answer).Moved? {
      RequestStays(s.dev, id, c, answer);
    }
    if VerdictOf(c).Settled? {
      SettledOnce(s.dev, c, answer, rv);
      if CallStep(s.dev, id, c, answer).Moved? {
        VerdictStays(s.dev, id, c, answer);
      }
    } else {
      CallCauses(s.dev, id, c, answer, rv);
    }
  }

  /** Everybody else leaves the call where it is. */
  lemma OtherStepSettlesNot(s: State, e: Event, id: nat)
    requires id in s.calls && s.dev.nextCall !in s.calls && id in Step(s, e).calls
    requires !(e.StepCall? && e.id == id && Legal(e.answer))
    ensures Step(s, e).calls[id] == s.calls[id]
  {
  }

  lemma CallSettles(s: State, e: Event, id: nat, rv: int)
    requires Inv(s) && id in s.calls && id in Step(s, e).calls
    ensures
      var s' := Step(s, e);
      && SameRequest(s.calls[id], s'.calls[id])
      && (SettledAt(s', id, rv) <==> SettledAt(s, id, rv) || Cause(s, e, id, rv))
  {
    if e.StepCall? && e.id == id && Legal(e.answer) {
      OwnStepSettles(s, id, e.answer, rv);
    } else {
      NextCallFree(s);
      OtherStepSettlesNot(s, e, id);
    }
  }

  lemma NewIsUnsettled(s: State, e: Event, id: nat)
    requires id !in s.calls && id in Step(s, e).calls
    ensures id == s.dev.nextCall && Starts(e)
    ensures !AsksNothing(Step(s, e).calls[id]) ==> VerdictOf(Step(s, e).calls[id]).Unsettled?
  {
  }

  // --------------------------------------------------------------- every run

  /** The n-th event is a step of call `id` and a cause of `rv`. */
  predicate CauseAt(buffer: seq<Byte>, es: seq<Event>, n: nat, id: nat, rv: int) {
    n < |es| && Cause(Exec(buffer, es[..n]), es[n], id, rv)
  }

  ghost predicate Caused(buffer: seq<Byte>, es: seq<Event>, id: nat, rv: int) {
    exists n :: 0 <= n < |es| && CauseAt(buffer, es, n, id, rv)
  }

  lemma CausedStep(buffer: seq<Byte>, es: seq<Event>, e: Event, id: nat, rv: int)
    ensures Caused(buffer, es + [e], id, rv) <==> Caused(buffer, es, id, rv) || Cause(Exec(buffer, es), e, id, rv)
  {
    var more := es + [e];
    assert more[..|es|] == es;
    assert CauseAt(buffer, more, |es|, id, rv) <==> Cause(Exec(buffer, es), e, id, rv);
    if Caused(buffer, es, id, rv) {
      var n: nat :| n < |es| && CauseAt(buffer, es, n, id, rv);
      assert more[..n] == es[..n];
      assert CauseAt(buffer, more, n, id, rv);
    }
    if Caused(buffer, more, id, rv) && !Cause(Exec(buffer, es), e, id, rv) {
      var n: nat :| n < |more| && CauseAt(buffer, more, n, id, rv);
      assert more[..n] == es[..n];
      assert CauseAt(buffer, es, n, id, rv);
    }
  }

  lemma NumbersGrow(s: State, e: Event)
    ensures Step(s, e).dev.nextCall >= s.dev.nextCall
  {
    if e.StepCall? {
      if e.id in s.calls && CallStep(s.dev, e.id, s.calls[e.id], e.answer).Moved? {
        NumberStays(s.dev, e.id, s.calls[e.id], e.answer);
      }
    } else if e.StepCore? {
      assert CoreStep(s.dev, e.move).nextCall == s.dev.nextCall;
    }
  }

  lemma NumberStays(d: Dev, id: nat, c: Call, answer: Answer)
    requires CallStep(d, id, c, answer).Moved?
    ensures CallStep(d, id, c, answer).dev.nextCall == d.nextCall
  {
    if IsIo(c) {
      assert CallStep(d, id, c, answer) == IoStep(d, id, c, answer);
    }
  }

  /** A call that has not begun has met no cause. */
  lemma {:induction false} FutureUncaused(buffer: seq<Byte>, es: seq<Event>, id: nat, rv: int)
    requires id >= Exec(buffer, es).dev.nextCall
    ensures !Caused(buffer, es, id, rv)
    decreases |es|
  {
    if es != [] {
      var sooner, e := es[..|es| - 1], es[|es| - 1];
      var s := Exec(buffer, sooner);
      assert es == sooner + [e];
      ExecAppend(buffer, sooner, e);
      NumbersGrow(s, e);
      FutureUncaused(buffer, sooner, id, rv);
      CausedStep(buffer, sooner, e, id, rv);
      InvHolds(buffer, sooner);
      if id in s.calls {
        Begun(s, id);
      }
    }
  }

  lemma Begun(s: State, id: nat)
    requires CallsOk(s) && id in s.calls
    ensures id < s.dev.nextCall
  {
    assert CallOk(s.dev, id, s.calls[id]);
  }

  /** `id` is a call that asks for something, and it has settled on `rv` exactly if `rv` was caused. */
  ghost predicate Explained(buffer: seq<Byte>, es: seq<Event>, id: nat, rv: int)
    requires id in Exec(buffer, es).calls
  {
    AsksNothing(Exec(buffer, es).calls[id]) || (SettledAt(Exec(buffer, es), id, rv) <==> Caused(buffer, es, id, rv))
  }

  lemma ExplainedStep(buffer: seq<Byte>, es: seq<Event>, e: Event, id: nat, rv: int)
    requires id in Exec(buffer, es + [e]).calls
    requires id in Exec(buffer, es).calls ==> Explained(buffer, es, id, rv)
    ensures Explained(buffer, es + [e], id, rv)
  {
    var s := Exec(buffer, es);
    InvHolds(buffer, es);
    ExecAppend(buffer, es, e);
    CausedStep(buffer, es, e, id, rv);
    if id in s.calls {
      CallSettles(s, e, id, rv);
    } else {
      NewIsUnsettled(s, e, id);
      FutureUncaused(buffer, es, id, rv);
    }
  }

  /**
   A call that asks for anything has settled on `rv`, and so returns `rv`, if and only if one of its
   own steps was a cause of `rv`: every condition that must end it does, and nothing else does.
   */
  lemma {:induction false} AnswersExactly(buffer: seq<Byte>, es: seq<Event>, id: nat, rv: int)
    requires id in Exec(buffer, es).calls && !AsksNothing(Exec(buffer, es).calls[id])
    ensures VerdictOf(Exec(buffer, es).calls[id]) == Settled(rv) <==> Caused(buffer, es, id, rv)
  {
    AllExplained(buffer, es, id, rv);
  }

  lemma {:induction false} AllExplained(buffer: seq<Byte>, es: seq<Event>, id: nat, rv: int)
    requires id in Exec(buffer, es).calls
    ensures Explained(buffer, es, id, rv)
    decreases |es|
  {
    if es != [] {
      var sooner, e := es[..|es| - 1], es[|es| - 1];
      assert es == sooner + [e];
      if id in Exec(buffer, sooner).calls {
        AllExplained(buffer, sooner, id, rv);
      }
      ExplainedStep(buffer, sooner, e, id, rv);
    }
  }

  // ------------------------------------------------------------------- reads

  /**
   A read that finds bytes takes them, blocking or not: the next ones of the stream, as many as it
   asks for if there are so many.  It returns their number, or -EFAULT, and goes on to prefetch the
   rest exactly if there were fewer than it asks for.
   */
  lemma {:induction false} BytesAreServed(
      buffer: seq<Byte>, es: seq<Event>, id: nat, answer: Answer, later: seq<Event>)
    requires id in Exec(buffer, es).calls && Exec(buffer, es).calls[id].Read? && Exec(buffer, es).calls[id].rpc.RBuffer?
    requires Exec(buffer, es).dev.filled <= |Exec(buffer, es).dev.buf| && Pending(Exec(buffer, es).dev) != []
    requires Legal(answer)
    ensures
      var d, c := Exec(buffer, es).dev, Exec(buffer, es).calls[id];
      var s1, s2 := Exec(buffer, es + [StepCall(id, answer)]), Exec(buffer, es + [StepCall(id, answer)] + later);
      var n := Min(|Pending(d)|, c.count);
      && s1.dev.log == d.log + [Copied(Pending(d)[..n], answer.Fail?)]
      && s1.dev.filled <= |s1.dev.buf| && Pending(s1.dev) == Pending(d)[n..]
      && id in s1.calls && (IsIo(s1.calls[id]) <==> |Pending(d)| < c.count)
      && (id in s2.calls && Finished(s2.calls[id]) ==> Result(s2.calls[id]) == if answer.Fail? then EFAULT else n)
  {
    var s := Exec(buffer, es);
    ExecAppend(buffer, es, StepCall(id, answer));
    ServeStep(s.dev, id, s.calls[id], answer);
    SettledIsReturned(buffer, es + [StepCall(id, answer)], id, later);
  }

  lemma ServeStep(d: Dev, id: nat, c: Call, answer: Answer)
    requires c.Read? && c.rpc.RBuffer? && d.filled <= |d.buf| && Pending(d) != []
    ensures
      var n, m := Min(|Pending(d)|, c.count), CallStep(d, id, c, answer);
      && m.Moved? && m.dev.log == d.log + [Copied(Pending(d)[..n], answer.Fail?)]
      && m.dev.filled <= |m.dev.buf| && Pending(m.dev) == Pending(d)[n..]
      && (IsIo(m.call) <==> |Pending(d)| < c.count)
      && VerdictOf(m.call) == Settled(if answer.Fail? then EFAULT else n)
  {
    SliceOfSlice(d.buf, d.copied, d.filled, Min(|Pending(d)|, c.count));
    ServeMove(d, c, answer);
    assert CallStep(d, id, c, answer) == BufferStep(d, c, answer);
  }

  lemma ServeMove(d: Dev, c: Call, answer: Answer)
    requires c.Read? && c.rpc.RBuffer? && d.filled <= |d.buf| && d.copied < d.filled
    ensures
      var n, m := Min(d.filled - d.copied, c.count), BufferStep(d, c, answer);
      && m.Moved? && m.dev.log == d.log + [Copied(d.buf[d.copied..d.copied + n], answer.Fail?)]
      && m.dev.buf == d.buf && m.dev.filled == d.filled && m.dev.copied == d.copied + n
      && (IsIo(m.call) <==> d.filled - d.copied < c.count)
      && VerdictOf(m.call) == Settled(if answer.Fail? then EFAULT else n)
  {
  }

  /** How a read comes to where it is. */
  predicate ReadEntered(d: Dev, c: Call, answer: Answer, pc: ReadPc)
    requires c.Read? && d.filled <= |d.buf|
  {
    match pc
    case RLock => false
    case RCheck => c.rpc.RLock? && answer.Go? && d.mutex.Free?
    case RRetry => (c.rpc.RCheck? && !d.disconnected) || (AtReadSubmit(c) && c.rpc.after.Again? && answer.Go?)
    case RWait => c.rpc.RRetry? && d.ongoing && !c.nonblock
    case RErrors => (c.rpc.RRetry? || (c.rpc.RWait? && answer.Go?)) && !d.ongoing
    case RClear(e) => c.rpc.RErrors? && e == d.errors < 0
    case RBuffer => c.rpc.RErrors? && d.errors == 0
    case RIo(IoMark, want, Again) => c.rpc.RBuffer? && Pending(d) == [] && want == c.count
    case RIo(IoMark, want, Return(_)) => c.rpc.RBuffer? && 0 < |Pending(d)| < c.count && want == c.count - |Pending(d)|
    case RIo(io, want, after) =>
      && c.rpc.RIo? && c.rpc.want == want && c.rpc.after == after
      && (io.IoFilled? ==> c.rpc.io.IoMark?) && (io.IoCopied? ==> c.rpc.io.IoFilled?)
      && (io.IoSubmit? ==> c.rpc.io.IoCopied?) && (io.IoFail? ==> c.rpc.io.IoSubmit? && answer.Fail?)
    case RExit(_) => !c.rpc.RLock? && !c.rpc.RExit? && !c.rpc.RDone?
    case RDone(_) => c.rpc.RExit? || (c.rpc.RLock? && answer.Fail?)
  }

  lemma BufferEnters(d: Dev, c: Call, answer: Answer)
    requires c.Read? && c.rpc.RBuffer? && d.filled <= |d.buf|
    ensures ReadEntered(d, c, answer, BufferStep(d, c, answer).call.rpc)
  {
  }

  lemma IoEnters(d: Dev, id: nat, c: Call, answer: Answer)
    requires IsIo(c) && d.filled <= |d.buf|
    ensures IoStep(d, id, c, answer).call.Read? && ReadEntered(d, c, answer, IoStep(d, id, c, answer).call.rpc)
  {
  }

  lemma RestEnters(d: Dev, id: nat, c: Call, answer: Answer)
    requires c.Read? && !c.rpc.RBuffer? && !c.rpc.RIo? && d.filled <= |d.buf| && d.errors <= 0
    requires ReadStep(d, id, c, answer).Moved?
    ensures ReadEntered(d, c, answer, ReadStep(d, id, c, answer).call.rpc)
  {
  }

  lemma ReadEnters(d: Dev, id: nat, c: Call, answer: Answer)
    requires c.Read? && UrbsOk(d) && ReadStep(d, id, c, answer).Moved?
    ensures ReadEntered(d, c, answer, ReadStep(d, id, c, answer).call.rpc)
  {
    match c.rpc
    case RBuffer => BufferEnters(d, c, answer);
    case RIo(_, _, _) => IoEnters(d, id, c, answer);
    case _ => RestEnters(d, id, c, answer);
  }

  /**
   Errors come first: a read that loads an error, whatever happens before its next step, clears the
   latch then and returns -EPIPE for -EPIPE and -EIO for any other, though there be bytes to read.
   */
  lemma {:induction false} LatchedIsReported(
      buffer: seq<Byte>, es: seq<Event>, id: nat, load: Answer, mid: seq<Event>, go: Answer)
    requires id in Exec(buffer, es).calls && Exec(buffer, es).calls[id].Read? && Exec(buffer, es).calls[id].rpc.RErrors?
    requires Exec(buffer, es).dev.errors < 0 && Legal(load) && Legal(go) && Without(mid, id)
    ensures
      var e, s := Exec(buffer, es).dev.errors, Exec(buffer, es + [StepCall(id, load)] + mid + [StepCall(id, go)]);
      && id in s.calls && s.dev.errors == 0
      && VerdictOf(s.calls[id]) == Settled(if e == EPIPE then EPIPE else EIO)
  {
    var s, loaded := Exec(buffer, es), es + [StepCall(id, load)];
    var c := s.calls[id].(rpc := RClear(s.dev.errors));
    ExecAppend(buffer, es, StepCall(id, load));
    StaysPut(buffer, loaded, mid, id, c);
    ExecAppend(buffer, loaded + mid, StepCall(id, go));
  }

  /** A call that is not finished stays where it is while others move. */
  lemma {:induction false} StaysPut(buffer: seq<Byte>, es: seq<Event>, mid: seq<Event>, id: nat, c: Call)
    requires id in Exec(buffer, es).calls && Exec(buffer, es).calls[id] == c && !Finished(c) && Without(mid, id)
    ensures id in Exec(buffer, es + mid).calls && Exec(buffer, es + mid).calls[id] == c
    decreases |mid|
  {
    if mid == [] {
      assert es + mid == es;
    } else {
      var sooner, e := mid[..|mid| - 1], mid[|mid| - 1];
      StaysPut(buffer, es, sooner, id, c);
      assert es + mid == (es + sooner) + [e];
      ExecAppend(buffer, es + sooner, e);
      InvHolds(buffer, es + sooner);
      NextCallFree(Exec(buffer, es + sooner));
      OthersLeave(Exec(buffer, es + sooner), e, id);
    }
  }

  // ------------------------------------------------------------------ writes

  /** How a write comes to where it is. */
  predicate WriteEntered(d: Dev, c: Call, answer: Answer, pc: WritePc)
    requires c.Write?
  {
    match pc
    case WDown => false
    case WErrors => c.wpc.WDown? && d.permits > 0 && (c.nonblock || answer.Go?)
    case WAlloc => c.wpc.WErrors? && d.errors >= 0
    case WBuffer(u) => c.wpc.WAlloc? && answer.Go? && u == d.nextUrb
    case WLock(u) => c.wpc == WBuffer(u) && answer.Go?
    case WCheck(u) => c.wpc == WLock(u) && d.mutex.Free?
    case WAnchor(u) => c.wpc == WCheck(u) && !d.disconnected
    case WSubmit(u) => c.wpc == WAnchor(u)
    case WUnlock => c.wpc.WSubmit? && answer.Go?
    case WUnlockFailed(u, _) => c.wpc == WSubmit(u) && answer.Fail?
    case WUnanchor(u, err) => c.wpc == WUnlockFailed(u, err)
    case WUp(_) => c.wpc.WErrors? || c.wpc.WAlloc? || c.wpc.WBuffer? || c.wpc.WCheck? || c.wpc.WUnanchor?
    case WDone(_) => c.wpc.WDown? || c.wpc.WUnlock? || c.wpc.WUp?
  }

  lemma WriteEnters(d: Dev, id: nat, c: Call, answer: Answer)
    requires c.Write? && WriteStep(d, id, c, answer).Moved?
    ensures WriteEntered(d, c, answer, WriteStep(d, id, c, answer).call.wpc)
  {
  }

  /** The n-th event puts a URB of write `id` into flight. */
  predicate OwnSubmission(buffer: seq<Byte>, es: seq<Event>, n: nat, id: nat) {
    n < |es| && PutsInFlight(Exec(buffer, es[..n]), es[n], id)
  }

  /** The event is a step of call `id` that adds a write URB to those in flight. */
  predicate PutsInFlight(s: State, e: Event, id: nat) {
    e.StepCall? && e.id == id && !(Step(s, e).dev.submitted <= s.dev.submitted)
  }

  /**
   A write of more than no bytes returns min(count, MAX_TRANSFER) if and only if it put a URB of its
   own into flight, and a negative number otherwise.
   */
  lemma {:induction false} WriteSubmits(buffer: seq<Byte>, es: seq<Event>, id: nat)
    requires id in Exec(buffer, es).calls && Exec(buffer, es).calls[id].Write?
    requires Finished(Exec(buffer, es).calls[id]) && Exec(buffer, es).calls[id].count > 0
    ensures
      var c := Exec(buffer, es).calls[id];
      if exists n :: OwnSubmission(buffer, es, n, id) then Result(c) == Min(c.count, MAX_TRANSFER) else Result(c) < 0
  {
    var c := Exec(buffer, es).calls[id];
    FinishedIsSettled(c);
    if m :| OwnSubmission(buffer, es, m, id) {
      SubmissionIsCause(buffer, es, m, id);
      AnswersExactly(buffer, es, id, Min(c.count, MAX_TRANSFER));
    } else {
      AnswersExactly(buffer, es, id, Result(c));
      UnsubmittedFails(buffer, es, id, Result(c));
    }
  }

  lemma FinishedIsSettled(c: Call)
    requires Finished(c)
    ensures VerdictOf(c) == Settled(Result(c))
  {
  }

  lemma UnsubmittedFails(buffer: seq<Byte>, es: seq<Event>, id: nat, rv: int)
    requires id in Exec(buffer, es).calls && Exec(buffer, es).calls[id].Write? && Caused(buffer, es, id, rv)
    requires forall n :: !OwnSubmission(buffer, es, n, id)
    ensures rv < 0
  {
    var n: nat :| n < |es| && CauseAt(buffer, es, n, id, rv);
    CauseIsKind(buffer, es, n, id);
    if rv >= 0 {
      PositiveSubmits(buffer, es, n, id, rv);
    }
  }

  /** The call that was there after n events is the one that is there now. */
  predicate SameCall(buffer: seq<Byte>, es: seq<Event>, n: nat, id: nat)
    requires n <= |es|
  {
    && id in Exec(buffer, es[..n]).calls && id in Exec(buffer, es).calls
    && SameRequest(Exec(buffer, es[..n]).calls[id], Exec(buffer, es).calls[id])
  }

  lemma {:induction false} CauseIsKind(buffer: seq<Byte>, es: seq<Event>, n: nat, id: nat)
    requires id in Exec(buffer, es).calls && n <= |es| && id in Exec(buffer, es[..n]).calls
    ensures SameCall(buffer, es, n, id)
    decreases |es|
  {
    if n == |es| {
      assert es[..n] == es;
    } else {
      var sooner, e := es[..|es| - 1], es[|es| - 1];
      assert es == sooner + [e] && sooner[..n] == es[..n];
      StillThere(buffer, sooner, n, id);
      ThereBefore(buffer, sooner, e, id);
      CauseIsKind(buffer, sooner, n, id);
      SameCallStep(buffer, sooner, e, n, id);
    }
  }

  /** A call with an old number was there before. */
  lemma ThereBefore(buffer: seq<Byte>, es: seq<Event>, e: Event, id: nat)
    requires id in Exec(buffer, es + [e]).calls && id < Exec(buffer, es).dev.nextCall
    ensures id in Exec(buffer, es).calls
  {
    ExecAppend(buffer, es, e);
    if id !in Exec(buffer, es).calls {
      NewIsUnsettled(Exec(buffer, es), e, id);
    }
  }

  lemma SameCallStep(buffer: seq<Byte>, es: seq<Event>, e: Event, n: nat, id: nat)
    requires n <= |es| && SameCall(buffer, es, n, id) && id in Exec(buffer, es + [e]).calls
    ensures SameCall(buffer, es + [e], n, id)
  {
    assert (es + [e])[..n] == es[..n];
    InvHolds(buffer, es);
    ExecAppend(buffer, es, e);
    CallSettles(Exec(buffer, es), e, id, 0);
    SameTwice(Exec(buffer, es[..n]).calls[id], Exec(buffer, es).calls[id], Exec(buffer, es + [e]).calls[id]);
  }

  lemma SameTwice(c: Call, c': Call, c'': Call)
    requires SameRequest(c, c') && SameRequest(c', c'')
    ensures SameRequest(c, c'')
  {
  }

  /** A number once in use is never given out again. */
  lemma {:induction false} StillThere(buffer: seq<Byte>, es: seq<Event>, n: nat, id: nat)
    requires n <= |es| && id in Exec(buffer, es[..n]).calls
    ensures id < Exec(buffer, es).dev.nextCall
    decreases |es|
  {
    if n == |es| {
      assert es[..n] == es;
      InvHolds(buffer, es);
      assert CallOk(Exec(buffer, es).dev, id, Exec(buffer, es).calls[id]);
    } else {
      var sooner, e := es[..|es| - 1], es[|es| - 1];
      assert es == sooner + [e] && sooner[..n] == es[..n];
      StillThere(buffer, sooner, n, id);
      ExecAppend(buffer, sooner, e);
      NumbersGrow(Exec(buffer, sooner), e);
    }
  }

  lemma SubmissionIsCause(buffer: seq<Byte>, es: seq<Event>, n: nat, id: nat)
    requires OwnSubmission(buffer, es, n, id) && id in Exec(buffer, es).calls
    ensures Exec(buffer, es).calls[id].Write?
    ensures Caused(buffer, es, id, Min(Exec(buffer, es).calls[id].count, MAX_TRANSFER))
  {
    var s := Exec(buffer, es[..n]);
    InvHolds(buffer, es[..n]);
    InFlightIsCause(s, es[n], id);
    CauseIsKind(buffer, es, n, id);
    assert CauseAt(buffer, es, n, id, Min(s.calls[id].count, MAX_TRANSFER));
  }

  lemma InFlightIsCause(s: State, e: Event, id: nat)
    requires Inv(s) && PutsInFlight(s, e, id)
    ensures id in s.calls && s.calls[id].Write? && Cause(s, e, id, Min(s.calls[id].count, MAX_TRANSFER))
  {
    if id in s.calls && CallStep(s.dev, id, s.calls[id], e.answer).Moved? {
      SubmitterIs(s.dev, id, s.calls[id], e.answer);
    }
  }

  lemma PositiveSubmits(buffer: seq<Byte>, es: seq<Event>, n: nat, id: nat, rv: int)
    requires CauseAt(buffer, es, n, id, rv) && Exec(buffer, es[..n]).calls[id].Write? && rv >= 0
    ensures OwnSubmission(buffer, es, n, id)
  {
    InvHolds(buffer, es[..n]);
    PositiveIsInFlight(Exec(buffer, es[..n]), es[n], id, rv);
  }

  lemma PositiveIsInFlight(s: State, e: Event, id: nat, rv: int)
    requires Inv(s) && Cause(s, e, id, rv) && s.calls[id].Write? && rv >= 0
    ensures PutsInFlight(s, e, id)
  {
    assert CallOk(s.dev, id, s.calls[id]);
    var u := s.calls[id].wpc.urb;
    assert u in Step(s, e).dev.submitted;
  }

  // ----------------------------------------------------------------- flushes

  /**
   A flush returns 0 if the latch is empty when it tests it, -EPIPE for -EPIPE and -EIO for any other
   error, and leaves the latch empty.
   */
  lemma {:induction false} FlushReturns(buffer: seq<Byte>, es: seq<Event>, id: nat, answer: Answer, later: seq<Event>)
    requires id in Exec(buffer, es).calls && Exec(buffer, es).calls[id].Flush?
    requires Exec(buffer, es).calls[id].fpc.FErrors? && Legal(answer)
    ensures
      var e, tested := Exec(buffer, es).dev.errors, es + [StepCall(id, answer)];
      var s := Exec(buffer, tested + later);
      && Exec(buffer, tested).dev.errors == 0
      && (Exec(buffer, tested).dev.log == Exec(buffer, es).dev.log <==> e == 0)
      && (id in s.calls && Finished(s.calls[id]) ==>
            Result(s.calls[id]) == if e == 0 then 0 else if e == EPIPE then EPIPE else EIO)
  {
    InvHolds(buffer, es);
    ExecAppend(buffer, es, StepCall(id, answer));
    FlushTests(Exec(buffer, es), id, answer);
    SettledIsReturned(buffer, es + [StepCall(id, answer)], id, later);
  }

  lemma FlushTests(s: State, id: nat, answer: Answer)
    requires id in s.calls && s.calls[id].Flush? && s.calls[id].fpc.FErrors? && s.dev.errors <= 0 && Legal(answer)
    ensures
      var e, s' := s.dev.errors, Step(s, StepCall(id, answer));
      && s'.dev.errors == 0 && (s'.dev.log == s.dev.log <==> e == 0) && id in s'.calls
      && VerdictOf(s'.calls[id]) == Settled(if e == 0 then 0 else if e == EPIPE then EPIPE else EIO)
  {
  }

  predicate FlushEntered(d: Dev, c: Call, pc: FlushPc)
    requires c.Flush?
  {
    match pc
    case FLock => false
    case FWrites => c.fpc.FLock? && d.mutex.Free?
    case FRead => c.fpc.FWrites? && Drained(d)
    case FErrors => c.fpc.FRead? && ReadKilled(d)
    case FUnlock(_) => c.fpc.FErrors?
    case FDone(rv) => c.fpc == FUnlock(rv)
  }

  lemma FlushEnters(d: Dev, id: nat, c: Call)
    requires c.Flush? && FlushStep(d, id, c).Moved?
    ensures FlushEntered(d, c, FlushStep(d, id, c).call.fpc)
  {
  }

  // ----------------------------------------------------------------- waiting

  /** What a call waits for: io_mutex, a completion, a permit or the draw-down. */
  predicate Waits(d: Dev, c: Call, answer: Answer) {
    match c
    case Read(_, _, _, RLock, _) => answer.Go? && !d.mutex.Free?
    case Read(_, _, _, RWait, _) => answer.Go? && d.ongoing
    case Write(_, _, nonblock, WDown) => answer.Go? && !nonblock && d.permits == 0
    case Write(_, _, _, WLock(_)) => !d.mutex.Free?
    case Flush(_, FLock) => !d.mutex.Free?
    case Flush(_, FWrites) => !Drained(d)
    case Flush(_, FRead) => !ReadKilled(d)
    case _ => false
  }

  /** A call that is not finished stands still exactly while it waits for something it lacks. */
  lemma BlocksExactly(d: Dev, id: nat, c: Call, answer: Answer)
    requires !Finished(c)
    ensures CallStep(d, id, c, answer).Blocked? <==> Waits(d, c, answer)
  {
    if IsIo(c) {
      assert CallStep(d, id, c, answer) == IoStep(d, id, c, answer);
    }
  }

  /** A non-blocking call waits for io_mutex at most, never for a transfer or a permit. */
  lemma {:induction false} NonBlockingWaits(buffer: seq<Byte>, es: seq<Event>, id: nat, answer: Answer)
    requires id in Exec(buffer, es).calls && Waits(Exec(buffer, es).dev, Exec(buffer, es).calls[id], answer)
    requires var c := Exec(buffer, es).calls[id]; !c.Flush? && c.nonblock
    ensures !Exec(buffer, es).dev.mutex.Free?
  {
    InvHolds(buffer, es);
    assert CallOk(Exec(buffer, es).dev, id, Exec(buffer, es).calls[id]);
  }
}
