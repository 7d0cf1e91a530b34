/** What the driver of USB/usbdrv3.c guarantees over all its runs, in terms of Exec alone. */
module SkelTheorems {
  import opened Bytes
  import opened Errno
  import opened SkelLog
  import opened SkelModel
  import opened SkelInvariant
  import opened SkelSteps

  // -------------------------------------------------------------- lifetime

  /**
   The reference count is one for the binding plus one per open file.  skel_delete has run
   at most once, and it has run exactly when the binding and every file are gone; then no URB
   is in flight, no callback is running and no call is inside the driver.
   */
  lemma {:induction false} DeviceLifetime(buffer: seq<Byte>, es: seq<Event>)
    ensures
      var s := Exec(buffer, es);
      && s.dev.kref == |s.dev.files| + (if s.dev.core == Gone then 0 else 1)
      && s.dev.deletes <= 1
      && (s.dev.deletes == 1 <==> s.dev.core == Gone && s.dev.files == {})
      && (s.dev.deletes == 1 ==> Quiet(s.dev) && s.calls == map[])
  {
    InvHolds(buffer, es);
    var s := Exec(buffer, es);
    assert forall id :: id in s.calls ==> CallOk(s.dev, id, s.calls[id]) && s.calls[id].file in s.dev.files;
  }

  lemma ExecAppend(buffer: seq<Byte>, es: seq<Event>, e: Event)
    ensures Exec(buffer, es + [e]) == Step(Exec(buffer, es), e)
  {
    assert (es + [e])[..|es|] == es;
  }

  /** Nothing that happens after skel_delete touches the device: no callback, no call, no open. */
  lemma {:induction false} DeletedIsFinal(buffer: seq<Byte>, es: seq<Event>, later: seq<Event>)
    requires Exec(buffer, es).dev.deletes == 1
    ensures Exec(buffer, es + later) == Exec(buffer, es)
    decreases |later|
  {
    if later == [] {
      assert es + later == es;
    } else {
      var sooner, e := later[..|later| - 1], later[|later| - 1];
      DeletedIsFinal(buffer, es, sooner);
      DeviceLifetime(buffer, es);
      assert es + later == (es + sooner) + [e];
      ExecAppend(buffer, es + sooner, e);
      NothingMoves(Exec(buffer, es), e);
    }
  }

  /** No event is enabled on a device that is gone, with no files, no calls and no URBs. */
  lemma NothingMoves(s: State, e: Event)
    requires s.dev.core == Gone && s.dev.files == {} && Quiet(s.dev) && s.calls == map[]
    ensures Step(s, e) == s
  {
  }

  // ----------------------------------------------------------- submissions

  /** The call owns io_mutex of a device that is neither disconnected nor deleted. */
  predicate MayTouch(d: Dev, id: nat) {
    d.mutex == ByCall(id) && !d.disconnected && d.deletes == 0
  }

  predicate AtReadSubmit(c: Call) {
    IsIo(c) && c.rpc.io.IoSubmit?
  }

  predicate AtWriteSubmit(c: Call) {
    c.Write? && c.wpc.WSubmit?
  }

  /**
   A read about to submit the read URB (line 202) finds it not in flight, marked as ongoing and
   with an empty buffer; a write about to submit (line 429) finds its URB anchored and neither in
   flight nor in its callback.  Both own io_mutex of a device not disconnected and not deleted.
   */
  lemma {:induction false} SubmissionGuarded(buffer: seq<Byte>, es: seq<Event>, id: nat)
    requires id in Exec(buffer, es).calls
    ensures
      var d, c := Exec(buffer, es).dev, Exec(buffer, es).calls[id];
      && (AtReadSubmit(c) ==> d.readUrb.Idle? && d.ongoing && d.filled == 0 && d.copied == 0 && MayTouch(d, id))
      && (AtWriteSubmit(c) ==>
            c.wpc.urb in d.anchored && c.wpc.urb !in d.submitted + d.finishing && MayTouch(d, id))
  {
    InvHolds(buffer, es);
    DeviceLifetime(buffer, es);
    assert CallOk(Exec(buffer, es).dev, id, Exec(buffer, es).calls[id]);
  }

  /** A URB comes into flight at those two positions and nowhere else. */
  lemma {:induction false} SubmittersAre(buffer: seq<Byte>, es: seq<Event>, e: Event)
    ensures
      var s, d' := Exec(buffer, es), Exec(buffer, es + [e]).dev;
      && (d'.readUrb.InFlight? && d'.readUrb != s.dev.readUrb ==>
            e.StepCall? && e.answer.Go? && e.id in s.calls && AtReadSubmit(s.calls[e.id]))
      && (!(d'.submitted <= s.dev.submitted) ==>
            && e.StepCall? && e.answer.Go? && e.id in s.calls && AtWriteSubmit(s.calls[e.id])
            && d'.submitted == s.dev.submitted + {s.calls[e.id].wpc.urb})
  {
    ExecAppend(buffer, es, e);
    var s := Exec(buffer, es);
    if e.StepCall? && e.id in s.calls && CallStep(s.dev, e.id, s.calls[e.id], e.answer).Moved? {
      SubmitterIs(s.dev, e.id, s.calls[e.id], e.answer);
    } else {
      OthersSubmitNothing(s, e);
    }
  }

  lemma OthersSubmitNothing(s: State, e: Event)
    requires e.StepCall? && e.id in s.calls ==> CallStep(s.dev, e.id, s.calls[e.id], e.answer).Blocked?
    ensures
      var d' := Step(s, e).dev;
      (d'.readUrb == s.dev.readUrb || d'.readUrb.Idle?) && d'.submitted <= s.dev.submitted
  {
    if e.StepCore? {
      CoreFrame(s.dev, e.move);
    }
  }

  lemma SubmitterIs(d: Dev, id: nat, c: Call, answer: Answer)
    requires CallStep(d, id, c, answer).Moved?
    ensures
      var d' := CallStep(d, id, c, answer).dev;
      && (d'.readUrb != d.readUrb ==> answer.Go? && AtReadSubmit(c))
      && (d'.submitted != d.submitted ==>
            answer.Go? && AtWriteSubmit(c) && d'.submitted == d.submitted + {c.wpc.urb})
  {
    match c
    case Read(_, _, _, _, _) =>
      ReadMovesNoPermit(d, id, c, answer);
      ReadSubmitterIs(d, id, c, answer);
    case Write(_, _, _, _) => WriteSubmitterIs(d, id, c, answer);
    case Flush(_, _) =>
  }

  lemma ReadSubmitterIs(d: Dev, id: nat, c: Call, answer: Answer)
    requires c.Read? && ReadStep(d, id, c, answer).Moved?
    ensures ReadStep(d, id, c, answer).dev.readUrb != d.readUrb ==> answer.Go? && AtReadSubmit(c)
  {
    if c.rpc.RIo? {
      assert ReadStep(d, id, c, answer) == IoStep(d, id, c, answer);
    }
  }

  lemma WriteSubmitterIs(d: Dev, id: nat, c: Call, answer: Answer)
    requires c.Write? && WriteStep(d, id, c, answer).Moved?
    ensures
      var d' := WriteStep(d, id, c, answer).dev;
      && d'.readUrb == d.readUrb
      && (d'.submitted != d.submitted ==>
            answer.Go? && AtWriteSubmit(c) && d'.submitted == d.submitted + {c.wpc.urb})
  {
  }

  /**
   The transfer a read submits asks for min(bulk_in_size, what the read still wants): all it was
   called for, or, when it has settled on what to return and prefetches, the rest.
   */
  lemma {:induction false} TransferAsks(buffer: seq<Byte>, es: seq<Event>, id: nat)
    requires id in Exec(buffer, es).calls && AtReadSubmit(Exec(buffer, es).calls[id])
    ensures
      var c := Exec(buffer, es).calls[id];
      && Exec(buffer, es + [StepCall(id, Go)]).dev.readUrb == InFlight(Min(|buffer|, c.rpc.want), id)
      && match c.rpc.after
         case Again => c.rpc.want == c.count
         case Return(rv) => 1 <= c.rpc.want < c.count && (rv > 0 ==> c.rpc.want == c.count - rv)
  {
    InvHolds(buffer, es);
    BufferSize(buffer, es);
    ExecAppend(buffer, es, StepCall(id, Go));
    assert CallOk(Exec(buffer, es).dev, id, Exec(buffer, es).calls[id]);
    SubmittedIs(Exec(buffer, es), id);
  }

  lemma SubmittedIs(s: State, id: nat)
    requires id in s.calls && AtReadSubmit(s.calls[id])
    ensures Step(s, StepCall(id, Go)).dev.readUrb == InFlight(Min(|s.dev.buf|, s.calls[id].rpc.want), id)
  {
    assert CallStep(s.dev, id, s.calls[id], Go) == IoStep(s.dev, id, s.calls[id], Go);
  }

  // ------------------------------------------------------------ disconnect

  /** skel_disconnect has returned from both of its kills. */
  predicate Killed(core: CorePc) {
    core.DiscPut? || core.Gone?
  }

  lemma CoreUnmoved(d: Dev, id: nat, c: Call, answer: Answer)
    requires CallStep(d, id, c, answer).Moved?
    ensures CallStep(d, id, c, answer).dev.core == d.core
  {
  }

  lemma KilledStays(s: State, e: Event)
    requires Killed(s.dev.core)
    ensures Killed(Step(s, e).dev.core)
  {
    if e.StepCall? && e.id in s.calls && CallStep(s.dev, e.id, s.calls[e.id], e.answer).Moved? {
      CoreUnmoved(s.dev, e.id, s.calls[e.id], e.answer);
    }
  }

  lemma {:induction false} KilledForGood(buffer: seq<Byte>, es: seq<Event>, later: seq<Event>)
    requires Killed(Exec(buffer, es).dev.core)
    ensures Killed(Exec(buffer, es + later).dev.core)
    decreases |later|
  {
    if later == [] {
      assert es + later == es;
    } else {
      var sooner, e := later[..|later| - 1], later[|later| - 1];
      KilledForGood(buffer, es, sooner);
      assert es + later == (es + sooner) + [e];
      ExecAppend(buffer, es + sooner, e);
      KilledStays(Exec(buffer, es + sooner), e);
    }
  }

  /** Once disconnect has killed the URBs, none is in flight in that state or any later one. */
  lemma {:induction false} DisconnectIsFinal(buffer: seq<Byte>, es: seq<Event>, later: seq<Event>)
    requires Killed(Exec(buffer, es).dev.core)
    ensures Quiet(Exec(buffer, es + later).dev)
  {
    KilledForGood(buffer, es, later);
    InvHolds(buffer, es + later);
  }

  // --------------------------------------------------------------- permits

  /** Free permits, permits in the hands of write calls and URBs with a permit always make 8. */
  lemma {:induction false} PermitConservation(buffer: seq<Byte>, es: seq<Event>)
    ensures
      var s := Exec(buffer, es);
      && s.dev.permits + |Holders(s.calls)| + |s.dev.submitted| + |s.dev.finishing| == 8
      && |s.dev.submitted + s.dev.finishing| <= 8
      && (s.calls == map[] && Quiet(s.dev) ==> s.dev.permits == 8)
  {
    InvHolds(buffer, es);
    var s := Exec(buffer, es);
    assert |s.dev.submitted + s.dev.finishing| == |s.dev.submitted| + |s.dev.finishing|;
    if s.calls == map[] {
      assert Holders(s.calls) == {};
    }
  }

  // -------------------------------------------------------- the read buffer

  lemma CallBuffer(d: Dev, id: nat, c: Call, answer: Answer)
    requires CallStep(d, id, c, answer).Moved?
    ensures CallStep(d, id, c, answer).dev.buf == d.buf
  {
  }

  lemma StepSize(s: State, e: Event)
    ensures |Step(s, e).dev.buf| == |s.dev.buf|
  {
    if e.StepCall? {
      if e.id in s.calls && CallStep(s.dev, e.id, s.calls[e.id], e.answer).Moved? {
        CallBuffer(s.dev, e.id, s.calls[e.id], e.answer);
      }
    } else if e.StepCore? {
      CoreFrame(s.dev, e.move);
    }
  }

  lemma {:induction false} BufferSize(buffer: seq<Byte>, es: seq<Event>)
    ensures |Exec(buffer, es).dev.buf| == |buffer|
    decreases |es|
  {
    if es != [] {
      BufferSize(buffer, es[..|es| - 1]);
      StepSize(Exec(buffer, es[..|es| - 1]), es[|es| - 1]);
    }
  }

  /**
   The read URB in flight means `ongoing_read`; outside skel_do_read_io the marks are ordered and
   inside the buffer; and a read that waits for `ongoing_read` to fall has a completion coming.
   */
  lemma {:induction false} ReadUrbDiscipline(buffer: seq<Byte>, es: seq<Event>)
    ensures
      var s := Exec(buffer, es);
      && (s.dev.readUrb.InFlight? ==> s.dev.ongoing && s.dev.readUrb.len <= |buffer|)
      && ((forall id :: id in s.calls ==> !IsIo(s.calls[id])) ==>
            s.dev.copied <= s.dev.filled <= |buffer| && (s.dev.ongoing ==> s.dev.readUrb.InFlight?))
      && (forall id :: id in s.calls && s.calls[id].Read? && s.calls[id].rpc.RWait? && s.dev.ongoing
            ==> s.dev.readUrb.InFlight?)
  {
    InvHolds(buffer, es);
    BufferSize(buffer, es);
    var s := Exec(buffer, es);
    forall id | id in s.calls && s.calls[id].Read? && s.calls[id].rpc.RWait? && s.dev.ongoing
      ensures s.dev.readUrb.InFlight?
    {
      assert CallOk(s.dev, id, s.calls[id]);
    }
  }

  /**
   The bytes taken from the buffer followed by those still in it are the payloads of all
   successful transfers.  The bytes that reached users are exactly those taken, and so the
   stream is whole, if and only if no copy to a user has faulted.
   */
  lemma {:induction false} StreamIntegrity(buffer: seq<Byte>, es: seq<Event>)
    ensures
      var d := Exec(buffer, es).dev;
      && d.filled <= |d.buf|
      && Consumed(d.log) + Pending(d) == Payloads(d.log)
      && (Delivered(d.log) + Pending(d) == Payloads(d.log) <==> FaultFree(d.log))
  {
    InvHolds(buffer, es);
    DeliveredIsConsumed(Exec(buffer, es).dev.log);
  }

  // ------------------------------------------------------------ quiescence

  /**
   No URB is in flight when skel_flush reads and clears the latch and until it releases io_mutex,
   nor from the end of skel_pre_reset to the unlock of skel_post_reset.
   */
  lemma {:induction false} DrawDownQuiesces(buffer: seq<Byte>, es: seq<Event>)
    ensures
      var s := Exec(buffer, es);
      && (s.dev.core.InReset? || s.dev.core.PostResetUnlock? ==> Quiet(s.dev) && s.dev.mutex == ByCore)
      && (forall id :: id in s.calls && s.calls[id].Flush? && (s.calls[id].fpc.FErrors? || s.calls[id].fpc.FUnlock?)
            ==> Quiet(s.dev) && s.dev.mutex == ByCall(id))
  {
    InvHolds(buffer, es);
    var s := Exec(buffer, es);
    forall id | id in s.calls && s.calls[id].Flush? && (s.calls[id].fpc.FErrors? || s.calls[id].fpc.FUnlock?)
      ensures Quiet(s.dev) && s.dev.mutex == ByCall(id)
    {
      assert CallOk(s.dev, id, s.calls[id]);
    }
  }

  // ---------------------------------------------------------- what happens

  /** The device is bound and usable: probed, and not being unplugged. */
  predicate Present(core: CorePc) {
    !core.Probing? && !Disconnecting(core) && !core.Gone?
  }

  /**
   skel_open succeeds exactly on a device that is present and not being autosuspended; it takes one
   reference.  A file is released exactly if no call uses it, and gives that reference back.
   */
  lemma {:induction false} FilesExactly(buffer: seq<Byte>, es: seq<Event>, f: nat)
    ensures
      var s, o, r := Exec(buffer, es), Exec(buffer, es + [OpenFile(f)]), Exec(buffer, es + [ReleaseFile(f)]);
      && o.calls == r.calls == s.calls
      && o.dev.files == s.dev.files + (if Present(s.dev.core) && !Autosuspending(s.dev.core) then {f} else {})
      && o.dev.kref == s.dev.kref + |o.dev.files| - |s.dev.files|
      && r.dev.files == s.dev.files - (if forall id :: id in s.calls ==> s.calls[id].file != f then {f} else {})
      && r.dev.kref == s.dev.kref + |r.dev.files| - |s.dev.files|
  {
    ExecAppend(buffer, es, OpenFile(f));
    ExecAppend(buffer, es, ReleaseFile(f));
    InvHolds(buffer, es);
    Opening(Exec(buffer, es), f);
    Releasing(Exec(buffer, es), f);
  }

  lemma Opening(s: State, f: nat)
    ensures
      var s' := Step(s, OpenFile(f));
      && s'.calls == s.calls
      && s'.dev.files == s.dev.files + (if Present(s.dev.core) && !Autosuspending(s.dev.core) then {f} else {})
      && s'.dev.kref == s.dev.kref + |s'.dev.files| - |s.dev.files|
  {
    if f in s.dev.files {
      assert s.dev.files + {f} == s.dev.files;
    }
  }

  lemma Releasing(s: State, f: nat)
    requires s.dev.kref >= |s.dev.files|
    ensures
      var s' := Step(s, ReleaseFile(f));
      && s'.calls == s.calls
      && s'.dev.files == s.dev.files - (if forall id :: id in s.calls ==> s.calls[id].file != f then {f} else {})
      && s'.dev.kref == s.dev.kref + |s'.dev.files| - |s.dev.files|
  {
    if f !in s.dev.files {
      assert s.dev.files - {f} == s.dev.files;
    }
  }

  /** A call enters on an open file with a number of its own, and is finished at once only if it asks for nothing. */
  lemma {:induction false} CallsEnter(buffer: seq<Byte>, es: seq<Event>, e: Event)
    requires Starts(e) && e.file in Exec(buffer, es).dev.files
    ensures
      var s, s' := Exec(buffer, es), Exec(buffer, es + [e]);
      var id := s.dev.nextCall;
      && id !in s.calls && s'.calls == s.calls[id := s'.calls[id]] && s'.calls[id].file == e.file
      && (Finished(s'.calls[id]) <==> !e.StartFlush? && e.count == 0)
      && match e
         case StartRead(_, count, nonblock) =>
           s'.calls[id].Read? && s'.calls[id].count == count && s'.calls[id].nonblock == nonblock
         case StartWrite(_, count, nonblock) =>
           s'.calls[id].Write? && s'.calls[id].count == count && s'.calls[id].nonblock == nonblock
         case StartFlush(_) => s'.calls[id].Flush?
  {
    InvHolds(buffer, es);
    NextCallFree(Exec(buffer, es));
    ExecAppend(buffer, es, e);
  }

  /**
   A read transfer in flight completes with any status and any data that fit.  A success replaces what
   is pending by the data; a failure leaves nothing pending and latches the status.
   */
  lemma {:induction false} ReadCompletes(buffer: seq<Byte>, es: seq<Event>, status: int, data: seq<Byte>)
    requires Exec(buffer, es).dev.readUrb.InFlight? && status <= 0 && |data| <= Exec(buffer, es).dev.readUrb.len
    ensures
      var d, d' := Exec(buffer, es).dev, Exec(buffer, es + [CompleteRead(status, data)]).dev;
      && d'.readUrb.Idle? && !d'.ongoing && d'.wakers == d.wakers + 1
      && d'.log == d.log + [ReadCompleted(d.readUrb.caller, status, data)]
      && d'.filled <= |d'.buf| && Pending(d') == (if status == 0 then data else [])
      && d'.errors == (if status == 0 then d.errors else status)
  {
    InvHolds(buffer, es);
    ExecAppend(buffer, es, CompleteRead(status, data));
  }

  /** A write URB in flight completes with any status; it stays out until its callback is over. */
  lemma {:induction false} WriteCompletes(buffer: seq<Byte>, es: seq<Event>, urb: nat, status: int)
    requires urb in Exec(buffer, es).dev.submitted && status <= 0
    ensures
      var d, d' := Exec(buffer, es).dev, Exec(buffer, es + [CompleteWrite(urb, status)]).dev;
      var d'' := Exec(buffer, es + [CompleteWrite(urb, status)] + [ReleaseWrite(urb)]).dev;
      && d'.submitted == d.submitted - {urb} && d'.finishing == d.finishing + {urb} && d'.permits == d.permits
      && d'.log == d.log + [WriteCompleted(status)]
      && d'.errors == (if status == 0 then d.errors else status)
      && d''.finishing == d.finishing && d''.permits == d.permits + 1
  {
    InvHolds(buffer, es);
    ExecAppend(buffer, es, CompleteWrite(urb, status));
    ExecAppend(buffer, es + [CompleteWrite(urb, status)], ReleaseWrite(urb));
    WriteReturned(Exec(buffer, es), urb, status);
  }

  lemma WriteReturned(s: State, urb: nat, status: int)
    requires UrbsOk(s.dev) && urb in s.dev.submitted && status <= 0
    ensures
      var d, s' := s.dev, Step(s, CompleteWrite(urb, status));
      var d', d'' := s'.dev, Step(s', ReleaseWrite(urb)).dev;
      && d'.submitted == d.submitted - {urb} && d'.finishing == d.finishing + {urb} && d'.permits == d.permits
      && d'.log == d.log + [WriteCompleted(status)]
      && d'.errors == (if status == 0 then d.errors else status)
      && d''.finishing == d.finishing && d''.permits == d.permits + 1
  {
    assert urb !in s.dev.finishing;
  }

  /** What the core waits for where it is. */
  predicate CoreWaits(d: Dev) {
    match d.core
    case PreResetLock => !d.mutex.Free?
    case DiscLock => !d.mutex.Free?
    case SuspendWrites(_) => !Drained(d)
    case PreResetWrites => !Drained(d)
    case DiscKillWrites => !Drained(d)
    case SuspendRead(_) => !ReadKilled(d)
    case PreResetRead => !ReadKilled(d)
    case DiscKillRead => !ReadKilled(d)
    case _ => false
  }

  /** The core has nothing to do: the device is gone, or bound and nothing is asked of it that it may do. */
  predicate CoreIdle(d: Dev, move: CoreMove) {
    || d.core.Gone?
    || (d.core.Bound? && (move.Advance? || move.ProbeFails? || (move.Autosuspend? && d.files != {})))
  }

  /** The core stands still exactly while it waits or has nothing to do. */
  lemma {:induction false} CoreStandsStill(d: Dev, move: CoreMove)
    ensures CoreStep(d, move).core == d.core <==> CoreWaits(d) || CoreIdle(d, move)
  {
    if Resetting(d.core) {
      assert CoreStep(d, move) == ResetStep(d);
    } else if Disconnecting(d.core) {
      assert CoreStep(d, move) == DisconnectStep(d);
    } else if InSuspend(d.core) {
      assert CoreStep(d, move) == SuspendStep(d);
    }
  }

  /** Every reset leaves -EPIPE in the latch, to be reported, before it lets the calls go on. */
  lemma {:induction false} ResetIsMarked(buffer: seq<Byte>, es: seq<Event>, move: CoreMove)
    requires Exec(buffer, es).dev.core == InReset
    ensures
      var d, d' := Exec(buffer, es).dev, Exec(buffer, es + [StepCore(move)]).dev;
      d'.errors == EPIPE && d'.log == d.log + [ResetMarked] && d'.core == PostResetUnlock && d'.mutex == ByCore
  {
    InvHolds(buffer, es);
    ExecAppend(buffer, es, StepCore(move));
    Marks(Exec(buffer, es), move);
  }

  lemma Marks(s: State, move: CoreMove)
    requires CoreOk(s.dev) && s.dev.core == InReset
    ensures
      var d' := Step(s, StepCore(move)).dev;
      d'.errors == EPIPE && d'.log == s.dev.log + [ResetMarked] && d'.core == PostResetUnlock && d'.mutex == ByCore
  {
    assert CoreStep(s.dev, move) == ResetStep(s.dev);
  }

  /** How the core comes to where it is. */
  predicate CoreEntered(d: Dev, move: CoreMove, core: CorePc) {
    match core
    case Probing => false
    case Bound => (d.core.Probing? && !move.ProbeFails?) || d.core.SuspendRead? || d.core.PostResetUnlock?
    case SuspendWrites(asleep) => d.core.Bound? && if asleep then move.Sleep? else move.Autosuspend? && d.files == {}
    case SuspendRead(asleep) => d.core == SuspendWrites(asleep)
    case PreResetLock => d.core.Bound? && move.Reset?
    case PreResetWrites => d.core.PreResetLock?
    case PreResetRead => d.core.PreResetWrites?
    case InReset => d.core.PreResetRead?
    case PostResetUnlock => d.core.InReset?
    case DiscLock => d.core.Bound? && move.Disconnect?
    case DiscMark => d.core.DiscLock?
    case DiscUnlock => d.core.DiscMark?
    case DiscKillRead => d.core.DiscUnlock?
    case DiscKillWrites => d.core.DiscKillRead?
    case DiscPut => d.core.DiscKillWrites?
    case Gone => d.core.DiscPut? || (d.core.Probing? && move.ProbeFails?)
  }

  lemma ResetEnters(d: Dev, move: CoreMove)
    requires Resetting(d.core) && ResetStep(d).core != d.core
    ensures CoreEntered(d, move, ResetStep(d).core)
  {
  }

  lemma DisconnectEnters(d: Dev, move: CoreMove)
    requires Disconnecting(d.core) && DisconnectStep(d).core != d.core
    ensures CoreEntered(d, move, DisconnectStep(d).core)
  {
  }

  lemma SuspendEnters(d: Dev, move: CoreMove)
    requires InSuspend(d.core) && SuspendStep(d).core != d.core
    ensures CoreEntered(d, move, SuspendStep(d).core)
  {
  }

  lemma RestEnters(d: Dev, move: CoreMove)
    requires EnterStep(d, move).core != d.core
    ensures CoreEntered(d, move, EnterStep(d, move).core)
  {
  }

  /** The core goes through its entry points in order, and enters one only when asked to. */
  lemma CoreEnters(d: Dev, move: CoreMove)
    requires CoreStep(d, move).core != d.core
    ensures CoreEntered(d, move, CoreStep(d, move).core)
  {
    if InSuspend(d.core) {
      SuspendEnters(d, move);
    } else if Resetting(d.core) {
      ResetEnters(d, move);
    } else if Disconnecting(d.core) {
      DisconnectEnters(d, move);
    } else {
      RestEnters(d, move);
    }
  }
}
