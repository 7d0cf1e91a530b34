/** Every event keeps the invariant of USB/usbdrv3.c, so it holds after every run. */
module SkelSteps {
  import opened Bytes
  import opened Errno
  import opened SkelLog
  import opened SkelModel
  import opened SkelInvariant
  import opened SkelProof

  // ------------------------------------------------------- the byte stream

  predicate NoBytes(o: Obs) {
    !o.ReadCompleted? && !o.Copied?
  }

  /** The buffer is untouched and the log says nothing about bytes. */
  ghost predicate StreamFrame(d: Dev, d': Dev) {
    && d'.buf == d.buf && d'.filled == d.filled && d'.copied == d.copied
    && (d'.log == d.log || exists o :: NoBytes(o) && d'.log == d.log + [o])
  }

  lemma StreamFramed(d: Dev, d': Dev)
    requires StreamOk(d) && StreamFrame(d, d')
    ensures StreamOk(d')
  {
    if d'.log != d.log {
      var o :| NoBytes(o) && d'.log == d.log + [o];
      NoBytesKept(d.log, o);
    }
  }

  lemma NoBytesKept(log: seq<Obs>, o: Obs)
    requires NoBytes(o)
    ensures Payloads(log + [o]) == Payloads(log) && Consumed(log + [o]) == Consumed(log)
    ensures CopiesOk(log) ==> CopiesOk(log + [o])
  {
    ExtendStreams(log, o);
    assert Payloads(log) + [] == Payloads(log) && Consumed(log) + [] == Consumed(log);
  }

  /** A copy moves `bytes` from the front of what is pending to the end of what is consumed. */
  lemma TakeChunk(log: seq<Obs>, bytes: seq<Byte>, fault: bool, rest: seq<Byte>)
    requires Consumed(log) + (bytes + rest) == Payloads(log)
    ensures Consumed(log + [Copied(bytes, fault)]) + rest == Payloads(log + [Copied(bytes, fault)])
  {
    ExtendStreams(log, Copied(bytes, fault));
    assert Consumed(log) + (bytes + rest) == (Consumed(log) + bytes) + rest;
    assert Payloads(log) + [] == Payloads(log);
  }

  lemma BufferStream(d: Dev, c: Call, answer: Answer)
    requires c.Read? && c.rpc.RBuffer? && c.count > 0 && StreamOk(d)
    ensures StreamOk(BufferStep(d, c, answer).dev)
  {
    if 0 < d.filled && d.copied < d.filled {
      var chunk := Min(d.filled - d.copied, c.count);
      var d' := BufferStep(d, c, answer).dev;
      CopyStream(d, d', chunk, answer.Fail?);
    }
  }

  lemma CopyStream(d: Dev, d': Dev, chunk: nat, fault: bool)
    requires StreamOk(d) && 0 < chunk && d.copied + chunk <= d.filled
    requires d'.buf == d.buf && d'.filled == d.filled && d'.copied == d.copied + chunk
    requires d'.log == d.log + [Copied(d.buf[d.copied..d.copied + chunk], fault)]
    ensures StreamOk(d')
  {
    var bytes, rest := d.buf[d.copied..d.copied + chunk], d.buf[d.copied + chunk..d.filled];
    SplitPending(d, d', chunk);
    TakeChunk(d.log, bytes, fault, rest);
    NonEmptyCopies(d.log, Copied(bytes, fault));
  }

  lemma SplitPending(d: Dev, d': Dev, chunk: nat)
    requires d.copied + chunk <= d.filled <= |d.buf|
    requires d'.buf == d.buf && d'.filled == d.filled && d'.copied == d.copied + chunk
    ensures Pending(d) == d.buf[d.copied..d.copied + chunk] + d.buf[d.copied + chunk..d.filled]
    ensures Pending(d') == d.buf[d.copied + chunk..d.filled]
  {
  }

  lemma NonEmptyCopies(log: seq<Obs>, o: Obs)
    requires CopiesOk(log) && (o.Copied? ==> o.bytes != [])
    ensures CopiesOk(log + [o])
  {
  }

  lemma IoStream(d: Dev, id: nat, c: Call, answer: Answer)
    requires IsIo(c) && IoOk(d, c) && StreamOk(d)
    ensures StreamOk(IoStep(d, id, c, answer).dev)
  {
    assert Pending(IoStep(d, id, c, answer).dev) == Pending(d);
  }

  lemma ReadStreamFrame(d: Dev, id: nat, c: Call, answer: Answer)
    requires c.Read? && !c.rpc.RBuffer? && !c.rpc.RIo? && ReadStep(d, id, c, answer).Moved?
    ensures StreamFrame(d, ReadStep(d, id, c, answer).dev)
  {
    assert NoBytes(Loaded(d.errors));
    assert c.rpc.RClear? ==> NoBytes(Cleared(c.rpc.e, Report(c.rpc.e)));
  }

  lemma WriteStreamFrame(d: Dev, id: nat, c: Call, answer: Answer)
    requires c.Write? && WriteStep(d, id, c, answer).Moved?
    ensures StreamFrame(d, WriteStep(d, id, c, answer).dev)
  {
    assert NoBytes(Took(d.errors, Report(d.errors)));
  }

  lemma FlushStreamFrame(d: Dev, id: nat, c: Call)
    requires c.Flush? && FlushStep(d, id, c).Moved?
    ensures StreamFrame(d, FlushStep(d, id, c).dev)
  {
    assert NoBytes(Took(d.errors, Report(d.errors)));
  }

  lemma CallStream(d: Dev, id: nat, c: Call, answer: Answer)
    requires CallOk(d, id, c) && StreamOk(d) && CallStep(d, id, c, answer).Moved?
    ensures StreamOk(CallStep(d, id, c, answer).dev)
  {
    var d' := CallStep(d, id, c, answer).dev;
    match c
    case Read(_, _, _, pc, _) =>
      if pc.RBuffer? {
        BufferStream(d, c, answer);
      } else if pc.RIo? {
        IoStream(d, id, c, answer);
      } else {
        ReadStreamFrame(d, id, c, answer);
        StreamFramed(d, d');
      }
    case Write(_, _, _, _) =>
      WriteStreamFrame(d, id, c, answer);
      StreamFramed(d, d');
    case Flush(_, _) =>
      FlushStreamFrame(d, id, c);
      StreamFramed(d, d');
  }

  // --------------------------------------------------- permits and URBs

  function Held(c: Call): nat {
    if HasPermit(c) then 1 else 0
  }

  /** Permits in the semaphore, in the hands of URBs and in the hands of `c`. */
  function Accounted(d: Dev, c: Call): nat {
    d.permits + |d.submitted| + |d.finishing| + Held(c)
  }

  lemma SubmitMovesPermit(d: Dev, u: nat)
    requires u !in d.submitted
    ensures |d.submitted + {u}| == |d.submitted| + 1
  {
  }

  lemma EntryPermitMoves(d: Dev, id: nat, c: Call, answer: Answer)
    requires c.Write? && (WriteEntry(c.wpc) || WriteLate(c.wpc)) && WriteStep(d, id, c, answer).Moved?
    ensures
      var Moved(d', c') := WriteStep(d, id, c, answer);
      d'.permits + Held(c') == d.permits + Held(c) && d'.submitted == d.submitted && d'.finishing == d.finishing
  {
  }

  lemma SubmitPermitMoves(d: Dev, id: nat, c: Call, answer: Answer)
    requires c.Write? && !WriteEntry(c.wpc) && !WriteLate(c.wpc) && WriteStep(d, id, c, answer).Moved?
    ensures
      var Moved(d', c') := WriteStep(d, id, c, answer);
      && d'.permits == d.permits && d'.finishing == d.finishing
      && if c.wpc.WSubmit? && answer.Go? then
           d'.submitted == d.submitted + {c.wpc.urb} && Held(c) == 1 && Held(c') == 0
         else d'.submitted == d.submitted && Held(c') == Held(c)
  {
  }

  /** A step moves a permit; it neither makes nor loses one. */
  lemma PermitMoves(d: Dev, id: nat, c: Call, answer: Answer)
    requires c.Write? ==> WriteOk(d, c)
    requires CallStep(d, id, c, answer).Moved?
    ensures
      var Moved(d', c') := CallStep(d, id, c, answer);
      Accounted(d', c') == Accounted(d, c)
  {
    match c
    case Write(_, _, _, pc) =>
      if WriteEntry(pc) || WriteLate(pc) {
        EntryPermitMoves(d, id, c, answer);
      } else {
        if pc.WSubmit? {
          SubmitMovesPermit(d, pc.urb);
        }
        SubmitPermitMoves(d, id, c, answer);
      }
    case Read(_, _, _, _, _) => ReadMovesNoPermit(d, id, c, answer);
    case Flush(_, _) =>
  }

  lemma ReadMovesNoPermit(d: Dev, id: nat, c: Call, answer: Answer)
    requires c.Read? && ReadStep(d, id, c, answer).Moved?
    ensures
      var Moved(d', c') := ReadStep(d, id, c, answer);
      d'.permits == d.permits && d'.submitted == d.submitted && d'.finishing == d.finishing && c'.Read?
  {
    if c.rpc.RIo? {
      IoMovesNoPermit(d, id, c, answer);
    }
  }

  lemma IoMovesNoPermit(d: Dev, id: nat, c: Call, answer: Answer)
    requires IsIo(c)
    ensures
      var Moved(d', c') := IoStep(d, id, c, answer);
      d'.permits == d.permits && d'.submitted == d.submitted && d'.finishing == d.finishing && c'.Read?
  {
  }

  lemma HoldersAfter(calls: map<nat, Call>, id: nat, c: Call)
    ensures Holders(calls[id := c]) == Holders(calls) - {id} + (if HasPermit(c) then {id} else {})
  {
  }

  lemma HoldersUpdate(calls: map<nat, Call>, id: nat, c: Call)
    ensures |Holders(calls[id := c])| == |Holders(calls)| - (if id in calls then Held(calls[id]) else 0) + Held(c)
  {
    HoldersAfter(calls, id, c);
    assert id in Holders(calls) <==> id in calls && HasPermit(calls[id]);
    assert |Holders(calls) - {id}| == |Holders(calls)| - (if id in Holders(calls) then 1 else 0);
  }

  /** The URB a call holds after a step is the one it held, or a newly allocated one. */
  lemma UrbOrigin(d: Dev, id: nat, c: Call, answer: Answer)
    requires CallStep(d, id, c, answer).Moved?
    ensures
      var c' := CallStep(d, id, c, answer).call;
      HasUrb(c') ==> (HasUrb(c) && c'.wpc.urb == c.wpc.urb) || c'.wpc.urb == d.nextUrb
  {
  }

  lemma CallUrbs(s: State, id: nat, answer: Answer)
    requires CallsOk(s) && UrbsDistinct(s.calls) && id in s.calls && CallStep(s.dev, id, s.calls[id], answer).Moved?
    ensures UrbsDistinct(s.calls[id := CallStep(s.dev, id, s.calls[id], answer).call])
  {
    var c' := CallStep(s.dev, id, s.calls[id], answer).call;
    UrbOrigin(s.dev, id, s.calls[id], answer);
    forall j | j in s.calls && j != id && HasUrb(c') && HasUrb(s.calls[j])
      ensures c'.wpc.urb != s.calls[j].wpc.urb
    {
      assert CallOk(s.dev, j, s.calls[j]);
    }
  }

  // ------------------------------------------------------- one call's step

  /** A call without io_mutex leaves the read side of the device alone. */
  lemma OffsideFrame(d: Dev, id: nat, c: Call, answer: Answer)
    requires CallStep(d, id, c, answer).Moved?
    requires !HasMutex(c) && !HasMutex(CallStep(d, id, c, answer).call)
    ensures
      var d' := CallStep(d, id, c, answer).dev;
      && d'.mutex == d.mutex && d'.ongoing == d.ongoing && d'.readUrb == d.readUrb
      && d'.copied == d.copied && d'.filled == d.filled
  {
  }

  lemma LinksFollow(s: State, id: nat, d': Dev, c': Call)
    requires id in s.calls && LinkOk(s) && (HasMutex(s.calls[id]) <==> s.dev.mutex == ByCall(id))
    requires CallOk(d', id, c') && Linked(d', c')
    requires HasMutex(s.calls[id]) || HasMutex(c') || d'.mutex.Free?
             || (d'.mutex == s.dev.mutex && d'.ongoing == s.dev.ongoing && d'.readUrb == s.dev.readUrb
                 && d'.copied == s.dev.copied && d'.filled == s.dev.filled)
    requires HasMutex(s.calls[id]) ==> HasMutex(c') || d'.mutex.Free?
    ensures LinkOk(State(d', s.calls[id := c']))
  {
  }

  /** A call that owned io_mutex still owns it or has released it. */
  lemma MutexPassed(d: Dev, id: nat, c: Call, answer: Answer)
    requires HasMutex(c) && d.mutex == ByCall(id) && CallStep(d, id, c, answer).Moved?
    ensures
      var Moved(d', c') := CallStep(d, id, c, answer);
      HasMutex(c') || d'.mutex.Free?
  {
    if c.Read? && c.rpc.RIo? {
      IoKeepsMutex(d, id, c, answer);
    }
  }

  lemma IoKeepsMutex(d: Dev, id: nat, c: Call, answer: Answer)
    requires IsIo(c)
    ensures HasMutex(IoStep(d, id, c, answer).call) && IoStep(d, id, c, answer).dev.mutex == d.mutex
  {
  }

  lemma StepCallKept(s: State, id: nat, answer: Answer)
    requires Inv(s) && id in s.calls && Legal(answer)
    requires CallStep(s.dev, id, s.calls[id], answer).Moved?
    ensures
      var Moved(d', c') := CallStep(s.dev, id, s.calls[id], answer);
      Inv(State(d', s.calls[id := c']))
  {
    var c := s.calls[id];
    var Moved(d', c') := CallStep(s.dev, id, c, answer);
    assert CallOk(s.dev, id, c);
    CallKept(s.dev, id, c, answer);
    CallStream(s.dev, id, c, answer);
    PermitMoves(s.dev, id, c, answer);
    HoldersUpdate(s.calls, id, c');
    CallUrbs(s, id, answer);
    if HasMutex(c) {
      MutexPassed(s.dev, id, c, answer);
    } else if !HasMutex(c') {
      OffsideFrame(s.dev, id, c, answer);
    }
    LinksFollow(s, id, d', c');
    forall j | j in s.calls && j != id ensures CallOk(d', j, s.calls[j]) {
      CallKeptBeside(s.dev, id, c, answer, j, s.calls[j]);
    }
  }

  // -------------------------------------------------------------- callbacks

  lemma ReadCallbackBeside(d: Dev, status: int, data: seq<Byte>, id: nat, c: Call)
    requires DevOk(d) && CallOk(d, id, c)
    ensures CallOk(ReadCallback(d, status, data), id, c)
  {
  }

  lemma ReadCallbackStream(d: Dev, status: int, data: seq<Byte>)
    requires DevOk(d) && StreamOk(d)
    ensures StreamOk(ReadCallback(d, status, data)) && DevOk(ReadCallback(d, status, data))
  {
    var d' := ReadCallback(d, status, data);
    if d' != d {
      ExtendStreams(d.log, ReadCompleted(d.readUrb.caller, status, data));
      assert Pending(d) == [];
      assert Pending(d') == if status == 0 then data else [];
    }
  }

  lemma WriteCallbackBeside(d: Dev, urb: nat, status: int, id: nat, c: Call)
    requires DevOk(d) && CallOk(d, id, c)
    ensures CallOk(WriteCallback(d, urb, status), id, c) && CallOk(WriteCallbackUp(d, urb), id, c)
  {
  }

  lemma WriteCallbackDev(d: Dev, urb: nat, status: int)
    requires DevOk(d)
    ensures DevOk(WriteCallback(d, urb, status))
  {
  }

  lemma WriteCallbackStream(d: Dev, urb: nat, status: int)
    requires StreamOk(d)
    ensures StreamOk(WriteCallback(d, urb, status))
  {
    assert NoBytes(WriteCompleted(status));
    StreamFramed(d, WriteCallback(d, urb, status));
  }

  // --------------------------------------------------------------- the core

  lemma CoreStepCore(d: Dev, move: CoreMove)
    requires DevOk(d)
    ensures CoreOk(CoreStep(d, move))
  {
    if Resetting(d.core) {
      ResetCore(d);
    } else if Disconnecting(d.core) {
      DisconnectCore(d);
    } else {
      EnterCore(d, move);
    }
  }

  lemma ResetCore(d: Dev)
    requires DevOk(d) && Resetting(d.core)
    ensures CoreOk(ResetStep(d))
  {
  }

  lemma EnterCore(d: Dev, move: CoreMove)
    requires DevOk(d) && !Resetting(d.core) && !Disconnecting(d.core)
    ensures CoreOk(CoreStep(d, move))
  {
  }

  lemma DisconnectCore(d: Dev)
    requires DevOk(d) && Disconnecting(d.core)
    ensures CoreOk(DisconnectStep(d))
  {
  }

  /** What the core does not touch. */
  predicate CoreLeaves(d: Dev, d': Dev) {
    && d'.permits == d.permits && d'.anchored == d.anchored
    && d'.submitted == d.submitted && d'.finishing == d.finishing
    && d'.nextUrb == d.nextUrb && d'.ongoing == d.ongoing && d'.readUrb == d.readUrb && d'.wakers == d.wakers
    && d'.buf == d.buf && d'.copied == d.copied && d'.filled == d.filled
    && (d'.errors == d.errors || d'.errors == EPIPE)
    && (d'.mutex == d.mutex || d.mutex.Free? || CoreHasMutex(d.core))
    && (d'.log == d.log || d'.log == d.log + [ResetMarked])
  }

  lemma CoreFrame(d: Dev, move: CoreMove)
    ensures CoreLeaves(d, CoreStep(d, move))
  {
    if Resetting(d.core) {
      ResetFrame(d);
    } else if Disconnecting(d.core) {
      DisconnectFrame(d);
    } else {
      EnterFrame(d, move);
    }
  }

  lemma EnterFrame(d: Dev, move: CoreMove)
    requires !Resetting(d.core) && !Disconnecting(d.core)
    ensures CoreLeaves(d, CoreStep(d, move))
  {
  }

  lemma ResetFrame(d: Dev)
    requires Resetting(d.core)
    ensures CoreLeaves(d, ResetStep(d))
  {
  }

  lemma DisconnectFrame(d: Dev)
    requires Disconnecting(d.core)
    ensures CoreLeaves(d, DisconnectStep(d))
  {
  }

  /** The binding's reference is dropped exactly on the way to Gone. */
  lemma CoreRefs(d: Dev, move: CoreMove)
    requires RefsOk(d)
    ensures RefsOk(CoreStep(d, move))
  {
    if Resetting(d.core) {
      ResetRefs(d);
    } else if Disconnecting(d.core) {
      DisconnectRefs(d);
    }
  }

  lemma ResetRefs(d: Dev)
    requires RefsOk(d) && Resetting(d.core)
    ensures RefsOk(ResetStep(d))
  {
  }

  lemma DisconnectRefs(d: Dev)
    requires RefsOk(d) && Disconnecting(d.core)
    ensures RefsOk(DisconnectStep(d))
  {
  }

  lemma CoreUrbs(d: Dev, d': Dev)
    requires UrbsOk(d) && CoreLeaves(d, d')
    ensures UrbsOk(d')
  {
  }

  lemma CoreBeside(d: Dev, move: CoreMove, id: nat, c: Call)
    requires CoreOk(d) && CallOk(d, id, c)
    ensures CallOk(CoreStep(d, move), id, c)
  {
    if Resetting(d.core) {
      ResetBeside(d, id, c);
    } else if Disconnecting(d.core) {
      DisconnectBeside(d, id, c);
    } else if InSuspend(d.core) {
      SuspendBeside(d, id, c);
    } else {
      EnterBeside(d, move, id, c);
    }
  }

  lemma SuspendBeside(d: Dev, id: nat, c: Call)
    requires CallOk(d, id, c)
    ensures CallOk(SuspendStep(d), id, c)
  {
  }

  lemma EnterBeside(d: Dev, move: CoreMove, id: nat, c: Call)
    requires CallOk(d, id, c)
    ensures CallOk(EnterStep(d, move), id, c)
  {
  }

  lemma ResetBeside(d: Dev, id: nat, c: Call)
    requires CoreOk(d) && CallOk(d, id, c) && Resetting(d.core)
    ensures CallOk(ResetStep(d), id, c)
  {
  }

  lemma DisconnectBeside(d: Dev, id: nat, c: Call)
    requires CoreOk(d) && CallOk(d, id, c) && Disconnecting(d.core)
    ensures CallOk(DisconnectStep(d), id, c)
  {
  }

  lemma CoreStream(d: Dev, d': Dev)
    requires StreamOk(d) && CoreLeaves(d, d')
    ensures StreamOk(d')
  {
    assert NoBytes(ResetMarked);
    StreamFramed(d, d');
  }

  lemma CoreLinks(s: State, d': Dev)
    requires LinkOk(s) && CoreLeaves(s.dev, d') && (CoreHasMutex(s.dev.core) <==> s.dev.mutex == ByCore)
    requires d'.mutex.ByCall? ==> d'.mutex == s.dev.mutex
    ensures LinkOk(s.(dev := d'))
  {
  }

  lemma CoreMutex(d: Dev, move: CoreMove)
    ensures var d' := CoreStep(d, move); d'.mutex.ByCall? ==> d'.mutex == d.mutex
  {
    if Resetting(d.core) {
      ResetMutex(d);
    } else if Disconnecting(d.core) {
      DisconnectMutex(d);
    }
  }

  lemma ResetMutex(d: Dev)
    requires Resetting(d.core)
    ensures var d' := ResetStep(d); d'.mutex.ByCall? ==> d'.mutex == d.mutex
  {
  }

  lemma DisconnectMutex(d: Dev)
    requires Disconnecting(d.core)
    ensures var d' := DisconnectStep(d); d'.mutex.ByCall? ==> d'.mutex == d.mutex
  {
  }

  lemma CoreKept(s: State, move: CoreMove)
    requires Inv(s)
    ensures Inv(s.(dev := CoreStep(s.dev, move)))
  {
    var d' := CoreStep(s.dev, move);
    CoreStepCore(s.dev, move);
    CoreFrame(s.dev, move);
    CoreRefs(s.dev, move);
    CoreUrbs(s.dev, d');
    CoreStream(s.dev, d');
    CoreMutex(s.dev, move);
    CoreLinks(s, d');
    forall id | id in s.calls ensures CallOk(d', id, s.calls[id]) {
      CoreBeside(s.dev, move, id, s.calls[id]);
    }
  }

  // ------------------------------------------------- open files and calls

  lemma OpenDev(d: Dev, f: nat)
    requires DevOk(d) && Registered(d.core) && !Autosuspending(d.core) && f !in d.files
    ensures DevOk(d.(kref := d.kref + 1, files := d.files + {f}))
  {
  }

  lemma ReleaseDev(d: Dev, f: nat)
    requires DevOk(d) && f in d.files
    ensures DevOk(Put(d).(files := d.files - {f}))
  {
  }

  lemma FilesBeside(d: Dev, files: set<nat>, id: nat, c: Call, d': Dev)
    requires CallOk(d, id, c) && c.file in files
    requires d' == d.(kref := d'.kref, deletes := d'.deletes, files := files)
    ensures CallOk(d', id, c)
  {
  }

  lemma FilesKept(s: State, e: Event)
    requires Inv(s) && (e.OpenFile? || e.ReleaseFile?)
    ensures Inv(Step(s, e))
  {
    var s' := Step(s, e);
    if s' != s {
      if e.OpenFile? {
        OpenDev(s.dev, e.file);
      } else {
        ReleaseDev(s.dev, e.file);
      }
      forall id | id in s.calls ensures CallOk(s'.dev, id, s.calls[id]) {
        FilesBeside(s.dev, s'.dev.files, id, s.calls[id], s'.dev);
      }
    }
  }

  /** A call that has not touched the device yet. */
  predicate Fresh(c: Call) {
    match c
    case Read(_, n, _, pc, t) => t == Turns(0, 0, 0) && pc == if n == 0 then RDone(0) else RLock
    case Write(_, n, _, pc) => pc == if n == 0 then WDone(0) else WDown
    case Flush(_, pc) => pc == FLock
  }

  lemma FreshOk(d: Dev, c: Call)
    requires Fresh(c) && c.file in d.files && d.mutex != ByCall(d.nextCall)
    ensures CallOk(d.(nextCall := d.nextCall + 1), d.nextCall, c)
  {
  }

  lemma LaterOk(d: Dev, id: nat, c: Call)
    requires CallOk(d, id, c)
    ensures CallOk(d.(nextCall := d.nextCall + 1), id, c)
  {
  }

  lemma UrblessDistinct(calls: map<nat, Call>, id: nat, c: Call)
    requires UrbsDistinct(calls) && !HasUrb(c)
    ensures UrbsDistinct(calls[id := c])
  {
  }

  /** The next call's number is not in use. */
  lemma NextCallFree(s: State)
    requires CallsOk(s) && LinkOk(s)
    ensures s.dev.nextCall !in s.calls && s.dev.mutex != ByCall(s.dev.nextCall)
  {
    assert forall id :: id in s.calls ==> CallOk(s.dev, id, s.calls[id]) && id < s.dev.nextCall;
  }

  lemma BeginCalls(s: State, c: Call)
    requires CallsOk(s) && LinkOk(s) && Fresh(c) && c.file in s.dev.files
    ensures CallsOk(Begin(s, c))
  {
    var id := s.dev.nextCall;
    NextCallFree(s);
    FreshOk(s.dev, c);
    forall j | j in s.calls ensures CallOk(s.dev.(nextCall := id + 1), j, s.calls[j]) {
      LaterOk(s.dev, j, s.calls[j]);
    }
  }

  lemma BeginLinks(s: State, c: Call)
    requires LinkOk(s) && s.dev.nextCall !in s.calls
    ensures LinkOk(Begin(s, c))
  {
  }

  lemma BeginPermits(s: State, c: Call)
    requires PermitsOk(s) && Fresh(c) && s.dev.nextCall !in s.calls
    ensures PermitsOk(Begin(s, c))
  {
    HoldersUpdate(s.calls, s.dev.nextCall, c);
  }

  lemma BeginKept(s: State, c: Call)
    requires Inv(s) && Fresh(c)
    ensures Inv(Begin(s, c))
  {
    NextCallFree(s);
    BeginLinks(s, c);
    BeginPermits(s, c);
    if c.file in s.dev.files {
      UrblessDistinct(s.calls, s.dev.nextCall, c);
      BeginCalls(s, c);
    }
  }

  lemma FinishKept(s: State, id: nat)
    requires Inv(s)
    ensures Inv(Step(s, FinishCall(id)))
  {
    if id in s.calls && Finished(s.calls[id]) {
      assert CallOk(s.dev, id, s.calls[id]);
      assert Holders(s.calls - {id}) == Holders(s.calls);
    }
  }

  // ------------------------------------------------------------- every run

  lemma CompleteReadKept(s: State, status: int, data: seq<Byte>)
    requires Inv(s)
    ensures Inv(s.(dev := ReadCallback(s.dev, status, data)))
  {
    ReadCallbackStream(s.dev, status, data);
    forall id | id in s.calls ensures CallOk(ReadCallback(s.dev, status, data), id, s.calls[id]) {
      ReadCallbackBeside(s.dev, status, data, id, s.calls[id]);
    }
  }

  /** The URB keeps its permit from flight to the end of its callback. */
  lemma CompleteWritePermits(s: State, urb: nat, status: int)
    requires PermitsOk(s) && UrbsOk(s.dev)
    ensures PermitsOk(s.(dev := WriteCallback(s.dev, urb, status)))
  {
    if urb in s.dev.submitted {
      assert |s.dev.submitted - {urb}| == |s.dev.submitted| - 1;
      assert |s.dev.finishing + {urb}| == |s.dev.finishing| + 1;
    }
  }

  lemma CompleteWriteCalls(s: State, urb: nat, status: int)
    requires DevOk(s.dev) && CallsOk(s)
    ensures CallsOk(s.(dev := WriteCallback(s.dev, urb, status)))
  {
    forall id | id in s.calls ensures CallOk(WriteCallback(s.dev, urb, status), id, s.calls[id]) {
      WriteCallbackBeside(s.dev, urb, status, id, s.calls[id]);
    }
  }

  lemma CompleteWriteKept(s: State, urb: nat, status: int)
    requires Inv(s)
    ensures Inv(s.(dev := WriteCallback(s.dev, urb, status)))
  {
    WriteCallbackDev(s.dev, urb, status);
    WriteCallbackStream(s.dev, urb, status);
    CompleteWriteCalls(s, urb, status);
    CompleteWritePermits(s, urb, status);
  }

  lemma ReadReleased(d: Dev)
    requires DevOk(d) && StreamOk(d)
    ensures DevOk(ReadCallbackUp(d)) && StreamOk(ReadCallbackUp(d))
  {
  }

  lemma ReleaseReadKept(s: State)
    requires Inv(s)
    ensures Inv(s.(dev := ReadCallbackUp(s.dev)))
  {
    ReadReleased(s.dev);
    forall id | id in s.calls ensures CallOk(ReadCallbackUp(s.dev), id, s.calls[id]) {
      ReleaseReadBeside(s.dev, id, s.calls[id]);
    }
  }

  lemma ReleaseReadBeside(d: Dev, id: nat, c: Call)
    requires CallOk(d, id, c)
    ensures CallOk(ReadCallbackUp(d), id, c)
  {
  }

  lemma ReleaseWriteKept(s: State, urb: nat)
    requires Inv(s)
    ensures Inv(s.(dev := WriteCallbackUp(s.dev, urb)))
  {
    forall id | id in s.calls ensures CallOk(WriteCallbackUp(s.dev, urb), id, s.calls[id]) {
      WriteCallbackBeside(s.dev, urb, 0, id, s.calls[id]);
    }
  }

  lemma CallbackKept(s: State, e: Event)
    requires Inv(s) && IsCallback(e)
    ensures Inv(s.(dev := CallbackDev(s.dev, e)))
  {
    match e
    case CompleteRead(status, data) => CompleteReadKept(s, status, data);
    case ReleaseRead => ReleaseReadKept(s);
    case CompleteWrite(urb, status) => CompleteWriteKept(s, urb, status);
    case ReleaseWrite(urb) => ReleaseWriteKept(s, urb);
  }

  lemma StartKept(s: State, e: Event)
    requires Inv(s) && Starts(e)
    ensures Inv(Step(s, e))
  {
    assert Step(s, e) == Begin(s, NewCall(e));
    BeginKept(s, NewCall(e));
  }

  lemma StepKept(s: State, e: Event)
    requires Inv(s)
    ensures Inv(Step(s, e))
  {
    if Starts(e) {
      StartKept(s, e);
    } else if IsCallback(e) {
      assert Step(s, e) == s.(dev := CallbackDev(s.dev, e));
      CallbackKept(s, e);
    } else if e.OpenFile? || e.ReleaseFile? {
      FilesKept(s, e);
    } else {
      TaskKept(s, e);
    }
  }

  lemma TaskKept(s: State, e: Event)
    requires Inv(s) && (e.StepCall? || e.FinishCall? || e.StepCore?)
    ensures Inv(Step(s, e))
  {
    if e.StepCall? {
      if e.id in s.calls && Legal(e.answer) {
        assert Step(s, e) == CallMoves(s, e.id, e.answer);
        if CallStep(s.dev, e.id, s.calls[e.id], e.answer).Moved? {
          StepCallKept(s, e.id, e.answer);
        }
      }
    } else if e.StepCore? {
      assert Step(s, e) == s.(dev := CoreStep(s.dev, e.move));
      CoreKept(s, e.move);
    } else {
      FinishKept(s, e.id);
    }
  }

  /** The invariant holds after every sequence of events. */
  lemma {:induction false} InvHolds(buffer: seq<Byte>, es: seq<Event>)
    ensures Inv(Exec(buffer, es))
    decreases |es|
  {
    if es != [] {
      InvHolds(buffer, es[..|es| - 1]);
      StepKept(Exec(buffer, es[..|es| - 1]), es[|es| - 1]);
    }
  }
}
