/** The inductive invariant of the driver of USB/usbdrv3.c. */
module SkelInvariant {
  import opened Bytes
  import opened Errno
  import opened SkelLog
  import opened SkelModel

  // ------------------------------------------------ classes of positions

  /** The call owns io_mutex. */
  predicate HasMutex(c: Call) {
    match c
    case Read(_, _, _, pc, _) => !pc.RLock? && !pc.RDone?
    case Write(_, _, _, pc) => pc.WCheck? || pc.WAnchor? || pc.WSubmit? || pc.WUnlock? || pc.WUnlockFailed?
    case Flush(_, pc) => !pc.FLock? && !pc.FDone?
  }

  predicate CoreHasMutex(core: CorePc) {
    core.PreResetWrites? || core.PreResetRead? || core.InReset? || core.PostResetUnlock?
    || core.DiscMark? || core.DiscUnlock?
  }

  /** The call has taken a write permit that it or its URB must give back. */
  predicate HasPermit(c: Call) {
    c.Write? && !c.wpc.WDown? && !c.wpc.WUnlock? && !c.wpc.WDone?
  }

  /** The call holds a write URB that it has not submitted. */
  predicate HasUrb(c: Call) {
    c.Write? && (c.wpc.WBuffer? || c.wpc.WLock? || c.wpc.WCheck? || c.wpc.WAnchor? || c.wpc.WSubmit?
                 || c.wpc.WUnlockFailed? || c.wpc.WUnanchor?)
  }

  predicate IsIo(c: Call) {
    c.Read? && c.rpc.RIo?
  }

  /** Inside skel_do_read_io, after line 194. */
  predicate IoBusy(c: Call) {
    IsIo(c) && !c.rpc.io.IoMark?
  }

  /** Between lines 198 and 199. */
  predicate IoTorn(c: Call) {
    IsIo(c) && c.rpc.io.IoCopied?
  }

  /** The call has read the latch and not yet cleared it. */
  predicate IsClearing(c: Call) {
    c.Read? && c.rpc.RClear?
  }

  /** The reader is past its disconnected test. */
  predicate PastCheck(pc: ReadPc) {
    pc.RRetry? || pc.RWait? || pc.RErrors? || pc.RClear? || pc.RBuffer? || pc.RIo?
  }

  // ---------------------------------------------------------- call by call

  predicate ReadResult(d: Dev, c: Call, rv: int)
    requires c.Read?
  {
    if c.count == 0 then rv == 0 else rv < 0 || 1 <= rv <= Min(c.count, |d.buf|)
  }

  predicate IoOk(d: Dev, c: Call)
    requires IsIo(c)
  {
    var io := c.rpc.io;
    && c.rpc.want > 0
    && (c.rpc.after.Again? ==> c.rpc.want == c.count)
    && (c.rpc.after.Return? ==> ReadResult(d, c, c.rpc.after.rv) && c.rpc.want < c.count)
    && (c.rpc.after.Return? && c.rpc.after.rv > 0 ==> c.rpc.want == c.count - c.rpc.after.rv)
    && (io.IoMark? ==> !d.ongoing && d.copied == d.filled)
    && (io.IoFilled? ==> d.copied == d.filled)
    && (!io.IoMark? ==> d.ongoing && d.readUrb.Idle?)
    && (!io.IoMark? && !io.IoFilled? ==> d.filled == 0)
    && (io.IoSubmit? || io.IoFail? ==> d.copied == 0)
    && (io.IoFail? ==> io.err < 0)
  }

  predicate ReadOk(d: Dev, c: Call)
    requires c.Read?
  {
    && (c.count == 0 ==> c.rpc == RDone(0))
    && (PastCheck(c.rpc) ==> !d.disconnected)
    && (c.rpc.RWait? ==> !c.nonblock)
    && (c.rpc.RErrors? || c.rpc.RClear? || c.rpc.RBuffer? ==> !d.ongoing)
    && (c.rpc.RExit? || c.rpc.RDone? ==> ReadResult(d, c, c.rpc.rv))
    && (c.rpc.RClear? ==> c.rpc.e < 0)
    && (c.rpc.RIo? ==> IoOk(d, c))
  }

  predicate WriteOk(d: Dev, c: Call)
    requires c.Write?
  {
    var pc := c.wpc;
    && (c.count == 0 ==> pc == WDone(0))
    && (HasUrb(c) ==> pc.urb < d.nextUrb && pc.urb !in d.submitted && pc.urb !in d.finishing)
    && (pc.WAnchor? || pc.WSubmit? ==> !d.disconnected)
    && (pc.WSubmit? ==> pc.urb in d.anchored)
    && (pc.WUnlockFailed? || pc.WUnanchor? ==> pc.err < 0)
    && (pc.WUp? ==> pc.rv < 0)
    && (pc.WDone? ==> pc.rv < 0 || pc.rv == Min(c.count, MAX_TRANSFER))
  }

  predicate NoWrites(d: Dev) {
    d.submitted == {} && d.finishing == {}
  }

  /** No URB of this device is in flight and none of its callbacks is running. */
  predicate Quiet(d: Dev) {
    NoWrites(d) && ReadKilled(d)
  }

  predicate FlushOk(d: Dev, c: Call)
    requires c.Flush?
  {
    && (c.fpc.FRead? ==> NoWrites(d))
    && (c.fpc.FErrors? || c.fpc.FUnlock? ==> Quiet(d))
    && (c.fpc.FUnlock? || c.fpc.FDone? ==> c.fpc.rv in {0, EPIPE, EIO})
  }

  predicate CallOk(d: Dev, id: nat, c: Call) {
    && c.file in d.files
    && id < d.nextCall
    && (HasMutex(c) <==> d.mutex == ByCall(id))
    && (c.Read? ==> ReadOk(d, c))
    && (c.Write? ==> WriteOk(d, c))
    && (c.Flush? ==> FlushOk(d, c))
  }

  // ------------------------------------------------------------- the device

  /** skel_disconnect is past line 566 and not over. */
  predicate Marked(core: CorePc) {
    core.DiscUnlock? || core.DiscKillRead? || core.DiscKillWrites? || core.DiscPut?
  }

  predicate CoreOk(d: Dev) {
    && (CoreHasMutex(d.core) <==> d.mutex == ByCore)
    && (d.core.Probing? ==> d.files == {} && Quiet(d))
    && (d.core.PreResetRead? ==> NoWrites(d))
    && (d.core.InReset? || d.core.PostResetUnlock? ==> Quiet(d))
    && (d.disconnected ==> Marked(d.core) || d.core.Gone?)
    && (Marked(d.core) ==> d.disconnected)
    && (d.core.Gone? ==> d.disconnected || d.files == {})
    && (d.core.DiscKillWrites? ==> ReadKilled(d))
    && (Autosuspending(d.core) ==> d.files == {} && (d.core.SuspendRead? ==> NoWrites(d)))
    && (d.core.DiscPut? || d.core.Gone? ==> Quiet(d))
  }

  /** Reference count: one for the binding and one per open file; deleted once none is left. */
  predicate RefsOk(d: Dev) {
    && d.kref == |d.files| + (if d.core.Gone? then 0 else 1)
    && d.deletes == (if d.kref == 0 then 1 else 0)
  }

  predicate UrbsOk(d: Dev) {
    && d.submitted <= d.anchored
    && d.submitted !! d.finishing
    && (forall u :: u in d.submitted ==> u < d.nextUrb)
    && (forall u :: u in d.finishing ==> u < d.nextUrb)
    && d.filled <= |d.buf| && d.copied <= |d.buf|
    && d.errors <= 0
    && (d.readUrb.InFlight? ==>
          && d.ongoing && d.filled == 0 && d.copied == 0
          && d.readUrb.len <= |d.buf| && (d.buf != [] ==> d.readUrb.len > 0))
  }

  function Pending(d: Dev): seq<Byte>
    requires d.filled <= |d.buf|
  {
    if d.copied <= d.filled then d.buf[d.copied..d.filled] else []
  }

  predicate StreamOk(d: Dev) {
    d.filled <= |d.buf| && Consumed(d.log) + Pending(d) == Payloads(d.log) && CopiesOk(d.log)
  }

  predicate DevOk(d: Dev) {
    CoreOk(d) && RefsOk(d) && UrbsOk(d)
  }

  // -------------------------------------------- device and calls together

  /** io_mutex is owned by a call that exists. */
  predicate Owned(s: State) {
    s.dev.mutex.ByCall? && s.dev.mutex.id in s.calls
  }

  predicate LinkOk(s: State) {
    && (s.dev.mutex.ByCall? ==> Owned(s))
    && (s.dev.ongoing && s.dev.readUrb.Idle? ==> Owned(s) && IoBusy(s.calls[s.dev.mutex.id]))
    && (s.dev.copied > s.dev.filled ==> Owned(s) && IoTorn(s.calls[s.dev.mutex.id]))
  }

  ghost predicate CallsOk(s: State) {
    forall id :: id in s.calls ==> CallOk(s.dev, id, s.calls[id])
  }

  /** No two calls hold the same unsubmitted URB. */
  ghost predicate UrbsDistinct(calls: map<nat, Call>) {
    forall i, j :: i in calls && j in calls && i != j && HasUrb(calls[i]) && HasUrb(calls[j])
      ==> calls[i].wpc.urb != calls[j].wpc.urb
  }

  function Holders(calls: map<nat, Call>): set<nat> {
    set id | id in calls && HasPermit(calls[id])
  }

  predicate PermitsOk(s: State) {
    s.dev.permits + |Holders(s.calls)| + |s.dev.submitted| + |s.dev.finishing| == WRITES_IN_FLIGHT
  }

  ghost predicate Inv(s: State) {
    DevOk(s.dev) && StreamOk(s.dev) && CallsOk(s) && LinkOk(s) && UrbsDistinct(s.calls) && PermitsOk(s)
  }

  // ------------------------------------------------------ the error latch

  ghost predicate LedgerOk(s: State) {
    var l := LedgerOf(s.dev.log);
    && HonestLog(s.dev.log)
    && l.value == s.dev.errors
    && (l.loaded != 0 ==> Owned(s) && IsClearing(s.calls[s.dev.mutex.id]))
    && (forall id :: id in s.calls && IsClearing(s.calls[id]) ==> l.loaded == s.calls[id].rpc.e)
  }
}
