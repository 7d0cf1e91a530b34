/**
 The asynchronous bulk driver of USB/usbdrv3.c as a labelled transition system.

 One device object is shared by any number of read, write and flush calls, by the
 completion callbacks of its URBs and by the USB core (probe, suspend, reset,
 disconnect).  Every call carries a program counter; one step is one lock section,
 one kernel call or one unlocked access of a shared field.
 */
module SkelModel {
  import opened Bytes
  import opened Errno
  import opened SkelLog

  const WRITES_IN_FLIGHT := 8
  const MAX_TRANSFER := 4096 - 512

  // ----------------------------------------------------------------- state

  datatype Owner = Free | ByCall(id: nat) | ByCore

  /** Where the USB core is with this device; it runs these entry points one at a time. */
  datatype CorePc =
    | Probing
    | Bound
    | SuspendWrites(asleep: bool) | SuspendRead(asleep: bool)
    | PreResetLock | PreResetWrites | PreResetRead | InReset | PostResetUnlock
    | DiscLock | DiscMark | DiscUnlock | DiscKillRead | DiscKillWrites | DiscPut
    | Gone

  datatype ReadUrb = Idle | InFlight(len: nat, caller: nat)

  /** The fields of `struct usb_skel` plus what the kernel holds for the device. */
  datatype Dev = Dev(
    buf: seq<Byte>, filled: nat, copied: nat,
    errors: int, ongoing: bool, disconnected: bool,
    mutex: Owner, permits: nat, kref: int, deletes: nat,
    core: CorePc, files: set<nat>,
    readUrb: ReadUrb, wakers: nat,
    anchored: set<nat>, submitted: set<nat>, finishing: set<nat>,
    nextUrb: nat, nextCall: nat,
    log: seq<Obs>)

  datatype After = Again | Return(rv: int)

  datatype IoPc = IoMark | IoFilled | IoCopied | IoSubmit | IoFail(err: int)

  datatype ReadPc =
    | RLock | RCheck | RRetry | RWait | RErrors | RClear(e: int) | RBuffer
    | RIo(io: IoPc, want: nat, after: After)
    | RExit(rv: int) | RDone(rv: int)

  datatype WritePc =
    | WDown | WErrors | WAlloc
    | WBuffer(urb: nat) | WLock(urb: nat) | WCheck(urb: nat) | WAnchor(urb: nat) | WSubmit(urb: nat)
    | WUnlock | WUnlockFailed(urb: nat, err: int) | WUnanchor(urb: nat, err: int)
    | WUp(rv: int) | WDone(rv: int)

  datatype FlushPc = FLock | FWrites | FRead | FErrors | FUnlock(rv: int) | FDone(rv: int)

  /**
   How often a read has passed `retry`, and why it started its transfers after the first: its last
   one had come back empty, or had failed.
   */
  datatype Turns = Turns(passes: nat, answered: nat, restarts: nat)

  datatype Call =
    | Read(file: nat, count: nat, nonblock: bool, rpc: ReadPc, turns: Turns)
    | Write(file: nat, count: nat, nonblock: bool, wpc: WritePc)
    | Flush(file: nat, fpc: FlushPc)

  datatype State = State(dev: Dev, calls: map<nat, Call>)

  // ---------------------------------------------------------------- events

  /** How the environment answers a step: it succeeds, or it fails with a code. */
  datatype Answer = Go | Fail(code: int)

  predicate Legal(answer: Answer) {
    answer.Go? || answer.code < 0
  }

  datatype CoreMove = Advance | ProbeFails | Autosuspend | Sleep | Reset | Disconnect

  datatype Event =
    | OpenFile(file: nat)
    | ReleaseFile(file: nat)
    | StartRead(file: nat, count: nat, nonblock: bool)
    | StartWrite(file: nat, count: nat, nonblock: bool)
    | StartFlush(file: nat)
    | StepCall(id: nat, answer: Answer)
    | FinishCall(id: nat)
    | CompleteRead(status: int, data: seq<Byte>)
    | ReleaseRead
    | CompleteWrite(urb: nat, status: int)
    | ReleaseWrite(urb: nat)
    | StepCore(move: CoreMove)

  datatype Move = Blocked | Moved(dev: Dev, call: Call)

  /** The code a latched error is reported as (lines 143, 265, 388). */
  function Report(e: int): int {
    if e == EPIPE then EPIPE else EIO
  }

  /** usb_wait_anchor_empty_timeout and usb_kill_anchored_urbs have returned. */
  predicate Drained(d: Dev) {
    d.anchored == {} && d.finishing == {}
  }

  /** usb_kill_urb has returned for the read URB. */
  predicate ReadKilled(d: Dev) {
    d.readUrb.Idle? && d.wakers == 0
  }

  // ----------------------------------------------------------- skel_read

  function NextTurn(t: Turns, log: seq<Obs>, id: nat): Turns {
    Turns(t.passes + 1,
          t.answered + (if LastEmpty(log, id) then 1 else 0),
          t.restarts + (if LastFailed(log, id) then 1 else 0))
  }

  /** skel_do_read_io, lines 179-214. */
  function IoStep(d: Dev, id: nat, c: Call, answer: Answer): Move
    requires c.Read? && c.rpc.RIo?
  {
    var RIo(io, want, after) := c.rpc;
    match io
    case IoMark =>
      Moved(d.(ongoing := true), c.(rpc := RIo(IoFilled, want, after)))
    case IoFilled =>
      Moved(d.(filled := 0), c.(rpc := RIo(IoCopied, want, after)))
    case IoCopied =>
      Moved(d.(copied := 0), c.(rpc := RIo(IoSubmit, want, after)))
    case IoSubmit =>
      if answer.Go? then
        Moved(d.(readUrb := InFlight(Min(|d.buf|, want), id)),
              match after
              case Again => c.(rpc := RRetry, turns := NextTurn(c.turns, d.log, id))
              case Return(rv) => c.(rpc := RExit(rv)))
      else
        Moved(d, c.(rpc := RIo(IoFail(if answer.code == ENOMEM then ENOMEM else EIO), want, after)))
    case IoFail(err) =>
      Moved(d.(ongoing := false), c.(rpc := RExit(if after.Again? then err else after.rv)))
  }

  /**
   Lines 275-318: satisfy the read from the buffer, or start a transfer.  The second test is
   line 280's `!available`; SkelInvariant shows `copied <= filled <= |buf|` here, so it never
   holds for another reason.
   */
  function BufferStep(d: Dev, c: Call, answer: Answer): Move
    requires c.Read? && c.rpc.RBuffer?
  {
    if d.filled == 0 then
      Moved(d, c.(rpc := RIo(IoMark, c.count, Again)))
    else if d.copied >= d.filled || d.filled > |d.buf| then
      Moved(d, c.(rpc := RIo(IoMark, c.count, Again)))
    else
      var available := d.filled - d.copied;
      var chunk := Min(available, c.count);
      var rv := if answer.Go? then chunk else EFAULT;
      var bytes := d.buf[d.copied..d.copied + chunk];
      var d' := d.(copied := d.copied + chunk, log := d.log + [Copied(bytes, answer.Fail?)]);
      Moved(d', c.(rpc := if available < c.count then RIo(IoMark, c.count - chunk, Return(rv)) else RExit(rv)))
  }

  /** skel_read, lines 216-322. */
  function ReadStep(d: Dev, id: nat, c: Call, answer: Answer): Move
    requires c.Read?
  {
    match c.rpc
    case RLock =>
      if answer.Fail? then Moved(d, c.(rpc := RDone(EINTR)))
      else if d.mutex.Free? then Moved(d.(mutex := ByCall(id)), c.(rpc := RCheck))
      else Blocked
    case RCheck =>
      if d.disconnected then Moved(d, c.(rpc := RExit(ENODEV)))
      else Moved(d, c.(rpc := RRetry, turns := Turns(1, 0, 0)))
    case RRetry =>
      if !d.ongoing then Moved(d, c.(rpc := RErrors))
      else if c.nonblock then Moved(d, c.(rpc := RExit(EAGAIN)))
      else Moved(d, c.(rpc := RWait))
    case RWait =>
      if answer.Fail? then Moved(d, c.(rpc := RExit(ERESTARTSYS)))
      else if !d.ongoing then Moved(d, c.(rpc := RErrors))
      else Blocked
    case RErrors =>
      if d.errors < 0 then Moved(d.(log := d.log + [Loaded(d.errors)]), c.(rpc := RClear(d.errors)))
      else Moved(d, c.(rpc := RBuffer))
    case RClear(e) =>
      Moved(d.(errors := 0, log := d.log + [Cleared(e, Report(e))]), c.(rpc := RExit(Report(e))))
    case RBuffer => BufferStep(d, c, answer)
    case RIo(_, _, _) => IoStep(d, id, c, answer)
    case RExit(rv) => Moved(d.(mutex := Free), c.(rpc := RDone(rv)))
    case RDone(_) => Blocked
  }

  // ---------------------------------------------------------- skel_write

  /** skel_write, lines 351-458. */
  function WriteStep(d: Dev, id: nat, c: Call, answer: Answer): Move
    requires c.Write?
  {
    match c.wpc
    case WDown =>
      if !c.nonblock && answer.Fail? then Moved(d, c.(wpc := WDone(ERESTARTSYS)))
      else if d.permits > 0 then Moved(d.(permits := d.permits - 1), c.(wpc := WErrors))
      else if c.nonblock then Moved(d, c.(wpc := WDone(EAGAIN)))
      else Blocked
    case WErrors =>
      if d.errors < 0 then
        var rv := Report(d.errors);
        Moved(d.(errors := 0, log := d.log + [Took(d.errors, rv)]), c.(wpc := WUp(rv)))
      else Moved(d, c.(wpc := WAlloc))
    case WAlloc =>
      if answer.Go? then Moved(d.(nextUrb := d.nextUrb + 1), c.(wpc := WBuffer(d.nextUrb)))
      else Moved(d, c.(wpc := WUp(ENOMEM)))
    case WBuffer(u) =>
      if answer.Go? then Moved(d, c.(wpc := WLock(u)))
      else Moved(d, c.(wpc := WUp(if answer.code == ENOMEM then ENOMEM else EFAULT)))
    case WLock(u) =>
      if d.mutex.Free? then Moved(d.(mutex := ByCall(id)), c.(wpc := WCheck(u))) else Blocked
    case WCheck(u) =>
      if d.disconnected then Moved(d.(mutex := Free), c.(wpc := WUp(ENODEV)))
      else Moved(d, c.(wpc := WAnchor(u)))
    case WAnchor(u) =>
      Moved(d.(anchored := d.anchored + {u}), c.(wpc := WSubmit(u)))
    case WSubmit(u) =>
      if answer.Go? then Moved(d.(submitted := d.submitted + {u}), c.(wpc := WUnlock))
      else Moved(d, c.(wpc := WUnlockFailed(u, if answer.code < 0 then answer.code else EIO)))
    case WUnlock =>
      Moved(d.(mutex := Free), c.(wpc := WDone(Min(c.count, MAX_TRANSFER))))
    case WUnlockFailed(u, err) =>
      Moved(d.(mutex := Free), c.(wpc := WUnanchor(u, err)))
    case WUnanchor(u, err) =>
      Moved(d.(anchored := d.anchored - {u}), c.(wpc := WUp(err)))
    case WUp(rv) =>
      Moved(d.(permits := d.permits + 1), c.(wpc := WDone(rv)))
    case WDone(_) => Blocked
  }

  // ---------------------------------------------------------- skel_flush

  /** skel_flush and skel_draw_down, lines 128-150 and 578-586. */
  function FlushStep(d: Dev, id: nat, c: Call): Move
    requires c.Flush?
  {
    match c.fpc
    case FLock =>
      if d.mutex.Free? then Moved(d.(mutex := ByCall(id)), c.(fpc := FWrites)) else Blocked
    case FWrites =>
      if Drained(d) then Moved(d, c.(fpc := FRead)) else Blocked
    case FRead =>
      if ReadKilled(d) then Moved(d, c.(fpc := FErrors)) else Blocked
    case FErrors =>
      if d.errors != 0 then
        var rv := Report(d.errors);
        Moved(d.(errors := 0, log := d.log + [Took(d.errors, rv)]), c.(fpc := FUnlock(rv)))
      else Moved(d, c.(fpc := FUnlock(0)))
    case FUnlock(rv) => Moved(d.(mutex := Free), c.(fpc := FDone(rv)))
    case FDone(_) => Blocked
  }

  function CallStep(d: Dev, id: nat, c: Call, answer: Answer): Move {
    match c
    case Read(_, _, _, _, _) => ReadStep(d, id, c, answer)
    case Write(_, _, _, _) => WriteStep(d, id, c, answer)
    case Flush(_, _) => FlushStep(d, id, c)
  }

  predicate Finished(c: Call) {
    match c
    case Read(_, _, _, pc, _) => pc.RDone?
    case Write(_, _, _, pc) => pc.WDone?
    case Flush(_, pc) => pc.FDone?
  }

  // ------------------------------------------------------------ callbacks

  /** skel_read_bulk_callback up to line 174, where ongoing_read is published. */
  function ReadCallback(d: Dev, status: int, data: seq<Byte>): Dev {
    if d.readUrb.InFlight? && status <= 0 && |data| <= d.readUrb.len && |data| <= |d.buf| then
      d.(readUrb := Idle,
         wakers := d.wakers + 1,
         ongoing := false,
         buf := data + d.buf[|data|..],
         filled := if status == 0 then |data| else d.filled,
         errors := if status == 0 then d.errors else status,
         log := d.log + [ReadCompleted(d.readUrb.caller, status, data)])
    else d
  }

  /** The end of skel_read_bulk_callback, lines 176-177. */
  function ReadCallbackUp(d: Dev): Dev {
    if d.wakers > 0 then d.(wakers := d.wakers - 1) else d
  }

  /** skel_write_bulk_callback up to line 343; the core has unanchored the URB already. */
  function WriteCallback(d: Dev, urb: nat, status: int): Dev {
    if urb in d.submitted && status <= 0 then
      d.(anchored := d.anchored - {urb},
         submitted := d.submitted - {urb},
         finishing := d.finishing + {urb},
         errors := if status == 0 then d.errors else status,
         log := d.log + [WriteCompleted(status)])
    else d
  }

  /** The end of skel_write_bulk_callback, lines 345-349. */
  function WriteCallbackUp(d: Dev, urb: nat): Dev {
    if urb in d.finishing then d.(finishing := d.finishing - {urb}, permits := d.permits + 1) else d
  }

  // ------------------------------------------------------------- USB core

  /** kref_put with skel_delete as its release function. */
  function Put(d: Dev): Dev {
    d.(kref := d.kref - 1, deletes := if d.kref == 1 then d.deletes + 1 else d.deletes)
  }

  /** skel_suspend with its skel_draw_down, lines 578-596: no lock is taken. */
  function SuspendStep(d: Dev): Dev {
    match d.core
    case SuspendWrites(asleep) => if Drained(d) then d.(core := SuspendRead(asleep)) else d
    case SuspendRead(_) => if ReadKilled(d) then d.(core := Bound) else d
    case _ => d
  }

  /** skel_pre_reset and skel_post_reset, lines 603-622. */
  function ResetStep(d: Dev): Dev {
    match d.core
    case PreResetLock => if d.mutex.Free? then d.(mutex := ByCore, core := PreResetWrites) else d
    case PreResetWrites => if Drained(d) then d.(core := PreResetRead) else d
    case PreResetRead => if ReadKilled(d) then d.(core := InReset) else d
    case InReset => d.(errors := EPIPE, core := PostResetUnlock, log := d.log + [ResetMarked])
    case PostResetUnlock => d.(mutex := Free, core := Bound)
    case _ => d
  }

  /** skel_disconnect after usb_deregister_dev, lines 564-573. */
  function DisconnectStep(d: Dev): Dev {
    match d.core
    case DiscLock => if d.mutex.Free? then d.(mutex := ByCore, core := DiscMark) else d
    case DiscMark => d.(disconnected := true, core := DiscUnlock)
    case DiscUnlock => d.(mutex := Free, core := DiscKillRead)
    case DiscKillRead => if ReadKilled(d) then d.(core := DiscKillWrites) else d
    case DiscKillWrites => if Drained(d) then d.(core := DiscPut) else d
    case DiscPut => Put(d).(core := Gone)
    case _ => d
  }

  /**
   The core moves on from skel_probe (lines 525-550) or calls one of the driver's entry points.  It
   autosuspends the device only when no file is open, since every open file holds a usage count
   (lines 98 and 121); for system sleep it suspends it in any case.
   */
  function EnterStep(d: Dev, move: CoreMove): Dev {
    match d.core
    case Probing => if move.ProbeFails? then Put(d).(core := Gone) else d.(core := Bound)
    case Bound =>
      (match move
       case Autosuspend => if d.files == {} then d.(core := SuspendWrites(false)) else d
       case Sleep => d.(core := SuspendWrites(true))
       case Reset => d.(core := PreResetLock)
       case Disconnect => d.(core := DiscLock)
       case _ => d)
    case _ => d
  }

  predicate InSuspend(core: CorePc) {
    core.SuspendWrites? || core.SuspendRead?
  }

  predicate Autosuspending(core: CorePc) {
    InSuspend(core) && !core.asleep
  }

  predicate Resetting(core: CorePc) {
    core.PreResetLock? || core.PreResetWrites? || core.PreResetRead? || core.InReset? || core.PostResetUnlock?
  }

  predicate Disconnecting(core: CorePc) {
    core.DiscLock? || core.DiscMark? || core.DiscUnlock? || core.DiscKillRead? || core.DiscKillWrites? || core.DiscPut?
  }

  function CoreStep(d: Dev, move: CoreMove): Dev {
    if InSuspend(d.core) then SuspendStep(d)
    else if Resetting(d.core) then ResetStep(d)
    else if Disconnecting(d.core) then DisconnectStep(d)
    else EnterStep(d, move)
  }

  /** The minor is registered and the interface data set, so skel_open finds the device. */
  predicate Registered(core: CorePc) {
    core.Bound? || InSuspend(core) || Resetting(core)
  }

  // ----------------------------------------------------------------- runs

  predicate Starts(e: Event) {
    e.StartRead? || e.StartWrite? || e.StartFlush?
  }

  /** A call as it enters the driver; one for zero bytes is done at once. */
  function NewCall(e: Event): Call
    requires Starts(e)
  {
    match e
    case StartRead(f, count, nonblock) =>
      Read(f, count, nonblock, if count == 0 then RDone(0) else RLock, Turns(0, 0, 0))
    case StartWrite(f, count, nonblock) => Write(f, count, nonblock, if count == 0 then WDone(0) else WDown)
    case StartFlush(f) => Flush(f, FLock)
  }

  function Begin(s: State, c: Call): State {
    if c.file in s.dev.files then
      State(s.dev.(nextCall := s.dev.nextCall + 1), s.calls[s.dev.nextCall := c])
    else s
  }

  predicate IsCallback(e: Event) {
    e.CompleteRead? || e.ReleaseRead? || e.CompleteWrite? || e.ReleaseWrite?
  }

  function CallbackDev(d: Dev, e: Event): Dev
    requires IsCallback(e)
  {
    match e
    case CompleteRead(status, data) => ReadCallback(d, status, data)
    case ReleaseRead => ReadCallbackUp(d)
    case CompleteWrite(u, status) => WriteCallback(d, u, status)
    case ReleaseWrite(u) => WriteCallbackUp(d, u)
  }

  /** A call steps, unless it has to wait. */
  function CallMoves(s: State, id: nat, answer: Answer): State
    requires id in s.calls
  {
    match CallStep(s.dev, id, s.calls[id], answer)
    case Blocked => s
    case Moved(d, c) => State(d, s.calls[id := c])
  }

  /** One step; an event that is not enabled leaves the state as it is. */
  function Step(s: State, e: Event): State {
    var d := s.dev;
    match e
    case OpenFile(f) =>
      if Registered(d.core) && !Autosuspending(d.core) && f !in d.files then
        s.(dev := d.(kref := d.kref + 1, files := d.files + {f}))
      else s
    case ReleaseFile(f) =>
      if f in d.files && forall id :: id in s.calls ==> s.calls[id].file != f then
        s.(dev := Put(d).(files := d.files - {f}))
      else s
    case StartRead(_, _, _) => Begin(s, NewCall(e))
    case StartWrite(_, _, _) => Begin(s, NewCall(e))
    case StartFlush(_) => Begin(s, NewCall(e))
    case StepCall(id, answer) =>
      if id in s.calls && Legal(answer) then CallMoves(s, id, answer) else s
    case FinishCall(id) =>
      if id in s.calls && Finished(s.calls[id]) then s.(calls := s.calls - {id}) else s
    case CompleteRead(_, _) => s.(dev := CallbackDev(d, e))
    case ReleaseRead => s.(dev := CallbackDev(d, e))
    case CompleteWrite(_, _) => s.(dev := CallbackDev(d, e))
    case ReleaseWrite(_) => s.(dev := CallbackDev(d, e))
    case StepCore(move) => s.(dev := CoreStep(d, move))
  }

  /** The device as skel_probe leaves it after line 523, `buffer` being its fresh memory. */
  function Init(buffer: seq<Byte>): State {
    State(Dev(buffer, 0, 0, 0, false, false, Free, WRITES_IN_FLIGHT, 1, 0,
              Probing, {}, Idle, 0, {}, {}, {}, 0, 0, []),
          map[])
  }

  /** The state after the events `es`, for every sequence of events whatsoever. */
  function Exec(buffer: seq<Byte>, es: seq<Event>): State
    decreases |es|
  {
    if es == [] then Init(buffer)
    else Step(Exec(buffer, es[..|es| - 1]), es[|es| - 1])
  }
}
