/** The exact number of passes through `retry` of a read of USB/usbdrv3.c. */
module SkelCounts {
  import opened Bytes
  import opened SkelLog
  import opened SkelModel
  import opened SkelInvariant
  import opened SkelProof
  import opened SkelSteps

  /** A transfer of call `id` is in flight. */
  function Mine(d: Dev, id: nat): nat {
    if d.readUrb.InFlight? && d.readUrb.caller == id then 1 else 0
  }

  /** Transfers call `id` has started so far. */
  function Started(d: Dev, id: nat): nat {
    Zeros(d.log, id) + Ends(d.log, id) + Mine(d, id)
  }

  /** The read is in its loop, and not in the prefetch after it (line 310). */
  predicate Looping(pc: ReadPc) {
    PastCheck(pc) && (pc.RIo? ==> pc.after.Again?)
  }

  predicate CountOk(d: Dev, id: nat, c: Call) {
    c.Read? ==>
      && (c.rpc.RLock? || c.rpc.RCheck? ==> Started(d, id) == 0)
      && (Looping(c.rpc) ==> c.turns.passes == 1 + Started(d, id))
  }

  /** Calls yet to come have started nothing. */
  ghost predicate FutureOk(d: Dev) {
    forall id: nat :: id >= d.nextCall ==> Started(d, id) == 0
  }

  ghost predicate CountsOk(s: State) {
    FutureOk(s.dev) && forall id :: id in s.calls ==> CountOk(s.dev, id, s.calls[id])
  }

  // ------------------------------------------------------------ call steps

  predicate NotRead(o: Obs) {
    !o.ReadCompleted?
  }

  /** The log says nothing new about completed reads. */
  ghost predicate NoCompletion(log: seq<Obs>, log': seq<Obs>) {
    log' == log || exists o :: NotRead(o) && log' == log + [o]
  }

  lemma SameCounts(log: seq<Obs>, log': seq<Obs>, id: nat)
    requires NoCompletion(log, log')
    ensures Zeros(log', id) == Zeros(log, id) && Ends(log', id) == Ends(log, id)
  {
    if log' != log {
      var o :| NotRead(o) && log' == log + [o];
      ExtendEnds(log, o, id);
    }
  }

  lemma BufferLogs(d: Dev, c: Call, answer: Answer)
    requires c.Read? && c.rpc.RBuffer?
    ensures NoCompletion(d.log, BufferStep(d, c, answer).dev.log)
  {
    var log' := BufferStep(d, c, answer).dev.log;
    if log' != d.log {
      assert log' == d.log + [log'[|d.log|]] && NotRead(log'[|d.log|]);
    }
  }

  lemma CallLogs(d: Dev, id: nat, c: Call, answer: Answer)
    requires CallStep(d, id, c, answer).Moved?
    ensures NoCompletion(d.log, CallStep(d, id, c, answer).dev.log)
  {
    match c {
      case Read(_, _, _, pc, _) =>
        if pc.RBuffer? {
          BufferLogs(d, c, answer);
        } else if !pc.RIo? {
          ReadStreamFrame(d, id, c, answer);
        }
      case Write(_, _, _, _) => WriteStreamFrame(d, id, c, answer);
      case Flush(_, _) => FlushStreamFrame(d, id, c);
    }
    var log' := CallStep(d, id, c, answer).dev.log;
    if log' != d.log && !(c.Read? && c.rpc.RBuffer?) {
      var o :| NoBytes(o) && log' == d.log + [o];
      assert NotRead(o);
    }
  }

  /** Where a submitted transfer leaves the read: in its next pass, or done after a prefetch. */
  predicate Resumes(c: Call, c': Call)
    requires IsIo(c) && c'.Read?
  {
    if c.rpc.after.Again? then c'.rpc.RRetry? && c'.turns.passes == c.turns.passes + 1 else c'.rpc.RExit?
  }

  /** A step changes the URB only by submitting it for the acting call. */
  lemma UrbChange(d: Dev, id: nat, c: Call, answer: Answer)
    requires CallStep(d, id, c, answer).Moved?
    ensures
      var Moved(d', c') := CallStep(d, id, c, answer);
      && d'.nextCall == d.nextCall
      && (d'.readUrb == d.readUrb
          || (IsIo(c) && c.rpc.io.IoSubmit? && c'.Read? && d'.readUrb.InFlight? && d'.readUrb.caller == id
              && Resumes(c, c')))
  {
    if IsIo(c) {
      IoUrbChange(d, id, c, answer);
    }
  }

  lemma IoUrbChange(d: Dev, id: nat, c: Call, answer: Answer)
    requires IsIo(c)
    ensures
      var Moved(d', c') := IoStep(d, id, c, answer);
      && d'.nextCall == d.nextCall
      && (d'.readUrb == d.readUrb
          || (c.rpc.io.IoSubmit? && c'.Read? && d'.readUrb.InFlight? && d'.readUrb.caller == id
              && Resumes(c, c')))
  {
  }

  /** Where a step that submits nothing leaves a read: in its loop with its count, entering it, or out. */
  predicate Follows(c: Call, c': Call)
    requires c.Read?
  {
    && c'.Read? && !c'.rpc.RLock?
    && (c'.rpc.RCheck? ==> c.rpc.RLock?)
    && (Looping(c'.rpc) ==>
          (c.rpc.RCheck? && c'.turns.passes == 1) || (Looping(c.rpc) && c'.turns.passes == c.turns.passes))
  }

  lemma IoPosition(d: Dev, id: nat, c: Call, answer: Answer)
    requires IsIo(c) && d.readUrb.Idle? && IoStep(d, id, c, answer).dev.readUrb == d.readUrb
    ensures Follows(c, IoStep(d, id, c, answer).call)
  {
  }

  lemma BufferPosition(d: Dev, c: Call, answer: Answer)
    requires c.Read? && c.rpc.RBuffer?
    ensures Follows(c, BufferStep(d, c, answer).call)
  {
  }

  lemma RestPosition(d: Dev, id: nat, c: Call, answer: Answer)
    requires c.Read? && !c.rpc.RIo? && !c.rpc.RBuffer? && ReadStep(d, id, c, answer).Moved?
    ensures Follows(c, ReadStep(d, id, c, answer).call)
  {
  }

  lemma LoopPosition(d: Dev, id: nat, c: Call, answer: Answer)
    requires c.Read? && ReadStep(d, id, c, answer).Moved? && ReadStep(d, id, c, answer).dev.readUrb == d.readUrb
    requires IsIo(c) ==> d.readUrb.Idle?
    ensures Follows(c, ReadStep(d, id, c, answer).call)
  {
    match c.rpc
    case RIo(_, _, _) => IoPosition(d, id, c, answer);
    case RBuffer => BufferPosition(d, c, answer);
    case _ => RestPosition(d, id, c, answer);
  }

  lemma CountStays(d: Dev, d': Dev, id: nat, c: Call, c': Call)
    requires c.Read? && CountOk(d, id, c) && Follows(c, c') && Started(d', id) == Started(d, id)
    ensures CountOk(d', id, c')
  {
  }

  lemma CountRises(d: Dev, d': Dev, id: nat, c: Call, c': Call)
    requires IsIo(c) && CountOk(d, id, c) && c'.Read? && Started(d', id) == Started(d, id) + 1
    requires Resumes(c, c')
    ensures CountOk(d', id, c')
  {
  }

  lemma CallCount(d: Dev, id: nat, c: Call, answer: Answer)
    requires c.Read? && UrbsOk(d) && CallOk(d, id, c) && CountOk(d, id, c) && CallStep(d, id, c, answer).Moved?
    ensures CountOk(CallStep(d, id, c, answer).dev, id, CallStep(d, id, c, answer).call)
  {
    var Moved(d', c') := CallStep(d, id, c, answer);
    CallLogs(d, id, c, answer);
    SameCounts(d.log, d'.log, id);
    UrbChange(d, id, c, answer);
    if d'.readUrb == d.readUrb {
      LoopPosition(d, id, c, answer);
      CountStays(d, d', id, c, c');
    } else {
      CountRises(d, d', id, c, c');
    }
  }

  lemma CallCountBeside(d: Dev, id: nat, c: Call, answer: Answer, id2: nat)
    requires id != id2 && CallOk(d, id, c) && CallStep(d, id, c, answer).Moved?
    ensures Started(CallStep(d, id, c, answer).dev, id2) == Started(d, id2)
  {
    CallLogs(d, id, c, answer);
    SameCounts(d.log, CallStep(d, id, c, answer).dev.log, id2);
    UrbChange(d, id, c, answer);
  }

  lemma KindStays(d: Dev, id: nat, c: Call, answer: Answer)
    requires !c.Read? && CallStep(d, id, c, answer).Moved?
    ensures !CallStep(d, id, c, answer).call.Read?
  {
  }

  lemma CallCounts(s: State, id: nat, answer: Answer)
    requires UrbsOk(s.dev) && CallsOk(s) && CountsOk(s)
    requires id in s.calls && CallStep(s.dev, id, s.calls[id], answer).Moved?
    ensures
      var Moved(d', c') := CallStep(s.dev, id, s.calls[id], answer);
      CountsOk(State(d', s.calls[id := c']))
  {
    var c := s.calls[id];
    var Moved(d', c') := CallStep(s.dev, id, c, answer);
    assert CallOk(s.dev, id, c) && CountOk(s.dev, id, c);
    forall j: nat | j != id ensures Started(d', j) == Started(s.dev, j) {
      CallCountBeside(s.dev, id, c, answer, j);
    }
    UrbChange(s.dev, id, c, answer);
    if c.Read? {
      CallCount(s.dev, id, c, answer);
    } else {
      KindStays(s.dev, id, c, answer);
    }
  }

  // -------------------------------------------------------- everything else

  /** A completion turns a transfer in flight into one completed, for whichever call it is. */
  lemma CompletionCounts(d: Dev, status: int, data: seq<Byte>, id: nat)
    ensures Started(ReadCallback(d, status, data), id) == Started(d, id)
  {
    if d.readUrb.InFlight? {
      ExtendEnds(d.log, ReadCompleted(d.readUrb.caller, status, data), id);
    }
  }

  lemma DevCounts(s: State, d': Dev)
    requires CountsOk(s) && d'.nextCall >= s.dev.nextCall
    requires forall id: nat :: Started(d', id) == Started(s.dev, id)
    ensures CountsOk(s.(dev := d'))
  {
  }

  lemma QuietCounts(s: State, d': Dev)
    requires CountsOk(s) && NoCompletion(s.dev.log, d'.log)
    requires d'.nextCall >= s.dev.nextCall && d'.readUrb == s.dev.readUrb
    ensures CountsOk(s.(dev := d'))
  {
    forall id: nat ensures Started(d', id) == Started(s.dev, id) {
      SameCounts(s.dev.log, d'.log, id);
    }
    DevCounts(s, d');
  }

  lemma CallbackCounts(s: State, e: Event)
    requires CountsOk(s) && IsCallback(e)
    ensures CountsOk(s.(dev := CallbackDev(s.dev, e)))
  {
    match e
    case CompleteRead(status, data) =>
      forall id: nat ensures Started(ReadCallback(s.dev, status, data), id) == Started(s.dev, id) {
        CompletionCounts(s.dev, status, data, id);
      }
      DevCounts(s, ReadCallback(s.dev, status, data));
    case CompleteWrite(urb, status) =>
      assert NotRead(WriteCompleted(status));
      QuietCounts(s, WriteCallback(s.dev, urb, status));
    case ReleaseRead => QuietCounts(s, ReadCallbackUp(s.dev));
    case ReleaseWrite(urb) => QuietCounts(s, WriteCallbackUp(s.dev, urb));
  }

  lemma CoreCounts(s: State, move: CoreMove)
    requires CountsOk(s)
    ensures CountsOk(s.(dev := CoreStep(s.dev, move)))
  {
    CoreFrame(s.dev, move);
    assert NotRead(ResetMarked);
    assert CoreStep(s.dev, move).nextCall == s.dev.nextCall;
    QuietCounts(s, CoreStep(s.dev, move));
  }

  lemma BeginCounts(s: State, c: Call)
    requires CountsOk(s) && Fresh(c)
    ensures CountsOk(Begin(s, c))
  {
    if c.file in s.dev.files {
      var id := s.dev.nextCall;
      QuietCounts(s, s.dev.(nextCall := id + 1));
      assert Started(s.dev, id) == 0;
    }
  }

  lemma TaskCounts(s: State, e: Event)
    requires Inv(s) && CountsOk(s) && (e.StepCall? || e.FinishCall? || e.StepCore?)
    ensures CountsOk(Step(s, e))
  {
    if e.StepCall? {
      if e.id in s.calls && Legal(e.answer) {
        assert Step(s, e) == CallMoves(s, e.id, e.answer);
        if CallStep(s.dev, e.id, s.calls[e.id], e.answer).Moved? {
          CallCounts(s, e.id, e.answer);
        }
      }
    } else if e.StepCore? {
      assert Step(s, e) == s.(dev := CoreStep(s.dev, e.move));
      CoreCounts(s, e.move);
    }
  }

  lemma FileCounts(s: State, e: Event)
    requires CountsOk(s) && (e.OpenFile? || e.ReleaseFile?)
    ensures CountsOk(Step(s, e))
  {
    QuietCounts(s, Step(s, e).dev);
  }

  lemma CountStep(s: State, e: Event)
    requires Inv(s) && CountsOk(s)
    ensures CountsOk(Step(s, e))
  {
    if Starts(e) {
      assert Step(s, e) == Begin(s, NewCall(e));
      BeginCounts(s, NewCall(e));
    } else if IsCallback(e) {
      assert Step(s, e) == s.(dev := CallbackDev(s.dev, e));
      CallbackCounts(s, e);
    } else if e.OpenFile? || e.ReleaseFile? {
      FileCounts(s, e);
    } else {
      TaskCounts(s, e);
    }
  }

  lemma {:induction false} CountsHold(buffer: seq<Byte>, es: seq<Event>)
    ensures CountsOk(Exec(buffer, es))
    decreases |es|
  {
    if es != [] {
      CountsHold(buffer, es[..|es| - 1]);
      InvHolds(buffer, es[..|es| - 1]);
      CountStep(Exec(buffer, es[..|es| - 1]), es[|es| - 1]);
    }
  }
}
