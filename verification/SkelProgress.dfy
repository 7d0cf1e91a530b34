/** No call inside the driver of USB/usbdrv3.c can be stuck for good. */
module SkelProgress {
  import opened Bytes
  import opened Errno
  import opened SkelLog
  import opened SkelModel
  import opened SkelInvariant
  import opened SkelProof
  import opened SkelSteps
  import opened SkelCounts
  import opened SkelTheorems

  // ------------------------------------------------ who holds an anchored URB

  predicate Anchoring(c: Call, u: nat) {
    match c
    case Write(_, _, _, WSubmit(v)) => v == u
    case Write(_, _, _, WUnlockFailed(v, _)) => v == u
    case Write(_, _, _, WUnanchor(v, _)) => v == u
    case _ => false
  }

  ghost predicate SomeoneAnchors(calls: map<nat, Call>, u: nat) {
    exists id :: id in calls && Anchoring(calls[id], u)
  }

  /** An anchored URB is in flight, or a write has yet to submit or unanchor it. */
  ghost predicate AnchorsOk(s: State) {
    forall u :: u in s.dev.anchored ==> u in s.dev.submitted || SomeoneAnchors(s.calls, u)
  }

  /** Only a write touches the anchor: it adds its own URB, or takes it off. */
  lemma WriteAnchors(d: Dev, id: nat, c: Call, answer: Answer, u: nat)
    requires c.Write? && WriteStep(d, id, c, answer).Moved? && u in WriteStep(d, id, c, answer).dev.anchored
    ensures
      var Moved(d', c') := WriteStep(d, id, c, answer);
      || u in d'.submitted || Anchoring(c', u)
      || (u in d.anchored && u !in d.submitted && !Anchoring(c, u))
  {
  }

  lemma CallAnchors(d: Dev, id: nat, c: Call, answer: Answer, u: nat)
    requires CallStep(d, id, c, answer).Moved? && u in CallStep(d, id, c, answer).dev.anchored
    ensures
      var Moved(d', c') := CallStep(d, id, c, answer);
      || u in d'.submitted || Anchoring(c', u)
      || (u in d.anchored && u !in d.submitted && !Anchoring(c, u))
  {
    match c
    case Write(_, _, _, _) => WriteAnchors(d, id, c, answer, u);
    case Read(_, _, _, _, _) => ReadAnchors(d, id, c, answer);
    case Flush(_, _) =>
  }

  lemma ReadAnchors(d: Dev, id: nat, c: Call, answer: Answer)
    requires c.Read? && ReadStep(d, id, c, answer).Moved?
    ensures
      var d' := ReadStep(d, id, c, answer).dev;
      d'.anchored == d.anchored && d'.submitted == d.submitted
  {
    if c.rpc.RIo? {
      assert ReadStep(d, id, c, answer) == IoStep(d, id, c, answer);
    }
  }

  lemma StepCallAnchors(s: State, id: nat, answer: Answer)
    requires AnchorsOk(s) && id in s.calls && CallStep(s.dev, id, s.calls[id], answer).Moved?
    ensures
      var Moved(d', c') := CallStep(s.dev, id, s.calls[id], answer);
      AnchorsOk(State(d', s.calls[id := c']))
  {
    var Moved(d', c') := CallStep(s.dev, id, s.calls[id], answer);
    var calls' := s.calls[id := c'];
    forall u | u in d'.anchored && u !in d'.submitted ensures SomeoneAnchors(calls', u) {
      CallAnchors(s.dev, id, s.calls[id], answer, u);
      if Anchoring(c', u) {
        assert id in calls' && Anchoring(calls'[id], u);
      } else {
        var j :| j in s.calls && Anchoring(s.calls[j], u);
        assert j in calls' && Anchoring(calls'[j], u);
      }
    }
  }

  /** The anchor and what is in flight change together, or not at all. */
  lemma DevAnchors(s: State, s': State)
    requires AnchorsOk(s) && s'.dev.anchored <= s.dev.anchored
    requires forall u :: u in s'.dev.anchored && u in s.dev.submitted ==> u in s'.dev.submitted
    requires forall id :: id in s.calls ==> Finished(s.calls[id]) || (id in s'.calls && s'.calls[id] == s.calls[id])
    ensures AnchorsOk(s')
  {
    forall u | u in s'.dev.anchored && u !in s'.dev.submitted ensures SomeoneAnchors(s'.calls, u) {
      var j :| j in s.calls && Anchoring(s.calls[j], u);
      assert j in s'.calls && Anchoring(s'.calls[j], u);
    }
  }

  lemma ElseAnchors(s: State, e: Event)
    requires AnchorsOk(s) && s.dev.nextCall !in s.calls && !e.StepCall?
    ensures AnchorsOk(Step(s, e))
  {
    if e.StepCore? {
      CoreFrame(s.dev, e.move);
    }
    DevAnchors(s, Step(s, e));
  }

  lemma AnchorStep(s: State, e: Event)
    requires Inv(s) && AnchorsOk(s)
    ensures AnchorsOk(Step(s, e))
  {
    if !e.StepCall? {
      NextCallFree(s);
      ElseAnchors(s, e);
    } else if e.id in s.calls && CallStep(s.dev, e.id, s.calls[e.id], e.answer).Moved? {
      StepCallAnchors(s, e.id, e.answer);
    }
  }

  lemma {:induction false} AnchorsHold(buffer: seq<Byte>, es: seq<Event>)
    ensures AnchorsOk(Exec(buffer, es))
    decreases |es|
  {
    if es != [] {
      AnchorsHold(buffer, es[..|es| - 1]);
      InvHolds(buffer, es[..|es| - 1]);
      AnchorStep(Exec(buffer, es[..|es| - 1]), es[|es| - 1]);
    }
  }

  // ----------------------------------------------------------- what is left

  /** A read before its loop has a round of the loop before it, which counts 20. */
  function ReadRank(pc: ReadPc): nat {
    match pc
    case RDone(_) => 1
    case RExit(_) => 2
    case RClear(_) => 3
    case RIo(IoFail(_), _, _) => 3
    case RIo(IoSubmit, _, _) => 5
    case RIo(IoCopied, _, _) => 6
    case RIo(IoFilled, _, _) => 7
    case RIo(IoMark, _, _) => 8
    case RBuffer => 9
    case RErrors => 10
    case RWait => 11
    case RRetry => 12
    case RCheck => 33
    case RLock => 34
  }

  function WriteRank(pc: WritePc): nat {
    match pc
    case WDone(_) => 1
    case WUp(_) => 2
    case WUnlock => 2
    case WUnanchor(_, _) => 3
    case WUnlockFailed(_, _) => 4
    case WSubmit(_) => 5
    case WAnchor(_) => 6
    case WCheck(_) => 7
    case WLock(_) => 8
    case WBuffer(_) => 9
    case WAlloc => 10
    case WErrors => 11
    case WDown => 12
  }

  function FlushRank(pc: FlushPc): nat {
    match pc
    case FDone(_) => 1
    case FUnlock(_) => 2
    case FErrors => 3
    case FRead => 4
    case FWrites => 5
    case FLock => 6
  }

  /** Steps a call has before it, one round of a read's loop at most. */
  function Rank(c: Call): nat {
    match c
    case Read(_, _, _, pc, _) => ReadRank(pc)
    case Write(_, _, _, pc) => WriteRank(pc)
    case Flush(_, pc) => FlushRank(pc)
  }

  /** The buffer has nothing for a read. */
  predicate NoData(d: Dev) {
    d.copied >= d.filled
  }

  /** Another round, for a read that will start a transfer. */
  function Round(d: Dev, c: Call): nat {
    if c.Read?
       && ((c.rpc.RIo? && c.rpc.after.Again?)
           || (c.rpc.RBuffer? && NoData(d))
           || ((c.rpc.RRetry? || c.rpc.RWait? || c.rpc.RErrors?) && d.errors == 0 && d.readUrb.Idle? && NoData(d)))
    then 20 else 0
  }

  function OwnerRound(s: State): nat {
    if Owned(s) then Round(s.dev, s.calls[s.dev.mutex.id]) else 0
  }

  /** Steps of the core until it is done with the driver. */
  function CoreRank(core: CorePc): nat {
    match core
    case Probing => 1
    case Bound => 0
    case SuspendWrites(_) => 2
    case SuspendRead(_) => 1
    case PreResetLock => 5
    case PreResetWrites => 4
    case PreResetRead => 3
    case InReset => 2
    case PostResetUnlock => 1
    case DiscLock => 6
    case DiscMark => 5
    case DiscUnlock => 4
    case DiscKillRead => 3
    case DiscKillWrites => 2
    case DiscPut => 1
    case Gone => 0
  }

  function UrbRank(d: Dev): nat {
    2 * |d.submitted| + |d.finishing| + (if d.readUrb.InFlight? then 2 else 0) + d.wakers
  }

  function Weight(calls: map<nat, Call>, n: nat): nat {
    if n == 0 then 0 else Weight(calls, n - 1) + (if n - 1 in calls then Rank(calls[n - 1]) else 0)
  }

  function Remaining(s: State): nat {
    Weight(s.calls, s.dev.nextCall) + OwnerRound(s) + CoreRank(s.dev.core) + UrbRank(s.dev)
  }

  lemma {:induction false} WeightUpdate(calls: map<nat, Call>, id: nat, c: Call, n: nat)
    requires id in calls
    ensures Weight(calls[id := c], n) == Weight(calls, n) + (if id < n then Rank(c) - Rank(calls[id]) else 0)
    decreases n
  {
    if n > 0 {
      WeightUpdate(calls, id, c, n - 1);
    }
  }

  lemma {:induction false} WeightRemove(calls: map<nat, Call>, id: nat, n: nat)
    requires id in calls
    ensures Weight(calls - {id}, n) == Weight(calls, n) - (if id < n then Rank(calls[id]) else 0)
    decreases n
  {
    if n > 0 {
      WeightRemove(calls, id, n - 1);
    }
  }

  // ------------------------------------------------------------- call steps

  /** What a call that owns io_mutex, or finds it free, has before it. */
  function Cost(d: Dev, c: Call): nat {
    Rank(c) + UrbRank(d) + (if HasMutex(c) then Round(d, c) else 0)
  }

  /** The call has nothing to wait for. */
  predicate Runnable(d: Dev, id: nat, c: Call) {
    && DevOk(d) && CallOk(d, id, c) && Linked(d, c) && Quiet(d) && !Finished(c)
    && (d.mutex.Free? || HasMutex(c))
    && (c.Flush? && c.fpc.FWrites? ==> d.anchored == {})
    && (c.Write? && c.wpc.WDown? ==> d.permits > 0)
  }

  predicate Cheaper(d: Dev, c: Call, m: Move) {
    m.Moved? && Cost(m.dev, m.call) < Cost(d, c) && m.dev.nextCall == d.nextCall && m.dev.core == d.core
  }

  lemma IoAdvances(d: Dev, id: nat, c: Call)
    requires IsIo(c) && Runnable(d, id, c)
    ensures Cheaper(d, c, IoStep(d, id, c, Go))
  {
  }

  lemma BufferAdvances(d: Dev, id: nat, c: Call)
    requires c.Read? && c.rpc.RBuffer? && Runnable(d, id, c)
    ensures Cheaper(d, c, BufferStep(d, c, Go))
  {
  }

  lemma ReadAdvances(d: Dev, id: nat, c: Call)
    requires c.Read? && !c.rpc.RIo? && !c.rpc.RBuffer? && Runnable(d, id, c)
    ensures Cheaper(d, c, ReadStep(d, id, c, Go))
  {
  }

  lemma EntryAdvances(d: Dev, id: nat, c: Call)
    requires c.Write? && (WriteEntry(c.wpc) || WriteEarly(c.wpc)) && Runnable(d, id, c)
    ensures Cheaper(d, c, WriteStep(d, id, c, Go))
  {
  }

  lemma LockedAdvances(d: Dev, id: nat, c: Call)
    requires c.Write? && WriteLocked(c.wpc) && Runnable(d, id, c)
    ensures Cheaper(d, c, WriteStep(d, id, c, Go))
  {
  }

  lemma LateAdvances(d: Dev, id: nat, c: Call)
    requires c.Write? && (WriteUnlocking(c.wpc) || WriteLate(c.wpc)) && Runnable(d, id, c)
    ensures Cheaper(d, c, WriteStep(d, id, c, Go))
  {
  }

  lemma WriteAdvances(d: Dev, id: nat, c: Call)
    requires c.Write? && Runnable(d, id, c)
    ensures Cheaper(d, c, WriteStep(d, id, c, Go))
  {
    if WriteEntry(c.wpc) || WriteEarly(c.wpc) {
      EntryAdvances(d, id, c);
    } else if WriteLocked(c.wpc) {
      LockedAdvances(d, id, c);
    } else {
      LateAdvances(d, id, c);
    }
  }

  lemma FlushAdvances(d: Dev, id: nat, c: Call)
    requires c.Flush? && Runnable(d, id, c)
    ensures Cheaper(d, c, FlushStep(d, id, c))
  {
  }

  lemma CallAdvances(d: Dev, id: nat, c: Call)
    requires Runnable(d, id, c)
    ensures Cheaper(d, c, CallStep(d, id, c, Go))
  {
    match c
    case Read(_, _, _, pc, _) =>
      if pc.RIo? {
        IoAdvances(d, id, c);
      } else if pc.RBuffer? {
        BufferAdvances(d, id, c);
      } else {
        ReadAdvances(d, id, c);
      }
    case Write(_, _, _, _) => WriteAdvances(d, id, c);
    case Flush(_, _) => FlushAdvances(d, id, c);
  }

  lemma RunnableAdvances(s: State, id: nat)
    requires Inv(s) && id in s.calls && Runnable(s.dev, id, s.calls[id])
    ensures Remaining(Step(s, StepCall(id, Go))) < Remaining(s)
  {
    var c := s.calls[id];
    CallAdvances(s.dev, id, c);
    CallKept(s.dev, id, c, Go);
    var Moved(d', c') := CallStep(s.dev, id, c, Go);
    WeightUpdate(s.calls, id, c', s.dev.nextCall);
    if HasMutex(c) {
      MutexPassed(s.dev, id, c, Go);
    } else if !HasMutex(c') {
      OffsideFrame(s.dev, id, c, Go);
    }
  }

  lemma UnanchorAdvances(s: State, id: nat)
    requires CallsOk(s) && id in s.calls && s.calls[id].Write? && s.calls[id].wpc.WUnanchor?
    ensures Remaining(Step(s, StepCall(id, Go))) < Remaining(s)
  {
    assert CallOk(s.dev, id, s.calls[id]);
    WeightUpdate(s.calls, id, CallStep(s.dev, id, s.calls[id], Go).call, s.dev.nextCall);
  }

  lemma FinishAdvances(s: State, id: nat)
    requires CallsOk(s) && id in s.calls && Finished(s.calls[id])
    ensures Remaining(Step(s, FinishCall(id))) < Remaining(s)
  {
    assert CallOk(s.dev, id, s.calls[id]);
    WeightRemove(s.calls, id, s.dev.nextCall);
  }

  // ------------------------------------------------------ everybody else

  lemma DevAdvances(s: State, d': Dev)
    requires UrbRank(d') < UrbRank(s.dev) && d'.core == s.dev.core && d'.nextCall == s.dev.nextCall
    requires d'.mutex == s.dev.mutex && forall c :: Round(d', c) <= Round(s.dev, c)
    ensures Remaining(s.(dev := d')) < Remaining(s)
  {
  }

  /** Successful completions, with a byte for a read unless the buffer has no room, bring every URB home. */
  lemma CompletionAdvances(s: State) returns (e: Event)
    requires UrbsOk(s.dev) && !Quiet(s.dev)
    ensures Calm(e, s.dev.buf != []) && Remaining(Step(s, e)) < Remaining(s)
  {
    var d := s.dev;
    if d.readUrb.InFlight? {
      e := ReadCompletes(s);
    } else if d.wakers > 0 {
      e := ReleaseRead;
      DevAdvances(s, ReadCallbackUp(d));
    } else if d.submitted != {} {
      var u :| u in d.submitted;
      e := CompleteWrite(u, 0);
      WriteDone(d, u);
      DevAdvances(s, WriteCallback(d, u, 0));
    } else {
      var u :| u in d.finishing;
      e := ReleaseWrite(u);
      DevAdvances(s, WriteCallbackUp(d, u));
    }
  }

  lemma ReadCompletes(s: State) returns (e: Event)
    requires UrbsOk(s.dev) && s.dev.readUrb.InFlight?
    ensures Calm(e, s.dev.buf != []) && Remaining(Step(s, e)) < Remaining(s)
  {
    if s.dev.buf == [] {
      e := CompleteRead(EIO, []);
      DevAdvances(s, ReadCallback(s.dev, EIO, []));
    } else {
      e := CompleteRead(0, [0]);
      DevAdvances(s, ReadCallback(s.dev, 0, [0]));
    }
  }

  lemma WriteDone(d: Dev, u: nat)
    requires u in d.submitted
    ensures UrbRank(WriteCallback(d, u, 0)) < UrbRank(d)
  {
    assert |d.submitted - {u}| == |d.submitted| - 1;
    assert |d.finishing + {u}| <= |d.finishing| + 1;
  }

  /** The core is not in the middle of one of the driver's entry points. */
  predicate Resting(core: CorePc) {
    core.Bound? || core.Gone?
  }

  lemma CoreAdvances(s: State)
    requires DevOk(s.dev) && Quiet(s.dev) && s.dev.anchored == {} && !Resting(s.dev.core)
    requires s.dev.mutex == if CoreHasMutex(s.dev.core) then ByCore else Free
    ensures Remaining(Step(s, StepCore(Advance))) < Remaining(s)
  {
    CoreFrame(s.dev, Advance);
    CoreGoesOn(s.dev);
  }

  lemma CoreGoesOn(d: Dev)
    requires Quiet(d) && d.anchored == {} && !Resting(d.core)
    requires d.mutex == if CoreHasMutex(d.core) then ByCore else Free
    ensures
      var d' := CoreStep(d, Advance);
      CoreRank(d'.core) < CoreRank(d.core) && d'.nextCall == d.nextCall && !d'.mutex.ByCall?
  {
    if Resetting(d.core) {
      ResetGoesOn(d);
    } else if Disconnecting(d.core) {
      DisconnectGoesOn(d);
    }
  }

  lemma ResetGoesOn(d: Dev)
    requires Resetting(d.core) && Quiet(d) && d.anchored == {}
    requires d.mutex == if CoreHasMutex(d.core) then ByCore else Free
    ensures
      var d' := ResetStep(d);
      CoreRank(d'.core) < CoreRank(d.core) && d'.nextCall == d.nextCall && !d'.mutex.ByCall?
  {
  }

  lemma DisconnectGoesOn(d: Dev)
    requires Disconnecting(d.core) && Quiet(d) && d.anchored == {}
    requires d.mutex == if CoreHasMutex(d.core) then ByCore else Free
    ensures
      var d' := DisconnectStep(d);
      CoreRank(d'.core) < CoreRank(d.core) && d'.nextCall == d.nextCall && !d'.mutex.ByCall?
  {
  }

  // -------------------------------------------------------------- every run

  /**
   Calls are stepped without signals or failures, transfers succeed, and those of reads bring bytes
   when there is `room`; no call or file is started and nothing is suspended, reset or unplugged.
   */
  predicate Calm(e: Event, room: bool) {
    match e
    case StepCall(_, answer) => answer.Go?
    case FinishCall(_) => true
    case CompleteRead(status, data) => room ==> status == 0 && data != []
    case ReleaseRead => true
    case CompleteWrite(_, status) => status == 0
    case ReleaseWrite(_) => true
    case StepCore(move) => move.Advance?
    case _ => false
  }

  ghost predicate SomeoneUnanchors(calls: map<nat, Call>) {
    exists id :: id in calls && calls[id].Write? && calls[id].wpc.WUnanchor?
  }

  /** A URB is kept on the anchor by a write that is about to take it off or owns io_mutex. */
  lemma AnchorerIs(s: State, u: nat)
    requires CallsOk(s) && SomeoneAnchors(s.calls, u)
    ensures SomeoneUnanchors(s.calls) || (Owned(s) && s.calls[s.dev.mutex.id].Write?)
  {
    var id :| id in s.calls && Anchoring(s.calls[id], u);
    assert CallOk(s.dev, id, s.calls[id]);
  }

  lemma AnchorFree(s: State)
    requires CallsOk(s) && AnchorsOk(s) && Quiet(s.dev) && !SomeoneUnanchors(s.calls)
    requires Owned(s) ==> !s.calls[s.dev.mutex.id].Write?
    ensures s.dev.anchored == {}
  {
    if u :| u in s.dev.anchored {
      AnchorerIs(s, u);
    }
  }

  /** A call that can step: the owner of io_mutex, or any when it is free and the semaphore allows. */
  lemma FindRunnable(s: State) returns (id: nat)
    requires Inv(s) && AnchorsOk(s) && Quiet(s.dev) && s.calls != map[] && !s.dev.mutex.ByCore?
    requires !SomeoneUnanchors(s.calls) && forall i :: i in s.calls ==> !Finished(s.calls[i])
    ensures id in s.calls && Runnable(s.dev, id, s.calls[id])
  {
    if s.dev.mutex.ByCall? {
      id := s.dev.mutex.id;
      if s.calls[id].Flush? {
        AnchorFree(s);
      }
    } else {
      id :| id in s.calls;
      if s.dev.permits == 0 {
        id :| id in Holders(s.calls);
      } else if s.calls[id].Flush? {
        AnchorFree(s);
      }
    }
    assert CallOk(s.dev, id, s.calls[id]);
  }

  /** No call is inside the driver, nothing is in flight and the core is done. */
  predicate AtRest(s: State) {
    s.calls == map[] && Quiet(s.dev) && Resting(s.dev.core)
  }

  /** The core goes on when it holds io_mutex, or when no call is left. */
  lemma CoreFinishes(s: State)
    requires Inv(s) && AnchorsOk(s) && Quiet(s.dev) && !SomeoneUnanchors(s.calls)
    requires s.dev.mutex.ByCore? || (s.calls == map[] && !Resting(s.dev.core))
    ensures Remaining(Step(s, StepCore(Advance))) < Remaining(s)
  {
    AnchorFree(s);
    CoreAdvances(s);
  }

  /** As long as the driver is not at rest, some calm event brings the end nearer. */
  lemma Advances(s: State) returns (e: Event)
    requires Inv(s) && AnchorsOk(s) && !AtRest(s)
    ensures Calm(e, s.dev.buf != []) && Remaining(Step(s, e)) < Remaining(s)
  {
    if !Quiet(s.dev) {
      e := CompletionAdvances(s);
    } else if id :| id in s.calls && Finished(s.calls[id]) {
      e := FinishCall(id);
      FinishAdvances(s, id);
    } else if id :| id in s.calls && s.calls[id].Write? && s.calls[id].wpc.WUnanchor? {
      e := StepCall(id, Go);
      UnanchorAdvances(s, id);
    } else if s.dev.mutex.ByCore? || s.calls == map[] {
      e := StepCore(Advance);
      CoreFinishes(s);
    } else {
      var id := FindRunnable(s);
      e := StepCall(id, Go);
      RunnableAdvances(s, id);
    }
  }

  lemma NextEvent(buffer: seq<Byte>, es: seq<Event>) returns (e: Event)
    requires !AtRest(Exec(buffer, es))
    ensures Calm(e, buffer != []) && Remaining(Exec(buffer, es + [e])) < Remaining(Exec(buffer, es))
  {
    InvHolds(buffer, es);
    AnchorsHold(buffer, es);
    BufferSize(buffer, es);
    e := Advances(Exec(buffer, es));
    ExecAppend(buffer, es, e);
  }

  /** The run `es` and what may follow it. */
  predicate Finishes(buffer: seq<Byte>, es: seq<Event>, more: seq<Event>) {
    AtRest(Exec(buffer, es + more)) && forall i :: 0 <= i < |more| ==> Calm(more[i], buffer != [])
  }

  lemma FinishesLater(buffer: seq<Byte>, es: seq<Event>, e: Event, rest: seq<Event>)
    requires Calm(e, buffer != []) && Finishes(buffer, es + [e], rest)
    ensures Finishes(buffer, es, [e] + rest)
  {
    assert es + ([e] + rest) == es + [e] + rest;
  }

  lemma FinishesNow(buffer: seq<Byte>, es: seq<Event>)
    requires AtRest(Exec(buffer, es))
    ensures Finishes(buffer, es, [])
  {
    assert es + [] == es;
  }

  lemma {:induction false} FinishWithin(buffer: seq<Byte>, es: seq<Event>, n: nat) returns (more: seq<Event>)
    requires Remaining(Exec(buffer, es)) <= n
    ensures Finishes(buffer, es, more)
    decreases n
  {
    if AtRest(Exec(buffer, es)) {
      more := [];
      FinishesNow(buffer, es);
    } else {
      var e := NextEvent(buffer, es);
      var rest := FinishWithin(buffer, es + [e], n - 1);
      more := [e] + rest;
      FinishesLater(buffer, es, e, rest);
    }
  }

  /**
   From every reachable state a continuation finishes every call inside the driver and brings the
   device to rest with all its permits: no call is stuck on io_mutex, the semaphore, the anchor or
   its wait.  It needs no signal and no failing allocation, copy or submission, and, when the buffer
   has room for a byte, no failing transfer.
   */
  lemma {:induction false} EveryCallCanFinish(buffer: seq<Byte>, es: seq<Event>) returns (more: seq<Event>)
    ensures forall i :: 0 <= i < |more| ==> Calm(more[i], buffer != [])
    ensures AtRest(Exec(buffer, es + more)) && Exec(buffer, es + more).dev.permits == WRITES_IN_FLIGHT
  {
    more := FinishWithin(buffer, es, Remaining(Exec(buffer, es)));
    PermitConservation(buffer, es + more);
  }

  // --------------------------------------------------------------- the end

  predicate Leaving(core: CorePc) {
    Disconnecting(core) || core.Gone?
  }

  lemma LeavingStays(s: State, e: Event)
    requires Leaving(s.dev.core)
    ensures Leaving(Step(s, e).dev.core)
  {
    if e.StepCall? && e.id in s.calls && CallStep(s.dev, e.id, s.calls[e.id], e.answer).Moved? {
      CoreUnmoved(s.dev, e.id, s.calls[e.id], e.answer);
    }
  }

  /** A device being unplugged is never bound again. */
  lemma {:induction false} LeavingForGood(buffer: seq<Byte>, es: seq<Event>, later: seq<Event>)
    requires Leaving(Exec(buffer, es).dev.core)
    ensures Leaving(Exec(buffer, es + later).dev.core)
    decreases |later|
  {
    if later == [] {
      assert es + later == es;
    } else {
      var sooner, e := later[..|later| - 1], later[|later| - 1];
      LeavingForGood(buffer, es, sooner);
      assert es + later == (es + sooner) + [e];
      ExecAppend(buffer, es + sooner, e);
      LeavingStays(Exec(buffer, es + sooner), e);
    }
  }

  /** From rest, the core begins to unplug a device that is not gone. */
  lemma Disconnects(buffer: seq<Byte>, es: seq<Event>)
    requires Exec(buffer, es).dev.core == Bound
    ensures Leaving(Exec(buffer, es + [StepCore(Disconnect)]).dev.core)
  {
    ExecAppend(buffer, es, StepCore(Disconnect));
  }

  /** From anywhere, unplugging the device comes to its end. */
  lemma Unplug(buffer: seq<Byte>, es: seq<Event>) returns (more: seq<Event>)
    ensures var s := Exec(buffer, es + more); s.calls == map[] && s.dev.core == Gone
  {
    var first := EveryCallCanFinish(buffer, es);
    if Exec(buffer, es + first).dev.core == Gone {
      more := first;
    } else {
      var leaving := es + first + [StepCore(Disconnect)];
      Disconnects(buffer, es + first);
      var second := EveryCallCanFinish(buffer, leaving);
      LeavingForGood(buffer, leaving, second);
      more := first + [StepCore(Disconnect)] + second;
      assert es + more == leaving + second;
    }
  }

  /** Unplugged with `n` files open and no call inside. */
  predicate Unplugged(s: State, n: nat) {
    s.calls == map[] && s.dev.core == Gone && |s.dev.files| == n
  }

  lemma ReleaseOne(s: State, n: nat) returns (f: nat)
    requires n > 0 && Unplugged(s, n)
    ensures Unplugged(Step(s, ReleaseFile(f)), n - 1)
  {
    f :| f in s.dev.files;
  }

  predicate ReleasesAll(buffer: seq<Byte>, es: seq<Event>, more: seq<Event>) {
    Unplugged(Exec(buffer, es + more), 0)
  }

  lemma ReleasesLater(buffer: seq<Byte>, es: seq<Event>, e: Event, rest: seq<Event>)
    requires ReleasesAll(buffer, es + [e], rest)
    ensures ReleasesAll(buffer, es, [e] + rest)
  {
    assert es + ([e] + rest) == es + [e] + rest;
  }

  lemma ReleaseNext(buffer: seq<Byte>, es: seq<Event>, n: nat) returns (e: Event)
    requires n > 0 && Unplugged(Exec(buffer, es), n)
    ensures Unplugged(Exec(buffer, es + [e]), n - 1)
  {
    var f := ReleaseOne(Exec(buffer, es), n);
    e := ReleaseFile(f);
    ExecAppend(buffer, es, e);
  }

  lemma {:induction false} ReleaseAll(buffer: seq<Byte>, es: seq<Event>, n: nat) returns (more: seq<Event>)
    requires Unplugged(Exec(buffer, es), n)
    ensures ReleasesAll(buffer, es, more)
    decreases n
  {
    if n == 0 {
      more := [];
      assert es + more == es;
    } else {
      var e := ReleaseNext(buffer, es, n);
      var rest := ReleaseAll(buffer, es + [e], n - 1);
      more := [e] + rest;
      ReleasesLater(buffer, es, e, rest);
    }
  }

  lemma UnpluggedIsDeleted(buffer: seq<Byte>, es: seq<Event>, first: seq<Event>, second: seq<Event>)
    requires ReleasesAll(buffer, es + first, second)
    ensures Exec(buffer, es + (first + second)).dev.deletes == 1
  {
    assert es + (first + second) == es + first + second;
    DeviceLifetime(buffer, es + (first + second));
  }

  /** From every reachable state the device can be unplugged, its files released and itself deleted. */
  lemma {:induction false} EveryDeviceCanBeDeleted(buffer: seq<Byte>, es: seq<Event>) returns (more: seq<Event>)
    ensures Exec(buffer, es + more).dev.deletes == 1
  {
    var first := Unplug(buffer, es);
    var second := ReleaseAll(buffer, es + first, |Exec(buffer, es + first).dev.files|);
    more := first + second;
    UnpluggedIsDeleted(buffer, es, first, second);
  }
}
