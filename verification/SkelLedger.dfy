/** The latched error word of USB/usbdrv3.c: every run keeps honest books of it. */
module SkelLedger {
  import opened Bytes
  import opened Errno
  import opened SkelLog
  import opened SkelModel
  import opened SkelInvariant
  import opened SkelProof
  import opened SkelSteps

  /** The part of LedgerOk that only the log and the latch decide. */
  ghost predicate BooksOk(d: Dev) {
    HonestLog(d.log) && LedgerOf(d.log).value == d.errors
  }

  /** What a clearing reader, and only it, has loaded. */
  ghost predicate LoadOk(s: State) {
    var loaded := LedgerOf(s.dev.log).loaded;
    && (loaded != 0 ==> Owned(s) && IsClearing(s.calls[s.dev.mutex.id]))
    && (forall id :: id in s.calls && IsClearing(s.calls[id]) ==> loaded == s.calls[id].rpc.e)
  }

  /** The step logs nothing about the latch. */
  ghost predicate Silent(d: Dev, d': Dev) {
    d'.errors == d.errors && (d'.log == d.log || exists bytes, fault :: d'.log == d.log + [Copied(bytes, fault)])
  }

  lemma SilentBooks(d: Dev, d': Dev)
    requires BooksOk(d) && Silent(d, d')
    ensures BooksOk(d') && LedgerOf(d'.log) == LedgerOf(d.log)
  {
    if d'.log != d.log {
      var bytes, fault :| d'.log == d.log + [Copied(bytes, fault)];
      ExtendLedger(d.log, Copied(bytes, fault));
    }
  }

  /** A call that is neither about to load nor to clear the latch, nor to take it. */
  predicate LatchFree(d: Dev, c: Call) {
    && !IsClearing(c)
    && (d.errors == 0
        || !((c.Read? && c.rpc.RErrors?) || (c.Write? && c.wpc.WErrors?) || (c.Flush? && c.fpc.FErrors?)))
  }

  lemma BufferSilent(d: Dev, c: Call, answer: Answer)
    requires c.Read? && c.rpc.RBuffer?
    ensures Silent(d, BufferStep(d, c, answer).dev)
    ensures !IsClearing(BufferStep(d, c, answer).call)
  {
    var d' := BufferStep(d, c, answer).dev;
    if d'.log != d.log {
      assert d'.log == d.log + [Copied(d'.log[|d.log|].bytes, answer.Fail?)];
    }
  }

  lemma ReadSilent(d: Dev, id: nat, c: Call, answer: Answer)
    requires c.Read? && !c.rpc.RBuffer? && d.errors <= 0 && LatchFree(d, c) && ReadStep(d, id, c, answer).Moved?
    ensures var d' := ReadStep(d, id, c, answer).dev; d'.log == d.log && d'.errors == d.errors
    ensures !IsClearing(ReadStep(d, id, c, answer).call)
  {
  }

  lemma WriteSilent(d: Dev, id: nat, c: Call, answer: Answer)
    requires c.Write? && d.errors <= 0 && LatchFree(d, c) && WriteStep(d, id, c, answer).Moved?
    ensures var d' := WriteStep(d, id, c, answer).dev; d'.log == d.log && d'.errors == d.errors
    ensures !IsClearing(WriteStep(d, id, c, answer).call)
  {
  }

  lemma CallSilent(d: Dev, id: nat, c: Call, answer: Answer)
    requires d.errors <= 0 && LatchFree(d, c) && CallStep(d, id, c, answer).Moved?
    ensures Silent(d, CallStep(d, id, c, answer).dev)
    ensures !IsClearing(CallStep(d, id, c, answer).call)
  {
    match c
    case Read(_, _, _, pc, _) =>
      if pc.RBuffer? {
        BufferSilent(d, c, answer);
      } else {
        ReadSilent(d, id, c, answer);
      }
    case Write(_, _, _, _) => WriteSilent(d, id, c, answer);
    case Flush(_, _) =>
  }

  /** What is loaded after a step of `c`. */
  ghost function LoadedAfter(d: Dev, c: Call, c': Call): int {
    if IsClearing(c') then c'.rpc.e else if IsClearing(c) then 0 else LedgerOf(d.log).loaded
  }

  lemma LoadBooks(d: Dev)
    requires d.errors < 0 && BooksOk(d) && LedgerOf(d.log).loaded == 0
    ensures BooksOk(d.(log := d.log + [Loaded(d.errors)])) && LedgerOf(d.log + [Loaded(d.errors)]).loaded == d.errors
  {
    ExtendLedger(d.log, Loaded(d.errors));
  }

  lemma ClearBooks(d: Dev, e: int)
    requires BooksOk(d) && LedgerOf(d.log).loaded == e < 0
    ensures BooksOk(d.(errors := 0, log := d.log + [Cleared(e, Report(e))]))
    ensures LedgerOf(d.log + [Cleared(e, Report(e))]).loaded == 0
  {
    ExtendLedger(d.log, Cleared(e, Report(e)));
  }

  /** The reader's two accesses of the latch. */
  lemma ReadBooks(d: Dev, id: nat, c: Call, answer: Answer)
    requires c.Read? && d.errors <= 0 && BooksOk(d) && !LatchFree(d, c) && ReadStep(d, id, c, answer).Moved?
    requires if IsClearing(c) then LedgerOf(d.log).loaded == c.rpc.e < 0 else LedgerOf(d.log).loaded == 0
    ensures
      var Moved(d', c') := ReadStep(d, id, c, answer);
      BooksOk(d') && LedgerOf(d'.log).loaded == LoadedAfter(d, c, c')
  {
    if IsClearing(c) {
      ClearBooks(d, c.rpc.e);
    } else {
      LoadBooks(d);
    }
  }

  /** The test-and-clear of a write or a flush. */
  lemma TakeBooks(d: Dev, id: nat, c: Call, answer: Answer)
    requires !c.Read? && d.errors <= 0 && BooksOk(d) && !LatchFree(d, c) && CallStep(d, id, c, answer).Moved?
    ensures
      var Moved(d', c') := CallStep(d, id, c, answer);
      BooksOk(d') && LedgerOf(d'.log).loaded == LoadedAfter(d, c, c')
  {
    TakeIs(d, id, c, answer);
    TookBooks(d);
    BooksFollow(d.(errors := 0, log := d.log + [Took(d.errors, Report(d.errors))]), CallStep(d, id, c, answer).dev);
  }

  /** The books depend on nothing but the log and the latch. */
  lemma BooksFollow(d: Dev, d': Dev)
    requires BooksOk(d) && d'.log == d.log && d'.errors == d.errors
    ensures BooksOk(d')
  {
  }

  lemma TookBooks(d: Dev)
    requires d.errors < 0 && BooksOk(d)
    ensures BooksOk(d.(errors := 0, log := d.log + [Took(d.errors, Report(d.errors))]))
    ensures LedgerOf(d.log + [Took(d.errors, Report(d.errors))]).loaded == LedgerOf(d.log).loaded
  {
    ExtendLedger(d.log, Took(d.errors, Report(d.errors)));
  }

  lemma TakeIs(d: Dev, id: nat, c: Call, answer: Answer)
    requires !c.Read? && d.errors <= 0 && !LatchFree(d, c)
    ensures
      var m := CallStep(d, id, c, answer);
      && m.Moved? && !IsClearing(c) && !IsClearing(m.call)
      && m.dev.errors == 0 && m.dev.log == d.log + [Took(d.errors, Report(d.errors))]
  {
  }

  lemma CallLedger(s: State, id: nat, answer: Answer)
    requires Inv(s) && LedgerOk(s) && id in s.calls && Legal(answer)
    requires CallStep(s.dev, id, s.calls[id], answer).Moved?
    ensures
      var Moved(d', c') := CallStep(s.dev, id, s.calls[id], answer);
      LedgerOk(State(d', s.calls[id := c']))
  {
    var c := s.calls[id];
    assert CallOk(s.dev, id, c);
    CallKept(s.dev, id, c, answer);
    if LatchFree(s.dev, c) {
      CallSilent(s.dev, id, c, answer);
      SilentBooks(s.dev, CallStep(s.dev, id, c, answer).dev);
    } else if c.Read? {
      ReadBooks(s.dev, id, c, answer);
    } else {
      TakeBooks(s.dev, id, c, answer);
    }
    CallLoads(s, id, answer);
  }

  lemma CallLoads(s: State, id: nat, answer: Answer)
    requires Inv(s) && LoadOk(s) && id in s.calls && CallStep(s.dev, id, s.calls[id], answer).Moved?
    requires Kept(id, CallStep(s.dev, id, s.calls[id], answer))
    requires
      var c, Moved(d', c') := s.calls[id], CallStep(s.dev, id, s.calls[id], answer);
      LedgerOf(d'.log).loaded == LoadedAfter(s.dev, c, c')
    ensures
      var Moved(d', c') := CallStep(s.dev, id, s.calls[id], answer);
      LoadOk(State(d', s.calls[id := c']))
  {
    var c := s.calls[id];
    var d' := CallStep(s.dev, id, c, answer).dev;
    OwnerClears(s, id, answer);
    forall j | j in s.calls && IsClearing(s.calls[j]) && j != id ensures LedgerOf(d'.log).loaded == s.calls[j].rpc.e {
      assert CallOk(s.dev, j, s.calls[j]);
      CallKeptBeside(s.dev, id, c, answer, j, s.calls[j]);
    }
  }

  lemma OwnerClears(s: State, id: nat, answer: Answer)
    requires CallsOk(s) && LoadOk(s) && id in s.calls && CallStep(s.dev, id, s.calls[id], answer).Moved?
    requires Kept(id, CallStep(s.dev, id, s.calls[id], answer))
    requires
      var c, Moved(d', c') := s.calls[id], CallStep(s.dev, id, s.calls[id], answer);
      LedgerOf(d'.log).loaded == LoadedAfter(s.dev, c, c')
    ensures
      var Moved(d', c') := CallStep(s.dev, id, s.calls[id], answer);
      var s' := State(d', s.calls[id := c']);
      LedgerOf(d'.log).loaded != 0 ==> Owned(s') && IsClearing(s'.calls[s'.dev.mutex.id])
  {
    var c := s.calls[id];
    var c' := CallStep(s.dev, id, c, answer).call;
    assert CallOk(s.dev, id, c);
    if !HasMutex(c) && !HasMutex(c') {
      OffsideFrame(s.dev, id, c, answer);
    } else if !HasMutex(c) {
      MutexTaken(s.dev, id, c, answer);
    }
  }

  /** A call takes io_mutex only when it is free. */
  lemma MutexTaken(d: Dev, id: nat, c: Call, answer: Answer)
    requires !HasMutex(c) && CallStep(d, id, c, answer).Moved? && HasMutex(CallStep(d, id, c, answer).call)
    ensures d.mutex.Free?
  {
  }

  /** Callbacks and post_reset store in the latch; they pick nothing up. */
  lemma StoreBooks(d: Dev, o: Obs)
    requires BooksOk(d) && Stored(o) <= 0 && (o.ReadCompleted? || o.WriteCompleted? || o.ResetMarked?)
    ensures HonestLog(d.log + [o])
    ensures LedgerOf(d.log + [o]).value == if Stored(o) != 0 then Stored(o) else d.errors
    ensures LedgerOf(d.log + [o]).loaded == LedgerOf(d.log).loaded
  {
    ExtendLedger(d.log, o);
  }

  lemma DevLedger(s: State, d': Dev)
    requires LedgerOk(s) && BooksOk(d') && LedgerOf(d'.log).loaded == LedgerOf(s.dev.log).loaded
    requires d'.mutex == s.dev.mutex || !s.dev.mutex.ByCall?
    ensures LedgerOk(s.(dev := d'))
  {
  }

  lemma CoreLedger(s: State, move: CoreMove)
    requires Inv(s) && LedgerOk(s)
    ensures LedgerOk(s.(dev := CoreStep(s.dev, move)))
  {
    StoreBooks(s.dev, ResetMarked);
    CoreFrame(s.dev, move);
    CoreLatch(s.dev, move);
    DevLedger(s, CoreStep(s.dev, move));
  }

  lemma CoreLatch(d: Dev, move: CoreMove)
    ensures
      var d' := CoreStep(d, move);
      if d'.log == d.log then d'.errors == d.errors else d'.log == d.log + [ResetMarked] && d'.errors == EPIPE
  {
    if Resetting(d.core) {
      ResetLatch(d);
    } else if Disconnecting(d.core) {
      DisconnectLatch(d);
    }
  }

  lemma ResetLatch(d: Dev)
    requires Resetting(d.core)
    ensures
      var d' := ResetStep(d);
      if d'.log == d.log then d'.errors == d.errors else d'.log == d.log + [ResetMarked] && d'.errors == EPIPE
  {
  }

  lemma DisconnectLatch(d: Dev)
    requires Disconnecting(d.core)
    ensures DisconnectStep(d).log == d.log && DisconnectStep(d).errors == d.errors
  {
  }

  lemma ReadDoneLedger(s: State, status: int, data: seq<Byte>)
    requires LedgerOk(s)
    ensures LedgerOk(s.(dev := ReadCallback(s.dev, status, data)))
  {
    if s.dev.readUrb.InFlight? && status <= 0 {
      StoreBooks(s.dev, ReadCompleted(s.dev.readUrb.caller, status, data));
    }
    DevLedger(s, ReadCallback(s.dev, status, data));
  }

  lemma WriteDoneLedger(s: State, urb: nat, status: int)
    requires LedgerOk(s)
    ensures LedgerOk(s.(dev := WriteCallback(s.dev, urb, status)))
  {
    if status <= 0 {
      StoreBooks(s.dev, WriteCompleted(status));
    }
    DevLedger(s, WriteCallback(s.dev, urb, status));
  }

  lemma FileLedger(s: State, e: Event)
    requires LedgerOk(s) && (e.OpenFile? || e.ReleaseFile?)
    ensures LedgerOk(Step(s, e))
  {
    DevLedger(s, Step(s, e).dev);
  }

  lemma BeginLedger(s: State, c: Call)
    requires LedgerOk(s) && s.dev.nextCall !in s.calls && Fresh(c)
    ensures LedgerOk(Begin(s, c))
  {
    DevLedger(s, s.dev.(nextCall := s.dev.nextCall + 1));
  }

  lemma CallbackLedger(s: State, e: Event)
    requires LedgerOk(s) && IsCallback(e)
    ensures LedgerOk(s.(dev := CallbackDev(s.dev, e)))
  {
    match e
    case CompleteRead(status, data) => ReadDoneLedger(s, status, data);
    case ReleaseRead => DevLedger(s, ReadCallbackUp(s.dev));
    case CompleteWrite(urb, status) => WriteDoneLedger(s, urb, status);
    case ReleaseWrite(urb) => DevLedger(s, WriteCallbackUp(s.dev, urb));
  }

  lemma FinishLedger(s: State, id: nat)
    requires CallsOk(s) && LedgerOk(s)
    ensures LedgerOk(Step(s, FinishCall(id)))
  {
    if id in s.calls {
      assert CallOk(s.dev, id, s.calls[id]);
    }
  }

  lemma TaskLedger(s: State, e: Event)
    requires Inv(s) && LedgerOk(s) && (e.StepCall? || e.FinishCall? || e.StepCore?)
    ensures LedgerOk(Step(s, e))
  {
    if e.StepCall? {
      if e.id in s.calls && Legal(e.answer) {
        assert Step(s, e) == CallMoves(s, e.id, e.answer);
        if CallStep(s.dev, e.id, s.calls[e.id], e.answer).Moved? {
          CallLedger(s, e.id, e.answer);
        }
      }
    } else if e.StepCore? {
      assert Step(s, e) == s.(dev := CoreStep(s.dev, e.move));
      CoreLedger(s, e.move);
    } else {
      FinishLedger(s, e.id);
    }
  }

  lemma LedgerStep(s: State, e: Event)
    requires Inv(s) && LedgerOk(s)
    ensures LedgerOk(Step(s, e))
  {
    if Starts(e) {
      assert Step(s, e) == Begin(s, NewCall(e));
      NextCallFree(s);
      BeginLedger(s, NewCall(e));
    } else if IsCallback(e) {
      assert Step(s, e) == s.(dev := CallbackDev(s.dev, e));
      CallbackLedger(s, e);
    } else if e.OpenFile? || e.ReleaseFile? {
      FileLedger(s, e);
    } else {
      TaskLedger(s, e);
    }
  }

  lemma {:induction false} LedgerHolds(buffer: seq<Byte>, es: seq<Event>)
    ensures LedgerOk(Exec(buffer, es))
    decreases |es|
  {
    if es != [] {
      LedgerHolds(buffer, es[..|es| - 1]);
      InvHolds(buffer, es[..|es| - 1]);
      LedgerStep(Exec(buffer, es[..|es| - 1]), es[|es| - 1]);
    }
  }
}
