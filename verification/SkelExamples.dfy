/**
 Three runs of the driver of USB/usbdrv3.c that its comments rule out: an error reported twice,
 a reset that is never reported, and a read that goes back to `retry` although none of its
 transfers came back empty.
 */
module SkelExamples {
  import opened Bytes
  import opened Errno
  import opened SkelLog
  import opened SkelModel
  import opened SkelTheorems
  import opened SkelReports

  const MEMORY: seq<Byte> := [0]

  lemma Then(es: seq<Event>, s: State, e: Event, s': State) returns (es': seq<Event>)
    requires Exec(MEMORY, es) == s && Step(s, e) == s'
    ensures es' == es + [e] && Exec(MEMORY, es') == s'
  {
    ExecAppend(MEMORY, es, e);
    es' := es + [e];
  }

  /** Call 0 takes one step that succeeds. */
  lemma ThenRead(es: seq<Event>, d: Dev, others: map<nat, Call>, c: Call, d': Dev, c': Call) returns (es': seq<Event>)
    requires Exec(MEMORY, es) == State(d, others[0 := c]) && CallStep(d, 0, c, Go) == Moved(d', c')
    ensures Exec(MEMORY, es') == State(d', others[0 := c'])
  {
    assert others[0 := c][0 := c'] == others[0 := c'];
    es' := Then(es, State(d, others[0 := c]), StepCall(0, Go), State(d', others[0 := c']));
  }

  /** Probed, with file 0 open. */
  function Opened(): Dev {
    Init(MEMORY).dev.(core := Bound, kref := 2, files := {0})
  }

  lemma Open() returns (es: seq<Event>)
    ensures Exec(MEMORY, es) == State(Opened(), map[])
  {
    var s0 := Init(MEMORY);
    var s1 := s0.(dev := s0.dev.(core := Bound));
    es := Then([], s0, StepCore(Advance), s1);
    es := Then(es, s1, OpenFile(0), State(Opened(), map[]));
  }

  /** The device after a reset: -EPIPE is latched. */
  function AfterReset(d: Dev): Dev {
    d.(errors := EPIPE, log := d.log + [ResetMarked])
  }

  /** The core resets a device with nothing in flight, whatever calls are waiting. */
  lemma ResetOnce(es0: seq<Event>, d: Dev, calls: map<nat, Call>) returns (es: seq<Event>)
    requires Exec(MEMORY, es0) == State(d, calls) && d.core == Bound && d.mutex.Free? && Drained(d) && ReadKilled(d)
    ensures Exec(MEMORY, es) == State(AfterReset(d), calls)
  {
    var d1 := d.(core := PreResetLock);
    var d2 := d.(mutex := ByCore, core := PreResetWrites);
    es := Then(es0, State(d, calls), StepCore(Reset), State(d1, calls));
    es := Then(es, State(d1, calls), StepCore(Advance), State(d2, calls));
    es := ResetRest(es, d2, calls);
    assert AfterReset(d2).(mutex := Free, core := Bound) == AfterReset(d);
  }

  lemma ResetRest(es0: seq<Event>, d: Dev, calls: map<nat, Call>) returns (es: seq<Event>)
    requires Exec(MEMORY, es0) == State(d, calls) && d.core == PreResetWrites && Drained(d) && ReadKilled(d)
    ensures Exec(MEMORY, es) == State(AfterReset(d).(mutex := Free, core := Bound), calls)
  {
    var d3 := d.(core := PreResetRead);
    var d4 := d.(core := InReset);
    es := Then(es0, State(d, calls), StepCore(Advance), State(d3, calls));
    es := Then(es, State(d3, calls), StepCore(Advance), State(d4, calls));
    es := ResetMark(es, d4, calls);
  }

  lemma ResetMark(es0: seq<Event>, d: Dev, calls: map<nat, Call>) returns (es: seq<Event>)
    requires Exec(MEMORY, es0) == State(d, calls) && d.core == InReset
    ensures Exec(MEMORY, es) == State(AfterReset(d).(mutex := Free, core := Bound), calls)
  {
    var d1 := AfterReset(d).(core := PostResetUnlock);
    es := Then(es0, State(d, calls), StepCore(Advance), State(d1, calls));
    es := Then(es, State(d1, calls), StepCore(Advance), State(d1.(mutex := Free, core := Bound), calls));
  }

  /** Call 0, a read of one byte from file 0. */
  function Reader(pc: ReadPc, turns: Turns): Call {
    Read(0, 1, false, pc, turns)
  }

  const NO_TURN := Turns(0, 0, 0)
  const FIRST := Turns(1, 0, 0)
  const SECOND := Turns(2, 0, 0)

  /** Call 1, a write of one byte to file 0. */
  function Writer(pc: WritePc): Call {
    Write(0, 1, false, pc)
  }

  /** A read starts on an open device and comes to its test of the latch. */
  lemma ReachErrors(es0: seq<Event>, d: Dev) returns (es: seq<Event>)
    requires Exec(MEMORY, es0) == State(d, map[])
    requires 0 in d.files && d.nextCall == 0 && d.mutex.Free? && !d.disconnected && !d.ongoing
    ensures Exec(MEMORY, es) == State(d.(nextCall := 1, mutex := ByCall(0)), map[0 := Reader(RErrors, FIRST)])
  {
    var d1 := d.(nextCall := 1);
    var m := d1.(mutex := ByCall(0));
    es := Then(es0, State(d, map[]), StartRead(0, 1, false), State(d1, map[0 := Reader(RLock, NO_TURN)]));
    es := Then(es, State(d1, map[0 := Reader(RLock, NO_TURN)]), StepCall(0, Go),
               State(m, map[0 := Reader(RCheck, NO_TURN)]));
    es := Then(es, State(m, map[0 := Reader(RCheck, NO_TURN)]), StepCall(0, Go),
               State(m, map[0 := Reader(RRetry, FIRST)]));
    es := Then(es, State(m, map[0 := Reader(RRetry, FIRST)]), StepCall(0, Go),
               State(m, map[0 := Reader(RErrors, FIRST)]));
  }

  /** A write starts beside call 0 and picks up the latched error. */
  lemma WriteTakes(es0: seq<Event>, d: Dev, r: Call) returns (es: seq<Event>)
    requires Exec(MEMORY, es0) == State(d, map[0 := r])
    requires 0 in d.files && d.nextCall == 1 && d.permits == 8 && d.errors < 0
    ensures
      var rv := Report(d.errors);
      Exec(MEMORY, es) == State(d.(nextCall := 2, permits := 7, errors := 0, log := d.log + [Took(d.errors, rv)]),
                                map[0 := r, 1 := Writer(WUp(rv))])
  {
    var d1 := d.(nextCall := 2);
    es := Then(es0, State(d, map[0 := r]), StartWrite(0, 1, false), State(d1, map[0 := r, 1 := Writer(WDown)]));
    es := TakeNow(es, d1, r);
  }

  lemma TakeNow(es0: seq<Event>, d: Dev, r: Call) returns (es: seq<Event>)
    requires Exec(MEMORY, es0) == State(d, map[0 := r, 1 := Writer(WDown)]) && d.permits == 8 && d.errors < 0
    ensures
      var rv := Report(d.errors);
      Exec(MEMORY, es) == State(d.(permits := 7, errors := 0, log := d.log + [Took(d.errors, rv)]),
                                map[0 := r, 1 := Writer(WUp(rv))])
  {
    var d2 := d.(permits := 7);
    var rv := Report(d.errors);
    var d3 := d2.(errors := 0, log := d.log + [Took(d.errors, rv)]);
    es := Then(es0, State(d, map[0 := r, 1 := Writer(WDown)]), StepCall(1, Go),
               State(d2, map[0 := r, 1 := Writer(WErrors)]));
    es := Then(es, State(d2, map[0 := r, 1 := Writer(WErrors)]), StepCall(1, Go),
               State(d3, map[0 := r, 1 := Writer(WUp(rv))]));
  }

  /**
   "Any error is reported once" (line 262) fails: one reset is reported both by the write that
   takes the latch between lines 260 and 263 and by the read.
   */
  lemma {:induction false} ReportedTwice() returns (es: seq<Event>)
    ensures
      var s := Exec(MEMORY, es);
      && Stores(s.dev.log) == 1 && ReportsOf(s.dev.log, 1) == 2
      && s.calls == map[0 := Reader(RExit(EPIPE), FIRST), 1 := Writer(WUp(EPIPE))]
  {
    es := LoadedThenTaken();
    var d := AfterReset(Opened()).(nextCall := 2, mutex := ByCall(0), permits := 7, errors := 0);
    var d2 := d.(log := [ResetMarked, Loaded(EPIPE), Took(EPIPE, EPIPE)]);
    var d3 := d.(log := [ResetMarked, Loaded(EPIPE), Took(EPIPE, EPIPE), Cleared(EPIPE, EPIPE)]);
    es := Then(es, State(d2, map[0 := Reader(RClear(EPIPE), FIRST), 1 := Writer(WUp(EPIPE))]), StepCall(0, Go),
               State(d3, map[0 := Reader(RExit(EPIPE), FIRST), 1 := Writer(WUp(EPIPE))]));
    TwoReports();
  }

  lemma LoadedThenTaken() returns (es: seq<Event>)
    ensures Exec(MEMORY, es)
              == State(AfterReset(Opened()).(nextCall := 2, mutex := ByCall(0), permits := 7, errors := 0,
                                     log := [ResetMarked, Loaded(EPIPE), Took(EPIPE, EPIPE)]),
                       map[0 := Reader(RClear(EPIPE), FIRST), 1 := Writer(WUp(EPIPE))])
  {
    es := Open();
    es := ResetOnce(es, Opened(), map[]);
    es := ReachErrors(es, AfterReset(Opened()));
    var d := AfterReset(Opened()).(nextCall := 1, mutex := ByCall(0));
    var d1 := d.(log := [ResetMarked, Loaded(EPIPE)]);
    es := Then(es, State(d, map[0 := Reader(RErrors, FIRST)]), StepCall(0, Go),
               State(d1, map[0 := Reader(RClear(EPIPE), FIRST)]));
    es := WriteTakes(es, d1, Reader(RClear(EPIPE), FIRST));
  }

  lemma TwoReports()
    ensures
      var log := [ResetMarked, Loaded(EPIPE), Took(EPIPE, EPIPE), Cleared(EPIPE, EPIPE)];
      Stores(log) == 1 && ReportsOf(log, 1) == 2
  {
    var l1 := [ResetMarked];
    var l2 := [ResetMarked, Loaded(EPIPE)];
    var l3 := [ResetMarked, Loaded(EPIPE), Took(EPIPE, EPIPE)];
    var l4 := [ResetMarked, Loaded(EPIPE), Took(EPIPE, EPIPE), Cleared(EPIPE, EPIPE)];
    assert l1[..0] == [] && l2[..1] == l1 && l3[..2] == l2 && l4[..3] == l3;
    assert Stores(l1) == 1 && ReportsOf(l1, 1) == 0;
    assert Stores(l2) == 1 && ReportsOf(l2, 1) == 0 && LoadOrdinal(l2) == 1;
    assert Stores(l3) == 1 && ReportsOf(l3, 1) == 1 && LoadOrdinal(l3) == 1;
  }

  /** Call 0 starts a transfer from RBuffer and is back at `retry`. */
  lemma StartTransfer(es0: seq<Event>, d: Dev, others: map<nat, Call>, t: Turns) returns (es: seq<Event>)
    requires Exec(MEMORY, es0) == State(d, others[0 := Reader(RBuffer, t)])
    requires d.filled == 0 && d.copied == 0 && |d.buf| == 1 && 0 !in others
    ensures Exec(MEMORY, es)
              == State(d.(ongoing := true, readUrb := InFlight(1, 0)),
                       others[0 := Reader(RRetry, NextTurn(t, d.log, 0))])
  {
    var o := d.(ongoing := true);
    es := ThenRead(es0, d, others, Reader(RBuffer, t), d, Transferring(IoMark, t));
    es := ThenRead(es, d, others, Transferring(IoMark, t), o, Transferring(IoFilled, t));
    es := FinishTransfer(es, o, others, t);
  }

  lemma FinishTransfer(es0: seq<Event>, o: Dev, others: map<nat, Call>, t: Turns) returns (es: seq<Event>)
    requires Exec(MEMORY, es0) == State(o, others[0 := Transferring(IoFilled, t)])
    requires o.filled == 0 && o.copied == 0 && |o.buf| == 1
    ensures Exec(MEMORY, es)
              == State(o.(readUrb := InFlight(1, 0)), others[0 := Reader(RRetry, NextTurn(t, o.log, 0))])
  {
    assert o.(filled := 0) == o && o.(copied := 0) == o;
    IoSteps(o, t);
    es := ThenRead(es0, o, others, Transferring(IoFilled, t), o, Transferring(IoCopied, t));
    es := ThenRead(es, o, others, Transferring(IoCopied, t), o, Transferring(IoSubmit, t));
    es := ThenRead(es, o, others, Transferring(IoSubmit, t), o.(readUrb := InFlight(1, 0)),
                   Reader(RRetry, NextTurn(t, o.log, 0)));
  }

  lemma IoSteps(o: Dev, t: Turns)
    requires o.filled == 0 && o.copied == 0 && |o.buf| == 1
    ensures CallStep(o, 0, Transferring(IoFilled, t), Go) == Moved(o, Transferring(IoCopied, t))
    ensures CallStep(o, 0, Transferring(IoCopied, t), Go) == Moved(o, Transferring(IoSubmit, t))
    ensures CallStep(o, 0, Transferring(IoSubmit, t), Go)
              == Moved(o.(readUrb := InFlight(1, 0)), Reader(RRetry, NextTurn(t, o.log, 0)))
  {
    assert o.(filled := 0) == o && o.(copied := 0) == o;
  }

  function Transferring(io: IoPc, t: Turns): Call {
    Reader(RIo(io, 1, Again), t)
  }

  /**
   Two passes plus one per empty transfer is not a bound: a write picks up the error of the
   read's own failed transfer, so the read finds neither data nor an error and starts over.
   */
  lemma {:induction false} RetriedForNothing() returns (es: seq<Event>)
    ensures
      var s := Exec(MEMORY, es);
      && 0 in s.calls && s.calls[0].Read? && s.calls[0].turns == Turns(3, 0, 1) && Zeros(s.dev.log, 0) == 0
      && Robbed(s.dev.log, 0) == 1
  {
    es := OwnTransferFails();
    es := WriteTakes(es, Failed(), Reader(RRetry, SECOND));
    es := RetryAgain(es, Failed().(nextCall := 2, permits := 7, errors := 0, log := FAILED + [Took(EIO, EIO)]));
    FailedThenTaken();
  }

  const FAILED := [ReadCompleted(0, EIO, [])]

  /** The device when the transfer of call 0 has failed. */
  function Failed(): Dev {
    Opened().(nextCall := 1, mutex := ByCall(0), errors := EIO, wakers := 1, log := FAILED)
  }

  lemma OwnTransferFails() returns (es: seq<Event>)
    ensures Exec(MEMORY, es) == State(Failed(), map[0 := Reader(RRetry, SECOND)])
  {
    var no: map<nat, Call> := map[];
    es := Open();
    es := ReachErrors(es, Opened());
    var d := Opened().(nextCall := 1, mutex := ByCall(0));
    es := Then(es, State(d, map[0 := Reader(RErrors, FIRST)]), StepCall(0, Go),
               State(d, map[0 := Reader(RBuffer, FIRST)]));
    assert map[0 := Reader(RBuffer, FIRST)] == no[0 := Reader(RBuffer, FIRST)];
    es := StartTransfer(es, d, no, FIRST);
    assert map[0 := Reader(RRetry, SECOND)] == no[0 := Reader(RRetry, SECOND)];
    es := TransferFails(es, d);
  }

  lemma TransferFails(es0: seq<Event>, d: Dev) returns (es: seq<Event>)
    requires d == Opened().(nextCall := 1, mutex := ByCall(0))
    requires Exec(MEMORY, es0)
               == State(d.(ongoing := true, readUrb := InFlight(1, 0)), map[0 := Reader(RRetry, SECOND)])
    ensures Exec(MEMORY, es) == State(Failed(), map[0 := Reader(RRetry, SECOND)])
  {
    var d1 := d.(ongoing := true, readUrb := InFlight(1, 0));
    assert ReadCallback(d1, EIO, []) == Failed();
    es := Then(es0, State(d1, map[0 := Reader(RRetry, SECOND)]), CompleteRead(EIO, []),
               State(Failed(), map[0 := Reader(RRetry, SECOND)]));
  }

  lemma RetryAgain(es0: seq<Event>, d: Dev) returns (es: seq<Event>)
    requires Exec(MEMORY, es0) == State(d, map[0 := Reader(RRetry, SECOND), 1 := Writer(WUp(EIO))])
    requires d.filled == 0 && d.copied == 0 && |d.buf| == 1 && !d.ongoing && d.errors == 0
    ensures
      var s := Exec(MEMORY, es);
      s.dev.log == d.log && 0 in s.calls && s.calls[0] == Reader(RRetry, NextTurn(SECOND, d.log, 0))
  {
    var w := map[1 := Writer(WUp(EIO))];
    assert map[0 := Reader(RRetry, SECOND), 1 := Writer(WUp(EIO))] == w[0 := Reader(RRetry, SECOND)];
    es := ThenRead(es0, d, w, Reader(RRetry, SECOND), d, Reader(RErrors, SECOND));
    es := ThenRead(es, d, w, Reader(RErrors, SECOND), d, Reader(RBuffer, SECOND));
    es := StartTransfer(es, d, w, SECOND);
  }

  lemma FailedThenTaken()
    ensures
      var log := FAILED + [Took(EIO, EIO)];
      Zeros(log, 0) == 0 && Robbed(log, 0) == 1 && LastFailed(log, 0) && !LastEmpty(log, 0)
  {
    assert FAILED == [] + FAILED;
    ExtendHistory([], FAILED[0], 0);
    ExtendEnds([], FAILED[0], 0);
    ExtendHistory(FAILED, Took(EIO, EIO), 0);
    ExtendEnds(FAILED, Took(EIO, EIO), 0);
  }

  // ---------------------------------------------------------- a reset forgotten

  /** Call 0, a write, at `pc` on device `d`. */
  function Writing(d: Dev, pc: WritePc): State {
    State(d, map[0 := Writer(pc)])
  }

  /** The device when call 0 holds write URB 0. */
  function Allocated(): Dev {
    Opened().(nextCall := 1, permits := 7, nextUrb := 1)
  }

  /** A write starts, finds no error and comes to its mutex_lock. */
  lemma ReachLock() returns (es: seq<Event>)
    ensures Exec(MEMORY, es) == Writing(Allocated(), WLock(0))
  {
    var d := Opened().(nextCall := 1);
    var d1 := d.(permits := 7);
    es := Open();
    es := Then(es, State(Opened(), map[]), StartWrite(0, 1, false), Writing(d, WDown));
    es := Then(es, Writing(d, WDown), StepCall(0, Go), Writing(d1, WErrors));
    es := Then(es, Writing(d1, WErrors), StepCall(0, Go), Writing(d1, WAlloc));
    es := Allocate(es, d1);
  }

  lemma Allocate(es0: seq<Event>, d: Dev) returns (es: seq<Event>)
    requires Exec(MEMORY, es0) == Writing(d, WAlloc) && d.nextUrb == 0
    ensures Exec(MEMORY, es) == Writing(d.(nextUrb := 1), WLock(0))
  {
    var d1 := d.(nextUrb := 1);
    es := Then(es0, Writing(d, WAlloc), StepCall(0, Go), Writing(d1, WBuffer(0)));
    es := Then(es, Writing(d1, WBuffer(0)), StepCall(0, Go), Writing(d1, WLock(0)));
  }

  lemma LockAnchor(es0: seq<Event>, d: Dev) returns (es: seq<Event>)
    requires Exec(MEMORY, es0) == Writing(d, WLock(0)) && d.mutex.Free? && !d.disconnected
    ensures Exec(MEMORY, es) == Writing(d.(mutex := ByCall(0)), WAnchor(0))
  {
    var d1 := d.(mutex := ByCall(0));
    es := Then(es0, Writing(d, WLock(0)), StepCall(0, Go), Writing(d1, WCheck(0)));
    es := Then(es, Writing(d1, WCheck(0)), StepCall(0, Go), Writing(d1, WAnchor(0)));
  }

  lemma SubmitFails(es0: seq<Event>, d: Dev) returns (es: seq<Event>)
    requires Exec(MEMORY, es0) == Writing(d, WAnchor(0)) && d.anchored == {} && d.submitted == {}
    ensures Exec(MEMORY, es).dev.log == d.log + [WriteCompleted(EPROTO)]
  {
    var d1 := d.(anchored := {0});
    var d2 := d1.(submitted := {0});
    es := Then(es0, Writing(d, WAnchor(0)), StepCall(0, Go), Writing(d1, WSubmit(0)));
    es := Then(es, Writing(d1, WSubmit(0)), StepCall(0, Go), Writing(d2, WUnlock));
    es := WriteFails(es, d2);
  }

  lemma WriteFails(es0: seq<Event>, d: Dev) returns (es: seq<Event>)
    requires Exec(MEMORY, es0) == Writing(d, WUnlock) && 0 in d.submitted
    ensures Exec(MEMORY, es).dev.log == d.log + [WriteCompleted(EPROTO)]
  {
    es := Then(es0, Writing(d, WUnlock), CompleteWrite(0, EPROTO), Writing(WriteCallback(d, 0, EPROTO), WUnlock));
  }

  /**
   "To preserve notifications about reset" (line 264) fails too: a write that has passed its test of
   the latch before a reset, and fails after it, overwrites the mark.  Whatever happens afterwards,
   that reset is never reported.
   */
  lemma {:induction false} ResetForgotten() returns (es: seq<Event>)
    ensures Exec(MEMORY, es).dev.log == [ResetMarked, WriteCompleted(EPROTO)]
    ensures forall later :: ReportsOf(Exec(MEMORY, es + later).dev.log, 1) == 0
  {
    es := ResetThenFails();
    Overwritten();
    forall later ensures ReportsOf(Exec(MEMORY, es + later).dev.log, 1) == 0 {
      NeverReported(MEMORY, es, later, 1);
    }
  }

  lemma ResetThenFails() returns (es: seq<Event>)
    ensures Exec(MEMORY, es).dev.log == [ResetMarked, WriteCompleted(EPROTO)]
  {
    es := ReachLock();
    es := ResetOnce(es, Allocated(), map[0 := Writer(WLock(0))]);
    es := LockAnchor(es, AfterReset(Allocated()));
    es := SubmitFails(es, AfterReset(Allocated()).(mutex := ByCall(0)));
  }

  lemma Overwritten()
    ensures
      var log := [ResetMarked, WriteCompleted(EPROTO)];
      Stores(log) == 2 && PickUps(log, 1) == 0
  {
    var log := [ResetMarked, WriteCompleted(EPROTO)];
    assert log[..1] == [ResetMarked] && [ResetMarked][..0] == [];
    assert Stores([ResetMarked]) == 1 && PickUps([ResetMarked], 1) == 0;
  }
}
