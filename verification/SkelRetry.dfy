/** Why a read of USB/usbdrv3.c passes through `retry` again. */
module SkelRetry {
  import opened Bytes
  import opened SkelLog
  import opened SkelModel
  import opened SkelInvariant
  import opened SkelProof
  import opened SkelSteps
  import opened SkelCounts

  /**
   A read in its loop has ended every transfer of its own but the last with an empty completion or
   an error that was taken from it; the last one's bytes or error are still there to be found.
   */
  predicate LoopOk(d: Dev, id: nat, c: Call)
    requires c.Read?
  {
    OutcomesOk(d.log, id, Mine(d, id), c.turns) && FoundOk(d, id, c)
  }

  /** What the log tells of the transfers of a read in its loop; `mine` is 1 if one is in flight. */
  predicate OutcomesOk(log: seq<Obs>, id: nat, mine: nat, t: Turns) {
    && Ends(log, id) == Robbed(log, id) + Findable(log, id)
    && (mine > 0 ==> Findable(log, id) == 0)
    && Zeros(log, id) == t.answered + (if LastEmpty(log, id) && mine == 0 then 1 else 0)
    && Robbed(log, id)
       == t.restarts + (if LastFailed(log, id) && !FailureStands(log, id) && mine == 0 then 1 else 0)
  }

  /** Where the outcome of the last one is to be found. */
  predicate FoundOk(d: Dev, id: nat, c: Call)
    requires c.Read?
  {
    && (c.rpc.RIo? ==> Findable(d.log, id) == 0)
    && (c.turns.passes >= 2 && d.readUrb.InFlight? ==> d.readUrb.caller == id)
    && (FailureStands(d.log, id) ==> d.errors != 0 && !c.rpc.RBuffer?)
    && (LastDelivered(d.log, id) ==> d.filled > 0 && d.copied == 0)
    && (LastFailed(d.log, id) ==> d.filled == 0)
  }

  /** Every pass after the second answers an empty transfer or is a restart after a robbed one. */
  predicate TurnsOk(log: seq<Obs>, id: nat, t: Turns) {
    && t.answered <= Zeros(log, id) && t.restarts <= Robbed(log, id)
    && if t.passes >= 2 then t.passes == 2 + t.answered + t.restarts else t.answered == t.restarts == 0
  }

  predicate RetryOk(d: Dev, id: nat, c: Call) {
    c.Read? ==>
      && TurnsOk(d.log, id, c.turns)
      && (c.rpc.RLock? || c.rpc.RCheck? ==> c.turns.passes == 0)
      && (Looping(c.rpc) ==> LoopOk(d, id, c))
  }

  ghost predicate RetriesOk(s: State) {
    forall id :: id in s.calls ==> RetryOk(s.dev, id, s.calls[id])
  }

  // ------------------------------------------------------ what others do

  /** The log grows by at most one observation. */
  ghost predicate Beyond(log: seq<Obs>, log': seq<Obs>) {
    log' == log || exists o :: log' == log + [o]
  }

  /** A step that leaves the read side alone; it clears the latch only when it logs a take. */
  ghost predicate Aside(d: Dev, d': Dev) {
    && d'.ongoing == d.ongoing && d'.readUrb == d.readUrb && d'.copied == d.copied && d'.filled == d.filled
    && if d'.log == d.log then d.errors != 0 ==> d'.errors != 0
       else exists o :: NotRead(o) && d'.log == d.log + [o] && (d.errors != 0 && d'.errors == 0 ==> o.Took?)
  }

  /** What a read's transfers came to only grows. */
  lemma OutcomesGrow(log: seq<Obs>, log': seq<Obs>, id: nat)
    requires Beyond(log, log')
    ensures Zeros(log', id) >= Zeros(log, id) && Robbed(log', id) >= Robbed(log, id)
  {
    if log' != log {
      var o :| log' == log + [o];
      ExtendEnds(log, o, id);
      ExtendHistory(log, o, id);
    }
  }

  lemma LoopAside(d: Dev, d': Dev, id: nat, c: Call)
    requires c.Read? && LoopOk(d, id, c) && Aside(d, d')
    ensures LoopOk(d', id, c)
  {
    if d'.log != d.log {
      var o :| NotRead(o) && d'.log == d.log + [o] && (d.errors != 0 && d'.errors == 0 ==> o.Took?);
      OutcomesAside(d.log, o, id, Mine(d, id), c.turns);
      ExtendHistory(d.log, o, id);
    }
  }

  lemma OutcomesAside(log: seq<Obs>, o: Obs, id: nat, mine: nat, t: Turns)
    requires OutcomesOk(log, id, mine, t) && NotRead(o)
    ensures OutcomesOk(log + [o], id, mine, t)
  {
    ExtendEnds(log, o, id);
    ExtendHistory(log, o, id);
    OneEnd(log, id);
  }

  lemma RetryAside(d: Dev, d': Dev, id: nat, c: Call)
    requires c.Read? && RetryOk(d, id, c) && Beyond(d.log, d'.log)
    requires Looping(c.rpc) ==> Aside(d, d')
    ensures RetryOk(d', id, c)
  {
    OutcomesGrow(d.log, d'.log, id);
    if Looping(c.rpc) {
      LoopAside(d, d', id, c);
    }
  }

  // ------------------------------------------------------- the reader itself

  /** A step of the read that stays in its loop and starts nothing. */
  lemma LoopStays(d: Dev, id: nat, c: Call, answer: Answer)
    requires c.Read? && DevOk(d) && CallOk(d, id, c) && Linked(d, c)
    requires Looping(c.rpc) && LoopOk(d, id, c) && ReadStep(d, id, c, answer).Moved?
    requires Looping(ReadStep(d, id, c, answer).call.rpc) && ReadStep(d, id, c, answer).dev.readUrb == d.readUrb
    ensures LoopOk(ReadStep(d, id, c, answer).dev, id, ReadStep(d, id, c, answer).call)
  {
    match c.rpc
    case RIo(_, _, _) => IoStays(d, id, c, answer);
    case RBuffer => BufferStays(d, id, c, answer);
    case RErrors => LoadStays(d, id, c, answer);
    case RClear(_) =>
    case _ => WaitStays(d, id, c, answer);
  }

  lemma IoStays(d: Dev, id: nat, c: Call, answer: Answer)
    requires IsIo(c) && CallOk(d, id, c) && Looping(c.rpc) && LoopOk(d, id, c)
    requires Looping(IoStep(d, id, c, answer).call.rpc) && IoStep(d, id, c, answer).dev.readUrb == d.readUrb
    ensures LoopOk(IoStep(d, id, c, answer).dev, id, IoStep(d, id, c, answer).call)
  {
  }

  lemma BufferStays(d: Dev, id: nat, c: Call, answer: Answer)
    requires c.Read? && c.rpc.RBuffer? && DevOk(d) && CallOk(d, id, c) && Linked(d, c) && LoopOk(d, id, c)
    requires Looping(BufferStep(d, c, answer).call.rpc)
    ensures LoopOk(BufferStep(d, c, answer).dev, id, BufferStep(d, c, answer).call)
  {
  }

  lemma LoadStays(d: Dev, id: nat, c: Call, answer: Answer)
    requires c.Read? && c.rpc.RErrors? && d.errors <= 0 && LoopOk(d, id, c)
    ensures LoopOk(ReadStep(d, id, c, answer).dev, id, ReadStep(d, id, c, answer).call)
  {
    var Moved(d', c') := ReadStep(d, id, c, answer);
    if d.errors < 0 {
      assert NotRead(Loaded(d.errors)) && d'.log == d.log + [Loaded(d.errors)];
      LoopAside(d, d', id, c);
    }
  }

  lemma WaitStays(d: Dev, id: nat, c: Call, answer: Answer)
    requires c.Read? && (c.rpc.RRetry? || c.rpc.RWait?) && LoopOk(d, id, c)
    requires ReadStep(d, id, c, answer).Moved?
    ensures LoopOk(ReadStep(d, id, c, answer).dev, id, ReadStep(d, id, c, answer).call)
  {
  }

  /** The pass that a transfer of its own begins. */
  lemma SubmitRetry(d: Dev, id: nat, c: Call, answer: Answer)
    requires IsIo(c) && CallOk(d, id, c) && CountOk(d, id, c) && RetryOk(d, id, c)
    requires IoStep(d, id, c, answer).dev.readUrb != d.readUrb
    ensures RetryOk(IoStep(d, id, c, answer).dev, id, IoStep(d, id, c, answer).call)
  {
    if c.rpc.after.Again? {
      TurnCounts(d, id, c);
    }
  }

  lemma TurnCounts(d: Dev, id: nat, c: Call)
    requires IsIo(c) && Looping(c.rpc) && d.readUrb.Idle? && CountOk(d, id, c) && RetryOk(d, id, c)
    ensures
      var t := NextTurn(c.turns, d.log, id);
      TurnsOk(d.log, id, t) && Zeros(d.log, id) == t.answered && Robbed(d.log, id) == t.restarts
  {
    OneEnd(d.log, id);
    if Zeros(d.log, id) + Ends(d.log, id) == 0 {
      NoHistory(d.log, id);
    }
  }

  /** Where the read enters its loop. */
  lemma EnterRetry(d: Dev, id: nat, c: Call, answer: Answer)
    requires c.Read? && (c.rpc.RLock? || c.rpc.RCheck?) && CountOk(d, id, c) && RetryOk(d, id, c)
    requires ReadStep(d, id, c, answer).Moved?
    ensures RetryOk(ReadStep(d, id, c, answer).dev, id, ReadStep(d, id, c, answer).call)
  {
    NoHistory(d.log, id);
  }

  /** A step that neither starts a transfer nor comes from before the loop. */
  lemma RestRetry(d: Dev, id: nat, c: Call, answer: Answer)
    requires c.Read? && !c.rpc.RLock? && !c.rpc.RCheck? && DevOk(d) && CallOk(d, id, c) && Linked(d, c)
    requires RetryOk(d, id, c)
    requires ReadStep(d, id, c, answer).Moved? && ReadStep(d, id, c, answer).dev.readUrb == d.readUrb
    ensures RetryOk(ReadStep(d, id, c, answer).dev, id, ReadStep(d, id, c, answer).call)
  {
    var Moved(d', c') := ReadStep(d, id, c, answer);
    CallGrows(d, id, c, answer);
    OutcomesGrow(d.log, d'.log, id);
    LoopPosition(d, id, c, answer);
    PassesStay(d, id, c, answer);
    if Looping(c'.rpc) {
      LoopStays(d, id, c, answer);
    }
  }

  /** Only a transfer started, or the entry to the loop, counts a pass. */
  lemma PassesStay(d: Dev, id: nat, c: Call, answer: Answer)
    requires c.Read? && !c.rpc.RCheck? && (IsIo(c) ==> d.readUrb.Idle?)
    requires ReadStep(d, id, c, answer).Moved? && ReadStep(d, id, c, answer).dev.readUrb == d.readUrb
    ensures ReadStep(d, id, c, answer).call.turns == c.turns
  {
    if IsIo(c) {
      IoPassesStay(d, id, c, answer);
    }
  }

  lemma IoPassesStay(d: Dev, id: nat, c: Call, answer: Answer)
    requires IsIo(c) && d.readUrb.Idle? && IoStep(d, id, c, answer).dev.readUrb == d.readUrb
    ensures IoStep(d, id, c, answer).call.Read? && IoStep(d, id, c, answer).call.turns == c.turns
  {
  }

  lemma ReadRetry(d: Dev, id: nat, c: Call, answer: Answer)
    requires c.Read? && DevOk(d) && CallOk(d, id, c) && Linked(d, c) && CountOk(d, id, c) && RetryOk(d, id, c)
    requires ReadStep(d, id, c, answer).Moved?
    ensures RetryOk(ReadStep(d, id, c, answer).dev, id, ReadStep(d, id, c, answer).call)
  {
    if c.rpc.RLock? || c.rpc.RCheck? {
      EnterRetry(d, id, c, answer);
    } else if ReadStep(d, id, c, answer).dev.readUrb == d.readUrb {
      RestRetry(d, id, c, answer);
    } else {
      UrbChange(d, id, c, answer);
      SubmitRetry(d, id, c, answer);
    }
  }

  lemma CallGrows(d: Dev, id: nat, c: Call, answer: Answer)
    requires CallStep(d, id, c, answer).Moved?
    ensures Beyond(d.log, CallStep(d, id, c, answer).dev.log)
  {
    CallLogs(d, id, c, answer);
  }

  // ------------------------------------------------------ everybody else

  lemma OffsideAside(d: Dev, id: nat, c: Call, answer: Answer)
    requires CallStep(d, id, c, answer).Moved? && !HasMutex(c) && !HasMutex(CallStep(d, id, c, answer).call)
    ensures Aside(d, CallStep(d, id, c, answer).dev)
  {
    OffsideFrame(d, id, c, answer);
    assert NotRead(Took(d.errors, Report(d.errors)));
  }

  lemma CallRetryBeside(d: Dev, id: nat, c: Call, answer: Answer, id2: nat, c2: Call)
    requires Beside(d, id, c, id2, c2) && c2.Read? && RetryOk(d, id2, c2)
    requires Kept(id, CallStep(d, id, c, answer)) && CallStep(d, id, c, answer).Moved?
    ensures RetryOk(CallStep(d, id, c, answer).dev, id2, c2)
  {
    CallGrows(d, id, c, answer);
    if Looping(c2.rpc) {
      CallKeptBeside(d, id, c, answer, id2, c2);
      OffsideAside(d, id, c, answer);
    }
    RetryAside(d, CallStep(d, id, c, answer).dev, id2, c2);
  }

  lemma CallRetries(s: State, id: nat, answer: Answer)
    requires Inv(s) && CountsOk(s) && RetriesOk(s) && id in s.calls && Legal(answer)
    requires CallStep(s.dev, id, s.calls[id], answer).Moved?
    ensures
      var Moved(d', c') := CallStep(s.dev, id, s.calls[id], answer);
      RetriesOk(State(d', s.calls[id := c']))
  {
    var c := s.calls[id];
    var Moved(d', c') := CallStep(s.dev, id, c, answer);
    assert CallOk(s.dev, id, c) && CountOk(s.dev, id, c) && RetryOk(s.dev, id, c);
    CallKept(s.dev, id, c, answer);
    if c.Read? {
      ReadRetry(s.dev, id, c, answer);
    } else {
      KindStays(s.dev, id, c, answer);
    }
    forall j | j in s.calls && j != id && s.calls[j].Read? ensures RetryOk(d', j, s.calls[j]) {
      CallRetryBeside(s.dev, id, c, answer, j, s.calls[j]);
    }
  }

  // -------------------------------------------------------------- callbacks

  /** The read's own transfer completes. */
  lemma OwnCompletion(d: Dev, status: int, data: seq<Byte>, id: nat, c: Call)
    requires c.Read? && UrbsOk(d) && CallOk(d, id, c) && LoopOk(d, id, c) && Looping(c.rpc) && Mine(d, id) == 1
    requires ReadCallback(d, status, data) != d
    ensures LoopOk(ReadCallback(d, status, data), id, c)
  {
    OutcomesCompleted(d.log, id, status, data, c.turns);
    ExtendHistory(d.log, ReadCompleted(id, status, data), id);
  }

  lemma OutcomesCompleted(log: seq<Obs>, id: nat, status: int, data: seq<Byte>, t: Turns)
    requires OutcomesOk(log, id, 1, t)
    ensures OutcomesOk(log + [ReadCompleted(id, status, data)], id, 0, t)
  {
    ExtendEnds(log, ReadCompleted(id, status, data), id);
    ExtendHistory(log, ReadCompleted(id, status, data), id);
    OneEnd(log, id);
  }

  /** Somebody else's does, which can only happen before the read has started one. */
  lemma OtherCompletion(d: Dev, status: int, data: seq<Byte>, id: nat, c: Call)
    requires c.Read? && UrbsOk(d) && CallOk(d, id, c) && CountOk(d, id, c) && LoopOk(d, id, c) && Looping(c.rpc)
    requires Mine(d, id) == 0 && ReadCallback(d, status, data) != d
    ensures LoopOk(ReadCallback(d, status, data), id, c)
  {
    NoHistory(d.log, id);
    ExtendEnds(d.log, ReadCompleted(d.readUrb.caller, status, data), id);
    ExtendHistory(d.log, ReadCompleted(d.readUrb.caller, status, data), id);
  }

  lemma ReadCallbackRetry(d: Dev, status: int, data: seq<Byte>, id: nat, c: Call)
    requires UrbsOk(d) && CallOk(d, id, c) && CountOk(d, id, c) && RetryOk(d, id, c)
    ensures RetryOk(ReadCallback(d, status, data), id, c)
  {
    var d' := ReadCallback(d, status, data);
    if c.Read? && d' != d {
      assert d'.log == d.log + [ReadCompleted(d.readUrb.caller, status, data)];
      OutcomesGrow(d.log, d'.log, id);
      if Looping(c.rpc) {
        if Mine(d, id) == 1 {
          OwnCompletion(d, status, data, id, c);
        } else {
          OtherCompletion(d, status, data, id, c);
        }
      }
    }
  }

  lemma ReadCallbackRetries(s: State, status: int, data: seq<Byte>)
    requires Inv(s) && CountsOk(s) && RetriesOk(s)
    ensures RetriesOk(s.(dev := ReadCallback(s.dev, status, data)))
  {
    forall id | id in s.calls ensures RetryOk(ReadCallback(s.dev, status, data), id, s.calls[id]) {
      assert CallOk(s.dev, id, s.calls[id]) && CountOk(s.dev, id, s.calls[id]) && RetryOk(s.dev, id, s.calls[id]);
      ReadCallbackRetry(s.dev, status, data, id, s.calls[id]);
    }
  }

  lemma DevRetries(s: State, d': Dev)
    requires RetriesOk(s) && Aside(s.dev, d')
    ensures RetriesOk(s.(dev := d'))
  {
    forall id | id in s.calls && s.calls[id].Read? ensures RetryOk(d', id, s.calls[id]) {
      assert RetryOk(s.dev, id, s.calls[id]);
      RetryAside(s.dev, d', id, s.calls[id]);
    }
  }

  // -------------------------------------------------------------- every run

  lemma CallbackRetries(s: State, e: Event)
    requires Inv(s) && CountsOk(s) && RetriesOk(s) && IsCallback(e)
    ensures RetriesOk(s.(dev := CallbackDev(s.dev, e)))
  {
    if e.CompleteRead? {
      ReadCallbackRetries(s, e.status, e.data);
    } else {
      CallbackAside(s.dev, e);
      DevRetries(s, CallbackDev(s.dev, e));
    }
  }

  lemma CallbackAside(d: Dev, e: Event)
    requires IsCallback(e) && !e.CompleteRead?
    ensures Aside(d, CallbackDev(d, e))
  {
    if e.CompleteWrite? {
      assert NotRead(WriteCompleted(e.status));
    }
  }

  lemma TaskRetries(s: State, e: Event)
    requires Inv(s) && CountsOk(s) && RetriesOk(s) && (e.StepCall? || e.FinishCall? || e.StepCore?)
    ensures RetriesOk(Step(s, e))
  {
    if e.StepCall? {
      if e.id in s.calls && Legal(e.answer) {
        assert Step(s, e) == CallMoves(s, e.id, e.answer);
        if CallStep(s.dev, e.id, s.calls[e.id], e.answer).Moved? {
          CallRetries(s, e.id, e.answer);
        }
      }
    } else if e.StepCore? {
      assert Step(s, e) == s.(dev := CoreStep(s.dev, e.move));
      CoreRetries(s, e.move);
    }
  }

  lemma RetryStep(s: State, e: Event)
    requires Inv(s) && CountsOk(s) && RetriesOk(s)
    ensures RetriesOk(Step(s, e))
  {
    if Starts(e) {
      assert Step(s, e) == Begin(s, NewCall(e));
      BeginRetries(s, NewCall(e));
    } else if IsCallback(e) {
      assert Step(s, e) == s.(dev := CallbackDev(s.dev, e));
      CallbackRetries(s, e);
    } else if e.OpenFile? || e.ReleaseFile? {
      FileRetries(s, e);
    } else {
      TaskRetries(s, e);
    }
  }

  lemma CoreRetries(s: State, move: CoreMove)
    requires RetriesOk(s)
    ensures RetriesOk(s.(dev := CoreStep(s.dev, move)))
  {
    CoreFrame(s.dev, move);
    assert NotRead(ResetMarked);
    DevRetries(s, CoreStep(s.dev, move));
  }

  lemma FileRetries(s: State, e: Event)
    requires RetriesOk(s) && (e.OpenFile? || e.ReleaseFile?)
    ensures RetriesOk(Step(s, e))
  {
    DevRetries(s, Step(s, e).dev);
  }

  lemma BeginRetries(s: State, c: Call)
    requires RetriesOk(s) && Fresh(c)
    ensures RetriesOk(Begin(s, c))
  {
    DevRetries(s, s.dev.(nextCall := s.dev.nextCall + 1));
    FreshRetry(s.dev.(nextCall := s.dev.nextCall + 1), s.dev.nextCall, c);
  }

  lemma FreshRetry(d: Dev, id: nat, c: Call)
    requires Fresh(c)
    ensures RetryOk(d, id, c)
  {
  }

  lemma {:induction false} RetriesHold(buffer: seq<Byte>, es: seq<Event>)
    ensures RetriesOk(Exec(buffer, es))
    decreases |es|
  {
    if es != [] {
      RetriesHold(buffer, es[..|es| - 1]);
      CountsHold(buffer, es[..|es| - 1]);
      InvHolds(buffer, es[..|es| - 1]);
      RetryStep(Exec(buffer, es[..|es| - 1]), es[|es| - 1]);
    }
  }
}
