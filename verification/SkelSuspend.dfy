/** What skel_suspend of USB/usbdrv3.c leaves in flight, over all runs. */
module SkelSuspend {
  import opened Bytes
  import opened SkelLog
  import opened SkelModel
  import opened SkelInvariant
  import opened SkelProof
  import opened SkelSteps
  import opened SkelTheorems

  // --------------------------------------------------------- autosuspend

  /**
   The core autosuspends a device only while no file is open.  Then no call is inside the driver,
   and when skel_suspend returns no URB is in flight and no callback is running.
   */
  lemma {:induction false} AutosuspendReturns(buffer: seq<Byte>, es: seq<Event>, move: CoreMove)
    requires Autosuspending(Exec(buffer, es).dev.core) && Exec(buffer, es + [StepCore(move)]).dev.core == Bound
    ensures
      var s := Exec(buffer, es + [StepCore(move)]);
      Quiet(s.dev) && s.calls == map[] && s.dev.files == {}
  {
    InvHolds(buffer, es);
    ExecAppend(buffer, es, StepCore(move));
    QuietReturn(Exec(buffer, es), move);
  }

  lemma QuietReturn(s: State, move: CoreMove)
    requires Inv(s) && Autosuspending(s.dev.core) && CoreStep(s.dev, move).core == Bound
    ensures
      var s' := Step(s, StepCore(move));
      Quiet(s'.dev) && s'.calls == map[] && s'.dev.files == {}
  {
    NoCalls(s);
    CoreEnters(s.dev, move);
    AwaitedRead(s.dev, move);
  }

  lemma FileInUse(s: State, id: nat)
    requires CallsOk(s) && id in s.calls
    ensures s.dev.files != {}
  {
    assert CallOk(s.dev, id, s.calls[id]);
  }

  lemma NoCalls(s: State)
    requires CallsOk(s) && s.dev.files == {}
    ensures s.calls == map[]
  {
    if id :| id in s.calls {
      FileInUse(s, id);
    }
  }

  // ------------------------------------------------------ URBs out and back

  /** The n-th event is a call's submission of write URB `u`. */
  predicate SubmittedAt(buffer: seq<Byte>, es: seq<Event>, n: nat, u: nat) {
    && n < |es| && es[n].StepCall? && es[n].answer.Go?
    && var calls := Exec(buffer, es[..n]).calls;
    es[n].id in calls && calls[es[n].id].Write? && calls[es[n].id].wpc == WSubmit(u)
  }

  /** The n-th event is the end of the callback of write URB `u`. */
  predicate ReleasedAt(buffer: seq<Byte>, es: seq<Event>, n: nat, u: nat) {
    n < |es| && es[n] == ReleaseWrite(u) && u in Exec(buffer, es[..n]).dev.finishing
  }

  /** Write URBs whose callback is not over. */
  function WritesOut(d: Dev): set<nat> {
    d.submitted + d.finishing
  }

  lemma NoneOut(d: Dev)
    ensures NoWrites(d) <==> WritesOut(d) == {}
  {
    if WritesOut(d) == {} {
      assert forall u :: u in d.submitted || u in d.finishing ==> u in WritesOut(d);
    }
  }

  lemma CallMovesOut(d: Dev, id: nat, c: Call, answer: Answer)
    requires CallStep(d, id, c, answer).Moved?
    ensures
      var d' := CallStep(d, id, c, answer).dev;
      WritesOut(d') == WritesOut(d) + (if AtWriteSubmit(c) && answer.Go? then {c.wpc.urb} else {})
  {
    match c
    case Read(_, _, _, _, _) => ReadMovesNoPermit(d, id, c, answer);
    case Write(_, _, _, _) => WriteMovesOut(d, id, c, answer);
    case Flush(_, _) =>
  }

  lemma WriteMovesOut(d: Dev, id: nat, c: Call, answer: Answer)
    requires c.Write? && WriteStep(d, id, c, answer).Moved?
    ensures
      var d' := WriteStep(d, id, c, answer).dev;
      && d'.finishing == d.finishing
      && d'.submitted == d.submitted + (if AtWriteSubmit(c) && answer.Go? then {c.wpc.urb} else {})
  {
  }

  /** The event submits `u`, or ends its callback. */
  predicate Submits(s: State, e: Event, u: nat) {
    && e.StepCall? && e.answer.Go? && e.id in s.calls
    && s.calls[e.id].Write? && s.calls[e.id].wpc == WSubmit(u)
  }

  predicate Releases(s: State, e: Event, u: nat) {
    e == ReleaseWrite(u) && u in s.dev.finishing
  }

  /** A URB comes out by its submission and goes back by the end of its callback, and in no other way. */
  lemma OutStep(s: State, e: Event, u: nat)
    requires s.dev.submitted !! s.dev.finishing
    ensures var out' := WritesOut(Step(s, e).dev);
            if Submits(s, e, u) then u in out'
            else if Releases(s, e, u) then u !in out'
            else u in out' <==> u in WritesOut(s.dev)
  {
    match e
    case StepCall(id, answer) =>
      if id in s.calls && CallStep(s.dev, id, s.calls[id], answer).Moved? {
        CallMovesOut(s.dev, id, s.calls[id], answer);
      }
    case StepCore(move) => CoreFrame(s.dev, move);
    case _ =>
  }

  lemma OutAfter(buffer: seq<Byte>, es: seq<Event>, e: Event, u: nat)
    ensures
      var s, out' := Exec(buffer, es), WritesOut(Exec(buffer, es + [e]).dev);
      if Submits(s, e, u) then u in out'
      else if Releases(s, e, u) then u !in out'
      else u in out' <==> u in WritesOut(s.dev)
  {
    InvHolds(buffer, es);
    ExecAppend(buffer, es, e);
    OutStep(Exec(buffer, es), e, u);
  }

  lemma LastEvent(buffer: seq<Byte>, es: seq<Event>, e: Event, u: nat)
    ensures SubmittedAt(buffer, es + [e], |es|, u) <==> Submits(Exec(buffer, es), e, u)
    ensures ReleasedAt(buffer, es + [e], |es|, u) <==> Releases(Exec(buffer, es), e, u)
  {
    assert (es + [e])[..|es|] == es;
  }

  /** Events that come later do not change what an earlier one was. */
  lemma EarlierEvent(buffer: seq<Byte>, es: seq<Event>, later: seq<Event>, n: nat, u: nat)
    requires n < |es|
    ensures SubmittedAt(buffer, es + later, n, u) <==> SubmittedAt(buffer, es, n, u)
    ensures ReleasedAt(buffer, es + later, n, u) <==> ReleasedAt(buffer, es, n, u)
  {
    assert (es + later)[..n] == es[..n];
  }

  /** A write URB that is out, and was not after `es`, was submitted since. */
  lemma {:induction false} OutSince(buffer: seq<Byte>, es: seq<Event>, mid: seq<Event>, u: nat) returns (n: nat)
    requires u !in WritesOut(Exec(buffer, es).dev) && u in WritesOut(Exec(buffer, es + mid).dev)
    ensures |es| <= n < |es + mid| && SubmittedAt(buffer, es + mid, n, u)
    decreases |mid|
  {
    assert es + [] == es;
    if mid == [] {
      assert false;
    } else {
      var sooner, e := mid[..|mid| - 1], mid[|mid| - 1];
      assert es + mid == (es + sooner) + [e];
      if u in WritesOut(Exec(buffer, es + sooner).dev) {
        n := OutSince(buffer, es, sooner, u);
        EarlierEvent(buffer, es + sooner, [e], n, u);
      } else {
        n := |es + sooner|;
        OutAfter(buffer, es + sooner, e, u);
        LastEvent(buffer, es + sooner, e, u);
      }
    }
  }

  /** A write URB that is back, and was out after `es`, was released since. */
  lemma {:induction false} BackSince(buffer: seq<Byte>, es: seq<Event>, mid: seq<Event>, u: nat) returns (n: nat)
    requires u in WritesOut(Exec(buffer, es).dev) && u !in WritesOut(Exec(buffer, es + mid).dev)
    ensures |es| <= n < |es + mid| && ReleasedAt(buffer, es + mid, n, u)
    decreases |mid|
  {
    assert es + [] == es;
    if mid == [] {
      assert false;
    } else {
      var sooner, e := mid[..|mid| - 1], mid[|mid| - 1];
      assert es + mid == (es + sooner) + [e];
      if u !in WritesOut(Exec(buffer, es + sooner).dev) {
        n := BackSince(buffer, es, sooner, u);
        EarlierEvent(buffer, es + sooner, [e], n, u);
      } else {
        n := |es + sooner|;
        OutAfter(buffer, es + sooner, e, u);
        LastEvent(buffer, es + sooner, e, u);
      }
    }
  }

  /** URB `u` has been used: no call holds it and it is not out, so it never will be again. */
  ghost predicate Spent(s: State, u: nat) {
    && u < s.dev.nextUrb && u !in WritesOut(s.dev)
    && forall id :: id in s.calls && HasUrb(s.calls[id]) ==> s.calls[id].wpc.urb != u
  }

  lemma UrbsGrow(d: Dev, id: nat, c: Call, answer: Answer)
    requires CallStep(d, id, c, answer).Moved?
    ensures CallStep(d, id, c, answer).dev.nextUrb >= d.nextUrb
  {
    if IsIo(c) {
      assert CallStep(d, id, c, answer) == IoStep(d, id, c, answer);
    }
  }

  /** No call comes to hold `u`. */
  lemma UnheldStep(s: State, id: nat, answer: Answer, u: nat)
    requires Spent(s, u) && id in s.calls && CallStep(s.dev, id, s.calls[id], answer).Moved?
    ensures
      var Moved(d', c') := CallStep(s.dev, id, s.calls[id], answer);
      u < d'.nextUrb && (HasUrb(c') ==> c'.wpc.urb != u)
  {
    UrbOrigin(s.dev, id, s.calls[id], answer);
    UrbsGrow(s.dev, id, s.calls[id], answer);
  }

  /** Only a step of a call gives a URB to a call. */
  lemma UnheldElse(s: State, e: Event, u: nat)
    requires u < s.dev.nextUrb && !e.StepCall?
    requires forall id :: id in s.calls && HasUrb(s.calls[id]) ==> s.calls[id].wpc.urb != u
    ensures
      var s' := Step(s, e);
      u < s'.dev.nextUrb && forall id :: id in s'.calls && HasUrb(s'.calls[id]) ==> s'.calls[id].wpc.urb != u
  {
    if e.StepCore? {
      CoreFrame(s.dev, e.move);
    }
  }

  lemma SpentStep(s: State, e: Event, u: nat)
    requires Inv(s) && Spent(s, u)
    ensures Spent(Step(s, e), u)
  {
    OutStep(s, e, u);
    if !e.StepCall? {
      UnheldElse(s, e, u);
    } else if e.id in s.calls && CallStep(s.dev, e.id, s.calls[e.id], e.answer).Moved? {
      UnheldStep(s, e.id, e.answer, u);
    }
  }

  lemma {:induction false} SpentForGood(buffer: seq<Byte>, es: seq<Event>, later: seq<Event>, u: nat)
    requires Spent(Exec(buffer, es), u)
    ensures u !in WritesOut(Exec(buffer, es + later).dev) && Spent(Exec(buffer, es + later), u)
    decreases |later|
  {
    if later == [] {
      assert es + later == es;
    } else {
      var sooner, e := later[..|later| - 1], later[|later| - 1];
      SpentForGood(buffer, es, sooner, u);
      assert es + later == (es + sooner) + [e];
      InvHolds(buffer, es + sooner);
      ExecAppend(buffer, es + sooner, e);
      SpentStep(Exec(buffer, es + sooner), e, u);
    }
  }

  lemma ReleasedIsSpent(s: State, u: nat)
    requires Inv(s) && u in s.dev.finishing
    ensures Spent(Step(s, ReleaseWrite(u)), u)
  {
    OutStep(s, ReleaseWrite(u), u);
    forall id | id in s.calls && HasUrb(s.calls[id]) ensures s.calls[id].wpc.urb != u {
      assert CallOk(s.dev, id, s.calls[id]);
    }
  }

  lemma SpentAfter(buffer: seq<Byte>, es: seq<Event>, u: nat)
    requires u in Exec(buffer, es).dev.finishing
    ensures Spent(Exec(buffer, es + [ReleaseWrite(u)]), u)
  {
    InvHolds(buffer, es);
    ExecAppend(buffer, es, ReleaseWrite(u));
    ReleasedIsSpent(Exec(buffer, es), u);
  }

  /** A URB that was released stays back. */
  lemma StaysBack(buffer: seq<Byte>, es: seq<Event>, n: nat, u: nat)
    requires ReleasedAt(buffer, es, n, u)
    ensures u !in WritesOut(Exec(buffer, es).dev)
  {
    var before, later := es[..n] + [ReleaseWrite(u)], es[n + 1..];
    SpentAfter(buffer, es[..n], u);
    SpentForGood(buffer, before, later, u);
    Rejoined(es, n);
  }

  lemma Rejoined(es: seq<Event>, n: nat)
    requires n < |es|
    ensures es[..n] + [es[n]] + es[n + 1..] == es
  {
  }

  lemma OutRightAfter(buffer: seq<Byte>, es: seq<Event>, n: nat, u: nat)
    requires SubmittedAt(buffer, es, n, u)
    ensures u in WritesOut(Exec(buffer, es[..n + 1]).dev)
  {
    assert es[..n + 1] == es[..n] + [es[n]];
    OutAfter(buffer, es[..n], es[n], u);
  }

  lemma ReleasedSince(buffer: seq<Byte>, es: seq<Event>, n: nat, u: nat) returns (m: nat)
    requires SubmittedAt(buffer, es, n, u) && u !in WritesOut(Exec(buffer, es).dev)
    ensures n < m && ReleasedAt(buffer, es, m, u)
  {
    OutRightAfter(buffer, es, n, u);
    assert es[..n + 1] + es[n + 1..] == es;
    m := BackSince(buffer, es[..n + 1], es[n + 1..], u);
  }

  /** A URB that was submitted is back exactly if it was released afterwards. */
  lemma BackExactly(buffer: seq<Byte>, es: seq<Event>, n: nat, u: nat)
    requires SubmittedAt(buffer, es, n, u)
    ensures u !in WritesOut(Exec(buffer, es).dev) <==> exists m :: n < m && ReleasedAt(buffer, es, m, u)
  {
    if m :| n < m && ReleasedAt(buffer, es, m, u) {
      StaysBack(buffer, es, m, u);
    } else if u !in WritesOut(Exec(buffer, es).dev) {
      var m := ReleasedSince(buffer, es, n, u);
    }
  }

  // -------------------------------------------------------- system sleep

  /** Each write URB submitted after the first `from` events was released afterwards. */
  ghost predicate AllBack(buffer: seq<Byte>, es: seq<Event>, from: nat) {
    forall n, u :: from <= n && SubmittedAt(buffer, es, n, u) ==> exists m :: n < m && ReleasedAt(buffer, es, m, u)
  }

  lemma OutExactly(buffer: seq<Byte>, es: seq<Event>, mid: seq<Event>)
    requires NoWrites(Exec(buffer, es).dev)
    ensures WritesOut(Exec(buffer, es + mid).dev) == {} <==> AllBack(buffer, es + mid, |es|)
  {
    var out := WritesOut(Exec(buffer, es + mid).dev);
    if out == {} {
      forall n, u | |es| <= n && SubmittedAt(buffer, es + mid, n, u)
        ensures exists m :: n < m && ReleasedAt(buffer, es + mid, m, u)
      {
        BackExactly(buffer, es + mid, n, u);
      }
    } else {
      var u :| u in out;
      var n := OutSince(buffer, es, mid, u);
      BackExactly(buffer, es + mid, n, u);
    }
  }

  lemma AwaitedAnchor(d: Dev, move: CoreMove)
    requires UrbsOk(d) && d.core.SuspendWrites? && CoreStep(d, move).core.SuspendRead?
    ensures NoWrites(CoreStep(d, move))
  {
    assert CoreStep(d, move) == SuspendStep(d);
  }

  lemma AwaitedRead(d: Dev, move: CoreMove)
    requires d.core.SuspendRead? && CoreStep(d, move).core == Bound
    ensures ReadKilled(d) && CoreStep(d, move) == d.(core := Bound)
  {
    assert CoreStep(d, move) == SuspendStep(d);
  }

  /** After `es` the core's next step takes skel_suspend past its wait for the anchor. */
  predicate Waits(buffer: seq<Byte>, es: seq<Event>, move: CoreMove) {
    Exec(buffer, es).dev.core.SuspendWrites? && Exec(buffer, es + [StepCore(move)]).dev.core.SuspendRead?
  }

  /** After `es` the core's next step takes it to its return. */
  predicate Returns(buffer: seq<Byte>, es: seq<Event>, move: CoreMove) {
    Exec(buffer, es).dev.core.SuspendRead? && Exec(buffer, es + [StepCore(move)]).dev.core == Bound
  }

  /** skel_suspend is past its wait for the anchor. */
  lemma AnchorAwaited(buffer: seq<Byte>, es: seq<Event>, move: CoreMove)
    requires Waits(buffer, es, move)
    ensures NoWrites(Exec(buffer, es + [StepCore(move)]).dev)
  {
    ExecAppend(buffer, es, StepCore(move));
    InvHolds(buffer, es);
    AnchorEmpty(Exec(buffer, es), move);
  }

  lemma AnchorEmpty(s: State, move: CoreMove)
    requires Inv(s) && s.dev.core.SuspendWrites? && Step(s, StepCore(move)).dev.core.SuspendRead?
    ensures NoWrites(Step(s, StepCore(move)).dev)
  {
    AwaitedAnchor(s.dev, move);
  }

  /** skel_suspend is past its kill of the read URB. */
  lemma ReadAwaited(buffer: seq<Byte>, es: seq<Event>, move: CoreMove)
    requires Returns(buffer, es, move)
    ensures
      var d, d' := Exec(buffer, es).dev, Exec(buffer, es + [StepCore(move)]).dev;
      ReadKilled(d') && WritesOut(d') == WritesOut(d)
  {
    ExecAppend(buffer, es, StepCore(move));
    AwaitedRead(Exec(buffer, es).dev, move);
  }

  /**
   For system sleep skel_suspend is called with files open, and it takes no lock.  No URB is in
   flight and no callback is running when it returns exactly if each write submitted after its wait
   for the anchor was followed by the end of its callback.
   */
  lemma {:induction false} SleepReturns(
      buffer: seq<Byte>, es: seq<Event>, move: CoreMove, mid: seq<Event>, move2: CoreMove)
    requires Waits(buffer, es, move) && Returns(buffer, es + [StepCore(move)] + mid, move2)
    ensures
      var since := es + [StepCore(move)] + mid;
      var d := Exec(buffer, since + [StepCore(move2)]).dev;
      ReadKilled(d) && (Quiet(d) <==> AllBack(buffer, since, |es| + 1))
  {
    AnchorAwaited(buffer, es, move);
    ReadAwaited(buffer, es + [StepCore(move)] + mid, move2);
    OutExactly(buffer, es + [StepCore(move)], mid);
    NoneOut(Exec(buffer, es + [StepCore(move)] + mid + [StepCore(move2)]).dev);
  }

  /** So it returns with nothing in flight when the tasks inside the driver are frozen, as they are for system sleep. */
  lemma {:induction false} FrozenSleepReturns(
      buffer: seq<Byte>, es: seq<Event>, move: CoreMove, mid: seq<Event>, move2: CoreMove)
    requires Waits(buffer, es, move) && Returns(buffer, es + [StepCore(move)] + mid, move2)
    requires forall i :: 0 <= i < |mid| ==> !mid[i].StepCall?
    ensures Quiet(Exec(buffer, es + [StepCore(move)] + mid + [StepCore(move2)]).dev)
  {
    var since := es + [StepCore(move)] + mid;
    SleepReturns(buffer, es, move, mid, move2);
    assert forall n :: |es| + 1 <= n < |since| ==> since[n] == mid[n - |es| - 1];
  }
}
