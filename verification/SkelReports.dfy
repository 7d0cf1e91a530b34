/** When each error latched by USB/usbdrv3.c is reported, and when only once. */
module SkelReports {
  import opened Bytes
  import opened SkelLog
  import opened SkelModel
  import opened SkelInvariant
  import opened SkelSteps
  import opened SkelLedger
  import opened SkelTheorems

  // ------------------------------------------------------ steps on the latch

  predicate CallSteps(s: State, e: Event) {
    e.StepCall? && Legal(e.answer) && e.id in s.calls
  }

  /** A call steps that is at its locked test-and-clear with an error to find. */
  predicate TakeStep(s: State, e: Event) {
    && CallSteps(s, e) && s.dev.errors < 0
    && var c := s.calls[e.id];
    (c.Write? && c.wpc.WErrors?) || (c.Flush? && c.fpc.FErrors?)
  }

  /** A reader stores 0 in the latch, line 263. */
  predicate ClearStep(s: State, e: Event) {
    CallSteps(s, e) && IsClearing(s.calls[e.id])
  }

  /** A completion fails, or skel_post_reset marks the reset. */
  predicate StoreStep(s: State, e: Event) {
    match e
    case CompleteRead(status, data) => status < 0 && ReadCallback(s.dev, status, data) != s.dev
    case CompleteWrite(urb, status) => status < 0 && urb in s.dev.submitted
    case StepCore(_) => s.dev.core.InReset?
    case _ => false
  }

  ghost predicate SomeoneClears(s: State) {
    exists id :: id in s.calls && IsClearing(s.calls[id])
  }

  /** The latch holds the error that a reader has loaded and is about to clear. */
  ghost predicate Claimed(s: State) {
    SomeoneClears(s) && Untouched(s.dev.log)
  }

  /**
   A write tests the latch and finds an error (line 383) while a reader is between its load and
   its store (lines 260 and 263) and nothing was stored in the latch since that load.
   */
  ghost predicate RacyTake(s: State, e: Event) {
    TakeStep(s, e) && s.calls[e.id].Write? && Claimed(s)
  }

  /** An error in the latch that no reader has loaded is overwritten by another, or wiped by a reader. */
  ghost predicate LossyStep(s: State, e: Event) {
    (StoreStep(s, e) || ClearStep(s, e)) && s.dev.errors < 0 && !Claimed(s)
  }

  /** The n-th event is such a step. */
  ghost predicate RacyAt(buffer: seq<Byte>, es: seq<Event>, n: nat) {
    n < |es| && RacyTake(Exec(buffer, es[..n]), es[n])
  }

  ghost predicate LossyAt(buffer: seq<Byte>, es: seq<Event>, n: nat) {
    n < |es| && LossyStep(Exec(buffer, es[..n]), es[n])
  }

  ghost predicate Raceless(buffer: seq<Byte>, es: seq<Event>) {
    forall n :: 0 <= n < |es| ==> !RacyAt(buffer, es, n)
  }

  ghost predicate Lossless(buffer: seq<Byte>, es: seq<Event>) {
    forall n :: 0 <= n < |es| ==> !LossyAt(buffer, es, n)
  }

  // ------------------------------------------------------------ step by step

  /** A step that logs nothing, or an observation of its kind. */
  ghost predicate Logs(log: seq<Obs>, log': seq<Obs>, takes: bool, clears: bool, stores: bool) {
    || (log' == log && !takes && !clears && !stores)
    || exists o ::
         log' == log + [o] && (o.Took? <==> takes) && (o.Cleared? <==> clears) && (Stored(o) != 0 <==> stores)
  }

  lemma LogsOne(log: seq<Obs>, o: Obs)
    ensures Logs(log, log + [o], o.Took?, o.Cleared?, Stored(o) != 0)
  {
  }

  lemma CallLogsKind(d: Dev, id: nat, c: Call, answer: Answer)
    requires d.errors <= 0 && CallStep(d, id, c, answer).Moved?
    ensures
      var takes := d.errors < 0 && ((c.Write? && c.wpc.WErrors?) || (c.Flush? && c.fpc.FErrors?));
      Logs(d.log, CallStep(d, id, c, answer).dev.log, takes, IsClearing(c), false)
  {
    if LatchFree(d, c) {
      CallSilent(d, id, c, answer);
      if CallStep(d, id, c, answer).dev.log != d.log {
        var bytes, fault :| CallStep(d, id, c, answer).dev.log == d.log + [Copied(bytes, fault)];
        LogsOne(d.log, Copied(bytes, fault));
      }
    } else if !c.Read? {
      TakeIs(d, id, c, answer);
      LogsOne(d.log, Took(d.errors, Report(d.errors)));
    } else if IsClearing(c) {
      LogsOne(d.log, Cleared(c.rpc.e, Report(c.rpc.e)));
    } else {
      LogsOne(d.log, Loaded(d.errors));
    }
  }

  lemma CoreLogsKind(d: Dev, move: CoreMove)
    ensures Logs(d.log, CoreStep(d, move).log, false, false, d.core.InReset?)
  {
    CoreLatch(d, move);
    CoreMarks(d, move);
    LogsOne(d.log, ResetMarked);
  }

  lemma CoreMarks(d: Dev, move: CoreMove)
    ensures CoreStep(d, move).log == if d.core.InReset? then d.log + [ResetMarked] else d.log
  {
    if Resetting(d.core) {
      assert CoreStep(d, move) == ResetStep(d);
    } else if Disconnecting(d.core) {
      DisconnectLatch(d);
    }
  }

  lemma CallbackLogsKind(s: State, e: Event)
    requires !e.StepCall? && !e.StepCore?
    ensures Logs(s.dev.log, Step(s, e).dev.log, false, false, StoreStep(s, e))
  {
    match e
    case CompleteRead(status, data) =>
      if ReadCallback(s.dev, status, data) != s.dev {
        LogsOne(s.dev.log, ReadCompleted(s.dev.readUrb.caller, status, data));
      }
    case CompleteWrite(urb, status) =>
      if urb in s.dev.submitted && status <= 0 {
        LogsOne(s.dev.log, WriteCompleted(status));
      }
    case _ =>
  }

  lemma StepLogs(s: State, e: Event)
    requires Inv(s)
    ensures Logs(s.dev.log, Step(s, e).dev.log, TakeStep(s, e), ClearStep(s, e), StoreStep(s, e))
  {
    if e.StepCall? {
      if CallSteps(s, e) {
        assert CallOk(s.dev, e.id, s.calls[e.id]);
        if CallStep(s.dev, e.id, s.calls[e.id], e.answer).Moved? {
          CallLogsKind(s.dev, e.id, s.calls[e.id], e.answer);
        }
      }
    } else if e.StepCore? {
      CoreLogsKind(s.dev, e.move);
    } else {
      CallbackLogsKind(s, e);
    }
  }

  /** Somebody has loaded the latch exactly when a reader is about to clear it. */
  lemma LoadedIsClearing(s: State)
    requires CallsOk(s) && LedgerOk(s)
    ensures LedgerOf(s.dev.log).loaded != 0 <==> SomeoneClears(s)
  {
    if SomeoneClears(s) {
      var id :| id in s.calls && IsClearing(s.calls[id]);
      assert CallOk(s.dev, id, s.calls[id]);
    }
  }

  /** The latch still holds what a reader loaded, or it holds what nobody has picked up. */
  lemma ClaimedIsStale(s: State)
    requires CallsOk(s) && LedgerOk(s)
    ensures
      var l := LedgerOf(s.dev.log);
      (l.stale <==> s.dev.errors != 0 && Claimed(s)) && (Unclaimed(l) == 1 <==> s.dev.errors != 0 && !Claimed(s))
  {
    LoadedIsClearing(s);
    StaleIsUntouched(s.dev.log);
  }

  /** No reader is clearing when a flush takes the latch, since both own io_mutex. */
  lemma TakerIsWrite(s: State, e: Event)
    requires CallsOk(s) && TakeStep(s, e) && SomeoneClears(s)
    ensures s.calls[e.id].Write?
  {
    var id :| id in s.calls && IsClearing(s.calls[id]);
    assert CallOk(s.dev, id, s.calls[id]) && CallOk(s.dev, e.id, s.calls[e.id]);
  }

  lemma {:induction false} PostCounts(log: seq<Obs>, log': seq<Obs>, takes: bool, clears: bool, stores: bool)
    requires Logs(log, log', takes, clears, stores)
    ensures
      var l, l' := LedgerOf(log), LedgerOf(log');
      && l'.doubles == l.doubles + (if takes && l.stale then 1 else 0)
      && l'.lost == l.lost + (if stores || clears then Unclaimed(l) else 0)
  {
    if log' != log || takes || clears || stores {
      var o :| log' == log + [o] && (o.Took? <==> takes) && (o.Cleared? <==> clears) && (Stored(o) != 0 <==> stores);
      ExtendLedger(log, o);
    }
  }

  lemma BooksStep(s: State, e: Event)
    requires Inv(s) && LedgerOk(s)
    ensures
      var l, l' := LedgerOf(s.dev.log), LedgerOf(Step(s, e).dev.log);
      && l'.doubles == l.doubles + (if RacyTake(s, e) then 1 else 0)
      && l'.lost == l.lost + (if LossyStep(s, e) then 1 else 0)
  {
    StepLogs(s, e);
    PostCounts(s.dev.log, Step(s, e).dev.log, TakeStep(s, e), ClearStep(s, e), StoreStep(s, e));
    ClaimedIsStale(s);
    if TakeStep(s, e) && SomeoneClears(s) {
      TakerIsWrite(s, e);
    }
  }

  // --------------------------------------------------------------- every run

  lemma StepsAt(buffer: seq<Byte>, es: seq<Event>, n: nat)
    requires n < |es|
    ensures
      var sooner := es[..|es| - 1];
      if n == |sooner| then
        && (RacyAt(buffer, es, n) <==> RacyTake(Exec(buffer, sooner), es[n]))
        && (LossyAt(buffer, es, n) <==> LossyStep(Exec(buffer, sooner), es[n]))
      else
        && (RacyAt(buffer, es, n) <==> RacyAt(buffer, sooner, n))
        && (LossyAt(buffer, es, n) <==> LossyAt(buffer, sooner, n))
  {
    assert n < |es| - 1 ==> es[..|es| - 1][..n] == es[..n];
  }

  lemma RacelessStep(buffer: seq<Byte>, es: seq<Event>)
    requires es != []
    ensures
      var sooner := es[..|es| - 1];
      Raceless(buffer, es) <==> Raceless(buffer, sooner) && !RacyAt(buffer, es, |sooner|)
  {
    var sooner := es[..|es| - 1];
    if Raceless(buffer, es) {
      forall n: nat | n < |sooner| ensures !RacyAt(buffer, sooner, n) {
        StepsAt(buffer, es, n);
      }
    } else {
      var n: nat :| n < |es| && RacyAt(buffer, es, n);
      StepsAt(buffer, es, n);
    }
  }

  lemma LosslessStep(buffer: seq<Byte>, es: seq<Event>)
    requires es != []
    ensures
      var sooner := es[..|es| - 1];
      Lossless(buffer, es) <==> Lossless(buffer, sooner) && !LossyAt(buffer, es, |sooner|)
  {
    var sooner := es[..|es| - 1];
    if Lossless(buffer, es) {
      forall n: nat | n < |sooner| ensures !LossyAt(buffer, sooner, n) {
        StepsAt(buffer, es, n);
      }
    } else {
      var n: nat :| n < |es| && LossyAt(buffer, es, n);
      StepsAt(buffer, es, n);
    }
  }

  /** The ledger's doubles and losses are the racy and the lossy steps of the run. */
  lemma {:induction false} BooksAreSteps(buffer: seq<Byte>, es: seq<Event>)
    ensures
      var l := LedgerOf(Exec(buffer, es).dev.log);
      (l.doubles == 0 <==> Raceless(buffer, es)) && (l.lost == 0 <==> Lossless(buffer, es))
    decreases |es|
  {
    if es != [] {
      var sooner := es[..|es| - 1];
      BooksAreSteps(buffer, sooner);
      InvHolds(buffer, sooner);
      LedgerHolds(buffer, sooner);
      BooksStep(Exec(buffer, sooner), es[|es| - 1]);
      RacelessStep(buffer, es);
      LosslessStep(buffer, es);
      StepsAt(buffer, es, |sooner|);
    }
  }

  /**
   Every report carries the value the latch held when it was picked up, as -EPIPE or -EIO, and is
   the report of one stored error.  Stores and reports balance but for values reported twice, lost
   or outstanding.
   */
  lemma {:induction false} ErrorsAccounted(buffer: seq<Byte>, es: seq<Event>)
    ensures
      var d := Exec(buffer, es).dev;
      var l := LedgerOf(d.log);
      && HonestLog(d.log) && l.value == d.errors
      && Reports(d.log) == ReportsUpTo(d.log, Stores(d.log))
      && Stores(d.log) + l.doubles == Reports(d.log) + l.lost + Unclaimed(l) + (if l.loaded != 0 then 1 else 0)
  {
    LedgerHolds(buffer, es);
    HonestBalances(Exec(buffer, es).dev.log);
    LedgerCounts(Exec(buffer, es).dev.log);
    ReportsAddUp(Exec(buffer, es).dev.log);
  }

  /**
   Each stored error is picked up to be reported at most once if and only if the run contains no
   racy take.  Without one no error is reported twice and there are no more reports than errors;
   and once no reader is between its load and its store, every run with one has reported some
   error twice.
   */
  lemma {:induction false} ErrorsReportedOnce(buffer: seq<Byte>, es: seq<Event>)
    ensures
      var s := Exec(buffer, es);
      && (PickedUpOnce(s.dev.log) <==> Raceless(buffer, es))
      && (Raceless(buffer, es) ==> ReportedOnce(s.dev.log) && Reports(s.dev.log) <= Stores(s.dev.log))
      && (!SomeoneClears(s) ==> (ReportedOnce(s.dev.log) <==> Raceless(buffer, es)))
  {
    var s := Exec(buffer, es);
    LedgerHolds(buffer, es);
    BooksAreSteps(buffer, es);
    OnceIsNoDouble(s.dev.log);
    OncePickedUp(s.dev.log);
    ErrorsAccounted(buffer, es);
    InvHolds(buffer, es);
    LoadedIsClearing(s);
  }

  /**
   Each stored error is picked up, but for one that is in the latch, if and only if the run contains
   no lossy step.
   */
  lemma {:induction false} ErrorsForgotten(buffer: seq<Byte>, es: seq<Event>)
    ensures NoneForgotten(Exec(buffer, es).dev.log) <==> Lossless(buffer, es)
  {
    LedgerHolds(buffer, es);
    BooksAreSteps(buffer, es);
    LostIsForgotten(Exec(buffer, es).dev.log);
  }

  /** Every error stored was reported, and no error twice. */
  ghost predicate ExactlyOnce(log: seq<Obs>) {
    forall k :: 1 <= k <= Stores(log) ==> ReportsOf(log, k) == 1
  }

  lemma ExactlyOnceIs(log: seq<Obs>)
    requires HonestLog(log) && LedgerOf(log).value == 0 && LedgerOf(log).loaded == 0
    ensures ExactlyOnce(log) <==> PickedUpOnce(log) && NoneForgotten(log)
  {
    forall k: nat
      ensures ReportsOf(log, k) == PickUps(log, k) && (k == 0 || k > Stores(log) ==> PickUps(log, k) == 0)
    {
      PickUpsAreReports(log, k);
      PickUpsSoFar(log, k);
      NoZeroth(log);
    }
  }

  /**
   Any error is reported once: when the latch is empty and no reader is about to clear it, each
   stored error has been reported exactly once if and only if the run contains neither a racy take
   nor a lossy step.
   */
  lemma {:induction false} ErrorsReportedExactlyOnce(buffer: seq<Byte>, es: seq<Event>)
    requires Exec(buffer, es).dev.errors == 0 && !SomeoneClears(Exec(buffer, es))
    ensures ExactlyOnce(Exec(buffer, es).dev.log) <==> Raceless(buffer, es) && Lossless(buffer, es)
  {
    var s := Exec(buffer, es);
    InvHolds(buffer, es);
    LedgerHolds(buffer, es);
    LoadedIsClearing(s);
    ErrorsReportedOnce(buffer, es);
    ErrorsForgotten(buffer, es);
    ExactlyOnceIs(s.dev.log);
  }

  // ---------------------------------------------------------- lost for good

  lemma OvertakenStep(log: seq<Obs>, log': seq<Obs>, takes: bool, clears: bool, stores: bool, k: nat)
    requires Logs(log, log', takes, clears, stores) && k < Stores(log)
    ensures k < Stores(log') && PickUps(log', k) == PickUps(log, k)
  {
    if log' != log {
      var o :| log' == log + [o];
      assert log'[..|log|] == log;
    }
  }

  /** The k-th error was picked up `n` times before another was stored. */
  predicate Overtaken(log: seq<Obs>, k: nat, n: nat) {
    k < Stores(log) && PickUps(log, k) == n
  }

  lemma OvertakenNext(s: State, e: Event, k: nat, n: nat)
    requires Inv(s) && Overtaken(s.dev.log, k, n)
    ensures Overtaken(Step(s, e).dev.log, k, n)
  {
    StepLogs(s, e);
    OvertakenStep(s.dev.log, Step(s, e).dev.log, TakeStep(s, e), ClearStep(s, e), StoreStep(s, e), k);
  }

  /** Such an error is not picked up any more. */
  lemma {:induction false} OvertakenForGood(buffer: seq<Byte>, es: seq<Event>, later: seq<Event>, k: nat, n: nat)
    requires Overtaken(Exec(buffer, es).dev.log, k, n)
    ensures Overtaken(Exec(buffer, es + later).dev.log, k, n)
    decreases |later|
  {
    if later == [] {
      assert es + later == es;
    } else {
      var sooner, e := later[..|later| - 1], later[|later| - 1];
      OvertakenForGood(buffer, es, sooner, k, n);
      assert es + later == (es + sooner) + [e];
      ExecAppend(buffer, es + sooner, e);
      InvHolds(buffer, es + sooner);
      OvertakenNext(Exec(buffer, es + sooner), e, k, n);
    }
  }

  /** So an error that was overtaken before anybody picked it up is never reported. */
  lemma {:induction false} NeverReported(buffer: seq<Byte>, es: seq<Event>, later: seq<Event>, k: nat)
    requires Overtaken(Exec(buffer, es).dev.log, k, 0)
    ensures ReportsOf(Exec(buffer, es + later).dev.log, k) == 0
  {
    OvertakenForGood(buffer, es, later, k, 0);
    LedgerHolds(buffer, es + later);
    PickUpsAreReports(Exec(buffer, es + later).dev.log, k);
  }
}
