/**
 What an observer of the driver of USB/usbdrv3.c sees, and the quantities its
 properties are about, each read off the log of a run alone.
 */
module SkelLog {
  import opened Bytes
  import opened Errno

  datatype Obs =
    | ReadCompleted(caller: nat, status: int, data: seq<Byte>)
    | WriteCompleted(status: int)
    | ResetMarked
    | Copied(bytes: seq<Byte>, fault: bool)
    | Took(e: int, rv: int)     // test-and-clear of the latch under err_lock
    | Loaded(e: int)            // the reader's unlocked load, line 260
    | Cleared(e: int, rv: int)  // the reader's unlocked store, line 263

  // ---------------------------------------------------------- byte stream

  function PayloadOf(o: Obs): seq<Byte> {
    if o.ReadCompleted? && o.status == 0 then o.data else []
  }

  /** Every byte a successful bulk-in transfer brought, in order. */
  function Payloads(log: seq<Obs>): seq<Byte> {
    if log == [] then [] else Payloads(log[..|log| - 1]) + PayloadOf(log[|log| - 1])
  }

  function ConsumedOf(o: Obs): seq<Byte> {
    if o.Copied? then o.bytes else []
  }

  /** Every byte skel_read took out of the buffer, copied successfully or not. */
  function Consumed(log: seq<Obs>): seq<Byte> {
    if log == [] then [] else Consumed(log[..|log| - 1]) + ConsumedOf(log[|log| - 1])
  }

  function DeliveredOf(o: Obs): seq<Byte> {
    if o.Copied? && !o.fault then o.bytes else []
  }

  /** Every byte that reached a user buffer. */
  function Delivered(log: seq<Obs>): seq<Byte> {
    if log == [] then [] else Delivered(log[..|log| - 1]) + DeliveredOf(log[|log| - 1])
  }

  predicate FaultFree(log: seq<Obs>) {
    forall i :: 0 <= i < |log| ==> !(log[i].Copied? && log[i].fault)
  }

  /** No copy is empty. */
  predicate CopiesOk(log: seq<Obs>) {
    forall i :: 0 <= i < |log| && log[i].Copied? ==> log[i].bytes != []
  }

  // ------------------------------------------------------- retry counting

  function IsZero(o: Obs, caller: nat): nat {
    if o.ReadCompleted? && o.status == 0 && o.data == [] && o.caller == caller then 1 else 0
  }

  /** How many transfers started by `caller` completed with no bytes. */
  function Zeros(log: seq<Obs>, caller: nat): nat {
    if log == [] then 0 else Zeros(log[..|log| - 1], caller) + IsZero(log[|log| - 1], caller)
  }

  function IsEnd(o: Obs, caller: nat): nat {
    if o.ReadCompleted? && o.caller == caller && (o.status != 0 || o.data != []) then 1 else 0
  }

  /** How many transfers started by `caller` delivered bytes or failed. */
  function Ends(log: seq<Obs>, caller: nat): nat {
    if log == [] then 0 else Ends(log[..|log| - 1], caller) + IsEnd(log[|log| - 1], caller)
  }

  /** The last transfer of `caller` to complete failed. */
  predicate LastFailed(log: seq<Obs>, caller: nat) {
    if log == [] then false
    else
      var last := log[|log| - 1];
      if last.ReadCompleted? && last.caller == caller then last.status != 0
      else LastFailed(log[..|log| - 1], caller)
  }

  /** The last transfer of `caller` to complete brought no bytes. */
  predicate LastEmpty(log: seq<Obs>, caller: nat) {
    if log == [] then false
    else
      var last := log[|log| - 1];
      if last.ReadCompleted? && last.caller == caller then last.status == 0 && last.data == []
      else LastEmpty(log[..|log| - 1], caller)
  }

  /** The last transfer of `caller` to complete brought bytes. */
  predicate LastDelivered(log: seq<Obs>, caller: nat) {
    if log == [] then false
    else
      var last := log[|log| - 1];
      if last.ReadCompleted? && last.caller == caller then last.status == 0 && last.data != []
      else LastDelivered(log[..|log| - 1], caller)
  }

  /** The last transfer of `caller` to complete failed, and nobody has taken the latch since. */
  predicate FailureStands(log: seq<Obs>, caller: nat) {
    if log == [] then false
    else
      var last := log[|log| - 1];
      if last.ReadCompleted? && last.caller == caller then last.status != 0
      else !last.Took? && FailureStands(log[..|log| - 1], caller)
  }

  /** How many failed transfers of `caller` were followed by a take before the next one completed. */
  function Robbed(log: seq<Obs>, caller: nat): nat {
    if log == [] then 0
    else
      Robbed(log[..|log| - 1], caller)
      + (if log[|log| - 1].Took? && FailureStands(log[..|log| - 1], caller) then 1 else 0)
  }

  /** A transfer of `caller` has ended with bytes or an error that may still be found. */
  function Findable(log: seq<Obs>, caller: nat): nat {
    if LastDelivered(log, caller) || FailureStands(log, caller) then 1 else 0
  }

  // -------------------------------------------------------- error ledger

  /** The value an observation stores in the latch; 0 when it stores none. */
  function Stored(o: Obs): int {
    match o
    case ReadCompleted(_, status, _) => status
    case WriteCompleted(status) => status
    case ResetMarked => EPIPE
    case _ => 0
  }

  /** Failed completions plus resets. */
  function Stores(log: seq<Obs>): nat {
    if log == [] then 0 else Stores(log[..|log| - 1]) + (if Stored(log[|log| - 1]) != 0 then 1 else 0)
  }

  /** Calls that returned a latched error. */
  function Reports(log: seq<Obs>): nat {
    if log == [] then 0
    else Reports(log[..|log| - 1]) + (if log[|log| - 1].Took? || log[|log| - 1].Cleared? then 1 else 0)
  }

  /** How often the k-th error stored was read out of the latch to be reported. */
  function PickUps(log: seq<Obs>, k: nat): nat {
    if log == [] then 0
    else
      var before, last := log[..|log| - 1], log[|log| - 1];
      PickUps(before, k) + (if (last.Took? || last.Loaded?) && Stores(before) == k then 1 else 0)
  }

  /** Which of the errors stored a reader loaded last. */
  function LoadOrdinal(log: seq<Obs>): nat {
    if log == [] then 0
    else if log[|log| - 1].Loaded? then Stores(log[..|log| - 1])
    else LoadOrdinal(log[..|log| - 1])
  }

  /** How often the k-th error stored was reported, by a take or by the reader that had loaded it. */
  function ReportsOf(log: seq<Obs>, k: nat): nat {
    if log == [] then 0
    else
      var before, last := log[..|log| - 1], log[|log| - 1];
      ReportsOf(before, k)
      + (if (last.Took? && Stores(before) == k) || (last.Cleared? && LoadOrdinal(before) == k) then 1 else 0)
  }

  /** Every error stored was read out of the latch at most once. */
  ghost predicate PickedUpOnce(log: seq<Obs>) {
    forall k :: PickUps(log, k) <= 1
  }

  /** Every error stored was read out of the latch, but for the last one if it is still there to be. */
  ghost predicate NoneForgotten(log: seq<Obs>) {
    forall k :: 1 <= k <= Stores(log) ==>
      PickUps(log, k) >= 1 || (k == Stores(log) && Unclaimed(LedgerOf(log)) == 1)
  }

  /** Every error stored was reported at most once. */
  ghost predicate ReportedOnce(log: seq<Obs>) {
    forall k :: ReportsOf(log, k) <= 1
  }

  /** Nothing was stored in the latch since a reader last loaded it. */
  predicate Untouched(log: seq<Obs>) {
    log != [] && (log[|log| - 1].Loaded? || (Stored(log[|log| - 1]) == 0 && Untouched(log[..|log| - 1])))
  }

  /**
   The bookkeeping of the latched error word over a log.
   `value`: what the word holds.  `loaded`: what a reader has loaded and not yet cleared, or 0.
   `stale`: the word still holds what that reader loaded.
   `doubles`: values reported by both the reader and a locked test-and-clear.
   `lost`: values overwritten, or wiped by a reader that had loaded an older one.
   */
  datatype Ledger = Ledger(stores: nat, reports: nat, doubles: nat, lost: nat, value: int, loaded: int, stale: bool)

  /** The word holds a value that nobody has picked up. */
  function Unclaimed(l: Ledger): nat {
    if l.value != 0 && !l.stale then 1 else 0
  }

  function Post(l: Ledger, o: Obs): Ledger {
    if Stored(o) != 0 then
      l.(stores := l.stores + 1, lost := l.lost + Unclaimed(l), value := Stored(o), stale := false)
    else
      match o
      case Took(_, _) =>
        l.(reports := l.reports + 1, doubles := l.doubles + (if l.stale then 1 else 0), value := 0, stale := false)
      case Loaded(e) => l.(loaded := e, stale := true)
      case Cleared(_, _) =>
        l.(reports := l.reports + 1, lost := l.lost + Unclaimed(l), value := 0, loaded := 0, stale := false)
      case _ => l
  }

  function LedgerOf(log: seq<Obs>): Ledger {
    if log == [] then Ledger(0, 0, 0, 0, 0, 0, false)
    else Post(LedgerOf(log[..|log| - 1]), log[|log| - 1])
  }

  /** A report carries -EPIPE for a latched -EPIPE and -EIO for every other error. */
  predicate Reported(e: int, rv: int) {
    e < 0 && (rv == EPIPE <==> e == EPIPE) && (rv == EIO <==> e != EPIPE)
  }

  /** An observation that fits the books: what is reported is what the latch held when it was picked up. */
  predicate Honest(l: Ledger, o: Obs) {
    match o
    case Took(e, rv) => e == l.value && Reported(e, rv)
    case Loaded(e) => e == l.value && e < 0 && l.loaded == 0
    case Cleared(e, rv) => e == l.loaded && Reported(e, rv)
    case _ => Stored(o) <= 0
  }

  ghost predicate HonestLog(log: seq<Obs>) {
    log == [] || (HonestLog(log[..|log| - 1]) && Honest(LedgerOf(log[..|log| - 1]), log[|log| - 1]))
  }

  /** Values stored, counting twice those reported twice, are reported, lost or still outstanding. */
  ghost predicate Balanced(l: Ledger) {
    && l.value <= 0 && l.loaded <= 0
    && (l.stale ==> l.value != 0 && l.loaded != 0)
    && l.stores + l.doubles == l.reports + l.lost + Unclaimed(l) + (if l.loaded != 0 then 1 else 0)
  }

  // ------------------------------------------------------------- lemmas

  /** The byte streams grow by the last observation's share. */
  lemma ExtendStreams(log: seq<Obs>, o: Obs)
    ensures Payloads(log + [o]) == Payloads(log) + PayloadOf(o)
    ensures Consumed(log + [o]) == Consumed(log) + ConsumedOf(o)
    ensures Delivered(log + [o]) == Delivered(log) + DeliveredOf(o)
  {
    assert (log + [o])[..|log|] == log;
  }

  lemma ExtendEnds(log: seq<Obs>, o: Obs, caller: nat)
    ensures Zeros(log + [o], caller) == Zeros(log, caller) + IsZero(o, caller)
    ensures Ends(log + [o], caller) == Ends(log, caller) + IsEnd(o, caller)
  {
    assert (log + [o])[..|log|] == log;
  }

  /** An observation that is not about a transfer of `caller` moves its history only by a take. */
  lemma ExtendHistory(log: seq<Obs>, o: Obs, caller: nat)
    ensures
      var log' := log + [o];
      && Robbed(log', caller) == Robbed(log, caller) + (if o.Took? && FailureStands(log, caller) then 1 else 0)
      && if o.ReadCompleted? && o.caller == caller then
           && (LastFailed(log', caller) <==> o.status != 0)
           && (FailureStands(log', caller) <==> o.status != 0)
           && (LastDelivered(log', caller) <==> o.status == 0 && o.data != [])
           && (LastEmpty(log', caller) <==> o.status == 0 && o.data == [])
         else
           && LastFailed(log', caller) == LastFailed(log, caller)
           && LastDelivered(log', caller) == LastDelivered(log, caller)
           && LastEmpty(log', caller) == LastEmpty(log, caller)
           && (FailureStands(log', caller) <==> FailureStands(log, caller) && !o.Took?)
  {
    assert (log + [o])[..|log|] == log;
  }

  /** A call none of whose transfers has completed has no history. */
  lemma {:induction false} NoHistory(log: seq<Obs>, caller: nat)
    requires Zeros(log, caller) + Ends(log, caller) == 0
    ensures Robbed(log, caller) == 0 && Findable(log, caller) == 0
    ensures !LastFailed(log, caller) && !LastEmpty(log, caller)
  {
    if log != [] {
      NoHistory(log[..|log| - 1], caller);
    }
  }

  /** Once a transfer has completed, the last one was empty, failed or brought bytes, and only one of these. */
  lemma {:induction false} OneEnd(log: seq<Obs>, caller: nat)
    ensures !(LastDelivered(log, caller) && LastFailed(log, caller))
    ensures !(LastEmpty(log, caller) && (LastFailed(log, caller) || LastDelivered(log, caller)))
    ensures Zeros(log, caller) + Ends(log, caller) > 0 ==>
              LastEmpty(log, caller) || LastFailed(log, caller) || LastDelivered(log, caller)
    ensures FailureStands(log, caller) ==> LastFailed(log, caller)
  {
    if log != [] {
      OneEnd(log[..|log| - 1], caller);
    }
  }

  /** So do the books. */
  lemma ExtendLedger(log: seq<Obs>, o: Obs)
    ensures LedgerOf(log + [o]) == Post(LedgerOf(log), o)
    ensures HonestLog(log + [o]) <==> HonestLog(log) && Honest(LedgerOf(log), o)
  {
    assert (log + [o])[..|log|] == log;
  }

  /** The bytes delivered are all bytes consumed exactly when no copy to the user faulted. */
  lemma {:induction false} DeliveredIsConsumed(log: seq<Obs>)
    requires CopiesOk(log)
    ensures |Delivered(log)| <= |Consumed(log)|
    ensures FaultFree(log) ==> Delivered(log) == Consumed(log)
    ensures !FaultFree(log) ==> |Delivered(log)| < |Consumed(log)|
  {
    if log != [] {
      DeliveredIsConsumed(log[..|log| - 1]);
      FaultFreeStep(log);
    }
  }

  lemma FaultFreeStep(log: seq<Obs>)
    requires log != []
    ensures FaultFree(log) <==> FaultFree(log[..|log| - 1]) && !(log[|log| - 1].Copied? && log[|log| - 1].fault)
  {
    var prefix := log[..|log| - 1];
    assert forall i :: 0 <= i < |prefix| ==> prefix[i] == log[i];
  }

  /** The last observation's share in the books. */
  lemma LastPosted(log: seq<Obs>)
    requires log != []
    ensures
      var before, last := log[..|log| - 1], log[|log| - 1];
      && LedgerOf(log) == Post(LedgerOf(before), last)
      && (HonestLog(log) <==> HonestLog(before) && Honest(LedgerOf(before), last))
      && Stores(log) == Stores(before) + (if Stored(last) != 0 then 1 else 0)
      && LoadOrdinal(log) == (if last.Loaded? then Stores(before) else LoadOrdinal(before))
      && (Untouched(log) <==> last.Loaded? || (Stored(last) == 0 && Untouched(before)))
  {
  }

  /** The last observation's share in the history of the k-th error. */
  lemma LastPickUp(log: seq<Obs>, k: nat)
    requires log != []
    ensures
      var before, last := log[..|log| - 1], log[|log| - 1];
      && PickUps(log, k) == PickUps(before, k) + (if (last.Took? || last.Loaded?) && Stores(before) == k then 1 else 0)
      && ReportsOf(log, k)
         == ReportsOf(before, k)
            + (if (last.Took? && Stores(before) == k) || (last.Cleared? && LoadOrdinal(before) == k) then 1 else 0)
  {
  }

  lemma PostBalances(l: Ledger, o: Obs)
    requires Balanced(l) && Honest(l, o)
    ensures Balanced(Post(l, o))
  {
  }

  /** The books of an honest log balance. */
  lemma {:induction false} HonestBalances(log: seq<Obs>)
    requires HonestLog(log)
    ensures Balanced(LedgerOf(log))
  {
    if log != [] {
      var before, last := log[..|log| - 1], log[|log| - 1];
      LastPosted(log);
      HonestBalances(before);
      PostBalances(LedgerOf(before), last);
    }
  }

  lemma {:induction false} LedgerCounts(log: seq<Obs>)
    ensures LedgerOf(log).stores == Stores(log) && LedgerOf(log).reports == Reports(log)
  {
    if log != [] {
      LedgerCounts(log[..|log| - 1]);
    }
  }

  lemma PostStale(l: Ledger, o: Obs, untouched: bool)
    requires Honest(l, o) && (l.stale <==> l.loaded != 0 && l.value != 0 && untouched)
    ensures
      var l' := Post(l, o);
      l'.stale <==> l'.loaded != 0 && l'.value != 0 && (o.Loaded? || (Stored(o) == 0 && untouched))
  {
  }

  /** In an honest log the latch still holds what a reader loaded exactly if nothing was stored or taken since. */
  lemma {:induction false} StaleIsUntouched(log: seq<Obs>)
    requires HonestLog(log)
    ensures var l := LedgerOf(log); l.stale <==> l.loaded != 0 && l.value != 0 && Untouched(log)
  {
    if log != [] {
      var before, last := log[..|log| - 1], log[|log| - 1];
      LastPosted(log);
      StaleIsUntouched(before);
      PostStale(LedgerOf(before), last, Untouched(before));
    }
  }

  /** `n` pick-ups of the k-th error of `stores` fit the books. */
  predicate PickUpsFit(l: Ledger, stores: nat, k: nat, n: nat) {
    && (k > stores ==> n == 0)
    && (k == stores && l.value != 0 ==> n == if l.stale then 1 else 0)
  }

  lemma PostPickUps(l: Ledger, o: Obs, stores: nat, k: nat, n: nat)
    requires Balanced(l) && Honest(l, o) && PickUpsFit(l, stores, k, n)
    ensures PickUpsFit(Post(l, o), stores + (if Stored(o) != 0 then 1 else 0), k,
                       n + (if (o.Took? || o.Loaded?) && stores == k then 1 else 0))
  {
  }

  /** An error that is in the latch was picked up once if a reader has loaded it, and else not at all. */
  lemma {:induction false} PickUpsSoFar(log: seq<Obs>, k: nat)
    requires HonestLog(log)
    ensures PickUpsFit(LedgerOf(log), Stores(log), k, PickUps(log, k))
  {
    if log != [] {
      var before, last := log[..|log| - 1], log[|log| - 1];
      LastPosted(log);
      LastPickUp(log, k);
      PickUpsSoFar(before, k);
      HonestBalances(before);
      PostPickUps(LedgerOf(before), last, Stores(before), k, PickUps(before, k));
    }
  }

  /** The ledger's double reports are the errors picked up more than once. */
  lemma {:induction false} OnceIsNoDouble(log: seq<Obs>)
    requires HonestLog(log)
    ensures PickedUpOnce(log) <==> LedgerOf(log).doubles == 0
  {
    if log != [] {
      var before := log[..|log| - 1];
      LastPosted(log);
      OnceIsNoDouble(before);
      OnceStep(log);
    }
  }

  lemma OnceStep(log: seq<Obs>)
    requires log != [] && HonestLog(log)
    ensures
      var before, last := log[..|log| - 1], log[|log| - 1];
      PickedUpOnce(log) <==> PickedUpOnce(before) && !(last.Took? && LedgerOf(before).stale)
  {
    var before, last := log[..|log| - 1], log[|log| - 1];
    LastPosted(log);
    HonestBalances(before);
    forall k: nat ensures PickUps(before, k) <= PickUps(log, k) {
      LastPickUp(log, k);
    }
    PickUpsSoFar(before, Stores(before));
    LastPickUp(log, Stores(before));
    if PickedUpOnce(log) {
      assert PickUps(log, Stores(before)) <= 1;
      assert forall k :: PickUps(before, k) <= PickUps(log, k) <= 1;
    } else {
      var k :| PickUps(log, k) > 1;
      LastPickUp(log, k);
    }
  }

  lemma PostReports(l: Ledger, o: Obs, stores: nat, loaded: nat, k: nat, pickUps: nat, reports: nat)
    requires Honest(l, o) && pickUps == reports + (if l.loaded != 0 && loaded == k then 1 else 0)
    ensures pickUps + (if (o.Took? || o.Loaded?) && stores == k then 1 else 0)
            == reports + (if (o.Took? && stores == k) || (o.Cleared? && loaded == k) then 1 else 0)
               + (if Post(l, o).loaded != 0 && (if o.Loaded? then stores else loaded) == k then 1 else 0)
  {
  }

  /** What was picked up was reported, or a reader is about to. */
  lemma {:induction false} PickUpsAreReports(log: seq<Obs>, k: nat)
    requires HonestLog(log)
    ensures PickUps(log, k)
            == ReportsOf(log, k) + (if LedgerOf(log).loaded != 0 && LoadOrdinal(log) == k then 1 else 0)
  {
    if log != [] {
      var before, last := log[..|log| - 1], log[|log| - 1];
      LastPosted(log);
      LastPickUp(log, k);
      PickUpsAreReports(before, k);
      PostReports(LedgerOf(before), last, Stores(before), LoadOrdinal(before), k,
                  PickUps(before, k), ReportsOf(before, k));
    }
  }

  /** So an error picked up once is reported once, and the other way round when no reader holds one. */
  lemma OncePickedUp(log: seq<Obs>)
    requires HonestLog(log)
    ensures PickedUpOnce(log) ==> ReportedOnce(log)
    ensures LedgerOf(log).loaded == 0 && ReportedOnce(log) ==> PickedUpOnce(log)
  {
    forall k: nat
      ensures ReportsOf(log, k) <= PickUps(log, k)
      ensures LedgerOf(log).loaded == 0 ==> ReportsOf(log, k) == PickUps(log, k)
    {
      PickUpsAreReports(log, k);
    }
    if PickedUpOnce(log) {
      assert forall k :: ReportsOf(log, k) <= PickUps(log, k) <= 1;
    } else if LedgerOf(log).loaded == 0 {
      var k :| PickUps(log, k) > 1;
      assert ReportsOf(log, k) == PickUps(log, k);
    }
  }

  /** Reports of the first n errors stored. */
  function ReportsUpTo(log: seq<Obs>, n: nat): nat {
    if n == 0 then 0 else ReportsUpTo(log, n - 1) + ReportsOf(log, n)
  }

  /** The error that the last observation reports. */
  function ReportedLast(log: seq<Obs>): nat
    requires log != []
  {
    var before, last := log[..|log| - 1], log[|log| - 1];
    if last.Took? then Stores(before) else if last.Cleared? then LoadOrdinal(before) else 0
  }

  lemma {:induction false} ReportsUpToStep(log: seq<Obs>, n: nat)
    requires log != []
    ensures ReportsUpTo(log, n)
            == ReportsUpTo(log[..|log| - 1], n) + (if 1 <= ReportedLast(log) <= n then 1 else 0)
    decreases n
  {
    if n > 0 {
      ReportsUpToStep(log, n - 1);
    }
  }

  /** What is latched or loaded was stored. */
  predicate OrdinalsFit(l: Ledger, stores: nat, loaded: nat) {
    (l.value != 0 ==> stores >= 1) && (l.loaded != 0 ==> 1 <= loaded <= stores)
  }

  lemma PostOrdinals(l: Ledger, o: Obs, stores: nat, loaded: nat)
    requires Honest(l, o) && OrdinalsFit(l, stores, loaded)
    ensures OrdinalsFit(Post(l, o), stores + (if Stored(o) != 0 then 1 else 0), if o.Loaded? then stores else loaded)
  {
  }

  lemma {:induction false} OrdinalsInRange(log: seq<Obs>)
    requires HonestLog(log)
    ensures OrdinalsFit(LedgerOf(log), Stores(log), LoadOrdinal(log))
  {
    if log != [] {
      var before, last := log[..|log| - 1], log[|log| - 1];
      LastPosted(log);
      OrdinalsInRange(before);
      PostOrdinals(LedgerOf(before), last, Stores(before), LoadOrdinal(before));
    }
  }

  /** The reports of the single errors add up to all reports: each report is of one stored error. */
  lemma {:induction false} ReportsAddUp(log: seq<Obs>)
    requires HonestLog(log)
    ensures ReportsUpTo(log, Stores(log)) == Reports(log)
  {
    if log != [] {
      var before := log[..|log| - 1];
      LastPosted(log);
      ReportsAddUp(before);
      OrdinalsInRange(before);
      ReportsUpToStep(log, Stores(log));
      NoneBeyond(before);
    }
  }

  /** The error stored next has not been reported. */
  lemma NextUnreported(log: seq<Obs>)
    requires HonestLog(log)
    ensures ReportsOf(log, Stores(log) + 1) == 0
  {
    PickUpsSoFar(log, Stores(log) + 1);
    PickUpsAreReports(log, Stores(log) + 1);
  }

  lemma NoneBeyond(log: seq<Obs>)
    requires HonestLog(log)
    ensures ReportsUpTo(log, Stores(log) + 1) == ReportsUpTo(log, Stores(log))
  {
    var n := Stores(log);
    NextUnreported(log);
    assert ReportsUpTo(log, n + 1) == ReportsUpTo(log, n) + ReportsOf(log, n + 1);
  }

  /** The ledger's losses are the errors that were overwritten or wiped before anybody picked them up. */
  lemma {:induction false} LostIsForgotten(log: seq<Obs>)
    requires HonestLog(log)
    ensures LedgerOf(log).lost == 0 <==> NoneForgotten(log)
  {
    if log != [] {
      var before, last := log[..|log| - 1], log[|log| - 1];
      LostIsForgotten(before);
      HonestBalances(before);
      OrdinalsInRange(before);
      PickUpsSoFar(before, Stores(before));
      ForgottenStep(log);
    }
  }

  lemma ForgottenStep(log: seq<Obs>)
    requires log != [] && HonestLog(log)
    requires var l := LedgerOf(log[..|log| - 1]); Balanced(l) && (l.value != 0 ==> Stores(log[..|log| - 1]) >= 1)
    requires
      var before := log[..|log| - 1];
      LedgerOf(before).value != 0 ==> PickUps(before, Stores(before)) == if LedgerOf(before).stale then 1 else 0
    ensures
      var before, last := log[..|log| - 1], log[|log| - 1];
      var loses := (Stored(last) != 0 || last.Cleared?) && Unclaimed(LedgerOf(before)) == 1;
      NoneForgotten(log) <==> NoneForgotten(before) && !loses
  {
    var before, last := log[..|log| - 1], log[|log| - 1];
    var l := LedgerOf(before);
    LastPosted(log);
    forall k: nat
      ensures PickUps(log, k)
              == PickUps(before, k) + (if (last.Took? || last.Loaded?) && Stores(before) == k then 1 else 0)
    {
      LastPickUp(log, k);
    }
    if NoneForgotten(log) {
      assert forall k :: 1 <= k < Stores(before) ==> PickUps(before, k) >= 1;
    }
  }

  /** Nothing is picked up before it is stored. */
  lemma {:induction false} NoZeroth(log: seq<Obs>)
    requires HonestLog(log)
    ensures PickUps(log, 0) == 0
  {
    if log != [] {
      NoZeroth(log[..|log| - 1]);
      OrdinalsInRange(log[..|log| - 1]);
    }
  }
}
