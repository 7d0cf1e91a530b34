/** The life of the RAM disk of BlockDriver/blk1.c: opens, releases, its timer and its wipes. */
module RamDiskHistory {
  import opened Bytes
  import opened RamDisk

  datatype State = State(data: seq<Byte>, users: nat, mediaChange: bool, timerPending: bool)

  function Zeros(n: nat): (z: seq<Byte>)
    ensures |z| == n && forall i :: 0 <= i < n ==> z[i] == 0
  {
    seq(n, _ => 0)
  }

  /** blk1_open, lines 142-155, with check_disk_change calling blk1_revalidate, lines 174-194. */
  function Opened(s: State): (r: State)
    ensures |r.data| == |s.data|
  {
    var wipes := s.users == 0 && s.mediaChange;
    State(if wipes then Zeros(|s.data|) else s.data, s.users + 1, s.mediaChange && !wipes, false)
  }

  /** blk1_release, lines 157-169, by one of the users. */
  function Released(s: State): State
    requires s.users > 0
  {
    s.(users := s.users - 1, timerPending := s.timerPending || s.users == 1)
  }

  /** The timer fires and runs blk1_invalidate, lines 200-210. */
  function Expired(s: State): State {
    s.(timerPending := false, mediaChange := s.mediaChange || s.users == 0)
  }

  datatype Event = Open | Release | Expire | Store(at: nat, bytes: seq<Byte>)

  /** A release needs a user and an expiry a pending timer; without them nothing happens. */
  function Step(s: State, e: Event): (r: State)
    ensures |r.data| == |s.data|
  {
    match e
    case Open => Opened(s)
    case Release => if s.users > 0 then Released(s) else s
    case Expire => if s.timerPending then Expired(s) else s
    case Store(at, bytes) => s.(data := Written(s.data, at, bytes))
  }

  function Exec(initial: seq<Byte>, es: seq<Event>): (s: State)
    ensures |s.data| == |initial|
    decreases |es|
  {
    if es == [] then State(initial, 0, false, false) else Step(Exec(initial, es[..|es| - 1]), es[|es| - 1])
  }

  // ------------------------------- the same, read off the events alone

  /** Opens not yet released. */
  function Users(es: seq<Event>): nat
    decreases |es|
  {
    if es == [] then 0
    else
      var n := Users(es[..|es| - 1]);
      match es[|es| - 1]
      case Open => n + 1
      case Release => if n > 0 then n - 1 else 0
      case _ => n
  }

  /** The last user has left, and since then nobody has come and the time has not run out. */
  predicate Armed(es: seq<Event>)
    decreases |es|
  {
    es != [] &&
    var p := es[..|es| - 1];
    match es[|es| - 1]
    case Open => false
    case Release => Users(p) == 1 || Armed(p)
    case Expire => false
    case Store(_, _) => Armed(p)
  }

  /** The time has run out on an idle disk, and nobody has opened it since. */
  predicate Stale(es: seq<Event>)
    decreases |es|
  {
    es != [] &&
    var p := es[..|es| - 1];
    match es[|es| - 1]
    case Open => false
    case Expire => Armed(p) || Stale(p)
    case _ => Stale(p)
  }

  /** Byte b: the last write to it since the last wipe, or zero, or what the disk started with. */
  function LastByte(initial: seq<Byte>, es: seq<Event>, b: nat): Byte
    requires b < |initial|
    decreases |es|
  {
    if es == [] then initial[b]
    else
      var p := es[..|es| - 1];
      match es[|es| - 1]
      case Open => if Stale(p) then 0 else LastByte(initial, p, b)
      case Store(at, bytes) =>
        if at <= b < at + |bytes| <= |initial| then bytes[b - at] else LastByte(initial, p, b)
      case _ => LastByte(initial, p, b)
  }

  // ------------------------------------------------------------ theorems

  /** Control state as the events tell it: a disk in use is neither stale nor counting down. */
  lemma {:induction false} ControlFollows(initial: seq<Byte>, es: seq<Event>)
    ensures
      var s := Exec(initial, es);
      && s.users == Users(es) && s.timerPending == Armed(es) && s.mediaChange == Stale(es)
      && (s.users > 0 ==> !s.mediaChange && !s.timerPending)
    decreases |es|
  {
    if es != [] {
      ControlFollows(initial, es[..|es| - 1]);
    }
  }

  /** add_timer never arms a pending timer, and blk1_invalidate's sanity check never fails. */
  lemma {:induction false} TimerIsSane(initial: seq<Byte>, es: seq<Event>)
    ensures
      var s := Exec(initial, es);
      && (s.users == 1 ==> !s.timerPending)
      && (s.timerPending ==> s.users == 0)
  {
    ControlFollows(initial, es);
  }

  /**
   Over every run each byte of the disk is the last one written to it since the most recent wipe,
   and the disk is wiped exactly at the first open after an expiry that found no users.
   */
  lemma {:induction false} DiskRemembers(initial: seq<Byte>, es: seq<Event>, b: nat)
    requires b < |initial|
    ensures Exec(initial, es).data[b] == LastByte(initial, es, b)
    decreases |es|
  {
    if es != [] {
      var p := es[..|es| - 1];
      DiskRemembers(initial, p, b);
      ControlFollows(initial, p);
    }
  }

  /** A read inside the disk returns the last bytes written, byte by byte. */
  lemma {:induction false} ReadReturnsLast(initial: seq<Byte>, es: seq<Event>, at: nat, buffer: seq<Byte>)
    requires at + |buffer| <= |initial|
    ensures
      var r := Filled(Exec(initial, es).data, at, |buffer|, buffer);
      forall i :: 0 <= i < |r| ==> r[i] == LastByte(initial, es, at + i)
  {
    var r := Filled(Exec(initial, es).data, at, |buffer|, buffer);
    forall i | 0 <= i < |r| ensures r[i] == LastByte(initial, es, at + i) {
      DiskRemembers(initial, es, at + i);
    }
  }
}
