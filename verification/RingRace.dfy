/**
 One writer and one reader of WaitQueue/wait1.c at the same time.  They share head, tail, the ring
 and the condition without a lock; one step is one access of a shared variable.
 */
module RingRace {
  import opened Bytes
  import opened RingQueue

  /** my_write, lines 25-39: what it has sampled or is about to do. */
  datatype WriterPc =
    | WIdle
    | WTest(b: Byte, prev: int) | WFull(b: Byte, prev: int) | WAsleep(b: Byte, prev: int)
    | WStore(b: Byte) | WAdvance(b: Byte) | WWake

  /** my_read, lines 50-65. */
  datatype ReaderPc =
    | RIdle
    | RTest(next: int) | REmpty(next: int) | RAsleep(next: int)
    | RLoad | RAdvance(b: Byte) | RWake

  /** `accepted` and `taken` are the bytes put in and taken out so far. */
  datatype State = State(
    q: Queue, condition: int, w: WriterPc, r: ReaderPc, accepted: seq<Byte>, taken: seq<Byte>)

  /** `ok` is false for a fault of the user copy or a signal that ends the sleep. */
  datatype Event = CallWrite(b: Byte) | StepWriter(ok: bool) | CallRead | StepReader(ok: bool)

  function WriterStep(s: State, ok: bool): State
    requires Valid(s.q)
  {
    var q := s.q;
    match s.w
    case WIdle => s
    case WTest(b, prev) => s.(w := if prev == q.tail then WFull(b, prev) else WStore(b))
    case WFull(b, prev) => s.(condition := 0, w := WAsleep(b, prev))
    case WAsleep(b, prev) =>
      if !ok then s.(w := WIdle) else if s.condition != 0 then s.(w := WTest(b, prev)) else s
    case WStore(b) => s.(q := q.(ring := q.ring[q.tail := b]), w := if ok then WAdvance(b) else WIdle)
    case WAdvance(b) => s.(q := q.(tail := CRem(1 + q.tail, RINGSIZE)), w := WWake, accepted := s.accepted + [b])
    case WWake => s.(condition := 1, w := WIdle)
  }

  function ReaderStep(s: State, ok: bool): State
    requires Valid(s.q)
  {
    var q := s.q;
    match s.r
    case RIdle => s
    case RTest(next) => s.(r := if next == q.tail then REmpty(next) else RLoad)
    case REmpty(next) => s.(condition := 0, r := RAsleep(next))
    case RAsleep(next) =>
      if !ok then s.(r := RIdle) else if s.condition != 0 then s.(r := RTest(next)) else s
    case RLoad => s.(r := if ok then RAdvance(q.ring[q.head]) else RIdle)
    case RAdvance(b) => s.(q := q.(head := CRem(1 + q.head, RINGSIZE)), r := RWake, taken := s.taken + [b])
    case RWake => s.(condition := 1, r := RIdle)
  }

  function Step(s: State, e: Event): (s': State)
    requires Valid(s.q)
    ensures Valid(s'.q)
  {
    match e
    case CallWrite(b) => if s.w.WIdle? then s.(w := WTest(b, CRem(s.q.head - 1, RINGSIZE))) else s
    case StepWriter(ok) => WriterStep(s, ok)
    case CallRead => if s.r.RIdle? then s.(r := RTest(s.q.head)) else s
    case StepReader(ok) => ReaderStep(s, ok)
  }

  type Ring = ring: seq<Byte> | |ring| == RINGSIZE witness seq(RINGSIZE, _ => 0)

  /** The state after the events `es`; an event that is not enabled changes nothing. */
  function Exec(ring: Ring, es: seq<Event>): (s: State)
    ensures Valid(s.q)
    decreases |es|
  {
    if es == [] then State(Queue(ring, 0, 0), 0, WIdle, RIdle, [], [])
    else Step(Exec(ring, es[..|es| - 1]), es[|es| - 1])
  }

  lemma ExecAppend(ring: Ring, es: seq<Event>, e: Event)
    ensures Exec(ring, es + [e]) == Step(Exec(ring, es), e)
  {
    assert (es + [e])[..|es|] == es;
  }

  // ------------------------------------------------------------- the queue

  /** Nothing is lost, repeated or reordered: the ring holds what was accepted and not yet taken. */
  predicate Intact(s: State)
    requires Valid(s.q)
  {
    s.taken + Items(s.q) == s.accepted
  }

  predicate Full(q: Queue)
    requires Valid(q)
  {
    |Items(q)| == RINGSIZE - 1
  }

  /** A writer that may go on to store has room, unless it is blind at head 0. */
  predicate WriterOk(s: State)
    requires Valid(s.q)
  {
    match s.w
    case WTest(_, prev) => Full(s.q) && prev != s.q.tail ==> s.q.head == 0
    case WFull(_, prev) => prev == s.q.tail
    case WAsleep(_, prev) => prev == s.q.tail
    case WStore(_) => Full(s.q) ==> s.q.head == 0
    case WAdvance(b) => (Full(s.q) ==> s.q.head == 0) && s.q.ring[s.q.tail] == b
    case _ => true
  }

  /** A reader that has seen a byte still has it before it. */
  predicate ReaderOk(s: State)
    requires Valid(s.q)
  {
    match s.r
    case RTest(next) => next == s.q.head
    case REmpty(next) => next == s.q.head
    case RAsleep(next) => next == s.q.head
    case RLoad => s.q.head != s.q.tail
    case RAdvance(b) => s.q.head != s.q.tail && s.q.ring[s.q.head] == b
    case _ => true
  }

  predicate Good(s: State) {
    Valid(s.q) && Intact(s) && WriterOk(s) && ReaderOk(s)
  }

  /** The writer advances tail over a full ring that it has not seen to be full. */
  predicate BlindAdvance(s: State, e: Event) {
    e.StepWriter? && s.w.WAdvance? && Blind(s.q)
  }

  lemma FullAtHead(q: Queue)
    requires Valid(q)
    ensures Full(q) <==> q.head == NextSlot(q.tail)
    ensures CRem(1 + q.tail, RINGSIZE) == NextSlot(q.tail) && CRem(1 + q.head, RINGSIZE) == NextSlot(q.head)
    ensures CRem(q.head - 1, RINGSIZE) == q.head - 1
    ensures Items(q) == [] <==> q.head == q.tail
  {
    ItemCount(q);
    Remainders(q.tail);
    Remainders(q.head);
  }

  /** Taking the oldest byte out. */
  lemma AdvanceHead(q: Queue)
    requires Valid(q) && q.head != q.tail
    ensures
      var q' := q.(head := CRem(1 + q.head, RINGSIZE));
      Items(q) == [q.ring[q.head]] + Items(q')
  {
    Remainders(q.head);
    if q.head == RINGSIZE - 1 {
      WrapHead(q);
    } else {
      NextHead(q);
    }
  }

  lemma WrapHead(q: Queue)
    requires Valid(q) && q.head == RINGSIZE - 1 && q.head != q.tail
    ensures Items(q) == [q.ring[q.head]] + Items(q.(head := 0))
  {
    assert q.ring[q.head..] == [q.ring[q.head]];
  }

  lemma FirstOf(ring: seq<Byte>, a: nat, b: nat)
    requires a < b <= |ring|
    ensures ring[a..b] == [ring[a]] + ring[a + 1..b]
  {
  }

  lemma NextHead(q: Queue)
    requires Valid(q) && q.head + 1 < RINGSIZE && q.head != q.tail
    ensures Items(q) == [q.ring[q.head]] + Items(q.(head := q.head + 1))
  {
    if q.head < q.tail {
      FirstOf(q.ring, q.head, q.tail);
    } else {
      NextHeadAbove(q);
    }
  }

  lemma NextHeadAbove(q: Queue)
    requires Valid(q) && q.tail < q.head < q.head + 1 < RINGSIZE
    ensures Items(q) == [q.ring[q.head]] + Items(q.(head := q.head + 1))
  {
    var b, upper, high, low := q.ring[q.head], q.ring[q.head..], q.ring[q.head + 1..], q.ring[..q.tail];
    FirstAbove(q.ring, q.head);
    SplitHead(upper, b, high, low);
    ItemsAbove(q);
    ItemsAbove(q.(head := q.head + 1));
  }

  lemma ItemsAbove(q: Queue)
    requires Valid(q) && q.tail < q.head
    ensures Items(q) == q.ring[q.head..] + q.ring[..q.tail]
  {
  }

  lemma FirstAbove(ring: seq<Byte>, a: nat)
    requires a < |ring|
    ensures ring[a..] == [ring[a]] + ring[a + 1..]
  {
  }

  lemma SplitHead(upper: seq<Byte>, b: Byte, high: seq<Byte>, low: seq<Byte>)
    requires upper == [b] + high
    ensures upper + low == [b] + (high + low)
  {
  }

  lemma StoreKept(s: State, ok: bool)
    requires Good(s) && s.w.WStore?
    ensures Good(WriterStep(s, ok))
  {
    StoreKeepsItems(s.q, s.w.b);
  }

  lemma AdvanceTailKept(s: State, ok: bool)
    requires Good(s) && s.w.WAdvance? && !Blind(s.q)
    ensures Good(WriterStep(s, ok))
  {
    FullAtHead(s.q);
    AdvanceAdds(s.q);
    var q' := WriterStep(s, ok).q;
    assert Items(q') == Items(s.q) + [s.w.b];
    assert s.taken + Items(q') == (s.taken + Items(s.q)) + [s.w.b];
    FullAtHead(q');
  }

  lemma WriterKept(s: State, ok: bool)
    requires Good(s) && !BlindAdvance(s, StepWriter(ok))
    ensures Good(WriterStep(s, ok))
  {
    match s.w
    case WStore(_) => StoreKept(s, ok);
    case WAdvance(_) => AdvanceTailKept(s, ok);
    case _ =>
  }

  /** With a byte taken out there is room. */
  lemma RoomAfter(q: Queue)
    requires Valid(q) && q.head != q.tail
    ensures !Full(q.(head := CRem(1 + q.head, RINGSIZE)))
  {
    FullAtHead(q);
    FullAtHead(q.(head := CRem(1 + q.head, RINGSIZE)));
  }

  lemma TakenFollows(s: State, b: Byte, rest: seq<Byte>)
    requires Valid(s.q) && Intact(s) && Items(s.q) == [b] + rest
    ensures s.accepted == (s.taken + [b]) + rest
  {
    assert s.taken + ([b] + rest) == (s.taken + [b]) + rest;
  }

  /** A reader that makes room leaves the writer in order. */
  lemma WriterUnmoved(s: State, s': State)
    requires Valid(s.q) && Valid(s'.q) && WriterOk(s) && s'.w == s.w && !Full(s'.q)
    requires s'.q.ring == s.q.ring && s'.q.tail == s.q.tail
    ensures WriterOk(s')
  {
  }

  /** The state when the reader has advanced head over byte `b`. */
  function Taken(s: State, b: Byte): State {
    s.(q := s.q.(head := CRem(1 + s.q.head, RINGSIZE)), r := RWake, taken := s.taken + [b])
  }

  lemma TakenIntact(s: State)
    requires Valid(s.q) && Intact(s) && s.q.head != s.q.tail
    ensures Valid(Taken(s, s.q.ring[s.q.head]).q) && Intact(Taken(s, s.q.ring[s.q.head]))
  {
    AdvanceHead(s.q);
    TakenFollows(s, s.q.ring[s.q.head], Items(Taken(s, s.q.ring[s.q.head]).q));
  }

  lemma AdvanceHeadKept(s: State, ok: bool)
    requires Good(s) && s.r.RAdvance?
    ensures Good(ReaderStep(s, ok))
  {
    assert ReaderStep(s, ok) == Taken(s, s.r.b);
    TakenIntact(s);
    RoomAfter(s.q);
    WriterUnmoved(s, Taken(s, s.r.b));
  }

  lemma ReaderKept(s: State, ok: bool)
    requires Good(s)
    ensures Good(ReaderStep(s, ok))
  {
    if s.r.RAdvance? {
      AdvanceHeadKept(s, ok);
    }
  }

  lemma StepKept(s: State, e: Event)
    requires Good(s) && !BlindAdvance(s, e)
    ensures Good(Step(s, e))
  {
    match e
    case CallWrite(_) => FullAtHead(s.q);
    case StepWriter(ok) => WriterKept(s, ok);
    case CallRead =>
    case StepReader(ok) => ReaderKept(s, ok);
  }

  /** A blind advance makes the full ring look empty. */
  lemma BlindBreaks(s: State, e: Event)
    requires Good(s) && BlindAdvance(s, e)
    ensures Items(Step(s, e).q) == [] && !Intact(Step(s, e))
  {
    FullAtHead(s.q);
  }

  // ----------------------------------------------------------------- runs

  predicate BlindAt(ring: Ring, es: seq<Event>, n: nat) {
    n < |es| && BlindAdvance(Exec(ring, es[..n]), es[n])
  }

  ghost predicate NeverBlind(ring: Ring, es: seq<Event>) {
    forall n :: 0 <= n < |es| ==> !BlindAt(ring, es, n)
  }

  predicate IntactAt(ring: Ring, es: seq<Event>, n: nat)
    requires n <= |es|
  {
    Intact(Exec(ring, es[..n]))
  }

  ghost predicate AlwaysIntact(ring: Ring, es: seq<Event>) {
    forall n :: 0 <= n <= |es| ==> IntactAt(ring, es, n)
  }

  lemma BlindStep(ring: Ring, es: seq<Event>, e: Event)
    ensures NeverBlind(ring, es + [e]) <==> NeverBlind(ring, es) && !BlindAdvance(Exec(ring, es), e)
  {
    var more := es + [e];
    assert more[..|es|] == es;
    assert BlindAt(ring, more, |es|) <==> BlindAdvance(Exec(ring, es), e);
    forall n: nat | n < |es| ensures BlindAt(ring, more, n) <==> BlindAt(ring, es, n) {
      assert more[..n] == es[..n];
    }
    if !NeverBlind(ring, es) {
      var n: nat :| n < |es| && BlindAt(ring, es, n);
      assert BlindAt(ring, more, n);
    }
  }

  lemma IntactBefore(ring: Ring, es: seq<Event>, e: Event, n: nat)
    requires n <= |es|
    ensures IntactAt(ring, es + [e], n) <==> IntactAt(ring, es, n)
  {
    assert (es + [e])[..n] == es[..n];
  }

  lemma IntactStep(ring: Ring, es: seq<Event>, e: Event)
    ensures AlwaysIntact(ring, es + [e]) <==> AlwaysIntact(ring, es) && Intact(Exec(ring, es + [e]))
  {
    var more := es + [e];
    assert more[..|more|] == more;
    assert IntactAt(ring, more, |more|) <==> Intact(Exec(ring, more));
    if AlwaysIntact(ring, more) {
      forall n: nat | n <= |es| ensures IntactAt(ring, es, n) {
        IntactBefore(ring, es, e, n);
      }
    } else {
      var n: nat :| n <= |more| && !IntactAt(ring, more, n);
      if n <= |es| {
        IntactBefore(ring, es, e, n);
      }
    }
  }

  lemma {:induction false} GoodSoFar(ring: Ring, es: seq<Event>)
    ensures NeverBlind(ring, es) ==> Good(Exec(ring, es))
    ensures AlwaysIntact(ring, es) <==> NeverBlind(ring, es)
    decreases |es|
  {
    if es == [] {
      assert IntactAt(ring, es, 0);
    } else {
      var sooner, e := es[..|es| - 1], es[|es| - 1];
      assert es == sooner + [e];
      GoodSoFar(ring, sooner);
      BlindStep(ring, sooner, e);
      IntactStep(ring, sooner, e);
      ExecAppend(ring, sooner, e);
      if NeverBlind(ring, sooner) {
        if BlindAdvance(Exec(ring, sooner), e) {
          BlindBreaks(Exec(ring, sooner), e);
        } else {
          StepKept(Exec(ring, sooner), e);
        }
      }
    }
  }

  /**
   For every interleaving of one writer and one reader, with faults, sleeps and signals: at every
   instant the bytes taken followed by those in the ring are the bytes accepted, if and only if the
   writer never advances tail from 511 while head is 0.  It may store there, or have tested there,
   as long as the reader moves on before it advances.
   */
  lemma {:induction false} InterleavedIsFifo(ring: Ring, es: seq<Event>)
    ensures AlwaysIntact(ring, es) <==> NeverBlind(ring, es)
    ensures NeverBlind(ring, es) ==> Exec(ring, es).taken <= Exec(ring, es).accepted
  {
    GoodSoFar(ring, es);
  }

  // --------------------------------------------------------------- sleeping

  /** The writer compares tail with a `prev` that equals it. */
  predicate Stuck(s: State) {
    (s.w.WTest? || s.w.WFull? || s.w.WAsleep?) && s.w.prev == s.q.tail
  }

  lemma StuckStep(s: State, e: Event)
    requires Valid(s.q) && Stuck(s) && e != StepWriter(false)
    ensures Stuck(Step(s, e))
  {
  }

  /**
   `prev` is sampled once (line 25), so a write that finds the ring full never goes on: whatever the
   reader takes out, it is in its wait loop until a signal ends it.
   */
  lemma {:induction false} FullWriterWaits(ring: Ring, es: seq<Event>, later: seq<Event>)
    requires Stuck(Exec(ring, es)) && StepWriter(false) !in later
    ensures Stuck(Exec(ring, es + later)) && Exec(ring, es + later).accepted == Exec(ring, es).accepted
    decreases |later|
  {
    if later == [] {
      assert es + later == es;
    } else {
      var sooner, e := later[..|later| - 1], later[|later| - 1];
      FullWriterWaits(ring, es, sooner);
      assert es + later == (es + sooner) + [e];
      ExecAppend(ring, es + sooner, e);
      StuckStep(Exec(ring, es + sooner), e);
    }
  }

  /** Every writer in that loop is stuck. */
  lemma {:induction false} SleepersAreStuck(ring: Ring, es: seq<Event>)
    ensures var s := Exec(ring, es); s.w.WFull? || s.w.WAsleep? ==> Stuck(s)
    decreases |es|
  {
    if es != [] {
      SleepersAreStuck(ring, es[..|es| - 1]);
    }
  }

  // ------------------------------------------------------------- going on

  /** The events are the writer's. */
  predicate WriterOnly(es: seq<Event>) {
    forall e :: e in es ==> e.CallWrite? || e.StepWriter?
  }

  predicate ReaderOnly(es: seq<Event>) {
    forall e :: e in es ==> e.CallRead? || e.StepReader?
  }

  /** What the writer leaves alone: the reader, head and what was taken; it only adds to what was accepted. */
  predicate ReaderKeeps(s: State, s': State) {
    s'.r == s.r && s'.q.head == s.q.head && s'.taken == s.taken && s.accepted <= s'.accepted
  }

  predicate WriterKeeps(s: State, s': State) {
    s'.w == s.w && s'.q.tail == s.q.tail && s'.accepted == s.accepted
  }

  lemma WriterStepKeeps(s: State, e: Event)
    requires Valid(s.q) && (e.CallWrite? || e.StepWriter?)
    ensures ReaderKeeps(s, Step(s, e))
  {
  }

  lemma ReaderStepKeeps(s: State, e: Event)
    requires Valid(s.q) && (e.CallRead? || e.StepReader?)
    ensures WriterKeeps(s, Step(s, e))
  {
  }

  lemma {:induction false} WriterAlone(ring: Ring, es: seq<Event>, mid: seq<Event>)
    requires WriterOnly(mid)
    ensures ReaderKeeps(Exec(ring, es), Exec(ring, es + mid))
    decreases |mid|
  {
    if mid == [] {
      assert es + mid == es;
    } else {
      var sooner, e := mid[..|mid| - 1], mid[|mid| - 1];
      assert e in mid;
      WriterAlone(ring, es, sooner);
      assert es + mid == (es + sooner) + [e];
      ExecAppend(ring, es + sooner, e);
      WriterStepKeeps(Exec(ring, es + sooner), e);
    }
  }

  lemma {:induction false} ReaderAlone(ring: Ring, es: seq<Event>, mid: seq<Event>)
    requires ReaderOnly(mid)
    ensures WriterKeeps(Exec(ring, es), Exec(ring, es + mid))
    decreases |mid|
  {
    if mid == [] {
      assert es + mid == es;
    } else {
      var sooner, e := mid[..|mid| - 1], mid[|mid| - 1];
      assert e in mid;
      ReaderAlone(ring, es, sooner);
      assert es + mid == (es + sooner) + [e];
      ExecAppend(ring, es + sooner, e);
      ReaderStepKeeps(Exec(ring, es + sooner), e);
    }
  }

  /** The oldest byte in the ring, which stays the oldest until it is taken. */
  lemma OldestIs(s: State)
    requires Good(s) && s.q.head != s.q.tail
    ensures |s.taken| < |s.accepted| && s.accepted[|s.taken|] == s.q.ring[s.q.head]
  {
    AdvanceHead(s.q);
  }

  /** A reader with a byte before it still has that byte, whatever the writer does. */
  lemma StillBefore(s: State, s': State)
    requires Good(s) && Good(s') && ReaderKeeps(s, s') && s.q.head != s.q.tail
    ensures s'.q.head != s'.q.tail && s'.q.ring[s'.q.head] == s.q.ring[s.q.head]
  {
    OldestIs(s);
    FullAtHead(s'.q);
    if s'.q.head != s'.q.tail {
      OldestIs(s');
    }
  }

  lemma NeverBlindBefore(ring: Ring, es: seq<Event>, later: seq<Event>)
    requires NeverBlind(ring, es + later)
    ensures NeverBlind(ring, es) && Good(Exec(ring, es))
  {
    forall n: nat | n < |es| ensures !BlindAt(ring, es, n) {
      assert (es + later)[..n] == es[..n];
      assert !BlindAt(ring, es + later, n);
    }
    GoodSoFar(ring, es);
  }

  /** A reader at its test goes on exactly if the ring looks non-empty; else it is on its way to sleep. */
  lemma {:induction false} ReaderTests(ring: Ring, es: seq<Event>)
    requires NeverBlind(ring, es) && Exec(ring, es).r.RTest?
    ensures
      var s, s' := Exec(ring, es), Exec(ring, es + [StepReader(true)]);
      if Items(s.q) == [] then s'.r.REmpty? else s'.r.RLoad?
  {
    GoodSoFar(ring, es);
    ExecAppend(ring, es, StepReader(true));
    FullAtHead(Exec(ring, es).q);
  }

  /**
   A reader that finds the ring non-empty takes the oldest byte by three successful steps of its own,
   whatever the writer does in between.
   */
  lemma {:induction false} ReaderTakes(ring: Ring, es: seq<Event>, mid1: seq<Event>, mid2: seq<Event>)
    requires Exec(ring, es).r.RTest? && Exec(ring, es).q.head != Exec(ring, es).q.tail
    requires WriterOnly(mid1) && WriterOnly(mid2)
    requires NeverBlind(ring, es + [StepReader(true)] + mid1 + [StepReader(true)] + mid2)
    ensures
      var q, step := Exec(ring, es).q, [StepReader(true)];
      var s' := Exec(ring, es + step + mid1 + step + mid2 + step);
      s'.taken == Exec(ring, es).taken + [q.ring[q.head]] && s'.r.RWake?
  {
    var step := [StepReader(true)];
    var es1, es2 := es + step, es + step + mid1;
    var es3, es4 := es2 + step, es2 + step + mid2;
    assert es4 == es + (step + mid1 + step + mid2) == es1 + (mid1 + step + mid2) == es2 + (step + mid2) == es3 + mid2;
    NeverBlindBefore(ring, es, step + mid1 + step + mid2);
    NeverBlindBefore(ring, es1, mid1 + step + mid2);
    NeverBlindBefore(ring, es2, step + mid2);
    NeverBlindBefore(ring, es3, mid2);
    ExecAppend(ring, es, StepReader(true));
    WriterAlone(ring, es1, mid1);
    StillBefore(Exec(ring, es1), Exec(ring, es2));
    ExecAppend(ring, es2, StepReader(true));
    WriterAlone(ring, es3, mid2);
    ExecAppend(ring, es4, StepReader(true));
  }

  /** A reader that was woken tests again; one that was interrupted returns. */
  lemma {:induction false} ReaderWakes(ring: Ring, es: seq<Event>, ok: bool)
    requires Exec(ring, es).r.RAsleep?
    ensures
      var s, s' := Exec(ring, es), Exec(ring, es + [StepReader(ok)]);
      && (s'.r.RIdle? <==> !ok) && (s'.r.RTest? <==> ok && s.condition != 0)
      && s' == s.(r := s'.r)
  {
    ExecAppend(ring, es, StepReader(ok));
  }

  /** A write goes past its test exactly if the ring is not full, or head is 0 when it samples `prev`. */
  lemma {:induction false} WriterTests(ring: Ring, es: seq<Event>, b: Byte)
    requires Exec(ring, es).w.WIdle?
    ensures
      var s := Exec(ring, es);
      var s' := Exec(ring, es + [CallWrite(b)] + [StepWriter(true)]);
      if Full(s.q) && s.q.head != 0 then s'.w.WFull? else s'.w == WStore(b)
  {
    ExecAppend(ring, es, CallWrite(b));
    ExecAppend(ring, es + [CallWrite(b)], StepWriter(true));
    FullAtHead(Exec(ring, es).q);
  }

  /** A write past its test puts its byte in by two successful steps of its own, whatever the reader does. */
  lemma {:induction false} WriterPuts(ring: Ring, es: seq<Event>, mid1: seq<Event>, mid2: seq<Event>)
    requires Exec(ring, es).w.WStore? && ReaderOnly(mid1) && ReaderOnly(mid2)
    ensures
      var b, s' := Exec(ring, es).w.b, Exec(ring, es + mid1 + [StepWriter(true)] + mid2 + [StepWriter(true)]);
      s'.accepted == Exec(ring, es).accepted + [b] && s'.w.WWake?
  {
    var es1 := es + mid1;
    var es2 := es1 + [StepWriter(true)];
    ReaderAlone(ring, es, mid1);
    ExecAppend(ring, es1, StepWriter(true));
    ReaderAlone(ring, es2, mid2);
    ExecAppend(ring, es2 + mid2, StepWriter(true));
  }

  /** Both sides end by setting the condition, which wakes the other. */
  lemma {:induction false} BothWake(ring: Ring, es: seq<Event>, ok: bool)
    ensures Exec(ring, es).w.WWake? ==>
              Exec(ring, es + [StepWriter(ok)]).condition == 1 && Exec(ring, es + [StepWriter(ok)]).w.WIdle?
    ensures Exec(ring, es).r.RWake? ==>
              Exec(ring, es + [StepReader(ok)]).condition == 1 && Exec(ring, es + [StepReader(ok)]).r.RIdle?
  {
    ExecAppend(ring, es, StepWriter(ok));
    ExecAppend(ring, es, StepReader(ok));
  }
}
