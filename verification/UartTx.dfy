/** The transmit path of UartDriver/test_serial.c: a circular buffer drained by a timer. */
module UartTx {
  import opened Bytes

  const U32 := 0x1_0000_0000
  const WAKEUP_CHARS := 256

  // ------------------------------------------------------ masks of two

  function Pow2(k: nat): (p: nat)
    ensures p >= 1
  {
    if k == 0 then 1 else 2 * Pow2(k - 1)
  }

  /** Bitwise and. */
  function And(a: nat, b: nat): nat {
    if a == 0 || b == 0 then 0 else 2 * And(a / 2, b / 2) + (a % 2) * (b % 2)
  }

  lemma MaskStep(a: nat, p: nat)
    requires p >= 1
    ensures And(a, 2 * p - 1) == 2 * And(a / 2, p - 1) + a % 2
  {
    assert (2 * p - 1) / 2 == p - 1 && (2 * p - 1) % 2 == 1;
  }

  /** Masking with a power of two less one is the remainder. */
  lemma {:induction false} MaskIsRemainder(a: nat, k: nat)
    ensures And(a, Pow2(k) - 1) == a % Pow2(k)
  {
    if k > 0 {
      var p := Pow2(k - 1);
      MaskStep(a, p);
      MaskIsRemainder(a / 2, k - 1);
      HalfRemainder(a, p);
    }
  }

  lemma HalfRemainder(a: nat, p: nat)
    requires p >= 1
    ensures a % (2 * p) == 2 * ((a / 2) % p) + a % 2
  {
    var q := (a / 2) / p;
    assert a / 2 == q * p + (a / 2) % p;
    assert a == q * (2 * p) + (2 * ((a / 2) % p) + a % 2);
    RemainderIs(a, 2 * p, q, 2 * ((a / 2) % p) + a % 2);
  }

  lemma RemainderIs(a: int, n: int, q: int, r: int)
    requires n > 0 && 0 <= r && a == q * n + r && r < n
    ensures a % n == r
  {
    var d := a / n - q;
    assert a == (a / n) * n + a % n;
    assert r - a % n == d * n;
    MultipleIsFar(d, n);
  }

  lemma MultipleIsFar(d: int, n: int)
    requires n > 0
    ensures d >= 1 ==> d * n >= n
    ensures d <= -1 ==> d * n <= -n
  {
  }

  // --------------------------------------------------------- the buffer

  /** The bytes from tail up to head, in the order they go out. */
  function Pending(buf: seq<Byte>, head: nat, tail: nat): (p: seq<Byte>)
    requires head < |buf| && tail < |buf|
    ensures |p| == (if tail <= head then head - tail else |buf| - tail + head)
  {
    if tail <= head then buf[tail..head] else buf[tail..] + buf[..head]
  }

  lemma PendingStep(buf: seq<Byte>, head: nat, tail: nat)
    requires head < |buf| && tail < |buf| && head != tail
    ensures
      var next := (tail + 1) % |buf|;
      Pending(buf, head, tail) == [buf[tail]] + Pending(buf, head, next)
  {
    NextSlot(tail, |buf|);
    PendingNext(buf, head, tail, if tail + 1 == |buf| then 0 else tail + 1);
  }

  lemma PendingNext(buf: seq<Byte>, head: nat, tail: nat, next: nat)
    requires head < |buf| && tail < |buf| && head != tail && next == if tail + 1 == |buf| then 0 else tail + 1
    ensures Pending(buf, head, tail) == [buf[tail]] + Pending(buf, head, next)
  {
  }

  lemma NextSlot(tail: nat, size: nat)
    requires tail < size
    ensures (tail + 1) % size == if tail + 1 == size then 0 else tail + 1
  {
    if tail + 1 == size {
      RemainderIs(tail + 1, size, 1, 0);
    } else {
      RemainderIs(tail + 1, size, 0, tail + 1);
    }
  }

  /** CIRC_CNT: the difference as a 32-bit number, masked. */
  function CircCount(head: nat, tail: nat, size: nat): nat
    requires size >= 1
  {
    And((head - tail) % U32, size - 1)
  }

  lemma Pow2Sum(a: nat, b: nat)
    ensures Pow2(a + b) == Pow2(a) * Pow2(b)
  {
    if a > 0 {
      Pow2Sum(a - 1, b);
    }
  }

  lemma Pow2Of32()
    ensures Pow2(32) == U32
  {
    assert Pow2(8) == 256;
    Pow2Sum(8, 8);
    Pow2Sum(16, 16);
  }

  lemma WrapsEvenly(k: nat)
    requires k <= 32
    ensures Pow2(32 - k) * Pow2(k) == U32
  {
    Pow2Sum(32 - k, k);
    Pow2Of32();
  }

  lemma Difference(head: nat, tail: nat, n: nat, m: nat, wrap: nat)
    requires head < n && tail < n && m >= 1 && m * n == wrap
    ensures ((head - tail) % wrap) % n == if tail <= head then head - tail else n - tail + head
  {
    assert wrap == (m - 1) * n + n && (m - 1) * n >= 0;
    if tail <= head {
      RemainderIs(head - tail, wrap, 0, head - tail);
      RemainderIs(head - tail, n, 0, head - tail);
    } else {
      RemainderIs(head - tail, wrap, -1, wrap - (tail - head));
      RemainderIs(wrap - (tail - head), n, m - 1, n - tail + head);
    }
  }

  lemma Distance(head: nat, tail: nat, size: nat, k: nat)
    requires k <= 32 && size == Pow2(k) && head < size && tail < size
    ensures ((head - tail) % U32) % size == if tail <= head then head - tail else size - tail + head
  {
    WrapsEvenly(k);
    Difference(head, tail, size, Pow2(32 - k), U32);
  }

  /** The masked difference is the number of bytes pending. */
  lemma {:induction false} CircCountIsPending(buf: seq<Byte>, head: nat, tail: nat, k: nat)
    requires k <= 32 && |buf| == Pow2(k) && head < |buf| && tail < |buf|
    ensures CircCount(head, tail, |buf|) == |Pending(buf, head, tail)|
  {
    MaskIsRemainder((head - tail) % U32, k);
    Distance(head, tail, |buf|, k);
  }

  // ----------------------------------------------------------- the port

  /** How many bytes one tick may send: `count` starts at fifosize >> 1, and the loop tests it last. */
  function Quota(fifosize: nat): (q: nat)
    ensures q >= 1
  {
    Max(1, fifosize / 2)
  }

  /** icount.tx after one more character; it is a 32-bit counter. */
  function Tick(tx: nat): nat {
    if tx + 1 == U32 then 0 else tx + 1
  }

  /** icount.tx after n more characters. */
  function Ticks(tx: nat, n: nat): nat {
    if n == 0 then tx else Tick(Ticks(tx, n - 1))
  }

  lemma {:induction false} TicksCount(tx: nat, n: nat)
    requires tx < U32
    ensures Ticks(tx, n) == (tx + n) % U32
  {
    if n > 0 {
      TicksCount(tx, n - 1);
      var m := tx + n - 1;
      if m % U32 + 1 == U32 {
        RemainderIs(m + 1, U32, m / U32 + 1, 0);
      } else {
        RemainderIs(m + 1, U32, m / U32, m % U32 + 1);
      }
    }
  }

  /** `queue` is what was sent followed by what is left. */
  predicate Split(queue: seq<Byte>, sent: seq<Byte>, left: seq<Byte>) {
    sent + left == queue && |sent| + |left| == |queue|
  }

  lemma SplitNext(queue: seq<Byte>, sent: seq<Byte>, left: seq<Byte>, b: Byte, rest: seq<Byte>)
    requires Split(queue, sent, left) && left == [b] + rest
    ensures Split(queue, sent + [b], rest)
  {
    assert sent + ([b] + rest) == (sent + [b]) + rest;
  }

  class Port {
    var xChar: Byte
    var head: nat
    var tail: nat
    var tx: nat
    const fifosize: nat
    const buf: array<Byte>
    ghost const order: nat  // the buffer has 2^order slots

    ghost predicate Ok()
      reads this, buf
    {
      order <= 32 && buf.Length == Pow2(order) && head < buf.Length && tail < buf.Length && tx < U32
    }

    ghost function Queued(): seq<Byte>
      reads this, buf
      requires Ok()
    {
      Pending(buf[..], head, tail)
    }

    constructor (k: nat, fifosize: nat)
      requires k <= 32
      ensures Ok() && fresh(buf) && Queued() == [] && xChar == 0 && tx == 0 && this.fifosize == fifosize
    {
      order, this.fifosize := k, fifosize;
      head, tail, tx, xChar := 0, 0, 0, 0;
      buf := new Byte[Pow2(k)](_ => 0);
    }

    /** Lines 60-62: the oldest byte goes out. */
    method SendOne() returns (b: Byte)
      requires Ok() && head != tail
      modifies this`tail, this`tx
      ensures Ok() && old(Queued()) == [b] + Queued() && tx == Tick(old(tx))
    {
      PendingStep(buf[..], head, tail);
      MaskIsRemainder(tail + 1, order);
      b := buf[tail];
      tail := And(tail + 1, buf.Length - 1);
      tx := Tick(tx);
    }

    /**
     test_tx_chars, lines 42-72.  `sent` is what went out; `wakeup` says that uart_write_wakeup
     was called.  A pending x_char goes alone; otherwise a tick sends the oldest bytes, as many
     as the quota allows.
     */
    method TxChars(stopped: bool) returns (sent: seq<Byte>, wakeup: bool)
      requires Ok()
      modifies this`xChar, this`tail, this`tx
      ensures Ok() && xChar == 0 && tx == Ticks(old(tx), |sent|)
      ensures old(xChar) != 0 ==> sent == [old(xChar)] && Queued() == old(Queued()) && !wakeup
      ensures old(xChar) == 0 && stopped ==> sent == [] && Queued() == old(Queued()) && !wakeup
      ensures old(xChar) == 0 && !stopped ==>
                && |sent| == Min(|old(Queued())|, Max(1, fifosize / 2))
                && sent + Queued() == old(Queued())
                && (wakeup <==> sent != [] && |Queued()| < WAKEUP_CHARS)
      ensures (Line(xChar, Queued()), sent) == Ticked(Line(old(xChar), old(Queued())), fifosize, stopped)
    {
      sent, wakeup := [], false;
      if xChar != 0 {
        sent := [xChar];
        tx := Tick(tx);
        xChar := 0;
        return;
      }
      if head == tail || stopped {
        return;
      }
      sent := Drain(fifosize / 2);
      wakeup := FewPending();
    }

    /** The do-while loop of lines 59-65, which tests its count after the first byte. */
    method Drain(limit: nat) returns (sent: seq<Byte>)
      requires Ok() && head != tail
      modifies this`tail, this`tx
      ensures Ok() && tx == Ticks(old(tx), |sent|)
      ensures sent + Queued() == old(Queued()) && |sent| == Min(|old(Queued())|, Max(1, limit))
    {
      var count: int := limit;
      ghost var queue := Queued();
      sent := [];
      var more := true;
      while more
        invariant Ok() && tx == Ticks(old(tx), |sent|)
        invariant Split(queue, sent, Queued())
        invariant head == tail <==> |sent| == |queue|
        invariant more ==> head != tail && count == limit - |sent| && (sent == [] || count > 0)
        invariant !more ==> |sent| == Min(|queue|, Max(1, limit))
        decreases |queue| - |sent|, more
      {
        ghost var left := Queued();
        var b := SendOne();
        SplitNext(queue, sent, left, b, Queued());
        sent := sent + [b];
        if head == tail {
          more := false;
        } else {
          count := count - 1;
          more := count > 0;
        }
      }
    }

    /** Line 67. */
    method FewPending() returns (few: bool)
      requires Ok()
      ensures few <==> |Queued()| < WAKEUP_CHARS
    {
      CircCountIsPending(buf[..], head, tail, order);
      few := CircCount(head, tail, buf.Length) < WAKEUP_CHARS;
    }
  }

  // ---------------------------------------------------------------- runs

  /** The line as test_tx_chars sees it: a control character and the bytes queued. */
  datatype Line = Line(xChar: Byte, queue: seq<Byte>)

  /** What a tick that sends from `l` leaves, and what it sends. */
  function Ticked(l: Line, fifosize: nat, stopped: bool): (Line, seq<Byte>) {
    if l.xChar != 0 then (l.(xChar := 0), [l.xChar])
    else if stopped then (l, [])
    else var n := Min(|l.queue|, Quota(fifosize)); (l.(queue := l.queue[n..]), l.queue[..n])
  }

  /** What the serial core and the timer do to the line. */
  datatype Event = Enqueue(bytes: seq<Byte>) | Control(c: Byte) | Timer(stopped: bool)

  datatype History = History(line: Line, data: seq<Byte>, controls: nat, tx: nat)

  function After(h: History, fifosize: nat, e: Event): History {
    match e
    case Enqueue(bytes) => h.(line := h.line.(queue := h.line.queue + bytes))
    case Control(c) => h.(line := h.line.(xChar := c))
    case Timer(stopped) =>
      var (line, sent) := Ticked(h.line, fifosize, stopped);
      if h.line.xChar != 0 then History(line, h.data, h.controls + 1, Ticks(h.tx, |sent|))
      else History(line, h.data + sent, h.controls, Ticks(h.tx, |sent|))
  }

  function Exec(fifosize: nat, es: seq<Event>): History
    decreases |es|
  {
    if es == [] then History(Line(0, []), [], 0, 0)
    else After(Exec(fifosize, es[..|es| - 1]), fifosize, es[|es| - 1])
  }

  function Enqueued(es: seq<Event>): seq<Byte>
    decreases |es|
  {
    if es == [] then []
    else Enqueued(es[..|es| - 1]) + (if es[|es| - 1].Enqueue? then es[|es| - 1].bytes else [])
  }

  lemma TicksAdd(tx: nat, m: nat, n: nat)
    ensures Ticks(Ticks(tx, m), n) == Ticks(tx, m + n)
  {
  }

  lemma SentThenQueued(h: History, fifosize: nat, e: Event)
    ensures
      var h' := After(h, fifosize, e);
      h'.data + h'.line.queue == h.data + h.line.queue + (if e.Enqueue? then e.bytes else [])
  {
  }

  lemma AllCounted(h: History, fifosize: nat, e: Event)
    requires h.tx == Ticks(0, |h.data| + h.controls)
    ensures var h' := After(h, fifosize, e); h'.tx == Ticks(0, |h'.data| + h'.controls)
  {
    if e.Timer? {
      TicksAdd(0, |h.data| + h.controls, |Ticked(h.line, fifosize, e.stopped).1|);
    }
  }

  /**
   Over every run the data sent followed by the data queued is the data enqueued, and icount.tx
   counts every data byte and every control character, modulo 2^32.
   */
  lemma {:induction false} NothingLost(fifosize: nat, es: seq<Event>)
    ensures
      var h := Exec(fifosize, es);
      && h.data + h.line.queue == Enqueued(es)
      && h.tx == Ticks(0, |h.data| + h.controls) == (|h.data| + h.controls) % U32
    decreases |es|
  {
    TicksCount(0, |Exec(fifosize, es).data| + Exec(fifosize, es).controls);
    if es != [] {
      var h := Exec(fifosize, es[..|es| - 1]);
      NothingLost(fifosize, es[..|es| - 1]);
      SentThenQueued(h, fifosize, es[|es| - 1]);
      AllCounted(h, fifosize, es[|es| - 1]);
    }
  }

  /** The queue after k ticks, when nothing is added, stopped or sent out of band. */
  function Drained(queue: seq<Byte>, fifosize: nat, k: nat): seq<Byte> {
    if k == 0 then queue else Ticked(Line(0, Drained(queue, fifosize, k - 1)), fifosize, false).0.queue
  }

  /** What is left of `queue` after `gone` bytes. */
  function Rest(queue: seq<Byte>, gone: nat): seq<Byte> {
    if gone <= |queue| then queue[gone..] else []
  }

  lemma RestStep(queue: seq<Byte>, gone: nat, q: nat)
    ensures Rest(queue, gone)[Min(|Rest(queue, gone)|, q)..] == Rest(queue, gone + q)
  {
  }

  lemma DrainedStep(queue: seq<Byte>, fifosize: nat, k: nat, gone: nat)
    requires k > 0 && Drained(queue, fifosize, k - 1) == Rest(queue, gone)
    ensures Drained(queue, fifosize, k) == Rest(queue, gone + Quota(fifosize))
  {
    RestStep(queue, gone, Quota(fifosize));
  }

  lemma OneMore(k: nat, q: nat)
    requires k > 0
    ensures (k - 1) * q + q == k * q && (k - 1) * q >= 0
  {
  }

  lemma {:induction false} DrainedIs(queue: seq<Byte>, fifosize: nat, k: nat)
    ensures Drained(queue, fifosize, k) == Rest(queue, k * Quota(fifosize))
  {
    if k > 0 {
      DrainedIs(queue, fifosize, k - 1);
      OneMore(k, Quota(fifosize));
      DrainedStep(queue, fifosize, k, (k - 1) * Quota(fifosize));
    }
  }

  /** p bytes are out after exactly ceil(p / quota) ticks. */
  lemma {:induction false} DrainTime(queue: seq<Byte>, fifosize: nat, k: nat)
    ensures
      var q := Max(1, fifosize / 2);
      Drained(queue, fifosize, k) == [] <==> k >= (|queue| + q - 1) / q
  {
    var q, p := Quota(fifosize), |queue|;
    DrainedIs(queue, fifosize, k);
    CeilDiv(p, q, k);
  }

  lemma CeilDiv(p: nat, q: nat, k: nat)
    requires q >= 1
    ensures k * q >= p <==> k >= (p + q - 1) / q
  {
    var c := (p + q - 1) / q;
    var r := (p + q - 1) % q;
    assert p + q - 1 == c * q + r;
    MultipleIsFar(k - c, q);
    assert k * q == c * q + (k - c) * q;
  }
}
