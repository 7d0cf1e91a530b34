/** The 512-slot ring buffer of WaitQueue/wait1.c, for calls that do not sleep. */
module RingQueue {
  import opened Bytes

  const RINGSIZE := 512

  /** The remainder of C, which takes the sign of the dividend. */
  function CRem(a: int, b: int): (r: int)
    requires b > 0
    ensures -b < r < b && (a >= 0 ==> r >= 0) && (a <= 0 ==> r <= 0)
  {
    if a >= 0 then a % b else -((-a) % b)
  }

  /** What a call does: 1 with the byte it moved, sleep, or -EFAULT. */
  datatype Outcome = Moved(b: Byte) | Sleeps | Fault

  datatype Queue = Queue(ring: seq<Byte>, head: int, tail: int)

  predicate Valid(q: Queue) {
    |q.ring| == RINGSIZE && 0 <= q.head < RINGSIZE && 0 <= q.tail < RINGSIZE
  }

  /** The bytes between head and tail, in the order they are to be read. */
  function Items(q: Queue): seq<Byte>
    requires Valid(q)
  {
    if q.head <= q.tail then q.ring[q.head..q.tail] else q.ring[q.head..] + q.ring[..q.tail]
  }

  /** my_write, lines 25-40; a faulting get_user leaves `b` in the slot all the same. */
  function Put(q: Queue, b: Byte, fault: bool): (r: (Queue, Outcome))
    requires Valid(q)
    ensures Valid(r.0)
  {
    if CRem(q.head - 1, RINGSIZE) == q.tail then (q, Sleeps)
    else
      var stored := q.(ring := q.ring[q.tail := b]);
      if fault then (stored, Fault) else (stored.(tail := CRem(1 + q.tail, RINGSIZE)), Moved(b))
  }

  /** my_read, lines 50-66. */
  function Get(q: Queue, fault: bool): (r: (Queue, Outcome))
    requires Valid(q)
    ensures Valid(r.0)
  {
    if q.head == q.tail then (q, Sleeps)
    else if fault then (q, Fault)
    else (q.(head := CRem(1 + q.head, RINGSIZE)), Moved(q.ring[q.head]))
  }

  // --------------------------------------------------------- the driver

  class Driver {
    var head: int
    var tail: int
    var condition: int
    const ring: array<Byte>

    ghost predicate Ok()
      reads this, ring
    {
      Valid(State())
    }

    ghost function State(): Queue
      reads this, ring
    {
      Queue(ring[..], head, tail)
    }

    constructor ()
      ensures Ok() && fresh(ring) && Items(State()) == [] && head == 0 && tail == 0
    {
      head, tail, condition := 0, 0, 0;
      ring := new Byte[RINGSIZE](_ => 0);
    }

    method Write(b: Byte, fault: bool) returns (r: Outcome)
      requires Ok()
      modifies this`tail, this`condition, ring
      ensures Ok() && (State(), r) == Put(old(State()), b, fault)
      ensures condition == if r.Moved? then 1 else if r.Sleeps? then 0 else old(condition)
    {
      var prev := CRem(head - 1, RINGSIZE);
      if prev == tail {
        condition := 0;
        return Sleeps;
      }
      ring[tail] := b;
      if fault {
        return Fault;
      }
      tail := CRem(1 + tail, RINGSIZE);
      condition := 1;
      r := Moved(b);
    }

    method Read(fault: bool) returns (r: Outcome)
      requires Ok()
      modifies this`head, this`condition
      ensures Ok() && (State(), r) == Get(old(State()), fault)
      ensures condition == if r.Moved? then 1 else if r.Sleeps? then 0 else old(condition)
    {
      if head == tail {
        condition := 0;
        return Sleeps;
      }
      var b := ring[head];
      if fault {
        return Fault;
      }
      head := CRem(1 + head, RINGSIZE);
      condition := 1;
      r := Moved(b);
    }
  }

  // ------------------------------------------- a queue of 511 bytes

  function FifoPut(items: seq<Byte>, b: Byte, fault: bool): (seq<Byte>, Outcome) {
    if |items| == RINGSIZE - 1 then (items, Sleeps) else if fault then (items, Fault) else (items + [b], Moved(b))
  }

  function FifoGet(items: seq<Byte>, fault: bool): (seq<Byte>, Outcome) {
    if items == [] then (items, Sleeps) else if fault then (items, Fault) else (items[1..], Moved(items[0]))
  }

  /** The one state in which the full ring is not seen to be full: `prev` is -1 there. */
  predicate Blind(q: Queue) {
    q.head == 0 && q.tail == RINGSIZE - 1
  }

  /**
   A write is a write to the bounded queue exactly when the ring is not in the blind state.
   There the ring is full, and a write that does not fault is accepted and empties it.
   */
  lemma PutIsFifo(q: Queue, b: Byte, fault: bool)
    requires Valid(q)
    ensures
      var (q', r) := Put(q, b, fault);
      && ((Items(q'), r) == FifoPut(Items(q), b, fault) <==> !Blind(q))
      && (Blind(q) ==> |Items(q)| == RINGSIZE - 1 && !r.Sleeps? && (!fault ==> r == Moved(b) && Items(q') == []))
  {
    Remainders(q.head);
    ItemCount(q);
    if Blind(q) {
      BlindPut(q, b, fault);
    } else if q.head - 1 != q.tail {
      RoomyPut(q, b, fault);
    }
  }

  lemma BlindPut(q: Queue, b: Byte, fault: bool)
    requires Valid(q) && Blind(q)
    ensures
      var (q', r) := Put(q, b, fault);
      |Items(q)| == RINGSIZE - 1 && !r.Sleeps? && (!fault ==> r == Moved(b) && Items(q') == [])
  {
    Remainders(q.tail);
    Remainders(q.head);
    ItemCount(q);
  }

  lemma RoomyPut(q: Queue, b: Byte, fault: bool)
    requires Valid(q) && NextSlot(q.tail) != q.head
    ensures var (q', r) := Put(q, b, fault); (Items(q'), r) == FifoPut(Items(q), b, fault)
  {
    var stored := q.(ring := q.ring[q.tail := b]);
    Remainders(q.tail);
    Remainders(q.head);
    ItemCount(q);
    StoreKeepsItems(q, b);
    if !fault {
      AdvanceAdds(stored);
    }
  }

  /** The slot after `i`. */
  function NextSlot(i: int): int {
    if i == RINGSIZE - 1 then 0 else i + 1
  }

  lemma Remainders(i: int)
    requires 0 <= i < RINGSIZE
    ensures CRem(1 + i, RINGSIZE) == NextSlot(i) && CRem(i - 1, RINGSIZE) == i - 1
  {
  }

  /** The ring is full one slot before head. */
  lemma ItemCount(q: Queue)
    requires Valid(q)
    ensures |Items(q)| == if q.head <= q.tail then q.tail - q.head else RINGSIZE - q.head + q.tail
    ensures |Items(q)| == RINGSIZE - 1 <==> NextSlot(q.tail) == q.head
  {
  }

  lemma StoreKeepsItems(q: Queue, b: Byte)
    requires Valid(q)
    ensures Items(q.(ring := q.ring[q.tail := b])) == Items(q)
  {
  }

  lemma AdvanceAdds(q: Queue)
    requires Valid(q) && NextSlot(q.tail) != q.head
    ensures Items(q.(tail := NextSlot(q.tail))) == Items(q) + [q.ring[q.tail]]
  {
    if q.tail == RINGSIZE - 1 {
      assert q.ring[q.head..] == q.ring[q.head..q.tail] + [q.ring[q.tail]];
    } else {
      NextByte(q);
    }
  }

  lemma NextByte(q: Queue)
    requires Valid(q) && q.tail + 1 < RINGSIZE && q.tail + 1 != q.head
    ensures Items(q.(tail := q.tail + 1)) == Items(q) + [q.ring[q.tail]]
  {
    if q.head <= q.tail {
      assert q.ring[q.head..q.tail + 1] == q.ring[q.head..q.tail] + [q.ring[q.tail]];
    } else {
      assert q.ring[..q.tail + 1] == q.ring[..q.tail] + [q.ring[q.tail]];
    }
  }

  /** A read is always a read from the bounded queue. */
  lemma GetIsFifo(q: Queue, fault: bool)
    requires Valid(q)
    ensures
      var (q', r) := Get(q, fault);
      (Items(q'), r) == FifoGet(Items(q), fault)
  {
    var q' := Get(q, fault).0;
    if q.head != q.tail && !fault {
      assert Items(q') == Items(q)[1..];
    }
  }

  // ----------------------------------------------------------------- runs

  datatype Op = WriteOp(b: Byte, fault: bool) | ReadOp(fault: bool)

  function Do(q: Queue, op: Op): (r: (Queue, Outcome))
    requires Valid(q)
    ensures Valid(r.0)
  {
    match op
    case WriteOp(b, fault) => Put(q, b, fault)
    case ReadOp(fault) => Get(q, fault)
  }

  function FifoDo(items: seq<Byte>, op: Op): (seq<Byte>, Outcome) {
    match op
    case WriteOp(b, fault) => FifoPut(items, b, fault)
    case ReadOp(fault) => FifoGet(items, fault)
  }

  /** What a user sees of the ring from state `q` on. */
  function RingOutcomes(q: Queue, ops: seq<Op>): seq<Outcome>
    requires Valid(q)
    decreases |ops|
  {
    if ops == [] then [] else var (q', r) := Do(q, ops[0]); [r] + RingOutcomes(q', ops[1..])
  }

  function FifoOutcomes(items: seq<Byte>, ops: seq<Op>): seq<Outcome>
    decreases |ops|
  {
    if ops == [] then [] else var (items', r) := FifoDo(items, ops[0]); [r] + FifoOutcomes(items', ops[1..])
  }

  /** Somewhere among `ops` a write meets the blind state. */
  predicate WritesBlind(q: Queue, ops: seq<Op>)
    requires Valid(q)
    decreases |ops|
  {
    ops != [] && ((ops[0].WriteOp? && Blind(q)) || WritesBlind(Do(q, ops[0]).0, ops[1..]))
  }

  /** Seen from outside, the ring is the queue of 511 bytes exactly when no write meets the blind state. */
  lemma {:induction false} RingIsFifo(q: Queue, ops: seq<Op>)
    requires Valid(q)
    ensures RingOutcomes(q, ops) == FifoOutcomes(Items(q), ops) <==> !WritesBlind(q, ops)
    decreases |ops|
  {
    if ops != [] {
      var (q', r) := Do(q, ops[0]);
      if ops[0].WriteOp? {
        PutIsFifo(q, ops[0].b, ops[0].fault);
      } else {
        GetIsFifo(q, ops[0].fault);
      }
      RingIsFifo(q', ops[1..]);
      var (items', f) := FifoDo(Items(q), ops[0]);
      assert RingOutcomes(q, ops)[0] == r && FifoOutcomes(Items(q), ops)[0] == f;
      assert RingOutcomes(q, ops)[1..] == RingOutcomes(q', ops[1..]);
      assert FifoOutcomes(Items(q), ops)[1..] == FifoOutcomes(items', ops[1..]);
    }
  }

  function PutAll(q: Queue, bytes: seq<Byte>): (r: Queue)
    requires Valid(q)
    ensures Valid(r)
    decreases |bytes|
  {
    if bytes == [] then q else PutAll(Put(q, bytes[0], false).0, bytes[1..])
  }

  lemma {:induction false} PutAllFits(q: Queue, bytes: seq<Byte>)
    requires Valid(q) && q.head == 0 && q.tail + |bytes| < RINGSIZE
    ensures
      var r := PutAll(q, bytes);
      r.head == 0 && r.tail == q.tail + |bytes| && Items(r) == Items(q) + bytes
    decreases |bytes|
  {
    if bytes == [] {
      assert Items(q) + [] == Items(q);
    } else {
      PutIsFifo(q, bytes[0], false);
      PutAllFits(Put(q, bytes[0], false).0, bytes[1..]);
      assert Items(q) + [bytes[0]] + bytes[1..] == Items(q) + bytes;
    }
  }

  lemma {:induction false} PutAllSplits(q: Queue, xs: seq<Byte>, y: Byte)
    requires Valid(q)
    ensures PutAll(q, xs + [y]) == Put(PutAll(q, xs), y, false).0
    decreases |xs|
  {
    if xs == [] {
      assert xs + [y] == [y] && [y][1..] == [];
    } else {
      assert (xs + [y])[1..] == xs[1..] + [y];
      PutAllSplits(Put(q, xs[0], false).0, xs[1..], y);
    }
  }

  /** A fresh ring keeps any 511 bytes, and any 512th write, though accepted, loses them all. */
  lemma FreshRingOverflows(q: Queue, bytes: seq<Byte>, last: Byte)
    requires Valid(q) && q.head == 0 && q.tail == 0 && |bytes| == RINGSIZE - 1
    ensures Items(PutAll(q, bytes)) == bytes
    ensures Put(PutAll(q, bytes), last, false).1 == Moved(last)
    ensures Items(PutAll(q, bytes + [last])) == []
    ensures Get(PutAll(q, bytes + [last]), false).1 == Sleeps
  {
    PutAllFits(q, bytes);
    PutAllSplits(q, bytes, last);
    PutIsFifo(PutAll(q, bytes), last, false);
  }
}
