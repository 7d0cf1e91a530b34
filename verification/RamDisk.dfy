/** The RAM disk of BlockDriver/blk1.c: transfers, requests made of segments, and its capacity. */
module RamDisk {
  import opened Bytes

  const SECTOR := 512
  const U64 := 0x1_0000_0000_0000_0000
  const INT_MAX := 0x7fff_ffff

  // ------------------------------------------------------------ transfers

  /** A number as an `unsigned long` holds it. */
  function Wrap(x: nat): (w: nat)
    ensures w == x % U64
  {
    if x < U64 then x else x % U64
  }

  /** The test of line 90 lets the transfer through; `unsigned long` arithmetic wraps. */
  predicate Admitted(size: nat, sector: nat, nsect: nat) {
    Wrap(Wrap(sector * SECTOR) + Wrap(nsect * SECTOR)) <= size
  }

  /** The data after a write of `bytes` at `at`, which is dropped beyond the end. */
  function Written(data: seq<Byte>, at: nat, bytes: seq<Byte>): (r: seq<Byte>)
    ensures |r| == |data|
  {
    if at + |bytes| <= |data| then Splice(data, at, bytes) else data
  }

  /** A buffer after a read of `n` bytes at `at` into it, which is dropped beyond the end. */
  function Filled(data: seq<Byte>, at: nat, n: nat, buffer: seq<Byte>): (r: seq<Byte>)
    requires n <= |buffer|
    ensures |r| == |buffer|
  {
    if at + n <= |data| then data[at..at + n] + buffer[n..] else buffer
  }

  /** What becomes of a transfer; a wild one copies outside the data array. */
  datatype Fate = Done | Dropped | Wild

  function FateOf(size: nat, sector: nat, nsect: nat): Fate {
    if !Admitted(size, sector, nsect) then Dropped
    else if Wrap(sector * SECTOR) + Wrap(nsect * SECTOR) <= size then Done
    else Wild
  }

  lemma WrapSum(a: nat, b: nat)
    ensures Wrap(Wrap(a) + Wrap(b)) == Wrap(a + b)
  {
    var q, r := a / U64 + b / U64, a % U64 + b % U64;
    assert a + b == q * U64 + r;
  }

  /**
   The test admits exactly the transfers that end on the disk, if and only if the end is a 64-bit
   number or wraps to one beyond the end of the disk.  An admitted transfer stays inside the data
   array if and only if offset plus length does not wrap.
   */
  lemma {:induction false} GuardExact(size: nat, sector: nat, nsect: nat)
    requires size < U64
    ensures
      var end := (sector + nsect) * SECTOR;
      && ((Admitted(size, sector, nsect) <==> end <= size) <==> end < U64 || end % U64 > size)
      && (Admitted(size, sector, nsect) ==>
            (FateOf(size, sector, nsect) == Done <==> Wrap(sector * SECTOR) + Wrap(nsect * SECTOR) < U64))
  {
    WrapSum(sector * SECTOR, nsect * SECTOR);
    assert sector * SECTOR + nsect * SECTOR == (sector + nsect) * SECTOR;
  }

  /** Sector 2^55 is taken for sector 0; one sector at 2^55 - 1 is admitted and copied from before the array. */
  lemma GuardWraps(size: nat)
    requires SECTOR <= size <= INT_MAX
    ensures FateOf(size, 0x80_0000_0000_0000, 1) == Done
    ensures FateOf(size, 0x7f_ffff_ffff_ffff, 1) == Wild
  {
  }

  /** A transfer whose end is a 64-bit number is done or dropped, as it ends on the disk or not. */
  lemma FateInRange(size: nat, sector: nat, nsect: nat)
    requires (sector + nsect) * SECTOR < U64
    ensures Wrap(sector * SECTOR) == sector * SECTOR && Wrap(nsect * SECTOR) == nsect * SECTOR
    ensures FateOf(size, sector, nsect) == if (sector + nsect) * SECTOR <= size then Done else Dropped
  {
  }

  // ------------------------------------------------------------- capacity

  /** The capacity of line 309, in 512-byte sectors. */
  function Capacity(nsectors: nat, hardsect: nat): nat {
    nsectors * (hardsect / SECTOR)
  }

  /** The advertised sectors and the bytes lost to a ragged hardware sector make up the data array. */
  lemma CapacityFits(nsectors: nat, hardsect: nat)
    ensures Capacity(nsectors, hardsect) * SECTOR + nsectors * (hardsect % SECTOR) == nsectors * hardsect
  {
    assert hardsect == (hardsect / SECTOR) * SECTOR + hardsect % SECTOR;
    Distribute(nsectors, (hardsect / SECTOR) * SECTOR, hardsect % SECTOR);
    Associate(nsectors, hardsect / SECTOR, SECTOR);
  }

  lemma Distribute(a: nat, b: nat, c: nat)
    ensures a * (b + c) == a * b + a * c
  {
  }

  lemma Associate(a: nat, b: nat, c: nat)
    ensures a * (b * c) == (a * b) * c
  {
  }

  /** Every request inside the advertised capacity passes the test and lies inside the data array. */
  lemma {:induction false} CapacityAgrees(nsectors: nat, hardsect: nat, sector: nat, nsect: nat)
    requires nsectors * hardsect <= INT_MAX && sector + nsect <= Capacity(nsectors, hardsect)
    ensures (sector + nsect) * SECTOR <= nsectors * hardsect
    ensures Admitted(nsectors * hardsect, sector, nsect)
  {
    CapacityFits(nsectors, hardsect);
    FateInRange(nsectors * hardsect, sector, nsect);
  }

  // ------------------------------------------------------------- segments

  /** The first `n` bytes of each buffer, end to end: what the loop of lines 120-130 moves. */
  function Moved(mems: seq<seq<Byte>>, n: nat): seq<Byte>
    requires forall i :: 0 <= i < |mems| ==> n <= |mems[i]|
    decreases |mems|
  {
    if mems == [] then [] else Moved(mems[..|mems| - 1], n) + mems[|mems| - 1][..n]
  }

  /** The bytes of each segment, end to end: what the request asks to move. */
  function Asked(mems: seq<seq<Byte>>, lens: seq<nat>): seq<Byte>
    requires |mems| == |lens| && forall i :: 0 <= i < |mems| ==> lens[i] <= |mems[i]|
    decreases |mems|
  {
    if mems == [] then [] else Asked(mems[..|mems| - 1], lens[..|lens| - 1]) + mems[|mems| - 1][..lens[|lens| - 1]]
  }

  /** The data after the loop has written every segment, each tested by itself. */
  function WrittenAll(data: seq<Byte>, at: nat, n: nat, mems: seq<seq<Byte>>): (r: seq<Byte>)
    requires forall i :: 0 <= i < |mems| ==> n <= |mems[i]|
    ensures |r| == |data|
    decreases |mems|
  {
    if mems == [] then data
    else
      var k := |mems| - 1;
      Written(WrittenAll(data, at, n, mems[..k]), at + k * n, mems[k][..n])
  }

  /** The segments after the loop has read into each, each tested by itself. */
  function ReadAll(data: seq<Byte>, at: nat, n: nat, mems: seq<seq<Byte>>): (r: seq<seq<Byte>>)
    requires forall i :: 0 <= i < |mems| ==> n <= |mems[i]|
    ensures |r| == |mems| && forall i :: 0 <= i < |r| ==> |r[i]| == |mems[i]|
  {
    seq(|mems|, i requires 0 <= i < |mems| => Filled(data, at + i * n, n, mems[i]))
  }

  /** One more segment. */
  lemma WrittenNext(data: seq<Byte>, at: nat, n: nat, mems: seq<seq<Byte>>, k: nat)
    requires k < |mems| && forall i :: 0 <= i < |mems| ==> n <= |mems[i]|
    ensures WrittenAll(data, at, n, mems[..k + 1])
            == Written(WrittenAll(data, at, n, mems[..k]), at + k * n, mems[k][..n])
  {
    assert mems[..k + 1][..k] == mems[..k];
  }

  lemma {:induction false} MovedLength(mems: seq<seq<Byte>>, n: nat)
    requires forall i :: 0 <= i < |mems| ==> n <= |mems[i]|
    ensures |Moved(mems, n)| == |mems| * n
    decreases |mems|
  {
    if mems != [] {
      MovedLength(mems[..|mems| - 1], n);
      assert |mems| * n == (|mems| - 1) * n + n;
    }
  }

  lemma SpliceTwice(data: seq<Byte>, at: nat, xs: seq<Byte>, ys: seq<Byte>)
    requires at + |xs| + |ys| <= |data|
    ensures Splice(Splice(data, at, xs), at + |xs|, ys) == Splice(data, at, xs + ys)
  {
  }

  /** Inside the disk, the loop writes what one transfer of the moved bytes would. */
  lemma {:induction false} LoopIsOneTransfer(data: seq<Byte>, at: nat, n: nat, mems: seq<seq<Byte>>)
    requires forall i :: 0 <= i < |mems| ==> n <= |mems[i]|
    requires at + |mems| * n <= |data|
    ensures WrittenAll(data, at, n, mems) == Written(data, at, Moved(mems, n))
    decreases |mems|
  {
    MovedLength(mems, n);
    if mems == [] {
      assert Splice(data, at, []) == data;
    } else {
      var k := |mems| - 1;
      assert |mems| * n == k * n + n;
      MovedLength(mems[..k], n);
      LoopIsOneTransfer(data, at, n, mems[..k]);
      SpliceTwice(data, at, Moved(mems[..k], n), mems[k][..n]);
    }
  }

  lemma ReadAllPrefix(data: seq<Byte>, at: nat, n: nat, mems: seq<seq<Byte>>, k: nat)
    requires k < |mems| && forall i :: 0 <= i < |mems| ==> n <= |mems[i]|
    ensures ReadAll(data, at, n, mems)[..k] == ReadAll(data, at, n, mems[..k])
    ensures ReadAll(data, at, n, mems)[k] == Filled(data, at + k * n, n, mems[k])
  {
  }

  lemma FilledFront(data: seq<Byte>, at: nat, n: nat, buffer: seq<Byte>)
    requires n <= |buffer| && at + n <= |data|
    ensures Filled(data, at, n, buffer)[..n] == data[at..at + n]
  {
  }

  lemma Adjoin(data: seq<Byte>, a: nat, b: nat, c: nat)
    requires a <= b <= c <= |data|
    ensures data[a..b] + data[b..c] == data[a..c]
  {
  }

  /** Inside the disk, the loop reads what one transfer of as many bytes would, spread over the segments. */
  lemma {:induction false} ReadLoopIsOneTransfer(data: seq<Byte>, at: nat, n: nat, mems: seq<seq<Byte>>)
    requires forall i :: 0 <= i < |mems| ==> n <= |mems[i]|
    requires at + |mems| * n <= |data|
    ensures Moved(ReadAll(data, at, n, mems), n) == data[at..at + |mems| * n]
    decreases |mems|
  {
    if mems != [] {
      var k := |mems| - 1;
      OneSegmentMore(k, n);
      ReadLoopIsOneTransfer(data, at, n, mems[..k]);
      ReadAllPrefix(data, at, n, mems, k);
      FilledFront(data, at + k * n, n, mems[k]);
      Adjoin(data, at, at + k * n, at + k * n + n);
    }
  }

  lemma OneSegmentMore(k: nat, n: nat)
    ensures (k + 1) * n == k * n + n && k * n >= 0
  {
  }

  /** Segments beyond the end are dropped one by one: `m` of them fit, and those are written. */
  lemma {:induction false} LoopAtEnd(data: seq<Byte>, at: nat, n: nat, mems: seq<seq<Byte>>, m: nat)
    requires forall i :: 0 <= i < |mems| ==> n <= |mems[i]|
    requires m <= |mems| && (m > 0 ==> at + m * n <= |data|) && (m < |mems| ==> at + m * n + n > |data|)
    ensures WrittenAll(data, at, n, mems) == WrittenAll(data, at, n, mems[..m])
    ensures m > 0 ==> WrittenAll(data, at, n, mems) == Written(data, at, Moved(mems[..m], n))
    decreases |mems|
  {
    if m == |mems| {
      assert mems[..m] == mems;
    } else {
      var k := |mems| - 1;
      LoopAtEnd(data, at, n, mems[..k], m);
      assert mems[..k][..m] == mems[..m];
      Monotone(m, k, n);
    }
    if m > 0 {
      LoopIsOneTransfer(data, at, n, mems[..m]);
    }
  }

  lemma Monotone(a: nat, b: nat, n: nat)
    requires a <= b
    ensures a * n <= b * n
  {
    assert (b - a) * n + a * n == b * n;
  }

  ghost predicate LoopActsAsOne(data: seq<Byte>, at: nat, n: nat, mems: seq<seq<Byte>>)
    requires forall i :: 0 <= i < |mems| ==> n <= |mems[i]|
  {
    WrittenAll(data, at, n, mems) == Written(data, at, Moved(mems, n))
  }

  /**
   Whatever the bytes, a write of `k` segments of `n` bytes acts as one transfer, which is done or
   dropped whole, if and only if it ends on the disk or not even its first segment does.  Otherwise
   it is torn: its first segments are written and the rest is dropped.
   */
  lemma {:induction false} LoopIsAtomic(size: nat, at: nat, n: nat, k: nat)
    ensures
      (forall data, mems: seq<seq<Byte>> :: |data| == size && |mems| == k && (forall i :: 0 <= i < k ==> n <= |mems[i]|)
         ==> LoopActsAsOne(data, at, n, mems))
      <==> at + k * n <= size || at + n > size
  {
    if at + k * n <= size || at + n > size {
      forall data, mems: seq<seq<Byte>> | |data| == size && |mems| == k && forall i :: 0 <= i < k ==> n <= |mems[i]|
        ensures LoopActsAsOne(data, at, n, mems)
      {
        WholeOrNothing(data, at, n, mems);
      }
    } else {
      var data, mems := TornWrite(size, at, n, k);
    }
  }

  lemma WholeOrNothing(data: seq<Byte>, at: nat, n: nat, mems: seq<seq<Byte>>)
    requires forall i :: 0 <= i < |mems| ==> n <= |mems[i]|
    requires at + |mems| * n <= |data| || at + n > |data|
    ensures LoopActsAsOne(data, at, n, mems)
  {
    MovedLength(mems, n);
    if at + |mems| * n <= |data| {
      LoopIsOneTransfer(data, at, n, mems);
    } else {
      LoopAtEnd(data, at, n, mems, 0);
    }
  }

  lemma {:induction false} FirstWritten(data: seq<Byte>, at: nat, n: nat, mems: seq<seq<Byte>>)
    requires mems != [] && n > 0 && at + n <= |data| && forall i :: 0 <= i < |mems| ==> n <= |mems[i]|
    ensures WrittenAll(data, at, n, mems)[at] == mems[0][0]
    decreases |mems|
  {
    var k := |mems| - 1;
    if k == 0 {
      assert WrittenAll(data, at, n, mems[..0]) == data;
    } else {
      FirstWritten(data, at, n, mems[..k]);
      Monotone(1, k, n);
    }
  }

  /** A disk of zeros and segments of ones, of which the first is written. */
  lemma TornWrite(size: nat, at: nat, n: nat, k: nat) returns (data: seq<Byte>, mems: seq<seq<Byte>>)
    requires at + n <= size < at + k * n
    ensures |data| == size && |mems| == k && (forall i :: 0 <= i < k ==> n <= |mems[i]|)
    ensures !LoopActsAsOne(data, at, n, mems)
  {
    data := seq(size, _ => 0);
    mems := seq(k, _ => seq(n, _ => 1));
    MovedLength(mems, n);
    FirstWritten(data, at, n, mems);
  }

  lemma {:induction false} MovedAt(mems: seq<seq<Byte>>, n: nat, i: nat)
    requires forall j :: 0 <= j < |mems| ==> n <= |mems[j]|
    requires i < |mems|
    ensures |Moved(mems, n)| == |mems| * n && 0 <= i * n <= i * n + n <= |mems| * n
    ensures Moved(mems, n)[i * n..i * n + n] == mems[i][..n]
    decreases |mems|
  {
    var k := |mems| - 1;
    MovedLength(mems, n);
    MovedLength(mems[..k], n);
    assert |mems| * n == k * n + n;
    if i < k {
      MovedAt(mems[..k], n, i);
    }
  }

  /** Reading back, segment by segment, what a request of equal segments wrote returns its bytes. */
  lemma {:induction false} RequestRoundTrip(
      data: seq<Byte>, at: nat, n: nat, mems: seq<seq<Byte>>, i: nat, buffer: seq<Byte>)
    requires forall j :: 0 <= j < |mems| ==> |mems[j]| == n
    requires at + |mems| * n <= |data| && i < |mems| && |buffer| == n
    ensures Filled(WrittenAll(data, at, n, mems), at + i * n, n, buffer) == mems[i]
  {
    LoopIsOneTransfer(data, at, n, mems);
    MovedAt(mems, n, i);
    var moved := Moved(mems, n);
    var after := Splice(data, at, moved);
    assert after[at..at + |moved|][i * n..i * n + n] == after[at + i * n..at + i * n + n];
  }

  ghost predicate Fits(mems: seq<seq<Byte>>, lens: seq<nat>, n: nat) {
    |mems| == |lens| && forall i :: 0 <= i < |mems| ==> n <= |mems[i]| && lens[i] <= |mems[i]|
  }

  lemma {:induction false} EqualMoved(mems: seq<seq<Byte>>, lens: seq<nat>, n: nat)
    requires Fits(mems, lens, n) && forall i :: 0 <= i < |lens| ==> lens[i] == n
    ensures Moved(mems, n) == Asked(mems, lens)
    decreases |mems|
  {
    if mems != [] {
      EqualMoved(mems[..|mems| - 1], lens[..|lens| - 1], n);
    }
  }

  /** Buffers that are all zero but for the j-th, which is all ones. */
  function Marked(k: nat, j: nat, size: nat): (mems: seq<seq<Byte>>)
    ensures |mems| == k && forall i :: 0 <= i < k ==> |mems[i]| == size
  {
    seq(k, i => seq(size, _ => if i == j then 1 else 0))
  }

  predicate AllAre(s: seq<Byte>, b: Byte) {
    forall i :: 0 <= i < |s| ==> s[i] == b
  }

  lemma {:induction false} Ones(s: seq<Byte>, b: Byte)
    requires AllAre(s, b)
    ensures multiset(s)[1] == if b == 1 then |s| else 0
  {
    if s != [] {
      Ones(s[1..], b);
      assert s == [s[0]] + s[1..];
    }
  }

  lemma OnesAdd(xs: seq<Byte>, ys: seq<Byte>)
    ensures multiset(xs + ys)[1] == multiset(xs)[1] + multiset(ys)[1]
  {
  }

  /** The marks of one more segment. */
  lemma MarksNext(mems: seq<seq<Byte>>, lens: seq<nat>, n: nat, b: Byte)
    requires mems != [] && Fits(mems, lens, n) && AllAre(mems[|mems| - 1], b)
    ensures
      var k := |mems| - 1;
      && multiset(Moved(mems, n))[1] == multiset(Moved(mems[..k], n))[1] + (if b == 1 then n else 0)
      && multiset(Asked(mems, lens))[1]
         == multiset(Asked(mems[..k], lens[..k]))[1] + (if b == 1 then lens[k] else 0)
  {
    var k := |mems| - 1;
    OnesAdd(Moved(mems[..k], n), mems[k][..n]);
    OnesAdd(Asked(mems[..k], lens[..k]), mems[k][..lens[k]]);
    Ones(mems[k][..n], b);
    Ones(mems[k][..lens[k]], b);
  }

  /** The marks counted: the loop moves n of them, the request asks for lens[j]. */
  lemma {:induction false} MarksMoved(k: nat, j: nat, size: nat, lens: seq<nat>, n: nat)
    requires |lens| == k && n <= size && forall i :: 0 <= i < k ==> lens[i] <= size
    ensures multiset(Moved(Marked(k, j, size), n))[1] == if j < k then n else 0
    ensures multiset(Asked(Marked(k, j, size), lens))[1] == if j < k then lens[j] else 0
    decreases k
  {
    if k > 0 {
      var m := Marked(k, j, size);
      assert m[..k - 1] == Marked(k - 1, j, size);
      MarksMoved(k - 1, j, size, lens[..k - 1], n);
      MarksNext(m, lens, n, if k - 1 == j then 1 else 0);
    }
  }

  function Largest(lens: seq<nat>, n: nat): (m: nat)
    ensures m >= n && forall i :: 0 <= i < |lens| ==> lens[i] <= m
  {
    if lens == [] then n else Max(lens[0], Largest(lens[1..], n))
  }

  /**
   Line 122 takes every segment's length from the request's current segment.  The loop moves the
   bytes the request asks for, whatever they are, exactly when all segments have that length.
   */
  lemma {:induction false} SegmentsMustBeEqual(lens: seq<nat>, n: nat)
    ensures (forall mems :: Fits(mems, lens, n) ==> Moved(mems, n) == Asked(mems, lens))
            <==> (forall i :: 0 <= i < |lens| ==> lens[i] == n)
  {
    if forall i :: 0 <= i < |lens| ==> lens[i] == n {
      forall mems | Fits(mems, lens, n) ensures Moved(mems, n) == Asked(mems, lens) {
        EqualMoved(mems, lens, n);
      }
    } else {
      var j: nat :| j < |lens| && lens[j] != n;
      var mems := TellTale(lens, n, j);
    }
  }

  /** Buffers for which the loop moves other bytes than asked for. */
  lemma TellTale(lens: seq<nat>, n: nat, j: nat) returns (mems: seq<seq<Byte>>)
    requires j < |lens| && lens[j] != n
    ensures Fits(mems, lens, n) && Moved(mems, n) != Asked(mems, lens)
  {
    var size := Largest(lens, n);
    mems := Marked(|lens|, j, size);
    MarksMoved(|lens|, j, size, lens, n);
  }
}
