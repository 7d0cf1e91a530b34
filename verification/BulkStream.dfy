/** The synchronous bulk driver of USB/usbdrv4.c: a left-over buffer and a chunked write. */
module BulkStream {
  import opened Bytes
  import opened Errno

  /** What usb_bulk_msg on the IN endpoint answers; a timed-out message delivers nothing. */
  datatype InReply = Data(bytes: seq<Byte>) | TimedOut | InFails(code: int)

  /** What happens to one chunk of a write: the user copy faults, the message fails, or `n` bytes go out. */
  datatype OutReply = CopyFaults | OutFails(code: int) | Accepts(n: nat)

  datatype ReadResult = Got(bytes: seq<Byte>) | ReadFails(code: int)

  /** A write whose replies run out is unfinished: it is still in its loop. */
  datatype WriteResult = Wrote(n: nat) | WriteFails(code: int) | Unfinished

  // ------------------------------------------------- the stream of reads

  /** The bytes a read finds: the left-overs, or else a fresh message. */
  function Found(left: seq<Byte>, reply: InReply): seq<Byte> {
    if left != [] then left else if reply.Data? then reply.bytes else []
  }

  /** Left-overs and result of a read of `cnt` bytes. */
  function ReadFrom(left: seq<Byte>, cnt: nat, reply: InReply, copies: bool): (seq<Byte>, ReadResult) {
    if left == [] && reply.InFails? then ([], ReadFails(reply.code))
    else
      var found := Found(left, reply);
      if !copies then (found, ReadFails(EFAULT))
      else var n := Min(|found|, cnt); (found[n..], Got(found[..n]))
  }

  datatype ReadCall = ReadCall(cnt: nat, reply: InReply, copies: bool)

  /** A session since open: what is left over, what users got, what the device sent. */
  datatype Session = Session(left: seq<Byte>, returned: seq<Byte>, received: seq<Byte>)

  function Served(s: Session, c: ReadCall): Session {
    var (left, r) := ReadFrom(s.left, c.cnt, c.reply, c.copies);
    Session(left,
            s.returned + (if r.Got? then r.bytes else []),
            s.received + (if s.left == [] && c.reply.Data? then c.reply.bytes else []))
  }

  function Serve(calls: seq<ReadCall>): Session
    decreases |calls|
  {
    if calls == [] then Session([], [], []) else Served(Serve(calls[..|calls| - 1]), calls[|calls| - 1])
  }

  /** One read splits what it found into what it returns and what it leaves. */
  lemma ReadSplits(left: seq<Byte>, cnt: nat, reply: InReply, copies: bool)
    ensures
      var (left', r) := ReadFrom(left, cnt, reply, copies);
      (if r.Got? then r.bytes else []) + left' == Found(left, reply)
  {
  }

  lemma Regroup(a: seq<Byte>, b: seq<Byte>, c: seq<Byte>)
    ensures (a + b) + c == a + (b + c)
  {
  }

  lemma ServedKeeps(s: Session, c: ReadCall)
    requires s.returned + s.left == s.received
    ensures Served(s, c).returned + Served(s, c).left == Served(s, c).received
  {
    var (left, r) := ReadFrom(s.left, c.cnt, c.reply, c.copies);
    ReadSplits(s.left, c.cnt, c.reply, c.copies);
    Regroup(s.returned, if r.Got? then r.bytes else [], left);
  }

  /**
   For every sequence of read sizes, replies and user-copy faults, the bytes users got followed
   by the left-overs are the bytes the device sent: nothing is lost, repeated or reordered.
   */
  lemma {:induction false} ReadsAreAStream(calls: seq<ReadCall>)
    ensures Serve(calls).returned + Serve(calls).left == Serve(calls).received
    decreases |calls|
  {
    if calls != [] {
      ReadsAreAStream(calls[..|calls| - 1]);
      ServedKeeps(Serve(calls[..|calls| - 1]), calls[|calls| - 1]);
    }
  }

  // -------------------------------------------------------- packets out

  function Flatten(packets: seq<seq<Byte>>): seq<Byte>
    decreases |packets|
  {
    if packets == [] then [] else Flatten(packets[..|packets| - 1]) + packets[|packets| - 1]
  }

  lemma FlattenAppend(packets: seq<seq<Byte>>, p: seq<Byte>)
    ensures Flatten(packets + [p]) == Flatten(packets) + p
  {
    assert (packets + [p])[..|packets|] == packets;
  }

  /** Every message that goes out carries at least one byte. */
  predicate Progresses(replies: seq<OutReply>) {
    forall i :: 0 <= i < |replies| && replies[i].Accepts? ==> replies[i].n >= 1
  }

  /** The messages of a write of `size` bytes: each was accepted, and is as long as its reply and the buffer allow. */
  predicate Carried(size: nat, capacity: nat, replies: seq<OutReply>, packets: seq<seq<Byte>>)
    decreases |packets|
  {
    packets == [] ||
    (var k := |packets| - 1;
     && Carried(size, capacity, replies, packets[..k])
     && k < |replies| && replies[k].Accepts?
     && |packets[k]| == Min(replies[k].n, Min(capacity, size - |Flatten(packets[..k])|)))
  }

  /** The size of each message, and that none is smaller than it has to be. */
  lemma {:induction false} MessageSizes(
      size: nat, capacity: nat, replies: seq<OutReply>, packets: seq<seq<Byte>>, i: nat)
    requires Carried(size, capacity, replies, packets) && i < |packets|
    ensures i < |replies| && replies[i].Accepts?
    ensures |packets[i]| == Min(replies[i].n, Min(capacity, size - |Flatten(packets[..i])|))
    decreases |packets|
  {
    var k := |packets| - 1;
    if i < k {
      MessageSizes(size, capacity, replies, packets[..k], i);
      assert packets[..k][..i] == packets[..i];
    }
  }

  /** A device that takes whole messages gets full ones, all but the last. */
  lemma {:induction false} WholeMessages(size: nat, capacity: nat, replies: seq<OutReply>, packets: seq<seq<Byte>>)
    requires Carried(size, capacity, replies, packets) && |packets| * capacity <= size
    requires forall i :: 0 <= i < |replies| && replies[i].Accepts? ==> replies[i].n >= capacity
    ensures |Flatten(packets)| == |packets| * capacity
    decreases |packets|
  {
    if packets != [] {
      var k := |packets| - 1;
      assert |packets| * capacity == k * capacity + capacity;
      WholeMessages(size, capacity, replies, packets[..k]);
    }
  }

  lemma CarriedNext(size: nat, capacity: nat, replies: seq<OutReply>, packets: seq<seq<Byte>>, p: seq<Byte>)
    requires Carried(size, capacity, replies, packets) && |packets| < |replies| && replies[|packets|].Accepts?
    requires |p| == Min(replies[|packets|].n, Min(capacity, size - |Flatten(packets)|))
    ensures Carried(size, capacity, replies, packets + [p])
  {
    assert (packets + [p])[..|packets|] == packets;
  }

  /** The messages so far carry the first `wrote` bytes of the user's. */
  predicate Sent(user: seq<Byte>, wrote: nat, capacity: nat, replies: seq<OutReply>, packets: seq<seq<Byte>>) {
    && wrote <= |user| && Flatten(packets) == user[..wrote]
    && |packets| <= |replies| && Carried(|user|, capacity, replies, packets)
    && (Progresses(replies) ==> |packets| <= wrote)
  }

  lemma SentNext(
      user: seq<Byte>, wrote: nat, capacity: nat, replies: seq<OutReply>, packets: seq<seq<Byte>>, p: seq<Byte>)
    requires Sent(user, wrote, capacity, replies, packets) && capacity >= 1
    requires wrote < |user| && |packets| < |replies| && replies[|packets|].Accepts?
    requires |p| == Min(replies[|packets|].n, Min(capacity, |user| - wrote)) && p == user[wrote..wrote + |p|]
    ensures Sent(user, wrote + |p|, capacity, replies, packets + [p])
  {
    FlattenAppend(packets, p);
    CarriedNext(|user|, capacity, replies, packets, p);
    assert user[..wrote] + user[wrote..wrote + |p|] == user[..wrote + |p|];
  }

  // ---------------------------------------------------------- the driver

  class Device {
    const inBuf: array<Byte>
    const outBuf: array<Byte>
    var leftOver: nat
    var locked: bool

    ghost predicate Ok()
      reads this
    {
      leftOver <= inBuf.Length && outBuf.Length >= 1 && inBuf != outBuf
    }

    ghost function Left(): seq<Byte>
      reads this, inBuf
      requires Ok()
    {
      inBuf[..leftOver]
    }

    constructor (inSize: nat, outSize: nat)
      requires outSize >= 1
      ensures Ok() && fresh(inBuf) && fresh(outBuf) && Left() == [] && !locked
      ensures inBuf.Length == inSize && outBuf.Length == outSize
    {
      inBuf := new Byte[inSize](_ => 0);
      outBuf := new Byte[outSize](_ => 0);
      leftOver, locked := 0, false;
    }

    /** test_usb1_open once the device is found, lines 48-55: one user at a time, a clean buffer. */
    method Open() returns (r: int)
      requires Ok()
      modifies this
      ensures Ok() && locked
      ensures r == (if old(locked) then EBUSY else 0)
      ensures if old(locked) then Left() == old(Left()) else Left() == []
    {
      if locked {
        return EBUSY;
      }
      locked, leftOver := true, 0;
      r := 0;
    }

    /** test_usb1_close, lines 57-63. */
    method Close()
      requires Ok()
      modifies this`locked
      ensures Ok() && !locked && Left() == old(Left())
    {
      locked := false;
    }

    /** usb_bulk_msg puts the message at the start of the buffer. */
    method Receive(bytes: seq<Byte>)
      requires |bytes| <= inBuf.Length
      modifies inBuf
      ensures inBuf[..|bytes|] == bytes
    {
      forall i | 0 <= i < |bytes| {
        inBuf[i] := bytes[i];
      }
    }

    /** The loop of lines 143-146: the unread bytes move to the front, over themselves. */
    method Shift(cnt: nat, size: nat)
      requires size <= inBuf.Length
      modifies inBuf
      ensures cnt <= size ==> inBuf[..size - cnt] == old(inBuf[cnt..size])
      ensures cnt >= size ==> inBuf[..] == old(inBuf[..])
    {
      var i := cnt;
      while i < size
        invariant cnt <= i && (cnt <= size ==> i <= size) && (cnt >= size ==> i == cnt)
        invariant forall j :: 0 <= j < i - cnt && j < inBuf.Length ==>
                    j + cnt < inBuf.Length && inBuf[j] == old(inBuf[j + cnt])
        invariant forall j :: i - cnt <= j < inBuf.Length ==> inBuf[j] == old(inBuf[j])
      {
        inBuf[i - cnt] := inBuf[i];
        i := i + 1;
      }
      if cnt >= size {
        assert forall j :: 0 <= j < inBuf.Length ==> inBuf[j] == old(inBuf[j]);
      }
    }

    /** test_usb1_read, lines 93-158. */
    method Read(cnt: nat, reply: InReply, copies: bool) returns (r: ReadResult)
      requires Ok() && (reply.Data? ==> |reply.bytes| <= inBuf.Length)
      modifies this`leftOver, inBuf
      ensures Ok() && (Left(), r) == ReadFrom(old(Left()), cnt, reply, copies)
      ensures old(Left()) == [] && reply.InFails? ==> r == ReadFails(reply.code) && Left() == []
      ensures
        var found := if old(Left()) != [] then old(Left()) else if reply.Data? then reply.bytes else [];
        old(Left()) != [] || !reply.InFails? ==>
          if copies then r == Got(found[..Min(|found|, cnt)]) && Left() == found[Min(|found|, cnt)..]
          else r == ReadFails(EFAULT) && Left() == found
    {
      var size: nat;
      ghost var found := Found(Left(), reply);
      if leftOver != 0 {
        size, leftOver := leftOver, 0;
      } else {
        match reply
        case Data(bytes) =>
          Receive(bytes);
          size := |bytes|;
        case TimedOut => size := 0;
        case InFails(code) => return ReadFails(code);
      }
      assert inBuf[..size] == found;
      var n := if size <= cnt then size else cnt;
      if !copies {
        leftOver := size;
        return ReadFails(EFAULT);
      }
      r := Got(inBuf[..n]);
      assert inBuf[..n] == found[..n] && inBuf[n..size] == found[n..];
      Shift(cnt, size);
      leftOver := if cnt < size then size - cnt else 0;
      assert Left() == found[n..];
    }

    /** copy_from_user into the start of the output buffer. */
    method Fetch(bytes: seq<Byte>)
      requires |bytes| <= outBuf.Length
      modifies outBuf
      ensures outBuf[..|bytes|] == bytes
    {
      forall i | 0 <= i < |bytes| {
        outBuf[i] := bytes[i];
      }
    }

    /**
     test_usb1_write, lines 64-92, given what becomes of its messages.  `packets` are those the
     device accepted: together a prefix of the user's buffer, and all of it exactly when the write
     succeeds.  It fails as the first message not accepted does, and with enough replies it ends
     if each message makes progress.
     */
    method Write(user: seq<Byte>, replies: seq<OutReply>) returns (r: WriteResult, packets: seq<seq<Byte>>)
      requires Ok()
      modifies outBuf
      ensures Flatten(packets) <= user && Carried(|user|, outBuf.Length, replies, packets)
      ensures r.Wrote? <==> Flatten(packets) == user
      ensures r.Wrote? ==> r.n == |user|
      ensures r.WriteFails? ==>
                |packets| < |replies| && match replies[|packets|]
                                         case CopyFaults => r.code == EFAULT
                                         case OutFails(code) => r.code == code
                                         case Accepts(_) => false
      ensures r.Unfinished? ==> |packets| == |replies|
      ensures Progresses(replies) && |replies| >= |user| ==> !r.Unfinished?
    {
      var wrote;
      wrote, packets := SendAll(user, replies);
      if wrote == |user| {
        assert user[..wrote] == user;
        return Wrote(wrote), packets;
      }
      if |packets| == |replies| {
        return Unfinished, packets;
      }
      r := WriteFails(if replies[|packets|].CopyFaults? then EFAULT else replies[|packets|].code);
    }

    /** The loop of lines 71-89, up to the first message that is not accepted. */
    method SendAll(user: seq<Byte>, replies: seq<OutReply>) returns (wrote: nat, packets: seq<seq<Byte>>)
      requires Ok()
      modifies outBuf
      ensures Sent(user, wrote, outBuf.Length, replies, packets)
      ensures wrote < |user| && |packets| < |replies| ==> !replies[|packets|].Accepts?
    {
      wrote, packets := 0, [];
      while wrote < |user| && |packets| < |replies| && replies[|packets|].Accepts?
        invariant Sent(user, wrote, outBuf.Length, replies, packets)
        decreases |replies| - |packets|
      {
        var p := Send(user, wrote, replies[|packets|].n);
        SentNext(user, wrote, outBuf.Length, replies, packets, p);
        wrote, packets := wrote + |p|, packets + [p];
      }
    }

    /** One message, of which the device accepts `n` bytes at most. */
    method Send(user: seq<Byte>, wrote: nat, n: nat) returns (p: seq<Byte>)
      requires Ok() && wrote < |user|
      modifies outBuf
      ensures |p| == Min(n, Min(outBuf.Length, |user| - wrote)) && p == user[wrote..wrote + |p|]
    {
      var size := Min(outBuf.Length, |user| - wrote);
      Fetch(user[wrote..wrote + size]);
      p := outBuf[..size][..Min(n, size)];
    }
  }

  // ------------------------------------------------------------ loop-back

  /** A device that sends back what it was sent: the next packet, `want` bytes if it can. */
  function NextPacket(queue: seq<Byte>, want: nat, capacity: nat): (r: InReply)
    requires capacity >= 1
    ensures r.Data? <==> queue != []
    ensures r.Data? ==> r.bytes <= queue && 1 <= |r.bytes| <= capacity
  {
    if queue == [] then TimedOut else Data(queue[..Min(Max(1, want), Min(|queue|, capacity))])
  }

  /**
   Reads of any sizes from a device that has `sent` to send back, in packets of any sizes: what was
   read, what is left over and what is still in the device are what was there, in order.
   */
  method ReadBack(d: Device, sent: seq<Byte>, sizes: seq<nat>, wants: nat -> nat)
    returns (got: seq<Byte>, queue: seq<Byte>)
    requires d.Ok() && d.inBuf.Length >= 1
    modifies d`leftOver, d.inBuf
    ensures d.Ok() && got + (d.Left() + queue) == old(d.Left()) + sent
    ensures (forall i :: 0 <= i < |sizes| ==> sizes[i] >= 1) ==> |got| >= Min(|sizes|, |old(d.Left()) + sent|)
  {
    ghost var all, lively := d.Left() + sent, forall i :: 0 <= i < |sizes| ==> sizes[i] >= 1;
    got, queue := [], sent;
    for k := 0 to |sizes|
      invariant d.Ok() && Echoed(all, if lively then k else 0, got, d.Left(), queue)
    {
      ghost var left := d.Left();
      EchoNext(all, if lively then k else 0, got, left, queue, sizes[k], wants(k), d.inBuf.Length);
      var bytes, rest := ReadEcho(d, queue, sizes[k], wants(k));
      got, queue := got + bytes, rest;
    }
  }

  /** One read from the echoing device. */
  method ReadEcho(d: Device, queue: seq<Byte>, cnt: nat, want: nat) returns (bytes: seq<Byte>, rest: seq<Byte>)
    requires d.Ok() && d.inBuf.Length >= 1
    modifies d`leftOver, d.inBuf
    ensures d.Ok()
    ensures (d.Left(), Got(bytes)) == ReadFrom(old(d.Left()), cnt, NextPacket(queue, want, d.inBuf.Length), true)
    ensures rest == AfterRead(old(d.Left()), queue, want, d.inBuf.Length)
  {
    var msg := NextPacket(queue, want, d.inBuf.Length);
    rest := if d.leftOver == 0 && msg.Data? then queue[|msg.bytes|..] else queue;
    var r := d.Read(cnt, msg, true);
    bytes := r.bytes;
  }

  /**
   A write that succeeds, to a device that sends everything back, followed by reads of any sizes:
   what was read, what is left over and what is still in the device are the bytes written, in
   order; and as many non-empty reads as bytes return them all.  Without the file nothing is
   written.
   */
  method LoopBack(d: Device, user: seq<Byte>, replies: seq<OutReply>, sizes: seq<nat>, wants: nat -> nat)
    returns (r: WriteResult, got: seq<Byte>, queue: seq<Byte>)
    requires d.Ok() && d.inBuf.Length >= 1
    modifies d, d.inBuf, d.outBuf
    ensures d.Ok() && (old(d.locked) ==> r == WriteFails(EBUSY) && got == queue == [])
    ensures !old(d.locked) && r.Wrote? ==> got + (d.Left() + queue) == user
    ensures !old(d.locked) && r.Wrote? && (forall i :: 0 <= i < |sizes| ==> sizes[i] >= 1) && |sizes| >= |user| ==>
              got == user
  {
    got, queue := [], [];
    var status := d.Open();
    if status != 0 {
      return WriteFails(status), got, queue;
    }
    var packets;
    r, packets := d.Write(user, replies);
    if r.Wrote? {
      got, queue := ReadBack(d, Flatten(packets), sizes, wants);
    }
  }

  /** What the echoing device has left to send. */
  function AfterRead(left: seq<Byte>, queue: seq<Byte>, want: nat, capacity: nat): seq<Byte>
    requires capacity >= 1
  {
    var msg := NextPacket(queue, want, capacity);
    if left == [] && msg.Data? then queue[|msg.bytes|..] else queue
  }

  /** One read from the echoing device moves bytes along, and moves some if it may. */
  lemma EchoStep(got: seq<Byte>, left: seq<Byte>, queue: seq<Byte>, cnt: nat, want: nat, capacity: nat)
    requires capacity >= 1
    ensures
      var (left', r) := ReadFrom(left, cnt, NextPacket(queue, want, capacity), true);
      && r.Got?
      && got + (left + queue) == (got + r.bytes) + (left' + AfterRead(left, queue, want, capacity))
      && (cnt >= 1 && left + queue != [] ==> r.bytes != [])
  {
    var msg, rest := NextPacket(queue, want, capacity), AfterRead(left, queue, want, capacity);
    var (left', r) := ReadFrom(left, cnt, msg, true);
    ReadSplits(left, cnt, msg, true);
    assert left + queue == Found(left, msg) + rest;
    Regroup(r.bytes, left', rest);
    Regroup(got, r.bytes, left' + rest);
  }

  /** All bytes are accounted for, and at least `n` of them, or all there are, have been read. */
  predicate Echoed(all: seq<Byte>, n: nat, got: seq<Byte>, left: seq<Byte>, queue: seq<Byte>) {
    got + (left + queue) == all && |got| >= Min(n, |all|)
  }

  lemma EchoedMore(
      all: seq<Byte>, n: nat, got: seq<Byte>, there: seq<Byte>, bytes: seq<Byte>, left: seq<Byte>, queue: seq<Byte>,
      moved: bool)
    requires got + there == all && |got| >= Min(n, |all|)
    requires all == (got + bytes) + (left + queue) && (moved && there != [] ==> bytes != [])
    ensures Echoed(all, if moved then n + 1 else n, got + bytes, left, queue)
  {
    assert |all| == |got| + |there|;
  }

  lemma EchoNext(
      all: seq<Byte>, n: nat, got: seq<Byte>, left: seq<Byte>, queue: seq<Byte>, cnt: nat, want: nat, capacity: nat)
    requires capacity >= 1 && Echoed(all, n, got, left, queue)
    ensures
      var (left', r) := ReadFrom(left, cnt, NextPacket(queue, want, capacity), true);
      var rest := AfterRead(left, queue, want, capacity);
      && r.Got?
      && Echoed(all, if cnt >= 1 then n + 1 else n, got + r.bytes, left', rest)
      && Echoed(all, n, got + r.bytes, left', rest)
  {
    var (left', r) := ReadFrom(left, cnt, NextPacket(queue, want, capacity), true);
    var rest := AfterRead(left, queue, want, capacity);
    EchoStep(got, left, queue, cnt, want, capacity);
    EchoedMore(all, n, got, left + queue, r.bytes, left', rest, cnt >= 1);
    EchoedMore(all, n, got, left + queue, r.bytes, left', rest, false);
  }
}
