/** BlockDriver/blk1.c as it updates its device in place. */
module RamDiskDriver {
  import opened Bytes
  import opened RamDisk
  import H = RamDiskHistory

  /** The buffers of a request's segments, as they are now. */
  ghost function Memory(segs: seq<array<Byte>>): (m: seq<seq<Byte>>)
    reads segs
    ensures |m| == |segs| && forall i :: 0 <= i < |segs| ==> m[i] == segs[i][..]
    decreases |segs|
  {
    if segs == [] then [] else Memory(segs[..|segs| - 1]) + [segs[|segs| - 1][..]]
  }

  /** Segments that do not overlap each other or the disk, each with room for `n` bytes. */
  ghost predicate Apart(segs: seq<array<Byte>>, n: nat, data: array<Byte>) {
    && (forall i :: 0 <= i < |segs| ==> n <= segs[i].Length && segs[i] != data)
    && (forall i, j :: 0 <= i < j < |segs| ==> segs[i] != segs[j])
  }

  class Disk {
    const data: array<Byte>
    var users: nat
    var mediaChange: bool
    var timerPending: bool

    ghost function State(): H.State
      reads this, data
    {
      H.State(data[..], users, mediaChange, timerPending)
    }

    ghost predicate Ok()
      reads this
    {
      data.Length <= INT_MAX && (users > 0 ==> !mediaChange && !timerPending)
    }

    /** setup_device, lines 265-282. */
    constructor (nsectors: nat, hardsect: nat)
      requires nsectors * hardsect <= INT_MAX
      ensures Ok() && fresh(data) && data.Length == nsectors * hardsect
      ensures users == 0 && !mediaChange && !timerPending
    {
      data := new Byte[nsectors * hardsect];
      users, mediaChange, timerPending := 0, false, false;
    }

    /** blk1_revalidate, lines 185-194. */
    method Revalidate()
      modifies this`mediaChange, data
      ensures !mediaChange
      ensures data[..] == if old(mediaChange) then H.Zeros(data.Length) else old(data[..])
    {
      if mediaChange {
        mediaChange := false;
        forall i | 0 <= i < data.Length {
          data[i] := 0;
        }
      }
    }

    method Open()
      requires Ok()
      modifies this, data
      ensures Ok() && State() == H.Opened(old(State()))
      ensures users == old(users) + 1 && !timerPending && !mediaChange
      ensures data[..] == if old(users == 0 && mediaChange) then H.Zeros(data.Length) else old(data[..])
    {
      timerPending := false;
      if users == 0 {
        Revalidate();
      }
      users := users + 1;
    }

    /** A release of the last user arms the timer, which is not pending then. */
    method Release()
      requires Ok() && users > 0
      modifies this`users, this`timerPending
      ensures Ok() && State() == H.Released(old(State())) && !old(timerPending)
      ensures users == old(users) - 1 && (timerPending <==> users == 0)
    {
      users := users - 1;
      if users == 0 {
        timerPending := true;
      }
    }

    /** blk1_invalidate; `sane` says that the sanity check passed. */
    method Invalidate() returns (sane: bool)
      requires Ok() && timerPending
      modifies this`mediaChange, this`timerPending
      ensures Ok() && sane && State() == H.Expired(old(State()))
      ensures mediaChange && !timerPending && users == 0
    {
      timerPending := false;
      sane := users == 0;
      if sane {
        mediaChange := true;
      }
    }

    /** blk1_transfer, lines 84-98; the effect of a wild copy is not modelled. */
    method Transfer(sector: nat, nsect: nat, buffer: array<Byte>, write: bool) returns (fate: Fate)
      requires Ok() && buffer != data && Wrap(nsect * SECTOR) <= buffer.Length
      modifies if write then {data} else {buffer}
      ensures fate == FateOf(data.Length, sector, nsect)
      ensures fate != Done ==> data[..] == old(data[..]) && buffer[..] == old(buffer[..])
      ensures write && fate == Done ==>
                var at, n := (sector * 512) % U64, (nsect * 512) % U64;
                && at + n <= data.Length
                && data[..] == old(data[..at]) + buffer[..n] + old(data[at + n..])
                && data[..] == Written(old(data[..]), at, buffer[..n])
      ensures !write && fate == Done ==>
                var at, n := (sector * 512) % U64, (nsect * 512) % U64;
                && at + n <= data.Length
                && buffer[..] == data[at..at + n] + old(buffer[n..])
                && buffer[..] == Filled(data[..], at, n, old(buffer[..]))
    {
      var offset := Wrap(sector * SECTOR);
      var nbytes := Wrap(nsect * SECTOR);
      if Wrap(offset + nbytes) > data.Length {
        return Dropped;
      }
      if offset + nbytes > data.Length {
        return Wild;
      }
      if write {
        Copy(buffer, 0, data, offset, nbytes);
      } else {
        Copy(data, offset, buffer, 0, nbytes);
      }
      fate := Done;
    }

    /** blk1_request, lines 103-135; `current` is blk_rq_cur_sectors and `served` is false for -EIO. */
    method Request(pos: nat, segs: seq<array<Byte>>, current: nat, write: bool, passthrough: bool)
      returns (served: bool)
      requires Ok() && Apart(segs, current * SECTOR, data) && (pos + |segs| * current) * SECTOR < U64
      modifies if write then {data} else set i | 0 <= i < |segs| :: segs[i]
      ensures served == !passthrough
      ensures passthrough || !write ==> data[..] == old(data[..])
      ensures passthrough || write ==> Memory(segs) == old(Memory(segs))
      ensures !passthrough && write ==>
                data[..] == WrittenAll(old(data[..]), pos * SECTOR, current * SECTOR, old(Memory(segs)))
      ensures !passthrough && !write ==>
                Memory(segs) == ReadAll(data[..], pos * SECTOR, current * SECTOR, old(Memory(segs)))
    {
      if passthrough {
        return false;
      }
      if write {
        WriteSegments(pos, segs, current);
      } else {
        ReadSegments(pos, segs, current);
      }
      served := true;
    }

    /** One turn of the loop of lines 120-130, `k` segments into the request. */
    method Segment(pos: nat, k: nat, count: nat, current: nat, sector: nat, buffer: array<Byte>, write: bool)
      returns (next: nat)
      requires Ok() && k < count && (pos + count * current) * SECTOR < U64 && sector == pos + k * current
      requires buffer != data && current * SECTOR <= buffer.Length
      modifies if write then {data} else {buffer}
      ensures next == pos + (k + 1) * current
      ensures write ==>
                data[..] == Written(old(data[..]), pos * SECTOR + k * (current * SECTOR), buffer[..current * SECTOR])
      ensures !write ==>
                buffer[..]
                == Filled(data[..], pos * SECTOR + k * (current * SECTOR), current * SECTOR, old(buffer[..]))
    {
      InRange(pos, k, count, current);
      FateInRange(data.Length, sector, current);
      var fate := Transfer(sector, current, buffer, write);
      next := sector + current;
    }

    /** The loop of lines 120-130 for a write. */
    method WriteSegments(pos: nat, segs: seq<array<Byte>>, current: nat)
      requires Ok() && Apart(segs, current * SECTOR, data) && (pos + |segs| * current) * SECTOR < U64
      modifies data
      ensures data[..] == WrittenAll(old(data[..]), pos * SECTOR, current * SECTOR, Memory(segs))
    {
      var sector := pos;
      ghost var before, mems := data[..], Memory(segs);
      assert mems[..0] == [];
      for k := 0 to |segs|
        invariant sector == pos + k * current
        invariant forall i :: 0 <= i < |segs| ==> segs[i][..] == mems[i]
        invariant data[..] == WrittenAll(before, pos * SECTOR, current * SECTOR, mems[..k])
      {
        WrittenNext(before, pos * SECTOR, current * SECTOR, mems, k);
        sector := Segment(pos, k, |segs|, current, sector, segs[k], true);
      }
      assert mems[..|segs|] == mems;
      assert Memory(segs) == mems;
    }

    /** The same loop for a read. */
    method ReadSegments(pos: nat, segs: seq<array<Byte>>, current: nat)
      requires Ok() && Apart(segs, current * SECTOR, data) && (pos + |segs| * current) * SECTOR < U64
      modifies set i | 0 <= i < |segs| :: segs[i]
      ensures data[..] == old(data[..])
      ensures Memory(segs) == ReadAll(data[..], pos * SECTOR, current * SECTOR, old(Memory(segs)))
    {
      var sector := pos;
      ghost var before, mems := data[..], Memory(segs);
      for k := 0 to |segs|
        invariant sector == pos + k * current && data[..] == before
        invariant forall i :: 0 <= i < |segs| ==>
                    segs[i][..] == SegmentAfter(before, pos * SECTOR, current * SECTOR, mems[i], i, k)
      {
        sector := ReadSegment(pos, segs, k, current, sector);
      }
      assert Memory(segs) == ReadAll(before, pos * SECTOR, current * SECTOR, mems);
    }

    method ReadSegment(pos: nat, segs: seq<array<Byte>>, k: nat, current: nat, sector: nat) returns (next: nat)
      requires Ok() && Apart(segs, current * SECTOR, data) && (pos + |segs| * current) * SECTOR < U64
      requires k < |segs| && sector == pos + k * current
      modifies segs[k]
      ensures next == pos + (k + 1) * current && data[..] == old(data[..])
      ensures segs[k][..]
              == Filled(data[..], pos * SECTOR + k * (current * SECTOR), current * SECTOR, old(segs[k][..]))
      ensures forall i :: 0 <= i < |segs| && i != k ==> segs[i][..] == old(segs[i][..])
    {
      next := Segment(pos, k, |segs|, current, sector, segs[k], false);
    }
  }

  /** The i-th segment when the loop has read `k` of them. */
  ghost function SegmentAfter(data: seq<Byte>, at: nat, n: nat, mem: seq<Byte>, i: nat, k: nat): seq<Byte>
    requires n <= |mem|
  {
    if i < k then Filled(data, at + i * n, n, mem) else mem
  }

  lemma InRange(pos: nat, k: nat, count: nat, current: nat)
    requires k < count && (pos + count * current) * SECTOR < U64
    ensures (pos + k * current + current) * SECTOR < U64
    ensures (pos + k * current) * SECTOR == pos * SECTOR + k * (current * SECTOR)
    ensures (k + 1) * current == k * current + current
  {
    Segments(k + 1, count, current);
    Segments(k, k + 1, current);
    Associate(k, current, SECTOR);
  }

  lemma Segments(k: nat, count: nat, current: nat)
    requires k <= count
    ensures k * current <= count * current
    ensures count == k + 1 ==> count * current == k * current + current
  {
    Distribute(current, k, count - k);
  }

  /** memcpy between arrays that do not overlap. */
  method Copy(src: array<Byte>, from: nat, dst: array<Byte>, to: nat, n: nat)
    requires src != dst && from + n <= src.Length && to + n <= dst.Length
    modifies dst
    ensures dst[..] == Splice(old(dst[..]), to, src[from..from + n])
  {
    forall i | 0 <= i < n {
      dst[to + i] := src[from + i];
    }
  }
}
