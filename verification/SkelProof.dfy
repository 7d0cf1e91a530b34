/** One step of a call keeps the device and every call of USB/usbdrv3.c in order. */
module SkelProof {
  import opened Bytes
  import opened SkelLog
  import opened SkelModel
  import opened SkelInvariant

  /** What a call knows about the device beyond its own CallOk when it owns io_mutex or may take it. */
  predicate Linked(d: Dev, c: Call) {
    HasMutex(c) || d.mutex.Free? ==>
      && (d.ongoing && d.readUrb.Idle? ==> IoBusy(c))
      && (d.copied > d.filled ==> IoTorn(c))
  }

  predicate Ready(d: Dev, id: nat, c: Call, answer: Answer) {
    DevOk(d) && CallOk(d, id, c) && Linked(d, c) && Legal(answer)
  }

  predicate Kept(id: nat, m: Move) {
    m.Moved? ==> DevOk(m.dev) && CallOk(m.dev, id, m.call) && Linked(m.dev, m.call)
  }

  /** Two calls side by side: each in order, and not holding one URB between them. */
  predicate Beside(d: Dev, id: nat, c: Call, id2: nat, c2: Call) {
    && id != id2 && DevOk(d) && CallOk(d, id, c) && CallOk(d, id2, c2)
    && (HasUrb(c) && HasUrb(c2) ==> c.wpc.urb != c2.wpc.urb)
  }

  predicate KeptBeside(m: Move, id2: nat, c2: Call) {
    m.Moved? ==> CallOk(m.dev, id2, c2)
  }

  // ----------------------------------------------------- the acting call

  lemma ReadKept(d: Dev, id: nat, c: Call, answer: Answer)
    requires c.Read? && Ready(d, id, c, answer)
    ensures Kept(id, ReadStep(d, id, c, answer))
  {
    match c.rpc
    case RBuffer => BufferKept(d, id, c, answer);
    case RIo(_, _, _) => IoKept(d, id, c, answer);
    case _ =>
      if ReadEntry(c.rpc) {
        ReadEntryKept(d, id, c, answer);
      } else {
        ReadRestKept(d, id, c, answer);
      }
  }

  lemma IoKept(d: Dev, id: nat, c: Call, answer: Answer)
    requires IsIo(c) && Ready(d, id, c, answer)
    ensures Kept(id, IoStep(d, id, c, answer))
  {
    if c.rpc.io.IoSubmit? || c.rpc.io.IoFail? {
      SubmitKept(d, id, c, answer);
    } else {
      PrepareKept(d, id, c, answer);
    }
  }

  lemma SubmitKept(d: Dev, id: nat, c: Call, answer: Answer)
    requires IsIo(c) && (c.rpc.io.IoSubmit? || c.rpc.io.IoFail?) && Ready(d, id, c, answer)
    ensures Kept(id, IoStep(d, id, c, answer))
  {
  }

  lemma PrepareKept(d: Dev, id: nat, c: Call, answer: Answer)
    requires IsIo(c) && !c.rpc.io.IoSubmit? && !c.rpc.io.IoFail? && Ready(d, id, c, answer)
    ensures Kept(id, IoStep(d, id, c, answer))
  {
  }

  lemma BufferKept(d: Dev, id: nat, c: Call, answer: Answer)
    requires c.Read? && c.rpc.RBuffer? && Ready(d, id, c, answer)
    ensures Kept(id, BufferStep(d, c, answer))
  {
  }

  predicate ReadEntry(pc: ReadPc) {
    pc.RLock? || pc.RCheck? || pc.RRetry?
  }

  lemma ReadEntryKept(d: Dev, id: nat, c: Call, answer: Answer)
    requires c.Read? && ReadEntry(c.rpc) && Ready(d, id, c, answer)
    ensures Kept(id, ReadStep(d, id, c, answer))
  {
  }

  lemma ReadRestKept(d: Dev, id: nat, c: Call, answer: Answer)
    requires c.Read? && !ReadEntry(c.rpc) && !c.rpc.RBuffer? && !c.rpc.RIo? && Ready(d, id, c, answer)
    ensures Kept(id, ReadStep(d, id, c, answer))
  {
  }

  predicate WriteEntry(pc: WritePc) {
    pc.WDown? || pc.WErrors?
  }

  predicate WriteEarly(pc: WritePc) {
    pc.WAlloc? || pc.WBuffer?
  }

  predicate WriteLocked(pc: WritePc) {
    pc.WLock? || pc.WCheck? || pc.WAnchor? || pc.WSubmit?
  }

  predicate WriteUnlocking(pc: WritePc) {
    pc.WUnlock? || pc.WUnlockFailed?
  }

  predicate WriteLate(pc: WritePc) {
    pc.WUnanchor? || pc.WUp? || pc.WDone?
  }

  lemma WriteKept(d: Dev, id: nat, c: Call, answer: Answer)
    requires c.Write? && Ready(d, id, c, answer)
    ensures Kept(id, WriteStep(d, id, c, answer))
  {
    if c.wpc.WDown? {
      WriteDownKept(d, id, c, answer);
    } else if c.wpc.WErrors? {
      WriteErrorsKept(d, id, c, answer);
    } else if WriteEarly(c.wpc) {
      WriteEarlyKept(d, id, c, answer);
    } else if WriteLocked(c.wpc) {
      WriteLockedKept(d, id, c, answer);
    } else if WriteUnlocking(c.wpc) {
      WriteUnlockingKept(d, id, c, answer);
    } else {
      WriteLateKept(d, id, c, answer);
    }
  }

  lemma WriteDownKept(d: Dev, id: nat, c: Call, answer: Answer)
    requires c.Write? && c.wpc.WDown? && Ready(d, id, c, answer)
    ensures Kept(id, WriteStep(d, id, c, answer))
  {
    if d.permits > 0 && (c.nonblock || answer.Go?) {
      PermitTakenKept(d, id, c);
    }
  }

  lemma PermitTakenKept(d: Dev, id: nat, c: Call)
    requires c.Write? && c.wpc.WDown? && Ready(d, id, c, Go) && d.permits > 0
    ensures Kept(id, Moved(d.(permits := d.permits - 1), c.(wpc := WErrors)))
  {
  }

  lemma WriteErrorsKept(d: Dev, id: nat, c: Call, answer: Answer)
    requires c.Write? && c.wpc.WErrors? && Ready(d, id, c, answer)
    ensures Kept(id, WriteStep(d, id, c, answer))
  {
  }

  lemma WriteEarlyKept(d: Dev, id: nat, c: Call, answer: Answer)
    requires c.Write? && WriteEarly(c.wpc) && Ready(d, id, c, answer)
    ensures Kept(id, WriteStep(d, id, c, answer))
  {
  }

  lemma WriteLockedKept(d: Dev, id: nat, c: Call, answer: Answer)
    requires c.Write? && WriteLocked(c.wpc) && Ready(d, id, c, answer)
    ensures Kept(id, WriteStep(d, id, c, answer))
  {
  }

  lemma WriteUnlockingKept(d: Dev, id: nat, c: Call, answer: Answer)
    requires c.Write? && WriteUnlocking(c.wpc) && Ready(d, id, c, answer)
    ensures Kept(id, WriteStep(d, id, c, answer))
  {
  }

  lemma WriteLateKept(d: Dev, id: nat, c: Call, answer: Answer)
    requires c.Write? && WriteLate(c.wpc) && Ready(d, id, c, answer)
    ensures Kept(id, WriteStep(d, id, c, answer))
  {
  }

  lemma FlushKept(d: Dev, id: nat, c: Call)
    requires c.Flush? && Ready(d, id, c, Go)
    ensures Kept(id, FlushStep(d, id, c))
  {
  }

  lemma CallKept(d: Dev, id: nat, c: Call, answer: Answer)
    requires Ready(d, id, c, answer)
    ensures Kept(id, CallStep(d, id, c, answer))
  {
    match c
    case Read(_, _, _, _, _) => ReadKept(d, id, c, answer);
    case Write(_, _, _, _) => WriteKept(d, id, c, answer);
    case Flush(_, _) => FlushKept(d, id, c);
  }

  // ------------------------------------------------- the calls beside it

  lemma IoKeptBeside(d: Dev, id: nat, c: Call, answer: Answer, id2: nat, c2: Call)
    requires IsIo(c) && Beside(d, id, c, id2, c2)
    ensures KeptBeside(IoStep(d, id, c, answer), id2, c2)
  {
  }

  lemma ReadRestKeptBeside(d: Dev, id: nat, c: Call, answer: Answer, id2: nat, c2: Call)
    requires c.Read? && !c.rpc.RIo? && Beside(d, id, c, id2, c2)
    ensures KeptBeside(ReadStep(d, id, c, answer), id2, c2)
  {
  }

  lemma CallKeptBeside(d: Dev, id: nat, c: Call, answer: Answer, id2: nat, c2: Call)
    requires Beside(d, id, c, id2, c2)
    ensures KeptBeside(CallStep(d, id, c, answer), id2, c2)
  {
    match c
    case Read(_, _, _, pc, _) =>
      if pc.RIo? {
        IoKeptBeside(d, id, c, answer, id2, c2);
      } else {
        ReadRestKeptBeside(d, id, c, answer, id2, c2);
      }
    case Write(_, _, _, pc) =>
      if WriteEntry(pc) {
        WriteEntryKeptBeside(d, id, c, answer, id2, c2);
      } else if WriteEarly(pc) {
        WriteEarlyKeptBeside(d, id, c, answer, id2, c2);
      } else if WriteLocked(pc) {
        WriteLockedKeptBeside(d, id, c, answer, id2, c2);
      } else if WriteUnlocking(pc) {
        WriteUnlockingKeptBeside(d, id, c, answer, id2, c2);
      } else {
        WriteLateKeptBeside(d, id, c, answer, id2, c2);
      }
    case Flush(_, _) => FlushKeptBeside(d, id, c, id2, c2);
  }

  lemma WriteEntryKeptBeside(d: Dev, id: nat, c: Call, answer: Answer, id2: nat, c2: Call)
    requires c.Write? && WriteEntry(c.wpc) && Beside(d, id, c, id2, c2)
    ensures KeptBeside(WriteStep(d, id, c, answer), id2, c2)
  {
  }

  lemma WriteEarlyKeptBeside(d: Dev, id: nat, c: Call, answer: Answer, id2: nat, c2: Call)
    requires c.Write? && WriteEarly(c.wpc) && Beside(d, id, c, id2, c2)
    ensures KeptBeside(WriteStep(d, id, c, answer), id2, c2)
  {
  }

  lemma WriteLockedKeptBeside(d: Dev, id: nat, c: Call, answer: Answer, id2: nat, c2: Call)
    requires c.Write? && WriteLocked(c.wpc) && Beside(d, id, c, id2, c2)
    ensures KeptBeside(WriteStep(d, id, c, answer), id2, c2)
  {
  }

  lemma WriteUnlockingKeptBeside(d: Dev, id: nat, c: Call, answer: Answer, id2: nat, c2: Call)
    requires c.Write? && WriteUnlocking(c.wpc) && Beside(d, id, c, id2, c2)
    ensures KeptBeside(WriteStep(d, id, c, answer), id2, c2)
  {
  }

  lemma WriteLateKeptBeside(d: Dev, id: nat, c: Call, answer: Answer, id2: nat, c2: Call)
    requires c.Write? && WriteLate(c.wpc) && Beside(d, id, c, id2, c2)
    ensures KeptBeside(WriteStep(d, id, c, answer), id2, c2)
  {
  }

  lemma FlushKeptBeside(d: Dev, id: nat, c: Call, id2: nat, c2: Call)
    requires c.Flush? && Beside(d, id, c, id2, c2)
    ensures KeptBeside(FlushStep(d, id, c), id2, c2)
  {
  }
}
