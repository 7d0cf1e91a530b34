/**
 The writer and the retrying reader of SeqLock/seqlock1.c, interleaved step by step.
 The sequence number is an unsigned int and wraps; the protected counter does not.
 */
module SeqLock {

  const WRAP := 0x1_0000_0000

  /** Outside the section; inside before line 46; inside after it. */
  datatype Writer = Outside | Entered | Bumped

  /** Before read_seqbegin; after it; after the read of the variable. */
  datatype Reader = Resting | Begun(seqNo: nat) | Holding(seqNo: nat, value: nat)

  datatype State = State(sequence: nat, counter: nat, writer: Writer, reader: Reader, accepted: seq<nat>)

  datatype Event = WriteLock | WriteBump | WriteUnlock | ReadBegin | ReadValue | ReadCheck

  predicate Enabled(s: State, e: Event) {
    match e
    case WriteLock => s.writer.Outside?
    case WriteBump => s.writer.Entered?
    case WriteUnlock => s.writer.Bumped?
    case ReadBegin => s.reader.Resting? && s.sequence % 2 == 0  // read_seqbegin spins while a section is open
    case ReadValue => s.reader.Begun?
    case ReadCheck => s.reader.Holding?
  }

  function Tick(sequence: nat): nat {
    (sequence + 1) % WRAP
  }

  /** A reader whose sequence number is still current accepts its value; any other starts over. */
  function Step(s: State, e: Event): State {
    if !Enabled(s, e) then s
    else
      match e
      case WriteLock => s.(sequence := Tick(s.sequence), writer := Entered)
      case WriteBump => s.(counter := s.counter + 1, writer := Bumped)
      case WriteUnlock => s.(sequence := Tick(s.sequence), writer := Outside)
      case ReadBegin => s.(reader := Begun(s.sequence))
      case ReadValue => s.(reader := Holding(s.reader.seqNo, s.counter))
      case ReadCheck =>
        if s.sequence == s.reader.seqNo then s.(reader := Resting, accepted := s.accepted + [s.reader.value])
        else s.(reader := Resting)
  }

  function Exec(es: seq<Event>): State
    decreases |es|
  {
    if es == [] then State(0, 0, Outside, Resting, [])
    else Step(Exec(es[..|es| - 1]), es[|es| - 1])
  }

  function Count(s: State, e: Event): nat {
    if Enabled(s, e) && e.WriteUnlock? then 1 else 0
  }

  /** Writer sections completed by the end of `es`. */
  function Completed(es: seq<Event>): nat
    decreases |es|
  {
    if es == [] then 0
    else Completed(es[..|es| - 1]) + Count(Exec(es[..|es| - 1]), es[|es| - 1])
  }

  /** The instant at which the reader's latest read_seqbegin returned. */
  function Beginning(es: seq<Event>): (b: nat)
    ensures b <= |es|
    decreases |es|
  {
    if es == [] then 0
    else if Enabled(Exec(es[..|es| - 1]), es[|es| - 1]) && es[|es| - 1].ReadBegin? then |es|
    else Beginning(es[..|es| - 1])
  }

  // ------------------------------------------------------------- invariant

  /** The counter and the sequence number both follow the number of completed sections. */
  predicate WriterOk(s: State, done: nat) {
    && s.counter == done + (if s.writer.Bumped? then 1 else 0)
    && s.sequence == (2 * done + (if s.writer.Outside? then 0 else 1)) % WRAP
  }

  predicate ReaderOk(s: State, done: nat, doneAtBeginning: nat) {
    && doneAtBeginning <= done
    && (!s.reader.Resting? ==> s.reader.seqNo == (2 * doneAtBeginning) % WRAP)
    && (s.reader.Holding? ==> doneAtBeginning <= s.reader.value <= s.counter)
  }

  predicate AcceptedOk(s: State, done: nat, doneAtBeginning: nat) {
    && (forall i :: 0 <= i < |s.accepted| ==> s.accepted[i] <= done)
    && (!s.reader.Resting? ==> forall i :: 0 <= i < |s.accepted| ==> s.accepted[i] <= doneAtBeginning)
    && (forall i, j :: 0 <= i < j < |s.accepted| ==> s.accepted[i] <= s.accepted[j])
  }

  ghost predicate Inv(es: seq<Event>) {
    var s, done, begun := Exec(es), Completed(es), Completed(es[..Beginning(es)]);
    WriterOk(s, done) && ReaderOk(s, done, begun) && AcceptedOk(s, done, begun)
  }

  lemma Parity(s: State, done: nat)
    requires WriterOk(s, done)
    ensures s.sequence % 2 == 0 <==> s.writer.Outside?
  {
    var n := 2 * done + (if s.writer.Outside? then 0 else 1);
    assert n == WRAP * (n / WRAP) + s.sequence;
    assert s.sequence == 2 * (done - (WRAP / 2) * (n / WRAP)) + (n - 2 * done);
  }

  lemma TickIs(n: nat)
    ensures Tick(n % WRAP) == (n + 1) % WRAP
  {
    var q, r := n / WRAP, n % WRAP;
    if r + 1 == WRAP {
      assert n + 1 == WRAP * (q + 1);
    } else {
      assert n + 1 == WRAP * q + (r + 1);
    }
  }

  lemma StepKeeps(s: State, e: Event, done: nat, begun: nat)
    requires WriterOk(s, done) && ReaderOk(s, done, begun) && AcceptedOk(s, done, begun)
    ensures
      var s', done' := Step(s, e), done + Count(s, e);
      var begun' := if Enabled(s, e) && e.ReadBegin? then done else begun;
      WriterOk(s', done') && ReaderOk(s', done', begun') && AcceptedOk(s', done', begun')
  {
    if e.WriteLock? || e.WriteBump? || e.WriteUnlock? {
      WriterKeeps(s, e, done, begun);
    } else {
      ReaderKeeps(s, e, done, begun);
    }
  }

  lemma WriterKeeps(s: State, e: Event, done: nat, begun: nat)
    requires WriterOk(s, done) && ReaderOk(s, done, begun) && AcceptedOk(s, done, begun)
    requires e.WriteLock? || e.WriteBump? || e.WriteUnlock?
    ensures
      var s', done' := Step(s, e), done + Count(s, e);
      WriterOk(s', done') && ReaderOk(s', done', begun) && AcceptedOk(s', done', begun)
  {
    TickIs(2 * done);
    TickIs(2 * done + 1);
  }

  lemma ReaderKeeps(s: State, e: Event, done: nat, begun: nat)
    requires WriterOk(s, done) && ReaderOk(s, done, begun) && AcceptedOk(s, done, begun)
    requires e.ReadBegin? || e.ReadValue? || e.ReadCheck?
    ensures
      var s', begun' := Step(s, e), if Enabled(s, e) && e.ReadBegin? then done else begun;
      WriterOk(s', done) && ReaderOk(s', done, begun') && AcceptedOk(s', done, begun')
  {
    Parity(s, done);
  }

  /** The count at the latest beginning, followed through one more event. */
  lemma BegunStep(es: seq<Event>)
    requires es != []
    ensures
      var p, e := es[..|es| - 1], es[|es| - 1];
      Completed(es[..Beginning(es)]) ==
        if Enabled(Exec(p), e) && e.ReadBegin? then Completed(p) else Completed(p[..Beginning(p)])
  {
    var p, e := es[..|es| - 1], es[|es| - 1];
    if Enabled(Exec(p), e) && e.ReadBegin? {
      assert es[..Beginning(es)] == es;
    } else {
      assert es[..Beginning(es)] == p[..Beginning(p)];
    }
  }

  lemma {:induction false} InvHolds(es: seq<Event>)
    ensures Inv(es)
    decreases |es|
  {
    if es == [] {
      assert es[..Beginning(es)] == [];
    } else {
      var p := es[..|es| - 1];
      InvHolds(p);
      BegunStep(es);
      StepKeeps(Exec(p), es[|es| - 1], Completed(p), Completed(p[..Beginning(p)]));
    }
  }

  // -------------------------------------------------------------- theorems

  lemma ExecAppend(es: seq<Event>, e: Event)
    ensures Exec(es + [e]) == Step(Exec(es), e)
    ensures Completed(es + [e]) == Completed(es) + Count(Exec(es), e)
    ensures Beginning(es + [e]) == if Enabled(Exec(es), e) && e.ReadBegin? then |es| + 1 else Beginning(es)
  {
    assert (es + [e])[..|es|] == es;
  }

  /** A writer outside its section completes one in three steps of its own, and counts it. */
  lemma {:induction false} SectionCompletes(es: seq<Event>)
    requires Exec(es).writer.Outside?
    ensures
      var s, s' := Exec(es), Exec(es + [WriteLock] + [WriteBump] + [WriteUnlock]);
      && Completed(es + [WriteLock] + [WriteBump] + [WriteUnlock]) == Completed(es) + 1
      && s'.counter == s.counter + 1 && s'.writer.Outside? && s'.reader == s.reader
  {
    ExecAppend(es, WriteLock);
    ExecAppend(es + [WriteLock], WriteBump);
    ExecAppend(es + [WriteLock] + [WriteBump], WriteUnlock);
  }

  /** read_seqbegin returns exactly when no section is open, and a reader left alone then accepts the current count. */
  lemma {:induction false} ReadersAlone(es: seq<Event>)
    requires Exec(es).reader.Resting?
    ensures Exec(es + [ReadBegin]).reader.Begun? <==> Exec(es).writer.Outside?
    ensures Exec(es).writer.Outside? ==>
              Exec(es + [ReadBegin] + [ReadValue] + [ReadCheck]).accepted == Exec(es).accepted + [Completed(es)]
  {
    InvHolds(es);
    Parity(Exec(es), Completed(es));
    ExecAppend(es, ReadBegin);
    ExecAppend(es + [ReadBegin], ReadValue);
    ExecAppend(es + [ReadBegin] + [ReadValue], ReadCheck);
  }

  /** Completed sections grow by at most one per step, so every count in between is reached. */
  lemma {:induction false} Instant(es: seq<Event>, from: nat, count: nat) returns (i: nat)
    requires from <= |es| && Completed(es[..from]) <= count <= Completed(es)
    ensures from <= i <= |es| && Completed(es[..i]) == count
    decreases |es|
  {
    assert es[..|es|] == es;
    if Completed(es) == count {
      i := |es|;
    } else {
      var p := es[..|es| - 1];
      assert from < |es| && es[..from] == p[..from];
      i := Instant(p, from, count);
      assert es[..i] == p[..i];
    }
  }

  /**
   Linearizability: when the check accepts, the value is the number of writer sections completed
   at some instant between the end of read_seqbegin and the check.  No bound on the number of
   sections is needed, although the sequence number may have wrapped.
   */
  lemma {:induction false} AcceptedIsCurrent(es: seq<Event>) returns (i: nat)
    requires Exec(es).reader.Holding? && Exec(es + [ReadCheck]).accepted != Exec(es).accepted
    ensures Beginning(es) <= i <= |es| && Completed(es[..i]) == Exec(es).reader.value
    ensures Exec(es + [ReadCheck]).accepted == Exec(es).accepted + [Completed(es[..i])]
  {
    InvHolds(es);
    ExecAppend(es, ReadCheck);
    var s := Exec(es);
    EvenSequence(Completed(es[..Beginning(es)]));
    Parity(s, Completed(es));
    i := Instant(es, Beginning(es), s.reader.value);
  }

  lemma EvenSequence(done: nat)
    ensures ((2 * done) % WRAP) % 2 == 0
  {
    assert 2 * done == WRAP * ((2 * done) / WRAP) + (2 * done) % WRAP;
    assert (2 * done) % WRAP == 2 * (done - (WRAP / 2) * ((2 * done) / WRAP));
  }

  /**
   The check accepts the value exactly when no section is open and the number of sections completed
   since read_seqbegin is a multiple of 2^31; so with fewer, none has completed and the value is the
   number of sections completed at every instant since.  Accepting or not, the reader is done.
   */
  lemma {:induction false} AcceptedExactly(es: seq<Event>)
    requires Exec(es).reader.Holding?
    ensures
      var s, s' := Exec(es), Exec(es + [ReadCheck]);
      var since := Completed(es) - Completed(es[..Beginning(es)]);
      && s'.accepted == s.accepted + (if s.writer.Outside? && since % 0x8000_0000 == 0 then [s.reader.value] else [])
      && s' == s.(accepted := s'.accepted, reader := Resting)
      && (s'.accepted != s.accepted && since < 0x8000_0000 ==>
            since == 0 && s.reader.value == Completed(es) == s.counter)
  {
    InvHolds(es);
    ExecAppend(es, ReadCheck);
    CheckAccepts(Exec(es), Completed(es), Completed(es[..Beginning(es)]));
  }

  lemma CheckAccepts(s: State, done: nat, begun: nat)
    requires s.reader.Holding? && WriterOk(s, done) && ReaderOk(s, done, begun)
    ensures s.sequence == s.reader.seqNo <==> s.writer.Outside? && (done - begun) % 0x8000_0000 == 0
    ensures s.sequence == s.reader.seqNo && done - begun < 0x8000_0000 ==> done == begun == s.reader.value == s.counter
  {
    Parity(s, done);
    EvenSequence(begun);
    SameSequence(begun, done);
    if s.writer.Outside? {
      SmallMultiple(done - begun);
    }
  }

  lemma SmallMultiple(d: nat)
    ensures d % 0x8000_0000 == 0 && d < 0x8000_0000 ==> d == 0
  {
  }

  lemma SameSequence(b: nat, n: nat)
    requires b <= n
    ensures (2 * b) % WRAP == (2 * n) % WRAP <==> (n - b) % 0x8000_0000 == 0
  {
    var m, k := (2 * b) / WRAP, (2 * n) / WRAP;
    assert 2 * b == WRAP * m + (2 * b) % WRAP && 2 * n == WRAP * k + (2 * n) % WRAP;
    if (2 * b) % WRAP == (2 * n) % WRAP {
      assert n - b == 0x8000_0000 * (k - m);
    }
    if (n - b) % 0x8000_0000 == 0 {
      var q := (n - b) / 0x8000_0000;
      assert 2 * n == 2 * b + WRAP * q;
      assert 2 * n == WRAP * (m + q) + (2 * b) % WRAP;
    }
  }

  /** The values the reader accepts never go backwards. */
  lemma {:induction false} AcceptedMonotone(es: seq<Event>, i: nat, j: nat)
    requires i <= j < |Exec(es).accepted|
    ensures Exec(es).accepted[i] <= Exec(es).accepted[j] <= Completed(es)
  {
    InvHolds(es);
  }
}
