/**
 * Hashing a file while its chunks arrive out of order: the producers that write chunks and push
 * them, and the one consumer that pops ranges, reads them back and feeds the hasher, as a state
 * machine over their steps.  The queue's steps are the contracts of SeqQueue's methods.
 */
module UploadHashing {
  import opened Bytes
  import opened SeqQueue

  // ---------- the read loop of CommitHasher.Start ----------

  /** Reads dataBytes bytes from offset on, at most bufSize at a time; what is hashed is returned. */
  method ReadRange(f: Bytes, offset: nat, dataBytes: nat, bufferSize: nat) returns (hashed: Bytes)
    requires bufferSize > 0 && offset + dataBytes <= |f|
    ensures hashed == f[offset..offset + dataBytes]
  {
    hashed := [];
    var bufSize := Min(2 * bufferSize, dataBytes);
    var at: nat, left: nat := offset, dataBytes;
    assert f[offset..offset] == [];
    while left > 0
      invariant at + left == offset + dataBytes && offset <= at && 0 <= left
      invariant hashed == f[offset..at]
    {
      var len := Min(bufSize, left);
      var n := Min(len, |f| - at);
      assert f[offset..at] + f[at..at + n] == f[offset..at + n];
      hashed := hashed + f[at..at + n];
      left, at := left - n, at + n;
    }
  }

  // ---------- the state machine ----------

  datatype Consumer =
    | Ready                                             // about to call Popup
    | Waiting(signalled: bool)                          // in cv.Wait
    | Reading(at: nat, left: nat, finalize: bool)       // in the read loop
    | Finished

  datatype State = State(
    disk: map<nat, Byte>,            // the bytes of the temporary file written so far
    items: multiset<UploadData>,
    next: nat,
    done: bool,
    consumer: Consumer,
    stream: Bytes)                   // what the hasher has been fed

  /** The file being uploaded. */
  type File = Bytes

  predicate OnDisk(disk: map<nat, Byte>, from: nat, to: int) {
    forall i: nat :: from <= i < to ==> i in disk
  }

  predicate ChunkWritten(file: File, disk: map<nat, Byte>, it: UploadData) {
    it.dataBytes >= 0 && it.offset + it.dataBytes <= |file| && OnDisk(disk, it.offset, it.offset + it.dataBytes)
  }

  ghost predicate Init(s: State) {
    s == State(map[], multiset{}, 0, false, Ready, [])
  }

  /** A producer writes the bytes of a chunk at its offset: chunks may repeat and overlap. */
  ghost predicate WriteStep(file: File, s: State, s': State, at: nat, n: nat) {
    && at + n <= |file|
    && s' == s.(disk := s.disk + map i: nat | at <= i < at + n :: file[i])
  }

  function Woken(c: Consumer, signalled: bool): Consumer {
    if c.Waiting? && signalled then Waiting(true) else c
  }

  /** Push, of a chunk that was written before; nothing is pushed after Done. */
  ghost predicate PushStep(file: File, s: State, s': State, v: UploadData, signalled: bool) {
    && !s.done && ChunkWritten(file, s.disk, v)
    && PushDoes(s.items, s.next, v, s'.items, signalled)
    && s' == s.(items := s'.items, consumer := Woken(s.consumer, signalled))
  }

  /** Done, with the last chunk, once the whole file was written. */
  ghost predicate DoneStep(file: File, s: State, s': State, v: UploadData, signalled: bool) {
    && !s.done && ChunkWritten(file, s.disk, v) && OnDisk(s.disk, 0, |file|)
    && DoneDoes(s.items, v, s'.items, s'.done, signalled)
    && s' == s.(items := s'.items, done := s'.done, consumer := Woken(s.consumer, signalled))
  }

  ghost predicate MayPop(c: Consumer) {
    c.Ready? || (c.Waiting? && c.signalled)
  }

  /** Popup, when it has to wait. */
  ghost predicate WaitStep(file: File, s: State, s': State) {
    && MayPop(s.consumer)
    && PopupDoes(s.items, s.next, s.done, |file|, s'.items, s'.next, None)
    && s' == s.(items := s'.items, next := s'.next, consumer := Waiting(false))
  }

  /** What the consumer does with a popped range: finish after it, skip it, or read it. */
  function AfterPop(file: File, r: UploadData): Consumer
    requires r.dataBytes >= 0
  {
    if r.offset + r.dataBytes == |file| || r.isFinal then Reading(r.offset, r.dataBytes, true)
    else if r.dataBytes == 0 then Ready
    else Reading(r.offset, r.dataBytes, false)
  }

  /** Popup, with the range it returns. */
  ghost predicate PopStep(file: File, s: State, s': State, r: UploadData) {
    && MayPop(s.consumer) && r.dataBytes >= 0
    && PopupDoes(s.items, s.next, s.done, |file|, s'.items, s'.next, Some(r))
    && s' == s.(items := s'.items, next := s'.next, consumer := AfterPop(file, r))
  }

  /** One ReadAt that returns n bytes, and their way into the hasher. */
  ghost predicate ReadStep(s: State, s': State, n: nat) {
    && s.consumer.Reading? && 0 < n <= s.consumer.left
    && OnDisk(s.disk, s.consumer.at, s.consumer.at + n)
    && s' == s.(stream := s.stream + seq(n, k requires 0 <= k < n => s.disk[s.consumer.at + k]),
                consumer := Reading(s.consumer.at + n, s.consumer.left - n, s.consumer.finalize))
  }

  ghost predicate ReadEndStep(s: State, s': State) {
    && s.consumer.Reading? && s.consumer.left == 0
    && s' == s.(consumer := if s.consumer.finalize then Finished else Ready)
  }

  ghost predicate ProducerStep(file: File, s: State, s': State) {
    || (exists at: nat, n: nat :: WriteStep(file, s, s', at, n))
    || (exists v, signalled :: PushStep(file, s, s', v, signalled))
    || (exists v, signalled :: DoneStep(file, s, s', v, signalled))
  }

  ghost predicate ConsumerStep(file: File, s: State, s': State) {
    || WaitStep(file, s, s')
    || (exists r :: PopStep(file, s, s', r))
    || (exists n: nat :: ReadStep(s, s', n))
    || ReadEndStep(s, s')
  }

  ghost predicate Step(file: File, s: State, s': State) {
    ProducerStep(file, s, s') || ConsumerStep(file, s, s')
  }

  ghost predicate Run(file: File, run: seq<State>) {
    run != [] && Init(run[0]) && forall i :: 0 <= i < |run| - 1 ==> Step(file, run[i], run[i + 1])
  }

  // ---------- the invariant ----------

  ghost predicate DiskInv(file: File, s: State) {
    && (forall i :: i in s.disk ==> i < |file| && s.disk[i] == file[i])
    && (s.done ==> OnDisk(s.disk, 0, |file|))
  }

  predicate FirstBytes(stream: Bytes, file: File, n: nat) {
    n <= |file| && stream == file[..n]
  }

  predicate Finishing(c: Consumer) {
    c.Finished? || (c.Reading? && c.finalize)
  }

  ghost predicate QueueInv(file: File, s: State) {
    && s.next <= |file| && OnDisk(s.disk, 0, s.next)
    && (forall it :: it in s.items ==> ChunkWritten(file, s.disk, it))
    && (!s.done ==> forall it :: it in s.items ==> it.offset >= s.next)
    && (s.done && !Finishing(s.consumer) ==> s.items != multiset{})
  }

  ghost predicate StreamInv(file: File, s: State) {
    match s.consumer
    case Ready => FirstBytes(s.stream, file, s.next)
    case Waiting(_) => FirstBytes(s.stream, file, s.next)
    case Reading(at, left, finalize) =>
      && at + left == (if finalize then |file| else s.next)
      && OnDisk(s.disk, at, at + left) && FirstBytes(s.stream, file, at)
    case Finished => FirstBytes(s.stream, file, |file|)
  }

  /** A consumer that sleeps unsignalled has nothing to do: the file is not done and the next chunk not queued. */
  ghost predicate NoLostWakeup(s: State) {
    s.consumer == Waiting(false) ==> !s.done && forall it :: it in s.items ==> it.offset > s.next
  }

  ghost predicate Inv(file: File, s: State) {
    s.next <= |file| && DiskInv(file, s) && QueueInv(file, s) && StreamInv(file, s) && NoLostWakeup(s)
  }

  // ---------- every step keeps it ----------

  lemma WriteKeepsInv(file: File, s: State, s': State, at: nat, n: nat)
    requires Inv(file, s) && WriteStep(file, s, s', at, n)
    ensures Inv(file, s')
  {
    assert forall i :: i in s.disk ==> i in s'.disk;
    assert forall it :: it in s.items ==> ChunkWritten(file, s'.disk, it);
  }

  lemma PushKeepsInv(file: File, s: State, s': State, v: UploadData, signalled: bool)
    requires Inv(file, s) && PushStep(file, s, s', v, signalled)
    ensures Inv(file, s')
  {
    assert forall it :: it in s'.items ==> it in s.items || it == v;
  }

  lemma DoneKeepsInv(file: File, s: State, s': State, v: UploadData, signalled: bool)
    requires Inv(file, s) && DoneStep(file, s, s', v, signalled)
    ensures Inv(file, s')
  {
    assert forall it :: it in s'.items ==> it in s.items || it == v;
    assert v in s'.items;
  }

  /** What the queue's Popup does is a step of the consumer: no range it returns is negative. */
  lemma PopupIsAStep(file: File, s: State, items': multiset<UploadData>, next': nat, r: Option<UploadData>)
    requires Inv(file, s) && MayPop(s.consumer)
    requires PopupDoes(s.items, s.next, s.done, |file|, items', next', r)
    ensures r == None ==> WaitStep(file, s, s.(consumer := Waiting(false)))
    ensures r.Some? ==> r.value.dataBytes >= 0
    ensures r.Some? ==>
              PopStep(file, s, s.(items := items', next := next', consumer := AfterPop(file, r.value)), r.value)
  {
  }

  /** A range that reaches the end of the file, or is final, is the last one read. */
  lemma PopToEndFinishes(file: File, s: State, s': State, r: UploadData)
    requires PopStep(file, s, s', r) && (r.isFinal || r.offset + r.dataBytes == |file|)
    ensures Finishing(s'.consumer)
  {}

  /** The bytes a drain moves past were all written. */
  lemma {:induction false} ChainOnDisk(file: File, disk: map<nat, Byte>, items: multiset<UploadData>, a: nat, b: nat)
    requires a <= b && a <= |file| && Chain(items, a, b)
    requires forall it :: it in items ==> ChunkWritten(file, disk, it)
    ensures b <= |file| && OnDisk(disk, a, b)
    decreases b - a
  {
    if a != b {
      var it :| it in items && it.offset == a && it.dataBytes > 0 && a + it.dataBytes <= b
                && Chain(items, a + it.dataBytes, b);
      ChainOnDisk(file, disk, items, a + it.dataBytes, b);
    }
  }

  lemma DrainedItems(before: multiset<UploadData>, from: nat, after: multiset<UploadData>, to: nat)
    requires Drained(before, from, after, to)
    ensures forall it :: it in after ==> it in before && it.offset > to
  {
  }

  lemma PopKeepsInv(file: File, s: State, s': State, r: UploadData)
    requires Inv(file, s) && PopStep(file, s, s', r)
    ensures Inv(file, s')
  {
    if !(s.done && |file| > 0) {
      DrainedItems(s.items, s.next, s'.items, s'.next);
      ChainOnDisk(file, s.disk, s.items, s.next, s'.next);
    }
  }

  lemma ReadKeepsInv(file: File, s: State, s': State, n: nat)
    requires Inv(file, s) && ReadStep(s, s', n)
    ensures Inv(file, s')
  {
    var at := s.consumer.at;
    var bytes := seq(n, k requires 0 <= k < n => s.disk[at + k]);
    assert bytes == file[at..at + n];
    assert file[..at] + file[at..at + n] == file[..at + n];
  }

  lemma StepKeepsInv(file: File, s: State, s': State)
    requires Inv(file, s) && Step(file, s, s')
    ensures Inv(file, s')
  {
    if ProducerStep(file, s, s') {
      if at: nat, n: nat :| WriteStep(file, s, s', at, n) {
        WriteKeepsInv(file, s, s', at, n);
      } else if v, signalled :| PushStep(file, s, s', v, signalled) {
        PushKeepsInv(file, s, s', v, signalled);
      } else {
        var v, signalled :| DoneStep(file, s, s', v, signalled);
        DoneKeepsInv(file, s, s', v, signalled);
      }
    } else if r :| PopStep(file, s, s', r) {
      PopKeepsInv(file, s, s', r);
    } else if n: nat :| ReadStep(s, s', n) {
      ReadKeepsInv(file, s, s', n);
    }
  }

  // ---------- main results ----------

  lemma {:induction false} RunKeepsInv(file: File, run: seq<State>, i: nat)
    requires Run(file, run) && i < |run|
    ensures Inv(file, run[i])
  {
    if i > 0 {
      RunKeepsInv(file, run, i - 1);
      StepKeepsInv(file, run[i - 1], run[i]);
    }
  }

  /**
   * At every moment of every run the hasher has been fed a prefix of the file, and when the
   * consumer has finished, the file: each byte once and in order, whatever the order of arrival.
   */
  lemma HashedInOrder(file: File, run: seq<State>, i: nat)
    requires Run(file, run) && i < |run|
    ensures run[i].stream <= file
    ensures run[i].consumer.Finished? ==> run[i].stream == file
  {
    RunKeepsInv(file, run, i);
  }

  /** The consumer never sleeps unsignalled while the next chunk is queued or the upload is done. */
  lemma NeverLeftAsleep(file: File, run: seq<State>, i: nat, it: UploadData)
    requires Run(file, run) && i < |run|
    requires run[i].done || (it in run[i].items && it.offset == run[i].next)
    ensures run[i].consumer != Waiting(false)
  {
    RunKeepsInv(file, run, i);
  }

  /** Before Done nothing queued lies below next, and right after a Popup nothing at it either. */
  lemma PopLeavesOnlyLater(file: File, run: seq<State>, i: nat, r: UploadData)
    requires Run(file, run) && i < |run| - 1 && !run[i].done && PopStep(file, run[i], run[i + 1], r)
    ensures forall it :: it in run[i].items ==> it.offset >= run[i].next
    ensures forall it :: it in run[i + 1].items ==> it.offset > run[i + 1].next
  {
    RunKeepsInv(file, run, i);
    DrainedItems(run[i].items, run[i].next, run[i + 1].items, run[i + 1].next);
  }

  /** How many steps the consumer can still take after Done. */
  function StepsLeft(file: File, s: State): nat {
    match s.consumer
    case Finished => 0
    case Reading(_, left, finalize) => if finalize then left + 1 else left + |file| + 3
    case _ => |file| + 2
  }

  /** After Done the consumer always has a step to take until it finishes, */
  lemma ConsumerCanStep(file: File, s: State) returns (s': State)
    requires Inv(file, s) && s.done && !s.consumer.Finished?
    ensures ConsumerStep(file, s, s')
  {
    if s.consumer.Reading? {
      var at, left := s.consumer.at, s.consumer.left;
      if left == 0 {
        s' := s.(consumer := if s.consumer.finalize then Finished else Ready);
        assert ReadEndStep(s, s');
      } else {
        s' := s.(stream := s.stream + seq(left, k requires 0 <= k < left => s.disk[at + k]),
                 consumer := Reading(at + left, 0, s.consumer.finalize));
        assert ReadStep(s, s', left);
      }
    } else if |file| > 0 {
      var r := UploadData(s.next, |file| - s.next, true);
      s' := s.(consumer := AfterPop(file, r));
      assert PopStep(file, s, s', r);
    } else {
      var r := UploadData(0, 0, true);
      s' := s.(items := multiset{}, consumer := AfterPop(file, r));
      EmptyFileDrains(file, s);
      assert PopStep(file, s, s', r);
    }
  }

  lemma EmptyFileDrains(file: File, s: State)
    requires Inv(file, s) && |file| == 0
    ensures Drained(s.items, 0, multiset{}, 0)
  {
    forall it: UploadData ensures s.items[it] == 0 || it.offset == 0 {
      if it in s.items { assert ChunkWritten(file, s.disk, it); }
    }
  }

  /** and every step it takes brings the end nearer: it finishes, with the file hashed. */
  lemma ConsumerStepsDown(file: File, s: State, s': State)
    requires Inv(file, s) && s.done && ConsumerStep(file, s, s')
    ensures StepsLeft(file, s') < StepsLeft(file, s)
  {
    if r :| PopStep(file, s, s', r) {
      PopKeepsInv(file, s, s', r);
    }
  }
}
