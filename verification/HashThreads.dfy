/** The parallel hashing protocol of hash.c: a reader with asynchronous reads and N hash threads that share three
    buffers and synchronise through auto-reset events, as a state machine over all interleavings. */
module HashThreads {

  type Byte = b: int | 0 <= b < 256

  const NUM_BUFFERS := 3
  const BUFFER_SIZE := 65536

  /** Where the reader is in its loop. */
  datatype ReaderPc =
    | WaitRead      // waiting for the current read and recording its size
    | Advance       // switching to the next buffer
    | Launch        // starting the next asynchronous read
    | WaitThreads   // waiting for every thread_ready event
    | Publish       // updating proc_bufnum
    | Signal(k: nat)  // setting data_ready of thread k, k + 1, ...
    | Guard         // testing the loop condition
    | Join          // waiting for the threads to exit
    | Finished

  /** Where a hash thread is. */
  datatype ThreadPc =
    | Starting      // initialised, about to set thread_ready
    | Waiting       // in WaitForSingleObject(data_ready)
    | Woken         // about to test read_size[proc_bufnum]
    | Entering      // about to call hash_write on buffer[proc_bufnum]
    | Hashing(b: nat, size: nat, pos: nat)  // reading byte pos of buffer b
    | Written       // hash_write returned, about to set thread_ready
    | Finalizing
    | Exited

  /** A hash thread: its position, its two events, and the bytes it has passed to the hash so far. */
  datatype HashThread = HashThread(pc: ThreadPc, ready: bool, data: bool, consumed: seq<Byte>)

  /** The shared state. `launched` and `chunks` count the reads started and record the ones completed; `round` is
      the number of times the reader has been around its loop. */
  datatype State = State(
    reader: ReaderPc,
    round: nat,
    readBuf: nat,
    procBuf: nat,
    buffers: seq<seq<Byte>>,
    sizes: seq<nat>,
    launched: nat,
    chunks: seq<seq<Byte>>,
    threads: seq<HashThread>)

  datatype Step =
    | ReaderStep
    | IoGarbage(garbage: seq<Byte>)  // an outstanding read has put arbitrary bytes into its buffer so far
    | IoDone(size: nat)              // an outstanding read completes with that many bytes
    | ThreadStep(i: nat)

  /** Concatenation of chunks. */
  function Flat(chunks: seq<seq<Byte>>): seq<Byte> {
    if chunks == [] then [] else Flat(chunks[..|chunks| - 1]) + chunks[|chunks| - 1]
  }

  predicate Init(s: State, n: nat) {
    && s.reader == WaitRead && s.round == 0 && s.readBuf == 0 && s.procBuf == 1
    && |s.buffers| == NUM_BUFFERS && |s.sizes| == NUM_BUFFERS && s.sizes[1] == 1
    && s.launched == 1 && s.chunks == []
    && |s.threads| == n
    && forall i :: 0 <= i < n ==> s.threads[i] == HashThread(Starting, false, false, [])
  }

  predicate Pending(s: State) {
    s.launched > |s.chunks|
  }

  /** The buffer an outstanding read writes to. */
  function Target(s: State): nat {
    |s.chunks| % NUM_BUFFERS
  }

  predicate WellShaped(s: State) {
    |s.buffers| == NUM_BUFFERS && |s.sizes| == NUM_BUFFERS && s.readBuf < NUM_BUFFERS && s.procBuf < NUM_BUFFERS
  }

  predicate Enabled(file: seq<Byte>, s: State, step: Step)
    requires WellShaped(s)
  {
    match step
    case ReaderStep => ReaderEnabled(s)
    case IoGarbage(_) => Pending(s)
    case IoDone(size) =>
      && Pending(s) && size <= BUFFER_SIZE
      && var done := |Flat(s.chunks)|; done + size <= |file| && (size == 0 <==> done == |file|)
    case ThreadStep(i) => i < |s.threads| && ThreadEnabled(s, s.threads[i])
  }

  predicate ReaderEnabled(s: State)
    requires WellShaped(s)
  {
    match s.reader
    case WaitRead => !Pending(s)
    case WaitThreads => forall i :: 0 <= i < |s.threads| ==> s.threads[i].ready
    case Join => forall i :: 0 <= i < |s.threads| ==> s.threads[i].pc == Exited
    case Finished => false
    case _ => true
  }

  predicate ThreadEnabled(s: State, t: HashThread)
    requires WellShaped(s)
  {
    match t.pc
    case Waiting => t.data
    case Hashing(b, size, pos) => b < NUM_BUFFERS && (pos < size ==> pos < |s.buffers[b]|)
    case Exited => false
    case _ => true
  }

  function Apply(file: seq<Byte>, s: State, step: Step): State
    requires WellShaped(s) && Enabled(file, s, step)
  {
    match step
    case ReaderStep => ApplyReader(s)
    case IoGarbage(garbage) => s.(buffers := s.buffers[Target(s) := garbage])
    case IoDone(size) =>
      var done := |Flat(s.chunks)|;
      var chunk := file[done..done + size];
      s.(buffers := s.buffers[Target(s) := chunk], chunks := s.chunks + [chunk])
    case ThreadStep(i) => s.(threads := s.threads[i := ApplyThread(s, s.threads[i])])
  }

  function ApplyReader(s: State): State
    requires WellShaped(s) && ReaderEnabled(s)
  {
    match s.reader
    case WaitRead =>
      s.(reader := Advance, sizes := s.sizes[s.readBuf := if s.chunks == [] then 0 else |s.chunks[|s.chunks| - 1]|])
    case Advance => s.(reader := Launch, readBuf := (s.readBuf + 1) % NUM_BUFFERS)
    case Launch => s.(reader := WaitThreads, launched := s.launched + 1)
    case WaitThreads =>
      s.(reader := Publish, threads := seq(|s.threads|,
                i requires 0 <= i < |s.threads| => s.threads[i].(ready := false)))
    case Publish => s.(reader := Signal(0), procBuf := (s.readBuf + NUM_BUFFERS - 1) % NUM_BUFFERS)
    case Signal(k) =>
      if k < |s.threads| then s.(reader := Signal(k + 1), threads := s.threads[k := s.threads[k].(data := true)])
      else s.(reader := Guard)
    case Guard =>
      if s.sizes[s.procBuf] != 0 then s.(reader := WaitRead, round := s.round + 1) else s.(reader := Join)
    case Join => s.(reader := Finished)
  }

  function ApplyThread(s: State, t: HashThread): HashThread
    requires WellShaped(s) && ThreadEnabled(s, t)
  {
    match t.pc
    case Starting => t.(pc := Waiting, ready := true)
    case Waiting => t.(pc := Woken, data := false)
    case Woken => t.(pc := if s.sizes[s.procBuf] != 0 then Entering else Finalizing)
    case Entering => t.(pc := Hashing(s.procBuf, s.sizes[s.procBuf], 0))
    case Hashing(b, size, pos) =>
      if pos < size then t.(pc := Hashing(b, size, pos + 1), consumed := t.consumed + [s.buffers[b][pos]])
      else t.(pc := Written)
    case Written => t.(pc := Waiting, ready := true)
    case Finalizing => t.(pc := Exited)
  }

  // ---- The invariant. ----

  /** How many chunks have been published to the threads. */
  function Published(s: State): nat {
    if s.reader.Signal? || s.reader.Guard? || s.reader.Join? || s.reader.Finished? then s.round + 1 else s.round
  }

  /** Reads and buffers: read j goes to buffer j mod 3, and a completed read's bytes stay there until read j + 3 is
      started. */
  ghost predicate BufferInv(file: seq<Byte>, s: State) {
    && WellShaped(s)
    && (s.launched == |s.chunks| || s.launched == |s.chunks| + 1)
    && (match s.reader
        case WaitRead => s.launched == s.round + 1 && s.readBuf == s.round % 3
        case Advance => s.launched == s.round + 1 == |s.chunks| && s.readBuf == s.round % 3
        case Launch => s.launched == s.round + 1 == |s.chunks| && s.readBuf == (s.round + 1) % 3
        case _ => s.launched == s.round + 2 && s.readBuf == (s.round + 1) % 3)
    && (forall j :: 0 <= j < |s.chunks| && s.launched <= j + 3 ==> s.buffers[j % 3] == s.chunks[j])
    && (forall j :: 0 <= j < Sized(s) && s.launched <= j + 3 ==> s.sizes[j % 3] == |s.chunks[j]|)
    && s.procBuf == (if Published(s) == 0 then 1 else (Published(s) - 1) % 3)
  }

  /** How many sizes have been recorded. */
  function Sized(s: State): nat {
    if s.reader == WaitRead then s.round else s.round + 1
  }

  /** The completed reads are the file so far; one of them is empty only if the file is exhausted. */
  ghost predicate FileInv(file: seq<Byte>, s: State) {
    && Flat(s.chunks) <= file
    && (forall j :: 0 <= j < |s.chunks| && s.chunks[j] == [] ==> Flat(s.chunks[..j]) == file)
    && Published(s) <= Sized(s) <= |s.chunks|
    && (forall j :: 0 <= j < s.round ==> s.chunks[j] != [])
    && ((s.reader.Join? || s.reader.Finished?) ==> s.chunks[s.round] == [])
  }

  /** A thread that has not yet been told of the last published chunk. */
  predicate Quiet(t: HashThread, before: seq<Byte>) {
    t == HashThread(Waiting, false, false, before)
  }

  /** A thread between being told of the last published chunk and having dealt with it. `before` are the bytes of
      the earlier chunks. */
  ghost predicate Active(t: HashThread, before: seq<Byte>, chunk: seq<Byte>, b: nat) {
    match t.pc
    case Waiting => if t.data then !t.ready && t.consumed == before
      else t.ready && t.consumed == before + chunk && chunk != []
    case Woken => !t.ready && !t.data && t.consumed == before
    case Entering => !t.ready && !t.data && t.consumed == before && chunk != []
    case Hashing(buf, size, pos) =>
      !t.ready && !t.data && buf == b && size == |chunk| && chunk != [] && pos <= size &&
      t.consumed == before + chunk[..pos]
    case Written => !t.ready && !t.data && t.consumed == before + chunk && chunk != []
    case Finalizing => !t.ready && !t.data && chunk == [] && t.consumed == before
    case Exited => !t.ready && !t.data && chunk == [] && t.consumed == before
    case Starting => false
  }

  /** Before anything is published, a thread only announces itself. */
  predicate Fresh(t: HashThread) {
    t == HashThread(Starting, false, false, []) || t == HashThread(Waiting, true, false, [])
  }

  ghost predicate ThreadInv(s: State, t: HashThread, i: nat)
    requires Published(s) <= |s.chunks|
  {
    var m := Published(s);
    if s.reader == Publish then Quiet(t, Flat(s.chunks[..m]))
    else if m == 0 then Fresh(t)
    else if s.reader.Signal? && s.reader.k <= i then Quiet(t, Flat(s.chunks[..m - 1]))
    else Active(t, Flat(s.chunks[..m - 1]), s.chunks[m - 1], (m - 1) % 3)
  }

  ghost predicate Inv(file: seq<Byte>, s: State) {
    && BufferInv(file, s) && FileInv(file, s)
    && (s.reader.Signal? ==> s.reader.k <= |s.threads|)
    && forall i :: 0 <= i < |s.threads| ==> ThreadInv(s, s.threads[i], i)
  }

  lemma InitInv(file: seq<Byte>, s: State, n: nat)
    requires Init(s, n)
    ensures Inv(file, s)
  {}

  /** The threads' part of the invariant depends only on the reader's position, the round and the chunks read
      before the last published one. */
  lemma ThreadsFrame(s: State, s': State, t: HashThread, i: nat)
    requires Published(s) <= |s.chunks| && ThreadInv(s, t, i)
    requires s'.reader == s.reader && s'.round == s.round && s.chunks <= s'.chunks
    ensures ThreadInv(s', t, i)
  {
    var m := Published(s);
    assert s'.chunks[..m] == s.chunks[..m];
    if m > 0 { assert s'.chunks[..m - 1] == s.chunks[..m - 1]; }
  }

  lemma GarbageKeepsBuffers(file: seq<Byte>, s: State, garbage: seq<Byte>)
    requires BufferInv(file, s) && Pending(s)
    ensures BufferInv(file, Apply(file, s, IoGarbage(garbage)))
  {
    hide Flat;
    var s' := Apply(file, s, IoGarbage(garbage));
    forall j | 0 <= j < |s.chunks| && s.launched <= j + 3 ensures s'.buffers[j % 3] == s.chunks[j] {
      assert j % 3 != |s.chunks| % 3;
    }
  }

  lemma GarbageKeepsInv(file: seq<Byte>, s: State, garbage: seq<Byte>)
    requires Inv(file, s) && Pending(s)
    ensures Inv(file, Apply(file, s, IoGarbage(garbage)))
  {
    GarbageKeepsBuffers(file, s, garbage);
    var s' := Apply(file, s, IoGarbage(garbage));
    hide BufferInv, Flat, ThreadInv;
    forall i | 0 <= i < |s'.threads| ensures ThreadInv(s', s'.threads[i], i) {
      ThreadsFrame(s, s', s.threads[i], i);
    }
  }

  lemma DoneKeepsFile(file: seq<Byte>, s: State, size: nat)
    requires Inv(file, s) && Enabled(file, s, IoDone(size))
    ensures FileInv(file, Apply(file, s, IoDone(size)))
  {
    hide Active, ThreadInv;
    var s' := Apply(file, s, IoDone(size));
    var n := |s.chunks|;
    assert s'.chunks[..n] == s.chunks;
    forall j | 0 <= j < |s'.chunks| && s'.chunks[j] == [] ensures Flat(s'.chunks[..j]) == file {
      assert s'.chunks[..j] == if j < n then s.chunks[..j] else s.chunks;
    }
  }

  lemma DoneKeepsBuffers(file: seq<Byte>, s: State, size: nat)
    requires Inv(file, s) && Enabled(file, s, IoDone(size))
    ensures BufferInv(file, Apply(file, s, IoDone(size)))
  {
    hide ThreadInv, Flat;
    var s' := Apply(file, s, IoDone(size));
    forall j | 0 <= j < |s'.chunks| && s.launched <= j + 3 ensures s'.buffers[j % 3] == s'.chunks[j] {
      if j < |s.chunks| { assert j % 3 != |s.chunks| % 3; }
    }
  }

  lemma DoneKeepsInv(file: seq<Byte>, s: State, size: nat)
    requires Inv(file, s) && Enabled(file, s, IoDone(size))
    ensures Inv(file, Apply(file, s, IoDone(size)))
  {
    DoneKeepsFile(file, s, size);
    DoneKeepsBuffers(file, s, size);
    var s' := Apply(file, s, IoDone(size));
    hide BufferInv, Flat, ThreadInv;
    forall i | 0 <= i < |s'.threads| ensures ThreadInv(s', s'.threads[i], i) {
      ThreadsFrame(s, s', s.threads[i], i);
    }
  }

  /** The two facts a thread step relies on: the published chunk is in its buffer, under its size. */
  lemma PublishedChunk(file: seq<Byte>, s: State)
    requires BufferInv(file, s) && FileInv(file, s) && Published(s) > 0
    ensures var p := Published(s) - 1;
            && p < |s.chunks| && s.procBuf == p % 3
            && s.sizes[p % 3] == |s.chunks[p]| && s.buffers[p % 3] == s.chunks[p]
  {}

  lemma ThreadKeepsInv(file: seq<Byte>, s: State, i: nat)
    requires Inv(file, s) && Enabled(file, s, ThreadStep(i))
    ensures Inv(file, Apply(file, s, ThreadStep(i)))
  {
    hide ThreadInv, BufferInv, FileInv;
    StepShape(file, s);
    var s' := Apply(file, s, ThreadStep(i));
    ThreadStepFrame(file, s, i);
    forall j | 0 <= j < |s'.threads| ensures ThreadInv(s', s'.threads[j], j) {
      if j == i { OneThreadKeeps(file, s, i); } else { ThreadsFrame(s, s', s.threads[j], j); }
    }
  }

  lemma StepShape(file: seq<Byte>, s: State)
    requires BufferInv(file, s) && FileInv(file, s)
    ensures WellShaped(s) && Published(s) <= |s.chunks|
  {}

  lemma ThreadStepFrame(file: seq<Byte>, s: State, i: nat)
    requires BufferInv(file, s) && FileInv(file, s) && Enabled(file, s, ThreadStep(i))
    ensures BufferInv(file, Apply(file, s, ThreadStep(i))) && FileInv(file, Apply(file, s, ThreadStep(i)))
  {
    hide Flat;
  }

  lemma OneThreadKeeps(file: seq<Byte>, s: State, i: nat)
    requires Inv(file, s) && Enabled(file, s, ThreadStep(i))
    ensures var s' := Apply(file, s, ThreadStep(i)); Published(s') <= |s'.chunks| && ThreadInv(s', s'.threads[i], i)
  {
    hide Flat;
    assert ThreadInv(s, s.threads[i], i);
    if Published(s) > 0 {
      PublishedChunk(file, s);
      ThreadAdvances(s, s.threads[i], i);
    }
  }

  /** A step of a thread that has been told of the last published chunk. */
  lemma ThreadAdvances(s: State, t: HashThread, i: nat)
    requires 0 < Published(s) <= |s.chunks| && WellShaped(s) && ThreadInv(s, t, i) && ThreadEnabled(s, t)
    requires var p := Published(s) - 1;
             s.procBuf == p % 3 && s.sizes[p % 3] == |s.chunks[p]| && s.buffers[p % 3] == s.chunks[p]
    ensures ThreadInv(s, ApplyThread(s, t), i)
  {
    hide Flat;
    var p := Published(s) - 1;
    var chunk := s.chunks[p];
    if t.pc.Hashing? && t.pc.pos < t.pc.size {
      assert chunk[..t.pc.pos + 1] == chunk[..t.pc.pos] + [chunk[t.pc.pos]];
    } else if t.pc.Hashing? {
      assert chunk[..|chunk|] == chunk;
    } else {
      assert chunk[..0] == [];
    }
  }

  // ---- Reader steps. ----

  /** Steps of the reader that neither publish a chunk nor touch the threads. */
  lemma ReaderAloneKeepsInv(file: seq<Byte>, s: State)
    requires Inv(file, s) && ReaderEnabled(s)
    requires s.reader.WaitRead? || s.reader.Advance? || s.reader.Launch? || s.reader.Guard? || s.reader.Join?
    ensures Inv(file, ApplyReader(s))
  {
    hide ThreadInv, BufferInv, FileInv;
    ReaderAloneFile(file, s);
    ReaderAloneBuffers(file, s);
    StepShape(file, s);
    StepShape(file, ApplyReader(s));
    forall i | 0 <= i < |s.threads| ensures ThreadInv(ApplyReader(s), s.threads[i], i) {
      ReaderAloneThread(file, s, i);
    }
  }

  lemma ReaderAloneThread(file: seq<Byte>, s: State, i: nat)
    requires Inv(file, s) && ReaderEnabled(s) && i < |s.threads|
    requires s.reader.WaitRead? || s.reader.Advance? || s.reader.Launch? || s.reader.Guard? || s.reader.Join?
    ensures ThreadInv(ApplyReader(s), s.threads[i], i)
  {
    hide Active, Flat, BufferInv;
    assert ThreadInv(s, s.threads[i], i);
  }

  lemma ReaderAloneFile(file: seq<Byte>, s: State)
    requires Inv(file, s) && ReaderEnabled(s)
    requires s.reader.WaitRead? || s.reader.Advance? || s.reader.Launch? || s.reader.Guard? || s.reader.Join?
    ensures FileInv(file, ApplyReader(s))
  {
    hide ThreadInv, Flat;
    if s.reader.Guard? { PublishedChunk(file, s); }
  }

  lemma ReaderAloneBuffers(file: seq<Byte>, s: State)
    requires Inv(file, s) && ReaderEnabled(s)
    requires s.reader.WaitRead? || s.reader.Advance? || s.reader.Launch? || s.reader.Guard? || s.reader.Join?
    ensures BufferInv(file, ApplyReader(s))
  {
    hide ThreadInv, Flat, FileInv, BufferInv;
    if s.reader.WaitRead? {
      SizeKeepsBuffers(file, s);
    } else if s.reader.Advance? {
      AdvanceKeepsBuffers(file, s);
    } else if s.reader.Launch? {
      LaunchKeepsBuffers(file, s);
    } else {
      GuardKeepsBuffers(file, s);
    }
  }

  lemma AdvanceKeepsBuffers(file: seq<Byte>, s: State)
    requires BufferInv(file, s) && s.reader.Advance?
    ensures BufferInv(file, ApplyReader(s))
  {
    hide Flat;
    assert (s.readBuf + 1) % 3 == (s.round + 1) % 3;
  }

  lemma LaunchKeepsBuffers(file: seq<Byte>, s: State)
    requires BufferInv(file, s) && s.reader.Launch?
    ensures BufferInv(file, ApplyReader(s))
  {
    hide Flat;
  }

  lemma GuardKeepsBuffers(file: seq<Byte>, s: State)
    requires BufferInv(file, s) && (s.reader.Guard? || (s.reader.Join? && ReaderEnabled(s)))
    ensures BufferInv(file, ApplyReader(s))
  {
    hide Flat;
  }

  lemma SizeKeepsBuffers(file: seq<Byte>, s: State)
    requires BufferInv(file, s) && FileInv(file, s) && s.reader.WaitRead? && !Pending(s)
    ensures BufferInv(file, ApplyReader(s))
  {
    hide Flat, FileInv;
    var s' := ApplyReader(s);
    assert s.chunks[|s.chunks| - 1] == s.chunks[s.round];
    forall j | 0 <= j < Sized(s') && s'.launched <= j + 3 ensures s'.sizes[j % 3] == |s'.chunks[j]| {
      OtherBuffer(j, s.round);
    }
  }

  lemma OtherBuffer(j: nat, round: nat)
    ensures j < round <= j + 2 ==> j % 3 != round % 3
  {}

  /** The reader consumes every thread's ready event: nobody is working any more. */
  lemma GatherKeepsInv(file: seq<Byte>, s: State)
    requires Inv(file, s) && s.reader.WaitThreads? && ReaderEnabled(s)
    ensures Inv(file, ApplyReader(s))
  {
    hide Flat;
    var s' := ApplyReader(s);
    var m := s.round;
    if m > 0 { FlatSnoc(s.chunks, m - 1); }
    forall i | 0 <= i < |s'.threads| ensures ThreadInv(s', s'.threads[i], i) {
      assert ThreadInv(s, s.threads[i], i) && s.threads[i].ready;
      if m == 0 { assert s.chunks[..0] == []; FlatEmpty(); }
    }
  }

  lemma FlatEmpty()
    ensures Flat([]) == []
  {}

  lemma FlatSnoc(chunks: seq<seq<Byte>>, j: nat)
    requires j < |chunks|
    ensures Flat(chunks[..j + 1]) == Flat(chunks[..j]) + chunks[j]
  {
    assert chunks[..j + 1][..j] == chunks[..j];
  }

  lemma PublishKeepsInv(file: seq<Byte>, s: State)
    requires Inv(file, s) && s.reader.Publish?
    ensures Inv(file, ApplyReader(s))
  {
    hide Flat, Active;
    var s' := ApplyReader(s);
    assert s'.procBuf == s.round % 3;
    forall i | 0 <= i < |s'.threads| ensures ThreadInv(s', s'.threads[i], i) {
      assert ThreadInv(s, s.threads[i], i);
    }
  }

  lemma SignalKeepsInv(file: seq<Byte>, s: State)
    requires Inv(file, s) && s.reader.Signal?
    ensures Inv(file, ApplyReader(s))
  {
    hide Flat;
    var s' := ApplyReader(s);
    forall i | 0 <= i < |s'.threads| ensures ThreadInv(s', s'.threads[i], i) {
      assert ThreadInv(s, s.threads[i], i);
    }
  }


  lemma StepKeepsInv(file: seq<Byte>, s: State, step: Step)
    requires WellShaped(s) && Inv(file, s) && Enabled(file, s, step)
    ensures Inv(file, Apply(file, s, step))
  {
    hide BufferInv, FileInv, ThreadInv, ApplyReader, ApplyThread, Flat;
    match step
    case IoGarbage(garbage) => GarbageKeepsInv(file, s, garbage);
    case IoDone(size) => DoneKeepsInv(file, s, size);
    case ThreadStep(i) => ThreadKeepsInv(file, s, i);
    case ReaderStep =>
      match s.reader
      case WaitThreads => GatherKeepsInv(file, s);
      case Publish => PublishKeepsInv(file, s);
      case Signal(_) => SignalKeepsInv(file, s);
      case _ => ReaderAloneKeepsInv(file, s);
  }

  // ---- What holds in every reachable state. ----

  /** s' is reached from s by these steps. */
  ghost predicate Run(file: seq<Byte>, s: State, steps: seq<Step>, s': State)
    decreases |steps|
  {
    if steps == [] then s == s'
    else WellShaped(s) && Enabled(file, s, steps[0]) && Run(file, Apply(file, s, steps[0]), steps[1..], s')
  }

  /** s is reached by some interleaving of the reader, the I/O and n threads. */
  ghost predicate Reachable(file: seq<Byte>, n: nat, s: State) {
    exists start: State, steps: seq<Step> :: Init(start, n) && Run(file, start, steps, s)
  }

  lemma {:induction false} RunKeepsInv(file: seq<Byte>, s: State, steps: seq<Step>, s': State)
    requires Inv(file, s) && Run(file, s, steps, s')
    ensures Inv(file, s') && |s'.threads| == |s.threads|
    decreases |steps|
  {
    hide Inv, ApplyReader, ApplyThread;
    if steps != [] {
      StepKeepsInv(file, s, steps[0]);
      StepKeepsThreads(file, s, steps[0]);
      RunKeepsInv(file, Apply(file, s, steps[0]), steps[1..], s');
    }
  }

  lemma StepKeepsThreads(file: seq<Byte>, s: State, step: Step)
    requires WellShaped(s) && Enabled(file, s, step)
    ensures |Apply(file, s, step).threads| == |s.threads|
  {
    hide ApplyThread;
  }

  lemma ReachableInv(file: seq<Byte>, n: nat, s: State)
    requires Reachable(file, n, s)
    ensures Inv(file, s) && |s.threads| == n
  {
    var start: State, steps: seq<Step> :| Init(start, n) && Run(file, start, steps, s);
    InitInv(file, start, n);
    hide Inv;
    RunKeepsInv(file, start, steps, s);
  }

  predicate Working(t: HashThread) {
    t.data || t.pc.Woken? || t.pc.Entering? || t.pc.Hashing?
  }

  /** While a thread has been told of a chunk and is not done with it, no outstanding read targets the buffer it
      works on, and that buffer is the published one. */
  lemma NoReadIntoHashedBuffer(file: seq<Byte>, n: nat, s: State, i: nat)
    requires Reachable(file, n, s) && i < |s.threads| && Working(s.threads[i])
    ensures WellShaped(s)
    ensures Pending(s) ==> Target(s) != s.procBuf
    ensures s.threads[i].pc.Hashing? ==> s.threads[i].pc.b == s.procBuf
  {
    ReachableInv(file, n, s);
    assert ThreadInv(s, s.threads[i], i);
  }

  /** proc_bufnum changes only while every thread waits, with neither of its events set. */
  lemma PublishOnlyWhenIdle(file: seq<Byte>, n: nat, s: State, step: Step)
    requires Reachable(file, n, s) && WellShaped(s) && Enabled(file, s, step)
    requires Apply(file, s, step).procBuf != s.procBuf
    ensures forall i :: 0 <= i < |s.threads| ==>
              s.threads[i].pc == Waiting && !s.threads[i].ready && !s.threads[i].data
  {
    ReachableInv(file, n, s);
    assert s.reader == Publish;
    hide Flat;
    forall i | 0 <= i < |s.threads|
      ensures s.threads[i].pc == Waiting && !s.threads[i].ready && !s.threads[i].data
    {
      assert ThreadInv(s, s.threads[i], i);
    }
  }

  lemma {:induction false} FlatMonotone(chunks: seq<seq<Byte>>, j: nat)
    requires j <= |chunks|
    ensures Flat(chunks[..j]) <= Flat(chunks)
    decreases |chunks| - j
  {
    if j < |chunks| {
      FlatSnoc(chunks, j);
      FlatMonotone(chunks, j + 1);
    } else {
      assert chunks[..j] == chunks;
    }
  }

  /** At any moment a thread has hashed a prefix of the file: every byte once, in order. */
  lemma ConsumesPrefix(file: seq<Byte>, n: nat, s: State, i: nat)
    requires Reachable(file, n, s) && i < n
    ensures |s.threads| == n && s.threads[i].consumed <= file
  {
    ReachableInv(file, n, s);
    var m := Published(s);
    assert ThreadInv(s, s.threads[i], i);
    FlatMonotone(s.chunks, m);
    if m > 0 {
      FlatMonotone(s.chunks, m - 1);
      FlatSnoc(s.chunks, m - 1);
    }
    hide Flat;
    if m > 0 { PrefixCases(s, s.threads[i], i); }
  }

  lemma PrefixCases(s: State, t: HashThread, i: nat)
    requires 0 < Published(s) <= |s.chunks| && ThreadInv(s, t, i)
    requires var m := Published(s); Flat(s.chunks[..m]) == Flat(s.chunks[..m - 1]) + s.chunks[m - 1]
    ensures t.consumed <= Flat(s.chunks[..Published(s)])
  {
    hide Flat;
  }

  /** A thread that has finished has hashed exactly the file, and when the reader is done every thread has. */
  lemma FinishedThreadsHashedFile(file: seq<Byte>, n: nat, s: State, i: nat)
    requires Reachable(file, n, s) && i < n
    ensures |s.threads| == n
    ensures s.threads[i].pc == Exited || s.threads[i].pc == Finalizing ==> s.threads[i].consumed == file
    ensures s.reader == Finished ==> s.threads[i].pc == Exited
  {
    ReachableInv(file, n, s);
    assert ThreadInv(s, s.threads[i], i);
    hide Flat;
    JoinedThreads(file, n, s, i);
  }

  lemma JoinedThreads(file: seq<Byte>, n: nat, s: State, i: nat)
    requires Reachable(file, n, s) && i < n
    ensures |s.threads| == n && (s.reader == Finished ==> s.threads[i].pc == Exited)
  {
    ReachableInv(file, n, s);
    var start: State, steps: seq<Step> :| Init(start, n) && Run(file, start, steps, s);
    InitInv(file, start, n);
    hide Inv;
    RunJoined(file, start, steps, s, i);
  }

  lemma {:induction false} RunJoined(file: seq<Byte>, s: State, steps: seq<Step>, s': State, i: nat)
    requires Inv(file, s) && Run(file, s, steps, s') && i < |s.threads|
    requires s.reader == Finished ==> s.threads[i].pc == Exited
    ensures |s'.threads| == |s.threads| && (s'.reader == Finished ==> s'.threads[i].pc == Exited)
    decreases |steps|
  {
    hide Inv;
    if steps != [] {
      StepKeepsInv(file, s, steps[0]);
      RunJoined(file, Apply(file, s, steps[0]), steps[1..], s', i);
    }
  }

  /** Until the reader is done, some step other than the arrival of more bytes can always happen: the protocol never
      deadlocks. */
  lemma NoDeadlock(file: seq<Byte>, n: nat, s: State)
    requires Reachable(file, n, s) && s.reader != Finished
    ensures WellShaped(s) && exists step: Step :: !step.IoGarbage? && Enabled(file, s, step)
  {
    ReachableInv(file, n, s);
    var step := StepExists(file, s);
  }

  lemma StepExists(file: seq<Byte>, s: State) returns (step: Step)
    requires Inv(file, s) && s.reader != Finished
    ensures !step.IoGarbage? && Enabled(file, s, step)
  {
    if Pending(s) {
      step := IoDone(if |Flat(s.chunks)| == |file| then 0 else 1);
    } else if ReaderEnabled(s) {
      step := ReaderStep;
    } else {
      var i :| 0 <= i < |s.threads|
               && (if s.reader.WaitThreads? then !s.threads[i].ready else s.threads[i].pc != Exited);
      LaggardEnabled(file, s, i);
      step := ThreadStep(i);
    }
  }

  lemma LaggardEnabled(file: seq<Byte>, s: State, i: nat)
    requires Inv(file, s) && i < |s.threads|
    requires (s.reader.WaitThreads? && !s.threads[i].ready) || (s.reader.Join? && s.threads[i].pc != Exited)
    ensures ThreadEnabled(s, s.threads[i])
  {
    hide Flat;
    assert ThreadInv(s, s.threads[i], i);
    if Published(s) > 0 { PublishedChunk(file, s); }
  }
}
