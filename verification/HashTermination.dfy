/** The hashing protocol comes to its end (hash.c): every step but the arrival of bytes of an outstanding read brings
    it nearer. */
module HashTermination {
  import opened HashThreads

  /** How far there is to go: the rounds that the rest of the file can take, the reader's way through its loop, and
      what is left to do in between. */
  datatype Rank = Rank(rounds: int, stage: int, work: nat)

  predicate Less(a: Rank, b: Rank) {
    || 0 <= a.rounds < b.rounds
    || (a.rounds == b.rounds && 0 <= a.stage < b.stage)
    || (a.rounds == b.rounds && a.stage == b.stage && a.work < b.work)
  }

  function Stage(s: State): int {
    match s.reader
    case WaitRead => |s.threads| + 8
    case Advance => |s.threads| + 7
    case Launch => |s.threads| + 6
    case WaitThreads => |s.threads| + 5
    case Publish => |s.threads| + 4
    case Signal(k) => |s.threads| + 3 - k
    case Guard => 2
    case Join => 1
    case Finished => 0
  }

  /** The steps a thread can take before it waits again or exits, at most. */
  function ThreadWork(t: HashThread, length: nat): nat {
    match t.pc
    case Starting => 1
    case Waiting => if t.data then length + 7 else 0
    case Woken => length + 6
    case Entering => length + 5
    case Hashing(b, size, pos) => if pos < size then 2 + size - pos else 2
    case Written => 1
    case Finalizing => 1
    case Exited => 0
  }

  function AllWork(threads: seq<HashThread>, length: nat): nat {
    if threads == [] then 0 else AllWork(threads[..|threads| - 1], length) + ThreadWork(threads[|threads| - 1], length)
  }

  function RankOf(file: seq<Byte>, s: State): Rank {
    Rank(|file| - s.round, Stage(s), AllWork(s.threads, |file|) + if Pending(s) then 1 else 0)
  }

  lemma {:induction false} OneWorks(threads: seq<HashThread>, i: nat, t: HashThread, length: nat)
    requires i < |threads|
    ensures AllWork(threads[i := t], length) ==
            AllWork(threads, length) - ThreadWork(threads[i], length) + ThreadWork(t, length)
    ensures ThreadWork(threads[i], length) <= AllWork(threads, length)
  {
    var n := |threads| - 1;
    if i < n {
      OneWorks(threads[..n], i, t, length);
      assert threads[i := t][..n] == threads[..n][i := t];
    } else {
      assert threads[i := t][..n] == threads[..n];
    }
  }

  lemma {:induction false} ChunkFits(chunks: seq<seq<Byte>>, k: nat)
    requires k < |chunks|
    ensures |chunks[k]| <= |Flat(chunks)|
  {
    if k < |chunks| - 1 { ChunkFits(chunks[..|chunks| - 1], k); }
  }

  lemma {:induction false} RoundsFit(chunks: seq<seq<Byte>>, round: nat)
    requires round <= |chunks| && forall j | 0 <= j < round :: chunks[j] != []
    ensures round <= |Flat(chunks)|
  {
    if chunks != [] {
      var n := |chunks| - 1;
      RoundsFit(chunks[..n], if round <= n then round else n);
    }
  }

  /** No more rounds are begun than the file has bytes, but for the last. */
  lemma RoundsBounded(file: seq<Byte>, s: State)
    requires Inv(file, s)
    ensures WellShaped(s) && s.round <= |file| && 0 <= Stage(s)
  {
    hide ThreadInv;
    RoundsFit(s.chunks, s.round);
  }

  lemma ThreadWorks(file: seq<Byte>, s: State, i: nat)
    requires Inv(file, s) && Enabled(file, s, ThreadStep(i))
    ensures ThreadWork(ApplyThread(s, s.threads[i]), |file|) < ThreadWork(s.threads[i], |file|)
  {
    hide Flat;
    assert ThreadInv(s, s.threads[i], i);
    if Published(s) > 0 {
      PublishedChunk(file, s);
      ChunkFits(s.chunks, Published(s) - 1);
    }
  }

  /** Every enabled step other than the arrival of bytes brings the protocol nearer to its end. */
  lemma StepDecreases(file: seq<Byte>, s: State, step: Step)
    requires Inv(file, s) && Enabled(file, s, step) && !step.IoGarbage?
    ensures Inv(file, Apply(file, s, step)) && Less(RankOf(file, Apply(file, s, step)), RankOf(file, s))
  {
    hide Inv, Flat;
    RoundsBounded(file, s);
    StepKeepsInv(file, s, step);
    StepKeepsThreads(file, s, step);
    RoundsBounded(file, Apply(file, s, step));
    match step
    case ThreadStep(i) =>
      ThreadWorks(file, s, i);
      OneWorks(s.threads, i, ApplyThread(s, s.threads[i]), |file|);
    case ReaderStep => ReaderAdvances(file, s);
    case IoDone(size) => ReadIsDone(file, s, size);
  }

  lemma ReaderAdvances(file: seq<Byte>, s: State)
    requires Inv(file, s) && ReaderEnabled(s)
    ensures var s' := ApplyReader(s);
            |s'.threads| == |s.threads| && (s'.round > s.round || (s'.round == s.round && Stage(s') < Stage(s)))
  {
    hide ThreadInv, Flat;
  }

  lemma ReadIsDone(file: seq<Byte>, s: State, size: nat)
    requires Inv(file, s) && Enabled(file, s, IoDone(size))
    ensures !Pending(Apply(file, s, IoDone(size)))
  {
    hide ThreadInv, Flat;
  }

  /** The arrival of bytes changes nothing in this respect. */
  lemma GarbageKeepsRank(file: seq<Byte>, s: State, garbage: seq<Byte>)
    requires WellShaped(s) && Pending(s)
    ensures RankOf(file, Apply(file, s, IoGarbage(garbage))) == RankOf(file, s)
  {}

  /** A scheduler picks some enabled step, other than the arrival of bytes, in every state the protocol can be in. */
  ghost predicate Schedules(file: seq<Byte>, choose: State -> Step) {
    forall s | Inv(file, s) && s.reader != Finished :: Enabled(file, s, choose(s)) && !choose(s).IoGarbage?
  }

  /** There are such schedulers. */
  ghost function Pick(file: seq<Byte>, s: State): Step {
    if WellShaped(s) && exists step: Step :: !step.IoGarbage? && Enabled(file, s, step) then
      var step: Step :| !step.IoGarbage? && Enabled(file, s, step); step
    else ReaderStep
  }

  lemma PickSchedules(file: seq<Byte>)
    ensures Schedules(file, s => Pick(file, s))
  {
    forall s | Inv(file, s) && s.reader != Finished
      ensures Enabled(file, s, Pick(file, s)) && !Pick(file, s).IoGarbage?
    {
      var step := StepExists(file, s);
    }
  }

  /** From any state the protocol can be in, every scheduler brings it to its end: the choices make up a run after which
      the reader has finished. */
  lemma {:induction false} EverySchedulerFinishes(file: seq<Byte>, s: State, choose: State -> Step)
    returns (steps: seq<Step>, end: State)
    requires Inv(file, s) && Schedules(file, choose)
    ensures Run(file, s, steps, end) && end.reader == Finished
    decreases |file| - s.round, Stage(s), RankOf(file, s).work
  {
    hide Inv, Flat;
    RoundsBounded(file, s);
    if s.reader == Finished {
      steps, end := [], s;
    } else {
      var step := choose(s);
      StepDecreases(file, s, step);
      RoundsBounded(file, Apply(file, s, step));
      steps, end := EverySchedulerFinishes(file, Apply(file, s, step), choose);
      steps := [step] + steps;
    }
  }

  // ---- How many steps a run can have. ----

  /** The steps of a run that are not the arrival of bytes of an outstanding read. */
  function Progress(steps: seq<Step>): nat {
    if steps == [] then 0 else (if steps[0].IoGarbage? then 0 else 1) + Progress(steps[1..])
  }

  /** The rank as a number, when there are fewer than this many stages and this much work. */
  function Number(r: Rank, stages: nat, work: nat): int {
    (r.rounds * stages + r.stage) * work + r.work
  }

  function Stages(threads: nat): nat { threads + 9 }

  function MostWork(threads: nat, length: nat): nat { threads * (length + 7) + 2 }

  lemma LessIsLess(a: Rank, b: Rank, stages: nat, work: nat)
    requires Less(a, b) && 0 <= a.stage < stages && 0 <= b.stage && a.work < work
    ensures Number(a, stages, work) < Number(b, stages, work)
  {
    var x, y := a.rounds * stages + a.stage, b.rounds * stages + b.stage;
    if a.rounds < b.rounds {
      Multiply(a.rounds + 1, b.rounds, stages);
      assert (a.rounds + 1) * stages == a.rounds * stages + stages;
    }
    if x < y {
      Multiply(x + 1, y, work);
      assert (x + 1) * work == x * work + work;
    }
  }

  lemma Multiply(x: int, y: int, z: nat)
    requires x <= y
    ensures x * z <= y * z
  {}

  /** A thread never has more to do than to hash the largest chunk. */
  lemma OneWorkBound(file: seq<Byte>, s: State, i: nat)
    requires Inv(file, s) && i < |s.threads|
    ensures ThreadWork(s.threads[i], |file|) <= |file| + 7
  {
    hide Flat;
    assert ThreadInv(s, s.threads[i], i);
    if s.threads[i].pc.Hashing? {
      PublishedChunk(file, s);
      ChunkFits(s.chunks, Published(s) - 1);
    }
  }

  lemma {:induction false} WorkBound(threads: seq<HashThread>, length: nat)
    requires forall i | 0 <= i < |threads| :: ThreadWork(threads[i], length) <= length + 7
    ensures AllWork(threads, length) <= |threads| * (length + 7)
  {
    if threads != [] {
      var n := |threads| - 1;
      hide ThreadWork;
      WorkBound(threads[..n], length);
      assert (n + 1) * (length + 7) == n * (length + 7) + (length + 7);
    }
  }

  lemma RankBounded(file: seq<Byte>, s: State)
    requires Inv(file, s)
    ensures var r := RankOf(file, s);
            && 0 <= r.rounds <= |file| && 0 <= r.stage < Stages(|s.threads|) && r.work < MostWork(|s.threads|, |file|)
  {
    RoundsBounded(file, s);
    forall i: nat | i < |s.threads| ensures ThreadWork(s.threads[i], |file|) <= |file| + 7 {
      OneWorkBound(file, s, i);
    }
    hide Inv, ThreadWork, AllWork;
    WorkBound(s.threads, |file|);
  }

  /** Whatever the interleaving and however its steps are chosen, each step of a run takes away from the number. */
  lemma {:induction false} RunIsShort(file: seq<Byte>, s: State, steps: seq<Step>, end: State)
    requires Inv(file, s) && Run(file, s, steps, end)
    ensures Inv(file, end) && |end.threads| == |s.threads|
    ensures var stages, work := Stages(|s.threads|), MostWork(|s.threads|, |file|);
            0 <= Number(RankOf(file, end), stages, work)
              <= Number(RankOf(file, s), stages, work) - Progress(steps)
    decreases |steps|
  {
    hide Inv, Flat, Number, Less, Enabled, MostWork, Stages;
    var stages, work := Stages(|s.threads|), MostWork(|s.threads|, |file|);
    if steps == [] {
      RankBounded(file, s);
      NotNegative(RankOf(file, s), stages, work);
    } else {
      var next := Apply(file, s, steps[0]);
      StepKeepsInv(file, s, steps[0]);
      StepKeepsThreads(file, s, steps[0]);
      OneStepLess(file, s, steps[0]);
      RunIsShort(file, next, steps[1..], end);
    }
  }

  lemma NotNegative(r: Rank, stages: nat, work: nat)
    requires 0 <= r.rounds && 0 <= r.stage
    ensures 0 <= Number(r, stages, work)
  {}

  lemma OneStepLess(file: seq<Byte>, s: State, step: Step)
    requires Inv(file, s) && WellShaped(s) && Enabled(file, s, step)
    requires |Apply(file, s, step).threads| == |s.threads|
    ensures var stages, work := Stages(|s.threads|), MostWork(|s.threads|, |file|);
            Number(RankOf(file, Apply(file, s, step)), stages, work)
              <= Number(RankOf(file, s), stages, work) - if step.IoGarbage? then 0 else 1
  {
    hide Inv, Flat, Number, Less, MostWork, Stages;
    if step.IoGarbage? {
      GarbageKeepsRank(file, s, step.garbage);
    } else {
      StepDecreases(file, s, step);
      RankBounded(file, s);
      RankBounded(file, Apply(file, s, step));
      LessIsLess(RankOf(file, Apply(file, s, step)), RankOf(file, s), Stages(|s.threads|),
        MostWork(|s.threads|, |file|));
    }
  }

  /** No run of n threads over a file, of any interleaving and with any number of arrivals in between, has more than so
      many other steps. */
  lemma FinitelyManySteps(file: seq<Byte>, n: nat, start: State, steps: seq<Step>, end: State)
    requires Init(start, n) && Run(file, start, steps, end)
    ensures Progress(steps) < (|file| + 1) * (n + 9) * (n * (|file| + 7) + 2)
  {
    InitInv(file, start, n);
    RunIsShort(file, start, steps, end);
    RankBounded(file, start);
    hide Inv, Run, Init;
    var r, stages, work := RankOf(file, start), Stages(n), MostWork(n, |file|);
    Multiply(r.rounds, |file|, stages);
    assert (|file| + 1) * stages == |file| * stages + stages;
    var x := r.rounds * stages + r.stage;
    Multiply(x + 1, (|file| + 1) * stages, work);
    assert (x + 1) * work == x * work + work;
  }
}
