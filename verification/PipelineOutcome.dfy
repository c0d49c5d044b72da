/**
 How a pipelined read ends (read_all_parallel in src/parallel.rs): exactly when it succeeds, whatever the
 interleaving, and where it departs from the serial read.
 */
module PipelineOutcome {
  import opened Basics
  import opened Deliveries
  import opened Streams
  import opened Pipeline
  import opened PipelineProgress

  // ----- nothing damaged -----

  /** Every bevy can be read and decodes whole. */
  ghost predicate Undamaged(s: Setup)
    requires s.st.Openable()
  {
    forall b :: 0 <= b < s.Count() ==> s.Decodes(b) && s.Readable(b)
  }

  ghost predicate AllOpen(s: Setup) {
    forall r :: 0 <= r < s.Readers() ==> s.opens[r]
  }

  /** Bevies in any thread's hands are the stream's. */
  ghost predicate InRange(s: Setup, q: State)
    requires s.st.Openable()
  {
    && (forall r :: 0 <= r < |q.readers| && (q.readers[r].Claimed? || q.readers[r].Loaded? || q.readers[r].Observed?) ==>
          q.readers[r].bevy < s.Count())
    && (forall b :: b in q.queue ==> b < s.Count())
    && (forall w :: 0 <= w < |q.workers| && (q.workers[w].Holding? || q.workers[w].Decoding?) ==> q.workers[w].bevy < s.Count())
    && (forall b :: b in q.ready ==> b < s.Count())
  }

  predicate HoldsBevy(reader: Reader) {
    reader.Claimed? || reader.Loaded? || reader.Observed?
  }

  lemma InRangeKept(s: Setup, q: State, q': State, r: nat, x: Reader)
    requires s.st.Openable() && InRange(s, q) && r < |q.readers| && q'.readers == q.readers[r := x]
    requires q'.workers == q.workers && q'.ready == q.ready && (HoldsBevy(x) ==> x.bevy < s.Count())
    requires q'.queue == q.queue || (q.readers[r].Observed? && q'.queue == q.queue + [q.readers[r].bevy])
    ensures InRange(s, q')
  {
  }

  lemma InRangeReader(s: Setup, q: State, a: Action)
    requires s.st.Openable() && InRange(s, q) && Enabled(s, q, a)
    requires OfReader(a)
    ensures InRange(s, NextReader(s, q, a))
  {
    var q' := NextReader(s, q, a);
    InRangeKept(s, q, q', a.r, q'.readers[a.r]);
  }

  lemma InRangeWorker(s: Setup, q: State, a: Action)
    requires s.st.Openable() && InRange(s, q) && Enabled(s, q, a)
    requires OfWorker(a)
    ensures InRange(s, NextWorker(s, q, a))
  {
    if a.Take? {
      assert forall b :: b in q.queue[1..] ==> b in q.queue;
      assert q.queue[0] in q.queue;
    }
  }

  lemma InRangeStep(s: Setup, q: State, a: Action)
    requires s.st.Openable() && InRange(s, q) && Enabled(s, q, a)
    ensures InRange(s, Next(s, q, a))
  {
    if OfReader(a) {
      InRangeReader(s, q, a);
    } else if OfWorker(a) {
      InRangeWorker(s, q, a);
    } else if a.Drain? {
      assert forall b :: b in q.queue[1..] ==> b in q.queue;
    }
  }

  lemma NoFailureStep(s: Setup, q: State, a: Action)
    requires s.st.Openable() && InRange(s, q) && Enabled(s, q, a)
    requires Undamaged(s) && AllOpen(s)
    requires q.failure.None?
    ensures Next(s, q, a).failure.None?
  {
    if a.Read? {
      assert s.Readable(q.readers[a.r].bevy);
    } else if a.Decode? {
      assert s.Decodes(q.workers[a.w].bevy);
    } else if a.Open? {
      assert s.opens[a.r];
    }
  }

  /** While nothing has failed a worker leaves only after every reader has, over an empty queue. */
  ghost predicate LeavesLast(q: State) {
    Waiting(q) && q.failure.None? && (exists w :: 0 <= w < |q.workers| && HasLeft(q.workers[w])) ==>
      AllStopped(q.readers) && q.queue == []
  }

  predicate HasLeft(worker: Worker) {
    worker.Leaving? || worker.Gone?
  }

  /** A worker that leaves while nothing has failed finds the readers stopped and the queue empty. */
  lemma LeavesLastWorker(s: Setup, q: State, a: Action)
    requires s.st.Openable() && Settled(q) && LeavesLast(q) && OfWorker(a) && WorkerEnabled(q, a)
    ensures LeavesLast(NextWorker(s, q, a))
  {
    var q' := NextWorker(s, q, a);
    if Waiting(q') && q'.failure.None? {
      assert Waiting(q) && !Stopping(q) && q'.readers == q.readers;
      if w :| 0 <= w < |q.workers| && HasLeft(q.workers[w]) {
        assert AllStopped(q.readers) && q.queue == [];
      } else if w :| 0 <= w < |q'.workers| && HasLeft(q'.workers[w]) {
        assert w == a.w && a.LeaveIdle?;
      }
    }
  }

  lemma LeavesLastStep(s: Setup, q: State, a: Action)
    requires s.st.Openable() && Inv(s, q) && LeavesLast(q) && Enabled(s, q, a)
    ensures LeavesLast(Next(s, q, a))
  {
    if OfReader(a) {
      LeavesLastReader(s, q, a);
    } else if OfWorker(a) {
      LeavesLastWorker(s, q, a);
    } else {
      var q' := NextConsumer(s, q, a);
      assert q'.readers == q.readers && q'.workers == q.workers && q'.failure == q.failure;
      assert Waiting(q') ==> Waiting(q) && q'.queue == q.queue;
    }
  }

  lemma LeavesLastReader(s: Setup, q: State, a: Action)
    requires s.st.Openable() && LeavesLast(q) && OfReader(a) && ReaderEnabled(s, q, a)
    ensures LeavesLast(NextReader(s, q, a))
  {
    var q' := NextReader(s, q, a);
    assert q'.workers == q.workers && q'.consumer == q.consumer && !q.readers[a.r].Stopped?;
  }

  /** With nothing failed, a consumer that has left its loop had delivered everything. */
  ghost predicate EndsComplete(s: Setup, q: State)
    requires s.st.Openable()
  {
    !Waiting(q) && q.failure.None? && q.error.None? ==> Complete(s, q)
  }

  lemma EndsCompleteStep(s: Setup, q: State, a: Action)
    requires s.Arranged() && Inv(s, q) && LeavesLast(q) && EndsComplete(s, q) && Enabled(s, q, a)
    ensures EndsComplete(s, Next(s, q, a))
  {
    var q' := Next(s, q, a);
    if a.Look? && !Complete(s, q) && q.expected !in q.ready && q.failure.None? && q.live == 0 {
      NoneLiveIsImpossible(s, q);
    }
  }

  lemma NoneLiveIsImpossible(s: Setup, q: State)
    requires s.Arranged() && Inv(s, q) && LeavesLast(q)
    requires Waiting(q) && q.failure.None? && !Complete(s, q) && q.expected !in q.ready
    ensures q.live > 0
  {
    if q.live == 0 {
      assert Alive(q.workers) == {};
      forall w | 0 <= w < |q.workers|
        ensures q.workers[w].Gone?
      {
        assert w !in Alive(q.workers);
      }
      assert q.workers[0].Gone?;
      assert q.readers[0].Stopped?;
      Nowhere(q, q.expected);
    }
  }

  lemma Nowhere(q: State, b: nat)
    requires AllStopped(q.readers) && AllGone(q.workers) && q.queue == []
    requires b >= q.expected && b !in q.ready
    ensures !Located(q, b)
  {
  }

  /** What holds in every state a run reaches. */
  ghost predicate Orderly(s: Setup, q: State)
    requires s.st.Openable()
  {
    Safe(s, q) && Inv(s, q) && InRange(s, q) && LeavesLast(q) && EndsComplete(s, q)
  }

  lemma OrderlyStep(s: Setup, q: State, a: Action)
    requires s.Arranged() && Orderly(s, q) && Enabled(s, q, a)
    ensures Orderly(s, Next(s, q, a))
  {
    SafeStep(s, q, a);
    InvStep(s, q, a);
    InRangeStep(s, q, a);
    LeavesLastStep(s, q, a);
    EndsCompleteStep(s, q, a);
  }

  lemma {:induction false} OrderlyOn(s: Setup, q: State, run: seq<Action>)
    requires s.Arranged() && Orderly(s, q) && Feasible(s, q, run)
    ensures Orderly(s, After(s, q, run))
    decreases |run|
  {
    if run != [] {
      OrderlyStep(s, q, run[0]);
      OrderlyOn(s, Next(s, q, run[0]), run[1..]);
    }
  }

  lemma OrderlyInit(s: Setup)
    requires s.Arranged()
    ensures Orderly(s, Init(s))
  {
    SafeInit(s);
    InvInit(s);
  }

  lemma OrderlyRun(s: Setup, run: seq<Action>)
    requires s.Arranged() && Feasible(s, Init(s), run)
    ensures Orderly(s, After(s, Init(s), run))
  {
    OrderlyInit(s);
    OrderlyOn(s, Init(s), run);
  }

  lemma {:induction false} NoFailureRun(s: Setup, q: State, run: seq<Action>)
    requires s.Arranged() && Undamaged(s) && AllOpen(s)
    requires Orderly(s, q) && q.failure.None? && Feasible(s, q, run)
    ensures After(s, q, run).failure.None?
    decreases |run|
  {
    if run != [] {
      OrderlyStep(s, q, run[0]);
      NoFailureStep(s, q, run[0]);
      NoFailureRun(s, Next(s, q, run[0]), run[1..]);
    }
  }

  // ----- what was delivered bounds how far the consumer got -----

  /** The chunks still to come, each at most a chunk long. */
  lemma {:induction false} SerialChunksLength(st: ImageStream, chunks: seq<Option<seq<Byte>>>, i: nat, delivered: nat, room: nat)
    requires BoundedChunks(st, chunks) && i <= |chunks|
    requires room == (|chunks| - i) * st.chunkSize
    ensures |SerialChunks(st, chunks, i, delivered).bytes| <= room
    decreases |chunks| - i
  {
    if !(i == |chunks| || delivered >= st.size) && chunks[i].Some? && !ShortAt(st, |chunks[i].value|, delivered) {
      var piece := chunks[i].value[..Min(|chunks[i].value|, st.size - delivered)];
      MulSucc(|chunks| - (i + 1), st.chunkSize);
      SerialChunksLength(st, chunks, i + 1, delivered + |piece|, room - st.chunkSize);
    }
  }

  lemma BevyLength(st: ImageStream, bevies: Bevies, b: nat, delivered: nat)
    requires st.Openable() && Bounded(st, bevies) && BevyAt(bevies, b).Held?
    ensures |SerialChunks(st, BevyAt(bevies, b).chunks, 0, delivered).bytes| <= st.chunkSize * st.chunksInSegment
  {
    var chunks := BevyAt(bevies, b).chunks;
    assert BoundedChunks(st, bevies[b].chunks);
    MulMonotone(|chunks|, st.chunksInSegment, st.chunkSize);
    SerialChunksLength(st, chunks, 0, delivered, |chunks| * st.chunkSize);
  }

  ghost predicate OutBound(s: Setup, q: State) {
    q.error.None? ==> |q.out| <= q.expected * (s.st.chunkSize * s.st.chunksInSegment)
  }

  lemma OutBoundStep(s: Setup, q: State, a: Action)
    requires s.st.Openable() && Bounded(s.st, s.bevies)
    requires OutBound(s, q) && Enabled(s, q, a)
    requires q.consumer.Seeking? ==> q.error.None?
    ensures OutBound(s, Next(s, q, a))
  {
    var q' := Next(s, q, a);
    if a.Look? && !Complete(s, q) && q.expected in q.ready && BevyAt(s.bevies, q.expected).Held? {
      BevyLength(s.st, s.bevies, q.expected, |q.out|);
      MulSucc(q.expected, s.st.chunkSize * s.st.chunksInSegment);
    } else {
      assert q'.error.None? ==> q'.out == q.out && q'.expected == q.expected && q.error.None?;
    }
  }

  lemma {:induction false} OutBoundRun(s: Setup, q: State, run: seq<Action>)
    requires s.st.Openable() && Bounded(s.st, s.bevies)
    requires Safe(s, q) && OutBound(s, q) && Feasible(s, q, run)
    ensures OutBound(s, After(s, q, run))
    decreases |run|
  {
    if run != [] {
      SafeStep(s, q, run[0]);
      OutBoundStep(s, q, run[0]);
      OutBoundRun(s, Next(s, q, run[0]), run[1..]);
    }
  }

  /** A stream's declared size needs every one of its bevies. */
  lemma EveryBevyNeeded(st: ImageStream, b: nat)
    requires st.Openable() && b < st.BevyCount()
    ensures b * (st.chunkSize * st.chunksInSegment) < st.size
  {
    var per := st.chunkSize * st.chunksInSegment;
    MulMonotone(1, st.chunkSize, st.chunksInSegment);
    assert per >= 1;
    DivCeilBounds(st.size, per);
    MulMonotone(b + 1, st.BevyCount(), per);
    assert (b + 1) * per == b * per + per;
  }

  // ----- the verdict -----

  /** A read that reports success has read and decoded every bevy. */
  lemma SuccessNeedsEveryBevy(s: Setup, run: seq<Action>)
    requires s.Arranged() && Bounded(s.st, s.bevies) && Feasible(s, Init(s), run)
    requires Verdict(s, After(s, Init(s), run)).None?
    ensures Undamaged(s)
  {
    SafeInit(s);
    SafeRun(s, Init(s), run);
    OutBoundRun(s, Init(s), run);
    var q := After(s, Init(s), run);
    if q.expected < s.Count() {
      EveryBevyNeeded(s.st, q.expected);
    }
  }

  /**
   When every reader's handle opens and the sink accepts everything, a finished run succeeds exactly when
   every bevy can be read and decodes whole and the serial read succeeds. The order the threads take decides
   nothing, and what is delivered is what the serial read delivers.
   */
  lemma SucceedsExactlyWhen(s: Setup, run: seq<Action>)
    requires s.Arranged() && Bounded(s.st, s.bevies) && AllOpen(s) && s.steady
    requires Feasible(s, Init(s), run) && !Waiting(After(s, Init(s), run))
    ensures Verdict(s, After(s, Init(s), run)).None? <==> Undamaged(s) && SerialRead(s.st, s.bevies).Whole()
    ensures Verdict(s, After(s, Init(s), run)).None? ==>
            After(s, Init(s), run).out == SerialRead(s.st, s.bevies).bytes
  {
    var q := After(s, Init(s), run);
    if Verdict(s, q).None? {
      SuccessNeedsEveryBevy(s, run);
      SuccessIsSerial(s, run);
    }
    if Undamaged(s) && SerialRead(s.st, s.bevies).Whole() {
      OrderlyRun(s, run);
      OrderlyInit(s);
      NoFailureRun(s, Init(s), run);
      SteadyRun(s, Init(s), run);
      assert q.error.None?;
      assert SerialBevies(s.st, s.bevies, q.expected, s.Count(), |q.out|) == Nothing();
      assert q.out + [] == q.out;
    }
  }

  /** A steady sink is never the one to refuse. */
  lemma {:induction false} SteadyRun(s: Setup, q: State, run: seq<Action>)
    requires s.st.Openable() && s.steady && q.error != Some(SinkRefused) && Feasible(s, q, run)
    ensures After(s, q, run).error != Some(SinkRefused)
    decreases |run|
  {
    if run != [] {
      SteadyRun(s, Next(s, q, run[0]), run[1..]);
    }
  }

  // ----- where it departs from the serial read -----

  const SURPLUS_STREAM := ImageStream("aff4://s", 5, 1, 2)

  /** The last bevy lists one chunk more than the stream's size calls for, and that chunk will not decode. */
  const SURPLUS_BEVIES: Bevies :=
    [Held([Some([1]), Some([2])], true, 2), Held([Some([3]), Some([4])], true, 2), Held([Some([5]), None], true, 2)]

  /**
   The pipeline is not quite the serial read. A chunk listed past the stream's declared end, which the serial
   read never decodes, fails every pipelined run if it will not decode.
   */
  lemma SurplusChunkFails(s: Setup, run: seq<Action>)
    requires s.Arranged() && s.st == SURPLUS_STREAM && s.bevies == SURPLUS_BEVIES
    requires Feasible(s, Init(s), run)
    ensures Verdict(s, After(s, Init(s), run)).Some?
    ensures SerialRead(s.st, s.bevies) == Bytes([1, 2, 3, 4, 5])
  {
    SurplusReadSerially();
    assert s.Count() == 3;
    assert Bounded(s.st, s.bevies);
    assert BevyAt(s.bevies, 2).chunks[1].None?;
    assert !s.Decodes(2);
    if Verdict(s, After(s, Init(s), run)).None? {
      SuccessNeedsEveryBevy(s, run);
    }
  }

  lemma SurplusReadSerially()
    ensures SerialRead(SURPLUS_STREAM, SURPLUS_BEVIES) == Bytes([1, 2, 3, 4, 5])
  {
    var st, bevies := SURPLUS_STREAM, SURPLUS_BEVIES;
    assert st.BevyCount() == 3;
    assert SerialChunks(st, bevies[2].chunks, 1, 5) == Nothing();
    assert SerialChunks(st, bevies[2].chunks, 0, 4) == Bytes([5]);
    assert SerialBevies(st, bevies, 3, 3, 5) == Nothing();
    assert SerialBevies(st, bevies, 2, 3, 4) == Bytes([5]);
    assert SerialChunks(st, bevies[1].chunks, 1, 3) == Bytes([4]);
    assert SerialChunks(st, bevies[1].chunks, 0, 2) == Bytes([3, 4]);
    assert SerialBevies(st, bevies, 1, 3, 2) == Bytes([3, 4, 5]);
    assert SerialChunks(st, bevies[0].chunks, 1, 1) == Bytes([2]);
    assert SerialChunks(st, bevies[0].chunks, 0, 0) == Bytes([1, 2]);
  }
}
