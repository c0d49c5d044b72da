/**
 The pipeline makes progress: until the consumer has left its loop and drained the queue some thread can
 always do a piece of work, at most after a few looks at the state the threads share.
 */
module PipelineProgress {
  import opened Basics
  import opened Pipeline

  // ----- the threads and where each bevy is -----

  ghost function Alive(workers: seq<Worker>): set<nat> {
    set w | 0 <= w < |workers| && !workers[w].Gone?
  }

  predicate Waiting(q: State) {
    q.consumer.Seeking? || q.consumer.Asleep?
  }

  /** The reader has claimed the bevy and not sent it yet. */
  predicate Carries(reader: Reader, b: nat) {
    reader == Claimed(b) || reader == Loaded(b) || reader == Observed(b)
  }

  predicate Handles(worker: Worker, b: nat) {
    worker == Holding(b) || worker == Decoding(b)
  }

  ghost predicate WithReader(q: State, b: nat) {
    exists r :: 0 <= r < |q.readers| && Carries(q.readers[r], b)
  }

  ghost predicate WithWorker(q: State, b: nat) {
    exists w :: 0 <= w < |q.workers| && Handles(q.workers[w], b)
  }

  /** A claimed bevy is delivered, decoded, queued, or in some thread's hands. */
  ghost predicate Located(q: State, b: nat) {
    b < q.expected || b in q.ready || b in q.queue || WithReader(q, b) || WithWorker(q, b)
  }

  ghost predicate Shaped(s: Setup, q: State)
    requires s.st.Openable()
  {
    && |q.readers| == s.Readers() && |q.workers| == s.workers
    && q.live == |Alive(q.workers)|
    && 1 <= q.admitted <= s.Readers()
    && !q.readers[0].Parked?
    && q.expected <= s.Count()
  }

  /** While nothing has failed no claimed bevy is lost, and readers stop only when all are claimed. */
  ghost predicate Intact(s: Setup, q: State)
    requires s.st.Openable()
  {
    Waiting(q) && q.failure.None? ==>
      && (forall b :: 0 <= b < Min(q.next, s.Count()) ==> Located(q, b))
      && (forall r :: 0 <= r < |q.readers| && q.readers[r].Stopped? ==> q.next > s.Count())
  }

  /** The consumer sleeps only on a bevy that is not ready, while some worker lives to wake it. */
  ghost predicate SleepsSoundly(s: Setup, q: State)
    requires s.st.Openable()
  {
    q.consumer.Asleep? ==>
      && q.wanted == q.expected < s.Count() && |q.out| < s.st.size
      && q.expected !in q.ready && q.live > 0
  }

  ghost predicate Inv(s: Setup, q: State)
    requires s.st.Openable()
  {
    Shaped(s, q) && Intact(s, q) && SleepsSoundly(s, q) && Settled(q)
  }

  lemma AliveUpdate(workers: seq<Worker>, w: nat, x: Worker)
    requires w < |workers| && !workers[w].Gone?
    ensures Alive(workers[w := x]) == if x.Gone? then Alive(workers) - {w} else Alive(workers)
  {
  }

  lemma ShapedReader(s: Setup, q: State, a: Action)
    requires s.st.Openable() && Shaped(s, q) && Enabled(s, q, a)
    requires OfReader(a)
    ensures Shaped(s, NextReader(s, q, a))
  {
  }

  lemma ShapedWorker(s: Setup, q: State, a: Action)
    requires s.st.Openable() && Shaped(s, q) && Enabled(s, q, a)
    requires OfWorker(a)
    ensures Shaped(s, NextWorker(s, q, a))
  {
    var q' := NextWorker(s, q, a);
    AliveUpdate(q.workers, a.w, q'.workers[a.w]);
    assert q'.workers == q.workers[a.w := q'.workers[a.w]];
    if a.Exit? {
      assert a.w in Alive(q.workers);
    }
  }

  lemma ShapedStep(s: Setup, q: State, a: Action)
    requires s.st.Openable() && Shaped(s, q) && Enabled(s, q, a)
    ensures Shaped(s, Next(s, q, a))
  {
    if OfReader(a) {
      ShapedReader(s, q, a);
    } else if OfWorker(a) {
      ShapedWorker(s, q, a);
    }
  }

  lemma ReaderHolds(q: State, r: nat, b: nat)
    requires r < |q.readers| && Carries(q.readers[r], b)
    ensures Located(q, b)
  {
  }

  lemma WorkerHolds(q: State, w: nat, b: nat)
    requires w < |q.workers| && Handles(q.workers[w], b)
    ensures Located(q, b)
  {
  }

  lemma CarriedStays(s: Setup, q: State, a: Action, r: nat, b: nat)
    requires s.st.Openable() && Enabled(s, q, a) && OfReader(a)
    requires r < |q.readers| && Carries(q.readers[r], b) && NextReader(s, q, a).failure.None?
    ensures Located(NextReader(s, q, a), b)
  {
    var q' := NextReader(s, q, a);
    if r != a.r {
      ReaderHolds(q', r, b);
    } else if a.Send? {
      assert q'.queue[|q.queue|] == b;
    } else {
      assert a.Read? || a.Observe?;
      ReaderHolds(q', r, b);
    }
  }

  /** A reader's action loses no bevy. */
  lemma LocatedReader(s: Setup, q: State, a: Action, b: nat)
    requires s.st.Openable() && Enabled(s, q, a) && OfReader(a)
    requires Located(q, b) && NextReader(s, q, a).failure.None?
    ensures Located(NextReader(s, q, a), b)
  {
    var q' := NextReader(s, q, a);
    if r :| 0 <= r < |q.readers| && Carries(q.readers[r], b) {
      CarriedStays(s, q, a, r, b);
    } else if w :| 0 <= w < |q.workers| && Handles(q.workers[w], b) {
      WorkerHolds(q', w, b);
    } else if b in q.queue {
      var i :| 0 <= i < |q.queue| && q.queue[i] == b;
      assert q'.queue[i] == b;
    }
  }

  lemma LocatedWorker(s: Setup, q: State, a: Action, b: nat)
    requires s.st.Openable() && Enabled(s, q, a) && !q.closed
    requires OfWorker(a)
    requires Located(q, b) && NextWorker(s, q, a).failure.None?
    ensures Located(NextWorker(s, q, a), b)
  {
    var q' := NextWorker(s, q, a);
    if w :| 0 <= w < |q.workers| && Handles(q.workers[w], b) {
      if !(w == a.w && a.Decode?) {
        WorkerHolds(q', w, b);
      }
    } else if r :| 0 <= r < |q.readers| && Carries(q.readers[r], b) {
      ReaderHolds(q', r, b);
    } else if b in q.queue {
      var i :| 0 <= i < |q.queue| && q.queue[i] == b;
      if a.Take? {
        if i == 0 {
          WorkerHolds(q', a.w, b);
        } else {
          assert q'.queue[i - 1] == b;
        }
      }
    }
  }

  lemma LocatedConsumer(s: Setup, q: State, a: Action, b: nat)
    requires s.st.Openable() && Enabled(s, q, a)
    requires OfConsumer(a) && Waiting(NextConsumer(s, q, a)) && Located(q, b)
    ensures Located(NextConsumer(s, q, a), b)
  {
    var q' := NextConsumer(s, q, a);
    if r :| 0 <= r < |q.readers| && Carries(q.readers[r], b) {
      ReaderHolds(q', r, b);
    } else if w :| 0 <= w < |q.workers| && Handles(q.workers[w], b) {
      WorkerHolds(q', w, b);
    }
  }

  lemma IntactReader(s: Setup, q: State, a: Action)
    requires s.st.Openable() && Inv(s, q) && Enabled(s, q, a)
    requires OfReader(a)
    ensures Intact(s, NextReader(s, q, a))
  {
    var q' := NextReader(s, q, a);
    if Waiting(q') && q'.failure.None? {
      forall b | 0 <= b < Min(q'.next, s.Count())
        ensures Located(q', b)
      {
        if b < q.next {
          LocatedReader(s, q, a, b);
        } else {
          ReaderHolds(q', a.r, b);
        }
      }
      forall r | 0 <= r < |q'.readers| && q'.readers[r].Stopped?
        ensures q'.next > s.Count()
      {
        if r != a.r {
          assert q.readers[r].Stopped?;
        }
      }
    }
  }

  lemma IntactStep(s: Setup, q: State, a: Action)
    requires s.st.Openable() && Inv(s, q) && Enabled(s, q, a)
    ensures Intact(s, Next(s, q, a))
  {
    var q' := Next(s, q, a);
    if OfReader(a) {
      IntactReader(s, q, a);
    } else if Waiting(q') && q'.failure.None? {
      forall b | 0 <= b < Min(q'.next, s.Count())
        ensures Located(q', b)
      {
        if OfConsumer(a) {
          LocatedConsumer(s, q, a, b);
        } else {
          LocatedWorker(s, q, a, b);
        }
      }
    }
  }

  lemma SleepsWorker(s: Setup, q: State, a: Action)
    requires s.st.Openable() && Shaped(s, q) && SleepsSoundly(s, q) && OfWorker(a) && WorkerEnabled(q, a)
    ensures SleepsSoundly(s, NextWorker(s, q, a))
  {
    var q' := NextWorker(s, q, a);
    assert q'.wanted == q.wanted && q'.expected == q.expected && q'.out == q.out;
    assert q'.consumer.Asleep? ==> q'.ready == q.ready && q'.live == q.live;
  }

  lemma SleepsStep(s: Setup, q: State, a: Action)
    requires s.st.Openable() && Inv(s, q) && Enabled(s, q, a)
    ensures SleepsSoundly(s, Next(s, q, a))
  {
    if OfReader(a) {
      var q' := NextReader(s, q, a);
      assert q'.wanted == q.wanted && q'.expected == q.expected && q'.out == q.out && q'.ready == q.ready;
      assert q'.live == q.live && q'.consumer == q.consumer;
    } else if OfWorker(a) {
      SleepsWorker(s, q, a);
    }
  }

  lemma InvInit(s: Setup)
    requires s.Arranged()
    ensures Inv(s, Init(s))
  {
    AliveRepeat(s.workers);
  }

  lemma {:induction false} AliveRepeat(n: nat)
    ensures |Alive(Repeat(Idle, n))| == n
  {
    if n == 0 {
      assert Alive(Repeat(Idle, 0)) == {};
    } else {
      AliveRepeat(n - 1);
      assert Alive(Repeat(Idle, n)) == Alive(Repeat(Idle, n - 1)) + {n - 1};
    }
  }

  lemma InvStep(s: Setup, q: State, a: Action)
    requires s.st.Openable() && Inv(s, q) && Enabled(s, q, a)
    ensures Inv(s, Next(s, q, a))
  {
    ShapedStep(s, q, a);
    IntactStep(s, q, a);
    SleepsStep(s, q, a);
  }

  lemma {:induction false} InvRun(s: Setup, q: State, run: seq<Action>)
    requires s.st.Openable() && Inv(s, q) && Feasible(s, q, run)
    ensures Inv(s, After(s, q, run))
    decreases |run|
  {
    if run != [] {
      InvStep(s, q, run[0]);
      InvRun(s, Next(s, q, run[0]), run[1..]);
    }
  }

  // ----- some thread can work -----

  /** Steps that only look at shared state, and wake-ups that find nothing: a thread may take them forever. */
  predicate Polling(s: Setup, q: State, a: Action)
    requires s.st.Openable() && Enabled(s, q, a)
  {
    || a.Park? || a.Clear? || a.Allow? || a.Gauge? || a.Retry? || a.FindEmpty? || a.Nap? || a.Stir?
    || (a.Look? && Next(s, q, a).consumer.Asleep?)
  }

  /** The steps of a run that did some work. */
  function Steps(s: Setup, q: State, run: seq<Action>): nat
    requires s.st.Openable() && Feasible(s, q, run)
    decreases |run|
  {
    if run == [] then 0
    else (if Polling(s, q, run[0]) then 0 else 1) + Steps(s, Next(s, q, run[0]), run[1..])
  }

  /** The most looks a thread takes before it works. */
  const PATIENCE: nat := 5

  /** From here a thread works, after a few looks at most. */
  ghost predicate Works(s: Setup, q: State, run: seq<Action>)
    requires s.st.Openable()
  {
    Feasible(s, q, run) && |run| <= PATIENCE + 1 && Steps(s, q, run) == 1
  }

  lemma Working(s: Setup, q: State, a: Action) returns (run: seq<Action>)
    requires s.st.Openable() && Enabled(s, q, a) && !Polling(s, q, a)
    ensures Works(s, q, run) && |run| == 1
  {
    run := [a];
  }

  /** One look first. */
  lemma LookFirst(s: Setup, q: State, look: Action, rest: seq<Action>) returns (run: seq<Action>)
    requires s.st.Openable() && Enabled(s, q, look) && Polling(s, q, look)
    requires Works(s, Next(s, q, look), rest) && |rest| <= PATIENCE
    ensures Works(s, q, run) && |run| == |rest| + 1
  {
    run := [look] + rest;
    assert run[1..] == rest;
  }

  /** A live worker has something to do unless it is idle over an empty queue. */
  lemma WorkerCanWork(s: Setup, q: State, w: nat) returns (run: seq<Action>)
    requires s.st.Openable() && Shaped(s, q)
    requires w < |q.workers| && !q.workers[w].Gone?
    requires q.workers[w].Idle? || q.workers[w].Starved? ==> q.queue != [] || Stopping(q)
    ensures Works(s, q, run) && |run| <= 2
  {
    match q.workers[w] {
      case Idle =>
        if q.queue != [] {
          run := Working(s, q, Take(w));
        } else if AllStopped(q.readers) {
          run := Working(s, q, LeaveIdle(w));
        } else {
          run := Working(s, Next(s, q, FindEmpty(w)), LeaveIdle(w));
          run := LookFirst(s, q, FindEmpty(w), run);
        }
      case Starved =>
        if Stopping(q) {
          run := Working(s, q, LeaveIdle(w));
        } else {
          run := Working(s, Next(s, q, Nap(w)), Take(w));
          run := LookFirst(s, q, Nap(w), run);
        }
      case Holding(_) => run := Working(s, q, Check(w));
      case Decoding(_) => run := Working(s, q, Decode(w));
      case Leaving =>
        assert w in Alive(q.workers);
        run := Working(s, q, Exit(w));
    }
  }

  /** A reader that carries a bevy can move it on, if the queue has room. */
  lemma CarrierCanWork(s: Setup, q: State, r: nat) returns (run: seq<Action>)
    requires s.st.Openable() && Shaped(s, q) && r < |q.readers|
    requires q.readers[r].Claimed? || q.readers[r].Loaded? || (q.readers[r].Observed? && |q.queue| < s.depth)
    ensures Works(s, q, run) && |run| == 1
  {
    match q.readers[r] {
      case Claimed(_) => run := Working(s, q, Read(r));
      case Loaded(_) => run := Working(s, q, Observe(r, None));
      case Observed(_) => run := Working(s, q, Send(r));
    }
  }

  /** How many looks a reader has before it on its way to the next bevy. */
  function LooksLeft(reader: Reader): nat {
    match reader
    case Looking => 3
    case Cleared => 2
    case Allowed => 1
    case _ => 0
  }

  /** The first reader, always admitted, on its way to the next bevy. */
  lemma FirstReaderPasses(s: Setup, q: State) returns (run: seq<Action>)
    requires s.Arranged() && Shaped(s, q) && !Stopping(q) && q.next < q.wanted + s.lookahead
    requires q.readers[0].Looking? || q.readers[0].Cleared? || q.readers[0].Allowed?
    ensures Works(s, q, run) && |run| <= 4
    ensures |run| == LooksLeft(q.readers[0]) + 1
    decreases LooksLeft(q.readers[0])
  {
    match q.readers[0] {
      case Allowed =>
        run := Working(s, Next(s, q, Gauge(0)), Pass(0));
        run := LookFirst(s, q, Gauge(0), run);
      case Cleared =>
        run := FirstReaderPasses(s, Next(s, q, Allow(0)));
        run := LookFirst(s, q, Allow(0), run);
      case Looking =>
        run := FirstReaderPasses(s, Next(s, q, Clear(0)));
        run := LookFirst(s, q, Clear(0), run);
    }
  }

  /** With the bevy due next unclaimed, the gate is open and the first reader can work. */
  lemma FirstReaderWorks(s: Setup, q: State) returns (run: seq<Action>)
    requires s.Arranged() && Inv(s, q) && q.consumer.Asleep?
    requires !Stopping(q) && q.queue == [] && q.next <= q.expected
    ensures Works(s, q, run) && |run| <= PATIENCE
  {
    match q.readers[0] {
      case Unopened => run := Working(s, q, Enter(0));
      case Opening => run := Working(s, q, Open(0));
      case Gauged(limit) =>
        if q.next < limit {
          run := Working(s, q, Pass(0));
        } else {
          run := FirstReaderPasses(s, Next(s, q, Retry(0)));
          run := LookFirst(s, q, Retry(0), run);
        }
      case Passed => run := Working(s, q, Claim(0));
      case Claimed(_) => run := CarrierCanWork(s, q, 0);
      case Loaded(_) => run := CarrierCanWork(s, q, 0);
      case Observed(_) => run := CarrierCanWork(s, q, 0);
      case _ => run := FirstReaderPasses(s, q);
    }
  }

  /** The bevy the consumer sleeps on is always on its way. */
  lemma SleeperIsServed(s: Setup, q: State) returns (run: seq<Action>)
    requires s.Arranged() && Inv(s, q) && q.consumer.Asleep?
    ensures Works(s, q, run) && |run| <= PATIENCE
  {
    assert Alive(q.workers) != {};
    var w :| w in Alive(q.workers);
    if q.queue != [] || q.failure.Some? {
      run := WorkerCanWork(s, q, w);
    } else if busy :| 0 <= busy < |q.workers| && !q.workers[busy].Gone? && !q.workers[busy].Idle? && !q.workers[busy].Starved? {
      run := WorkerCanWork(s, q, busy);
    } else if q.expected < q.next {
      assert Located(q, q.expected);
      var r :| 0 <= r < |q.readers| && Carries(q.readers[r], q.expected);
      run := CarrierCanWork(s, q, r);
    } else {
      run := FirstReaderWorks(s, q);
    }
  }

  /** Until the consumer has finished and drained the queue some thread can work: the pipeline never deadlocks. */
  lemma NeverStuckBeforeJoining(s: Setup, q: State) returns (run: seq<Action>)
    requires s.Arranged() && Inv(s, q) && !q.consumer.Joining?
    ensures Works(s, q, run)
  {
    match q.consumer {
      case Seeking =>
        if Next(s, q, Look(None)).consumer.Asleep? {
          InvStep(s, q, Look(None));
          run := SleeperIsServed(s, Next(s, q, Look(None)));
          run := LookFirst(s, q, Look(None), run);
        } else {
          run := Working(s, q, Look(None));
        }
      case Asleep => run := SleeperIsServed(s, q);
      case Finished => run := Working(s, q, Close);
      case Draining => run := Working(s, q, if q.queue != [] then Drain else EndDrain);
    }
  }
}
