/**
 Ending a pipelined read (the scope's end in read_all_parallel, src/parallel.rs). The work in a run is bounded,
 and a run whose committed readers the queue can seat can always be carried on until every thread is joined.
 */
module PipelineShutdown {
  import opened Basics
  import opened Pipeline
  import opened PipelineProgress

  // ----- the work in a run is bounded -----

  function ReaderWeight(r: Reader): nat {
    match r
    case Unopened => 6
    case Parked => 6
    case Opening => 5
    case Looking => 4
    case Cleared => 4
    case Allowed => 4
    case Gauged(_) => 4
    case Passed => 3
    case Claimed(_) => 31
    case Loaded(_) => 30
    case Observed(_) => 29
    case Stopped => 0
  }

  function WorkerWeight(w: Worker): nat {
    match w
    case Idle => 5
    case Starved => 5
    case Holding(_) => 20
    case Decoding(_) => 19
    case Leaving => 4
    case Gone => 0
  }

  function ConsumerWeight(c: Consumer): nat {
    match c
    case Seeking => 12
    case Asleep => 12
    case Finished => 8
    case Draining => 6
    case Joining => 0
  }

  function ReadersWeight(readers: seq<Reader>): nat {
    if readers == [] then 0 else ReaderWeight(readers[0]) + ReadersWeight(readers[1..])
  }

  function WorkersWeight(workers: seq<Worker>): nat {
    if workers == [] then 0 else WorkerWeight(workers[0]) + WorkersWeight(workers[1..])
  }

  /** What is left to do: all work uses some of it up, and no look adds to it. */
  function Remaining(s: Setup, q: State): nat
    requires s.st.Openable()
  {
    30 * Max(0, s.Count() - q.next) + ReadersWeight(q.readers) + WorkersWeight(q.workers)
    + 20 * |q.queue| + 8 * |q.ready| + ConsumerWeight(q.consumer)
  }

  /** Work lowers what remains; a look leaves it as it was. */
  ghost predicate UsedUp(s: Setup, q: State, a: Action, q': State)
    requires s.st.Openable() && Enabled(s, q, a)
  {
    if Polling(s, q, a) then Remaining(s, q') == Remaining(s, q) else Remaining(s, q') < Remaining(s, q)
  }

  lemma {:induction false} ReadersWeightUpdate(readers: seq<Reader>, r: nat, x: Reader)
    requires r < |readers|
    ensures ReadersWeight(readers[r := x]) + ReaderWeight(readers[r]) == ReadersWeight(readers) + ReaderWeight(x)
  {
    var updated := readers[r := x];
    if r == 0 {
      assert updated[1..] == readers[1..];
    } else {
      assert updated[1..] == readers[1..][r - 1 := x];
      ReadersWeightUpdate(readers[1..], r - 1, x);
    }
  }

  lemma {:induction false} WorkersWeightUpdate(workers: seq<Worker>, w: nat, x: Worker)
    requires w < |workers|
    ensures WorkersWeight(workers[w := x]) + WorkerWeight(workers[w]) == WorkersWeight(workers) + WorkerWeight(x)
  {
    var updated := workers[w := x];
    if w == 0 {
      assert updated[1..] == workers[1..];
    } else {
      assert updated[1..] == workers[1..][w - 1 := x];
      WorkersWeightUpdate(workers[1..], w - 1, x);
    }
  }

  /** What a reader's action changes of the work left: its own share, the bevies to claim, and the queue. */
  lemma ReaderShare(s: Setup, q: State, q': State, r: nat, x: Reader)
    requires s.st.Openable() && r < |q.readers| && q'.readers == q.readers[r := x]
    requires q'.workers == q.workers && q'.ready == q.ready && q'.consumer == q.consumer
    ensures Remaining(s, q') - ReaderWeight(x) - 30 * Max(0, s.Count() - q'.next) - 20 * |q'.queue| ==
            Remaining(s, q) - ReaderWeight(q.readers[r]) - 30 * Max(0, s.Count() - q.next) - 20 * |q.queue|
  {
    ReadersWeightUpdate(q.readers, r, x);
  }

  lemma CarrierUsesUp(s: Setup, q: State, a: Action)
    requires s.st.Openable() && OfReader(a) && Enabled(s, q, a)
    requires a.Claim? || a.Read? || a.Observe? || a.Send?
    ensures Remaining(s, NextReader(s, q, a)) < Remaining(s, q)
  {
    var q' := NextReader(s, q, a);
    ReaderShare(s, q, q', a.r, q'.readers[a.r]);
  }

  lemma WandererUsesUp(s: Setup, q: State, a: Action)
    requires s.st.Openable() && OfReader(a) && Enabled(s, q, a)
    requires !(a.Claim? || a.Read? || a.Observe? || a.Send?)
    ensures UsedUp(s, q, a, NextReader(s, q, a))
  {
    var q' := NextReader(s, q, a);
    ReaderShare(s, q, q', a.r, q'.readers[a.r]);
    assert q'.next == q.next && q'.queue == q.queue;
  }

  lemma ReaderUsesUp(s: Setup, q: State, a: Action)
    requires s.st.Openable() && OfReader(a) && Enabled(s, q, a)
    ensures UsedUp(s, q, a, NextReader(s, q, a))
  {
    if a.Claim? || a.Read? || a.Observe? || a.Send? {
      CarrierUsesUp(s, q, a);
    } else {
      WandererUsesUp(s, q, a);
    }
  }

  lemma WorkerShare(s: Setup, q: State, q': State, w: nat, x: Worker)
    requires s.st.Openable() && w < |q.workers| && q'.workers == q.workers[w := x]
    requires q'.readers == q.readers && q'.next == q.next && ConsumerWeight(q'.consumer) == ConsumerWeight(q.consumer)
    ensures Remaining(s, q') - WorkerWeight(x) - 20 * |q'.queue| - 8 * |q'.ready| ==
            Remaining(s, q) - WorkerWeight(q.workers[w]) - 20 * |q.queue| - 8 * |q.ready|
  {
    WorkersWeightUpdate(q.workers, w, x);
  }

  lemma DecodeUsesUp(s: Setup, q: State, a: Action)
    requires s.st.Openable() && a.Decode? && WorkerEnabled(q, a)
    ensures Remaining(s, NextWorker(s, q, a)) < Remaining(s, q)
  {
    var q' := NextWorker(s, q, a);
    WorkerShare(s, q, q', a.w, q'.workers[a.w]);
    assert |q.ready + {q.workers[a.w].bevy}| <= |q.ready| + 1;
  }

  lemma WorkerUsesUp(s: Setup, q: State, a: Action)
    requires s.st.Openable() && OfWorker(a) && Enabled(s, q, a)
    ensures UsedUp(s, q, a, NextWorker(s, q, a))
  {
    if a.Decode? {
      DecodeUsesUp(s, q, a);
    } else {
      var q' := NextWorker(s, q, a);
      WorkerShare(s, q, q', a.w, q'.workers[a.w]);
      assert q'.ready == q.ready;
    }
  }

  /** What a consumer's action changes of the work left: its own share, the queue and the window. */
  lemma ConsumerShare(s: Setup, q: State, q': State)
    requires s.st.Openable() && q'.next == q.next && q'.readers == q.readers && q'.workers == q.workers
    ensures Remaining(s, q') - 20 * |q'.queue| - 8 * |q'.ready| - ConsumerWeight(q'.consumer) ==
            Remaining(s, q) - 20 * |q.queue| - 8 * |q.ready| - ConsumerWeight(q.consumer)
  {
  }

  lemma LookUsesUp(s: Setup, q: State, a: Action)
    requires s.st.Openable() && a.Look? && Enabled(s, q, a)
    ensures UsedUp(s, q, a, NextConsumer(s, q, a))
  {
    ConsumerShare(s, q, NextConsumer(s, q, a));
  }

  lemma ConsumerUsesUp(s: Setup, q: State, a: Action)
    requires s.st.Openable() && OfConsumer(a) && Enabled(s, q, a)
    ensures UsedUp(s, q, a, NextConsumer(s, q, a))
  {
    if a.Look? {
      LookUsesUp(s, q, a);
    } else {
      ConsumerShare(s, q, NextConsumer(s, q, a));
    }
  }

  /** Every step that is not a look leaves less to do, and a look leaves as much. */
  lemma StepUsesUp(s: Setup, q: State, a: Action)
    requires s.st.Openable() && Enabled(s, q, a)
    ensures UsedUp(s, q, a, Next(s, q, a))
  {
    if OfReader(a) {
      ReaderUsesUp(s, q, a);
    } else if OfWorker(a) {
      WorkerUsesUp(s, q, a);
    } else {
      ConsumerUsesUp(s, q, a);
    }
  }

  /** No run does more work than there was to do at its start. */
  lemma {:induction false} RunsAreFinite(s: Setup, q: State, run: seq<Action>)
    requires s.st.Openable() && Feasible(s, q, run)
    ensures Steps(s, q, run) + Remaining(s, After(s, q, run)) <= Remaining(s, q)
    decreases |run|
  {
    if run != [] {
      StepUsesUp(s, q, run[0]);
      RunsAreFinite(s, Next(s, q, run[0]), run[1..]);
    }
  }

  // ----- joining every thread -----

  /** How many readers are in a state of some kind. */
  function Tally(readers: seq<Reader>, kind: Reader -> bool): nat {
    if readers == [] then 0 else (if kind(readers[0]) then 1 else 0) + Tally(readers[1..], kind)
  }

  lemma {:induction false} TallyUpdate(readers: seq<Reader>, kind: Reader -> bool, r: nat, x: Reader)
    requires r < |readers|
    ensures Tally(readers[r := x], kind) + (if kind(readers[r]) then 1 else 0) ==
            Tally(readers, kind) + (if kind(x) then 1 else 0)
  {
    var updated := readers[r := x];
    if r == 0 {
      assert updated[1..] == readers[1..];
    } else {
      assert updated[1..] == readers[1..][r - 1 := x];
      TallyUpdate(readers[1..], kind, r - 1, x);
    }
  }

  /** Readers of a kind found only before `n` are at most `n`; one of that kind counts. */
  lemma {:induction false} TallyBound(readers: seq<Reader>, kind: Reader -> bool, n: nat)
    requires forall r :: 0 <= r < |readers| && kind(readers[r]) ==> r < n
    ensures Tally(readers, kind) <= n
    ensures forall r :: 0 <= r < |readers| && kind(readers[r]) ==> Tally(readers, kind) >= 1
    ensures (forall r :: 0 <= r < |readers| ==> !kind(readers[r])) ==> Tally(readers, kind) == 0
  {
    if readers != [] {
      forall r | 0 <= r < |readers[1..]| && kind(readers[1..][r])
        ensures r + 1 < n
      {
        assert readers[1..][r] == readers[r + 1];
      }
      TallyBound(readers[1..], kind, Max(0, n - 1));
      forall r | 0 <= r < |readers| && kind(readers[r])
        ensures Tally(readers, kind) >= 1
      {
        if r > 0 {
          assert readers[1..][r - 1] == readers[r];
        }
      }
    }
  }

  /** A reader past its look at the stop flags: it may still put a bevy on the queue. */
  const COMMITTED: Reader -> bool := (r: Reader) =>
    r.Cleared? || r.Allowed? || r.Gauged? || r.Passed? || r.Claimed? || r.Loaded? || r.Observed?

  ghost function Committed(readers: seq<Reader>): nat {
    Tally(readers, COMMITTED)
  }

  lemma CommittedBound(readers: seq<Reader>)
    ensures Committed(readers) <= |readers|
    ensures forall r :: 0 <= r < |readers| && COMMITTED(readers[r]) ==> Committed(readers) >= 1
  {
    TallyBound(readers, COMMITTED, |readers|);
  }

  /** The queue seats every reader, or at least all those committed when the others began to stop. */
  ghost predicate Seated(s: Setup, q: State) {
    || s.Readers() <= s.depth
    || (Stopping(q) && |q.queue| + Committed(q.readers) <= s.depth)
  }

  /** Once the queue is drained, what is on it came from readers that were committed then. */
  ghost predicate FewLeft(s: Setup, q: State) {
    && (q.consumer.Draining? || q.consumer.Joining? ==> q.closed)
    && (q.consumer.Joining? ==> |q.queue| + Committed(q.readers) <= s.Readers())
  }

  lemma CommittedReader(s: Setup, q: State, a: Action)
    requires s.st.Openable() && OfReader(a) && ReaderEnabled(s, q, a) && Stopping(q)
    ensures var q' := NextReader(s, q, a);
            Stopping(q') && |q'.queue| + Committed(q'.readers) <= |q.queue| + Committed(q.readers)
  {
    var q' := NextReader(s, q, a);
    TallyUpdate(q.readers, COMMITTED, a.r, q'.readers[a.r]);
    assert q'.readers == q.readers[a.r := q'.readers[a.r]];
  }

  /** While the others stop no reader becomes committed, and a bevy sent frees its reader. */
  lemma CommittedStep(s: Setup, q: State, a: Action)
    requires s.st.Openable() && Enabled(s, q, a) && Stopping(q)
    ensures var q' := Next(s, q, a);
            Stopping(q') && |q'.queue| + Committed(q'.readers) <= |q.queue| + Committed(q.readers)
  {
    if OfReader(a) {
      CommittedReader(s, q, a);
    } else {
      var q' := Next(s, q, a);
      assert q'.readers == q.readers && |q'.queue| <= |q.queue| && Stopping(q');
    }
  }

  lemma FewLeftStep(s: Setup, q: State, a: Action)
    requires s.st.Openable() && Shaped(s, q) && FewLeft(s, q) && Enabled(s, q, a)
    ensures FewLeft(s, Next(s, q, a))
  {
    if q.consumer.Joining? {
      CommittedStep(s, q, a);
    } else if a.EndDrain? {
      CommittedBound(q.readers);
    }
  }

  lemma {:induction false} FewLeftRun(s: Setup, q: State, run: seq<Action>)
    requires s.st.Openable() && Shaped(s, q) && FewLeft(s, q) && Feasible(s, q, run)
    ensures Shaped(s, After(s, q, run)) && FewLeft(s, After(s, q, run))
    decreases |run|
  {
    if run != [] {
      ShapedStep(s, q, run[0]);
      FewLeftStep(s, q, run[0]);
      FewLeftRun(s, Next(s, q, run[0]), run[1..]);
    }
  }

  lemma {:induction false} SeatedRun(s: Setup, q: State, run: seq<Action>)
    requires s.st.Openable() && Seated(s, q) && Feasible(s, q, run)
    ensures Seated(s, After(s, q, run))
    decreases |run|
  {
    if run != [] {
      if s.Readers() > s.depth {
        CommittedStep(s, q, run[0]);
      }
      SeatedRun(s, Next(s, q, run[0]), run[1..]);
    }
  }

  /** When the queue is closed a reader that has not stopped can work toward it. */
  lemma ReaderCanStop(s: Setup, q: State, r: nat) returns (run: seq<Action>)
    requires s.st.Openable() && Shaped(s, q) && q.closed
    requires r < |q.readers| && !q.readers[r].Stopped?
    requires q.readers[r].Observed? ==> |q.queue| < s.depth
    ensures Works(s, q, run) && |run| <= PATIENCE
  {
    match q.readers[r] {
      case Unopened =>
        if r < q.admitted {
          run := Working(s, q, Enter(r));
        } else {
          run := Working(s, Next(s, q, Park(r)), StopReader(r));
          run := LookFirst(s, q, Park(r), run);
        }
      case Parked => run := Working(s, q, StopReader(r));
      case Opening => run := Working(s, q, Open(r));
      case Looking => run := Working(s, q, StopReader(r));
      case Cleared =>
        if r < q.admitted {
          run := GateOrStop(s, Next(s, q, Allow(r)), r);
          run := LookFirst(s, q, Allow(r), run);
        } else {
          run := GateOrStop(s, q, r);
        }
      case Allowed => run := GateOrStop(s, q, r);
      case Gauged(_) => run := GateOrStop(s, q, r);
      case Passed => run := Working(s, q, Claim(r));
      case Claimed(_) => run := CarrierCanWork(s, q, r);
      case Loaded(_) => run := CarrierCanWork(s, q, r);
      case Observed(_) => run := CarrierCanWork(s, q, r);
    }
  }

  /** A reader that finds itself held back goes around and stops. */
  lemma GateOrStop(s: Setup, q: State, r: nat) returns (run: seq<Action>)
    requires s.st.Openable() && r < |q.readers| && r < s.Readers() && q.closed
    requires q.readers[r].Allowed? || q.readers[r].Gauged? || (q.readers[r].Cleared? && r >= q.admitted)
    ensures Works(s, q, run) && |run| <= if q.readers[r].Allowed? then 3 else 2
    decreases q.readers[r].Allowed?
  {
    if q.readers[r].Allowed? {
      run := GateOrStop(s, Next(s, q, Gauge(r)), r);
      run := LookFirst(s, q, Gauge(r), run);
    } else if q.readers[r].Gauged? && q.next < q.readers[r].limit {
      run := Working(s, q, Pass(r));
    } else {
      run := Working(s, Next(s, q, Retry(r)), StopReader(r));
      run := LookFirst(s, q, Retry(r), run);
    }
  }

  /** From any state a run reaches, short of the end, some thread can work if the queue seats the readers. */
  lemma SomeThreadWorks(s: Setup, q: State) returns (run: seq<Action>)
    requires s.Arranged() && Inv(s, q) && FewLeft(s, q) && Seated(s, q) && !Joined(q)
    ensures Works(s, q, run)
  {
    if !q.consumer.Joining? {
      run := NeverStuckBeforeJoining(s, q);
    } else if w :| 0 <= w < |q.workers| && !q.workers[w].Gone? {
      run := WorkerCanWork(s, q, w);
    } else {
      var r :| 0 <= r < |q.readers| && !q.readers[r].Stopped?;
      CommittedBound(q.readers);
      if q.readers[r].Observed? {
        assert COMMITTED(q.readers[r]);
      }
      run := ReaderCanStop(s, q, r);
    }
  }

  /** A run goes on until every thread is joined, if the queue seats the readers. */
  lemma {:induction false} GoesOnToJoin(s: Setup, q: State) returns (run: seq<Action>)
    requires s.Arranged() && Inv(s, q) && FewLeft(s, q) && Seated(s, q)
    ensures Feasible(s, q, run) && Joined(After(s, q, run))
    decreases Remaining(s, q)
  {
    if Joined(q) {
      run := [];
    } else {
      var first := SomeThreadWorks(s, q);
      RunsAreFinite(s, q, first);
      InvRun(s, q, first);
      FewLeftRun(s, q, first);
      SeatedRun(s, q, first);
      var rest := GoesOnToJoin(s, After(s, q, first));
      FeasibleConcat(s, q, first, rest);
      run := first + rest;
    }
  }

  /** Whatever the threads do from here, the call never returns. */
  ghost predicate Hung(s: Setup, q: State)
    requires s.st.Openable()
  {
    forall run: seq<Action> :: Feasible(s, q, run) ==> !Joined(After(s, q, run))
  }

  /**
   With the queue at least as deep as there are readers no state a run reaches is hung; short of the end some
   thread can always work, and the work is bounded.
   */
  lemma NeverHangs(s: Setup, run: seq<Action>) returns (work: seq<Action>)
    requires s.Arranged() && s.Readers() <= s.depth && Feasible(s, Init(s), run)
    ensures !Hung(s, After(s, Init(s), run))
    ensures !Joined(After(s, Init(s), run)) ==> Works(s, After(s, Init(s), run), work)
    ensures Steps(s, Init(s), run) <= Remaining(s, Init(s))
  {
    var q := After(s, Init(s), run);
    InvInit(s);
    InvRun(s, Init(s), run);
    FewLeftRun(s, Init(s), run);
    RunsAreFinite(s, Init(s), run);
    var rest := GoesOnToJoin(s, q);
    assert Feasible(s, q, rest) && Joined(After(s, q, rest));
    work := [];
    if !Joined(q) {
      work := SomeThreadWorks(s, q);
    }
  }
}
