/**
 When joining the threads of a pipelined read can wait forever (read_all_parallel in src/parallel.rs): a stream, a
 run the governor allows and a damaged bevy that leave more readers holding a bevy than the queue seats.
 */
module PipelineHang {
  import opened Basics
  import opened Streams
  import opened Pipeline
  import opened PipelineShutdown
  import opened PipelineRuns
  import opened ThreadPlans

  // ----- a state the call never returns from -----

  /** A reader that will put a bevy on the queue before it looks at anything. */
  function Pledge(s: Setup): Reader -> bool {
    (r: Reader) => (r.Claimed? && s.Readable(r.bevy)) || r.Loaded? || r.Observed?
  }

  ghost function Pledged(s: Setup, q: State): nat {
    Tally(q.readers, Pledge(s))
  }

  /** Nobody is left to empty the queue, and it does not seat what is coming. */
  ghost predicate Doomed(s: Setup, q: State) {
    && q.consumer.Joining? && AllGone(q.workers)
    && |q.queue| <= s.depth < |q.queue| + Pledged(s, q)
  }

  lemma DoomedStep(s: Setup, q: State, a: Action)
    requires s.st.Openable() && Doomed(s, q) && Enabled(s, q, a)
    ensures Doomed(s, Next(s, q, a))
  {
    assert OfReader(a);
    var q' := NextReader(s, q, a);
    TallyUpdate(q.readers, Pledge(s), a.r, q'.readers[a.r]);
    assert q'.readers == q.readers[a.r := q'.readers[a.r]];
  }

  lemma {:induction false} DoomedRun(s: Setup, q: State, run: seq<Action>)
    requires s.st.Openable() && Doomed(s, q) && Feasible(s, q, run)
    ensures Doomed(s, After(s, q, run))
    decreases |run|
  {
    if run != [] {
      DoomedStep(s, q, run[0]);
      DoomedRun(s, Next(s, q, run[0]), run[1..]);
    }
  }

  lemma DoomedIsHung(s: Setup, q: State)
    requires s.st.Openable() && Doomed(s, q)
    ensures Hung(s, q)
  {
    forall run: seq<Action> | Feasible(s, q, run)
      ensures !Joined(After(s, q, run))
    {
      DoomedRun(s, q, run);
      var end := After(s, q, run);
      if AllStopped(end.readers) {
        TallyBound(end.readers, Pledge(s), 0);
      }
    }
  }

  lemma {:induction false} TallyAtLeast(readers: seq<Reader>, kind: Reader -> bool, n: nat)
    requires n <= |readers| && forall r :: 0 <= r < n ==> kind(readers[r])
    ensures Tally(readers, kind) >= n
  {
    if n > 0 {
      forall r | 0 <= r < n - 1
        ensures kind(readers[1..][r])
      {
        assert readers[1..][r] == readers[r + 1];
      }
      TallyAtLeast(readers[1..], kind, n - 1);
    }
  }

  // ----- the damaged stream -----

  /** How many bevies are read before the damaged one: enough to admit one reader more than the queue seats. */
  function BeforeDamage(depth: nat, readers: nat): nat
    requires readers + 2 <= depth
  {
    depth + WARMUP_BEVIES - 1 - readers
  }

  function FullBevy(chunkSize: nat, chunksInSegment: nat): Bevy {
    Held(Repeat(Some(Repeat(0, chunkSize)), chunksInSegment), true, 1)
  }

  /** Full bevies, and one with a chunk that does not decode. */
  function DamagedSetup(plan: ThreadPlan, pinned: bool, chunkSize: nat, chunksInSegment: nat): Setup
    requires Possible(plan, chunkSize, chunksInSegment)
  {
    var per := chunkSize * chunksInSegment;
    var depth := QueueDepth(per, plan.readers);
    var good := BeforeDamage(depth, plan.readers);
    var full := FullBevy(chunkSize, chunksInSegment);
    Setup(ImageStream("aff4://s", Min(U64_MAX, (good + depth + 2) * per), chunkSize, chunksInSegment),
          Repeat(full, good) + [Held([None], true, 1)] + Repeat(full, depth + 1),
          {}, Repeat(true, plan.ReaderCeiling(pinned)), plan.workers, plan.readers, depth,
          Slots(per, plan.workers) + depth + plan.workers, true)
  }

  ghost predicate Overcommitted(s: Setup, plan: ThreadPlan, pinned: bool) {
    && Possible(plan, s.st.chunkSize, s.st.chunksInSegment)
    && s == DamagedSetup(plan, pinned, s.st.chunkSize, s.st.chunksInSegment)
    && s.depth < s.Readers()
  }

  lemma SizesFit(s: Setup, plan: ThreadPlan, pinned: bool)
    requires Overcommitted(s, plan, pinned)
    ensures s.depth <= 7 && s.Readers() <= 8
    ensures s.st.size == (BeforeDamage(s.depth, s.admitted) + s.depth + 2) * (s.st.chunkSize * s.st.chunksInSegment)
  {
    MulMonotone(BeforeDamage(s.depth, s.admitted) + s.depth + 2, 32, s.st.chunkSize * s.st.chunksInSegment);
  }

  lemma DamagedIsPlanned(s: Setup, plan: ThreadPlan, pinned: bool)
    requires Overcommitted(s, plan, pinned)
    ensures AsPlanned(s, plan, pinned) && s.Arranged()
    ensures s.Count() == BeforeDamage(s.depth, s.admitted) + s.depth + 2
  {
    var per := s.st.chunkSize * s.st.chunksInSegment;
    var count := BeforeDamage(s.depth, s.admitted) + s.depth + 2;
    SizesFit(s, plan, pinned);
    DivModAt(count, per, per - 1);
    assert BevyPlain(s.st) == per;
    PlannedIsArranged(s, plan, pinned);
  }

  lemma {:induction false} FullBevyWhole(st: ImageStream, chunks: seq<Option<seq<Byte>>>, i: nat, delivered: nat)
    requires i <= |chunks| && forall k :: 0 <= k < |chunks| ==> chunks[k].Some? && |chunks[k].value| == st.chunkSize
    ensures SerialChunks(st, chunks, i, delivered).Whole()
    decreases |chunks| - i
  {
    if i < |chunks| && delivered < st.size {
      FullBevyWhole(st, chunks, i + 1, delivered + Min(st.chunkSize, st.size - delivered));
    }
  }

  lemma {:induction false} FullBeviesWhole(s: Setup, n: nat)
    requires forall k :: 0 <= k < n ==> BevyAt(s.bevies, k) == FullBevy(s.st.chunkSize, s.st.chunksInSegment)
    ensures Ahead(s, n).Whole()
  {
    if n > 0 {
      FullBeviesWhole(s, n - 1);
      FullBevyWhole(s.st, BevyAt(s.bevies, n - 1).chunks, 0, |Ahead(s, n - 1).bytes|);
    }
  }

  /** Up to the damaged bevy the stream is sound; those after it can be read. */
  lemma DamagedIsSound(s: Setup, plan: ThreadPlan, pinned: bool)
    requires Overcommitted(s, plan, pinned) && s.Arranged()
    requires s.Count() == BeforeDamage(s.depth, s.admitted) + s.depth + 2
    ensures SoundTo(s, BeforeDamage(s.depth, s.admitted))
    ensures !s.Decodes(BeforeDamage(s.depth, s.admitted))
  {
    var good := BeforeDamage(s.depth, s.admitted);
    var full := FullBevy(s.st.chunkSize, s.st.chunksInSegment);
    assert forall k :: 0 <= k < |s.bevies| ==> s.bevies[k] == if k == good then Held([None], true, 1) else full;
    assert BevyAt(s.bevies, good).chunks[0].None?;
    assert BoundedChunks(s.st, full.chunks) && BoundedChunks(s.st, [None]);
    forall b | 0 <= b <= good
      ensures Ahead(s, b).Whole()
    {
      FullBeviesWhole(s, b);
    }
  }

  // ----- the run -----

  /** The first reader has read the damaged bevy, a worker is about to decode it. */
  function Damaging(s: Setup): State
    requires s.Arranged()
  {
    var good := BeforeDamage(s.depth, s.admitted);
    Cruising(s, good).(next := good + 1, observed := good + 1, admitted := Grown(s, good + 1),
                       probe := GrownProbe(s, good + 1), workers := Init(s).workers[0 := Decoding(good)])
  }

  /** The first reader carries the damaged bevy. */
  function Fetched(s: Setup): State
    requires s.Arranged()
  {
    var good := BeforeDamage(s.depth, s.admitted);
    Damaging(s).(readers := Init(s).readers[0 := Observed(good)], workers := Init(s).workers)
  }

  lemma ReachFetched(s: Setup, plan: ThreadPlan, pinned: bool) returns (run: seq<Action>)
    requires Overcommitted(s, plan, pinned) && s.Arranged()
    ensures Leads(s, Init(s), run, Fetched(s))
  {
    DamagedIsPlanned(s, plan, pinned);
    DamagedIsSound(s, plan, pinned);
    var good := BeforeDamage(s.depth, s.admitted);
    run := Cruise(s, good);
    var q := Cruising(s, good);
    var q1 := q.(readers := q.readers[0 := Passed]);
    var more := Approach(s, q, 0);
    run := Onward(s, Init(s), run, q, more, q1);
    GrowsOn(s, q1, good);
    more := Fetch(s, q1, 0, Gaining(s, good));
    assert q1.readers[0 := Observed(good)] == Init(s).readers[0 := Observed(good)];
    run := Onward(s, Init(s), run, q1, more, Fetched(s));
  }

  lemma ReachDamaging(s: Setup, plan: ThreadPlan, pinned: bool) returns (run: seq<Action>)
    requires Overcommitted(s, plan, pinned) && s.Arranged()
    ensures Leads(s, Init(s), run, Damaging(s))
  {
    var good := BeforeDamage(s.depth, s.admitted);
    run := ReachFetched(s, plan, pinned);
    var q := Fetched(s);
    var q1 := q.(readers := q.readers[0 := Looking], workers := q.workers[0 := Holding(good)]);
    var more := HandOver(s, q, 0, 0);
    run := Onward(s, Init(s), run, q, more, q1);
    Then1(s, q1, Check(0));
    assert q.readers[0 := Looking] == Cruising(s, good).readers;
    assert q1.workers[0 := Decoding(good)] == Init(s).workers[0 := Decoding(good)];
    run := Onward(s, Init(s), run, q1, [Check(0)], Damaging(s));
  }

  /** The first `n` of those have claimed a bevy each. */
  function ClaimingOf(s: Setup, q: State, n: nat): State {
    q.(next := q.next + n,
       readers := seq(|q.readers|, (r: nat) requires r < |q.readers| => if r < n then Claimed(q.next + r) else q.readers[r]))
  }

  lemma {:induction false} AllClaim(s: Setup, q: State, n: nat) returns (run: seq<Action>)
    requires s.st.Openable() && n <= s.Readers() == |q.readers| && q.next + n <= s.Count()
    requires forall r :: 0 <= r < n ==> q.readers[r].Passed?
    ensures Leads(s, q, run, ClaimingOf(s, q, n))
  {
    if n == 0 {
      run := [];
      assert ClaimingOf(s, q, 0).readers == q.readers;
    } else {
      run := AllClaim(s, q, n - 1);
      var q1 := ClaimingOf(s, q, n - 1);
      Then1(s, q1, Claim(n - 1));
      assert q1.readers[n - 1 := Claimed(q1.next)] == ClaimingOf(s, q, n).readers;
      run := Onward(s, q, run, q1, [Claim(n - 1)], ClaimingOf(s, q, n));
    }
  }

  /** After a failure, over an empty queue, the first `n` workers are gone. */
  function LeftBy(s: Setup, q: State, n: nat): State
    requires n <= |q.workers| <= q.live
  {
    q.(live := q.live - n, consumer := if n > 0 then Wake(q.consumer) else q.consumer,
       workers := seq(|q.workers|, (w: nat) requires w < |q.workers| => if w < n then Gone else q.workers[w]))
  }

  lemma OneLeaves(s: Setup, q: State, w: nat) returns (run: seq<Action>)
    requires s.st.Openable() && w < |q.workers| && q.live > 0 && q.failure.Some? && q.queue == []
    requires q.workers[w].Leaving? || q.workers[w].Idle?
    requires !AllStopped(q.readers)
    ensures Leads(s, q, run, q.(live := q.live - 1, consumer := Wake(q.consumer), workers := q.workers[w := Gone]))
  {
    var q1 := q.(workers := q.workers[w := Leaving]);
    run := [];
    if q.workers[w].Idle? {
      run := [FindEmpty(w), LeaveIdle(w)];
      Then2(s, q, FindEmpty(w), LeaveIdle(w));
      assert q.workers[w := Starved][w := Leaving] == q1.workers;
    } else {
      assert q.workers[w := Leaving] == q.workers;
    }
    var q2 := q1.(live := q.live - 1, consumer := Wake(q.consumer), workers := q1.workers[w := Gone]);
    Then1(s, q1, Exit(w));
    assert q1.workers[w := Gone] == q.workers[w := Gone];
    run := Onward(s, q, run, q1, [Exit(w)], q2);
  }

  lemma {:induction false} AllLeave(s: Setup, q: State, n: nat) returns (run: seq<Action>)
    requires s.st.Openable() && n <= |q.workers| <= q.live && q.failure.Some? && q.queue == []
    requires forall w :: 0 <= w < n ==> q.workers[w].Leaving? || q.workers[w].Idle?
    requires !AllStopped(q.readers)
    ensures Leads(s, q, run, LeftBy(s, q, n))
  {
    if n == 0 {
      run := [];
      assert LeftBy(s, q, 0).workers == q.workers;
    } else {
      run := AllLeave(s, q, n - 1);
      var q1 := LeftBy(s, q, n - 1);
      var more := OneLeaves(s, q1, n - 1);
      assert q1.workers[n - 1 := Gone] == LeftBy(s, q, n).workers;
      run := Onward(s, q, run, q1, more, LeftBy(s, q, n));
    }
  }

  /** One reader more than the queue seats holds a bevy, and the damaged one has failed. */
  function Failing(s: Setup): State
    requires s.Arranged()
  {
    var good := BeforeDamage(s.depth, s.admitted);
    ClaimingOf(s, Passing(Damaging(s), 0, s.depth + 1), s.depth + 1).(
      workers := Init(s).workers[0 := Leaving], failure := Some(good))
  }

  lemma ReachFailing(s: Setup, plan: ThreadPlan, pinned: bool) returns (run: seq<Action>)
    requires Overcommitted(s, plan, pinned) && s.Arranged()
    ensures Leads(s, Init(s), run, Failing(s))
  {
    DamagedIsPlanned(s, plan, pinned);
    DamagedIsSound(s, plan, pinned);
    var good := BeforeDamage(s.depth, s.admitted);
    run := ReachDamaging(s, plan, pinned);
    var q := Damaging(s);
    var n := s.depth + 1;
    var more := AllPass(s, q, 0, n);
    var q1 := Passing(q, 0, n);
    run := Onward(s, Init(s), run, q, more, q1);
    more := AllClaim(s, q1, n);
    var q2 := ClaimingOf(s, q1, n);
    run := Onward(s, Init(s), run, q1, more, q2);
    Then1(s, q2, Decode(0));
    assert q2.workers[0 := Leaving] == Init(s).workers[0 := Leaving];
    run := Onward(s, Init(s), run, q2, [Decode(0)], Failing(s));
  }

  /** The consumer gives up on a failure, drains an empty queue and waits. */
  lemma GiveUp(s: Setup, q: State) returns (run: seq<Action>)
    requires s.st.Openable() && q.consumer.Seeking? && q.failure.Some? && q.queue == []
    requires !Complete(s, q) && q.expected !in q.ready
    ensures Leads(s, q, run, q.(wanted := q.expected, consumer := Joining, closed := true, ready := {}))
  {
    run := [Look(None), Close, EndDrain];
    Then3(s, q, Look(None), Close, EndDrain);
  }

  /** With more readers to admit than the queue seats, the damaged stream has a run from which the call never returns. */
  lemma CanHang(s: Setup, plan: ThreadPlan, pinned: bool) returns (run: seq<Action>)
    requires Overcommitted(s, plan, pinned)
    ensures AsPlanned(s, plan, pinned)
    ensures Feasible(s, Init(s), run) && Hung(s, After(s, Init(s), run))
  {
    DamagedIsPlanned(s, plan, pinned);
    run := ReachFailing(s, plan, pinned);
    var q := Failing(s);
    assert q.readers[0].Claimed?;
    DamagedIsSound(s, plan, pinned);
    AheadFits(s, q.expected);
    var q1 := LeftBy(s, q, s.workers);
    var more := AllLeave(s, q, s.workers);
    run := Onward(s, Init(s), run, q, more, q1);
    var q2 := q1.(wanted := q.expected, consumer := Joining, closed := true, ready := {});
    more := GiveUp(s, q1);
    run := Onward(s, Init(s), run, q1, more, q2);
    FailingIsDoomed(s, q2);
  }

  lemma FailingIsDoomed(s: Setup, q: State)
    requires s.Arranged() && s.unreadable == {} && s.depth < s.Readers()
    requires q.readers == Failing(s).readers && AllGone(q.workers) && q.queue == [] && q.consumer.Joining?
    ensures Hung(s, q)
  {
    forall r | 0 <= r < s.depth + 1
      ensures Pledge(s)(q.readers[r])
    {
      assert q.readers[r].Claimed?;
    }
    TallyAtLeast(q.readers, Pledge(s), s.depth + 1);
    DoomedIsHung(s, q);
  }

  // ----- exactly when every read returns -----

  /** A setup the program makes of this plan for a stream of this chunk and bevy size. */
  ghost predicate Made(s: Setup, plan: ThreadPlan, pinned: bool, chunkSize: nat, chunksInSegment: nat) {
    AsPlanned(s, plan, pinned) && s.st.chunkSize == chunkSize && s.st.chunksInSegment == chunksInSegment
  }

  /** Over every stream of this chunk and bevy size, however stored, in every run, the read never hangs. */
  ghost predicate AlwaysJoins(plan: ThreadPlan, pinned: bool, chunkSize: nat, chunksInSegment: nat) {
    forall s: Setup, run: seq<Action> ::
      Made(s, plan, pinned, chunkSize, chunksInSegment) && Feasible(s, Init(s), run) ==>
        !Hung(s, After(s, Init(s), run))
  }

  /**
   A plan joins its threads over every stream of a chunk and bevy size exactly when the queue seats every
   reader the governor may admit: when it may admit at most two more than it starts, or when that many
   decompressed bevies fit a third of the byte budget.
   */
  lemma JoinsExactlyWhen(plan: ThreadPlan, pinned: bool, chunkSize: nat, chunksInSegment: nat)
    requires Possible(plan, chunkSize, chunksInSegment)
    ensures AlwaysJoins(plan, pinned, chunkSize, chunksInSegment) <==>
            plan.ReaderCeiling(pinned) <= QueueDepth(chunkSize * chunksInSegment, plan.readers)
    ensures AlwaysJoins(plan, pinned, chunkSize, chunksInSegment) <==>
            || plan.ReaderCeiling(pinned) <= plan.readers + 2
            || plan.ReaderCeiling(pinned) * (chunkSize * chunksInSegment) <= REORDER_BUDGET_BYTES / 3
  {
    var per := chunkSize * chunksInSegment;
    QueueSeats(per, plan.readers, plan.ReaderCeiling(pinned));
    if plan.ReaderCeiling(pinned) <= QueueDepth(per, plan.readers) {
      forall s: Setup, run: seq<Action> |
        Made(s, plan, pinned, chunkSize, chunksInSegment) && Feasible(s, Init(s), run)
        ensures !Hung(s, After(s, Init(s), run))
      {
        assert BevyPlain(s.st) == per;
        PlannedIsArranged(s, plan, pinned);
        var _ := NeverHangs(s, run);
      }
    } else {
      var s := DamagedSetup(plan, pinned, chunkSize, chunksInSegment);
      assert Overcommitted(s, plan, pinned);
      var run := CanHang(s, plan, pinned);
      assert Made(s, plan, pinned, chunkSize, chunksInSegment);
      assert Feasible(s, Init(s), run) && Hung(s, After(s, Init(s), run));
    }
  }

  /**
   The usual plan starts two readers and, with seven workers or more, may admit eight: it always joins over
   decompressed bevies of up to 44,739,242 bytes and over no larger ones. Over bevies of 2,048 chunks of 32 KiB it
   always joins exactly with four workers or fewer. A pinned plan always joins.
   */
  lemma UsualPlanJoins(plan: ThreadPlan, chunkSize: nat, chunksInSegment: nat)
    requires Possible(plan, chunkSize, chunksInSegment) && plan.readers == 2
    ensures plan.workers >= 7 ==>
              (AlwaysJoins(plan, false, chunkSize, chunksInSegment) <==> chunkSize * chunksInSegment <= 44_739_242)
    ensures chunkSize == 32768 && chunksInSegment == 2048 ==>
              (AlwaysJoins(plan, false, chunkSize, chunksInSegment) <==> plan.workers <= 4)
    ensures AlwaysJoins(plan, true, chunkSize, chunksInSegment)
  {
    JoinsExactlyWhen(plan, false, chunkSize, chunksInSegment);
    JoinsExactlyWhen(plan, true, chunkSize, chunksInSegment);
  }
}
