/**
 How a later bevy's failure comes to be reported in place of the first trouble (src/parallel.rs), and with it
 exactly when every run of a pipelined read reports the first trouble.
 */
module PipelineOvertaking {
  import opened Basics
  import opened Pipeline
  import opened PipelineProgress
  import opened PipelineOutcome
  import opened PipelineShutdown
  import opened PipelineRuns
  import opened PipelineReport
  import opened PipelineTurns
  import opened Streams
  import opened ThreadPlans

  // ----- from a recorded failure to the end -----

  /** Failure of `g` is recorded, and nobody will record or decode anything any more. */
  ghost predicate Overtaken(s: Setup, q: State, p: nat, g: nat)
    requires s.st.Openable()
  {
    && q.failure == Some(g) && q.error.None? && q.expected == p && p !in q.ready && |q.out| < s.st.size
    && (forall r :: 0 <= r < |q.readers| && COMMITTED(q.readers[r]) ==> q.readers[r].Loaded? || q.readers[r].Observed?)
    && (forall w :: 0 <= w < |q.workers| ==> !q.workers[w].Decoding?)
  }

  lemma OvertakenReader(s: Setup, q: State, a: Action, p: nat, g: nat)
    requires s.st.Openable() && AllOpen(s) && Overtaken(s, q, p, g) && OfReader(a) && ReaderEnabled(s, q, a)
    ensures Overtaken(s, NextReader(s, q, a), p, g)
  {
    assert COMMITTED(q.readers[a.r]) ==> a.Observe? || a.Send?;
  }

  lemma OvertakenWorker(s: Setup, q: State, a: Action, p: nat, g: nat)
    requires s.st.Openable() && Overtaken(s, q, p, g) && OfWorker(a) && WorkerEnabled(q, a)
    ensures Overtaken(s, NextWorker(s, q, a), p, g)
  {
  }

  lemma OvertakenStep(s: Setup, q: State, a: Action, p: nat, g: nat)
    requires s.st.Openable() && AllOpen(s) && p < s.Count() && Overtaken(s, q, p, g) && Enabled(s, q, a)
    ensures Overtaken(s, Next(s, q, a), p, g)
  {
    if OfReader(a) {
      OvertakenReader(s, q, a, p, g);
    } else if OfWorker(a) {
      OvertakenWorker(s, q, a, p, g);
    } else {
      var q' := NextConsumer(s, q, a);
      assert q'.readers == q.readers && q'.workers == q.workers;
    }
  }

  lemma {:induction false} OvertakenRun(s: Setup, q: State, p: nat, g: nat, run: seq<Action>)
    requires s.st.Openable() && AllOpen(s) && p < s.Count() && Overtaken(s, q, p, g) && Feasible(s, q, run)
    ensures Overtaken(s, After(s, q, run), p, g)
    decreases |run|
  {
    if run != [] {
      OvertakenStep(s, q, run[0], p, g);
      OvertakenRun(s, Next(s, q, run[0]), p, g, run[1..]);
    }
  }

  /** A run that ends with its threads joined and this verdict. */
  ghost predicate Ends(s: Setup, run: seq<Action>, fault: Fault)
    requires s.st.Openable()
  {
    Feasible(s, Init(s), run) && Joined(After(s, Init(s), run)) && Verdict(s, After(s, Init(s), run)) == Some(fault)
  }

  /** A run goes on to join its threads if the queue seats what is still coming. */
  lemma JoinFrom(s: Setup, first: seq<Action>, q: State) returns (rest: seq<Action>)
    requires s.Arranged() && Leads(s, Init(s), first, q)
    requires Stopping(q) && |q.queue| + Committed(q.readers) <= s.depth
    ensures Feasible(s, q, rest) && Joined(After(s, q, rest))
    ensures Feasible(s, Init(s), first + rest) && After(s, Init(s), first + rest) == After(s, q, rest)
  {
    InvInit(s);
    InvRun(s, Init(s), first);
    FewLeftRun(s, Init(s), first);
    rest := GoesOnToJoin(s, q);
    FeasibleConcat(s, Init(s), first, rest);
  }

  lemma EndsOvertaken(s: Setup, first: seq<Action>, q: State, p: nat, g: nat) returns (run: seq<Action>)
    requires s.Arranged() && AllOpen(s) && p < s.Count() && Leads(s, Init(s), first, q) && Overtaken(s, q, p, g)
    requires |q.queue| + Committed(q.readers) <= s.depth
    ensures Ends(s, run, OfBevy(g))
  {
    var rest := JoinFrom(s, first, q);
    OvertakenRun(s, q, p, g, rest);
    run := first + rest;
  }

  // ----- the first trouble in hand, the consumer waiting for it -----

  /** The consumer sleeps on the first trouble, which the first reader has read. */
  function Carried(s: Setup, p: nat): State
    requires s.Arranged()
  {
    Cruising(s, p).(next := p + 1, observed := p + 1, admitted := Grown(s, p + 1), probe := GrownProbe(s, p + 1),
                    wanted := p, consumer := Asleep, readers := Init(s).readers[0 := Observed(p)])
  }

  lemma ReachAsleep(s: Setup, p: nat) returns (run: seq<Action>)
    requires Ordinary(s) && FirstTrouble(s, p)
    ensures Leads(s, Init(s), run, Cruising(s, p).(wanted := p, consumer := Asleep))
  {
    run := Cruise(s, p);
    AheadFits(s, p);
    Then1(s, Cruising(s, p), Look(None));
    run := Onward(s, Init(s), run, Cruising(s, p), [Look(None)], Cruising(s, p).(wanted := p, consumer := Asleep));
  }

  lemma ReachCarried(s: Setup, p: nat) returns (run: seq<Action>)
    requires Ordinary(s) && FirstTrouble(s, p) && s.Readable(p)
    ensures Leads(s, Init(s), run, Carried(s, p))
  {
    var q1 := Cruising(s, p).(wanted := p, consumer := Asleep);
    run := ReachAsleep(s, p);
    var q2 := q1.(readers := q1.readers[0 := Passed]);
    var more := Approach(s, q1, 0);
    run := Onward(s, Init(s), run, q1, more, q2);
    GrowsOn(s, q2, p);
    more := Fetch(s, q2, 0, Gaining(s, p));
    assert q2.readers[0 := Observed(p)] == Init(s).readers[0 := Observed(p)];
    run := Onward(s, Init(s), run, q2, more, Carried(s, p));
  }

  /** The first worker has taken it from there. */
  function InWorker(s: Setup, p: nat): State
    requires s.Arranged()
  {
    Carried(s, p).(readers := Init(s).readers[0 := Looking], workers := Init(s).workers[0 := Holding(p)])
  }

  lemma ReachInWorker(s: Setup, p: nat) returns (run: seq<Action>)
    requires Ordinary(s) && FirstTrouble(s, p) && s.Readable(p)
    ensures Leads(s, Init(s), run, InWorker(s, p))
  {
    run := ReachCarried(s, p);
    var more := HandOver(s, Carried(s, p), 0, 0);
    assert Carried(s, p).readers[0 := Looking] == Init(s).readers[0 := Looking];
    run := Onward(s, Init(s), run, Carried(s, p), more, InWorker(s, p));
  }

  // ----- the others go on past it -----

  /** Readers from `f` on that passed serve a bevy each. */
  function ServedEach(q: State, f: nat, k: nat): State {
    q.(next := q.next + k, observed := q.observed + k, ready := q.ready + Numbers(q.next, q.next + k),
       consumer := if k > 0 then Wake(q.consumer) else q.consumer,
       readers := seq(|q.readers|, (r: nat) requires r < |q.readers| => if f <= r < f + k then Looking else q.readers[r]))
  }

  lemma {:induction false} ServeEach(s: Setup, q: State, f: nat, w: nat, k: nat) returns (run: seq<Action>)
    requires s.Arranged() && f + k <= |q.readers| == s.Readers() && w < |q.workers|
    requires q.workers[w].Idle? && q.queue == [] && !Stopping(q) && q.next + k <= s.Count()
    requires forall r :: f <= r < f + k ==> q.readers[r].Passed?
    requires forall b :: q.next <= b < q.next + k ==> !Bad(s, b)
    ensures Leads(s, q, run, ServedEach(q, f, k))
  {
    if k == 0 {
      run := [];
      assert ServedEach(q, f, 0).readers == q.readers;
      assert q.ready + Numbers(q.next, q.next) == q.ready;
    } else {
      run := ServeEach(s, q, f, w, k - 1);
      var q1 := ServedEach(q, f, k - 1);
      assert !Bad(s, q1.next);
      var more := Serve(s, q1, f + k - 1, w, None);
      assert q1.readers[f + k - 1 := Looking] == ServedEach(q, f, k).readers;
      assert q1.ready + {q1.next} == ServedEach(q, f, k).ready;
      run := Onward(s, q, run, q1, more, ServedEach(q, f, k));
    }
  }

  /** A reader that passed fails on the next bevy, or sends it to a worker that does. */
  function FailedAt(s: Setup, q: State, r: nat, w: nat): State
    requires r < |q.readers| && w < |q.workers|
  {
    if s.Readable(q.next) then
      q.(next := q.next + 1, observed := q.observed + 1, failure := Some(q.next),
         readers := q.readers[r := Looking], workers := q.workers[w := Leaving])
    else
      q.(next := q.next + 1, failure := Some(q.next), readers := q.readers[r := Stopped])
  }

  lemma FailAt(s: Setup, q: State, r: nat, w: nat) returns (run: seq<Action>)
    requires s.Arranged() && r < |q.readers| && r < s.Readers() && w < |q.workers| && !Stopping(q)
    requires q.readers[r].Passed? && q.next < s.Count() && Bad(s, q.next)
    requires s.Readable(q.next) ==> q.workers[w].Idle? && q.queue == []
    ensures Leads(s, q, run, FailedAt(s, q, r, w))
  {
    var b := q.next;
    if !s.Readable(b) {
      run := [Claim(r), Read(r)];
      assert q.readers[r := Claimed(b)][r := Stopped] == q.readers[r := Stopped];
      Then2(s, q, Claim(r), Read(r));
    } else {
      var q1 := Reported(s, q, None).(next := b + 1, readers := q.readers[r := Observed(b)]);
      run := Fetch(s, q, r, None);
      var q2 := q1.(readers := q1.readers[r := Looking], workers := q1.workers[w := Holding(b)]);
      var more := HandOver(s, q1, r, w);
      run := Onward(s, q, run, q1, more, q2);
      assert q1.readers[r := Looking] == q.readers[r := Looking];
      assert q2.workers[w := Decoding(b)][w := Leaving] == q.workers[w := Leaving];
      Then2(s, q2, Check(w), Decode(w));
      run := Onward(s, q, run, q2, [Check(w), Decode(w)], FailedAt(s, q, r, w));
    }
  }

  /**
   The first trouble is in hand and the consumer waits for it. Reader `f` looks around, those after it have
   not begun, and worker `w` is idle; if `f` is not the first reader, the first one carries the trouble.
   */
  ghost predicate Aside(s: Setup, q: State, p: nat, f: nat, w: nat)
    requires s.Arranged()
  {
    && Grows(s, q, p + 1) && q.wanted == q.expected == p && p !in q.ready && q.queue == []
    && !Stopping(q) && q.error.None? && q.out == Ahead(s, p).bytes
    && f < |q.readers| == s.Readers() && f < q.admitted && w < |q.workers|
    && (forall r :: 0 <= r < |q.readers| ==>
          if r < f then q.readers[r] == Observed(p) else if r == f then q.readers[r].Looking? else q.readers[r].Unopened?)
    && q.workers[w].Idle? && forall v :: 0 <= v < |q.workers| ==> !q.workers[v].Decoding?
  }

  /** The bevies after `p` up to the next bad one, `g`, which is within reach of the readers from `f` on. */
  ghost predicate InReach(s: Setup, p: nat, f: nat, g: nat)
    requires s.Arranged()
  {
    f <= 1 && p < g < s.Count() && Bad(s, g) && g + f <= Far(s, p) && forall b :: p < b < g ==> !Bad(s, b)
  }

  /** Where reader `f` stops serving on its own: before `g`, or as far as the consumer's need lets it. */
  function Alone(s: Setup, p: nat, g: nat): nat
    requires s.Arranged()
  {
    Min(g, p + s.lookahead - 1)
  }

  /** The readers from `f` up to the one that will claim `g` have passed every check. */
  function Ranged(s: Setup, q: State, p: nat, f: nat, g: nat): State
    requires s.Arranged() && q.next <= Alone(s, p, g)
  {
    Passing(ServedTo(s, q, Alone(s, p, g)), f, f + (g - Alone(s, p, g)) + 1)
  }

  lemma ReachAlone(s: Setup, q: State, p: nat, f: nat, w: nat, n: nat) returns (run: seq<Action>)
    requires Ordinary(s) && Aside(s, q, p, f, w)
    requires p < n <= p + s.lookahead && n <= s.Count() && forall b :: p < b < n ==> !Bad(s, b)
    ensures Leads(s, q, run, ServedTo(s, q, n))
  {
    forall b | q.next <= b < n
      ensures s.Readable(b) && s.Decodes(b)
    {
      assert !Bad(s, b);
    }
    run := ServeTo(s, q, f, w, n);
  }

  lemma ReachRanged(s: Setup, q: State, p: nat, f: nat, w: nat, g: nat) returns (run: seq<Action>)
    requires Ordinary(s) && Aside(s, q, p, f, w) && InReach(s, p, f, g)
    ensures Leads(s, q, run, Ranged(s, q, p, f, g))
  {
    var n0 := Alone(s, p, g);
    run := ReachAlone(s, q, p, f, w, n0);
    var q1 := ServedTo(s, q, n0);
    GrownMonotone(s, p + 1, n0);
    var more := AllPass(s, q1, f, f + (g - n0) + 1);
    run := Onward(s, q, run, q1, more, Ranged(s, q, p, f, g));
  }

  /** They serve the bevies before `g`. */
  lemma ReachServed(s: Setup, q: State, p: nat, f: nat, w: nat, g: nat) returns (run: seq<Action>)
    requires Ordinary(s) && Aside(s, q, p, f, w) && InReach(s, p, f, g)
    ensures Leads(s, q, run, ServedEach(Ranged(s, q, p, f, g), f, g - Alone(s, p, g)))
  {
    var j := g - Alone(s, p, g);
    var q2 := Ranged(s, q, p, f, g);
    run := ReachRanged(s, q, p, f, w, g);
    var more := ServeEach(s, q2, f, w, j);
    run := Onward(s, q, run, q2, more, ServedEach(q2, f, j));
  }

  /** And the last of them fails on `g`. */
  lemma ReachFailed(s: Setup, q: State, p: nat, f: nat, w: nat, g: nat) returns (run: seq<Action>, to: State)
    requires Ordinary(s) && Aside(s, q, p, f, w) && InReach(s, p, f, g)
    ensures Leads(s, q, run, to)
    ensures var j := g - Alone(s, p, g);
            to == FailedAt(s, ServedEach(Ranged(s, q, p, f, g), f, j), f + j, w)
  {
    var j := g - Alone(s, p, g);
    var q3 := ServedEach(Ranged(s, q, p, f, g), f, j);
    run := ReachServed(s, q, p, f, w, g);
    var more := FailAt(s, q3, f + j, w);
    to := FailedAt(s, q3, f + j, w);
    run := Onward(s, q, run, q3, more, to);
  }

  /** Of the readers only the first may hold a bevy when `g` has failed. */
  lemma FailedReaders(s: Setup, q: State, p: nat, f: nat, w: nat, g: nat, to: State)
    requires Ordinary(s) && Aside(s, q, p, f, w) && InReach(s, p, f, g)
    requires var j := g - Alone(s, p, g);
             to == FailedAt(s, ServedEach(Ranged(s, q, p, f, g), f, j), f + j, w)
    ensures forall r :: 0 <= r < |to.readers| && COMMITTED(to.readers[r]) ==> r < 1 && to.readers[r] == Observed(p)
  {
    forall r | 0 <= r < |to.readers| && COMMITTED(to.readers[r])
      ensures r < 1 && to.readers[r] == Observed(p)
    {
      assert r < f;
    }
  }

  lemma FailedIsOvertaken(s: Setup, q: State, p: nat, f: nat, w: nat, g: nat, to: State)
    requires Ordinary(s) && FirstTrouble(s, p) && Aside(s, q, p, f, w) && InReach(s, p, f, g)
    requires var j := g - Alone(s, p, g);
             to == FailedAt(s, ServedEach(Ranged(s, q, p, f, g), f, j), f + j, w)
    ensures Overtaken(s, to, p, g)
    ensures |to.queue| + Committed(to.readers) <= s.depth
  {
    AheadFits(s, p);
    FailedReaders(s, q, p, f, w, g, to);
    TallyBound(to.readers, COMMITTED, 1);
  }

  lemma Overrun(s: Setup, first: seq<Action>, q: State, p: nat, f: nat, w: nat, g: nat) returns (run: seq<Action>)
    requires Ordinary(s) && FirstTrouble(s, p) && Leads(s, Init(s), first, q)
    requires Aside(s, q, p, f, w) && InReach(s, p, f, g)
    ensures Ends(s, run, OfBevy(g))
  {
    var more, to := ReachFailed(s, q, p, f, w, g);
    run := Onward(s, Init(s), first, q, more, to);
    FailedIsOvertaken(s, q, p, f, w, g, to);
    run := EndsOvertaken(s, run, to, p, g);
  }

  /** With a second worker: the first one holds the trouble. */
  lemma OverrunWorker(s: Setup, p: nat, g: nat) returns (run: seq<Action>)
    requires Ordinary(s) && FirstTrouble(s, p) && s.Readable(p) && s.workers > 1 && InReach(s, p, 0, g)
    ensures Ends(s, run, OfBevy(g))
  {
    run := ReachInWorker(s, p);
    run := Overrun(s, run, InWorker(s, p), p, 0, 1, g);
  }

  /** The first reader carries the trouble and the second one looks around. */
  function CarriedOpen(s: Setup, p: nat): State
    requires s.Arranged() && s.admitted > 1
  {
    Carried(s, p).(readers := Carried(s, p).readers[1 := Looking])
  }

  lemma ReachJoined(s: Setup, p: nat) returns (run: seq<Action>)
    requires Ordinary(s) && FirstTrouble(s, p) && s.Readable(p) && s.admitted > 1
    ensures Leads(s, Init(s), run, CarriedOpen(s, p))
    ensures Aside(s, CarriedOpen(s, p), p, 1, 0)
  {
    run := ReachCarried(s, p);
    GrownMonotone(s, 0, p + 1);
    var more := Welcome(s, Carried(s, p), 1);
    run := Onward(s, Init(s), run, Carried(s, p), more, CarriedOpen(s, p));
  }

  /** With a second reader: the first one carries it. */
  lemma OverrunReader(s: Setup, p: nat, g: nat) returns (run: seq<Action>)
    requires Ordinary(s) && FirstTrouble(s, p) && s.Readable(p) && s.admitted > 1 && InReach(s, p, 1, g)
    ensures Ends(s, run, OfBevy(g))
  {
    run := ReachJoined(s, p);
    run := Overrun(s, run, CarriedOpen(s, p), p, 1, 0, g);
  }

  // ----- a lone worker that holds it -----

  /** A reader that passed queues a bevy. */
  function QueuedBy(q: State, r: nat): State
    requires r < |q.readers|
  {
    q.(next := q.next + 1, observed := q.observed + 1, readers := q.readers[r := Looking], queue := q.queue + [q.next])
  }

  lemma QueueBy(s: Setup, q: State, r: nat) returns (run: seq<Action>)
    requires s.Arranged() && r < |q.readers| && r < s.Readers()
    requires q.readers[r].Passed? && q.next < s.Count() && s.Readable(q.next) && |q.queue| < s.depth
    ensures Leads(s, q, run, QueuedBy(q, r))
  {
    var q1 := Reported(s, q, None).(next := q.next + 1, readers := q.readers[r := Observed(q.next)]);
    run := Fetch(s, q, r, None);
    Then1(s, q1, Send(r));
    assert q1.readers[r := Looking] == q.readers[r := Looking];
    run := Onward(s, q, run, q1, [Send(r)], QueuedBy(q, r));
  }

  /** The first `k` readers have queued a bevy each. */
  ghost predicate QueuedEach(q: State, q': State, k: nat)
    requires k <= |q.readers|
  {
    && q' == q.(next := q.next + k, observed := q'.observed, readers := q'.readers, queue := q'.queue)
    && |q'.queue| == |q.queue| + k && |q'.readers| == |q.readers|
    && forall r :: 0 <= r < |q.readers| ==> if r < k then q'.readers[r].Looking? else q'.readers[r] == q.readers[r]
  }

  lemma {:induction false} QueueEach(s: Setup, q: State, k: nat) returns (run: seq<Action>, to: State)
    requires s.Arranged() && k <= |q.readers| == s.Readers() && q.next + k <= s.Count() && |q.queue| + k <= s.depth
    requires forall r :: 0 <= r < k ==> q.readers[r].Passed?
    requires forall b :: q.next <= b < q.next + k ==> s.Readable(b)
    ensures Leads(s, q, run, to) && QueuedEach(q, to, k)
  {
    if k == 0 {
      run, to := [], q;
    } else {
      var q1;
      run, q1 := QueueEach(s, q, k - 1);
      var more := QueueBy(s, q1, k - 1);
      to := QueuedBy(q1, k - 1);
      run := Onward(s, q, run, q1, more, to);
    }
  }

  /** A lone reader has queued bevies up to `n`. */
  ghost predicate QueuedOn(q: State, q': State, n: nat)
    requires q.next <= n
  {
    && q' == q.(next := n, observed := q'.observed, queue := q'.queue)
    && |q'.queue| == |q.queue| + (n - q.next)
  }

  lemma {:induction false} QueueOn(s: Setup, q: State, n: nat) returns (run: seq<Action>, to: State)
    requires s.Arranged() && |q.readers| == s.Readers() && q.readers[0].Looking? && q.admitted > 0 && !Stopping(q)
    requires q.next <= n <= s.Count() && n <= q.wanted + s.lookahead && |q.queue| + (n - q.next) <= s.depth
    requires forall b :: q.next <= b < n ==> s.Readable(b)
    ensures Leads(s, q, run, to) && QueuedOn(q, to, n)
    decreases n
  {
    if n == q.next {
      run, to := [], q;
    } else {
      var q1;
      run, q1 := QueueOn(s, q, n - 1);
      var q2 := q1.(readers := q1.readers[0 := Passed]);
      var more := Approach(s, q1, 0);
      run := Onward(s, q, run, q1, more, q2);
      more := QueueBy(s, q2, 0);
      to := QueuedBy(q2, 0);
      assert q2.readers[0 := Looking] == q1.readers;
      run := Onward(s, q, run, q2, more, to);
    }
  }

  /** A lone worker holds the trouble, reader `r` has passed, the others are not committed, and the queue has been filling. */
  ghost predicate Waylaid(s: Setup, q: State, r: nat, p: nat)
    requires s.st.Openable()
  {
    && r < |q.readers| == s.Readers() && q.readers[r].Passed? && |q.workers| == 1
    && (forall i :: 0 <= i < |q.readers| && i != r ==> !COMMITTED(q.readers[i]))
    && !q.workers[0].Decoding? && !Stopping(q) && |q.queue| <= s.depth
    && q.error.None? && q.expected == p && p !in q.ready && q.out == Ahead(s, p).bytes
  }

  lemma WaylaidIsOvertaken(s: Setup, q: State, r: nat, p: nat)
    requires s.Arranged() && FirstTrouble(s, p) && Waylaid(s, q, r, p) && !s.Readable(q.next)
    ensures var q' := FailedAt(s, q, r, 0); Overtaken(s, q', p, q.next) && |q'.queue| + Committed(q'.readers) <= s.depth
  {
    AheadFits(s, p);
    TallyBound(FailedAt(s, q, r, 0).readers, COMMITTED, 0);
  }

  /** With a lone worker that holds the trouble a reader fails, and what was queued on the way is drained. */
  lemma EndsQueued(s: Setup, first: seq<Action>, q: State, r: nat, p: nat) returns (run: seq<Action>)
    requires Ordinary(s) && FirstTrouble(s, p) && Leads(s, Init(s), first, q) && Waylaid(s, q, r, p)
    requires q.next < s.Count() && !s.Readable(q.next)
    ensures Ends(s, run, OfBevy(q.next))
  {
    var more := FailAt(s, q, r, 0);
    run := Onward(s, Init(s), first, q, more, FailedAt(s, q, r, 0));
    WaylaidIsOvertaken(s, q, r, p);
    run := EndsOvertaken(s, run, FailedAt(s, q, r, 0), p, q.next);
  }

  /** The only reader fails within the queue's depth. */
  lemma OverrunInQueue(s: Setup, p: nat, g: nat) returns (run: seq<Action>)
    requires Ordinary(s) && FirstTrouble(s, p) && s.Readable(p) && s.workers == 1 && s.admitted == 1
    requires p < g < s.Count() && !s.Readable(g) && g <= p + s.depth + 1
    requires forall b :: p < b < g ==> s.Readable(b)
    ensures Ends(s, run, OfBevy(g))
  {
    run := ReachInWorker(s, p);
    var q := InWorker(s, p);
    var more, q1 := QueueOn(s, q, g);
    run := Onward(s, Init(s), run, q, more, q1);
    var q2 := q1.(readers := q1.readers[0 := Passed]);
    more := Approach(s, q1, 0);
    run := Onward(s, Init(s), run, q1, more, q2);
    run := EndsQueued(s, run, q2, 0, p);
  }

  /** The lone worker holds the trouble, everything else within reach of one reader is decoded, every reader has passed. */
  function AtReach(s: Setup, p: nat): State
    requires s.Arranged() && s.admitted > 1
  {
    var q := ServedTo(s, CarriedOpen(s, p), p + s.lookahead - 1);
    Passing(q.(readers := q.readers[0 := Looking], workers := q.workers[0 := Holding(p)]), 0, s.admitted)
  }

  lemma ReachAtReach(s: Setup, p: nat) returns (run: seq<Action>)
    requires Ordinary(s) && FirstTrouble(s, p) && s.Readable(p) && s.workers == 1 && s.admitted > 1
    requires p + s.lookahead - 1 <= s.Count() && forall b :: p < b < p + s.lookahead - 1 ==> !Bad(s, b)
    ensures Leads(s, Init(s), run, AtReach(s, p))
  {
    var n0 := p + s.lookahead - 1;
    var q, q1 := CarriedOpen(s, p), ServedTo(s, CarriedOpen(s, p), n0);
    run := ReachJoined(s, p);
    var more := ReachAlone(s, q, p, 1, 0, n0);
    run := Onward(s, Init(s), run, q, more, q1);
    var q2 := q1.(readers := q1.readers[0 := Looking], workers := q1.workers[0 := Holding(p)]);
    more := HandOver(s, q1, 0, 0);
    run := Onward(s, Init(s), run, q1, more, q2);
    more := AllPass(s, q2, 0, s.admitted);
    run := Onward(s, Init(s), run, q2, more, AtReach(s, p));
  }

  /** All readers but the last have queued a bevy each: what is left is the last one's. */
  lemma AtReachQueued(s: Setup, p: nat, q: State)
    requires Ordinary(s) && s.workers == 1 && s.admitted > 1
    requires QueuedEach(AtReach(s, p), q, s.admitted - 1)
    ensures Waylaid(s, q, s.admitted - 1, p) && q.next == Far(s, p)
  {
  }

  /** The last reader within reach fails, the others having queued what they claimed before. */
  lemma OverrunAtReach(s: Setup, p: nat, g: nat) returns (run: seq<Action>)
    requires Ordinary(s) && FirstTrouble(s, p) && s.Readable(p) && s.workers == 1 && s.admitted > 1
    requires p < g < s.Count() && !s.Readable(g) && g == Far(s, p)
    requires forall b :: p < b < g ==> !Bad(s, b)
    ensures Ends(s, run, OfBevy(g))
  {
    var q, last := AtReach(s, p), s.admitted - 1;
    run := ReachAtReach(s, p);
    forall b | q.next <= b < q.next + last
      ensures s.Readable(b)
    {
      assert !Bad(s, b);
    }
    var more, q1 := QueueEach(s, q, last);
    run := Onward(s, Init(s), run, q, more, q1);
    AtReachQueued(s, p, q1);
    run := EndsQueued(s, run, q1, last, p);
  }

  // ----- exactly when the first trouble is reported -----

  /** The first bad bevy after `p`, given one. */
  lemma {:induction false} FirstBad(s: Setup, p: nat, g: nat) returns (b: nat)
    requires p < g && Bad(s, g)
    ensures p < b <= g && Bad(s, b) && forall c :: p < c < b ==> !Bad(s, c)
    decreases g
  {
    if c :| p < c < g && Bad(s, c) {
      b := FirstBad(s, p, c);
    } else {
      b := g;
    }
  }

  lemma {:induction false} FirstUnreadable(s: Setup, p: nat, g: nat) returns (b: nat)
    requires p < g && !s.Readable(g)
    ensures p < b <= g && !s.Readable(b) && forall c :: p < c < b ==> s.Readable(c)
    decreases g
  {
    if c :| p < c < g && !s.Readable(c) {
      b := FirstUnreadable(s, p, c);
    } else {
      b := g;
    }
  }

  /** If some bevy can overtake the first trouble, some run reports a later one. */
  lemma SomeRunReportsAnother(s: Setup, p: nat, g: nat) returns (run: seq<Action>, later: nat)
    requires Ordinary(s) && FirstTrouble(s, p) && Overtakes(s, p, g)
    ensures p < later <= g && Ends(s, run, OfBevy(later))
  {
    if s.workers == 1 && s.admitted == 1 {
      later := FirstUnreadable(s, p, g);
      run := OverrunInQueue(s, p, later);
    } else {
      later := FirstBad(s, p, g);
      if s.workers > 1 {
        run := OverrunWorker(s, p, later);
      } else if later < Far(s, p) {
        run := OverrunReader(s, p, later);
      } else {
        run := OverrunAtReach(s, p, later);
      }
    }
  }

  /** The first reader has passed every check before it claims the first trouble. */
  function Facing(s: Setup, p: nat): State
    requires s.Arranged()
  {
    Cruising(s, p).(readers := Init(s).readers[0 := Passed])
  }

  lemma ReachFacing(s: Setup, p: nat) returns (run: seq<Action>)
    requires Ordinary(s) && FirstTrouble(s, p)
    ensures Leads(s, Init(s), run, Facing(s, p))
  {
    run := Cruise(s, p);
    var more := Approach(s, Cruising(s, p), 0);
    assert Cruising(s, p).readers[0 := Passed] == Init(s).readers[0 := Passed];
    run := Onward(s, Init(s), run, Cruising(s, p), more, Facing(s, p));
  }

  /** The consumer meets a short chunk, and closes. */
  lemma MeetsShort(s: Setup, p: nat) returns (run: seq<Action>, to: State)
    requires Ordinary(s) && FirstTrouble(s, p) && !Bad(s, p)
    ensures Leads(s, Facing(s, p), run, to) && Stopping(to) && to.queue == [] && to.error.Some?
    ensures to.readers == Init(s).readers[0 := Looking]
  {
    var q := Facing(s, p);
    var q1 := Served(s, q, 0, None);
    run := Serve(s, q, 0, 0, None);
    AheadFits(s, p);
    AheadNext(s, p);
    Then2(s, q1, Look(None), Close);
    to := Next(s, Next(s, q1, Look(None)), Close);
    run := Onward(s, q, run, q1, [Look(None), Close], to);
  }

  /** The first trouble is met before anything else has failed. */
  lemma MeetsTrouble(s: Setup, p: nat) returns (run: seq<Action>, to: State)
    requires Ordinary(s) && FirstTrouble(s, p)
    ensures Leads(s, Init(s), run, to) && Stopping(to) && to.queue == [] && Committed(to.readers) <= s.depth
    ensures to.failure == Some(p) || to.error.Some?
  {
    var q := Facing(s, p);
    run := ReachFacing(s, p);
    var more;
    if Bad(s, p) {
      more := FailAt(s, q, 0, 0);
      to := FailedAt(s, q, 0, 0);
    } else {
      more, to := MeetsShort(s, p);
    }
    run := Onward(s, Init(s), run, q, more, to);
    TallyBound(to.readers, COMMITTED, 0);
  }

  /** A run that has met the first trouble reports it. */
  lemma MetIsReported(s: Setup, p: nat, run: seq<Action>, q: State)
    requires Ordinary(s) && FirstTrouble(s, p) && Leads(s, Init(s), run, q) && Joined(q)
    requires (q.failure.Some? && q.failure.value <= p) || q.error.Some?
    ensures Verdict(s, q) == Some(ReportOf(s, p))
  {
    StandingInit(s, p);
    StandingRun(s, Init(s), p, run);
    if q.failure.Some? {
      RecordedIsLater(s, q, p);
    }
    EndReports(s, q, p);
  }

  /** Some run always reports the first trouble. */
  lemma SomeRunReportsIt(s: Setup, p: nat) returns (run: seq<Action>)
    requires Ordinary(s) && FirstTrouble(s, p)
    ensures Ends(s, run, ReportOf(s, p))
  {
    var first, q := MeetsTrouble(s, p);
    SafeInit(s);
    SafeRun(s, Init(s), first);
    var rest := JoinFrom(s, first, q);
    run := first + rest;
    MetStays(s, q, p, rest);
    MetIsReported(s, p, run, After(s, q, rest));
  }

  lemma {:induction false} MetStays(s: Setup, q: State, p: nat, run: seq<Action>)
    requires s.st.Openable() && Settled(q) && Feasible(s, q, run)
    requires (q.failure.Some? && q.failure.value <= p) || q.error.Some?
    ensures var q' := After(s, q, run); (q'.failure.Some? && q'.failure.value <= p) || q'.error.Some?
    decreases |run|
  {
    if run != [] {
      if q.failure.Some? {
        RecordOnlyLowers(s, q, run[0]);
      }
      if q.error.Some? {
        ErrorStays(s, q, run[0]);
      }
      SettledStep(s, q, run[0]);
      MetStays(s, Next(s, q, run[0]), p, run[1..]);
    }
  }

  lemma SettledStep(s: Setup, q: State, a: Action)
    requires s.st.Openable() && Settled(q) && Enabled(s, q, a)
    ensures Settled(Next(s, q, a))
  {
  }

  /**
   Every run that ends reports the first trouble in stream order exactly when no later bevy overtakes it. The
   documentation (src/parallel.rs, on `FirstError` and on `read_all_parallel`) promises it always.
   */
  lemma ReportsFirstTroubleExactlyWhen(s: Setup, p: nat)
    requires Ordinary(s) && FirstTrouble(s, p)
    ensures AlwaysReports(s, ReportOf(s, p)) <==> NoneOvertakes(s, p)
  {
    if NoneOvertakes(s, p) {
      ReportsFirstTrouble(s, p);
    } else {
      var g :| Overtakes(s, p, g);
      var run, later := SomeRunReportsAnother(s, p, g);
      assert OfBevy(later) != ReportOf(s, p);
    }
  }

  /** Where one does, the same storage is reported differently from run to run. */
  lemma ReportDependsOnTiming(s: Setup, p: nat, g: nat) returns (earliest: seq<Action>, other: seq<Action>, later: nat)
    requires Ordinary(s) && FirstTrouble(s, p) && Overtakes(s, p, g)
    ensures Ends(s, earliest, ReportOf(s, p))
    ensures p < later <= g && Ends(s, other, OfBevy(later))
  {
    earliest := SomeRunReportsIt(s, p);
    other, later := SomeRunReportsAnother(s, p, g);
  }

  /** Three bevies: the first does not decode, the second cannot be read. */
  function TwoFaults(plan: ThreadPlan, pinned: bool, chunkSize: nat, chunksInSegment: nat): Setup
    requires Possible(plan, chunkSize, chunksInSegment)
  {
    var per := chunkSize * chunksInSegment;
    var depth := QueueDepth(per, plan.readers);
    Setup(ImageStream("aff4://s", Min(U64_MAX, 3 * per), chunkSize, chunksInSegment), [Held([None], true, 1)], {1},
          Repeat(true, plan.ReaderCeiling(pinned)), plan.workers, plan.readers, depth,
          Slots(per, plan.workers) + depth + plan.workers, true)
  }

  /** Under any plan, over bevies of any size, some storage is reported differently from run to run. */
  lemma EveryPlanCanBeOvertaken(plan: ThreadPlan, pinned: bool, chunkSize: nat, chunksInSegment: nat)
    requires Possible(plan, chunkSize, chunksInSegment)
    ensures var s := TwoFaults(plan, pinned, chunkSize, chunksInSegment);
            && AsPlanned(s, plan, pinned) && Ordinary(s) && FirstTrouble(s, 0)
            && Overtakes(s, 0, 1) && !AlwaysReports(s, ReportOf(s, 0))
  {
    var s := TwoFaults(plan, pinned, chunkSize, chunksInSegment);
    var per := chunkSize * chunksInSegment;
    DivModAt(3, per, per - 1);
    assert s.Count() == 3;
    assert BevyPlain(s.st) == per;
    PlannedIsArranged(s, plan, pinned);
    assert BevyAt(s.bevies, 0).chunks[0].None?;
    assert Ahead(s, 0).Whole() && FirstTrouble(s, 0);
    assert Overtakes(s, 0, 1);
    ReportsFirstTroubleExactlyWhen(s, 0);
  }
}
