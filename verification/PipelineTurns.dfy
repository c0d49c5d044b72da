/**
 A pipelined read that reports the first trouble in every run (src/parallel.rs): the order in which a lone worker,
 and a lone reader, take the bevies.
 */
module PipelineTurns {
  import opened Basics
  import opened Pipeline
  import opened PipelineProgress
  import opened PipelineShutdown
  import opened PipelineReport

  // ----- one reader and one worker -----

  function WithOneWorker(worker: Worker): seq<nat> {
    if worker.Holding? || worker.Decoding? then [worker.bevy] else []
  }

  function WithOneReader(reader: Reader): seq<nat> {
    if reader.Claimed? || reader.Loaded? || reader.Observed? then [reader.bevy] else []
  }

  /** The bevies in hand, first claimed first. */
  function Line(q: State): seq<nat>
    requires |q.readers| == 1 && |q.workers| == 1
  {
    WithOneWorker(q.workers[0]) + q.queue + WithOneReader(q.readers[0])
  }

  /** How many bevies a lone reader has claimed and a lone worker finished with. */
  function Done(s: Setup, q: State): int
    requires s.st.Openable() && |q.readers| == 1 && |q.workers| == 1
  {
    Min(q.next, s.Count()) - |Line(q)|
  }

  /** The bevies in hand are the last ones claimed, in order, and those before them are decoded. */
  ghost predicate InTurn(s: Setup, q: State)
    requires s.st.Openable()
  {
    && |q.readers| == 1 && |q.workers| == 1 && |q.queue| <= s.depth
    && 0 <= Done(s, q)
    && (forall i :: 0 <= i < |Line(q)| ==> Line(q)[i] == Done(s, q) + i)
    && (forall b :: q.expected <= b < Done(s, q) ==> b in q.ready)
  }

  /** The line and what is decoded are as before. */
  lemma InTurnSame(s: Setup, q: State, q': State)
    requires s.st.Openable() && InTurn(s, q) && |q'.readers| == 1 && |q'.workers| == 1
    requires Line(q') == Line(q) && |q'.queue| <= s.depth && Min(q'.next, s.Count()) == Min(q.next, s.Count())
    requires q'.expected >= q.expected && forall b :: b in q.ready && b >= q'.expected ==> b in q'.ready
    ensures InTurn(s, q')
  {
  }

  lemma InTurnClaim(s: Setup, q: State, q': State)
    requires s.st.Openable() && InTurn(s, q) && q.readers[0].Passed? && q.next < s.Count()
    requires q' == q.(next := q.next + 1, readers := q.readers[0 := Claimed(q.next)])
    ensures InTurn(s, q')
  {
    assert Line(q') == Line(q) + [q.next];
  }

  lemma InTurnReader(s: Setup, q: State, a: Action)
    requires s.st.Openable() && InTurn(s, q) && OfReader(a) && ReaderEnabled(s, q, a)
    requires q.failure.None? && NextReader(s, q, a).failure.None?
    ensures InTurn(s, NextReader(s, q, a))
  {
    var q' := NextReader(s, q, a);
    if a.Claim? && q.next < s.Count() {
      InTurnClaim(s, q, q');
    } else {
      assert Line(q') == Line(q);
      InTurnSame(s, q, q');
    }
  }

  /** The first bevy in line is decoded. */
  lemma InTurnDecoded(s: Setup, q: State, q': State)
    requires s.st.Openable() && InTurn(s, q) && q.workers[0].Decoding?
    requires q' == q.(workers := [Idle], ready := q.ready + {q.workers[0].bevy}, consumer := q'.consumer)
    ensures InTurn(s, q')
  {
    assert Line(q) == [q.workers[0].bevy] + Line(q');
    assert Line(q)[0] == Done(s, q);
    forall i | 0 <= i < |Line(q')|
      ensures Line(q')[i] == Done(s, q') + i
    {
      assert Line(q')[i] == Line(q)[i + 1];
    }
  }

  lemma InTurnWorker(s: Setup, q: State, a: Action)
    requires s.st.Openable() && InTurn(s, q) && OfWorker(a) && WorkerEnabled(q, a)
    requires !Stopping(q) && NextWorker(s, q, a).failure.None?
    ensures InTurn(s, NextWorker(s, q, a))
  {
    var q' := NextWorker(s, q, a);
    if a.Decode? {
      assert q.workers[a.w := Idle] == [Idle];
      InTurnDecoded(s, q, q');
    } else {
      assert a.Take? ==> [q.queue[0]] + q.queue[1..] == q.queue;
      assert Line(q') == Line(q);
      InTurnSame(s, q, q');
    }
  }

  lemma InTurnConsumer(s: Setup, q: State, a: Action)
    requires s.st.Openable() && InTurn(s, q) && OfConsumer(a) && ConsumerEnabled(s, q, a)
    requires Waiting(NextConsumer(s, q, a))
    ensures InTurn(s, NextConsumer(s, q, a))
  {
    var q' := NextConsumer(s, q, a);
    assert q'.readers == q.readers && q'.workers == q.workers && q'.queue == q.queue && q'.next == q.next;
    InTurnSame(s, q, q');
  }

  /** A bevy whose member cannot be read fails too late to hide one it cannot overtake. */
  lemma InTurnReadFails(s: Setup, q: State, r: nat, p: nat)
    requires s.Arranged() && InTurn(s, q) && q.expected <= p
    requires r < |q.readers| && q.readers[r].Claimed? && IsClaimed(s, q, q.readers[r].bevy)
    requires q.readers[r].bevy > p + s.depth + 1
    ensures AllReady(q, p)
  {
    assert Line(q)[|Line(q)| - 1] == q.readers[0].bevy;
    assert |Line(q)| <= s.depth + 2;
  }

  /** A bevy that does not decode fails after all those before it were decoded. */
  lemma InTurnDecodeFails(s: Setup, q: State, w: nat, p: nat)
    requires s.Arranged() && InTurn(s, q) && q.expected <= p
    requires w < |q.workers| && q.workers[w].Decoding? && q.workers[w].bevy > p
    ensures AllReady(q, p)
  {
    assert Line(q)[0] == q.workers[0].bevy;
  }

  // ----- several readers and one worker -----

  /** The lone worker has the bevy, or has decoded it. */
  predicate Taken(q: State, p: nat)
    requires |q.workers| == 1
  {
    p in q.ready || Handles(q.workers[0], p)
  }

  /** While a reader carries `p` it claims nothing else, so the last bevy within reach is out of reach. */
  ghost predicate KeepsBack(s: Setup, q: State, p: nat)
    requires s.admitted <= s.Readers()
  {
    forall r :: 0 <= r < |q.readers| && Carries(q.readers[r], p) ==> q.next + Tally(q.readers, PASSED) <= Far(s, p)
  }

  /** The last bevy within reach, `far`, is behind `p` wherever it is. */
  ghost predicate Behind(q: State, p: nat, far: nat)
    requires |q.workers| == 1
  {
    && (forall r :: 0 <= r < |q.readers| && Carries(q.readers[r], far) ==> Taken(q, p) || p in q.queue)
    && (forall j :: 0 <= j < |q.queue| && q.queue[j] == far ==> Taken(q, p) || p in q.queue[..j])
    && (Handles(q.workers[0], far) ==> p in q.ready)
  }

  /** All but one of the readers, at most, are of a kind that one of them is not. */
  lemma {:induction false} TallyOthers(readers: seq<Reader>, kind: Reader -> bool, r: nat)
    requires r < |readers| && !kind(readers[r])
    ensures Tally(readers, kind) <= |readers| - 1
  {
    if r > 0 {
      TallyOthers(readers[1..], kind, r - 1);
    } else {
      TallyBound(readers[1..], kind, |readers| - 1);
    }
  }

  /** One worker, and every reader admitted from the start. */
  ghost predicate LoneWorker(s: Setup, q: State) {
    s.Arranged() && s.Readers() == s.admitted && |q.readers| == s.Readers() && |q.workers| == 1
  }

  lemma KeepsBackPass(s: Setup, q: State, a: Action, p: nat)
    requires LoneWorker(s, q) && KeepsBack(s, q, p) && Within(s, q) && q.wanted <= p
    requires a.Pass? && ReaderEnabled(s, q, a)
    ensures KeepsBack(s, NextReader(s, q, a), p)
  {
    var q' := NextReader(s, q, a);
    forall r | 0 <= r < |q'.readers| && Carries(q'.readers[r], p)
      ensures q'.next + Tally(q'.readers, PASSED) <= Far(s, p)
    {
      TallyOthers(q'.readers, PASSED, r);
    }
  }

  lemma KeepsBackClaim(s: Setup, q: State, a: Action, p: nat)
    requires LoneWorker(s, q) && KeepsBack(s, q, p)
    requires a.Claim? && ReaderEnabled(s, q, a) && q.next < s.Count()
    ensures KeepsBack(s, NextReader(s, q, a), p)
  {
    var q' := NextReader(s, q, a);
    TallyUpdate(q.readers, PASSED, a.r, q'.readers[a.r]);
    assert q'.readers == q.readers[a.r := Claimed(q.next)] && q'.next == q.next + 1;
    if q.next == p {
      TallyOthers(q'.readers, PASSED, a.r);
    } else {
      forall r | 0 <= r < |q'.readers| && Carries(q'.readers[r], p)
        ensures q'.next + Tally(q'.readers, PASSED) <= Far(s, p)
      {
        assert r != a.r && Carries(q.readers[r], p);
      }
    }
  }

  /** A reader that claims nothing and passes nothing. */
  lemma KeepsBackOther(s: Setup, q: State, q': State, p: nat, r0: nat, x: Reader)
    requires s.admitted <= s.Readers() && KeepsBack(s, q, p)
    requires r0 < |q.readers| && q'.readers == q.readers[r0 := x] && q'.next == q.next
    requires !q.readers[r0].Passed? && !x.Passed? && (Carries(x, p) ==> Carries(q.readers[r0], p))
    ensures KeepsBack(s, q', p)
  {
    TallyUpdate(q.readers, PASSED, r0, x);
    forall r | 0 <= r < |q'.readers| && Carries(q'.readers[r], p)
      ensures q'.next + Tally(q'.readers, PASSED) <= Far(s, p)
    {
      assert Carries(q.readers[r], p);
    }
  }

  /** A reader that finds every bevy claimed stops; past the end nothing is carried into reach again. */
  lemma KeepsBackReader(s: Setup, q: State, a: Action, p: nat)
    requires LoneWorker(s, q) && KeepsBack(s, q, p) && Within(s, q) && q.wanted <= p
    requires OfReader(a) && ReaderEnabled(s, q, a)
    ensures KeepsBack(s, NextReader(s, q, a), p)
  {
    if a.Pass? {
      KeepsBackPass(s, q, a, p);
    } else if a.Claim? && q.next < s.Count() {
      KeepsBackClaim(s, q, a, p);
    } else if a.Claim? {
      KeepsBackSpent(s, q, a, p);
    } else {
      var q' := NextReader(s, q, a);
      KeepsBackOther(s, q, q', p, a.r, q'.readers[a.r]);
    }
  }

  lemma KeepsBackSpent(s: Setup, q: State, a: Action, p: nat)
    requires LoneWorker(s, q) && KeepsBack(s, q, p)
    requires a.Claim? && ReaderEnabled(s, q, a) && q.next >= s.Count()
    ensures KeepsBack(s, NextReader(s, q, a), p)
  {
    var q' := NextReader(s, q, a);
    TallyUpdate(q.readers, PASSED, a.r, Stopped);
    forall r | 0 <= r < |q'.readers| && Carries(q'.readers[r], p)
      ensures q'.next + Tally(q'.readers, PASSED) <= Far(s, p)
    {
      assert r != a.r && Carries(q.readers[r], p);
    }
  }

  /** The claim of the last bevy within reach comes when `p` has left its reader. */
  lemma BehindClaim(s: Setup, q: State, a: Action, p: nat)
    requires LoneWorker(s, q) && KeepsBack(s, q, p) && Behind(q, p, Far(s, p)) && p < Far(s, p)
    requires Located(q, p) || q.next != Far(s, p)
    requires q.expected <= p && a.Claim? && ReaderEnabled(s, q, a)
    ensures Behind(NextReader(s, q, a), p, Far(s, p))
  {
    var q', far := NextReader(s, q, a), Far(s, p);
    assert q'.workers == q.workers && q'.ready == q.ready && q'.queue == q.queue;
    if q.next == far && q.next < s.Count() {
      assert !WithReader(q, p) by {
        TallyBound(q.readers, PASSED, |q.readers|);
        assert PASSED(q.readers[a.r]);
      }
      assert Taken(q', p) || p in q'.queue;
    }
    forall r | 0 <= r < |q'.readers| && Carries(q'.readers[r], far)
      ensures Taken(q', p) || p in q'.queue
    {
      assert r != a.r ==> Carries(q.readers[r], far);
    }
  }

  /** A reader's other actions move one bevy from its hands to the queue's end, or none. */
  lemma BehindReader(q: State, q': State, p: nat, far: nat, r0: nat, x: Reader)
    requires |q.workers| == 1 && Behind(q, p, far)
    requires r0 < |q.readers| && q'.readers == q.readers[r0 := x]
    requires q'.workers == q.workers && q'.ready == q.ready
    requires Carries(x, far) ==> Carries(q.readers[r0], far)
    requires q'.queue == q.queue || (q.readers[r0].Observed? && q'.queue == q.queue + [q.readers[r0].bevy])
    ensures Behind(q', p, far)
  {
    forall r | 0 <= r < |q'.readers| && Carries(q'.readers[r], far)
      ensures Taken(q', p) || p in q'.queue
    {
      assert Carries(q.readers[r], far);
    }
    forall j | 0 <= j < |q'.queue| && q'.queue[j] == far
      ensures Taken(q', p) || p in q'.queue[..j]
    {
      if j < |q.queue| {
        assert q.queue[j] == far && q'.queue[..j] == q.queue[..j];
      } else {
        assert Carries(q.readers[r0], far) && q'.queue[..j] == q.queue;
      }
    }
  }

  lemma BehindTake(q: State, q': State, p: nat, far: nat)
    requires |q.workers| == 1 && Behind(q, p, far) && q.workers[0].Idle? && q.queue != []
    requires q'.readers == q.readers && q'.ready == q.ready
    requires q'.workers == [Holding(q.queue[0])] && q'.queue == q.queue[1..]
    ensures Behind(q', p, far)
  {
    forall j | 0 <= j < |q'.queue| && q'.queue[j] == far
      ensures Taken(q', p) || p in q'.queue[..j]
    {
      assert q.queue[j + 1] == far;
      assert q.queue[..j + 1] == [q.queue[0]] + q'.queue[..j];
    }
    assert p in q.queue ==> p == q.queue[0] || p in q'.queue;
    if q.queue[0] == far {
      assert q.queue[..0] == [];
    }
  }

  /** The worker keeps what it has, or has decoded it. */
  lemma BehindWorker(q: State, q': State, p: nat, far: nat, x: Worker)
    requires |q.workers| == 1 && Behind(q, p, far)
    requires q'.readers == q.readers && q'.queue == q.queue && q'.workers == [x] && q.ready <= q'.ready
    requires Handles(q.workers[0], p) ==> Handles(x, p) || p in q'.ready
    requires Handles(x, far) ==> Handles(q.workers[0], far)
    ensures Behind(q', p, far)
  {
  }

  lemma BehindWorkerStep(s: Setup, q: State, a: Action, p: nat, far: nat)
    requires |q.workers| == 1 && Behind(q, p, far) && OfWorker(a) && WorkerEnabled(q, a)
    requires !Stopping(q) && NextWorker(s, q, a).failure.None?
    ensures Behind(NextWorker(s, q, a), p, far)
  {
    var q' := NextWorker(s, q, a);
    assert q'.workers == [q'.workers[0]];
    if a.Take? {
      BehindTake(q, q', p, far);
    } else {
      BehindWorker(q, q', p, far, q'.workers[0]);
    }
  }

  // ----- the first trouble is reported -----

  /** While nothing has failed, no bevy that could hide the first trouble is ahead of it. */
  ghost predicate InHand(s: Setup, q: State, p: nat)
    requires s.Arranged()
  {
    q.failure.None? && q.error.None? && s.workers == 1 ==>
      if s.admitted > 1 then LoneWorker(s, q) && KeepsBack(s, q, p) && Behind(q, p, Far(s, p)) else InTurn(s, q)
  }

  ghost predicate NoneOvertakes(s: Setup, p: nat)
    requires s.Arranged()
  {
    forall g :: !Overtakes(s, p, g)
  }

  /** The consumer has not failed and nothing has been recorded: it is still waiting. */
  lemma StillWaiting(s: Setup, q: State, p: nat)
    requires s.Arranged() && FirstTrouble(s, p) && Standing(s, q, p)
    requires q.failure.None? && q.error.None?
    ensures Waiting(q) && !Stopping(q) && !Complete(s, q)
  {
    NotComplete(s, q, p);
  }

  /** A reader fails on a bevy out of reach of the first trouble. */
  lemma ReadFailsTooLate(s: Setup, q: State, r: nat, p: nat)
    requires Ordinary(s) && FirstTrouble(s, p) && s.Readable(p) && NoneOvertakes(s, p)
    requires Standing(s, q, p) && InHand(s, q, p) && q.failure.None? && q.error.None?
    requires r < |q.readers| && q.readers[r].Claimed? && !s.Readable(q.readers[r].bevy)
    ensures AllReady(q, p)
  {
    var f := q.readers[r].bevy;
    ClaimedIsNear(s, q, p);
    assert f < s.Count() && f <= Far(s, p);
    assert f > p;
    assert !Overtakes(s, p, f);
    InTurnReadFails(s, q, r, p);
  }

  /** A worker fails on a bevy that came to it after the first trouble. */
  lemma DecodeFailsTooLate(s: Setup, q: State, w: nat, p: nat)
    requires Ordinary(s) && FirstTrouble(s, p) && s.Readable(p) && NoneOvertakes(s, p)
    requires Standing(s, q, p) && InHand(s, q, p) && q.failure.None? && q.error.None?
    requires w < |q.workers| && q.workers[w].Decoding? && !s.Decodes(q.workers[w].bevy) && q.workers[w].bevy != p
    ensures AllReady(q, p)
  {
    var f := q.workers[w].bevy;
    ClaimedIsNear(s, q, p);
    assert IsClaimed(s, q, f) && f <= Far(s, p);
    assert f > p;
    assert !Overtakes(s, p, f);
    if s.admitted > 1 {
      assert w == 0 && f == Far(s, p) && Handles(q.workers[0], f);
      assert q.expected == p;
    } else {
      InTurnDecodeFails(s, q, w, p);
    }
  }

  lemma FailsTooLate(s: Setup, q: State, a: Action, p: nat)
    requires Ordinary(s) && FirstTrouble(s, p) && s.Readable(p) && NoneOvertakes(s, p)
    requires Standing(s, q, p) && InHand(s, q, p) && q.failure.None? && q.error.None? && Enabled(s, q, a)
    requires var f := Next(s, q, a).failure; f.Some? && f.value != p
    ensures TooLate(Next(s, q, a), p)
  {
    StillWaiting(s, q, p);
    if a.Read? {
      ReadFailsTooLate(s, q, a.r, p);
    } else {
      assert a.Decode?;
      DecodeFailsTooLate(s, q, a.w, p);
    }
  }

  lemma LoneWorkerReader(s: Setup, q: State, a: Action, p: nat)
    requires LoneWorker(s, q) && KeepsBack(s, q, p) && Behind(q, p, Far(s, p)) && Within(s, q)
    requires q.wanted <= q.expected <= p && (Located(q, p) || q.next != Far(s, p))
    requires OfReader(a) && ReaderEnabled(s, q, a)
    ensures var q' := NextReader(s, q, a); LoneWorker(s, q') && KeepsBack(s, q', p) && Behind(q', p, Far(s, p))
  {
    KeepsBackReader(s, q, a, p);
    if a.Claim? {
      BehindClaim(s, q, a, p);
    } else {
      var q' := NextReader(s, q, a);
      BehindReader(q, q', p, Far(s, p), a.r, q'.readers[a.r]);
    }
  }

  lemma LoneWorkerWorker(s: Setup, q: State, a: Action, p: nat)
    requires LoneWorker(s, q) && KeepsBack(s, q, p) && Behind(q, p, Far(s, p))
    requires OfWorker(a) && WorkerEnabled(q, a) && !Stopping(q) && NextWorker(s, q, a).failure.None?
    ensures var q' := NextWorker(s, q, a); LoneWorker(s, q') && KeepsBack(s, q', p) && Behind(q', p, Far(s, p))
  {
    BehindWorkerStep(s, q, a, p, Far(s, p));
    assert NextWorker(s, q, a).readers == q.readers && NextWorker(s, q, a).next == q.next;
  }

  lemma LoneWorkerStep(s: Setup, q: State, a: Action, p: nat)
    requires Ordinary(s) && FirstTrouble(s, p) && s.workers == 1 && s.admitted > 1
    requires Standing(s, q, p) && InHand(s, q, p) && q.failure.None? && q.error.None? && Enabled(s, q, a)
    requires var q' := Next(s, q, a); q'.failure.None? && q'.error.None? && Waiting(q')
    ensures InHand(s, Next(s, q, a), p)
  {
    StillWaiting(s, q, p);
    if OfReader(a) {
      assert q.next == Far(s, p) && p < s.Count() ==> Located(q, p);
      LoneWorkerReader(s, q, a, p);
    } else if OfWorker(a) {
      LoneWorkerWorker(s, q, a, p);
    } else {
      LoneWorkerConsumer(s, q, a, p);
    }
  }

  /** The consumer takes what comes before `p`, and fails if it takes `p`. */
  lemma LoneWorkerConsumer(s: Setup, q: State, a: Action, p: nat)
    requires s.Arranged() && s.steady && FirstTrouble(s, p) && Tracks(s, q, p) && Decoded(s, q)
    requires LoneWorker(s, q) && KeepsBack(s, q, p) && Behind(q, p, Far(s, p)) && q.error.None? && Waiting(q)
    requires OfConsumer(a) && ConsumerEnabled(s, q, a) && !Complete(s, q)
    requires var q' := NextConsumer(s, q, a); q'.error.None? && Waiting(q')
    ensures var q' := NextConsumer(s, q, a); LoneWorker(s, q') && KeepsBack(s, q', p) && Behind(q', p, Far(s, p))
  {
    var q' := NextConsumer(s, q, a);
    assert q'.readers == q.readers && q'.workers == q.workers && q'.queue == q.queue && q'.next == q.next;
    if a.Look? && q.expected in q.ready {
      TracksLook(s, q, a, p);
    }
    assert p in q.ready ==> p in q'.ready;
  }

  lemma InHandStep(s: Setup, q: State, a: Action, p: nat)
    requires Ordinary(s) && FirstTrouble(s, p)
    requires Standing(s, q, p) && InHand(s, q, p) && q.failure.None? && q.error.None? && Enabled(s, q, a)
    requires var q' := Next(s, q, a); q'.failure.None? && q'.error.None? && Waiting(q')
    ensures InHand(s, Next(s, q, a), p)
  {
    StillWaiting(s, q, p);
    if s.workers == 1 && s.admitted > 1 {
      LoneWorkerStep(s, q, a, p);
    } else if s.workers == 1 {
      if OfReader(a) {
        InTurnReader(s, q, a);
      } else if OfWorker(a) {
        InTurnWorker(s, q, a);
      } else {
        InTurnConsumer(s, q, a);
      }
    }
  }

  ghost predicate Kept(s: Setup, q: State, p: nat)
    requires s.Arranged()
  {
    Standing(s, q, p) && InHand(s, q, p) && TooLate(q, p)
  }

  /** Another bevy has been recorded, and may be again: it stays too late. */
  lemma KeptOnceFailed(s: Setup, q: State, a: Action, p: nat)
    requires Ordinary(s) && FirstTrouble(s, p) && Standing(s, q, p) && TooLate(q, p) && Enabled(s, q, a)
    requires q.failure.Some? && q.failure.value != p
    ensures TooLate(Next(s, q, a), p)
  {
    if q.error.None? {
      NotComplete(s, q, p);
    }
    TooLateKept(s, q, a, p);
  }

  lemma RecordOnlyLowers(s: Setup, q: State, a: Action)
    requires s.st.Openable() && Enabled(s, q, a) && q.failure.Some?
    ensures var f := Next(s, q, a).failure; f.Some? && f.value <= q.failure.value
  {
  }

  lemma ErrorStays(s: Setup, q: State, a: Action)
    requires s.st.Openable() && Enabled(s, q, a) && q.error.Some? && Settled(q)
    ensures Next(s, q, a).error.Some?
  {
  }

  lemma KeptStep(s: Setup, q: State, a: Action, p: nat)
    requires Ordinary(s) && FirstTrouble(s, p) && s.Readable(p) && NoneOvertakes(s, p)
    requires Kept(s, q, p) && Enabled(s, q, a)
    ensures Kept(s, Next(s, q, a), p)
  {
    StandingStep(s, q, a, p);
    if q.failure.Some? {
      RecordOnlyLowers(s, q, a);
      if q.failure.value != p {
        KeptOnceFailed(s, q, a, p);
      } else {
        RecordedIsLater(s, Next(s, q, a), p);
      }
    } else if q.error.Some? {
      ErrorStays(s, q, a);
    } else if Next(s, q, a).failure.Some? {
      if Next(s, q, a).failure.value != p {
        FailsTooLate(s, q, a, p);
      }
    } else if Next(s, q, a).error.None? {
      StillWaiting(s, Next(s, q, a), p);
      InHandStep(s, q, a, p);
    }
  }

  lemma {:induction false} KeptRun(s: Setup, q: State, p: nat, run: seq<Action>)
    requires Ordinary(s) && FirstTrouble(s, p) && s.Readable(p) && NoneOvertakes(s, p)
    requires Kept(s, q, p) && Feasible(s, q, run)
    ensures Kept(s, After(s, q, run), p)
    decreases |run|
  {
    if run != [] {
      KeptStep(s, q, run[0], p);
      KeptRun(s, Next(s, q, run[0]), p, run[1..]);
    }
  }

  lemma {:induction false} StandingRun(s: Setup, q: State, p: nat, run: seq<Action>)
    requires Ordinary(s) && FirstTrouble(s, p) && Standing(s, q, p) && Feasible(s, q, run)
    ensures Standing(s, After(s, q, run), p)
    decreases |run|
  {
    if run != [] {
      StandingStep(s, q, run[0], p);
      StandingRun(s, Next(s, q, run[0]), p, run[1..]);
    }
  }

  /** A first trouble that no later bevy can overtake is what every run reports. */
  lemma ReportsFirstTrouble(s: Setup, p: nat)
    requires Ordinary(s) && FirstTrouble(s, p) && NoneOvertakes(s, p)
    ensures AlwaysReports(s, ReportOf(s, p))
  {
    forall run: seq<Action> | Feasible(s, Init(s), run) && Joined(After(s, Init(s), run))
      ensures Verdict(s, After(s, Init(s), run)) == Some(ReportOf(s, p))
    {
      StandingInit(s, p);
      StandingRun(s, Init(s), p, run);
      if s.Readable(p) {
        KeptRun(s, Init(s), p, run);
      }
      EndReports(s, After(s, Init(s), run), p);
    }
  }
}
