/**
 Which failure a pipelined read reports (src/parallel.rs): always a real one, and the one a serial reader would
 have met first unless a later bevy can fail while that one is still in some thread's hands.
 */
module PipelineReport {
  import opened Basics
  import opened Deliveries
  import opened Streams
  import opened Pipeline
  import opened PipelineProgress
  import opened PipelineOutcome
  import opened PipelineShutdown
  import opened PipelineRuns

  /** A bevy that cannot be read, or not decoded whole. */
  predicate Bad(s: Setup, b: nat) {
    !s.Readable(b) || !s.Decodes(b)
  }

  /** A handle that does not open counts against the first bevy. */
  predicate IsFault(s: Setup, b: nat) {
    Bad(s, b) || (b == 0 && exists r :: 0 <= r < s.Readers() && !s.opens[r])
  }

  ghost predicate FaultRecorded(s: Setup, q: State) {
    q.failure.Some? ==> IsFault(s, q.failure.value)
  }

  lemma FaultStep(s: Setup, q: State, a: Action)
    requires s.st.Openable() && FaultRecorded(s, q) && Enabled(s, q, a)
    ensures FaultRecorded(s, Next(s, q, a))
  {
  }

  lemma {:induction false} FaultRun(s: Setup, q: State, run: seq<Action>)
    requires s.st.Openable() && FaultRecorded(s, q) && Feasible(s, q, run)
    ensures FaultRecorded(s, After(s, q, run))
    decreases |run|
  {
    if run != [] {
      FaultStep(s, q, run[0]);
      FaultRun(s, Next(s, q, run[0]), run[1..]);
    }
  }

  /** In every run the bevy reported is one that is really at fault. */
  lemma ReportNamesAFault(s: Setup, run: seq<Action>)
    requires s.st.Openable() && Feasible(s, Init(s), run)
    ensures var v := Verdict(s, After(s, Init(s), run));
      v.Some? && v.value.OfBevy? ==> IsFault(s, v.value.bevy)
  {
    FaultRun(s, Init(s), run);
  }

  // ----- the first trouble in stream order -----

  /** The setups considered: every handle opens, the sink accepts everything, a lone worker's readers are all admitted. */
  ghost predicate Ordinary(s: Setup) {
    s.Arranged() && AllOpen(s) && s.steady && (s.workers == 1 ==> s.Readers() == s.admitted)
  }

  /**
   The first bevy, in stream order, that cannot be read, does not decode, or holds a chunk the consumer refuses
   as short.
   */
  ghost predicate FirstTrouble(s: Setup, p: nat)
    requires s.st.Openable()
  {
    p < s.Count() && SoundTo(s, p) && (Bad(s, p) || !Ahead(s, p + 1).Whole())
  }

  /** What a reader that took the bevies one by one would report of it. */
  function ReportOf(s: Setup, p: nat): Fault {
    if Bad(s, p) || Ahead(s, p + 1).error.None? then OfBevy(p) else Own(Ahead(s, p + 1).error.value)
  }

  /** Nothing is wrong with the bevies before `k`, if no first trouble is among them. */
  lemma {:induction false} SoundWithoutTrouble(s: Setup, k: nat)
    requires s.st.Openable() && Bounded(s.st, s.bevies) && k <= s.Count()
    requires forall p :: 0 <= p < k ==> !FirstTrouble(s, p)
    ensures SoundTo(s, k)
  {
    if k > 0 {
      SoundWithoutTrouble(s, k - 1);
      assert !FirstTrouble(s, k - 1);
    }
  }

  /** What bevy `p` delivers is not whole, and with it the serial read. */
  lemma TroubleStopsSerial(s: Setup, p: nat)
    requires s.st.Openable() && FirstTrouble(s, p) && !Bad(s, p)
    ensures !SerialBevies(s.st, s.bevies, 0, s.Count(), 0).Whole()
  {
    AheadFits(s, p);
    AheadIsSerial(s, p, s.Count());
    SerialHead(s, p, s.Count(), |Ahead(s, p).bytes|);
  }

  /** There is a first trouble exactly when some bevy is bad or the serial read of the bevies fails. */
  lemma TroubleExactlyWhen(s: Setup)
    requires s.st.Openable() && Bounded(s.st, s.bevies)
    ensures (exists p: nat :: FirstTrouble(s, p)) <==>
            !(Undamaged(s) && SerialBevies(s.st, s.bevies, 0, s.Count(), 0).Whole())
  {
    if p: nat :| FirstTrouble(s, p) {
      if !Bad(s, p) {
        TroubleStopsSerial(s, p);
      }
    } else {
      SoundWithoutTrouble(s, s.Count());
      AheadIsSerial(s, s.Count(), s.Count());
    }
  }

  /** Without trouble every run ends alike: well, or short if the bevies hold less than the stream declares. */
  lemma WithoutTrouble(s: Setup, run: seq<Action>)
    requires Ordinary(s) && Undamaged(s) && SerialBevies(s.st, s.bevies, 0, s.Count(), 0).Whole()
    requires Feasible(s, Init(s), run) && Joined(After(s, Init(s), run))
    ensures Verdict(s, After(s, Init(s), run)) ==
            if |SerialBevies(s.st, s.bevies, 0, s.Count(), 0).bytes| == s.st.size then None else Some(Short)
  {
    var q := After(s, Init(s), run);
    OrderlyRun(s, run);
    OrderlyInit(s);
    NoFailureRun(s, Init(s), run);
    SteadyRun(s, Init(s), run);
    assert q.error.None?;
    assert SerialBevies(s.st, s.bevies, q.expected, s.Count(), |q.out|) == Nothing();
    assert q.out + [] == q.out;
  }

  /** How far the cursor can get while the consumer needs bevy `p`: every reader admitted by then may claim once more. */
  function Far(s: Setup, p: nat): int
    requires s.admitted <= s.Readers()
  {
    p + s.lookahead + Grown(s, Max(0, p + s.lookahead - 1)) - 2
  }

  /**
   A later bevy whose failure can be recorded while `p` is still in hand. With one worker the bevies are
   decoded in the order they are queued, so one that does not decode must get into the queue before `p`; with
   one reader as well they are queued in order, and `p` can only be overtaken from within the queue's depth.
   */
  predicate Overtakes(s: Setup, p: nat, g: nat)
    requires s.Arranged()
  {
    && p < g < s.Count() && s.Readable(p)
    && if s.workers > 1 then Bad(s, g) && g <= Far(s, p)
       else if s.admitted > 1 then (!s.Readable(g) && g <= Far(s, p)) || (!s.Decodes(g) && g < Far(s, p))
       else !s.Readable(g) && g <= p + s.depth + 1
  }

  /** Every run that ends with its threads joined reports this. */
  ghost predicate AlwaysReports(s: Setup, fault: Fault)
    requires s.st.Openable()
  {
    forall run: seq<Action> :: Feasible(s, Init(s), run) && Joined(After(s, Init(s), run)) ==>
      Verdict(s, After(s, Init(s), run)) == Some(fault)
  }

  // ----- where the consumer stands -----

  /** The consumer has delivered sound bevies only, and fails at the first trouble if it gets there. */
  ghost predicate Tracks(s: Setup, q: State, p: nat)
    requires s.st.Openable()
  {
    && q.wanted <= q.expected <= p
    && (q.error.None? ==> Ahead(s, q.expected) == Bytes(q.out))
    && (q.error.Some? ==> q.expected == p && !Bad(s, p) && Some(q.error.value) == Ahead(s, p + 1).error)
  }

  lemma TracksLook(s: Setup, q: State, a: Action, p: nat)
    requires s.Arranged() && s.steady && FirstTrouble(s, p)
    requires Decoded(s, q) && Tracks(s, q, p) && q.error.None? && OfConsumer(a) && ConsumerEnabled(s, q, a)
    requires a.Look? && !Complete(s, q) && q.expected in q.ready
    ensures Tracks(s, NextConsumer(s, q, a), p)
  {
    AheadNext(s, q.expected);
    assert Due(s, q) == SerialChunks(s.st, BevyAt(s.bevies, q.expected).chunks, 0, |q.out|);
    assert s.Decodes(q.expected) && s.Readable(q.expected);
  }

  lemma TracksKept(s: Setup, q: State, q': State, p: nat)
    requires s.st.Openable() && Tracks(s, q, p)
    requires q'.out == q.out && q'.expected == q.expected && q'.error == q.error && q'.wanted <= q.expected
    ensures Tracks(s, q', p)
  {
  }

  lemma TracksConsumer(s: Setup, q: State, a: Action, p: nat)
    requires s.Arranged() && s.steady && FirstTrouble(s, p)
    requires Decoded(s, q) && Settled(q) && Tracks(s, q, p) && OfConsumer(a) && ConsumerEnabled(s, q, a)
    ensures Tracks(s, NextConsumer(s, q, a), p)
  {
    if a.Look? && !Complete(s, q) && q.expected in q.ready {
      TracksLook(s, q, a, p);
    } else {
      TracksKept(s, q, NextConsumer(s, q, a), p);
    }
  }

  lemma TracksStep(s: Setup, q: State, a: Action, p: nat)
    requires s.Arranged() && s.steady && FirstTrouble(s, p)
    requires Decoded(s, q) && Settled(q) && Tracks(s, q, p) && Enabled(s, q, a)
    ensures Tracks(s, Next(s, q, a), p)
  {
    if OfReader(a) {
      TracksKept(s, q, NextReader(s, q, a), p);
    } else if OfWorker(a) {
      TracksKept(s, q, NextWorker(s, q, a), p);
    } else {
      TracksConsumer(s, q, a, p);
    }
  }

  // ----- how far the readers get -----

  /** One past the last bevy that can be claimed while the consumer wants `wanted`. */
  function Limit(s: Setup, wanted: nat): int
    requires s.admitted <= s.Readers()
  {
    Far(s, wanted) + 1
  }

  const PASSED: Reader -> bool := (r: Reader) => r.Passed?

  const UNREPORTED: Reader -> bool := (r: Reader) => r.Claimed? || r.Loaded?

  predicate Entered(reader: Reader) {
    !(reader.Unopened? || reader.Parked? || reader.Stopped?)
  }

  /** Readers work only once admitted, and the governor admits no faster than it is told of bevies. */
  ghost predicate Admitting(s: Setup, q: State)
    requires s.admitted <= s.Readers()
  {
    && q.observed + Tally(q.readers, UNREPORTED) <= q.next
    && q.admitted <= Grown(s, q.observed)
    && (forall r :: 0 <= r < |q.readers| && Entered(q.readers[r]) ==> r < Grown(s, q.observed))
  }

  /** Readers claim within the bound they saw. */
  ghost predicate Within(s: Setup, q: State)
    requires s.admitted <= s.Readers()
  {
    && (forall r :: 0 <= r < |q.readers| && q.readers[r].Gauged? ==> q.readers[r].limit <= q.wanted + s.lookahead)
    && q.next + Tally(q.readers, PASSED) <= Limit(s, q.wanted)
  }

  lemma GrownMonotone(s: Setup, a: nat, b: nat)
    requires s.admitted <= s.Readers() && a <= b
    ensures Grown(s, a) <= Grown(s, b)
  {
  }

  /** One reader's state changes, and perhaps the governor's mind. */
  lemma AdmittingKept(s: Setup, q: State, q': State, r: nat, x: Reader)
    requires s.admitted <= s.Readers() && Admitting(s, q) && r < |q.readers| && q'.readers == q.readers[r := x]
    requires q.observed <= q'.observed && q'.admitted <= Grown(s, q'.observed)
    requires Entered(x) ==> r < Grown(s, q'.observed)
    requires q'.observed + (if UNREPORTED(x) then 1 else 0) - q'.next <=
             q.observed + (if UNREPORTED(q.readers[r]) then 1 else 0) - q.next
    ensures Admitting(s, q')
  {
    TallyUpdate(q.readers, UNREPORTED, r, x);
    GrownMonotone(s, q.observed, q'.observed);
  }

  /** The governor admits one more at most, and only once enough has been reported. */
  lemma AdmittedGrows(s: Setup, q: State, seen: Option<Trend>)
    requires s.Arranged() && q.admitted <= Grown(s, q.observed) && MayReport(q, seen)
    ensures Reported(s, q, seen).admitted <= Grown(s, q.observed + 1)
  {
  }

  lemma AdmittingReader(s: Setup, q: State, a: Action)
    requires s.Arranged() && Admitting(s, q) && OfReader(a) && ReaderEnabled(s, q, a)
    ensures Admitting(s, NextReader(s, q, a))
  {
    var q' := NextReader(s, q, a);
    if a.Observe? {
      AdmittedGrows(s, q, a.seen);
      AdmittingKept(s, q, q', a.r, Observed(q.readers[a.r].bevy));
    } else {
      AdmittingKept(s, q, q', a.r, q'.readers[a.r]);
    }
  }

  /** A reader passes the gate: all that have are among those admitted, and the next bevy is within the bound. */
  lemma WithinPass(s: Setup, q: State, a: Action)
    requires s.Arranged() && Admitting(s, q) && Within(s, q) && a.Pass? && ReaderEnabled(s, q, a)
    ensures var q' := NextReader(s, q, a); q'.next + Tally(q'.readers, PASSED) <= Limit(s, q'.wanted)
  {
    var q' := NextReader(s, q, a);
    assert Entered(q.readers[a.r]);
    forall r | 0 <= r < |q'.readers| && PASSED(q'.readers[r])
      ensures r < Grown(s, q.observed)
    {
      assert Entered(q.readers[r]);
    }
    TallyBound(q'.readers, PASSED, Grown(s, q.observed));
    GrownMonotone(s, q.observed, q.wanted + s.lookahead - 1);
  }

  lemma WithinKept(s: Setup, q: State, q': State, r: nat, x: Reader)
    requires s.admitted <= s.Readers() && Within(s, q)
    requires r < |q.readers| && q'.readers == q.readers[r := x] && q'.wanted == q.wanted
    requires x.Gauged? ==> x.limit <= q.wanted + s.lookahead
    requires q'.next + (if x.Passed? then 1 else 0) <= q.next + (if q.readers[r].Passed? then 1 else 0)
    ensures Within(s, q')
  {
    TallyUpdate(q.readers, PASSED, r, x);
  }

  lemma WithinReader(s: Setup, q: State, a: Action)
    requires s.Arranged() && Admitting(s, q) && Within(s, q) && OfReader(a) && ReaderEnabled(s, q, a)
    ensures Within(s, NextReader(s, q, a))
  {
    if a.Pass? {
      WithinPass(s, q, a);
    } else {
      var q' := NextReader(s, q, a);
      WithinKept(s, q, q', a.r, q'.readers[a.r]);
    }
  }

  lemma LimitMonotone(s: Setup, a: nat, b: nat)
    requires s.Arranged() && a < b
    ensures Limit(s, a) < Limit(s, b)
  {
    GrownMonotone(s, a + s.lookahead - 1, b + s.lookahead - 1);
  }

  ghost predicate Gated(s: Setup, q: State)
    requires s.admitted <= s.Readers()
  {
    Admitting(s, q) && Within(s, q)
  }

  lemma GatedStep(s: Setup, q: State, a: Action)
    requires s.Arranged() && Gated(s, q) && Enabled(s, q, a)
    requires q.wanted <= q.expected
    ensures Gated(s, Next(s, q, a))
  {
    if OfReader(a) {
      AdmittingReader(s, q, a);
      WithinReader(s, q, a);
    } else {
      var q' := Next(s, q, a);
      assert q'.readers == q.readers && q'.next == q.next && q'.observed == q.observed && q'.admitted == q.admitted;
      if q.wanted < q'.wanted {
        LimitMonotone(s, q.wanted, q'.wanted);
      }
    }
  }

  // ----- what can have failed -----

  predicate IsClaimed(s: Setup, q: State, b: nat)
    requires s.st.Openable()
  {
    b < q.next && b < s.Count()
  }

  /** Whatever is in some thread's hands, or recorded, has been claimed. */
  ghost predicate OnlyClaimed(s: Setup, q: State)
    requires s.st.Openable()
  {
    && (forall r :: 0 <= r < |q.readers| && (q.readers[r].Claimed? || q.readers[r].Loaded? || q.readers[r].Observed?) ==>
          IsClaimed(s, q, q.readers[r].bevy))
    && (forall b :: b in q.queue ==> IsClaimed(s, q, b))
    && (forall w :: 0 <= w < |q.workers| && (q.workers[w].Holding? || q.workers[w].Decoding?) ==>
          IsClaimed(s, q, q.workers[w].bevy))
    && (q.failure.Some? ==> IsClaimed(s, q, q.failure.value))
  }

  lemma OnlyClaimedReader(s: Setup, q: State, a: Action)
    requires s.st.Openable() && AllOpen(s) && OnlyClaimed(s, q) && OfReader(a) && ReaderEnabled(s, q, a)
    ensures OnlyClaimed(s, NextReader(s, q, a))
  {
    var q' := NextReader(s, q, a);
    assert q'.workers == q.workers && q.next <= q'.next;
  }

  lemma OnlyClaimedWorker(s: Setup, q: State, a: Action)
    requires s.st.Openable() && OnlyClaimed(s, q) && OfWorker(a) && WorkerEnabled(q, a)
    ensures OnlyClaimed(s, NextWorker(s, q, a))
  {
    var q' := NextWorker(s, q, a);
    assert q'.readers == q.readers && q'.next == q.next;
    if a.Take? {
      assert q.queue[0] in q.queue;
      assert forall b :: b in q.queue[1..] ==> b in q.queue;
    }
  }

  lemma OnlyClaimedStep(s: Setup, q: State, a: Action)
    requires s.st.Openable() && AllOpen(s) && OnlyClaimed(s, q) && Enabled(s, q, a)
    ensures OnlyClaimed(s, Next(s, q, a))
  {
    if OfReader(a) {
      OnlyClaimedReader(s, q, a);
    } else if OfWorker(a) {
      OnlyClaimedWorker(s, q, a);
    } else {
      var q' := NextConsumer(s, q, a);
      assert q'.readers == q.readers && q'.workers == q.workers && q'.next == q.next && q'.failure == q.failure;
      assert forall b :: b in q'.queue ==> b in q.queue;
    }
  }

  /** A bevy that cannot be read is in the hands of the reader that claimed it, or recorded. */
  ghost predicate Caught(s: Setup, q: State, p: nat) {
    p < q.next ==> (q.failure.Some? && q.failure.value <= p) || exists r :: 0 <= r < |q.readers| && q.readers[r] == Claimed(p)
  }

  lemma CaughtStep(s: Setup, q: State, a: Action, p: nat)
    requires s.st.Openable() && p < s.Count() && !s.Readable(p) && Caught(s, q, p) && Enabled(s, q, a)
    ensures Caught(s, Next(s, q, a), p)
  {
    var q' := Next(s, q, a);
    if p < q.next && !(q.failure.Some? && q.failure.value <= p) {
      var r :| 0 <= r < |q.readers| && q.readers[r] == Claimed(p);
      if !(OfReader(a) && a.r == r) {
        assert q'.readers[r] == Claimed(p);
      }
    } else if a.Claim? && q.next == p {
      assert q'.readers[a.r] == Claimed(p);
    }
  }

  // ----- what holds in every reachable state -----

  ghost predicate Standing(s: Setup, q: State, p: nat)
    requires s.Arranged()
  {
    && Orderly(s, q) && Tracks(s, q, p) && Gated(s, q) && OnlyClaimed(s, q) && FaultRecorded(s, q)
    && (!s.Readable(p) ==> Caught(s, q, p))
  }

  lemma StandingStep(s: Setup, q: State, a: Action, p: nat)
    requires Ordinary(s) && FirstTrouble(s, p) && Standing(s, q, p) && Enabled(s, q, a)
    ensures Standing(s, Next(s, q, a), p)
  {
    OrderlyStep(s, q, a);
    TracksStep(s, q, a, p);
    GatedStep(s, q, a);
    OnlyClaimedStep(s, q, a);
    FaultStep(s, q, a);
    if !s.Readable(p) {
      CaughtStep(s, q, a, p);
    }
  }

  lemma StandingInit(s: Setup, p: nat)
    requires Ordinary(s) && FirstTrouble(s, p)
    ensures Standing(s, Init(s), p)
  {
    OrderlyInit(s);
    TallyBound(Init(s).readers, UNREPORTED, 0);
    TallyBound(Init(s).readers, PASSED, 0);
    assert Ahead(s, 0) == Nothing();
  }

  /** No bevy past `Far` is claimed while the first trouble has not been delivered. */
  lemma ClaimedIsNear(s: Setup, q: State, p: nat)
    requires s.Arranged() && Tracks(s, q, p) && Within(s, q)
    ensures q.next <= Limit(s, p) && (q.next == Limit(s, p) ==> q.expected == p)
  {
    if q.wanted < p {
      LimitMonotone(s, q.wanted, p);
    }
  }

  /** A bevy recorded is bad, not before the first trouble, and no further than the readers get. */
  lemma RecordedIsLater(s: Setup, q: State, p: nat)
    requires Ordinary(s) && FirstTrouble(s, p) && Standing(s, q, p) && q.failure.Some?
    ensures Bad(s, q.failure.value) && p <= q.failure.value <= Far(s, p) && q.failure.value < s.Count()
  {
    ClaimedIsNear(s, q, p);
  }

  // ----- the first trouble is not overtaken -----

  /** Everything the consumer needs up to the first trouble is in the window. */
  ghost predicate AllReady(q: State, p: nat) {
    q.expected <= p && forall b :: q.expected <= b <= p ==> b in q.ready
  }

  /** A failure recorded of another bevy comes too late to hide the first trouble. */
  ghost predicate TooLate(q: State, p: nat) {
    q.failure.Some? && q.failure.value != p ==> q.error.Some? || (Waiting(q) && AllReady(q, p))
  }

  /** The consumer goes on with what is ready until it meets the first trouble. */
  lemma TooLateConsumer(s: Setup, q: State, a: Action, p: nat)
    requires s.Arranged() && s.steady && FirstTrouble(s, p) && Tracks(s, q, p) && Decoded(s, q)
    requires OfConsumer(a) && ConsumerEnabled(s, q, a)
    requires q.error.None? && !Complete(s, q) && Waiting(q) && AllReady(q, p)
    ensures var q' := NextConsumer(s, q, a); q'.error.Some? || (Waiting(q') && AllReady(q', p))
  {
    assert q.expected in q.ready;
    if a.Look? {
      TracksLook(s, q, a, p);
    }
  }

  /** Once too late, always too late. */
  lemma TooLateKept(s: Setup, q: State, a: Action, p: nat)
    requires s.Arranged() && s.steady && FirstTrouble(s, p) && Tracks(s, q, p) && Decoded(s, q)
    requires Enabled(s, q, a) && (q.error.None? ==> !Complete(s, q))
    requires TooLate(q, p) && q.failure.Some? && q.failure.value != p
    ensures TooLate(Next(s, q, a), p)
  {
    if OfReader(a) {
      TooLateStays(q, NextReader(s, q, a), p);
    } else if OfWorker(a) {
      TooLateWorker(s, q, a, p);
    } else if q.error.None? {
      TooLateConsumer(s, q, a, p);
    }
  }

  lemma TooLateWorker(s: Setup, q: State, a: Action, p: nat)
    requires TooLate(q, p) && q.failure.Some? && q.failure.value != p && OfWorker(a) && WorkerEnabled(q, a)
    ensures TooLate(NextWorker(s, q, a), p)
  {
    TooLateStays(q, NextWorker(s, q, a), p);
  }

  lemma TooLateStays(q: State, q': State, p: nat)
    requires TooLate(q, p) && q.failure.Some? && q.failure.value != p
    requires q'.error == q.error && q'.expected == q.expected && q.ready <= q'.ready && (Waiting(q) ==> Waiting(q'))
    ensures TooLate(q', p)
  {
  }

  /** Short of the first trouble the consumer has not delivered the stream. */
  lemma NotComplete(s: Setup, q: State, p: nat)
    requires s.st.Openable() && FirstTrouble(s, p) && Tracks(s, q, p) && q.error.None?
    ensures |q.out| < s.st.size && !Complete(s, q)
  {
    AheadFits(s, q.expected);
  }

  /** What a run that ends must report. */
  lemma EndReports(s: Setup, q: State, p: nat)
    requires Ordinary(s) && FirstTrouble(s, p) && Standing(s, q, p) && Joined(q)
    requires s.Readable(p) ==> TooLate(q, p)
    ensures Verdict(s, q) == Some(ReportOf(s, p))
  {
    if q.error.None? {
      NotComplete(s, q, p);
      assert q.failure.Some?;
      RecordedIsLater(s, q, p);
    }
  }
}
