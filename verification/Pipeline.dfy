/**
 The parallel stream reader (src/parallel.rs) as a state machine. Reader threads claim bevies and queue
 their bytes, worker threads decode them in any order, and the consumer delivers them in stream order
 through a reorder window. One action is one step of one thread between two looks at what the threads share;
 a run is any feasible list of actions.
 */
module Pipeline {
  import opened Basics
  import opened Deliveries
  import opened Streams

  /** A run's fixed circumstances: the stream, its storage, and the thread plan. */
  datatype Setup = Setup(
    st: ImageStream,
    bevies: Bevies,
    unreadable: set<nat>,   // bevies whose members a reader cannot read at all
    opens: seq<bool>,       // whether each reader's own handle opens
    workers: nat,
    admitted: nat,          // readers admitted at the start
    depth: nat,             // bevies the raw queue holds
    lookahead: nat,         // how far ahead of the consumer a reader may claim
    steady: bool)           // whether the sink accepts everything
  {
    /** The reader threads started, the most the governor may admit. */
    function Readers(): nat { |opens| }

    /** What any plan arranges: at least one thread of each kind, and the queue within the lookahead. */
    predicate Arranged() {
      && st.Openable()
      && 1 <= admitted <= Readers() && 1 <= workers && admitted + 2 <= depth
      && depth + workers + 2 <= lookahead
    }

    function Count(): nat
      requires st.Openable()
    {
      st.BevyCount()
    }

    /** A worker decodes a whole bevy, chunks past the stream's end included. */
    predicate Decodes(b: nat) {
      && BevyAt(bevies, b).Held?
      && forall i | 0 <= i < |BevyAt(bevies, b).chunks| :: BevyAt(bevies, b).chunks[i].Some?
    }

    predicate Readable(b: nat) {
      b !in unreadable
    }
  }

  /**
   A reader waits for admission (`Parked` once it has looked in vain), opens its handle, and from then on goes
   around: no failure seen (`Cleared`), admission seen (`Allowed`), the consumer's need seen (`Gauged`, with the
   bound it gives), the next bevy within that bound (`Passed`), claimed, read, reported to the governor, sent.
   */
  datatype Reader =
    | Unopened | Parked | Opening | Looking | Cleared | Allowed | Gauged(limit: nat) | Passed
    | Claimed(bevy: nat) | Loaded(bevy: nat) | Observed(bevy: nat) | Stopped

  /** `Starved` has found the queue empty and has yet to look for a reason to leave. */
  datatype Worker = Idle | Starved | Holding(bevy: nat) | Decoding(bevy: nat) | Leaving | Gone

  /** `Finished` has left the delivery loop with its own outcome; `Joining` waits for every thread. */
  datatype Consumer = Seeking | Asleep | Finished | Draining | Joining

  /** How far the governor's measurements have got: no window closed, one to compare with, no more probing. */
  datatype Probe = Fresh | Compared | Ended

  /** A window's throughput against the one before: more than 8% up, down, or neither. */
  datatype Trend = Gain | Loss | Flat

  /** Bevies read before the governor looks at its clock. */
  const WARMUP_BEVIES: nat := 8

  datatype State = State(
    next: nat,                 // the next bevy to claim
    readers: seq<Reader>,
    workers: seq<Worker>,
    queue: seq<nat>,
    ready: set<nat>,           // decoded bevies waiting for their turn
    failure: Option<nat>,      // the lowest bevy a thread has failed on
    live: nat,
    wanted: nat,
    closed: bool,
    admitted: nat,
    observed: nat,             // bevies reported to the governor
    probe: Probe,
    consumer: Consumer,
    expected: nat,             // the bevy due next
    out: seq<Byte>,
    error: Option<Error>)      // the consumer's own outcome

  function Init(s: Setup): State {
    State(0, Repeat(Unopened, s.Readers()), Repeat(Idle, s.workers), [], {}, None, s.workers, 0, false,
          s.admitted, 0, Fresh, Seeking, 0, [], None)
  }

  datatype Action =
    | Enter(r: nat) | Park(r: nat) | Open(r: nat)
    | StopReader(r: nat) | Clear(r: nat) | Allow(r: nat) | Gauge(r: nat) | Pass(r: nat) | Retry(r: nat)
    | Claim(r: nat) | Read(r: nat) | Send(r: nat)
    | Observe(r: nat, seen: Option<Trend>)   // `seen`: what the governor makes of a window this report closes
    | Take(w: nat) | FindEmpty(w: nat) | Nap(w: nat) | LeaveIdle(w: nat) | Check(w: nat) | Decode(w: nat) | Exit(w: nat)
    | Look(cut: Option<nat>)                 // `cut`: the sink refuses after that many bytes of the bevy
    | Stir                                   // a notification that changes nothing, or none at all
    | Close | Drain | EndDrain

  predicate OfReader(a: Action) {
    || a.Enter? || a.Park? || a.Open? || a.StopReader? || a.Clear? || a.Allow? || a.Gauge? || a.Pass? || a.Retry?
    || a.Claim? || a.Read? || a.Send? || a.Observe?
  }

  predicate OfWorker(a: Action) {
    a.Take? || a.FindEmpty? || a.Nap? || a.LeaveIdle? || a.Check? || a.Decode? || a.Exit?
  }

  predicate OfConsumer(a: Action) {
    a.Look? || a.Stir? || a.Close? || a.Drain? || a.EndDrain?
  }

  /** What readers and idle workers stop for. */
  predicate Stopping(q: State) {
    q.failure.Some? || q.closed
  }

  predicate AllStopped(readers: seq<Reader>) {
    forall r | 0 <= r < |readers| :: readers[r].Stopped?
  }

  predicate AllGone(workers: seq<Worker>) {
    forall w | 0 <= w < |workers| :: workers[w].Gone?
  }

  /** The consumer's turn finds nothing left to do. */
  predicate Complete(s: Setup, q: State)
    requires s.st.Openable()
  {
    q.expected >= s.Count() || |q.out| >= s.st.size
  }

  /** What the bevy due next delivers. */
  function Due(s: Setup, q: State): (d: Delivery)
    ensures d.Honest()
  {
    var bevy := BevyAt(s.bevies, q.expected);
    if bevy.Held? then SerialChunks(s.st, bevy.chunks, 0, |q.out|) else Failed(Unreadable)
  }

  predicate ReaderEnabled(s: Setup, q: State, a: Action)
    requires OfReader(a)
  {
    && a.r < |q.readers| && a.r < s.Readers()
    && var reader := q.readers[a.r];
      match a
      case Enter(r) => reader.Unopened? && r < q.admitted
      case Park(r) => reader.Unopened? && r >= q.admitted
      case Open(_) => reader.Opening?
      case StopReader(_) => (reader.Parked? || reader.Looking?) && Stopping(q)
      case Clear(_) => reader.Looking? && !Stopping(q)
      case Allow(r) => reader.Cleared? && r < q.admitted
      case Gauge(_) => reader.Allowed?
      case Pass(_) => reader.Gauged? && q.next < reader.limit
      case Retry(r) =>
        || (reader.Parked? && !Stopping(q))
        || (reader.Cleared? && r >= q.admitted)
        || (reader.Gauged? && q.next >= reader.limit)
      case Claim(_) => reader.Passed?
      case Read(_) => reader.Claimed?
      case Send(_) => reader.Observed? && |q.queue| < s.depth
      case Observe(_, seen) => reader.Loaded? && (seen.Some? ==> q.observed + 1 >= WARMUP_BEVIES && !q.probe.Ended?)
  }

  predicate WorkerEnabled(q: State, a: Action)
    requires OfWorker(a)
  {
    && a.w < |q.workers|
    && var worker := q.workers[a.w];
      match a
      case Take(_) => worker.Idle? && q.queue != []
      case FindEmpty(_) => worker.Idle? && q.queue == [] && !AllStopped(q.readers)
      case Nap(_) => worker.Starved? && !Stopping(q)
      case LeaveIdle(_) => if worker.Idle? then q.queue == [] && AllStopped(q.readers) else worker.Starved? && Stopping(q)
      case Check(_) => worker.Holding?
      case Decode(_) => worker.Decoding?
      case Exit(_) => worker.Leaving? && q.live > 0
  }

  predicate ConsumerEnabled(s: Setup, q: State, a: Action)
    requires s.st.Openable() && OfConsumer(a)
  {
    match a
    case Look(cut) =>
      && q.consumer.Seeking?
      && (cut.Some? ==> !s.steady && !Complete(s, q) && q.expected in q.ready && cut.value <= |Due(s, q).bytes|)
    case Stir => q.consumer.Asleep?
    case Close => q.consumer.Finished?
    case Drain => q.consumer.Draining? && q.queue != []
    case EndDrain => q.consumer.Draining? && q.queue == []
  }

  predicate Enabled(s: Setup, q: State, a: Action)
    requires s.st.Openable()
  {
    if OfReader(a) then ReaderEnabled(s, q, a)
    else if OfWorker(a) then WorkerEnabled(q, a)
    else ConsumerEnabled(s, q, a)
  }

  /** A failure on an earlier bevy replaces a later one. */
  function Record(failure: Option<nat>, b: nat): Option<nat> {
    if failure.Some? && failure.value <= b then failure else Some(b)
  }

  /** A sleeping consumer that is notified looks again. */
  function Wake(c: Consumer): Consumer {
    if c.Asleep? then Seeking else c
  }

  /** `ReaderGovernor::apply_rate`: one more reader while that pays, else a step back and an end to probing. */
  function Decide(s: Setup, q: State, seen: Trend): State {
    if q.probe.Fresh? then
      q.(admitted := if q.admitted < s.Readers() then q.admitted + 1 else q.admitted, probe := Compared)
    else if seen.Gain? && q.admitted < s.Readers() then
      q.(admitted := q.admitted + 1)
    else
      q.(admitted := if seen.Loss? && q.admitted > 1 then q.admitted - 1 else q.admitted, probe := Ended)
  }

  function NextReader(s: Setup, q: State, a: Action): State
    requires OfReader(a) && ReaderEnabled(s, q, a) && s.st.Openable()
  {
    var set' := (x: Reader) => q.readers[a.r := x];
    match a
    case Enter(_) => q.(readers := set'(Opening))
    case Park(_) => q.(readers := set'(Parked))
    case Open(r) =>
      if s.opens[r] then q.(readers := set'(Looking)) else q.(readers := set'(Stopped), failure := Record(q.failure, 0))
    case StopReader(_) => q.(readers := set'(Stopped))
    case Clear(_) => q.(readers := set'(Cleared))
    case Allow(_) => q.(readers := set'(Allowed))
    case Gauge(_) => q.(readers := set'(Gauged(q.wanted + s.lookahead)))
    case Pass(_) => q.(readers := set'(Passed))
    case Retry(r) => q.(readers := set'(if q.readers[r].Parked? then Unopened else Looking))
    case Claim(_) => q.(next := q.next + 1, readers := set'(if q.next >= s.Count() then Stopped else Claimed(q.next)))
    case Read(r) =>
      var b := q.readers[r].bevy;
      if s.Readable(b) then q.(readers := set'(Loaded(b))) else q.(readers := set'(Stopped), failure := Record(q.failure, b))
    case Observe(r, seen) =>
      var told := q.(observed := q.observed + 1, readers := set'(Observed(q.readers[r].bevy)));
      if seen.Some? then Decide(s, told, seen.value) else told
    case Send(r) => q.(readers := set'(Looking), queue := q.queue + [q.readers[r].bevy])
  }

  function NextWorker(s: Setup, q: State, a: Action): State
    requires OfWorker(a) && WorkerEnabled(q, a)
  {
    var set' := (x: Worker) => q.workers[a.w := x];
    match a
    case Take(_) => q.(workers := set'(Holding(q.queue[0])), queue := q.queue[1..])
    case FindEmpty(_) => q.(workers := set'(Starved))
    case Nap(_) => q.(workers := set'(Idle))
    case LeaveIdle(_) => q.(workers := set'(Leaving))
    case Check(w) => q.(workers := set'(if q.failure.Some? then Leaving else Decoding(q.workers[w].bevy)))
    case Decode(w) =>
      var b := q.workers[w].bevy;
      if !s.Decodes(b) then q.(workers := set'(Leaving), failure := Record(q.failure, b))
      else if Stopping(q) then q.(workers := set'(Leaving))
      else q.(workers := set'(Idle), ready := q.ready + {b}, consumer := Wake(q.consumer))
    case Exit(_) => q.(workers := set'(Gone), live := q.live - 1, consumer := Wake(q.consumer))
  }

  function NextConsumer(s: Setup, q: State, a: Action): State
    requires s.st.Openable() && OfConsumer(a) && ConsumerEnabled(s, q, a)
  {
    match a
    case Look(cut) =>
      if Complete(s, q) then q.(consumer := Finished)
      else if q.expected in q.ready then
        var d, taken := Due(s, q), q.(wanted := q.expected, ready := q.ready - {q.expected});
        if cut.Some? then taken.(out := q.out + d.bytes[..cut.value], consumer := Finished, error := Some(SinkRefused))
        else if d.error.Some? then taken.(out := q.out + d.bytes, consumer := Finished, error := d.error)
        else taken.(out := q.out + d.bytes, expected := q.expected + 1)
      else if q.failure.Some? || q.live == 0 then q.(wanted := q.expected, consumer := Finished)
      else q.(wanted := q.expected, consumer := Asleep)
    case Stir => q.(consumer := Seeking)
    case Close => q.(closed := true, ready := {}, consumer := Draining)
    case Drain => q.(queue := q.queue[1..])
    case EndDrain => q.(consumer := Joining)
  }

  function Next(s: Setup, q: State, a: Action): State
    requires s.st.Openable() && Enabled(s, q, a)
  {
    if OfReader(a) then NextReader(s, q, a)
    else if OfWorker(a) then NextWorker(s, q, a)
    else NextConsumer(s, q, a)
  }

  /** A list of actions each of which is enabled in its turn. */
  predicate Feasible(s: Setup, q: State, run: seq<Action>)
    requires s.st.Openable()
    decreases |run|
  {
    run == [] || (Enabled(s, q, run[0]) && Feasible(s, Next(s, q, run[0]), run[1..]))
  }

  function After(s: Setup, q: State, run: seq<Action>): State
    requires s.st.Openable() && Feasible(s, q, run)
    decreases |run|
  {
    if run == [] then q else After(s, Next(s, q, run[0]), run[1..])
  }

  /** Every thread has been joined. */
  predicate Joined(q: State) {
    q.consumer.Joining? && AllStopped(q.readers) && AllGone(q.workers)
  }

  /** The consumer's own error, the failure of a bevy, or a stream that came up short. */
  datatype Fault = Own(error: Error) | OfBevy(bevy: nat) | Short

  /** What the call returns once every thread is joined. */
  function Verdict(s: Setup, q: State): Option<Fault> {
    if q.error.Some? then Some(Own(q.error.value))
    else if q.failure.Some? && (q.failure.value < q.expected || |q.out| < s.st.size) then Some(OfBevy(q.failure.value))
    else if |q.out| != s.st.size then Some(Short)
    else None
  }

  lemma {:induction false} FeasibleConcat(s: Setup, q: State, a: seq<Action>, b: seq<Action>)
    requires s.st.Openable() && Feasible(s, q, a) && Feasible(s, After(s, q, a), b)
    ensures Feasible(s, q, a + b)
    ensures After(s, q, a + b) == After(s, After(s, q, a), b)
    decreases |a|
  {
    if a == [] {
      assert a + b == b;
    } else {
      assert (a + b)[1..] == a[1..] + b;
      FeasibleConcat(s, Next(s, q, a[0]), a[1..], b);
    }
  }

  // ----- safety: what reaches the sink -----

  /** What is out is what reading bevies `[0, expected)` in order delivers, and the rest is to come. */
  ghost predicate InOrder(s: Setup, q: State)
    requires s.st.Openable()
  {
    var whole := SerialBevies(s.st, s.bevies, 0, s.Count(), 0);
    && q.out <= whole.bytes
    && |q.out| <= s.st.size
    && q.expected <= s.Count()
    && (forall b :: 0 <= b < q.expected ==> s.Decodes(b) && s.Readable(b))
    && (q.error.None? ==> whole == Then(Bytes(q.out), SerialBevies(s.st, s.bevies, q.expected, s.Count(), |q.out|)))
    && (q.error.Some? && q.error != Some(SinkRefused) ==> !whole.Whole())
  }

  /** Only bevies that were read and decoded wait for the consumer. */
  ghost predicate Decoded(s: Setup, q: State) {
    && (forall b :: b in q.ready ==> s.Decodes(b) && s.Readable(b))
    && (forall b :: b in q.queue ==> s.Readable(b))
    && (forall r :: 0 <= r < |q.readers| && (q.readers[r].Loaded? || q.readers[r].Observed?) ==>
          s.Readable(q.readers[r].bevy))
    && (forall w :: 0 <= w < |q.workers| && (q.workers[w].Holding? || q.workers[w].Decoding?) ==> s.Readable(q.workers[w].bevy))
  }

  lemma DecodedKept(s: Setup, q: State, q': State, r: nat, x: Reader)
    requires Decoded(s, q) && r < |q.readers| && q'.readers == q.readers[r := x]
    requires q'.workers == q.workers && q'.ready == q.ready
    requires x.Loaded? || x.Observed? ==> s.Readable(x.bevy)
    requires q'.queue == q.queue || (q.readers[r].Observed? && q'.queue == q.queue + [q.readers[r].bevy])
    ensures Decoded(s, q')
  {
  }

  lemma DecodedReader(s: Setup, q: State, a: Action)
    requires s.st.Openable() && Decoded(s, q) && Enabled(s, q, a)
    requires OfReader(a)
    ensures Decoded(s, NextReader(s, q, a))
  {
    var q' := NextReader(s, q, a);
    DecodedKept(s, q, q', a.r, q'.readers[a.r]);
  }

  lemma DecodedWorker(s: Setup, q: State, a: Action)
    requires s.st.Openable() && Decoded(s, q) && Enabled(s, q, a)
    requires OfWorker(a)
    ensures Decoded(s, NextWorker(s, q, a))
  {
    if a.Take? {
      assert forall b :: b in q.queue[1..] ==> b in q.queue;
      assert q.queue[0] in q.queue;
    }
  }

  lemma DecodedConsumer(s: Setup, q: State, a: Action)
    requires s.st.Openable() && Decoded(s, q) && Enabled(s, q, a)
    requires OfConsumer(a)
    ensures Decoded(s, NextConsumer(s, q, a))
  {
    var q' := NextConsumer(s, q, a);
    assert q'.readers == q.readers && q'.workers == q.workers && q'.ready <= q.ready;
    assert q'.queue == if a.Drain? then q.queue[1..] else q.queue;
    assert forall b :: b in q'.queue ==> b in q.queue;
  }

  lemma DecodedStep(s: Setup, q: State, a: Action)
    requires s.st.Openable() && Decoded(s, q) && Enabled(s, q, a)
    ensures Decoded(s, Next(s, q, a))
  {
    if OfReader(a) {
      DecodedReader(s, q, a);
    } else if OfWorker(a) {
      DecodedWorker(s, q, a);
    } else {
      DecodedConsumer(s, q, a);
    }
  }

  /** Delivering the bevy due next keeps the order. */
  lemma InOrderDue(s: Setup, q: State, d: Delivery)
    requires s.st.Openable() && InOrder(s, q) && q.error.None?
    requires q.expected < s.Count() && |q.out| < s.st.size
    requires s.Decodes(q.expected) && d == Due(s, q)
    ensures var whole := SerialBevies(s.st, s.bevies, 0, s.Count(), 0);
            && q.out + d.bytes <= whole.bytes && |q.out + d.bytes| <= s.st.size
            && (d.error.Some? ==> !whole.Whole())
            && (d.error.None? ==>
                  whole == Then(Bytes(q.out + d.bytes),
                                SerialBevies(s.st, s.bevies, q.expected + 1, s.Count(), |q.out + d.bytes|)))
  {
    var rest := SerialBevies(s.st, s.bevies, q.expected + 1, s.Count(), |q.out| + |d.bytes|);
    assert SerialBevies(s.st, s.bevies, q.expected, s.Count(), |q.out|) == Then(d, rest);
    ThenAssociates(Bytes(q.out), d, rest);
  }

  lemma InOrderStep(s: Setup, q: State, a: Action)
    requires s.st.Openable() && Decoded(s, q) && InOrder(s, q) && Enabled(s, q, a)
    requires q.consumer.Seeking? ==> q.error.None?
    ensures InOrder(s, Next(s, q, a))
  {
    if a.Look? && !Complete(s, q) && q.expected in q.ready {
      InOrderLook(s, q, a);
    } else {
      var after := Next(s, q, a);
      assert after.out == q.out && after.expected == q.expected && after.error == q.error;
    }
  }

  /** The sink refused part of the way, or the bevy failed: what came of it is still a beginning. */
  lemma InOrderStops(s: Setup, q: State, after: State, d: Delivery, n: nat)
    requires s.st.Openable() && InOrder(s, q) && q.error.None?
    requires q.expected < s.Count() && |q.out| < s.st.size
    requires s.Decodes(q.expected) && d == Due(s, q) && n <= |d.bytes|
    requires after.out == q.out + d.bytes[..n] && after.expected == q.expected
    requires after.error == Some(SinkRefused) || (after.error.Some? && after.error == d.error)
    ensures InOrder(s, after)
  {
    InOrderDue(s, q, d);
    PrefixOfPrefix(q.out, d.bytes, n);
  }

  /** The bevy was delivered whole. */
  lemma InOrderGoesOn(s: Setup, q: State, after: State, d: Delivery)
    requires s.st.Openable() && InOrder(s, q) && q.error.None?
    requires q.expected < s.Count() && |q.out| < s.st.size
    requires s.Decodes(q.expected) && s.Readable(q.expected) && d == Due(s, q) && d.error.None?
    requires after.out == q.out + d.bytes && after.expected == q.expected + 1 && after.error.None?
    ensures InOrder(s, after)
  {
    InOrderDue(s, q, d);
  }

  lemma InOrderLook(s: Setup, q: State, a: Action)
    requires s.st.Openable() && Decoded(s, q) && InOrder(s, q) && Enabled(s, q, a)
    requires a.Look? && q.error.None? && !Complete(s, q) && q.expected in q.ready
    ensures InOrder(s, NextConsumer(s, q, a))
  {
    var d, after := Due(s, q), NextConsumer(s, q, a);
    if a.cut.Some? {
      InOrderStops(s, q, after, d, a.cut.value);
    } else if d.error.Some? {
      assert d.bytes[..|d.bytes|] == d.bytes;
      InOrderStops(s, q, after, d, |d.bytes|);
    } else {
      InOrderGoesOn(s, q, after, d);
    }
  }

  lemma PrefixOfPrefix(out: seq<Byte>, bytes: seq<Byte>, n: nat)
    requires n <= |bytes|
    ensures out + bytes[..n] <= out + bytes
  {
  }

  /** What an action may change of the consumer's own variables. */
  ghost predicate Settled(q: State) {
    q.consumer.Seeking? || q.consumer.Asleep? ==> q.error.None? && !q.closed
  }

  ghost predicate Safe(s: Setup, q: State)
    requires s.st.Openable()
  {
    Decoded(s, q) && InOrder(s, q) && Settled(q)
  }

  lemma SafeInit(s: Setup)
    requires s.st.Openable()
    ensures Safe(s, Init(s))
  {
    var whole := SerialBevies(s.st, s.bevies, 0, s.Count(), 0);
    assert whole == Then(Bytes([]), whole);
  }

  lemma SafeStep(s: Setup, q: State, a: Action)
    requires s.st.Openable() && Safe(s, q) && Enabled(s, q, a)
    ensures Safe(s, Next(s, q, a))
  {
    DecodedStep(s, q, a);
    InOrderStep(s, q, a);
  }

  lemma {:induction false} SafeRun(s: Setup, q: State, run: seq<Action>)
    requires s.st.Openable() && Safe(s, q) && Feasible(s, q, run)
    ensures Safe(s, After(s, q, run))
    decreases |run|
  {
    if run != [] {
      SafeStep(s, q, run[0]);
      SafeRun(s, Next(s, q, run[0]), run[1..]);
    }
  }

  /**
   In every run, whatever the order the threads take, the sink has received a beginning of what the serial
   read delivers.
   */
  lemma DeliversInStreamOrder(s: Setup, run: seq<Action>)
    requires s.st.Openable() && Feasible(s, Init(s), run)
    ensures After(s, Init(s), run).out <= SerialRead(s.st, s.bevies).bytes
  {
    SafeInit(s);
    SafeRun(s, Init(s), run);
  }

  /** A run that reports success delivered exactly what a serial read that succeeds delivers. */
  lemma SuccessIsSerial(s: Setup, run: seq<Action>)
    requires s.st.Openable() && Feasible(s, Init(s), run)
    requires Verdict(s, After(s, Init(s), run)).None?
    ensures SerialRead(s.st, s.bevies) == Bytes(After(s, Init(s), run).out)
  {
    SafeInit(s);
    SafeRun(s, Init(s), run);
    var q := After(s, Init(s), run);
    assert SerialBevies(s.st, s.bevies, q.expected, s.Count(), |q.out|) == Nothing();
    assert q.out + [] == q.out;
  }
}
