/**
 Runs of the pipeline put together step by step: what one thread can do on its own while the others wait, and
 a run that delivers the first bevies of a sound stream one after another while the governor admits readers as
 fast as it ever does.
 */
module PipelineRuns {
  import opened Basics
  import opened Deliveries
  import opened Streams
  import opened Pipeline
  import opened PipelineOutcome

  lemma Then1(s: Setup, q: State, a: Action)
    requires s.st.Openable() && Enabled(s, q, a)
    ensures Feasible(s, q, [a]) && After(s, q, [a]) == Next(s, q, a)
  {
    assert Feasible(s, Next(s, q, a), []);
  }

  lemma Prepend(s: Setup, q: State, a: Action, rest: seq<Action>)
    requires s.st.Openable() && Enabled(s, q, a) && Feasible(s, Next(s, q, a), rest)
    ensures Feasible(s, q, [a] + rest) && After(s, q, [a] + rest) == After(s, Next(s, q, a), rest)
  {
    assert ([a] + rest)[1..] == rest;
  }

  lemma Then2(s: Setup, q: State, a: Action, b: Action)
    requires s.st.Openable() && Enabled(s, q, a) && Enabled(s, Next(s, q, a), b)
    ensures Feasible(s, q, [a, b]) && After(s, q, [a, b]) == Next(s, Next(s, q, a), b)
  {
    Then1(s, Next(s, q, a), b);
    Prepend(s, q, a, [b]);
    assert [a] + [b] == [a, b];
  }

  lemma Then3(s: Setup, q: State, a: Action, b: Action, c: Action)
    requires s.st.Openable() && Enabled(s, q, a) && Enabled(s, Next(s, q, a), b)
    requires Enabled(s, Next(s, Next(s, q, a), b), c)
    ensures Feasible(s, q, [a, b, c]) && After(s, q, [a, b, c]) == Next(s, Next(s, Next(s, q, a), b), c)
  {
    Then2(s, Next(s, q, a), b, c);
    Prepend(s, q, a, [b, c]);
    assert [a] + [b, c] == [a, b, c];
  }

  /** `to` is what some run leads to. */
  ghost predicate Leads(s: Setup, q: State, run: seq<Action>, to: State)
    requires s.st.Openable()
  {
    Feasible(s, q, run) && After(s, q, run) == to
  }

  lemma Onward(s: Setup, q0: State, first: seq<Action>, q1: State, second: seq<Action>, q2: State) returns (run: seq<Action>)
    requires s.st.Openable() && Leads(s, q0, first, q1) && Leads(s, q1, second, q2)
    ensures Leads(s, q0, run, q2)
  {
    run := first + second;
    FeasibleConcat(s, q0, first, second);
  }

  // ----- one thread at a time -----

  /** An admitted reader opens its handle. */
  lemma Welcome(s: Setup, q: State, r: nat) returns (run: seq<Action>)
    requires s.st.Openable() && r < |q.readers| && r < s.Readers()
    requires q.readers[r].Unopened? && r < q.admitted && s.opens[r]
    ensures Leads(s, q, run, q.(readers := q.readers[r := Looking]))
  {
    run := [Enter(r), Open(r)];
    Then2(s, q, Enter(r), Open(r));
    assert q.readers[r := Opening][r := Looking] == q.readers[r := Looking];
  }

  /** An admitted reader with room ahead passes every check before a claim. */
  lemma Approach(s: Setup, q: State, r: nat) returns (run: seq<Action>)
    requires s.st.Openable() && r < |q.readers| && r < s.Readers()
    requires q.readers[r].Looking? && r < q.admitted && !Stopping(q) && q.next < q.wanted + s.lookahead
    ensures Leads(s, q, run, q.(readers := q.readers[r := Passed]))
  {
    var q2 := q.(readers := q.readers[r := Allowed]);
    Then2(s, q, Clear(r), Allow(r));
    assert q.readers[r := Cleared][r := Allowed] == q.readers[r := Allowed];
    assert Leads(s, q, [Clear(r), Allow(r)], q2);
    Then2(s, q2, Gauge(r), Pass(r));
    assert q2.readers[r := Gauged(q.wanted + s.lookahead)][r := Passed] == q.readers[r := Passed];
    run := Onward(s, q, [Clear(r), Allow(r)], q2, [Gauge(r), Pass(r)], q.(readers := q.readers[r := Passed]));
  }

  /** What the governor makes of one more bevy. */
  function Reported(s: Setup, q: State, seen: Option<Trend>): State {
    var told := q.(observed := q.observed + 1);
    if seen.Some? then Decide(s, told, seen.value) else told
  }

  predicate MayReport(q: State, seen: Option<Trend>) {
    seen.Some? ==> q.observed + 1 >= WARMUP_BEVIES && !q.probe.Ended?
  }

  /** A reader claims the next bevy and reads it. */
  lemma Fetch(s: Setup, q: State, r: nat, seen: Option<Trend>) returns (run: seq<Action>)
    requires s.st.Openable() && r < |q.readers| && r < s.Readers() && q.readers[r].Passed?
    requires q.next < s.Count() && s.Readable(q.next) && MayReport(q, seen)
    ensures Leads(s, q, run, Reported(s, q, seen).(next := q.next + 1, readers := q.readers[r := Observed(q.next)]))
  {
    var b := q.next;
    run := [Claim(r), Read(r), Observe(r, seen)];
    assert q.readers[r := Claimed(b)][r := Loaded(b)] == q.readers[r := Loaded(b)];
    assert q.readers[r := Loaded(b)][r := Observed(b)] == q.readers[r := Observed(b)];
    var q2 := Next(s, Next(s, q, Claim(r)), Read(r));
    assert q2 == q.(next := b + 1, readers := q.readers[r := Loaded(b)]);
    Then3(s, q, Claim(r), Read(r), Observe(r, seen));
  }

  /** A reader sends its bevy and an idle worker begins on it. */
  lemma HandOver(s: Setup, q: State, r: nat, w: nat) returns (run: seq<Action>)
    requires s.st.Openable() && r < |q.readers| && r < s.Readers() && w < |q.workers|
    requires q.readers[r].Observed? && q.workers[w].Idle? && q.queue == [] && 1 <= s.depth
    ensures Leads(s, q, run, q.(readers := q.readers[r := Looking], workers := q.workers[w := Holding(q.readers[r].bevy)]))
  {
    run := [Send(r), Take(w)];
    assert ([] + [q.readers[r].bevy])[1..] == [];
    Then2(s, q, Send(r), Take(w));
  }

  /** A worker decodes the bevy it holds and is idle again. */
  lemma Finish(s: Setup, q: State, w: nat) returns (run: seq<Action>)
    requires s.st.Openable() && w < |q.workers| && q.workers[w].Holding? && s.Decodes(q.workers[w].bevy) && !Stopping(q)
    ensures Leads(s, q, run, q.(workers := q.workers[w := Idle], ready := q.ready + {q.workers[w].bevy},
                                consumer := Wake(q.consumer)))
  {
    var b := q.workers[w].bevy;
    run := [Check(w), Decode(w)];
    assert q.workers[w := Decoding(b)][w := Idle] == q.workers[w := Idle];
    Then2(s, q, Check(w), Decode(w));
  }

  /** A bevy goes from the cursor to the window. */
  function Served(s: Setup, q: State, r: nat, seen: Option<Trend>): State
    requires r < |q.readers|
  {
    Reported(s, q, seen).(next := q.next + 1, readers := q.readers[r := Looking], ready := q.ready + {q.next},
                          consumer := Wake(q.consumer))
  }

  lemma Serve(s: Setup, q: State, r: nat, w: nat, seen: Option<Trend>) returns (run: seq<Action>)
    requires s.st.Openable() && r < |q.readers| && r < s.Readers() && w < |q.workers|
    requires q.readers[r].Passed? && q.workers[w].Idle? && q.queue == [] && 1 <= s.depth && !Stopping(q)
    requires q.next < s.Count() && s.Readable(q.next) && s.Decodes(q.next) && MayReport(q, seen)
    ensures Leads(s, q, run, Served(s, q, r, seen))
  {
    var b := q.next;
    var q1 := Reported(s, q, seen).(next := b + 1, readers := q.readers[r := Observed(b)]);
    run := Fetch(s, q, r, seen);
    var q2 := q1.(readers := q1.readers[r := Looking], workers := q1.workers[w := Holding(b)]);
    var more := HandOver(s, q1, r, w);
    run := Onward(s, q, run, q1, more, q2);
    more := Finish(s, q2, w);
    assert q1.readers[r := Looking] == q.readers[r := Looking];
    assert q2.workers[w := Idle] == q.workers;
    run := Onward(s, q, run, q2, more, Served(s, q, r, seen));
  }

  // ----- several readers at once -----

  /** The readers from `f` up to `n` have passed every check. */
  function Passing(q: State, f: nat, n: nat): State {
    q.(readers := seq(|q.readers|, (r: nat) requires r < |q.readers| => if f <= r < n then Passed else q.readers[r]))
  }

  lemma {:induction false} AllPass(s: Setup, q: State, f: nat, n: nat) returns (run: seq<Action>)
    requires s.st.Openable() && f <= n <= q.admitted && n <= s.Readers() == |q.readers|
    requires !Stopping(q) && q.next < q.wanted + s.lookahead
    requires forall r :: f <= r < n ==> q.readers[r].Looking? || (q.readers[r].Unopened? && s.opens[r])
    ensures Leads(s, q, run, Passing(q, f, n))
    decreases n
  {
    if n == f {
      run := [];
      assert Passing(q, f, n).readers == q.readers;
    } else {
      run := AllPass(s, q, f, n - 1);
      var q1 := Passing(q, f, n - 1);
      var q2 := q1.(readers := q1.readers[n - 1 := Looking]);
      var more := [];
      if q1.readers[n - 1].Unopened? {
        more := Welcome(s, q1, n - 1);
      } else {
        assert q1.readers[n - 1 := Looking] == q1.readers;
      }
      run := Onward(s, q, run, q1, more, q2);
      more := Approach(s, q2, n - 1);
      assert q2.readers[n - 1 := Passed] == Passing(q, f, n).readers;
      run := Onward(s, q, run, q2, more, Passing(q, f, n));
    }
  }

  // ----- the governor at its fastest -----

  /** The readers admitted after `k` reports when every window brings a gain. */
  function Grown(s: Setup, k: nat): nat
    requires s.admitted <= s.Readers()
  {
    Min(s.Readers(), s.admitted + Max(0, k - (WARMUP_BEVIES - 1)))
  }

  function GrownProbe(s: Setup, k: nat): Probe
    requires s.admitted <= s.Readers()
  {
    if Grown(s, k) > s.admitted then Compared else Fresh
  }

  /** What the governor sees at report `k + 1`: a gain, while there are readers left to admit. */
  function Gaining(s: Setup, k: nat): Option<Trend>
    requires s.admitted <= s.Readers()
  {
    if k + 1 >= WARMUP_BEVIES && Grown(s, k) < s.Readers() then Some(Gain) else None
  }

  /** All bevies before `k`, and no other, have been claimed and reported, and the governor is at its fastest. */
  predicate Grows(s: Setup, q: State, k: nat)
    requires s.admitted <= s.Readers()
  {
    q.next == k && q.observed == k && q.admitted == Grown(s, k) && q.probe == GrownProbe(s, k)
  }

  lemma GrowsOn(s: Setup, q: State, k: nat)
    requires s.admitted <= s.Readers() && Grows(s, q, k)
    ensures MayReport(q, Gaining(s, k))
    ensures Grows(s, Reported(s, q, Gaining(s, k)).(next := k + 1), k + 1)
    ensures Reported(s, q, Gaining(s, k)) == q.(observed := k + 1, admitted := Grown(s, k + 1), probe := GrownProbe(s, k + 1))
  {
  }

  // ----- bevies served without being delivered -----

  function Numbers(lo: nat, hi: nat): (numbers: set<nat>)
    ensures forall b: nat :: b in numbers <==> lo <= b < hi
  {
    if hi <= lo then {} else Numbers(lo, hi - 1) + {hi - 1}
  }

  /** A reader and a worker have served every bevy up to `n`. */
  function ServedTo(s: Setup, q: State, n: nat): State
    requires s.admitted <= s.Readers() && q.next <= n
  {
    q.(next := n, observed := n, admitted := Grown(s, n), probe := GrownProbe(s, n),
       ready := q.ready + Numbers(q.next, n), consumer := if n > q.next then Wake(q.consumer) else q.consumer)
  }

  lemma {:induction false} ServeTo(s: Setup, q: State, r: nat, w: nat, n: nat) returns (run: seq<Action>)
    requires s.Arranged() && r < |q.readers| && r < s.Readers() && w < |q.workers|
    requires Grows(s, q, q.next) && q.next <= n <= s.Count() && n <= q.wanted + s.lookahead
    requires q.readers[r].Looking? && q.workers[w].Idle? && q.queue == [] && !Stopping(q) && r < q.admitted
    requires forall b :: q.next <= b < n ==> s.Readable(b) && s.Decodes(b)
    ensures Leads(s, q, run, ServedTo(s, q, n))
    decreases n - q.next
  {
    if q.next == n {
      run := [];
      assert ServedTo(s, q, n) == q;
    } else {
      var q1;
      q1, run := ServeNext(s, q, r, w);
      var more := ServeTo(s, q1, r, w, n);
      assert q1.ready + Numbers(q1.next, n) == q.ready + Numbers(q.next, n);
      run := Onward(s, q, run, q1, more, ServedTo(s, q, n));
    }
  }

  /** One bevy served from where the reader looks around. */
  lemma ServeNext(s: Setup, q: State, r: nat, w: nat) returns (to: State, run: seq<Action>)
    requires s.Arranged() && r < |q.readers| && r < s.Readers() && w < |q.workers|
    requires Grows(s, q, q.next) && q.next < s.Count() && q.next < q.wanted + s.lookahead
    requires q.readers[r].Looking? && q.workers[w].Idle? && q.queue == [] && !Stopping(q) && r < q.admitted
    requires s.Readable(q.next) && s.Decodes(q.next)
    ensures to == ServedTo(s, q, q.next + 1) && Grows(s, to, q.next + 1)
    ensures Leads(s, q, run, to)
  {
    var q1 := q.(readers := q.readers[r := Passed]);
    GrowsOn(s, q1, q.next);
    run := Approach(s, q, r);
    var more := Serve(s, q1, r, w, Gaining(s, q.next));
    to := Served(s, q1, r, Gaining(s, q.next));
    assert q1.readers[r := Looking] == q.readers;
    assert Numbers(q.next, q.next + 1) == {q.next};
    run := Onward(s, q, run, q1, more, to);
  }

  // ----- bevies delivered one after another -----

  /** What bevy `b` delivers after so many bytes. */
  function BevyDelivers(s: Setup, b: nat, delivered: nat): Delivery {
    match BevyAt(s.bevies, b)
    case Missing => Failed(Unreadable)
    case Held(chunks, _, _) => SerialChunks(s.st, chunks, 0, delivered)
  }

  /** What reading the bevies before `k` in order delivers. */
  function Ahead(s: Setup, k: nat): Delivery {
    if k == 0 then Nothing()
    else
      var done := Ahead(s, k - 1);
      if |done.bytes| >= s.st.size then done else Then(done, BevyDelivers(s, k - 1, |done.bytes|))
  }

  /** A serial read from bevy `k` on delivers that bevy first. */
  lemma SerialHead(s: Setup, k: nat, n: nat, delivered: nat)
    requires k < n && delivered < s.st.size
    ensures var here := BevyDelivers(s, k, delivered);
            SerialBevies(s.st, s.bevies, k, n, delivered) ==
            Then(here, SerialBevies(s.st, s.bevies, k + 1, n, delivered + |here.bytes|))
  {
  }

  lemma NothingFirst(d: Delivery)
    ensures Then(Nothing(), d) == d
  {
    assert [] + d.bytes == d.bytes;
  }

  lemma AheadLast(s: Setup, k: nat)
    requires k > 0 && Ahead(s, k).Whole()
    ensures Ahead(s, k - 1).Whole()
    ensures var done := Ahead(s, k - 1);
            if |done.bytes| >= s.st.size then Ahead(s, k) == done
            else var here := BevyDelivers(s, k - 1, |done.bytes|);
                 Ahead(s, k) == Then(done, here) && |Ahead(s, k).bytes| == |done.bytes| + |here.bytes|
  {
  }

  /** What is left of the serial read after the bevies before `k`. */
  function Rest(s: Setup, k: nat, n: nat): Delivery
    requires k <= n
  {
    SerialBevies(s.st, s.bevies, k, n, |Ahead(s, k).bytes|)
  }

  lemma Regrouped(done: Delivery, here: Delivery, rest: Delivery, ahead: Delivery, tail: Delivery)
    requires ahead == Then(done, here) && tail == Then(here, rest)
    ensures Then(done, tail) == Then(ahead, rest)
  {
    ThenAssociates(done, here, rest);
  }

  lemma RestOfFull(s: Setup, k: nat, n: nat)
    requires k <= n && |Ahead(s, k).bytes| >= s.st.size
    ensures Rest(s, k, n) == Nothing()
  {
  }

  lemma RestHead(s: Setup, k: nat, n: nat)
    requires 0 < k <= n && Ahead(s, k).Whole() && |Ahead(s, k - 1).bytes| < s.st.size
    ensures Rest(s, k - 1, n) == Then(BevyDelivers(s, k - 1, |Ahead(s, k - 1).bytes|), Rest(s, k, n))
  {
    AheadLast(s, k);
    SerialHead(s, k - 1, n, |Ahead(s, k - 1).bytes|);
  }

  lemma RestNext(s: Setup, k: nat, n: nat)
    requires 0 < k <= n && Ahead(s, k).Whole()
    ensures Then(Ahead(s, k - 1), Rest(s, k - 1, n)) == Then(Ahead(s, k), Rest(s, k, n))
  {
    var done := Ahead(s, k - 1);
    AheadLast(s, k);
    if |done.bytes| < s.st.size {
      RestHead(s, k, n);
      Regrouped(done, BevyDelivers(s, k - 1, |done.bytes|), Rest(s, k, n), Ahead(s, k), Rest(s, k - 1, n));
    } else {
      RestOfFull(s, k - 1, n);
      RestOfFull(s, k, n);
    }
  }

  /** The serial read delivers the first bevies, and goes on from there. */
  lemma {:induction false} AheadIsSerial(s: Setup, k: nat, n: nat)
    requires k <= n && Ahead(s, k).Whole()
    ensures SerialBevies(s.st, s.bevies, 0, n, 0) == Then(Ahead(s, k), Rest(s, k, n))
  {
    if k == 0 {
      NothingFirst(SerialBevies(s.st, s.bevies, 0, n, 0));
    } else {
      AheadLast(s, k);
      AheadIsSerial(s, k - 1, n);
      RestNext(s, k, n);
    }
  }

  /** The next bevy, if it is there, delivers what is due after those before it. */
  lemma AheadNext(s: Setup, k: nat)
    requires Ahead(s, k).Whole() && |Ahead(s, k).bytes| < s.st.size && BevyAt(s.bevies, k).Held?
    ensures Ahead(s, k + 1) == Then(Ahead(s, k), SerialChunks(s.st, BevyAt(s.bevies, k).chunks, 0, |Ahead(s, k).bytes|))
  {
  }

  /** The bevies before `k` have been delivered, and nothing else has begun. */
  function Cruising(s: Setup, k: nat): State
    requires s.Arranged()
  {
    Init(s).(next := k, observed := k, admitted := Grown(s, k), probe := GrownProbe(s, k), expected := k,
             wanted := Max(0, k - 1), out := Ahead(s, k).bytes, readers := Init(s).readers[0 := Looking])
  }

  /** Every bevy before `k` can be read, decodes, and is delivered whole. */
  ghost predicate SoundTo(s: Setup, k: nat)
    requires s.st.Openable()
  {
    && k <= s.Count() && Bounded(s.st, s.bevies)
    && (forall b :: 0 <= b < k ==> s.Readable(b) && s.Decodes(b))
    && (forall b :: 0 <= b <= k ==> Ahead(s, b).Whole())
  }

  /** The bevies before `k` hold at most what `k` bevies hold, which is less than the stream if there is another. */
  lemma {:induction false} AheadFits(s: Setup, k: nat)
    requires s.st.Openable() && SoundTo(s, k)
    ensures |Ahead(s, k).bytes| <= k * (s.st.chunkSize * s.st.chunksInSegment)
    ensures k < s.Count() ==> |Ahead(s, k).bytes| < s.st.size
  {
    if k > 0 {
      AheadFits(s, k - 1);
      assert s.Decodes(k - 1) && Ahead(s, k - 1).Whole();
      AheadNext(s, k - 1);
      BevyLength(s.st, s.bevies, k - 1, |Ahead(s, k - 1).bytes|);
      MulSucc(k - 1, s.st.chunkSize * s.st.chunksInSegment);
    }
    if k < s.Count() {
      EveryBevyNeeded(s.st, k);
    }
  }

  /** One bevy more is delivered. */
  lemma CruiseNext(s: Setup, k: nat) returns (run: seq<Action>)
    requires s.Arranged() && SoundTo(s, k + 1)
    ensures Leads(s, Cruising(s, k), run, Cruising(s, k + 1))
  {
    var q := Cruising(s, k);
    assert s.Readable(k) && s.Decodes(k) && Ahead(s, k).Whole();
    var q1;
    q1, run := ServeNext(s, q, 0, 0);
    assert q1.ready == {k} && q1.ready - {k} == {};
    LookDelivers(s, q1, k);
    run := Onward(s, q, run, q1, [Look(None)], Cruising(s, k + 1));
  }

  lemma LookDelivers(s: Setup, q: State, k: nat)
    requires s.Arranged() && SoundTo(s, k + 1)
    requires q.consumer.Seeking? && q.expected == k && k in q.ready && q.out == Ahead(s, k).bytes
    ensures Leads(s, q, [Look(None)],
                  q.(wanted := k, ready := q.ready - {k}, out := Ahead(s, k + 1).bytes, expected := k + 1))
  {
    assert s.Decodes(k) && Ahead(s, k).Whole() && Ahead(s, k + 1).Whole();
    AheadFits(s, k);
    AheadNext(s, k);
    Then1(s, q, Look(None));
  }

  lemma {:induction false} Cruise(s: Setup, k: nat) returns (run: seq<Action>)
    requires s.Arranged() && SoundTo(s, k) && s.opens[0]
    ensures Leads(s, Init(s), run, Cruising(s, k))
  {
    if k == 0 {
      run := Welcome(s, Init(s), 0);
      assert Ahead(s, 0) == Nothing();
    } else {
      run := Cruise(s, k - 1);
      var more := CruiseNext(s, k - 1);
      run := Onward(s, Init(s), run, Cruising(s, k - 1), more, Cruising(s, k));
    }
  }
}
