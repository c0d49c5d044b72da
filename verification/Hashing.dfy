/**
 The multi-hasher (src/hash.rs): several digests over one pass, all but at least one of them on threads
 of their own behind bounded channels. Starting it is a method; feeding and finishing it is a state
 machine whose runs are the interleavings of the caller and the worker threads.
 */
module Hashing {
  import opened Basics
  import opened Appearances

  datatype Algorithm =
    | Md5 | Sha1 | Sha256 | Sha512 | Blake2b | Sha3_256 | Sha3_384 | Sha3_512 | Shake128 | Shake256 | Blake3
    | BlockMapSha512 | BlockMapSha256 | Other(name: string)

  /** The block-map forms are not digests over a byte stream, and `Other` is not recognised. */
  predicate IsComputable(a: Algorithm) {
    !a.BlockMapSha512? && !a.BlockMapSha256? && !a.Other?
  }

  predicate IsDeclined(a: Algorithm) {
    !IsComputable(a)
  }

  /** The digest primitives: how each algorithm starts, absorbs a slice, and ends. */
  datatype Primitives<!S> = Primitives(
    start: Algorithm -> S,
    absorb: (S, seq<Byte>) -> S,
    digest: (Algorithm, S) -> seq<Byte>)

  /** All that is asked of them: absorbing two slices is absorbing them joined, and absorbing none changes nothing. */
  ghost predicate Lawful<S(!new)>(p: Primitives<S>) {
    && (forall s, a: seq<Byte>, b: seq<Byte> :: p.absorb(p.absorb(s, a), b) == p.absorb(s, a + b))
    && (forall s :: p.absorb(s, []) == s)
  }

  datatype Digest = Digest(algorithm: Algorithm, value: seq<Byte>)

  /** The digest of some bytes taken in one slice. */
  function OneShot<S>(p: Primitives<S>, a: Algorithm, bytes: seq<Byte>): Digest {
    Digest(a, p.digest(a, p.absorb(p.start(a), bytes)))
  }

  function OneShots<S>(p: Primitives<S>, algorithms: seq<Algorithm>, bytes: seq<Byte>): (r: seq<Digest>)
    ensures |r| == |algorithms| && forall i :: 0 <= i < |r| ==> r[i] == OneShot(p, algorithms[i], bytes)
  {
    seq(|algorithms|, i requires 0 <= i < |algorithms| => OneShot(p, algorithms[i], bytes))
  }

  // ----- starting -----

  /** How many algorithms get a thread of their own: one always stays with the caller. */
  function Spawnable(n: nat, cap: nat): (r: nat)
    ensures r <= cap && (n > 0 ==> r < n)
  {
    Min(if n == 0 then 0 else n - 1, cap)
  }

  /** One more request adds to those it passes only if it is new among them. */
  lemma OneMoreRequested(algorithms: seq<Algorithm>, i: nat, f: Algorithm -> bool)
    requires i < |algorithms|
    ensures var before, a := Firsts(Keep(algorithms[..i], f)), algorithms[i];
      && Firsts(Keep(algorithms[..i + 1], f)) == (if f(a) && a !in before then before + [a] else before)
      && forall x :: x in before ==> f(x)
  {
    var a := algorithms[i];
    assert algorithms[..i + 1] == algorithms[..i] + [a];
    KeepSnoc(algorithms[..i], a, f);
    FirstsSnoc(Keep(algorithms[..i], f), a);
    var before := Firsts(Keep(algorithms[..i], f));
    forall x | x in before
      ensures f(x)
    {
      assert x in ToSet(before);
    }
  }

  /** Sorts the requested algorithms into inline, threaded and declined. */
  method WithThreadCap(algorithms: seq<Algorithm>, cap: nat)
    returns (running: seq<Algorithm>, workers: seq<Algorithm>, declined: seq<Algorithm>)
    ensures workers + running == Firsts(Keep(algorithms, IsComputable))
    ensures declined == Firsts(Keep(algorithms, IsDeclined))
    ensures |workers| == Spawnable(|workers + running|, cap)
  {
    running, declined := [], [];
    var i := 0;
    while i < |algorithms|
      invariant i <= |algorithms|
      invariant running == Firsts(Keep(algorithms[..i], IsComputable))
      invariant declined == Firsts(Keep(algorithms[..i], IsDeclined))
    {
      var a := algorithms[i];
      OneMoreRequested(algorithms, i, IsComputable);
      OneMoreRequested(algorithms, i, IsDeclined);
      if !(a in running || a in declined) {
        if IsComputable(a) {
          running := running + [a];
        } else {
          declined := declined + [a];
        }
      }
      i := i + 1;
    }
    assert algorithms[..|algorithms|] == algorithms;
    var spawnable := Spawnable(|running|, cap);
    if spawnable > 0 {
      workers, running := running[..spawnable], running[spawnable..];
    } else {
      workers := [];
    }
  }

  lemma FirstsHold(algorithms: seq<Algorithm>, f: Algorithm -> bool)
    ensures Distinct(Firsts(Keep(algorithms, f)))
    ensures forall a :: a in Firsts(Keep(algorithms, f)) <==> a in algorithms && f(a)
  {
    FirstsInOrder(Keep(algorithms, f));
    assert forall a :: a in Firsts(Keep(algorithms, f)) <==> a in ToSet(Firsts(Keep(algorithms, f)));
  }

  lemma DistinctJoin(x: seq<Algorithm>, y: seq<Algorithm>)
    requires Distinct(x) && Distinct(y)
    requires forall a :: a in x ==> a !in y
    ensures Distinct(x + y)
  {
    forall i, j | 0 <= i < j < |x + y|
      ensures (x + y)[i] != (x + y)[j]
    {
      if i < |x| <= j {
        assert x[i] in x && y[j - |x|] in y;
      }
    }
  }

  /** Each requested algorithm lands in exactly one of the three lists, once. */
  lemma EveryAlgorithmPlaced(algorithms: seq<Algorithm>, running: seq<Algorithm>, workers: seq<Algorithm>,
                             declined: seq<Algorithm>)
    requires workers + running == Firsts(Keep(algorithms, IsComputable))
    requires declined == Firsts(Keep(algorithms, IsDeclined))
    ensures Distinct(workers + running + declined)
    ensures ToSet(workers + running + declined) == ToSet(algorithms)
    ensures forall a :: a in declined <==> a in algorithms && !IsComputable(a)
  {
    FirstsHold(algorithms, IsComputable);
    FirstsHold(algorithms, IsDeclined);
    DistinctJoin(workers + running, declined);
  }

  // ----- feeding and finishing, as steps -----

  /** Slices one worker's channel may hold. */
  const DEPTH: nat := 64

  /** A worker thread: what it has absorbed, the slice in hand, its channel, and its digest once returned. */
  datatype Worker<S> = Worker(algorithm: Algorithm, state: S, held: Option<seq<Byte>>, queue: seq<seq<Byte>>,
                              closed: bool, digest: Option<Digest>)
  {
    function Pending(): seq<seq<Byte>> {
      (if held.Some? then [held.value] else []) + queue
    }
  }

  /** Where the caller is: `Ready` between slices, `Sending` slice `k` to worker `i`, then ending each worker in turn. */
  datatype Caller = Ready(k: nat) | Sending(k: nat, i: nat) | Closing(i: nat) | Joining(i: nat)

  datatype Inline<S> = Inline(algorithm: Algorithm, state: S)

  datatype State<S> = State(running: seq<Inline<S>>, workers: seq<Worker<S>>, hashed: nat, caller: Caller,
                            digests: seq<Digest>)

  datatype Action = Begin | Send | Count | Finish | Close | Join | Receive(w: nat) | Absorb(w: nat) | End(w: nat)

  /** A job: the primitives, the split of the algorithms, and the slices the caller will feed. */
  datatype Job<!S> = Job(p: Primitives<S>, running: seq<Algorithm>, workers: seq<Algorithm>, slices: seq<seq<Byte>>)

  function StartInline<S>(j: Job<S>): (r: seq<Inline<S>>)
    ensures |r| == |j.running|
  {
    seq(|j.running|, i requires 0 <= i < |j.running| => Inline(j.running[i], j.p.start(j.running[i])))
  }

  function StartWorkers<S>(j: Job<S>): (r: seq<Worker<S>>)
    ensures |r| == |j.workers|
  {
    seq(|j.workers|, i requires 0 <= i < |j.workers| =>
      Worker(j.workers[i], j.p.start(j.workers[i]), None, [], false, None))
  }

  function Init<S>(j: Job<S>): State<S> {
    State(StartInline(j), StartWorkers(j), 0, Ready(0), [])
  }

  predicate Enabled<S>(j: Job<S>, q: State<S>, a: Action) {
    match a
    case Begin => q.caller.Ready? && q.caller.k < |j.slices|
    case Send =>
      q.caller.Sending? && q.caller.k < |j.slices| && q.caller.i < |q.workers| && |q.workers[q.caller.i].queue| < DEPTH
    case Count => q.caller.Sending? && q.caller.k < |j.slices| && q.caller.i == |q.workers|
    case Finish => q.caller.Ready? && q.caller.k == |j.slices|
    case Close => q.caller.Closing? && q.caller.i < |q.workers|
    case Join => q.caller.Joining? && q.caller.i < |q.workers| && q.workers[q.caller.i].digest.Some?
    case Receive(w) =>
      && w < |q.workers| && q.workers[w].digest.None? && q.workers[w].held.None?
      && q.workers[w].queue != []
    case Absorb(w) => w < |q.workers| && q.workers[w].held.Some?
    case End(w) =>
      && w < |q.workers| && q.workers[w].digest.None? && q.workers[w].held.None?
      && q.workers[w].queue == [] && q.workers[w].closed
  }

  function AbsorbInline<S>(p: Primitives<S>, running: seq<Inline<S>>, bytes: seq<Byte>): (r: seq<Inline<S>>)
    ensures |r| == |running|
  {
    seq(|running|, i requires 0 <= i < |running| =>
      Inline(running[i].algorithm, p.absorb(running[i].state, bytes)))
  }

  function FinishInline<S>(p: Primitives<S>, running: seq<Inline<S>>): (r: seq<Digest>)
    ensures |r| == |running|
  {
    seq(|running|, i requires 0 <= i < |running| =>
      Digest(running[i].algorithm, p.digest(running[i].algorithm, running[i].state)))
  }

  function Next<S>(j: Job<S>, q: State<S>, a: Action): State<S>
    requires Enabled(j, q, a)
  {
    match a
    case Begin => q.(running := AbsorbInline(j.p, q.running, j.slices[q.caller.k]), caller := Sending(q.caller.k, 0))
    case Send =>
      var i := q.caller.i;
      q.(workers := q.workers[i := q.workers[i].(queue := q.workers[i].queue + [j.slices[q.caller.k]])],
         caller := Sending(q.caller.k, i + 1))
    case Count => q.(hashed := q.hashed + |j.slices[q.caller.k]|, caller := Ready(q.caller.k + 1))
    case Finish => q.(digests := FinishInline(j.p, q.running), caller := Closing(0))
    case Close =>
      var i := q.caller.i;
      q.(workers := q.workers[i := q.workers[i].(closed := true)], caller := Joining(i))
    case Join => q.(digests := q.digests + [q.workers[q.caller.i].digest.value], caller := Closing(q.caller.i + 1))
    case Receive(w) =>
      var x := q.workers[w];
      q.(workers := q.workers[w := x.(held := Some(x.queue[0]), queue := x.queue[1..])])
    case Absorb(w) =>
      var x := q.workers[w];
      q.(workers := q.workers[w := x.(held := None, state := j.p.absorb(x.state, x.held.value))])
    case End(w) =>
      var x := q.workers[w];
      q.(workers := q.workers[w := x.(digest := Some(Digest(x.algorithm, j.p.digest(x.algorithm, x.state))))])
  }

  predicate Feasible<S>(j: Job<S>, q: State<S>, run: seq<Action>)
    decreases |run|
  {
    run == [] || (Enabled(j, q, run[0]) && Feasible(j, Next(j, q, run[0]), run[1..]))
  }

  function After<S>(j: Job<S>, q: State<S>, run: seq<Action>): State<S>
    requires Feasible(j, q, run)
    decreases |run|
  {
    if run == [] then q else After(j, Next(j, q, run[0]), run[1..])
  }

  predicate Done<S>(q: State<S>) {
    q.caller.Closing? && q.caller.i >= |q.workers|
  }

  // ----- what every step keeps -----

  /** Absorbing slices one after another. */
  function Fold<S>(p: Primitives<S>, s: S, slices: seq<seq<Byte>>): S
    decreases |slices|
  {
    if slices == [] then s else Fold(p, p.absorb(s, slices[0]), slices[1..])
  }

  lemma {:induction false} FoldSnoc<S>(p: Primitives<S>, s: S, slices: seq<seq<Byte>>, last: seq<Byte>)
    ensures Fold(p, s, slices + [last]) == p.absorb(Fold(p, s, slices), last)
    decreases |slices|
  {
    if slices == [] {
      assert ([] + [last])[1..] == [];
    } else {
      assert (slices + [last])[1..] == slices[1..] + [last];
      FoldSnoc(p, p.absorb(s, slices[0]), slices[1..], last);
    }
  }

  /** Slicing does not matter. */
  lemma {:induction false} FoldIsOneShot<S(!new)>(p: Primitives<S>, s: S, slices: seq<seq<Byte>>)
    requires Lawful(p)
    ensures Fold(p, s, slices) == p.absorb(s, Flatten(slices))
    decreases |slices|
  {
    if slices != [] {
      FoldIsOneShot(p, p.absorb(s, slices[0]), slices[1..]);
    }
  }

  /** How many slices the caller has absorbed inline. */
  function Begun<S>(j: Job<S>, q: State<S>): nat {
    match q.caller
    case Ready(k) => k
    case Sending(k, _) => k + 1
    case _ => |j.slices|
  }

  /** How many slices worker `w` has been sent. */
  function Sent<S>(j: Job<S>, q: State<S>, w: nat): nat {
    match q.caller
    case Ready(k) => k
    case Sending(k, i) => if w < i then k + 1 else k
    case _ => |j.slices|
  }

  function Counted<S>(j: Job<S>, q: State<S>): nat {
    match q.caller
    case Ready(k) => k
    case Sending(k, _) => k
    case _ => |j.slices|
  }

  /** What worker `w` absorbed, then what it still has pending, is exactly what it was sent. */
  ghost predicate WorkerSound<S>(j: Job<S>, q: State<S>, w: nat)
    requires w < |q.workers| && |q.workers| == |j.workers| && Sent(j, q, w) <= |j.slices|
  {
    var x, a := q.workers[w], j.workers[w];
    && x.algorithm == a
    && Fold(j.p, x.state, x.Pending()) == Fold(j.p, j.p.start(a), j.slices[..Sent(j, q, w)])
    && (x.digest.Some? ==> x.Pending() == [] && x.closed && x.digest.value == Digest(a, j.p.digest(a, x.state)))
    && |x.queue| <= DEPTH
    && (x.closed <==> (q.caller.Closing? && w < q.caller.i) || (q.caller.Joining? && w <= q.caller.i))
    && ((q.caller.Closing? || q.caller.Joining?) && w < q.caller.i ==> x.digest.Some?)
  }

  ghost predicate InlineSound<S>(j: Job<S>, q: State<S>, r: nat)
    requires r < |q.running| && |q.running| == |j.running| && Begun(j, q) <= |j.slices|
  {
    && q.running[r].algorithm == j.running[r]
    && q.running[r].state == Fold(j.p, j.p.start(j.running[r]), j.slices[..Begun(j, q)])
  }

  /** The digest of all the slices, taken slice by slice. */
  function Sliced<S>(j: Job<S>, a: Algorithm): Digest {
    Digest(a, j.p.digest(a, Fold(j.p, j.p.start(a), j.slices)))
  }

  /** The digests collected so far: the inline ones, then those of the workers already joined. */
  ghost predicate Collected<S>(j: Job<S>, q: State<S>) {
    match q.caller
    case Closing(i) => Gathered(j, q.digests, i)
    case Joining(i) => Gathered(j, q.digests, i)
    case _ => q.digests == []
  }

  ghost predicate Gathered<S>(j: Job<S>, digests: seq<Digest>, i: nat) {
    && i <= |j.workers| && |digests| == |j.running| + i
    && forall d :: 0 <= d < |digests| ==> digests[d] == Sliced(j, (j.running + j.workers)[d])
  }

  predicate Shaped<S>(j: Job<S>, q: State<S>) {
    && |q.workers| == |j.workers| && |q.running| == |j.running|
    && match q.caller
       case Ready(k) => k <= |j.slices|
       case Sending(k, i) => k < |j.slices| && i <= |j.workers|
       case Closing(i) => i <= |j.workers|
       case Joining(i) => i < |j.workers|
  }

  ghost predicate Inv<S>(j: Job<S>, q: State<S>) {
    && Shaped(j, q)
    && (forall w :: 0 <= w < |q.workers| ==> WorkerSound(j, q, w))
    && (forall r :: 0 <= r < |q.running| ==> InlineSound(j, q, r))
    && q.hashed == |Flatten(j.slices[..Counted(j, q)])|
    && Collected(j, q)
  }

  lemma InvInit<S>(j: Job<S>)
    ensures Inv(j, Init(j))
  {
    assert j.slices[..0] == [];
  }

  /** Taking a slice off the channel changes nothing about what is pending. */
  lemma ReceiveKeeps<S>(j: Job<S>, q: State<S>, w: nat)
    requires Inv(j, q) && Enabled(j, q, Receive(w))
    ensures Next(j, q, Receive(w)).workers[w].Pending() == q.workers[w].Pending()
  {
    var x := q.workers[w];
    assert x.Pending() == x.queue;
    assert [x.queue[0]] + x.queue[1..] == x.queue;
  }

  lemma AbsorbKeeps<S>(j: Job<S>, q: State<S>, w: nat)
    requires Inv(j, q) && Enabled(j, q, Absorb(w))
    ensures var x, y := q.workers[w], Next(j, q, Absorb(w)).workers[w];
            Fold(j.p, y.state, y.Pending()) == Fold(j.p, x.state, x.Pending())
  {
    var x, y := q.workers[w], Next(j, q, Absorb(w)).workers[w];
    assert x.Pending()[1..] == x.queue;
    assert y.Pending() == x.queue;
  }

  lemma SendKeeps<S>(j: Job<S>, q: State<S>)
    requires Inv(j, q) && Enabled(j, q, Send)
    ensures WorkerSound(j, Next(j, q, Send), q.caller.i)
  {
    var w, k := q.caller.i, q.caller.k;
    var x, y := q.workers[w], Next(j, q, Send).workers[w];
    assert WorkerSound(j, q, w);
    assert y.Pending() == x.Pending() + [j.slices[k]];
    FoldSnoc(j.p, x.state, x.Pending(), j.slices[k]);
    assert j.slices[..k + 1] == j.slices[..k] + [j.slices[k]];
    FoldSnoc(j.p, j.p.start(j.workers[w]), j.slices[..k], j.slices[k]);
  }

  predicate ByCaller(a: Action) {
    !a.Receive? && !a.Absorb? && !a.End?
  }

  /** The caller's own steps leave a worker's account in order, a slice sent to it included. */
  lemma CallerKeepsWorker<S>(j: Job<S>, q: State<S>, a: Action, w: nat)
    requires Inv(j, q) && Enabled(j, q, a) && ByCaller(a) && w < |q.workers|
    ensures |Next(j, q, a).workers| == |q.workers| && Sent(j, Next(j, q, a), w) <= |j.slices|
    ensures WorkerSound(j, Next(j, q, a), w)
  {
    assert WorkerSound(j, q, w);
    if a == Send && q.caller.i == w {
      SendKeeps(j, q);
    } else {
      assert Next(j, q, a).workers[w] == q.workers[w] || (a == Close && w == q.caller.i);
      assert Sent(j, Next(j, q, a), w) == Sent(j, q, w);
    }
  }

  lemma WorkerKeepsItself<S>(j: Job<S>, q: State<S>, a: Action)
    requires Inv(j, q) && Enabled(j, q, a) && !ByCaller(a)
    ensures |Next(j, q, a).workers| == |q.workers| && Sent(j, Next(j, q, a), a.w) <= |j.slices|
    ensures WorkerSound(j, Next(j, q, a), a.w)
  {
    assert WorkerSound(j, q, a.w);
    if a.Receive? {
      ReceiveKeeps(j, q, a.w);
    } else if a.Absorb? {
      AbsorbKeeps(j, q, a.w);
    }
  }

  lemma WorkerStep<S>(j: Job<S>, q: State<S>, a: Action, w: nat)
    requires Inv(j, q) && Enabled(j, q, a) && w < |q.workers|
    ensures |Next(j, q, a).workers| == |q.workers| && Sent(j, Next(j, q, a), w) <= |j.slices|
    ensures WorkerSound(j, Next(j, q, a), w)
  {
    if ByCaller(a) {
      CallerKeepsWorker(j, q, a, w);
    } else if a.w == w {
      WorkerKeepsItself(j, q, a);
    } else {
      assert WorkerSound(j, q, w);
    }
  }

  lemma InlineStep<S>(j: Job<S>, q: State<S>, a: Action, r: nat)
    requires Inv(j, q) && Enabled(j, q, a) && r < |q.running|
    ensures Begun(j, Next(j, q, a)) <= |j.slices|
    ensures InlineSound(j, Next(j, q, a), r)
  {
    assert InlineSound(j, q, r);
    if a == Begin {
      var k := q.caller.k;
      assert j.slices[..k + 1] == j.slices[..k] + [j.slices[k]];
      FoldSnoc(j.p, j.p.start(j.running[r]), j.slices[..k], j.slices[k]);
    }
  }

  lemma CollectedStep<S>(j: Job<S>, q: State<S>, a: Action)
    requires Inv(j, q) && Enabled(j, q, a)
    ensures Collected(j, Next(j, q, a))
  {
    if a == Finish {
      assert j.slices[..|j.slices|] == j.slices;
      forall r | 0 <= r < |q.running|
        ensures FinishInline(j.p, q.running)[r] == Sliced(j, (j.running + j.workers)[r])
      {
        assert InlineSound(j, q, r);
      }
    } else if a == Join {
      var i := q.caller.i;
      assert WorkerSound(j, q, i);
      assert j.slices[..|j.slices|] == j.slices;
      assert (j.running + j.workers)[|j.running| + i] == j.workers[i];
    }
  }

  lemma InvStep<S>(j: Job<S>, q: State<S>, a: Action)
    requires Inv(j, q) && Enabled(j, q, a)
    ensures Inv(j, Next(j, q, a))
  {
    var q' := Next(j, q, a);
    assert Shaped(j, q');
    forall w | 0 <= w < |q'.workers|
      ensures WorkerSound(j, q', w)
    {
      WorkerStep(j, q, a, w);
    }
    forall r | 0 <= r < |q'.running|
      ensures InlineSound(j, q', r)
    {
      InlineStep(j, q, a, r);
    }
    CollectedStep(j, q, a);
    CountedStep(j, q, a);
  }

  lemma CountedStep<S>(j: Job<S>, q: State<S>, a: Action)
    requires Inv(j, q) && Enabled(j, q, a)
    ensures Shaped(j, Next(j, q, a))
    ensures Next(j, q, a).hashed == |Flatten(j.slices[..Counted(j, Next(j, q, a))])|
  {
    if a == Count {
      var k := q.caller.k;
      assert j.slices[..k + 1] == j.slices[..k] + [j.slices[k]];
      FlattenSnoc(j.slices[..k], j.slices[k]);
    }
  }

  lemma {:induction false} InvRun<S>(j: Job<S>, q: State<S>, run: seq<Action>)
    requires Inv(j, q) && Feasible(j, q, run)
    ensures Inv(j, After(j, q, run))
    decreases |run|
  {
    if run != [] {
      InvStep(j, q, run[0]);
      InvRun(j, Next(j, q, run[0]), run[1..]);
    }
  }

  /** Whatever the interleaving and the slicing, a finished run returns every digest of the joined slices. */
  lemma EveryInterleavingAgrees<S(!new)>(j: Job<S>, run: seq<Action>)
    requires Lawful(j.p) && Feasible(j, Init(j), run) && Done(After(j, Init(j), run))
    ensures After(j, Init(j), run).digests == OneShots(j.p, j.running + j.workers, Flatten(j.slices))
    ensures After(j, Init(j), run).hashed == |Flatten(j.slices)|
  {
    InvInit(j);
    InvRun(j, Init(j), run);
    var q := After(j, Init(j), run);
    assert j.slices[..|j.slices|] == j.slices;
    forall d | 0 <= d < |q.digests|
      ensures q.digests[d] == OneShot(j.p, (j.running + j.workers)[d], Flatten(j.slices))
    {
      FoldIsOneShot(j.p, j.p.start((j.running + j.workers)[d]), j.slices);
    }
  }

  /** At every moment a worker has absorbed a prefix of the bytes sent, the rest of them pending in order. */
  lemma AbsorbedThenPending<S(!new)>(j: Job<S>, run: seq<Action>, w: nat)
    requires Lawful(j.p) && Feasible(j, Init(j), run) && w < |j.workers|
    ensures var q := After(j, Init(j), run);
            && |q.workers| == |j.workers| && Sent(j, q, w) <= |j.slices| && |q.workers[w].queue| <= DEPTH
            && j.p.absorb(q.workers[w].state, Flatten(q.workers[w].Pending()))
               == j.p.absorb(j.p.start(j.workers[w]), Flatten(j.slices[..Sent(j, q, w)]))
  {
    InvInit(j);
    InvRun(j, Init(j), run);
    var q := After(j, Init(j), run);
    assert WorkerSound(j, q, w);
    FoldIsOneShot(j.p, q.workers[w].state, q.workers[w].Pending());
    FoldIsOneShot(j.p, j.p.start(j.workers[w]), j.slices[..Sent(j, q, w)]);
  }

  // ----- progress -----

  /** A worker whose channel is not empty, or is closed, can step until it has returned. */
  lemma WorkerCanStep<S>(j: Job<S>, q: State<S>, w: nat) returns (a: Action)
    requires Inv(j, q) && w < |q.workers| && q.workers[w].digest.None?
    requires q.workers[w].closed || q.workers[w].queue != []
    ensures Enabled(j, q, a)
  {
    if q.workers[w].held.Some? {
      a := Absorb(w);
    } else if q.workers[w].queue != [] {
      a := Receive(w);
    } else {
      a := End(w);
    }
  }

  /** No reachable state before the end is stuck. */
  lemma NeverStuck<S>(j: Job<S>, run: seq<Action>) returns (a: Action)
    requires Feasible(j, Init(j), run) && !Done(After(j, Init(j), run))
    ensures Enabled(j, After(j, Init(j), run), a)
  {
    InvInit(j);
    InvRun(j, Init(j), run);
    var q := After(j, Init(j), run);
    match q.caller {
      case Ready(k) => a := if k < |j.slices| then Begin else Finish;
      case Sending(k, i) =>
        if i == |q.workers| {
          a := Count;
        } else {
          assert WorkerSound(j, q, i);
          if |q.workers[i].queue| < DEPTH {
            a := Send;
          } else {
            a := WorkerCanStep(j, q, i);
          }
        }
      case Closing(i) => a := Close;
      case Joining(i) =>
        assert WorkerSound(j, q, i);
        if q.workers[i].digest.Some? {
          a := Join;
        } else {
          a := WorkerCanStep(j, q, i);
        }
    }
  }

  /** Steps the caller has left. */
  function CallerLeft<S>(j: Job<S>, q: State<S>): int {
    var n, w := |j.slices|, |j.workers|;
    match q.caller
    case Ready(k) => (n - k) * (w + 2) + 2 * w + 1
    case Sending(k, i) => (n - k - 1) * (w + 2) + (w - i) + 1 + 2 * w + 1
    case Closing(i) => 2 * (w - i)
    case Joining(i) => 2 * (w - i) - 1
  }

  function WorkerLeft<S>(x: Worker<S>): nat {
    2 * |x.queue| + (if x.held.Some? then 1 else 0) + (if x.digest.None? then 1 else 0)
  }

  function WorkersLeft<S>(workers: seq<Worker<S>>): nat {
    if workers == [] then 0 else WorkerLeft(workers[0]) + WorkersLeft(workers[1..])
  }

  lemma {:induction false} WorkersLeftUpdate<S>(workers: seq<Worker<S>>, w: nat, x: Worker<S>)
    requires w < |workers|
    ensures WorkersLeft(workers[w := x]) == WorkersLeft(workers) - WorkerLeft(workers[w]) + WorkerLeft(x)
  {
    if w > 0 {
      WorkersLeftUpdate(workers[1..], w - 1, x);
      assert workers[w := x][1..] == workers[1..][w - 1 := x];
    } else {
      assert workers[0 := x][1..] == workers[1..];
    }
  }

  function Left<S>(j: Job<S>, q: State<S>): int {
    3 * CallerLeft(j, q) + WorkersLeft(q.workers)
  }

  lemma LeftIsNatural<S>(j: Job<S>, q: State<S>)
    requires Shaped(j, q)
    ensures Left(j, q) >= 0
  {
    if q.caller.Ready? {
      MulSucc(|j.slices| - q.caller.k, |j.workers| + 2);
    } else if q.caller.Sending? {
      MulSucc(|j.slices| - q.caller.k - 1, |j.workers| + 2);
    }
  }

  lemma CallerUsesUp<S>(j: Job<S>, q: State<S>, a: Action)
    requires Inv(j, q) && Enabled(j, q, a) && ByCaller(a)
    ensures CallerLeft(j, Next(j, q, a)) == CallerLeft(j, q) - 1
  {
    if a == Begin {
      MulSucc(|j.slices| - q.caller.k - 1, |j.workers| + 2);
    }
  }

  lemma WorkerUsesUp<S>(j: Job<S>, q: State<S>, a: Action)
    requires Enabled(j, q, a) && !ByCaller(a)
    ensures WorkersLeft(Next(j, q, a).workers) < WorkersLeft(q.workers)
  {
    WorkersLeftUpdate(q.workers, a.w, Next(j, q, a).workers[a.w]);
  }

  lemma CallerFeedsAtMostTwo<S>(j: Job<S>, q: State<S>, a: Action)
    requires Enabled(j, q, a) && ByCaller(a)
    ensures WorkersLeft(Next(j, q, a).workers) <= WorkersLeft(q.workers) + 2
  {
    if a == Send || a == Close {
      WorkersLeftUpdate(q.workers, q.caller.i, Next(j, q, a).workers[q.caller.i]);
    }
  }

  /** Every step uses up some of what is left. */
  lemma StepUsesUp<S>(j: Job<S>, q: State<S>, a: Action)
    requires Inv(j, q) && Enabled(j, q, a)
    ensures Left(j, Next(j, q, a)) < Left(j, q)
  {
    if ByCaller(a) {
      CallerUsesUp(j, q, a);
      CallerFeedsAtMostTwo(j, q, a);
    } else {
      WorkerUsesUp(j, q, a);
      assert Next(j, q, a).caller == q.caller;
    }
  }

  /** So no run is longer than what was left at the start: closing and draining always ends. */
  lemma {:induction false} RunsAreFinite<S>(j: Job<S>, q: State<S>, run: seq<Action>)
    requires Inv(j, q) && Feasible(j, q, run)
    ensures |run| <= Left(j, q)
    decreases |run|
  {
    if run == [] {
      LeftIsNatural(j, q);
    } else {
      StepUsesUp(j, q, run[0]);
      InvStep(j, q, run[0]);
      RunsAreFinite(j, Next(j, q, run[0]), run[1..]);
    }
  }

  // ----- from the request to the answer -----

  /** For any request, cap and slicing: one digest for each distinct computable algorithm, each the one-shot digest. */
  lemma OneDigestPerAlgorithm<S(!new)>(j: Job<S>, requested: seq<Algorithm>, run: seq<Action>)
    requires j.workers + j.running == Firsts(Keep(requested, IsComputable))
    requires Lawful(j.p) && Feasible(j, Init(j), run) && Done(After(j, Init(j), run))
    ensures var digests := After(j, Init(j), run).digests;
            && |digests| == |Firsts(Keep(requested, IsComputable))|
            && forall a :: a in requested && IsComputable(a) <==> OneShot(j.p, a, Flatten(j.slices)) in digests
  {
    EveryInterleavingAgrees(j, run);
    var digests, whole := After(j, Init(j), run).digests, Flatten(j.slices);
    var all := j.running + j.workers;
    forall a
      ensures a in requested && IsComputable(a) <==> a in all
    {
      assert a in requested && IsComputable(a) <==> a in ToSet(j.workers + j.running);
    }
    forall a | a in all
      ensures OneShot(j.p, a, whole) in digests
    {
      var d :| 0 <= d < |all| && all[d] == a;
      assert digests[d] == OneShot(j.p, a, whole);
    }
    forall a | OneShot(j.p, a, whole) in digests
      ensures a in all
    {
      var d :| 0 <= d < |digests| && digests[d] == OneShot(j.p, a, whole);
      assert all[d] == a;
    }
  }

  /**
   The digests come in the order of the request exactly when no algorithm got a thread: the inline ones are
   returned first. The documented promise (src/hash.rs, on `finish`) is that the order always matches.
   */
  lemma OrderKeptExactlyWhenInline<S(!new)>(j: Job<S>, requested: seq<Algorithm>, cap: nat, run: seq<Action>)
    requires j.workers + j.running == Firsts(Keep(requested, IsComputable))
    requires |j.workers| == Spawnable(|j.workers + j.running|, cap)
    requires Lawful(j.p) && Feasible(j, Init(j), run) && Done(After(j, Init(j), run))
    ensures After(j, Init(j), run).digests == OneShots(j.p, Firsts(Keep(requested, IsComputable)), Flatten(j.slices))
      <==> cap == 0 || |Firsts(Keep(requested, IsComputable))| <= 1
  {
    EveryInterleavingAgrees(j, run);
    var whole, order := Flatten(j.slices), Firsts(Keep(requested, IsComputable));
    FirstsInOrder(Keep(requested, IsComputable));
    if |j.workers| > 0 {
      assert (j.running + j.workers)[0] == order[|j.workers|] != order[0];
      assert OneShots(j.p, j.running + j.workers, whole)[0] != OneShots(j.p, order, whole)[0];
    } else {
      assert j.running + j.workers == order;
    }
  }
}
