/**
 Stored streams (src/stream.rs): a stream cut into chunks, the chunks grouped into bevies.
 Two readings of the same storage are specified: the whole stream from start to finish, and one
 region found by arithmetic on chunk numbers. `WholeAgreesWithRegions` says exactly when they agree.
 */
module Streams {
  import opened Basics
  import opened Deliveries

  datatype ImageStream = ImageStream(arn: string, size: U64, chunkSize: nat, chunksInSegment: nat) {
    /** A stream with an empty chunk or bevy is refused when it is opened. */
    predicate Openable() {
      chunkSize > 0 && chunksInSegment > 0
    }

    function BevyCount(): nat
      requires Openable()
    {
      DivCeil(size, Max(1, chunkSize * chunksInSegment))
    }
  }

  /**
   One bevy as storage yields it: the decompression result of every chunk its index lists.
   `Missing` stands for a bevy or index that is absent or malformed. `ranged` says whether the
   storage can address the member's interior, `stored` how many bytes the member holds.
   */
  datatype Bevy = Missing | Held(chunks: seq<Option<seq<Byte>>>, ranged: bool, stored: nat)

  type Bevies = seq<Bevy>

  function BevyAt(bevies: Bevies, b: nat): Bevy {
    if b < |bevies| then bevies[b] else Missing
  }

  /** What the index parser and the decompressor guarantee of anything they return. */
  ghost predicate Bounded(st: ImageStream, bevies: Bevies) {
    forall b | 0 <= b < |bevies| && bevies[b].Held? :: BoundedChunks(st, bevies[b].chunks)
  }

  ghost predicate BoundedChunks(st: ImageStream, chunks: seq<Option<seq<Byte>>>) {
    && 1 <= |chunks| <= st.chunksInSegment
    && forall i | 0 <= i < |chunks| && chunks[i].Some? :: |chunks[i].value| <= st.chunkSize
  }

  // ----- one chunk -----

  /** Whether the index of its bevy lists chunk `k` at all. */
  predicate Listed(st: ImageStream, bevies: Bevies, k: nat)
    requires st.Openable()
  {
    var bevy := BevyAt(bevies, k / st.chunksInSegment);
    bevy.Held? && k % st.chunksInSegment < |bevy.chunks|
  }

  function RawChunk(st: ImageStream, bevies: Bevies, k: nat): Option<seq<Byte>>
    requires st.Openable()
  {
    if Listed(st, bevies, k) then
      BevyAt(bevies, k / st.chunksInSegment).chunks[k % st.chunksInSegment]
    else None
  }

  /** The final chunk is short: its padding was never part of the evidence. */
  function Truncated(st: ImageStream, k: nat, plain: seq<Byte>): seq<Byte> {
    plain[..Min(|plain|, Max(0, st.size - k * st.chunkSize))]
  }

  function DecodeChunk(st: ImageStream, bevies: Bevies, k: nat): Option<seq<Byte>>
    requires st.Openable()
  {
    match RawChunk(st, bevies, k)
    case None => None
    case Some(plain) => Some(Truncated(st, k, plain))
  }

  /** Whether the stream's byte `i` can be produced. */
  predicate Available(st: ImageStream, bevies: Bevies, i: nat)
    requires st.Openable()
  {
    var c := DecodeChunk(st, bevies, i / st.chunkSize);
    c.Some? && i % st.chunkSize < |c.value|
  }

  /** The stream's byte `i`. */
  function ByteAt(st: ImageStream, bevies: Bevies, i: nat): Byte
    requires st.Openable()
  {
    if Available(st, bevies, i) then DecodeChunk(st, bevies, i / st.chunkSize).value[i % st.chunkSize] else 0
  }

  /** The stream's plaintext, byte by byte. */
  function Plain(st: ImageStream, bevies: Bevies): (plain: seq<Byte>)
    requires st.Openable()
    ensures |plain| == st.size
  {
    seq(st.size, i requires 0 <= i => ByteAt(st, bevies, i))
  }

  // ----- a region, chunk by chunk -----

  /** The bytes of `[position, end)`, each chunk found by its number. */
  function RegionFrom(st: ImageStream, bevies: Bevies, position: nat, end: nat): (d: Delivery)
    requires st.Openable()
    ensures d.Honest()
    decreases end - position
  {
    if position >= end then Nothing()
    else
      var within := position % st.chunkSize;
      match DecodeChunk(st, bevies, position / st.chunkSize)
      case None => Failed(Unreadable)
      case Some(plain) =>
        if within >= |plain| then Failed(ShortChunk)
        else
          var take := Min(|plain| - within, end - position);
          Then(Bytes(plain[within..within + take]), RegionFrom(st, bevies, position + take, end))
  }

  function Region(st: ImageStream, bevies: Bevies, offset: nat, length: nat): (d: Delivery)
    requires st.Openable()
    ensures d.Honest()
  {
    if offset + length > U64_MAX then Failed(RegionOverflow)
    else if offset + length > st.size then Failed(PastStreamEnd)
    else RegionFrom(st, bevies, offset, offset + length)
  }

  /** The part of chunk `position / chunkSize` from `position` on is the stream's bytes there. */
  lemma PieceIsPlain(st: ImageStream, bevies: Bevies, position: nat, take: nat)
    requires st.Openable() && Bounded(st, bevies)
    requires var c := DecodeChunk(st, bevies, position / st.chunkSize);
             c.Some? && position % st.chunkSize + take <= |c.value|
    ensures forall i :: position <= i < position + take ==>
              && Available(st, bevies, i)
              && ByteAt(st, bevies, i) ==
                 DecodeChunk(st, bevies, position / st.chunkSize).value[position % st.chunkSize + (i - position)]
  {
    ChunkBounded(st, bevies, position / st.chunkSize);
    forall i | position <= i < position + take
      ensures Available(st, bevies, i)
      ensures ByteAt(st, bevies, i) ==
              DecodeChunk(st, bevies, position / st.chunkSize).value[position % st.chunkSize + (i - position)]
    {
      WithinBlock(position, st.chunkSize, i - position);
    }
  }

  ghost predicate AllAvailable(st: ImageStream, bevies: Bevies, from: nat, to: nat)
    requires st.Openable()
  {
    forall i :: from <= i < to ==> Available(st, bevies, i)
  }

  ghost predicate IsPlain(st: ImageStream, bevies: Bevies, from: nat, bytes: seq<Byte>)
    requires st.Openable()
  {
    forall i :: from <= i < from + |bytes| ==> bytes[i - from] == ByteAt(st, bevies, i)
  }

  lemma IsPlainThen(st: ImageStream, bevies: Bevies, from: nat, a: seq<Byte>, b: seq<Byte>)
    requires st.Openable()
    requires IsPlain(st, bevies, from, a) && IsPlain(st, bevies, from + |a|, b)
    ensures IsPlain(st, bevies, from, a + b)
  {
    forall i | from <= i < from + |a + b|
      ensures (a + b)[i - from] == ByteAt(st, bevies, i)
    {
      if i >= from + |a| {
        assert (a + b)[i - from] == b[i - (from + |a|)];
      }
    }
  }

  /** What `d`, delivering a region, has to be: the stream's own bytes, and whole exactly if all is available. */
  ghost predicate RegionIs(st: ImageStream, bevies: Bevies, from: nat, to: nat, d: Delivery)
    requires st.Openable() && from <= to
  {
    && (d.Whole() <==> AllAvailable(st, bevies, from, to))
    && (d.Whole() ==> |d.bytes| == to - from)
    && |d.bytes| <= to - from && IsPlain(st, bevies, from, d.bytes)
  }

  /** A piece that is the stream's own, and then the rest of the region. */
  lemma RegionIsJoined(st: ImageStream, bevies: Bevies, from: nat, to: nat, piece: seq<Byte>, rest: Delivery)
    requires st.Openable() && from + |piece| <= to
    requires AllAvailable(st, bevies, from, from + |piece|) && IsPlain(st, bevies, from, piece)
    requires RegionIs(st, bevies, from + |piece|, to, rest)
    ensures RegionIs(st, bevies, from, to, Then(Bytes(piece), rest))
  {
    IsPlainThen(st, bevies, from, piece, rest.bytes);
  }

  /** A region fails at its first byte, or starts with a piece of the stream's own bytes. */
  lemma RegionStep(st: ImageStream, bevies: Bevies, position: nat, end: nat) returns (piece: Option<seq<Byte>>)
    requires st.Openable() && Bounded(st, bevies) && position < end
    ensures piece.None? ==>
              && !Available(st, bevies, position)
              && !RegionFrom(st, bevies, position, end).Whole() && RegionFrom(st, bevies, position, end).bytes == []
    ensures piece.Some? ==>
              && 0 < |piece.value| <= end - position
              && AllAvailable(st, bevies, position, position + |piece.value|) && IsPlain(st, bevies, position, piece.value)
              && RegionFrom(st, bevies, position, end) ==
                 Then(Bytes(piece.value), RegionFrom(st, bevies, position + |piece.value|, end))
  {
    var within := position % st.chunkSize;
    var c := DecodeChunk(st, bevies, position / st.chunkSize);
    if c.None? || within >= |c.value| {
      piece := None;
    } else {
      var take := Min(|c.value| - within, end - position);
      PieceIsPlain(st, bevies, position, take);
      piece := Some(c.value[within..within + take]);
    }
  }

  lemma {:induction false} RegionFromIs(st: ImageStream, bevies: Bevies, position: nat, end: nat)
    requires st.Openable() && Bounded(st, bevies) && position <= end
    ensures RegionIs(st, bevies, position, end, RegionFrom(st, bevies, position, end))
    decreases end - position
  {
    if position < end {
      var piece := RegionStep(st, bevies, position, end);
      if piece.Some? {
        var next := position + |piece.value|;
        RegionFromIs(st, bevies, next, end);
        RegionIsJoined(st, bevies, position, end, piece.value, RegionFrom(st, bevies, next, end));
      }
    }
  }

  /**
   A region is delivered whole exactly when each of its bytes can be produced. Whole or not, what it delivers is the
   stream's own bytes from its start.
   */
  lemma RegionFromIsPlain(st: ImageStream, bevies: Bevies, position: nat, end: nat)
    requires st.Openable() && Bounded(st, bevies)
    requires position <= end
    ensures RegionFrom(st, bevies, position, end).Whole() <==> AllAvailable(st, bevies, position, end)
    ensures RegionFrom(st, bevies, position, end).Whole() ==> |RegionFrom(st, bevies, position, end).bytes| == end - position
    ensures |RegionFrom(st, bevies, position, end).bytes| <= end - position
    ensures IsPlain(st, bevies, position, RegionFrom(st, bevies, position, end).bytes)
  {
    RegionFromIs(st, bevies, position, end);
  }

  lemma ChunkBounded(st: ImageStream, bevies: Bevies, k: nat)
    requires st.Openable() && Bounded(st, bevies)
    ensures DecodeChunk(st, bevies, k).Some? ==> |DecodeChunk(st, bevies, k).value| <= st.chunkSize
  {
    if RawChunk(st, bevies, k).Some? {
      assert BoundedChunks(st, bevies[k / st.chunksInSegment].chunks);
    }
  }

  // ----- the whole stream, start to finish -----

  /** A chunk short of the chunk size is refused unless it reaches the stream's end. */
  predicate ShortAt(st: ImageStream, plainLen: nat, delivered: nat) {
    !(plainLen >= st.chunkSize || delivered + plainLen >= st.size)
  }

  /** The chunks of one bevy from the `i`-th, with `delivered` bytes of the stream already out. */
  function SerialChunks(st: ImageStream, chunks: seq<Option<seq<Byte>>>, i: nat, delivered: nat): (d: Delivery)
    requires i <= |chunks|
    ensures d.Honest()
    ensures delivered <= st.size ==> delivered + |d.bytes| <= st.size
    decreases |chunks| - i
  {
    if i == |chunks| || delivered >= st.size then Nothing()
    else match chunks[i]
      case None => Failed(Unreadable)
      case Some(plain) =>
        if ShortAt(st, |plain|, delivered) then Failed(ShortChunk)
        else
          var piece := plain[..Min(|plain|, st.size - delivered)];
          Then(Bytes(piece), SerialChunks(st, chunks, i + 1, delivered + |piece|))
  }

  /** The bevies from the `b`-th to the last of `count`. */
  function SerialBevies(st: ImageStream, bevies: Bevies, b: nat, count: nat, delivered: nat): (d: Delivery)
    requires b <= count
    ensures d.Honest()
    ensures delivered <= st.size ==> delivered + |d.bytes| <= st.size
    decreases count - b
  {
    if b == count || delivered >= st.size then Nothing()
    else match BevyAt(bevies, b)
      case Missing => Failed(Unreadable)
      case Held(chunks, _, _) =>
        var here := SerialChunks(st, chunks, 0, delivered);
        Then(here, SerialBevies(st, bevies, b + 1, count, delivered + |here.bytes|))
  }

  /** A stream that delivered fewer bytes than it declares failed. */
  function Checked(st: ImageStream, d: Delivery): Delivery {
    if d.Whole() && |d.bytes| != st.size then Delivery(d.bytes, Some(ShortStream)) else d
  }

  function SerialRead(st: ImageStream, bevies: Bevies): (d: Delivery)
    requires st.Openable()
    ensures d.Honest()
    ensures |d.bytes| <= st.size
    ensures d.Whole() ==> |d.bytes| == st.size
  {
    Checked(st, SerialBevies(st, bevies, 0, st.BevyCount(), 0))
  }

  /** Feed every byte of the stream to the sink, in order. */
  method ReadAllObserved(st: ImageStream, bevies: Bevies, sink: Sink) returns (error: Option<Error>)
    requires st.Openable()
    modifies sink
    ensures Outcome(old(sink.out), sink.out, SerialRead(st, bevies), error, sink.steady)
  {
    var delivered;
    delivered, error := ReadBevies(st, bevies, st.BevyCount(), sink);
    if error.None? && delivered != st.size {
      error := Some(ShortStream);
    }
  }

  /** The outer loop: one bevy after another until the declared size is out. */
  method ReadBevies(st: ImageStream, bevies: Bevies, count: nat, sink: Sink)
    returns (delivered: nat, error: Option<Error>)
    modifies sink
    ensures Outcome(old(sink.out), sink.out, SerialBevies(st, bevies, 0, count, 0), error, sink.steady)
    ensures error.None? ==> delivered == |SerialBevies(st, bevies, 0, count, 0).bytes|
  {
    ghost var before, done, whole := sink.out, Nothing(), SerialBevies(st, bevies, 0, count, 0);
    var b := 0;
    delivered, error := 0, None;
    Start(before, whole);
    while b < count && delivered < st.size
      invariant b <= count
      invariant delivered == |done.bytes| <= st.size
      invariant Underway(before, sink.out, whole, done, SerialBevies(st, bevies, b, count, delivered))
    {
      delivered, error, done := ReadBevy(st, bevies, b, count, delivered, sink, before, whole, done);
      if error.Some? {
        return;
      }
      b := b + 1;
    }
    Finish(before, sink.out, whole, done, Nothing(), sink.steady);
    error := None;
  }

  /** One turn of the outer loop. */
  method ReadBevy(st: ImageStream, bevies: Bevies, b: nat, count: nat, delivered: nat, sink: Sink,
                  ghost before: seq<Byte>, ghost whole: Delivery, ghost done: Delivery)
    returns (after: nat, error: Option<Error>, ghost done': Delivery)
    requires b < count && delivered == |done.bytes| < st.size
    requires Underway(before, sink.out, whole, done, SerialBevies(st, bevies, b, count, delivered))
    modifies sink
    ensures error.None? ==>
              && after == |done'.bytes| <= st.size
              && Underway(before, sink.out, whole, done', SerialBevies(st, bevies, b + 1, count, after))
    ensures error.Some? ==> Outcome(before, sink.out, whole, error, sink.steady)
  {
    after, done' := delivered, done;
    var bevy := BevyAt(bevies, b);
    if bevy.Missing? {
      Finish(before, sink.out, whole, done, Failed(Unreadable), sink.steady);
      error := Some(Unreadable);
      return;
    }
    ghost var middle, here := sink.out, SerialChunks(st, bevy.chunks, 0, delivered);
    after, error := ReadChunks(st, bevy.chunks, delivered, sink);
    Advance(before, middle, sink.out, whole, done, here, SerialBevies(st, bevies, b + 1, count, delivered + |here.bytes|),
            error, sink.steady);
    done' := Then(done, here);
  }

  /** The inner loop: one bevy's chunks. */
  method ReadChunks(st: ImageStream, chunks: seq<Option<seq<Byte>>>, start: nat, sink: Sink)
    returns (delivered: nat, error: Option<Error>)
    requires start <= st.size
    modifies sink
    ensures Outcome(old(sink.out), sink.out, SerialChunks(st, chunks, 0, start), error, sink.steady)
    ensures error.None? ==> delivered == start + |SerialChunks(st, chunks, 0, start).bytes|
  {
    ghost var before, done, whole := sink.out, Nothing(), SerialChunks(st, chunks, 0, start);
    delivered := start;
    var i := 0;
    Start(before, whole);
    while i < |chunks| && delivered < st.size
      invariant i <= |chunks|
      invariant delivered == start + |done.bytes| <= st.size
      invariant Underway(before, sink.out, whole, done, SerialChunks(st, chunks, i, delivered))
    {
      if chunks[i].None? {
        Finish(before, sink.out, whole, done, Failed(Unreadable), sink.steady);
        return delivered, Some(Unreadable);
      }
      var plain := chunks[i].value;
      if ShortAt(st, |plain|, delivered) {
        Finish(before, sink.out, whole, done, Failed(ShortChunk), sink.steady);
        return delivered, Some(ShortChunk);
      }
      var piece := plain[..Min(|plain|, st.size - delivered)];
      ghost var middle, rest := sink.out, SerialChunks(st, chunks, i + 1, delivered + |piece|);
      var e := sink.Accept(piece);
      Advance(before, middle, sink.out, whole, done, Bytes(piece), rest, e, sink.steady);
      if e.Some? {
        return delivered, e;
      }
      done := Then(done, Bytes(piece));
      delivered := delivered + |piece|;
      i := i + 1;
    }
    Finish(before, sink.out, whole, done, Nothing(), sink.steady);
    error := None;
  }

  // ----- when the two readings agree -----

  /** Every chunk the declared size calls for is listed by the index of its own bevy. */
  ghost predicate FullIndexes(st: ImageStream, bevies: Bevies)
    requires st.Openable()
  {
    forall k: nat :: k * st.chunkSize < st.size ==> Listed(st, bevies, k)
  }

  /** How far into the stream chunk `k` starts, or the stream's end. */
  function StartOf(st: ImageStream, k: nat): nat {
    Min(k * st.chunkSize, st.size)
  }

  /** The chunk number of the `i`-th chunk of bevy `b`. */
  function ChunkNumber(st: ImageStream, b: nat, i: nat): nat {
    b * st.chunksInSegment + i
  }

  lemma ChunkAt(st: ImageStream, bevies: Bevies, b: nat, i: nat)
    requires st.Openable()
    requires BevyAt(bevies, b).Held? && i < |BevyAt(bevies, b).chunks|
    requires i < st.chunksInSegment
    ensures Listed(st, bevies, ChunkNumber(st, b, i))
    ensures RawChunk(st, bevies, ChunkNumber(st, b, i)) == BevyAt(bevies, b).chunks[i]
  {
    DivModAt(b, st.chunksInSegment, i);
  }

  /** A chunk that a whole read accepts, sitting where its number says, gives the stream's own bytes. */
  lemma AcceptedChunk(st: ImageStream, bevies: Bevies, k: nat, plain: seq<Byte>)
    requires st.Openable()
    requires RawChunk(st, bevies, k) == Some(plain) && |plain| <= st.chunkSize
    requires k * st.chunkSize < st.size
    requires !ShortAt(st, |plain|, k * st.chunkSize)
    ensures var piece := plain[..Min(|plain|, st.size - k * st.chunkSize)];
            && k * st.chunkSize + |piece| == StartOf(st, k + 1)
            && AllAvailable(st, bevies, k * st.chunkSize, k * st.chunkSize + |piece|)
            && IsPlain(st, bevies, k * st.chunkSize, piece)
  {
    var start := k * st.chunkSize;
    var piece := plain[..Min(|plain|, st.size - start)];
    assert (k + 1) * st.chunkSize == start + st.chunkSize;
    assert DecodeChunk(st, bevies, k) == Some(piece);
    forall i | start <= i < start + |piece|
      ensures Available(st, bevies, i) && ByteAt(st, bevies, i) == piece[i - start]
    {
      DivModAt(k, st.chunkSize, i - start);
    }
  }

  lemma ShortUnavailable(st: ImageStream, bevies: Bevies, k: nat, plain: seq<Byte>)
    requires st.Openable()
    requires RawChunk(st, bevies, k) == Some(plain) && |plain| < st.chunkSize
    ensures !Available(st, bevies, k * st.chunkSize + |plain|)
  {
    DivModAt(k, st.chunkSize, |plain|);
  }

  /** Conversely, a chunk all of whose bytes can be produced is one a whole read accepts. */
  lemma AvailableChunk(st: ImageStream, bevies: Bevies, k: nat)
    requires st.Openable()
    requires k * st.chunkSize < st.size
    requires AllAvailable(st, bevies, k * st.chunkSize, st.size)
    ensures RawChunk(st, bevies, k).Some?
    ensures !ShortAt(st, |RawChunk(st, bevies, k).value|, k * st.chunkSize)
  {
    DivModAt(k, st.chunkSize, 0);
    assert Available(st, bevies, k * st.chunkSize);
    var plain := RawChunk(st, bevies, k).value;
    if |plain| < st.chunkSize {
      ShortUnavailable(st, bevies, k, plain);
    }
  }

  /**
   `d` continues a whole read from byte `from`, and `to` is where it should end: what it delivers is the
   stream's own bytes, it is delivered whole only if all of those can be produced, and it fails only if some
   byte to come cannot be produced.
   */
  ghost predicate Faithful(st: ImageStream, bevies: Bevies, from: nat, to: nat, d: Delivery)
    requires st.Openable()
  {
    && from <= to
    && IsPlain(st, bevies, from, d.bytes)
    && (d.Whole() ==> from + |d.bytes| == to && AllAvailable(st, bevies, from, to))
    && (AllAvailable(st, bevies, from, st.size) ==> d.Whole())
  }

  lemma FaithfulThen(st: ImageStream, bevies: Bevies, from: nat, middle: nat, to: nat, a: Delivery, b: Delivery)
    requires st.Openable()
    requires Faithful(st, bevies, from, middle, a) && Faithful(st, bevies, middle, to, b)
    ensures Faithful(st, bevies, from, to, Then(a, b))
  {
    if a.Whole() {
      IsPlainThen(st, bevies, from, a.bytes, b.bytes);
    }
  }

  lemma ChunkFaithful(st: ImageStream, bevies: Bevies, k: nat, plain: seq<Byte>)
    requires st.Openable()
    requires RawChunk(st, bevies, k) == Some(plain) && |plain| <= st.chunkSize
    requires k * st.chunkSize < st.size
    requires !ShortAt(st, |plain|, k * st.chunkSize)
    ensures var piece := plain[..Min(|plain|, st.size - k * st.chunkSize)];
            && k * st.chunkSize + |piece| == StartOf(st, k + 1)
            && Faithful(st, bevies, k * st.chunkSize, StartOf(st, k + 1), Bytes(piece))
  {
    AcceptedChunk(st, bevies, k, plain);
  }

  lemma ChunkFirst(st: ImageStream, chunks: seq<Option<seq<Byte>>>, i: nat, delivered: nat)
    requires i < |chunks| && delivered < st.size && chunks[i].Some? && !ShortAt(st, |chunks[i].value|, delivered)
    ensures var piece := chunks[i].value[..Min(|chunks[i].value|, st.size - delivered)];
            SerialChunks(st, chunks, i, delivered) == Then(Bytes(piece), SerialChunks(st, chunks, i + 1, delivered + |piece|))
  {
  }

  /** A chunk that a whole read accepts, and then the rest of its bevy. */
  lemma ChunkThenRest(st: ImageStream, bevies: Bevies, b: nat, i: nat, to: nat)
    requires st.Openable() && Bounded(st, bevies)
    requires BevyAt(bevies, b).Held? && i < |BevyAt(bevies, b).chunks|
    requires ChunkNumber(st, b, i) * st.chunkSize < st.size && BevyAt(bevies, b).chunks[i].Some?
    requires !ShortAt(st, |BevyAt(bevies, b).chunks[i].value|, ChunkNumber(st, b, i) * st.chunkSize)
    requires var middle := StartOf(st, ChunkNumber(st, b, i + 1));
             Faithful(st, bevies, middle, to, SerialChunks(st, BevyAt(bevies, b).chunks, i + 1, middle))
    ensures var start := ChunkNumber(st, b, i) * st.chunkSize;
            Faithful(st, bevies, start, to, SerialChunks(st, BevyAt(bevies, b).chunks, i, start))
  {
    var chunks, k := BevyAt(bevies, b).chunks, ChunkNumber(st, b, i);
    var start, plain := k * st.chunkSize, chunks[i].value;
    var piece := plain[..Min(|plain|, st.size - start)];
    assert BoundedChunks(st, bevies[b].chunks);
    ChunkAt(st, bevies, b, i);
    ChunkFaithful(st, bevies, k, plain);
    ChunkFirst(st, chunks, i, start);
    FaithfulThen(st, bevies, start, StartOf(st, k + 1), to, Bytes(piece), SerialChunks(st, chunks, i + 1, start + |piece|));
  }

  /** One bevy of a whole read, entered where its `i`-th chunk belongs, ends where its last one does. */
  lemma {:induction false} SerialChunksFaithful(st: ImageStream, bevies: Bevies, b: nat, i: nat)
    requires st.Openable() && Bounded(st, bevies)
    requires BevyAt(bevies, b).Held? && i <= |BevyAt(bevies, b).chunks|
    ensures var chunks := BevyAt(bevies, b).chunks;
            var from, to := StartOf(st, ChunkNumber(st, b, i)), StartOf(st, ChunkNumber(st, b, |chunks|));
            Faithful(st, bevies, from, to, SerialChunks(st, chunks, i, from))
    decreases |BevyAt(bevies, b).chunks| - i
  {
    var chunks := BevyAt(bevies, b).chunks;
    assert BoundedChunks(st, bevies[b].chunks);
    var k := ChunkNumber(st, b, i);
    var start := k * st.chunkSize;
    MulMonotone(k, ChunkNumber(st, b, |chunks|), st.chunkSize);
    if i < |chunks| && start < st.size {
      ChunkAt(st, bevies, b, i);
      if AllAvailable(st, bevies, start, st.size) {
        AvailableChunk(st, bevies, k);
      }
      if chunks[i].Some? && !ShortAt(st, |chunks[i].value|, start) {
        SerialChunksFaithful(st, bevies, b, i + 1);
        ChunkThenRest(st, bevies, b, i, StartOf(st, ChunkNumber(st, b, |chunks|)));
      }
    }
  }

  /** Where a bevy with a full index ends, the next one begins. */
  lemma BevyEnds(st: ImageStream, bevies: Bevies, b: nat)
    requires st.Openable() && Bounded(st, bevies) && FullIndexes(st, bevies)
    requires BevyAt(bevies, b).Held?
    ensures var to := StartOf(st, ChunkNumber(st, b, |BevyAt(bevies, b).chunks|));
            to == st.size || to == StartOf(st, ChunkNumber(st, b + 1, 0))
  {
    var chunks := BevyAt(bevies, b).chunks;
    assert BoundedChunks(st, bevies[b].chunks);
    var k := ChunkNumber(st, b, |chunks|);
    assert ChunkNumber(st, b + 1, 0) == ChunkNumber(st, b, st.chunksInSegment);
    if |chunks| < st.chunksInSegment {
      UnlistedAfter(st, bevies, b);
    }
  }

  lemma UnlistedAfter(st: ImageStream, bevies: Bevies, b: nat)
    requires st.Openable()
    requires BevyAt(bevies, b).Held? && |BevyAt(bevies, b).chunks| < st.chunksInSegment
    ensures !Listed(st, bevies, ChunkNumber(st, b, |BevyAt(bevies, b).chunks|))
  {
    DivModAt(b, st.chunksInSegment, |BevyAt(bevies, b).chunks|);
  }

  lemma LastBevyEnds(st: ImageStream)
    requires st.Openable()
    ensures StartOf(st, ChunkNumber(st, st.BevyCount(), 0)) == st.size
  {
    var cis, cs := st.chunksInSegment, st.chunkSize;
    MulMonotone(1, cis, cs);
    assert cs * cis == cis * cs >= 1;
    DivCeilBounds(st.size, cs * cis);
    assert st.BevyCount() * cis * cs == st.BevyCount() * (cs * cis);
  }

  lemma BevyHeld(st: ImageStream, bevies: Bevies, b: nat)
    requires st.Openable() && FullIndexes(st, bevies)
    requires ChunkNumber(st, b, 0) * st.chunkSize < st.size
    ensures BevyAt(bevies, b).Held?
  {
    assert Listed(st, bevies, ChunkNumber(st, b, 0));
    DivModAt(b, st.chunksInSegment, 0);
  }

  /** A whole read over full indexes, from the start of any bevy; the last one reaches the stream's end. */
  lemma {:induction false} SerialBeviesFaithful(st: ImageStream, bevies: Bevies, b: nat, count: nat)
    requires st.Openable() && Bounded(st, bevies) && FullIndexes(st, bevies)
    requires b <= count && StartOf(st, ChunkNumber(st, count, 0)) == st.size
    ensures var from := StartOf(st, ChunkNumber(st, b, 0));
            Faithful(st, bevies, from, st.size, SerialBevies(st, bevies, b, count, from))
    decreases count - b
  {
    var from := StartOf(st, ChunkNumber(st, b, 0));
    if b < count && from < st.size {
      BevyHeld(st, bevies, b);
      var chunks := BevyAt(bevies, b).chunks;
      var to := StartOf(st, ChunkNumber(st, b, |chunks|));
      var here := SerialChunks(st, chunks, 0, from);
      SerialChunksFaithful(st, bevies, b, 0);
      BevyEnds(st, bevies, b);
      if to < st.size {
        SerialBeviesFaithful(st, bevies, b + 1, count);
      }
      var rest := SerialBevies(st, bevies, b + 1, count, to);
      FaithfulThen(st, bevies, from, to, st.size, here, rest);
      assert here.Whole() ==> SerialBevies(st, bevies, b, count, from) == Then(here, rest);
    }
  }

  lemma AvailableIsListed(st: ImageStream, bevies: Bevies)
    requires st.Openable()
    requires AllAvailable(st, bevies, 0, st.size)
    ensures FullIndexes(st, bevies)
  {
    forall k: nat | k * st.chunkSize < st.size
      ensures Listed(st, bevies, k)
    {
      DivModAt(k, st.chunkSize, 0);
      assert Available(st, bevies, k * st.chunkSize);
    }
  }

  /**
   Reading a stream whole and reading it by region agree exactly when every bevy's index lists the
   chunks the declared size calls for: then one succeeds if and only if the other does, and both give
   the stream's plaintext.
   */
  lemma WholeAgreesWithRegions(st: ImageStream, bevies: Bevies)
    requires st.Openable() && Bounded(st, bevies)
    ensures Region(st, bevies, 0, st.size).Whole() <==>
            SerialRead(st, bevies).Whole() && FullIndexes(st, bevies)
    ensures Region(st, bevies, 0, st.size).Whole() <==> AllAvailable(st, bevies, 0, st.size)
    ensures Region(st, bevies, 0, st.size).Whole() ==>
            && SerialRead(st, bevies).bytes == Plain(st, bevies)
            && Region(st, bevies, 0, st.size).bytes == Plain(st, bevies)
  {
    RegionFromIsPlain(st, bevies, 0, st.size);
    assert StartOf(st, ChunkNumber(st, 0, 0)) == 0;
    if AllAvailable(st, bevies, 0, st.size) {
      AvailableIsListed(st, bevies);
    }
    if FullIndexes(st, bevies) {
      LastBevyEnds(st);
      SerialBeviesFaithful(st, bevies, 0, st.BevyCount());
    }
  }

  /** Over full indexes even a read that fails has delivered only the stream's own beginning. */
  lemma SerialReadIsPrefix(st: ImageStream, bevies: Bevies)
    requires st.Openable() && Bounded(st, bevies) && FullIndexes(st, bevies)
    ensures SerialRead(st, bevies).bytes <= Plain(st, bevies)
  {
    assert StartOf(st, ChunkNumber(st, 0, 0)) == 0;
    LastBevyEnds(st);
    SerialBeviesFaithful(st, bevies, 0, st.BevyCount());
    var bytes, plain := SerialRead(st, bevies).bytes, Plain(st, bevies);
    assert IsPlain(st, bevies, 0, bytes);
    forall i | 0 <= i < |bytes|
      ensures bytes[i] == plain[i]
    {
      assert bytes[i - 0] == ByteAt(st, bevies, i);
    }
  }

  /** Every region inside the stream is delivered whole exactly when each of its bytes can be produced. */
  lemma RegionIsPlain(st: ImageStream, bevies: Bevies, offset: nat, length: nat)
    requires st.Openable() && Bounded(st, bevies)
    ensures Region(st, bevies, offset, length).Whole() <==>
            offset + length <= st.size && AllAvailable(st, bevies, offset, offset + length)
    ensures Region(st, bevies, offset, length).Whole() ==>
            Region(st, bevies, offset, length).bytes == Plain(st, bevies)[offset..offset + length]
  {
    RegionFromIsPlain(st, bevies, offset, offset + length);
    if Region(st, bevies, offset, length).Whole() {
      PlainSlice(st, bevies, offset, Region(st, bevies, offset, length).bytes);
    }
  }

  lemma PlainSlice(st: ImageStream, bevies: Bevies, offset: nat, bytes: seq<Byte>)
    requires st.Openable() && offset + |bytes| <= st.size && IsPlain(st, bevies, offset, bytes)
    ensures bytes == Plain(st, bevies)[offset..offset + |bytes|]
  {
    forall i | 0 <= i < |bytes|
      ensures bytes[i] == Plain(st, bevies)[offset + i]
    {
      assert bytes[offset + i - offset] == ByteAt(st, bevies, offset + i);
    }
  }

  const SHORT_INDEX_STREAM := ImageStream("aff4://s", 6, 2, 2)
  const SHORT_INDEX_BEVIES: Bevies :=
    [Held([Some([1, 1])], true, 2), Held([Some([2, 2]), Some([3, 3])], true, 4)]

  lemma ShortIndexReadWhole()
    ensures SerialRead(SHORT_INDEX_STREAM, SHORT_INDEX_BEVIES) == Bytes([1, 1, 2, 2, 3, 3])
  {
    var st, bevies := SHORT_INDEX_STREAM, SHORT_INDEX_BEVIES;
    var second := bevies[1].chunks;
    assert st.BevyCount() == 2;
    assert SerialChunks(st, second, 2, 6) == Nothing();
    assert SerialChunks(st, second, 1, 4) == Bytes([3, 3]);
    assert SerialChunks(st, second, 0, 2) == Bytes([2, 2, 3, 3]);
    assert SerialBevies(st, bevies, 2, 2, 6) == Nothing();
    assert SerialBevies(st, bevies, 1, 2, 2) == Bytes([2, 2, 3, 3]);
    assert SerialChunks(st, bevies[0].chunks, 1, 2) == Nothing();
    assert SerialChunks(st, bevies[0].chunks, 0, 0) == Bytes([1, 1]);
  }

  /**
   The two readings can disagree. A bevy whose index is short by one chunk, followed by one with a
   chunk to spare, is accepted whole with every later byte at the wrong offset, and refused by region.
   */
  lemma ShortIndexAccepted()
    ensures var st, bevies := SHORT_INDEX_STREAM, SHORT_INDEX_BEVIES;
            && st.Openable() && Bounded(st, bevies) && !FullIndexes(st, bevies)
            && SerialRead(st, bevies) == Bytes([1, 1, 2, 2, 3, 3])
            && Region(st, bevies, 2, 2) == Failed(Unreadable)
            && Region(st, bevies, 4, 2) == Bytes([2, 2])
  {
    var st, bevies := SHORT_INDEX_STREAM, SHORT_INDEX_BEVIES;
    ShortIndexReadWhole();
    assert !Listed(st, bevies, 1);
    assert RegionFrom(st, bevies, 6, 6) == Nothing();
    assert RegionFrom(st, bevies, 4, 6) == Bytes([2, 2]);
  }
}
