/**
 The readers behind a map (ChunkReader in src/stream.rs, VolumeStreams and SetStreams in
 src/image.rs). Each carries caches and moves them, or the volume, between streams; each is proved to
 deliver what an uncached read of the same region delivers, whatever it has cached.
 */
module Sources {
  import opened Basics
  import opened Deliveries
  import opened Streams

  const BEVY_CACHE_BYTES: nat := 512 * 1024 * 1024
  const CHUNK_CACHE_BYTES: nat := 256 * 1024 * 1024

  /** Which stream's bevies a volume, or a set of volumes, holds. */
  datatype Holdings = Holdings(held: map<string, Bevies>) {
    function Of(arn: string): Bevies {
      if arn in held then held[arn] else []
    }
  }

  /** The first stream of that name, as the metadata lists them. */
  function Find(streams: seq<ImageStream>, arn: string): (found: Option<ImageStream>)
    ensures found.Some? ==> found.value in streams && found.value.arn == arn
    ensures found.None? <==> forall st :: st in streams ==> st.arn != arn
  {
    if streams == [] then None
    else if streams[0].arn == arn then Some(streams[0])
    else Find(streams[1..], arn)
  }

  /** A map's streams as opening an image leaves them, with storage as its parsers guarantee it. */
  ghost predicate Sound(streams: seq<ImageStream>, holdings: Holdings) {
    && (forall st :: st in streams ==> st.Openable())
    && (forall st :: st in streams ==> Bounded(st, holdings.Of(st.arn)))
  }

  /** The uncached read of a region through a volume set. */
  function SetRegion(streams: seq<ImageStream>, volumes: Holdings, arn: string, offset: nat, length: nat): (d: Delivery)
    requires forall st :: st in streams ==> st.Openable()
    ensures d.Honest()
  {
    match Find(streams, arn)
    case None => Failed(Undescribed)
    case Some(found) =>
      if arn !in volumes.held then Failed(NoVolume)
      else Region(found, volumes.held[arn], offset, length)
  }

  /** The uncached read of a region through one volume. */
  function VolumeRegion(streams: seq<ImageStream>, volume: Holdings, arn: string, offset: nat, length: nat): (d: Delivery)
    requires forall st :: st in streams ==> st.Openable()
    ensures d.Honest()
  {
    match Find(streams, arn)
    case None => Failed(Undescribed)
    case Some(found) => Region(found, volume.Of(arn), offset, length)
  }

  // ----- caches -----

  datatype ResidentBevy = ResidentBevy(index: nat, chunks: seq<Option<seq<Byte>>>, stored: nat)

  /** A reader's caches, moved between readers over the same stream. */
  datatype Residency = Residency(stream: string, chunk: map<nat, seq<Byte>>, order: seq<nat>, held: nat,
                                 resident: seq<ResidentBevy>)

  function HeldBytes(chunk: map<nat, seq<Byte>>, order: seq<nat>): nat
    requires forall k :: k in order ==> k in chunk
  {
    if order == [] then 0 else |chunk[order[0]]| + HeldBytes(chunk, order[1..])
  }

  lemma {:induction false} HeldBytesSame(a: map<nat, seq<Byte>>, b: map<nat, seq<Byte>>, order: seq<nat>)
    requires forall k :: k in order ==> k in a && k in b && a[k] == b[k]
    ensures HeldBytes(a, order) == HeldBytes(b, order)
  {
    if order != [] {
      HeldBytesSame(a, b, order[1..]);
    }
  }

  lemma {:induction false} HeldBytesSnoc(chunk: map<nat, seq<Byte>>, order: seq<nat>, k: nat)
    requires k in chunk && forall j :: j in order ==> j in chunk
    ensures HeldBytes(chunk, order + [k]) == HeldBytes(chunk, order) + |chunk[k]|
  {
    if order == [] {
      assert order + [k] == [k];
    } else {
      assert (order + [k])[1..] == order[1..] + [k];
      HeldBytesSnoc(chunk, order[1..], k);
    }
  }

  lemma DropOldest(chunk: map<nat, seq<Byte>>, order: seq<nat>, held: nat)
    requires ChunkCacheValid(chunk, order, held) && order != []
    ensures |chunk[order[0]]| <= held
    ensures ChunkCacheValid(chunk - {order[0]}, order[1..], held - |chunk[order[0]]|)
  {
    var victim, rest := order[0], order[1..];
    assert forall k :: k in order <==> k == victim || k in rest;
    HeldBytesSame(chunk, chunk - {victim}, rest);
  }

  lemma AddNewest(chunk: map<nat, seq<Byte>>, order: seq<nat>, held: nat, k: nat, plain: seq<Byte>)
    requires ChunkCacheValid(chunk, order, held) && k !in chunk
    ensures ChunkCacheValid(chunk[k := plain], order + [k], held + |plain|)
  {
    HeldBytesSame(chunk, chunk[k := plain], order);
    HeldBytesSnoc(chunk[k := plain], order, k);
    assert forall j :: j in order + [k] <==> j in order || j == k;
  }

  function StoredBytes(resident: seq<ResidentBevy>): nat {
    if resident == [] then 0 else resident[0].stored + StoredBytes(resident[1..])
  }

  /** The chunk cache: the keys are the order list, and the running total is what they hold. */
  ghost predicate ChunkCacheValid(chunk: map<nat, seq<Byte>>, order: seq<nat>, held: nat) {
    && Distinct(order)
    && (forall k :: k in order <==> k in chunk)
    && held == HeldBytes(chunk, order)
  }

  /** Every cached chunk and bevy is one of this stream's. */
  ghost predicate OfStream(st: ImageStream, bevies: Bevies, chunk: map<nat, seq<Byte>>, resident: seq<ResidentBevy>)
    requires st.Openable()
  {
    && (forall k :: k in chunk ==> DecodeChunk(st, bevies, k) == Some(chunk[k]))
    && (forall i :: 0 <= i < |resident| ==> IsBevy(bevies, resident[i]))
  }

  ghost predicate IsBevy(bevies: Bevies, r: ResidentBevy) {
    BevyAt(bevies, r.index).Held? && BevyAt(bevies, r.index).chunks == r.chunks
  }

  ghost predicate ResidencyValid(r: Residency, st: ImageStream, bevies: Bevies)
    requires st.Openable()
  {
    && ChunkCacheValid(r.chunk, r.order, r.held)
    && OfStream(st, bevies, r.chunk, r.resident)
  }

  /** The position of a resident bevy, if it is one. */
  function ResidentAt(resident: seq<ResidentBevy>, b: nat): (r: Option<nat>)
    ensures r.Some? ==> r.value < |resident| && resident[r.value].index == b
  {
    if resident == [] then None
    else if resident[0].index == b then Some(0)
    else match ResidentAt(resident[1..], b)
      case None => None
      case Some(i) => Some(i + 1)
  }

  lemma {:induction false} ResidentLast(resident: seq<ResidentBevy>, r: ResidentBevy)
    ensures ResidentAt(resident + [r], r.index).Some?
  {
    if resident == [] {
      assert resident + [r] == [r];
    } else {
      assert (resident + [r])[1..] == resident[1..] + [r];
      ResidentLast(resident[1..], r);
    }
  }

  /** What is left resident when the oldest make way for a newcomer: as much as the budget allows beside it. */
  function MadeRoom(resident: seq<ResidentBevy>, incoming: nat): (left: seq<ResidentBevy>)
    ensures left == [] || StoredBytes(left) + incoming <= BEVY_CACHE_BYTES
  {
    if resident == [] || StoredBytes(resident) + incoming <= BEVY_CACHE_BYTES then resident
    else MadeRoom(resident[1..], incoming)
  }

  /** Only the oldest go, and no more of them than must. */
  lemma {:induction false} OldestMadeRoom(resident: seq<ResidentBevy>, incoming: nat) returns (k: nat)
    ensures k <= |resident| && MadeRoom(resident, incoming) == resident[k..]
    ensures k > 0 ==> StoredBytes(resident[k - 1..]) + incoming > BEVY_CACHE_BYTES
  {
    if resident == [] || StoredBytes(resident) + incoming <= BEVY_CACHE_BYTES {
      k := 0;
    } else {
      k := OldestMadeRoom(resident[1..], incoming);
      assert resident[1..][k..] == resident[k + 1..];
      if k > 0 {
        assert resident[1..][k - 1..] == resident[k..];
      }
      k := k + 1;
    }
  }

  class ChunkReader {
    const st: ImageStream
    const volume: Holdings
    var resident: seq<ResidentBevy>
    var chunk: map<nat, seq<Byte>>
    var order: seq<nat>
    var held: nat

    function Bevies(): Bevies {
      volume.Of(st.arn)
    }

    ghost predicate Valid()
      reads this
    {
      && st.Openable()
      && ChunkCacheValid(chunk, order, held)
      && OfStream(st, Bevies(), chunk, resident)
    }

    constructor (st: ImageStream, volume: Holdings)
      requires st.Openable()
      ensures Valid() && this.st == st && this.volume == volume
    {
      this.st := st;
      this.volume := volume;
      resident, chunk, order, held := [], map[], [], 0;
    }

    method IntoResidency() returns (r: Residency)
      requires Valid()
      ensures r.stream == st.arn && ResidencyValid(r, st, Bevies())
    {
      r := Residency(st.arn, chunk, order, held, resident);
    }

    /** A residency of another stream is ignored. */
    method Restore(r: Residency)
      requires Valid()
      requires r.stream == st.arn ==> ResidencyValid(r, st, Bevies())
      modifies this
      ensures Valid()
      ensures if r.stream == st.arn then chunk == r.chunk && resident == r.resident
              else chunk == old(chunk) && resident == old(resident)
    {
      if r.stream != st.arn {
        return;
      }
      resident, chunk, order, held := r.resident, r.chunk, r.order, r.held;
    }

    /** Fill the sink with `length` bytes from `offset`, exactly as an uncached read would. */
    method ReadRegion(offset: nat, length: nat, sink: Sink) returns (error: Option<Error>)
      requires Valid()
      modifies this, sink
      ensures Valid()
      ensures Outcome(old(sink.out), sink.out, Region(st, Bevies(), offset, length), error, sink.steady)
    {
      if offset + length > U64_MAX {
        return Some(RegionOverflow);
      }
      if offset + length > st.size {
        return Some(PastStreamEnd);
      }
      error := ReadChunksOf(offset, offset + length, sink);
    }

    method ReadChunksOf(offset: nat, end: nat, sink: Sink) returns (error: Option<Error>)
      requires Valid() && offset <= end
      modifies this, sink
      ensures Valid()
      ensures Outcome(old(sink.out), sink.out, RegionFrom(st, Bevies(), offset, end), error, sink.steady)
    {
      var position := offset;
      ghost var before, done, whole := sink.out, Nothing(), RegionFrom(st, Bevies(), offset, end);
      Start(before, whole);
      while position < end
        invariant position <= end
        invariant Valid()
        invariant Underway(before, sink.out, whole, done, RegionFrom(st, Bevies(), position, end))
        decreases end - position
      {
        position, error, done := ReadOn(position, end, sink, before, whole, done);
        if error.Some? {
          return;
        }
      }
      Finish(before, sink.out, whole, done, Nothing(), sink.steady);
      error := None;
    }

    /** One turn of the loop: a piece further, or the end of the whole read. */
    method ReadOn(position: nat, end: nat, sink: Sink, ghost before: seq<Byte>, ghost whole: Delivery, ghost done: Delivery)
      returns (position': nat, error: Option<Error>, ghost done': Delivery)
      requires Valid() && position < end
      requires Underway(before, sink.out, whole, done, RegionFrom(st, Bevies(), position, end))
      modifies this, sink
      ensures Valid()
      ensures error.None? ==>
                position < position' <= end && Underway(before, sink.out, whole, done', RegionFrom(st, Bevies(), position', end))
      ensures error.Some? ==> Outcome(before, sink.out, whole, error, sink.steady)
    {
      ghost var middle := sink.out;
      var piece;
      piece, error := ReadPiece(position, end, sink);
      position', done' := position + |piece|, Then(done, Bytes(piece));
      if error.Some? {
        OutcomeThen(before, middle, sink.out, done, RegionFrom(st, Bevies(), position, end), error, sink.steady);
      } else {
        Advance(before, middle, sink.out, whole, done, Bytes(piece), RegionFrom(st, Bevies(), position', end), None, sink.steady);
      }
    }

    /** From `position` to the end of its chunk or of the region. */
    method ReadPiece(position: nat, end: nat, sink: Sink) returns (piece: seq<Byte>, error: Option<Error>)
      requires Valid() && position < end
      modifies this, sink
      ensures Valid()
      ensures error.None? ==>
                && 0 < |piece| <= end - position && sink.out == old(sink.out) + piece
                && RegionFrom(st, Bevies(), position, end) ==
                   Then(Bytes(piece), RegionFrom(st, Bevies(), position + |piece|, end))
      ensures error.Some? ==>
                Outcome(old(sink.out), sink.out, RegionFrom(st, Bevies(), position, end), error, sink.steady)
    {
      piece := [];
      var within := position % st.chunkSize;
      var plain := ChunkBytes(position / st.chunkSize);
      if plain.None? {
        return [], Some(Unreadable);
      }
      if within >= |plain.value| {
        return [], Some(ShortChunk);
      }
      var take := Min(|plain.value| - within, end - position);
      piece := plain.value[within..within + take];
      error := sink.Accept(piece);
    }

    /** One chunk's plaintext, from the cache or decompressed and cached. */
    method ChunkBytes(k: nat) returns (plain: Option<seq<Byte>>)
      requires Valid()
      modifies this
      ensures Valid()
      ensures plain == DecodeChunk(st, Bevies(), k)
      ensures plain.Some? && k !in old(chunk) ==> held <= CHUNK_CACHE_BYTES || |order| <= 2
    {
      if k in chunk {
        return Some(chunk[k]);
      }
      plain := Decompress(k);
      if plain.None? {
        return;
      }
      Evict(|plain.value|);
      AddNewest(chunk, order, held, k, plain.value);
      held := held + |plain.value|;
      order := order + [k];
      chunk := chunk[k := plain.value];
    }

    /** Oldest first, until the newcomer fits or one chunk is left. */
    method Evict(incoming: nat)
      requires Valid()
      modifies this
      ensures Valid() && resident == old(resident)
      ensures chunk.Keys <= old(chunk.Keys)
      ensures held + incoming <= CHUNK_CACHE_BYTES || |order| <= 1
    {
      while |order| > 1 && held + incoming > CHUNK_CACHE_BYTES
        invariant Valid() && resident == old(resident)
        invariant chunk.Keys <= old(chunk.Keys)
        decreases |order|
      {
        DropOldest(chunk, order, held);
        held, order, chunk := held - |chunk[order[0]]|, order[1..], chunk - {order[0]};
      }
    }

    /** A chunk by range where storage allows it, otherwise through its bevy. */
    method Decompress(k: nat) returns (plain: Option<seq<Byte>>)
      requires Valid()
      modifies this`resident
      ensures Valid()
      ensures plain == DecodeChunk(st, Bevies(), k)
    {
      var b, i := k / st.chunksInSegment, k % st.chunksInSegment;
      if ResidentAt(resident, b).None? {
        var ranged := DecompressByRange(k);
        if ranged.Some? {
          return ranged.value;
        }
      }
      var loaded := LoadBevy(b);
      if !loaded {
        return None;
      }
      var chunks := resident[ResidentAt(resident, b).value].chunks;
      if i >= |chunks| || chunks[i].None? {
        return None;
      }
      plain := Some(Truncated(st, k, chunks[i].value));
    }

    /** `None` when the storage cannot address the member's interior or the index does not list the chunk. */
    method DecompressByRange(k: nat) returns (plain: Option<Option<seq<Byte>>>)
      requires Valid()
      ensures plain.Some? ==> plain.value == DecodeChunk(st, Bevies(), k)
      ensures BevyAt(Bevies(), k / st.chunksInSegment).Missing? ==> plain.None?
    {
      var bevy := BevyAt(Bevies(), k / st.chunksInSegment);
      if bevy.Missing? || k % st.chunksInSegment >= |bevy.chunks| || !bevy.ranged {
        return None;
      }
      var c := bevy.chunks[k % st.chunksInSegment];
      plain := Some(if c.None? then None else Some(Truncated(st, k, c.value)));
    }

    /**
     Make a bevy resident, most recently used last. A hit only moves to the end; a newcomer goes there once the
     oldest have made room; a failure changes nothing.
     */
    method LoadBevy(b: nat) returns (loaded: bool)
      requires Valid()
      modifies this`resident
      ensures Valid()
      ensures loaded <==> old(ResidentAt(resident, b).Some?) || BevyAt(Bevies(), b).Held?
      ensures loaded ==> resident != [] && resident[|resident| - 1].index == b && ResidentAt(resident, b).Some?
      ensures !loaded ==> resident == old(resident)
      ensures old(ResidentAt(resident, b).Some?) ==>
                var was, at := old(resident), old(ResidentAt(resident, b)).value;
                resident == was[..at] + was[at + 1..] + [was[at]]
      ensures loaded && old(ResidentAt(resident, b).None?) ==>
                var bevy := BevyAt(Bevies(), b);
                && resident == MadeRoom(old(resident), bevy.stored) + [ResidentBevy(b, bevy.chunks, bevy.stored)]
                && (StoredBytes(resident) <= BEVY_CACHE_BYTES || |resident| == 1)
    {
      var position := ResidentAt(resident, b);
      if position.Some? {
        var hit := resident[position.value];
        ResidentLast(resident[..position.value] + resident[position.value + 1..], hit);
        resident := resident[..position.value] + resident[position.value + 1..] + [hit];
        return true;
      }
      var bevy := BevyAt(Bevies(), b);
      if bevy.Missing? {
        return false;
      }
      MakeRoom(bevy.stored);
      var newcomer := ResidentBevy(b, bevy.chunks, bevy.stored);
      ResidentLast(resident, newcomer);
      StoredBytesSnoc(resident, newcomer);
      resident := resident + [newcomer];
      loaded := true;
    }

    /** Evict the oldest bevies until a newcomer fits, or none is left. */
    method MakeRoom(incoming: nat)
      requires Valid()
      modifies this`resident
      ensures Valid() && resident == MadeRoom(old(resident), incoming)
    {
      while resident != [] && StoredBytes(resident) + incoming > BEVY_CACHE_BYTES
        invariant Valid() && MadeRoom(resident, incoming) == MadeRoom(old(resident), incoming)
        decreases |resident|
      {
        resident := resident[1..];
      }
    }
  }

  lemma {:induction false} StoredBytesSnoc(resident: seq<ResidentBevy>, r: ResidentBevy)
    ensures StoredBytes(resident + [r]) == StoredBytes(resident) + r.stored
  {
    if resident == [] {
      assert resident + [r] == [r];
    } else {
      assert (resident + [r])[1..] == resident[1..] + [r];
      StoredBytesSnoc(resident[1..], r);
    }
  }

  // ----- serving a map's stored targets -----

  /** From a set of volumes: the reader is built per call, its caches carried from one call to the next. */
  class SetStreams {
    const streams: seq<ImageStream>
    const volumes: Holdings
    var resident: Option<(string, Residency)>

    /** A carried residency is always that of the stream it is filed under. */
    ghost predicate Valid()
      reads this
    {
      && (forall st :: st in streams ==> st.Openable())
      && (resident.Some? ==>
            && Find(streams, resident.value.0).Some?
            && resident.value.1.stream == resident.value.0
            && ResidencyValid(resident.value.1, Find(streams, resident.value.0).value, volumes.Of(resident.value.0)))
    }

    constructor (streams: seq<ImageStream>, volumes: Holdings)
      requires forall st :: st in streams ==> st.Openable()
      ensures Valid() && this.streams == streams && this.volumes == volumes && resident == None
    {
      this.streams := streams;
      this.volumes := volumes;
      resident := None;
    }

    method ReadRegion(stream: string, offset: nat, length: nat, sink: Sink) returns (error: Option<Error>)
      requires Valid()
      modifies this, sink
      ensures Valid()
      ensures Outcome(old(sink.out), sink.out, SetRegion(streams, volumes, stream, offset, length), error, sink.steady)
    {
      var found := Find(streams, stream);
      if found.None? {
        return Some(Undescribed);
      }
      var carried := if resident.Some? && resident.value.0 == stream then Some(resident.value.1) else None;
      resident := None;
      if stream !in volumes.held {
        return Some(NoVolume);
      }
      var reader := new ChunkReader(found.value, volumes);
      if carried.Some? {
        reader.Restore(carried.value);
      }
      error := reader.ReadRegion(offset, length, sink);
      var residency := reader.IntoResidency();
      resident := Some((stream, residency));
    }
  }

  /** From one volume, which is handed from reader to reader as the map moves between streams. */
  class VolumeStreams {
    const streams: seq<ImageStream>
    ghost const home: Holdings
    var volume: Option<Holdings>
    var reader: ChunkReader?
    var open: Option<string>

    /** The volume is in exactly one place, and the open stream is the reader's. */
    ghost predicate Valid()
      reads this, reader
    {
      && (forall st :: st in streams ==> st.Openable())
      && (volume.Some? <==> reader == null)
      && (volume.Some? ==> volume.value == home)
      && (open.Some? <==> reader != null)
      && (reader != null ==>
            && reader.Valid()
            && reader.volume == home
            && Find(streams, open.value) == Some(reader.st))
    }

    constructor (streams: seq<ImageStream>, volume: Holdings)
      requires forall st :: st in streams ==> st.Openable()
      ensures Valid() && this.streams == streams && home == volume && reader == null
    {
      this.streams := streams;
      this.home := volume;
      this.volume := Some(volume);
      reader := null;
      open := None;
    }

    /** The volume is never lost: the only failure is a stream the metadata does not describe. */
    method OpenStream(stream: string) returns (error: Option<Error>)
      requires Valid()
      modifies this
      ensures Valid()
      ensures error == if Find(streams, stream).None? then Some(Undescribed) else None
      ensures error.None? ==> open == Some(stream)
      ensures error.Some? ==> reader == old(reader) && open == old(open) && volume == old(volume)
      ensures reader == old(reader) || fresh(reader)
    {
      if open == Some(stream) {
        return None;
      }
      var found := Find(streams, stream);
      if found.None? {
        return Some(Undescribed);
      }
      var reclaimed := if reader != null then Some(reader.volume) else volume;
      volume := None;
      if reclaimed.None? {
        error := Some(VolumeGone);
      } else {
        reader := new ChunkReader(found.value, reclaimed.value);
        open := Some(stream);
        error := None;
      }
    }

    method ReadRegion(stream: string, offset: nat, length: nat, sink: Sink) returns (error: Option<Error>)
      requires Valid()
      modifies this, reader, sink
      ensures Valid()
      ensures reader == old(reader) || fresh(reader)
      ensures Outcome(old(sink.out), sink.out, VolumeRegion(streams, home, stream, offset, length), error, sink.steady)
    {
      error := OpenStream(stream);
      if error.None? {
        if reader == null {
          error := Some(NoReader);
        } else {
          error := reader.ReadRegion(offset, length, sink);
        }
      }
    }
  }
}
