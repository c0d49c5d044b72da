/**
 The fast whole-image read (Image::read_from_set_parallel in src/image.rs). Each stored stream arrives whole,
 in slices of any length, and is cut back into the map's entries; described entries are reconstructed
 between. Proved against the simple definition: the image, entry by entry.
 */
module Images {
  import opened Basics
  import opened Deliveries
  import opened Streams
  import opened Sources
  import opened Maps
  import opened Runs
  import opened Sequential

  /** What reading one stream whole hands to the closure: slices in order, then how it ended. */
  datatype WholeRead = WholeRead(slices: seq<seq<Byte>>, error: Option<Error>) {
    function Bytes(): seq<Byte> { Flatten(slices) }
  }

  /** Two byte strings that do not contradict each other: one continues the other. */
  ghost predicate Agrees(a: seq<Byte>, b: seq<Byte>) {
    a <= b || b <= a
  }

  // ----- where a stream's bytes sit in an image that passes the guard -----

  /** Nothing but described entries between `i` and `k`. */
  ghost predicate OnlyDescribed(m: Map, i: nat, k: nat) {
    forall j :: i <= j < k ==> m.StoredAt(j) == None
  }

  /** From `i` on, up to `k`, no stored entry but `stream`'s. */
  ghost predicate OnlyStream(m: Map, stream: string, i: nat, k: nat) {
    i <= k && forall j :: i <= j < k && m.StoredAt(j).Some? ==> m.StoredAt(j) == Some(stream)
  }

  /** No entry before `k` reads the stream that `k` reads. */
  ghost predicate FirstOfStream(m: Map, k: nat) {
    m.StoredAt(k).Some? ==> forall i :: 0 <= i < k ==> m.StoredAt(i) != m.StoredAt(k)
  }

  /** The next stored entry of the same stream continues where the last one ended. */
  lemma NextEntryContinues(m: Map, streams: seq<ImageStream>, i: nat, k: nat)
    requires InStreamOrder(m, streams)
    requires i < k < |m.entries| && OnlyDescribed(m, i + 1, k)
    requires m.StoredAt(i).Some? && m.StoredAt(k) == m.StoredAt(i)
    ensures m.entries[k].targetOffset == m.entries[i].targetOffset + m.entries[i].length
  {
    var s := m.StoredAt(i).value;
    assert InStep(m, i) && InStep(m, k);
    CoveredSame(m, s, i + 1, k);
  }

  /** When another stream, or the end, follows, this stream is used up and never comes back. */
  lemma StreamEnds(m: Map, streams: seq<ImageStream>, i: nat, k: nat)
    requires InStreamOrder(m, streams)
    requires i < k <= |m.entries| && OnlyDescribed(m, i + 1, k)
    requires m.StoredAt(i).Some? && m.StoredAt(k) != m.StoredAt(i)
    requires k < |m.entries| ==> m.StoredAt(k).Some?
    ensures m.entries[i].targetOffset + m.entries[i].length == Covered(m, m.StoredAt(i).value, |m.entries|)
    ensures FirstOfStream(m, k)
  {
    var s, names := m.StoredAt(i).value, StoredNames(m);
    assert InStep(m, i);
    forall j | i + 1 <= j < |m.entries|
      ensures m.StoredAt(j) != Some(s)
    {
      if j > k {
        GroupedAt(names, i, k, j);
      }
    }
    CoveredSame(m, s, i + 1, |m.entries|);
    if k < |m.entries| {
      forall j | 0 <= j < k
        ensures m.StoredAt(j) != m.StoredAt(k)
      {
        if j < i && m.StoredAt(j).Some? {
          GroupedAt(names, j, i, k);
        }
      }
    }
  }

  lemma StreamBegins(m: Map, streams: seq<ImageStream>, k: nat)
    requires InStreamOrder(m, streams)
    requires k < |m.entries| && m.StoredAt(k).Some? && FirstOfStream(m, k)
    ensures m.entries[k].targetOffset == 0
  {
    assert InStep(m, k);
    CoveredSame(m, m.StoredAt(k).value, 0, k);
  }

  lemma EntryWithinStream(m: Map, streams: seq<ImageStream>, k: nat)
    requires InStreamOrder(m, streams)
    requires k < |m.entries| && m.StoredAt(k).Some?
    ensures m.entries[k].targetOffset + m.entries[k].length <= Covered(m, m.StoredAt(k).value, |m.entries|)
  {
    assert InStep(m, k);
    CoveredGrows(m, m.StoredAt(k).value, k + 1, |m.entries|);
  }

  /** `plain` gives every named stream its whole extent. */
  ghost predicate Extents(m: Map, plain: map<string, seq<Byte>>) {
    forall i :: 0 <= i < |m.entries| && m.StoredAt(i).Some? ==> Extent(m, plain, m.StoredAt(i).value)
  }

  ghost predicate Extent(m: Map, plain: map<string, seq<Byte>>, s: string) {
    s in plain && |plain[s]| == Covered(m, s, |m.entries|)
  }

  /** Bytes of an entry, given the stream bytes that fill it. */
  lemma EntryPiece(m: Map, streams: seq<ImageStream>, plain: map<string, seq<Byte>>, k: nat, from: nat, piece: seq<Byte>)
    requires InStreamOrder(m, streams) && Extents(m, plain)
    requires k < |m.entries| && m.StoredAt(k).Some?
    requires from + |piece| <= m.entries[k].length
    requires var at := m.entries[k].targetOffset + from;
             at + |piece| <= |plain[m.StoredAt(k).value]| && piece == plain[m.StoredAt(k).value][at..at + |piece|]
    ensures EntryBytes(m, m.entries[k], plain)[..from] + piece == EntryBytes(m, m.entries[k], plain)[..from + |piece|]
  {
    var e := m.entries[k];
    var bytes := EntryBytes(m, e, plain);
    assert bytes[from..from + |piece|] == piece;
    assert bytes[..from + |piece|] == bytes[..from] + bytes[from..from + |piece|];
  }

  lemma AgreedPiece(plain: seq<Byte>, fed: nat, slice: seq<Byte>, done: nat, take: nat)
    requires fed <= |plain| && Agrees(plain[..fed] + slice, plain)
    requires done + take <= |slice| && fed + done + take <= |plain|
    ensures slice[done..done + take] == plain[fed + done..fed + done + take]
  {
    var all := plain[..fed] + slice;
    assert all[fed + done..fed + done + take] == slice[done..done + take];
    if all <= plain {
      assert plain[..|all|] == all;
    } else {
      assert all[..|plain|] == plain;
    }
  }

  // ----- the closure and the variables it captures -----

  /** The counters part-way through a stored entry. */
  function PartAccount(m: Map, position: nat, taken: U64): Accounting
    requires position <= |m.entries|
  {
    AccountTo(m, position).Add(Accounting(taken, 0, 0, 0))
  }

  lemma PartAccountMore(m: Map, position: nat, taken: U64, take: U64)
    requires position <= |m.entries| && taken + take <= U64_MAX
    ensures var a := PartAccount(m, position, taken);
            a.(stored := SatAdd(a.stored, take)) == PartAccount(m, position, taken + take)
  {
  }

  class ParallelRead {
    const m: Map
    const sink: Sink
    var position: nat
    var left: nat
    var accounting: Accounting

    ghost const streams: seq<ImageStream>
    ghost const plain: map<string, seq<Byte>>
    ghost const base: seq<Byte>

    /** A map that passes the guard, over the plaintext the streams stand for. */
    ghost predicate Guarded() {
      Tiled(m) && InStreamOrder(m, streams) && Extents(m, plain)
    }

    /** Everything before entry `position` is out, and nothing of it. */
    ghost predicate AtBoundary()
      reads this, sink
    {
      && position <= |m.entries|
      && sink.out == base + ImageTo(m, plain, position)
      && accounting == AccountTo(m, position)
    }

    /** Everything before entry `position` is out, and all but `left` bytes of it. */
    ghost predicate InEntry(stream: string)
      reads this, sink
    {
      && position < |m.entries| && m.StoredAt(position) == Some(stream)
      && 0 < left <= m.entries[position].length
      && sink.out == base + ImageTo(m, plain, position) +
                     EntryBytes(m, m.entries[position], plain)[..m.entries[position].length - left]
      && accounting == PartAccount(m, position, m.entries[position].length - left)
    }

    /** Since entry `begin`, `fed` bytes of `stream` have come, and every one is out. */
    ghost predicate Fed(stream: string, begin: nat, fed: nat)
      reads this, sink
    {
      && Extent(m, plain, stream)
      && fed <= |plain[stream]|
      && OnlyStream(m, stream, begin, position)
      && if left > 0 then
           && InEntry(stream)
           && fed == m.entries[position].targetOffset + (m.entries[position].length - left)
         else
           && AtBoundary()
           && fed == |plain[stream]|
           && FirstOfStream(m, position)
           && (position < |m.entries| ==> m.StoredAt(position).Some? && m.StoredAt(position) != Some(stream))
    }

    /** What is out is always the image's own beginning. */
    ghost predicate Safe()
      reads this, sink
    {
      base <= sink.out <= base + Image(m, plain)
    }

    constructor (m: Map, sink: Sink, ghost streams: seq<ImageStream>, ghost plain: map<string, seq<Byte>>)
      ensures this.m == m && this.sink == sink && this.streams == streams && this.plain == plain && base == sink.out
      ensures position == 0 && left == 0 && AtBoundary()
    {
      this.m := m;
      this.sink := sink;
      this.streams := streams;
      this.plain := plain;
      base := sink.out;
      position, left, accounting := 0, 0, ZERO_ACCOUNTING;
    }

    lemma BoundaryIsSafe()
      requires AtBoundary()
      ensures Safe()
    {
      ImageToPrefix(m, plain, position, |m.entries|);
    }

    lemma InEntryIsSafe(stream: string)
      requires InEntry(stream)
      ensures Safe()
    {
      ImageToPrefix(m, plain, position + 1, |m.entries|);
      var part := EntryBytes(m, m.entries[position], plain)[..m.entries[position].length - left];
      assert ImageTo(m, plain, position) + part <= ImageTo(m, plain, position + 1);
    }

    /** Reconstruct the described entries up to the next stored one, or the end. */
    method EmitDescribedEntries() returns (error: Option<Error>)
      requires Guarded() && AtBoundary()
      modifies this, sink
      ensures left == old(left)
      ensures old(position) <= position && OnlyDescribed(m, old(position), position)
      ensures error.None? ==> AtBoundary() && (position < |m.entries| ==> m.StoredAt(position).Some?)
      ensures error.Some? ==> error == Some(SinkRefused) && !sink.steady && Safe()
    {
      error := None;
      while position < |m.entries| && m.StoredAt(position).None?
        invariant AtBoundary() && left == old(left)
        invariant old(position) <= position && OnlyDescribed(m, old(position), position)
        invariant error.None?
        decreases |m.entries| - position
      {
        error := EmitNext();
        if error.Some? {
          return;
        }
      }
    }

    method EmitNext() returns (error: Option<Error>)
      requires Guarded() && AtBoundary()
      requires position < |m.entries| && m.StoredAt(position).None?
      modifies this, sink
      ensures left == old(left)
      ensures error.None? ==> AtBoundary() && position == old(position) + 1
      ensures error.Some? ==> error == Some(SinkRefused) && !sink.steady && Safe() && position == old(position)
    {
      assert InStep(m, position);
      ghost var before := sink.out;
      var emitted;
      emitted, error := EmitDescribed(m, position, sink);
      EmittedSafely(m, position, plain, base, before, sink.out, error, sink.steady);
      if error.None? {
        accounting := accounting.Add(emitted);
        position := position + 1;
      }
    }

    /** Cut one slice of `stream` back into the map's entries. */
    method Feed(stream: string, slice: seq<Byte>, ghost begin: nat, ghost fed: nat) returns (error: Option<Error>)
      requires Guarded() && Fed(stream, begin, fed)
      requires Agrees(plain[stream][..fed] + slice, plain[stream])
      modifies this, sink
      ensures Safe()
      ensures position >= old(position)
      ensures error.None? ==> Fed(stream, begin, fed + |slice|)
      ensures error.Some? ==> (error == Some(SinkRefused) && !sink.steady) || (error == Some(PastLastEntry) && fed + |slice| > |plain[stream]|)
    {
      var done: nat := 0;
      FedIsSafe(stream, begin, fed);
      while done < |slice|
        invariant done <= |slice|
        invariant Fed(stream, begin, fed + done) && Safe()
        invariant position >= old(position)
      {
        if left == 0 {
          return Some(PastLastEntry);
        }
        var take := Min(left, |slice| - done);
        EntryWithinStream(m, streams, position);
        AgreedPiece(plain[stream], fed, slice, done, take);
        error := Take(stream, slice[done..done + take], begin, fed + done);
        if error.Some? {
          return;
        }
        done := done + take;
        FedIsSafe(stream, begin, fed + done);
      }
      error := None;
    }

    lemma FedIsSafe(stream: string, begin: nat, fed: nat)
      requires Fed(stream, begin, fed)
      ensures Safe()
    {
      if left > 0 {
        InEntryIsSafe(stream);
      } else {
        BoundaryIsSafe();
      }
    }

    /** One piece for the entry being delivered; when it completes the entry, on to the next stored one. */
    method Take(stream: string, piece: seq<Byte>, ghost begin: nat, ghost fed: nat) returns (error: Option<Error>)
      requires Guarded() && Fed(stream, begin, fed)
      requires 0 < |piece| <= left
      requires fed + |piece| <= |plain[stream]| && piece == plain[stream][fed..fed + |piece|]
      modifies this, sink
      ensures position >= old(position)
      ensures error.None? ==> Fed(stream, begin, fed + |piece|)
      ensures error.Some? ==> error == Some(SinkRefused) && !sink.steady && Safe()
    {
      error := Deliver(stream, piece, begin, fed);
      if error.None? && left == 0 {
        error := NextEntry(stream, begin);
      }
    }

    /** The piece is handed on and counted. */
    method Deliver(stream: string, piece: seq<Byte>, ghost begin: nat, ghost fed: nat) returns (error: Option<Error>)
      requires Guarded() && Fed(stream, begin, fed)
      requires 0 < |piece| <= left
      requires fed + |piece| <= |plain[stream]| && piece == plain[stream][fed..fed + |piece|]
      modifies this, sink
      ensures position == old(position)
      ensures error.None? ==> left == old(left) - |piece|
      ensures error.None? && left > 0 ==> Fed(stream, begin, fed + |piece|)
      ensures error.None? && left == 0 ==>
                && position < |m.entries| && m.StoredAt(position) == Some(stream) && OnlyStream(m, stream, begin, position)
                && sink.out == base + ImageTo(m, plain, position) + EntryBytes(m, m.entries[position], plain)
                && accounting == PartAccount(m, position, m.entries[position].length)
                && fed + |piece| == m.entries[position].targetOffset + m.entries[position].length
      ensures error.Some? ==> error == Some(SinkRefused) && !sink.steady && Safe()
    {
      ghost var taken := m.entries[position].length - left;
      ghost var whole := EntryBytes(m, m.entries[position], plain);
      FedIsSafe(stream, begin, fed);
      EntryPiece(m, streams, plain, position, taken, piece);
      PartAccountMore(m, position, taken, |piece|);
      error := sink.Accept(piece);
      if error.None? {
        Regroup(base + ImageTo(m, plain, position), whole[..taken], piece);
        accounting := accounting.(stored := SatAdd(accounting.stored, |piece|));
        left := left - |piece|;
      }
    }

    /** The entry at `position` is complete. */
    method NextEntry(stream: string, ghost begin: nat) returns (error: Option<Error>)
      requires Guarded() && Extent(m, plain, stream)
      requires left == 0 && position < |m.entries| && m.StoredAt(position) == Some(stream)
      requires OnlyStream(m, stream, begin, position)
      requires sink.out == base + ImageTo(m, plain, position) + EntryBytes(m, m.entries[position], plain)
      requires accounting == PartAccount(m, position, m.entries[position].length)
      modifies this, sink
      ensures position > old(position)
      ensures error.None? ==>
                Fed(stream, begin, m.entries[old(position)].targetOffset + m.entries[old(position)].length)
      ensures error.Some? ==> error == Some(SinkRefused) && !sink.steady && Safe()
    {
      ghost var completed := position;
      EntryWithinStream(m, streams, position);
      position := position + 1;
      assert AtBoundary();
      error := EmitDescribedEntries();
      if error.None? {
        if m.StoredAt(position) == Some(stream) {
          NextEntryContinues(m, streams, completed, position);
          left := m.entries[position].length;
          assert EntryBytes(m, m.entries[position], plain)[..0] == [];
        } else {
          StreamEnds(m, streams, completed, position);
        }
      }
    }
  }

  lemma DescribedBytes(m: Map, i: nat, plain: map<string, seq<Byte>>)
    requires i < |m.entries| && m.DescribedAt(i)
    ensures EntryBytes(m, m.entries[i], map[]) == EntryBytes(m, m.entries[i], plain)
  {
  }

  /** A described entry after the first `i` entries continues the image. */
  lemma EmittedSafely(m: Map, i: nat, plain: map<string, seq<Byte>>, base: seq<Byte>, before: seq<Byte>, after: seq<Byte>,
                      error: Option<Error>, steady: bool)
    requires i < |m.entries| && m.DescribedAt(i)
    requires before == base + ImageTo(m, plain, i)
    requires Outcome(before, after, Bytes(EntryBytes(m, m.entries[i], map[])), error, steady)
    ensures error.None? ==> after == base + ImageTo(m, plain, i + 1)
    ensures error.Some? ==> error == Some(SinkRefused) && !steady && base <= after <= base + Image(m, plain)
  {
    var bytes := EntryBytes(m, m.entries[i], plain);
    DescribedBytes(m, i, plain);
    assert before + bytes == base + ImageTo(m, plain, i + 1);
    ImageToPrefix(m, plain, i + 1, |m.entries|);
  }

  // ----- the whole read -----

  /** A stream read whole: described, held, delivered without error, all of it. */
  ghost predicate ReadWhole(streams: seq<ImageStream>, volumes: Holdings, whole: map<string, WholeRead>,
                            plain: map<string, seq<Byte>>, s: string)
  {
    && Find(streams, s).Some? && s in volumes.held && s in whole && s in plain
    && whole[s].error == None && whole[s].Bytes() == plain[s]
  }

  /** Whatever a stream's read delivered, short or long, it does not contradict the stream's plaintext. */
  ghost predicate Deliverable(streams: seq<ImageStream>, volumes: Holdings, whole: map<string, WholeRead>,
                              plain: map<string, seq<Byte>>)
  {
    forall s :: s in volumes.held && Find(streams, s).Some? ==>
      && s in whole
      && whole[s].error != Some(SinkRefused)
      && (s in plain ==> Agrees(whole[s].Bytes(), plain[s]))
  }

  ghost predicate AllReadWhole(m: Map, n: nat, streams: seq<ImageStream>, volumes: Holdings, whole: map<string, WholeRead>,
                               plain: map<string, seq<Byte>>)
    requires n <= |m.entries|
  {
    forall i :: 0 <= i < n && m.StoredAt(i).Some? ==> ReadWhole(streams, volumes, whole, plain, m.StoredAt(i).value)
  }

  /** Feed the slices one after another, as the stream's reader does, and pass on how it ended. */
  method ReadStream(pr: ParallelRead, stream: string, wr: WholeRead, ghost begin: nat) returns (error: Option<Error>)
    requires pr.Guarded() && pr.Fed(stream, begin, 0)
    requires Agrees(wr.Bytes(), pr.plain[stream]) && wr.error != Some(SinkRefused)
    modifies pr, pr.sink
    ensures pr.Safe() && pr.position >= old(pr.position)
    ensures error.None? ==> pr.Fed(stream, begin, |wr.Bytes()|) && wr.error == None
    ensures pr.sink.steady && wr.error == None && wr.Bytes() == pr.plain[stream] ==> error.None?
  {
    ghost var all, fed: nat := wr.Bytes(), 0;
    pr.FedIsSafe(stream, begin, 0);
    for i := 0 to |wr.slices|
      invariant pr.Fed(stream, begin, fed) && pr.Safe() && pr.position >= old(pr.position)
      invariant fed <= |all| && Flatten(wr.slices[i..]) == all[fed..]
    {
      NextSlice(pr.plain[stream], all, fed, wr.slices, i);
      error := pr.Feed(stream, wr.slices[i], begin, fed);
      if error.Some? {
        return;
      }
      fed := fed + |wr.slices[i]|;
    }
    error := wr.error;
  }

  lemma NextSlice(plain: seq<Byte>, all: seq<Byte>, fed: nat, slices: seq<seq<Byte>>, i: nat)
    requires Agrees(all, plain) && fed <= |plain| && fed <= |all|
    requires i < |slices| && Flatten(slices[i..]) == all[fed..]
    ensures Agrees(plain[..fed] + slices[i], plain)
    ensures fed + |slices[i]| <= |all|
    ensures Flatten(slices[i + 1..]) == all[fed + |slices[i]|..]
  {
    var slice := slices[i];
    assert slices[i..][1..] == slices[i + 1..];
    assert all[fed..] == slice + Flatten(slices[i + 1..]);
    assert all[fed..][..|slice|] == slice && all[fed..][|slice|..] == all[fed + |slice|..];
    assert all[..fed] == plain[..fed];
    assert plain[..fed] + slice == all[..fed + |slice|];
  }

  /** The loop over streams, for an image that passes the guard. */
  method ReadStreams(pr: ParallelRead, streams: seq<ImageStream>, volumes: Holdings, whole: map<string, WholeRead>)
    returns (error: Option<Error>)
    requires pr.Guarded() && pr.AtBoundary() && pr.left == 0 && pr.position == 0
    requires Deliverable(streams, volumes, whole, pr.plain)
    modifies pr, pr.sink
    ensures pr.Safe()
    ensures error.None? ==> pr.AtBoundary() && pr.position == |pr.m.entries|
    ensures error.None? ==> AllReadWhole(pr.m, |pr.m.entries|, streams, volumes, whole, pr.plain)
    ensures pr.sink.steady && AllReadWhole(pr.m, |pr.m.entries|, streams, volumes, whole, pr.plain) ==> error.None?
  {
    error := pr.EmitDescribedEntries();
    if error.Some? {
      return;
    }
    pr.BoundaryIsSafe();
    while pr.m.StoredAt(pr.position).Some?
      invariant pr.AtBoundary() && pr.Safe() && pr.left == 0
      invariant pr.position < |pr.m.entries| ==> pr.m.StoredAt(pr.position).Some?
      invariant FirstOfStream(pr.m, pr.position)
      invariant AllReadWhole(pr.m, pr.position, streams, volumes, whole, pr.plain)
      invariant error.None?
      decreases |pr.m.entries| - pr.position
    {
      error := ReadOneStream(pr, pr.m.StoredAt(pr.position).value, streams, volumes, whole);
      if error.Some? {
        return;
      }
    }
  }

  /** One stream: find it, read it whole through the closure, and require that it filled its entries. */
  method ReadOneStream(pr: ParallelRead, stream: string, streams: seq<ImageStream>, volumes: Holdings,
                       whole: map<string, WholeRead>)
    returns (error: Option<Error>)
    requires pr.Guarded() && pr.AtBoundary()
    requires pr.m.StoredAt(pr.position) == Some(stream) && FirstOfStream(pr.m, pr.position)
    requires Deliverable(streams, volumes, whole, pr.plain)
    modifies pr, pr.sink
    ensures pr.Safe()
    ensures error.None? ==>
              && pr.AtBoundary() && pr.left == 0
              && pr.position > old(pr.position)
              && OnlyStream(pr.m, stream, old(pr.position), pr.position)
              && FirstOfStream(pr.m, pr.position)
              && (pr.position < |pr.m.entries| ==> pr.m.StoredAt(pr.position).Some?)
              && ReadWhole(streams, volumes, whole, pr.plain, stream)
    ensures pr.sink.steady && ReadWhole(streams, volumes, whole, pr.plain, stream) ==> error.None?
  {
    pr.BoundaryIsSafe();
    if Find(streams, stream).None? {
      return Some(Undescribed);
    }
    if stream !in volumes.held {
      return Some(NoVolume);
    }
    ghost var begin := pr.position;
    assert pr.m.entries[pr.position].length > 0;
    pr.left := pr.m.entries[pr.position].length;
    StreamBegins(pr.m, pr.streams, pr.position);
    assert EntryBytes(pr.m, pr.m.entries[pr.position], pr.plain)[..0] == [];
    assert pr.Fed(stream, begin, 0);
    error := ReadStream(pr, stream, whole[stream], begin);
    if error.None? && pr.left != 0 {
      EntryWithinStream(pr.m, pr.streams, pr.position);
      error := Some(EndedShort);
    }
  }

  /**
   Read the whole image, each stored stream whole. Whatever the streams deliver, short, long or failing,
   only the image's own beginning ever reaches the sink. The read succeeds exactly when every stream the map
   names is described, held and delivered whole (the sink permitting), and then the sink holds the image
   and every byte of it was counted once. A map that does not pass the guard is read entry by entry.
   */
  method ReadFromSetParallel(m: Map, source: SetStreams, whole: map<string, WholeRead>, sink: Sink,
                             ghost plain: map<string, seq<Byte>>)
    returns (accounting: Accounting, error: Option<Error>)
    requires Tiled(m) && source.Valid()
    requires InStreamOrder(m, source.streams) ==> Extents(m, plain) && Deliverable(source.streams, source.volumes, whole, plain)
    modifies source, sink
    ensures source.Valid()
    ensures InStreamOrder(m, source.streams) ==> old(sink.out) <= sink.out <= old(sink.out) + Image(m, plain)
    ensures InStreamOrder(m, source.streams) && error.None? ==>
              && sink.out == old(sink.out) + Image(m, plain)
              && Accounts(m, |m.entries|, accounting) && accounting.Total() == m.size
              && AllReadWhole(m, |m.entries|, source.streams, source.volumes, whole, plain)
    ensures InStreamOrder(m, source.streams) && sink.steady ==>
              (error.None? <==> AllReadWhole(m, |m.entries|, source.streams, source.volumes, whole, plain))
    ensures !InStreamOrder(m, source.streams) ==>
              Outcome(old(sink.out), sink.out, ReadFrom(m, 0, source.streams, source.volumes), error, sink.steady)
  {
    var sequential := IsSequential(m, source.streams);
    if !sequential {
      accounting, error := ReadAll(m, source, sink);
      return;
    }
    var pr := new ParallelRead(m, sink, source.streams, plain);
    error := ReadStreams(pr, source.streams, source.volumes, whole);
    accounting := pr.accounting;
    if error.None? {
      AccountsWhole(m, source.streams);
      if pr.position != |m.entries| || accounting.Total() != m.size {
        error := Some(SizeMismatch);
      }
    }
  }

  lemma AccountsWhole(m: Map, streams: seq<ImageStream>)
    requires Tiled(m) && InStreamOrder(m, streams)
    ensures Accounts(m, |m.entries|, AccountTo(m, |m.entries|))
    ensures AccountTo(m, |m.entries|).Total() == m.size
  {
    forall i | 0 <= i < |m.entries|
      ensures m.StoredAt(i).Some? || m.DescribedAt(i)
    {
      assert InStep(m, i);
    }
    AccountToIsTally(m, |m.entries|);
    TotalExact(AccountTo(m, |m.entries|));
  }
}
