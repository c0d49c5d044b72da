/**
 The fast read refines the simple one (the promise of Image::read_from_set_parallel in src/image.rs): for an
 image that passes the guard, when each succeeds and that both then deliver the same bytes.
 */
module FastRead {
  import opened Basics
  import opened Deliveries
  import opened Streams
  import opened Sources
  import opened Maps
  import opened Sequential
  import opened Images

  /** Every byte below what the first `n` entries cover is inside one of them. */
  lemma {:induction false} EntryHolding(m: Map, s: string, n: nat, x: nat) returns (k: nat)
    requires n <= |m.entries| && forall i :: 0 <= i < n ==> InStep(m, i)
    requires x < Covered(m, s, n)
    ensures k < n && m.StoredAt(k) == Some(s)
    ensures m.entries[k].targetOffset <= x < m.entries[k].targetOffset + m.entries[k].length
  {
    if x < Covered(m, s, n - 1) {
      k := EntryHolding(m, s, n - 1, x);
    } else {
      k := n - 1;
      assert InStep(m, k);
    }
  }

  /** Stream `s` is described and held, and every byte it declares can be produced. */
  ghost predicate Intact(streams: seq<ImageStream>, volumes: Holdings, s: string)
    requires forall st :: st in streams ==> st.Openable()
  {
    && Find(streams, s).Some? && s in volumes.held
    && AllAvailable(Find(streams, s).value, volumes.held[s], 0, Find(streams, s).value.size)
  }

  ghost predicate AllIntact(m: Map, streams: seq<ImageStream>, volumes: Holdings)
    requires forall st :: st in streams ==> st.Openable()
  {
    forall i :: 0 <= i < |m.entries| && m.StoredAt(i).Some? ==> Intact(streams, volumes, m.StoredAt(i).value)
  }

  lemma NamedSize(m: Map, streams: seq<ImageStream>, i: nat)
    requires InStreamOrder(m, streams)
    requires i < |m.entries| && m.StoredAt(i).Some? && Find(streams, m.StoredAt(i).value).Some?
    ensures Find(streams, m.StoredAt(i).value).value.size == Covered(m, m.StoredAt(i).value, |m.entries|)
  {
    assert Named(m, m.StoredAt(i).value, |m.entries|);
  }

  lemma IntactEntry(m: Map, streams: seq<ImageStream>, volumes: Holdings, i: nat)
    requires Sound(streams, volumes) && InStreamOrder(m, streams)
    requires i < |m.entries|
    requires m.StoredAt(i).Some? ==> Intact(streams, volumes, m.StoredAt(i).value)
    ensures EntryDelivery(m, m.entries[i], streams, volumes).Whole()
  {
    assert InStep(m, i);
    if m.StoredAt(i).Some? {
      var s := m.StoredAt(i).value;
      NamedSize(m, streams, i);
      EntryWithinStream(m, streams, i);
      RegionIsPlain(Find(streams, s).value, volumes.held[s], m.entries[i].targetOffset, m.entries[i].length);
    }
  }

  lemma DeliveredIsIntact(m: Map, streams: seq<ImageStream>, volumes: Holdings, i: nat)
    requires Sound(streams, volumes) && InStreamOrder(m, streams)
    requires i < |m.entries| && m.StoredAt(i).Some?
    requires forall k :: 0 <= k < |m.entries| ==> EntryDelivery(m, m.entries[k], streams, volumes).Whole()
    ensures Intact(streams, volumes, m.StoredAt(i).value)
  {
    var s := m.StoredAt(i).value;
    var st, bevies := Find(streams, s).value, volumes.held[s];
    NamedSize(m, streams, i);
    forall x | 0 <= x < st.size
      ensures Available(st, bevies, x)
    {
      var k := EntryHolding(m, s, |m.entries|, x);
      assert EntryDelivery(m, m.entries[k], streams, volumes).Whole();
      RegionIsPlain(st, bevies, m.entries[k].targetOffset, m.entries[k].length);
    }
  }

  /** Under the guard the entry-by-entry read touches every byte of every stream the map names. */
  lemma SimpleReadNeedsEveryByte(m: Map, streams: seq<ImageStream>, volumes: Holdings)
    requires Sound(streams, volumes) && InStreamOrder(m, streams)
    ensures ReadFrom(m, 0, streams, volumes).Whole() <==> AllIntact(m, streams, volumes)
  {
    ReadFromIsWhole(m, 0, streams, volumes);
    if ReadFrom(m, 0, streams, volumes).Whole() {
      forall i | 0 <= i < |m.entries| && m.StoredAt(i).Some?
        ensures Intact(streams, volumes, m.StoredAt(i).value)
      {
        DeliveredIsIntact(m, streams, volumes, i);
      }
    }
    if AllIntact(m, streams, volumes) {
      forall i | 0 <= i < |m.entries|
        ensures EntryDelivery(m, m.entries[i], streams, volumes).Whole()
      {
        IntactEntry(m, streams, volumes, i);
      }
    }
  }

  /**
   What a stream's reader may do: deliver a beginning of what reading the bevies in order delivers, and end
   well only after all of it.
   */
  ghost predicate FromBevies(st: ImageStream, bevies: Bevies, wr: WholeRead)
    requires st.Openable()
  {
    && wr.Bytes() <= SerialRead(st, bevies).bytes
    && wr.error != Some(SinkRefused)
    && (wr.error.None? ==> SerialRead(st, bevies).Whole() && wr.Bytes() == SerialRead(st, bevies).bytes)
  }

  ghost predicate AllFromBevies(streams: seq<ImageStream>, volumes: Holdings, whole: map<string, WholeRead>)
    requires forall st :: st in streams ==> st.Openable()
  {
    forall s :: s in volumes.held && Find(streams, s).Some? ==>
      s in whole && FromBevies(Find(streams, s).value, volumes.held[s], whole[s])
  }

  /** Every named stream is described, held, and its reader ended well. */
  ghost predicate AllEndedWell(m: Map, streams: seq<ImageStream>, volumes: Holdings, whole: map<string, WholeRead>) {
    forall i :: 0 <= i < |m.entries| && m.StoredAt(i).Some? ==> EndedWell(streams, volumes, whole, m.StoredAt(i).value)
  }

  ghost predicate EndedWell(streams: seq<ImageStream>, volumes: Holdings, whole: map<string, WholeRead>, s: string) {
    Find(streams, s).Some? && s in volumes.held && s in whole && whole[s].error.None?
  }

  /** Stream `s`, if described and held, lists in every bevy's index the chunks its size calls for. */
  ghost predicate Indexed(streams: seq<ImageStream>, volumes: Holdings, s: string)
    requires forall st :: st in streams ==> st.Openable()
  {
    Find(streams, s).Some? && s in volumes.held ==> FullIndexes(Find(streams, s).value, volumes.held[s])
  }

  ghost predicate AllIndexed(m: Map, streams: seq<ImageStream>, volumes: Holdings)
    requires forall st :: st in streams ==> st.Openable()
  {
    forall i :: 0 <= i < |m.entries| && m.StoredAt(i).Some? ==> Indexed(streams, volumes, m.StoredAt(i).value)
  }

  lemma OneStreamAgrees(streams: seq<ImageStream>, volumes: Holdings, whole: map<string, WholeRead>, s: string)
    requires Sound(streams, volumes) && AllFromBevies(streams, volumes, whole)
    ensures EndedWell(streams, volumes, whole, s) && Indexed(streams, volumes, s) <==>
            EndedWell(streams, volumes, whole, s) && Intact(streams, volumes, s)
    ensures EndedWell(streams, volumes, whole, s) && Indexed(streams, volumes, s) ==>
            ReadWhole(streams, volumes, whole, PlainOf(streams, volumes), s)
  {
    if Find(streams, s).Some? && s in volumes.held {
      var st, bevies := Find(streams, s).value, volumes.held[s];
      WholeAgreesWithRegions(st, bevies);
      assert FromBevies(st, bevies, whole[s]);
      assert PlainOf(streams, volumes)[s] == Plain(st, bevies);
    }
  }

  /**
   The fast read and the simple read of an image that passes the guard. Where every stream's reader ended
   well, the simple read succeeds exactly when every bevy's index is full; and then it delivers the image,
   which is what the readers' streams make up.
   */
  lemma FastRefinesSimple(m: Map, streams: seq<ImageStream>, volumes: Holdings, whole: map<string, WholeRead>)
    requires Tiled(m) && Sound(streams, volumes) && InStreamOrder(m, streams)
    requires AllFromBevies(streams, volumes, whole) && AllEndedWell(m, streams, volumes, whole)
    ensures ReadFrom(m, 0, streams, volumes).Whole() <==> AllIndexed(m, streams, volumes)
    ensures AllIndexed(m, streams, volumes) ==>
            && ReadFrom(m, 0, streams, volumes) == Bytes(Image(m, PlainOf(streams, volumes)))
            && AllReadWhole(m, |m.entries|, streams, volumes, whole, PlainOf(streams, volumes))
  {
    SimpleReadNeedsEveryByte(m, streams, volumes);
    forall i | 0 <= i < |m.entries| && m.StoredAt(i).Some?
      ensures var s := m.StoredAt(i).value;
              && (Intact(streams, volumes, s) <==> Indexed(streams, volumes, s))
              && (Indexed(streams, volumes, s) ==> ReadWhole(streams, volumes, whole, PlainOf(streams, volumes), s))
    {
      OneStreamAgrees(streams, volumes, whole, m.StoredAt(i).value);
    }
    if ReadFrom(m, 0, streams, volumes).Whole() {
      ReadFromIsImage(m, 0, streams, volumes);
      assert ImageTo(m, PlainOf(streams, volumes), 0) + ReadFrom(m, 0, streams, volumes).bytes ==
             ReadFrom(m, 0, streams, volumes).bytes;
    }
  }

  // ----- both reads, side by side -----

  /** Every stream the map names. */
  ghost function NamesOf(m: Map): set<string> {
    set i | 0 <= i < |m.entries| && m.StoredAt(i).Some? :: m.StoredAt(i).value
  }

  /** The plaintext the image is made of: a stream nobody can read stands as zeros of its extent. */
  ghost function Reference(m: Map, streams: seq<ImageStream>, volumes: Holdings): map<string, seq<Byte>>
    requires forall st :: st in streams ==> st.Openable()
  {
    map s | s in NamesOf(m) ::
      if s in PlainOf(streams, volumes) then PlainOf(streams, volumes)[s] else Repeat(0, Covered(m, s, |m.entries|))
  }

  lemma ReferenceFits(m: Map, streams: seq<ImageStream>, volumes: Holdings, whole: map<string, WholeRead>)
    requires Sound(streams, volumes) && InStreamOrder(m, streams)
    requires AllFromBevies(streams, volumes, whole) && AllIndexed(m, streams, volumes)
    ensures Extents(m, Reference(m, streams, volumes))
    ensures Deliverable(streams, volumes, whole, Reference(m, streams, volumes))
  {
    var plain := Reference(m, streams, volumes);
    forall i | 0 <= i < |m.entries| && m.StoredAt(i).Some?
      ensures Extent(m, plain, m.StoredAt(i).value)
    {
      assert m.StoredAt(i).value in NamesOf(m);
      if m.StoredAt(i).value in PlainOf(streams, volumes) {
        NamedSize(m, streams, i);
      }
    }
    forall s | s in volumes.held && Find(streams, s).Some? && s in plain
      ensures Agrees(whole[s].Bytes(), plain[s])
    {
      var i :| 0 <= i < |m.entries| && m.StoredAt(i) == Some(s);
      assert Indexed(streams, volumes, s);
      assert FromBevies(Find(streams, s).value, volumes.held[s], whole[s]);
      SerialReadIsPrefix(Find(streams, s).value, volumes.held[s]);
    }
  }

  /** With every stream readable the reference is the streams' plaintext. */
  lemma ReferenceIsPlain(m: Map, streams: seq<ImageStream>, volumes: Holdings, n: nat)
    requires forall st :: st in streams ==> st.Openable()
    requires n <= |m.entries|
    requires forall i :: 0 <= i < |m.entries| && m.StoredAt(i).Some? ==> m.StoredAt(i).value in PlainOf(streams, volumes)
    ensures ImageTo(m, Reference(m, streams, volumes), n) == ImageTo(m, PlainOf(streams, volumes), n)
  {
    if n > 0 {
      ReferenceIsPlain(m, streams, volumes, n - 1);
      var e := m.entries[n - 1];
      if m.StoredAt(n - 1).Some? {
        assert m.StoredAt(n - 1).value in NamesOf(m);
      }
      assert EntryBytes(m, e, Reference(m, streams, volumes)) == EntryBytes(m, e, PlainOf(streams, volumes));
    }
  }

  /**
   Both reads of an image that passes the guard, over streams with full indexes: the fast one delivers
   nothing the simple one would not, and if it ends well so does the simple one, with the same bytes and the
   same counts.
   */
  method ReadBothWays(m: Map, streams: seq<ImageStream>, volumes: Holdings, whole: map<string, WholeRead>)
    returns (fast: seq<Byte>, simple: seq<Byte>, fastCounts: Accounting, simpleCounts: Accounting,
             fastError: Option<Error>, simpleError: Option<Error>)
    requires Tiled(m) && Sound(streams, volumes) && InStreamOrder(m, streams)
    requires AllFromBevies(streams, volumes, whole) && AllIndexed(m, streams, volumes)
    ensures fastError.None? <==> AllEndedWell(m, streams, volumes, whole)
    ensures fastError.None? ==> simpleError.None? && fast == simple && fastCounts == simpleCounts
    ensures simpleError.None? ==> fast <= simple
  {
    ghost var plain := Reference(m, streams, volumes);
    ReferenceFits(m, streams, volumes, whole);
    var source := new SetStreams(streams, volumes);
    var fastSink := new Sink(true, 0);
    fastCounts, fastError := ReadFromSetParallel(m, source, whole, fastSink, plain);
    var simpleSink := new Sink(true, 0);
    simpleCounts, simpleError := ReadAll(m, source, simpleSink);
    fast, simple := fastSink.out, simpleSink.out;
    assert [] + Image(m, plain) == Image(m, plain);
    assert simple == ReadFrom(m, 0, streams, volumes).bytes;
    BothWays(m, streams, volumes, whole);
  }

  /** Streams whose readers ended well were read whole. */
  lemma EndedIsRead(m: Map, streams: seq<ImageStream>, volumes: Holdings, whole: map<string, WholeRead>)
    requires Tiled(m) && Sound(streams, volumes) && InStreamOrder(m, streams)
    requires AllFromBevies(streams, volumes, whole) && AllIndexed(m, streams, volumes)
    requires AllEndedWell(m, streams, volumes, whole)
    ensures AllReadWhole(m, |m.entries|, streams, volumes, whole, Reference(m, streams, volumes))
    ensures ReadFrom(m, 0, streams, volumes).Whole()
  {
    var plain := Reference(m, streams, volumes);
    FastRefinesSimple(m, streams, volumes, whole);
    forall i | 0 <= i < |m.entries| && m.StoredAt(i).Some?
      ensures ReadWhole(streams, volumes, whole, plain, m.StoredAt(i).value)
    {
      assert m.StoredAt(i).value in NamesOf(m);
      assert ReadWhole(streams, volumes, whole, PlainOf(streams, volumes), m.StoredAt(i).value);
    }
  }

  lemma ReadIsEnded(m: Map, streams: seq<ImageStream>, volumes: Holdings, whole: map<string, WholeRead>, plain: map<string, seq<Byte>>)
    requires AllReadWhole(m, |m.entries|, streams, volumes, whole, plain)
    ensures AllEndedWell(m, streams, volumes, whole)
  {
    forall i | 0 <= i < |m.entries| && m.StoredAt(i).Some?
      ensures EndedWell(streams, volumes, whole, m.StoredAt(i).value)
    {
      assert ReadWhole(streams, volumes, whole, plain, m.StoredAt(i).value);
    }
  }

  /** A simple read that succeeds delivers the reference image. */
  lemma SimpleIsReference(m: Map, streams: seq<ImageStream>, volumes: Holdings)
    requires Tiled(m) && Sound(streams, volumes) && InStreamOrder(m, streams)
    requires ReadFrom(m, 0, streams, volumes).Whole()
    ensures ReadFrom(m, 0, streams, volumes).bytes == Image(m, Reference(m, streams, volumes))
  {
    SimpleReadNeedsEveryByte(m, streams, volumes);
    forall i | 0 <= i < |m.entries| && m.StoredAt(i).Some?
      ensures m.StoredAt(i).value in PlainOf(streams, volumes)
    {
      assert Intact(streams, volumes, m.StoredAt(i).value);
    }
    ReferenceIsPlain(m, streams, volumes, |m.entries|);
    ReadFromIsImage(m, 0, streams, volumes);
    assert ImageTo(m, PlainOf(streams, volumes), 0) + ReadFrom(m, 0, streams, volumes).bytes ==
           ReadFrom(m, 0, streams, volumes).bytes;
  }

  lemma BothWays(m: Map, streams: seq<ImageStream>, volumes: Holdings, whole: map<string, WholeRead>)
    requires Tiled(m) && Sound(streams, volumes) && InStreamOrder(m, streams)
    requires AllFromBevies(streams, volumes, whole) && AllIndexed(m, streams, volumes)
    ensures AllReadWhole(m, |m.entries|, streams, volumes, whole, Reference(m, streams, volumes)) <==>
            AllEndedWell(m, streams, volumes, whole)
    ensures AllEndedWell(m, streams, volumes, whole) ==> ReadFrom(m, 0, streams, volumes).Whole()
    ensures ReadFrom(m, 0, streams, volumes).Whole() ==>
            ReadFrom(m, 0, streams, volumes).bytes == Image(m, Reference(m, streams, volumes))
  {
    if AllEndedWell(m, streams, volumes, whole) {
      EndedIsRead(m, streams, volumes, whole);
    }
    if AllReadWhole(m, |m.entries|, streams, volumes, whole, Reference(m, streams, volumes)) {
      ReadIsEnded(m, streams, volumes, whole, Reference(m, streams, volumes));
    }
    if ReadFrom(m, 0, streams, volumes).Whole() {
      SimpleIsReference(m, streams, volumes);
    }
  }

  // ----- the image of one stream -----

  /** An image that is one whole stream. */
  function ImageOf(st: ImageStream): Map
    requires st.size <= U64_MAX
  {
    Map([MapEntry(0, st.size, 0, 0)], [Stored(st.arn)], st.size, None)
  }

  function HeldBy(st: ImageStream, bevies: Bevies): Holdings {
    Holdings(map[st.arn := bevies])
  }

  lemma ImageOfPasses(st: ImageStream, bevies: Bevies)
    requires st.Openable() && Bounded(st, bevies) && 0 < st.size <= U64_MAX
    ensures Tiled(ImageOf(st)) && Sound([st], HeldBy(st, bevies)) && InStreamOrder(ImageOf(st), [st])
    ensures ImageOf(st).StoredAt(0) == Some(st.arn) && Find([st], st.arn) == Some(st)
    ensures Covered(ImageOf(st), st.arn, 1) == st.size
  {
    var m := ImageOf(st);
    assert m.StoredAt(0) == Some(st.arn);
    assert Covered(m, st.arn, 0) == 0;
    assert MeetsNext(m, 0) && InStep(m, 0);
    assert |StoredIds(m)| == 1 && |StoredNames(m)| == 1;
  }

  /** The simple read of such an image succeeds exactly when the serial read does over full indexes. */
  lemma SimpleReadOfStream(st: ImageStream, bevies: Bevies)
    requires st.Openable() && Bounded(st, bevies) && 0 < st.size <= U64_MAX
    ensures ReadFrom(ImageOf(st), 0, [st], HeldBy(st, bevies)).Whole() <==>
      SerialRead(st, bevies).Whole() && FullIndexes(st, bevies)
  {
    var m, volumes := ImageOf(st), HeldBy(st, bevies);
    ImageOfPasses(st, bevies);
    SimpleReadNeedsEveryByte(m, [st], volumes);
    WholeAgreesWithRegions(st, bevies);
    assert AllIntact(m, [st], volumes) <==> Intact([st], volumes, m.StoredAt(0).value);
  }

  /** The bytes of a serial read, in any slices, are the image's bytes for the fast read. */
  lemma SlicesFit(st: ImageStream, bevies: Bevies, slices: seq<seq<Byte>>)
    requires st.Openable() && Bounded(st, bevies) && 0 < st.size <= U64_MAX
    requires SerialRead(st, bevies).Whole() && Flatten(slices) == SerialRead(st, bevies).bytes
    ensures var m, plain := ImageOf(st), map[st.arn := SerialRead(st, bevies).bytes];
      && Extents(m, plain) && Image(m, plain) == SerialRead(st, bevies).bytes
      && Deliverable([st], HeldBy(st, bevies), map[st.arn := WholeRead(slices, None)], plain)
      && AllReadWhole(m, 1, [st], HeldBy(st, bevies), map[st.arn := WholeRead(slices, None)], plain)
  {
    var m, plain := ImageOf(st), map[st.arn := SerialRead(st, bevies).bytes];
    ImageOfPasses(st, bevies);
    assert Extent(m, plain, st.arn);
    assert ImageTo(m, plain, 0) == [];
    assert EntryBytes(m, m.entries[0], plain) == plain[st.arn];
  }

  /**
   Reading such an image both ways, its stream read in any slices. The fast read succeeds because the serial read does,
   and gives its bytes; the simple read succeeds exactly when, besides, every bevy's index is full.
   */
  method ReadOneStreamImage(st: ImageStream, bevies: Bevies, slices: seq<seq<Byte>>)
    returns (fast: seq<Byte>, fastError: Option<Error>, simpleError: Option<Error>)
    requires st.Openable() && Bounded(st, bevies) && 0 < st.size <= U64_MAX
    requires SerialRead(st, bevies).Whole() && Flatten(slices) == SerialRead(st, bevies).bytes
    ensures fastError.None? && fast == SerialRead(st, bevies).bytes
    ensures simpleError.None? <==> FullIndexes(st, bevies)
  {
    var m, volumes := ImageOf(st), HeldBy(st, bevies);
    ghost var plain := map[st.arn := SerialRead(st, bevies).bytes];
    ImageOfPasses(st, bevies);
    SlicesFit(st, bevies, slices);
    SimpleReadOfStream(st, bevies);
    var source := new SetStreams([st], volumes);
    var fastSink := new Sink(true, 0);
    var counts;
    counts, fastError := ReadFromSetParallel(m, source, map[st.arn := WholeRead(slices, None)], fastSink, plain);
    var simpleSink := new Sink(true, 0);
    counts, simpleError := ReadAll(m, source, simpleSink);
    fast := fastSink.out;
  }

  /**
   The fast read can accept what the simple read refuses: the image of the stream with a short index is read fast with
   every byte from its third on two bytes early, and not with the bytes a region read gives at offset 4.
   */
  method ShortIndexReadFast() returns (fast: seq<Byte>, fastError: Option<Error>, simpleError: Option<Error>)
    ensures fastError.None? && fast == [1, 1, 2, 2, 3, 3]
    ensures simpleError.Some?
    ensures Region(SHORT_INDEX_STREAM, SHORT_INDEX_BEVIES, 4, 2) == Bytes([2, 2])
  {
    ShortIndexAccepted();
    assert Flatten([[1, 1, 2, 2, 3, 3]]) == [1, 1, 2, 2, 3, 3];
    fast, fastError, simpleError := ReadOneStreamImage(SHORT_INDEX_STREAM, SHORT_INDEX_BEVIES, [[1, 1, 2, 2, 3, 3]]);
  }
}
