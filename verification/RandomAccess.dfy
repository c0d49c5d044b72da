/**
 Random access through a map (read_at_impl in src/map.rs): a read of any window is the same bytes the
 whole read delivers there, short only where it says it may be.
 */
module RandomAccess {
  import opened Basics
  import opened Deliveries
  import opened Streams
  import opened Sources
  import opened Maps

  predicate Covers(m: Map, i: nat, a: nat) {
    i < |m.entries| && m.entries[i].offset <= a < m.entries[i].End()
  }

  /** Address `a` lies in a region whose true content is unknown. */
  ghost predicate UnknownAt(m: Map, a: nat) {
    exists i :: Covers(m, i, a) && m.TargetAt(i).Some? && m.TargetAt(i).value.Unknown?
  }

  lemma CoversUnique(m: Map, i: nat, k: nat, a: nat)
    requires Tiled(m) && Covers(m, i, a) && Covers(m, k, a)
    ensures i == k
  {
    if i < k {
      TiledOrder(m, i, k);
    } else if k < i {
      TiledOrder(m, k, i);
    }
  }

  lemma UnknownAtEntry(m: Map, i: nat, a: nat)
    requires Tiled(m) && Covers(m, i, a)
    ensures UnknownAt(m, a) <==> m.TargetAt(i).Some? && m.TargetAt(i).value.Unknown?
  {
    if UnknownAt(m, a) {
      var k :| Covers(m, k, a) && m.TargetAt(k).Some? && m.TargetAt(k).value.Unknown?;
      CoversUnique(m, i, k, a);
    }
  }

  lemma NoneCovers(m: Map, a: nat)
    requires Tiled(m) && a >= m.size
    ensures !UnknownAt(m, a)
  {
    forall i | Covers(m, i, a)
      ensures false
    {
      TiledOrder(m, i, |m.entries|);
    }
  }

  /** The entry covering `a`, by binary search: none exactly when `a` is at or past the image's end. */
  method EntryAt(m: Map, a: nat) returns (index: Option<nat>)
    requires Tiled(m)
    ensures index.Some? ==> Covers(m, index.value, a)
    ensures index.None? <==> a >= m.size
  {
    var lo, hi := 0, |m.entries|;
    while lo < hi
      invariant 0 <= lo <= hi <= |m.entries|
      invariant m.OffsetAt(lo) <= a || lo == 0
      invariant hi == |m.entries| || a < m.OffsetAt(hi)
    {
      var mid := (lo + hi) / 2;
      assert MeetsNext(m, mid);
      TiledOrder(m, mid, |m.entries|);
      if m.entries[mid].End() <= a {
        lo := mid + 1;
      } else if m.entries[mid].offset > a {
        hi := mid;
      } else {
        return Some(mid);
      }
    }
    index := None;
  }

  // ----- part of an entry -----

  function PartDelivery(m: Map, e: MapEntry, into: U64, want: U64, streams: seq<ImageStream>, volumes: Holdings): (d: Delivery)
    requires forall st :: st in streams ==> st.Openable()
    ensures d.Honest()
  {
    match m.TargetOf(e)
    case None => Failed(NoTarget)
    case Some(Stored(arn)) => SetRegion(streams, volumes, arn, SatAdd(e.targetOffset, into), want)
    case Some(RepeatedByte(b)) => Bytes(Repeat(b, want))
    case Some(Unknown(kind)) => Bytes(UnknownBytes(kind, SatAdd(e.targetOffset, into), 0, want))
    case Some(_) => Failed(UnresolvedTarget)
  }

  lemma SatAddTwice(a: U64, b: U64, c: nat)
    requires b + c <= U64_MAX
    ensures SatAdd(SatAdd(a, b), c) == SatAdd(a, b + c)
  {
  }

  /** Part of an entry, delivered whole, is that part of the entry's bytes. */
  lemma PartDelivered(m: Map, e: MapEntry, into: U64, want: U64, streams: seq<ImageStream>, volumes: Holdings)
    requires Sound(streams, volumes)
    requires into + want <= e.length && want > 0
    requires PartDelivery(m, e, into, want, streams, volumes).Whole()
    ensures PartDelivery(m, e, into, want, streams, volumes).bytes ==
            EntryBytes(m, e, PlainOf(streams, volumes))[into..into + want]
  {
    var whole := EntryBytes(m, e, PlainOf(streams, volumes))[into..into + want];
    var part := PartDelivery(m, e, into, want, streams, volumes).bytes;
    match m.TargetOf(e).value {
      case Stored(arn) =>
        StoredPart(m, e, into, want, streams, volumes);
      case Unknown(kind) =>
        forall j | 0 <= j < want
          ensures part[j] == whole[j]
        {
          SatAddTwice(e.targetOffset, into, j);
        }
      case _ =>
    }
  }

  lemma StoredPart(m: Map, e: MapEntry, into: U64, want: U64, streams: seq<ImageStream>, volumes: Holdings)
    requires Sound(streams, volumes)
    requires into + want <= e.length && want > 0
    requires m.TargetOf(e).Some? && m.TargetOf(e).value.Stored?
    requires PartDelivery(m, e, into, want, streams, volumes).Whole()
    ensures PartDelivery(m, e, into, want, streams, volumes).bytes ==
            EntryBytes(m, e, PlainOf(streams, volumes))[into..into + want]
  {
    var arn := m.TargetOf(e).value.arn;
    var st := Find(streams, arn).value;
    var plain := Plain(st, volumes.held[arn]);
    var at := SatAdd(e.targetOffset, into);
    RegionIsPlain(st, volumes.held[arn], at, want);
    assert at == e.targetOffset + into;
    assert PlainOf(streams, volumes)[arn] == plain;
    var whole := EntryBytes(m, e, PlainOf(streams, volumes))[into..into + want];
    forall j | 0 <= j < want
      ensures plain[at..at + want][j] == whole[j]
    {
    }
  }

  /** Every part of a readable entry is readable. */
  lemma PartReadable(m: Map, e: MapEntry, into: U64, want: U64, streams: seq<ImageStream>, volumes: Holdings)
    requires Sound(streams, volumes)
    requires into + want <= e.length
    requires EntryDelivery(m, e, streams, volumes).Whole()
    ensures PartDelivery(m, e, into, want, streams, volumes).Whole()
  {
    if m.TargetOf(e).value.Stored? {
      var arn := m.TargetOf(e).value.arn;
      var st := Find(streams, arn).value;
      RegionIsPlain(st, volumes.held[arn], e.targetOffset, e.length);
      RegionIsPlain(st, volumes.held[arn], e.targetOffset + into, want);
    }
  }

  /** Byte `j` of an entry can be produced. */
  predicate Yields(m: Map, e: MapEntry, j: nat, streams: seq<ImageStream>, volumes: Holdings)
    requires forall st :: st in streams ==> st.Openable()
  {
    j <= U64_MAX && PartDelivery(m, e, j, 1, streams, volumes).Whole()
  }

  lemma StoredYields(st: ImageStream, bevies: Bevies, offset: U64, j: U64)
    requires st.Openable() && Bounded(st, bevies)
    ensures Region(st, bevies, SatAdd(offset, j), 1).Whole() <==> offset + j < st.size && Available(st, bevies, offset + j)
  {
    RegionIsPlain(st, bevies, SatAdd(offset, j), 1);
  }

  lemma StoredByBytes(st: ImageStream, bevies: Bevies, offset: U64, into: U64, want: U64)
    requires st.Openable() && Bounded(st, bevies) && into + want <= U64_MAX && want > 0
    ensures Region(st, bevies, SatAdd(offset, into), want).Whole() <==>
            forall j :: into <= j < into + want ==> Region(st, bevies, SatAdd(offset, j), 1).Whole()
  {
    RegionIsPlain(st, bevies, SatAdd(offset, into), want);
    forall j | into <= j < into + want
      ensures Region(st, bevies, SatAdd(offset, j), 1).Whole() <==> offset + j < st.size && Available(st, bevies, offset + j)
    {
      StoredYields(st, bevies, offset, j);
    }
    if forall j :: into <= j < into + want ==> Region(st, bevies, SatAdd(offset, j), 1).Whole() {
      assert Region(st, bevies, SatAdd(offset, into + want - 1), 1).Whole();
      forall a | offset + into <= a < offset + into + want
        ensures Available(st, bevies, a)
      {
        assert Region(st, bevies, SatAdd(offset, a - offset), 1).Whole();
      }
    }
  }

  /** A part of an entry can be read exactly when each of its bytes can be produced. */
  lemma PartByBytes(m: Map, e: MapEntry, into: U64, want: U64, streams: seq<ImageStream>, volumes: Holdings)
    requires Sound(streams, volumes)
    requires into + want <= U64_MAX && want > 0
    ensures PartDelivery(m, e, into, want, streams, volumes).Whole() <==>
            forall j :: into <= j < into + want ==> Yields(m, e, j, streams, volumes)
  {
    var target := m.TargetOf(e);
    if target.Some? && target.value.Stored? && Find(streams, target.value.arn).Some? && target.value.arn in volumes.held {
      var arn := target.value.arn;
      var st := Find(streams, arn).value;
      StoredByBytes(st, volumes.held[arn], e.targetOffset, into, want);
      forall j | into <= j < into + want
        ensures Yields(m, e, j, streams, volumes) <==> Region(st, volumes.held[arn], SatAdd(e.targetOffset, j), 1).Whole()
      {
      }
      if !PartDelivery(m, e, into, want, streams, volumes).Whole() {
        var j :| into <= j < into + want && !Region(st, volumes.held[arn], SatAdd(e.targetOffset, j), 1).Whole();
        assert !Yields(m, e, j, streams, volumes);
      }
    } else if PartDelivery(m, e, into, want, streams, volumes).error.Some? {
      assert !Yields(m, e, into, streams, volumes);
    }
  }

  /** The image's byte at `a` can be produced. */
  ghost predicate Producible(m: Map, a: nat, streams: seq<ImageStream>, volumes: Holdings)
    requires forall st :: st in streams ==> st.Openable()
  {
    exists i: nat :: Covers(m, i, a) && Yields(m, m.entries[i], a - m.entries[i].offset, streams, volumes)
  }

  lemma ProducibleAt(m: Map, i: nat, a: nat, streams: seq<ImageStream>, volumes: Holdings)
    requires Tiled(m) && Covers(m, i, a) && forall st :: st in streams ==> st.Openable()
    ensures Producible(m, a, streams, volumes) <==> Yields(m, m.entries[i], a - m.entries[i].offset, streams, volumes)
  {
    if k: nat :| Covers(m, k, a) && Yields(m, m.entries[k], a - m.entries[k].offset, streams, volumes) {
      CoversUnique(m, i, k, a);
    }
  }

  ghost predicate AllProducible(m: Map, from: nat, to: nat, streams: seq<ImageStream>, volumes: Holdings)
    requires forall st :: st in streams ==> st.Openable()
  {
    forall a :: from <= a < to ==> Producible(m, a, streams, volumes)
  }

  /** A part of an entry, byte by byte of the image. */
  lemma PartOfImage(m: Map, i: nat, into: U64, want: U64, streams: seq<ImageStream>, volumes: Holdings)
    requires Tiled(m) && Sound(streams, volumes) && i < |m.entries|
    requires into + want <= m.entries[i].length && want > 0
    ensures var from := m.entries[i].offset + into;
            PartDelivery(m, m.entries[i], into, want, streams, volumes).Whole() <==>
            AllProducible(m, from, from + want, streams, volumes)
  {
    var e := m.entries[i];
    PartByBytes(m, e, into, want, streams, volumes);
    forall j | into <= j < into + want
      ensures Producible(m, e.offset + j, streams, volumes) <==> Yields(m, e, j, streams, volumes)
    {
      ProducibleAt(m, i, e.offset + j, streams, volumes);
    }
    if !PartDelivery(m, e, into, want, streams, volumes).Whole() {
      var j :| into <= j < into + want && !Yields(m, e, j, streams, volumes);
      assert !Producible(m, e.offset + j, streams, volumes);
    } else {
      forall a | e.offset + into <= a < e.offset + into + want
        ensures Producible(m, a, streams, volumes)
      {
        assert Yields(m, e, a - e.offset, streams, volumes);
      }
    }
  }

  method DeliverPart(m: Map, e: MapEntry, into: U64, want: U64, source: SetStreams, sink: Sink) returns (error: Option<Error>)
    requires source.Valid()
    modifies source, sink
    ensures source.Valid()
    ensures Outcome(old(sink.out), sink.out, PartDelivery(m, e, into, want, source.streams, source.volumes), error, sink.steady)
  {
    var targetOffset := SatAdd(e.targetOffset, into);
    match m.TargetOf(e) {
      case None => error := Some(NoTarget);
      case Some(Stored(arn)) => error := source.ReadRegion(arn, targetOffset, want, sink);
      case Some(RepeatedByte(b)) => error := EmitRepeated(b, want, sink);
      case Some(Unknown(kind)) => error := EmitUnknown(kind, want, targetOffset, sink);
      case _ => error := Some(UnresolvedTarget);
    }
  }

  method CopyInto(buf: array<Byte>, at: nat, piece: seq<Byte>) returns (cursor: nat)
    requires at <= buf.Length
    modifies buf
    ensures cursor == at + Min(|piece|, buf.Length - at)
    ensures buf[..] == old(buf[..at]) + piece[..cursor - at] + old(buf[cursor..])
  {
    cursor := at;
    while cursor < Min(at + |piece|, buf.Length)
      invariant at <= cursor <= Min(at + |piece|, buf.Length)
      invariant buf[..] == old(buf[..at]) + piece[..cursor - at] + old(buf[cursor..])
    {
      buf[cursor] := piece[cursor - at];
      cursor := cursor + 1;
    }
  }

  /** The part of one entry that a read wants, copied into the buffer at `written`. */
  method ReadPart(m: Map, e: MapEntry, into: U64, want: U64, source: SetStreams, buf: array<Byte>, written: nat)
    returns (cursor: nat, error: Option<Error>)
    requires source.Valid() && Sound(source.streams, source.volumes)
    requires into + want <= e.length && want > 0
    requires written + want <= buf.Length
    modifies source, buf
    ensures source.Valid()
    ensures error == PartDelivery(m, e, into, want, source.streams, source.volumes).error
    ensures error.None? ==>
              && cursor == written + want
              && buf[..] == old(buf[..written]) +
                            EntryBytes(m, e, PlainOf(source.streams, source.volumes))[into..into + want] +
                            old(buf[written + want..])
    ensures buf[..written] == old(buf[..written])
  {
    var sink := new Sink(true, 0);
    error := DeliverPart(m, e, into, want, source, sink);
    assert sink.out == PartDelivery(m, e, into, want, source.streams, source.volumes).bytes;
    cursor := CopyInto(buf, written, sink.out);
    if error.None? {
      PartDelivered(m, e, into, want, source.streams, source.volumes);
      assert |sink.out| == want;
      if cursor != written + want {
        error := Some(ShortRead);
      }
    }
  }

  // ----- a whole window -----

  /** `bytes` are the image's own from `offset` on. */
  ghost predicate Served(m: Map, plain: map<string, seq<Byte>>, offset: nat, bytes: seq<Byte>)
    requires Tiled(m)
  {
    && |Image(m, plain)| == m.size
    && (bytes != [] ==> offset + |bytes| <= m.size)
    && forall a :: offset <= a < offset + |bytes| ==> bytes[a - offset] == Image(m, plain)[a]
  }

  /** No address of `[from, to)` lies in an unknown region. */
  ghost predicate Known(m: Map, from: nat, to: nat) {
    forall a :: from <= a < to ==> !UnknownAt(m, a)
  }

  lemma ServedMore(m: Map, plain: map<string, seq<Byte>>, offset: nat, bytes: seq<Byte>, more: seq<Byte>, i: nat)
    requires Tiled(m) && Served(m, plain, offset, bytes)
    requires Covers(m, i, offset + |bytes|)
    requires var into := offset + |bytes| - m.entries[i].offset;
             && into + |more| <= m.entries[i].length
             && more == EntryBytes(m, m.entries[i], plain)[into..into + |more|]
    ensures Served(m, plain, offset, bytes + more)
  {
    ImageAtEntry(m, plain, i);
    var e := m.entries[i];
    var entryBytes := Image(m, plain)[e.offset..e.End()];
    forall a | offset <= a < offset + |bytes + more|
      ensures (bytes + more)[a - offset] == Image(m, plain)[a]
    {
      if a >= offset + |bytes| {
        assert (bytes + more)[a - offset] == entryBytes[a - e.offset];
      }
    }
  }

  lemma KnownMore(m: Map, i: nat, from: nat, middle: nat, to: nat)
    requires Tiled(m) && Known(m, from, middle) && from <= middle
    requires Covers(m, i, middle) && to <= m.entries[i].End()
    requires !UnknownAt(m, middle)
    ensures Known(m, from, to)
  {
    UnknownAtEntry(m, i, middle);
    forall a | from <= a < to
      ensures !UnknownAt(m, a)
    {
      if a >= middle {
        UnknownAtEntry(m, i, a);
      }
    }
  }

  /** Some entry the window `[offset, offset + length)` touches cannot be read. */
  ghost predicate Damaged(m: Map, offset: nat, length: nat, streams: seq<ImageStream>, volumes: Holdings)
    requires forall st :: st in streams ==> st.Openable()
  {
    exists i :: 0 <= i < |m.entries| && m.entries[i].offset < offset + length && offset < m.entries[i].End() &&
                !EntryDelivery(m, m.entries[i], streams, volumes).Whole()
  }

  lemma DamagedHere(m: Map, i: nat, into: U64, want: U64, offset: nat, length: nat, streams: seq<ImageStream>, volumes: Holdings)
    requires Sound(streams, volumes)
    requires i < |m.entries| && into + want <= m.entries[i].length
    requires m.entries[i].offset + into < offset + length && offset <= m.entries[i].offset + into < m.entries[i].End()
    requires !PartDelivery(m, m.entries[i], into, want, streams, volumes).Whole()
    ensures Damaged(m, offset, length, streams, volumes)
  {
    if EntryDelivery(m, m.entries[i], streams, volumes).Whole() {
      PartReadable(m, m.entries[i], into, want, streams, volumes);
    }
  }

  /** Why a read that did not fail may have stopped. */
  ghost predicate MayStop(m: Map, offset: nat, written: nat, length: nat, unknown: UnknownRegions) {
    || written == length
    || offset + written >= m.size
    || (unknown.Report? && written > 0 && UnknownAt(m, offset + written))
  }

  /** Why a read may fail: it starts in an unknown region it was to report, or the window is damaged. */
  ghost predicate MayFail(m: Map, offset: nat, written: nat, length: nat, unknown: UnknownRegions, error: Error,
                          streams: seq<ImageStream>, volumes: Holdings)
    requires forall st :: st in streams ==> st.Openable()
  {
    if error == UnknownRegion then unknown.Report? && written == 0 && length > 0 && UnknownAt(m, offset)
    else error != ShortRead && Damaged(m, offset, length, streams, volumes)
  }

  /** The bytes a read of a window gets to: up to its end, the image's, and the first unknown region it is to report. */
  ghost predicate Reached(m: Map, offset: nat, length: nat, unknown: UnknownRegions, a: nat) {
    offset <= a < offset + length && a < m.size && (unknown.Report? ==> Known(m, offset, a + 1))
  }

  /** Some byte of the window that the read gets to cannot be produced. */
  ghost predicate MeetsDamage(m: Map, offset: nat, length: nat, unknown: UnknownRegions,
                              streams: seq<ImageStream>, volumes: Holdings)
    requires forall st :: st in streams ==> st.Openable()
  {
    exists a: nat :: Reached(m, offset, length, unknown, a) && !Producible(m, a, streams, volumes)
  }

  /** Entry `i`, known as far as the read got, holds a byte that cannot be produced. */
  lemma DamageMet(m: Map, i: nat, offset: nat, written: nat, length: nat, unknown: UnknownRegions, want: nat,
                  streams: seq<ImageStream>, volumes: Holdings)
    requires Tiled(m) && forall st :: st in streams ==> st.Openable()
    requires Covers(m, i, offset + written) && offset + written + want <= m.entries[i].End() && written + want <= length
    requires unknown.Report? ==> Known(m, offset, offset + written) && !UnknownAt(m, offset + written)
    requires !AllProducible(m, offset + written, offset + written + want, streams, volumes)
    ensures MeetsDamage(m, offset, length, unknown, streams, volumes)
  {
    var a :| offset + written <= a < offset + written + want && !Producible(m, a, streams, volumes);
    TiledOrder(m, i, |m.entries|);
    if unknown.Report? {
      KnownMore(m, i, offset, offset + written, a + 1);
    }
    assert Reached(m, offset, length, unknown, a);
  }

  /** One turn of the read: more bytes, a reason to stop, or a reason to fail. */
  method ReadNext(m: Map, source: SetStreams, offset: U64, buf: array<Byte>, unknown: UnknownRegions, written: nat)
    returns (cursor: nat, error: Option<Error>)
    requires Tiled(m) && source.Valid() && Sound(source.streams, source.volumes)
    requires written < buf.Length
    requires Served(m, PlainOf(source.streams, source.volumes), offset, buf[..written])
    modifies source, buf
    ensures source.Valid()
    ensures written <= cursor <= buf.Length
    ensures Served(m, PlainOf(source.streams, source.volumes), offset, buf[..cursor])
    ensures error.None? && cursor == written ==> MayStop(m, offset, written, buf.Length, unknown)
    ensures error.Some? ==> cursor == written
    ensures error.Some? ==>
              MayFail(m, offset, written, buf.Length, unknown, error.value, source.streams, source.volumes)
    ensures error.None? ==> AllProducible(m, offset + written, offset + cursor, source.streams, source.volumes)
    ensures error.Some? && error != Some(UnknownRegion) && (unknown.Report? ==> Known(m, offset, offset + written)) ==>
              MeetsDamage(m, offset, buf.Length, unknown, source.streams, source.volumes)
    ensures unknown.Report? && Known(m, offset, offset + written) ==> Known(m, offset, offset + cursor)
    ensures unknown.Report? && written == 0 && UnknownAt(m, offset) ==> error == Some(UnknownRegion)
  {
    cursor, error := written, None;
    var position := SatAdd(offset, written);
    var index := EntryAt(m, position);
    if index.None? {
      NoneCovers(m, position);
      return;
    }
    UnknownAtEntry(m, index.value, position);
    var e := m.entries[index.value];
    if unknown.Report? && m.TargetOf(e).Some? && m.TargetOf(e).value.Unknown? {
      error := if written > 0 then None else Some(UnknownRegion);
      return;
    }
    ghost var want;
    cursor, error, want := ReadHere(m, index.value, source, offset, buf, written);
    if error.Some? && (unknown.Report? ==> Known(m, offset, offset + written)) {
      DamageMet(m, index.value, offset, written, buf.Length, unknown, want, source.streams, source.volumes);
    }
    if unknown.Report? && Known(m, offset, offset + written) {
      KnownMore(m, index.value, offset, offset + written, offset + cursor);
    }
  }

  /** As much of entry `i` as the window and the buffer take. */
  method ReadHere(m: Map, i: nat, source: SetStreams, offset: U64, buf: array<Byte>, written: nat)
    returns (cursor: nat, error: Option<Error>, ghost want: nat)
    requires Tiled(m) && source.Valid() && Sound(source.streams, source.volumes)
    requires written < buf.Length && Covers(m, i, offset + written)
    requires Served(m, PlainOf(source.streams, source.volumes), offset, buf[..written])
    modifies source, buf
    ensures source.Valid()
    ensures written <= cursor <= buf.Length && offset + cursor <= m.entries[i].End()
    ensures Served(m, PlainOf(source.streams, source.volumes), offset, buf[..cursor])
    ensures error.None? ==> cursor > written
    ensures error.Some? ==> cursor == written
    ensures error.Some? ==>
              MayFail(m, offset, written, buf.Length, Fill, error.value, source.streams, source.volumes)
    ensures offset + written + want <= m.entries[i].End() && written + want <= buf.Length
    ensures error.None? ==> cursor == written + want
    ensures error.None? <==> AllProducible(m, offset + written, offset + written + want, source.streams, source.volumes)
  {
    ghost var plain, before := PlainOf(source.streams, source.volumes), buf[..written];
    var e := m.entries[i];
    var into := offset + written - e.offset;
    var part := Min(e.length - into, buf.Length - written);
    want := part;
    PartOfImage(m, i, into, part, source.streams, source.volumes);
    cursor, error := ReadPart(m, e, into, part, source, buf, written);
    if error.None? {
      ghost var more := EntryBytes(m, e, plain)[into..into + part];
      assert buf[..cursor] == before + more;
      ServedMore(m, plain, offset, before, more, i);
    } else {
      assert buf[..written] == before;
      cursor := written;
      NeverUnknown(m, e, into, part, source.streams, source.volumes);
      DamagedHere(m, i, into, part, offset, buf.Length, source.streams, source.volumes);
    }
  }

  lemma NeverUnknown(m: Map, e: MapEntry, into: U64, want: U64, streams: seq<ImageStream>, volumes: Holdings)
    requires forall st :: st in streams ==> st.Openable()
    ensures PartDelivery(m, e, into, want, streams, volumes).error != Some(UnknownRegion)
    ensures PartDelivery(m, e, into, want, streams, volumes).error != Some(ShortRead)
  {
    if m.TargetOf(e).Some? && m.TargetOf(e).value.Stored? {
      var arn := m.TargetOf(e).value.arn;
      if Find(streams, arn).Some? && arn in volumes.held {
        var at := SatAdd(e.targetOffset, into);
        RegionErrors(Find(streams, arn).value, volumes.held[arn], at, at + want);
      }
    }
  }

  lemma {:induction false} RegionErrors(st: ImageStream, bevies: Bevies, position: nat, end: nat)
    requires st.Openable()
    ensures RegionFrom(st, bevies, position, end).error in {None, Some(Unreadable), Some(ShortChunk)}
    decreases end - position
  {
    if position < end {
      var c := DecodeChunk(st, bevies, position / st.chunkSize);
      if c.Some? && position % st.chunkSize < |c.value| {
        RegionErrors(st, bevies, position + Min(|c.value| - position % st.chunkSize, end - position), end);
      }
    }
  }

  /** Nothing past a stop is reached: with all produced before it the read meets no damage. */
  lemma ReachedOnly(m: Map, offset: nat, written: nat, length: nat, unknown: UnknownRegions,
                    streams: seq<ImageStream>, volumes: Holdings)
    requires forall st :: st in streams ==> st.Openable()
    requires AllProducible(m, offset, offset + written, streams, volumes) && MayStop(m, offset, written, length, unknown)
    ensures !MeetsDamage(m, offset, length, unknown, streams, volumes)
  {
    forall a: nat | Reached(m, offset, length, unknown, a)
      ensures Producible(m, a, streams, volumes)
    {
      assert a < offset + written;
    }
  }

  /** A read that starts in an unknown region it is to report gets to nothing. */
  lemma StopMeans(m: Map, offset: nat, written: nat, length: nat, unknown: UnknownRegions, error: Option<Error>,
                  streams: seq<ImageStream>, volumes: Holdings)
    requires forall st :: st in streams ==> st.Openable()
    requires AllProducible(m, offset, offset + written, streams, volumes)
    requires error.None? ==> MayStop(m, offset, written, length, unknown)
    requires error == Some(UnknownRegion) ==> unknown.Report? && UnknownAt(m, offset)
    ensures error.None? || error == Some(UnknownRegion) ==> !MeetsDamage(m, offset, length, unknown, streams, volumes)
  {
    if error.None? {
      ReachedOnly(m, offset, written, length, unknown, streams, volumes);
    }
  }

  /**
   Fill `buf` from `offset`. A read that succeeds holds the image's own bytes and stops early only at the
   image's end or, when asked to report them, where an unknown region begins. It fails exactly on an unknown
   region it starts in, or when a byte it gets to cannot be produced.
   */
  method ReadAt(m: Map, source: SetStreams, offset: U64, buf: array<Byte>, unknown: UnknownRegions)
    returns (written: nat, error: Option<Error>)
    requires Tiled(m) && source.Valid() && Sound(source.streams, source.volumes)
    modifies source, buf
    ensures source.Valid()
    ensures written <= buf.Length
    ensures Served(m, PlainOf(source.streams, source.volumes), offset, buf[..written])
    ensures unknown.Report? ==> Known(m, offset, offset + written)
    ensures error.None? ==> MayStop(m, offset, written, buf.Length, unknown)
    ensures error == Some(UnknownRegion) <==> unknown.Report? && buf.Length > 0 && UnknownAt(m, offset)
    ensures error.Some? ==>
              MayFail(m, offset, written, buf.Length, unknown, error.value, source.streams, source.volumes)
    ensures error.Some? && error != Some(UnknownRegion) <==>
              MeetsDamage(m, offset, buf.Length, unknown, source.streams, source.volumes)
  {
    written, error := 0, None;
    ImageToLength(m, PlainOf(source.streams, source.volumes), |m.entries|);
    while written < buf.Length
      invariant written <= buf.Length
      invariant source.Valid()
      invariant Served(m, PlainOf(source.streams, source.volumes), offset, buf[..written])
      invariant unknown.Report? ==> Known(m, offset, offset + written)
      invariant unknown.Report? && written > 0 ==> !UnknownAt(m, offset)
      invariant error.None?
      invariant AllProducible(m, offset, offset + written, source.streams, source.volumes)
    {
      var cursor;
      cursor, error := ReadNext(m, source, offset, buf, unknown, written);
      if error.Some? || cursor == written {
        StopMeans(m, offset, written, buf.Length, unknown, error, source.streams, source.volumes);
        return;
      }
      written := cursor;
    }
    ReachedOnly(m, offset, written, buf.Length, unknown, source.streams, source.volumes);
  }
}
