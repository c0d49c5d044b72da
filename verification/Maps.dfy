/**
 Maps (src/map.rs; AFF4 Standard v1.0a section 4): an image's address space as a list of entries, each
 reading stored bytes or reconstructing described ones. The image itself is the simple definition
 `Image`; the whole read and the random-access read are proved to deliver it.
 */
module Maps {
  import opened Basics
  import opened Deliveries
  import opened Streams
  import opened Sources

  const BLOCK: nat := 1024 * 1024
  const RUN_BUFFER_LEN: nat := 64 * 1024

  datatype UnknownKind = NotAcquired | UnreadableData {
    /** "UNKNOWN" and "UNREADABLEDATA". */
    function Filler(): (f: seq<Byte>)
      ensures 1 <= |f| < BLOCK
    {
      match this
      case NotAcquired => [0x55, 0x4E, 0x4B, 0x4E, 0x4F, 0x57, 0x4E]
      case UnreadableData => [0x55, 0x4E, 0x52, 0x45, 0x41, 0x44, 0x41, 0x42, 0x4C, 0x45, 0x44, 0x41, 0x54, 0x41]
    }
  }

  datatype UnknownRegions = Fill | Report

  datatype Target =
    | Stored(arn: string)
    | RepeatedByte(byte: Byte)
    | Unknown(kind: UnknownKind)
    | BlockHash(text: string)
    | Unrecognised(text: string)

  datatype MapEntry = MapEntry(offset: U64, length: U64, targetOffset: U64, targetId: nat) {
    function End(): nat { offset + length }
  }

  datatype Map = Map(entries: seq<MapEntry>, targets: seq<Target>, size: U64, gapTargetId: Option<nat>) {
    function TargetOf(e: MapEntry): Option<Target> {
      if e.targetId < |targets| then Some(targets[e.targetId]) else None
    }

    function TargetAt(i: nat): Option<Target>
      requires i < |entries|
    {
      TargetOf(entries[i])
    }

    /** The stream entry `i` reads from, if it is a stored entry. */
    function StoredAt(i: nat): Option<string> {
      if i < |entries| && TargetAt(i).Some? && TargetAt(i).value.Stored? then Some(TargetAt(i).value.arn) else None
    }

    predicate DescribedAt(i: nat)
      requires i < |entries|
    {
      TargetAt(i).Some? && (TargetAt(i).value.RepeatedByte? || TargetAt(i).value.Unknown?)
    }

    /** Where entry `i` starts, or where the image ends. */
    function OffsetAt(i: nat): nat {
      if i < |entries| then entries[i].offset else size
    }
  }

  /** What parsing establishes: the entries cover the image once, in order, each at least one byte. */
  ghost predicate Tiled(m: Map) {
    && m.entries != []
    && m.entries[0].offset == 0
    && (forall i :: 0 <= i < |m.entries| ==> m.entries[i].length > 0 && m.entries[i].targetId < |m.targets|)
    && (forall i :: 0 <= i < |m.entries| ==> MeetsNext(m, i))
  }

  /** Entry `i` ends where the next one starts, or where the image ends. */
  ghost predicate MeetsNext(m: Map, i: nat)
    requires i < |m.entries|
  {
    m.entries[i].End() == m.OffsetAt(i + 1)
  }

  // ----- the image, defined simply -----

  /** Byte `n` of an unknown region: the filler repeats from the start of each 1 MiB block of the target. */
  function UnknownByte(kind: UnknownKind, targetOffset: U64, n: nat): Byte
    requires n <= U64_MAX
  {
    kind.Filler()[SatAdd(targetOffset, n) % BLOCK % |kind.Filler()|]
  }

  function Content(plain: map<string, seq<Byte>>, arn: string, position: nat): Byte {
    if arn in plain && position < |plain[arn]| then plain[arn][position] else 0
  }

  /** Byte `j` of an entry, given the plaintext of the stored streams. */
  function EntryByte(m: Map, e: MapEntry, plain: map<string, seq<Byte>>, j: nat): Byte
    requires j <= U64_MAX
  {
    match m.TargetOf(e)
    case Some(Stored(arn)) => Content(plain, arn, e.targetOffset + j)
    case Some(RepeatedByte(b)) => b
    case Some(Unknown(kind)) => UnknownByte(kind, e.targetOffset, j)
    case _ => 0
  }

  function EntryBytes(m: Map, e: MapEntry, plain: map<string, seq<Byte>>): (bytes: seq<Byte>)
    ensures |bytes| == e.length
  {
    seq(e.length, j requires 0 <= j < e.length => EntryByte(m, e, plain, j))
  }

  /** The bytes of the first `n` entries. */
  function ImageTo(m: Map, plain: map<string, seq<Byte>>, n: nat): seq<Byte>
    requires n <= |m.entries|
  {
    if n == 0 then [] else ImageTo(m, plain, n - 1) + EntryBytes(m, m.entries[n - 1], plain)
  }

  function Image(m: Map, plain: map<string, seq<Byte>>): seq<Byte> {
    ImageTo(m, plain, |m.entries|)
  }

  lemma {:induction false} ImageToLength(m: Map, plain: map<string, seq<Byte>>, n: nat)
    requires Tiled(m) && n <= |m.entries|
    ensures |ImageTo(m, plain, n)| == m.OffsetAt(n)
  {
    if n > 0 {
      ImageToLength(m, plain, n - 1);
      assert MeetsNext(m, n - 1);
    }
  }

  lemma {:induction false} ImageToPrefix(m: Map, plain: map<string, seq<Byte>>, n: nat, k: nat)
    requires n <= k <= |m.entries|
    ensures ImageTo(m, plain, n) <= ImageTo(m, plain, k)
  {
    if n < k {
      ImageToPrefix(m, plain, n, k - 1);
    }
  }

  /** The image at an entry's offset is that entry's bytes, for as long as the entry runs. */
  lemma ImageAtEntry(m: Map, plain: map<string, seq<Byte>>, i: nat)
    requires Tiled(m) && i < |m.entries|
    ensures |Image(m, plain)| == m.size && m.entries[i].End() <= m.size
    ensures Image(m, plain)[m.entries[i].offset..m.entries[i].End()] == EntryBytes(m, m.entries[i], plain)
  {
    ImageToLength(m, plain, i);
    ImageToLength(m, plain, i + 1);
    ImageToLength(m, plain, |m.entries|);
    ImageToPrefix(m, plain, i + 1, |m.entries|);
    assert MeetsNext(m, i);
    SliceOfPrefix(ImageTo(m, plain, i), EntryBytes(m, m.entries[i], plain), Image(m, plain));
  }

  lemma SliceOfPrefix<T>(a: seq<T>, b: seq<T>, whole: seq<T>)
    requires a + b <= whole
    ensures whole[|a|..|a| + |b|] == b
  {
    assert whole[..|a + b|] == a + b;
    assert whole[|a|..|a| + |b|] == (a + b)[|a|..];
  }

  /** Later entries start later. */
  lemma {:induction false} TiledOrder(m: Map, i: nat, k: nat)
    requires Tiled(m) && i < k <= |m.entries|
    ensures m.entries[i].End() <= m.OffsetAt(k) <= m.size
    decreases |m.entries| - i
  {
    assert MeetsNext(m, i);
    if i + 1 < k {
      TiledOrder(m, i + 1, k);
    } else if k < |m.entries| {
      TiledOrder(m, k, |m.entries|);
    }
  }

  // ----- described runs -----

  /** `length` copies of one byte, through a fixed buffer. */
  method EmitRepeated(byte: Byte, length: nat, sink: Sink) returns (error: Option<Error>)
    modifies sink
    ensures Outcome(old(sink.out), sink.out, Bytes(Repeat(byte, length)), error, sink.steady)
  {
    var buffer := Repeat(byte, Min(length, RUN_BUFFER_LEN));
    var remaining: nat := length;
    ghost var before, done, whole := sink.out, Nothing(), Bytes(Repeat(byte, length));
    Start(before, whole);
    while remaining > 0
      invariant remaining <= length
      invariant Underway(before, sink.out, whole, done, Bytes(Repeat(byte, remaining)))
    {
      var take := Min(remaining, |buffer|);
      ghost var middle := sink.out;
      assert Repeat(byte, remaining) == buffer[..take] + Repeat(byte, remaining - take);
      var e := sink.Accept(buffer[..take]);
      Advance(before, middle, sink.out, whole, done, Bytes(buffer[..take]), Bytes(Repeat(byte, remaining - take)), e, sink.steady);
      if e.Some? {
        return e;
      }
      done := Then(done, Bytes(buffer[..take]));
      remaining := remaining - take;
    }
    Finish(before, sink.out, whole, done, Bytes(Repeat(byte, 0)), sink.steady);
    error := None;
  }

  /** The bytes of an unknown region from its `from`-th on. */
  function UnknownBytes(kind: UnknownKind, targetOffset: U64, from: nat, length: U64): (bytes: seq<Byte>)
    requires from <= length
    ensures |bytes| == length - from
  {
    seq<Byte>(length - from, i requires 0 <= i < length - from => UnknownByte(kind, targetOffset, from + i))
  }

  /** Inside one block the phase is the offset within the block, saturated positions included. */
  lemma PhaseWithinBlock(targetOffset: U64, produced: nat, i: nat)
    requires produced + i <= U64_MAX
    requires SatAdd(targetOffset, produced) % BLOCK + i < BLOCK
    ensures SatAdd(targetOffset, produced + i) % BLOCK == SatAdd(targetOffset, produced) % BLOCK + i
  {
    var p := SatAdd(targetOffset, produced);
    WithinBlock(p, BLOCK, i);
    assert U64_MAX % BLOCK == BLOCK - 1;
    if targetOffset + produced <= U64_MAX {
      assert p + i <= U64_MAX by {
        assert (p + i) / BLOCK == p / BLOCK <= U64_MAX / BLOCK;
        QuotientRemainder(p + i, BLOCK);
        QuotientRemainder(U64_MAX, BLOCK);
      }
    }
  }

  /** A piece of the region's bytes from `produced` on extends what is out. */
  lemma UnknownMore(kind: UnknownKind, targetOffset: U64, produced: nat, length: U64, piece: seq<Byte>)
    requires produced + |piece| <= length
    requires forall i :: 0 <= i < |piece| ==> piece[i] == UnknownByte(kind, targetOffset, produced + i)
    ensures var all := UnknownBytes(kind, targetOffset, 0, length);
      all[..produced] + piece == all[..produced + |piece|]
  {
    var all := UnknownBytes(kind, targetOffset, 0, length);
    forall i | 0 <= i < |piece|
      ensures all[produced + i] == piece[i]
    {
    }
  }

  lemma RefusedPartWay(before: seq<Byte>, all: seq<Byte>, n: nat)
    requires n <= |all|
    ensures Outcome(before, before + all[..n], Bytes(all), Some(SinkRefused), false)
  {
  }

  /** The placeholder of an unknown region, never crossing a block boundary in one piece. */
  method EmitUnknown(kind: UnknownKind, length: U64, targetOffset: U64, sink: Sink) returns (error: Option<Error>)
    modifies sink
    ensures Outcome(old(sink.out), sink.out, Bytes(UnknownBytes(kind, targetOffset, 0, length)), error, sink.steady)
  {
    ghost var before, all := sink.out, UnknownBytes(kind, targetOffset, 0, length);
    var produced := 0;
    assert before + all[..0] == before;
    while produced < length
      invariant produced <= length
      invariant sink.out == before + all[..produced]
    {
      var piece := UnknownPiece(kind, targetOffset, produced, length);
      UnknownMore(kind, targetOffset, produced, length, piece);
      var e := sink.Accept(piece);
      if e.Some? {
        RefusedPartWay(before, all, produced);
        return e;
      }
      Regroup(before, all[..produced], piece);
      produced := produced + |piece|;
    }
    assert all[..length] == all;
    error := None;
  }

  /** One piece of a placeholder: to the end of the block, the region or the buffer. */
  method UnknownPiece(kind: UnknownKind, targetOffset: U64, produced: nat, length: U64) returns (buffer: seq<Byte>)
    requires produced < length
    ensures 0 < |buffer| <= Min(RUN_BUFFER_LEN, length - produced)
    ensures forall i :: 0 <= i < |buffer| ==> buffer[i] == UnknownByte(kind, targetOffset, produced + i)
  {
    var filler := kind.Filler();
    var within := SatAdd(targetOffset, produced) % BLOCK;
    var want := Min(Min(length - produced, BLOCK - within), RUN_BUFFER_LEN);
    buffer := [];
    for i := 0 to want
      invariant |buffer| == i
      invariant forall k :: 0 <= k < i ==> buffer[k] == UnknownByte(kind, targetOffset, produced + k)
    {
      PhaseWithinBlock(targetOffset, produced, i);
      buffer := buffer + [filler[(within + i) % |filler|]];
    }
  }

  // ----- accounting -----

  datatype Accounting = Accounting(stored: U64, described: U64, unknown: U64, gapFilled: U64) {
    function Total(): U64 {
      SatAdd(SatAdd(SatAdd(stored, described), unknown), gapFilled)
    }

    function Sum(): nat {
      stored + described + unknown + gapFilled
    }

    /** Saturating, as every counter of a read is. */
    function Add(a: Accounting): Accounting {
      Accounting(SatAdd(stored, a.stored), SatAdd(described, a.described), SatAdd(unknown, a.unknown),
                 SatAdd(gapFilled, a.gapFilled))
    }
  }

  const ZERO_ACCOUNTING := Accounting(0, 0, 0, 0)

  /** What delivering one entry counts as. */
  function EntryAccount(m: Map, e: MapEntry): Accounting {
    match m.TargetOf(e)
    case Some(Stored(_)) => Accounting(e.length, 0, 0, 0)
    case Some(RepeatedByte(_)) =>
      if m.gapTargetId == Some(e.targetId) then Accounting(0, 0, 0, e.length) else Accounting(0, e.length, 0, 0)
    case Some(Unknown(_)) => Accounting(0, 0, e.length, 0)
    case _ => ZERO_ACCOUNTING
  }

  /** Unbounded totals, one a kind. */
  datatype Tally = Tally(stored: nat, described: nat, unknown: nat, gapFilled: nat) {
    function Sum(): nat { stored + described + unknown + gapFilled }
  }

  /** The lengths of the first `n` entries, summed by kind. */
  function TallyTo(m: Map, n: nat): Tally
    requires n <= |m.entries|
  {
    if n == 0 then Tally(0, 0, 0, 0)
    else
      var t, a := TallyTo(m, n - 1), EntryAccount(m, m.entries[n - 1]);
      Tally(t.stored + a.stored, t.described + a.described, t.unknown + a.unknown, t.gapFilled + a.gapFilled)
  }

  /** The counters are exactly the per-kind sums of the lengths of the first `n` entries. */
  ghost predicate Accounts(m: Map, n: nat, a: Accounting)
    requires n <= |m.entries|
  {
    TallyTo(m, n) == Tally(a.stored, a.described, a.unknown, a.gapFilled)
  }

  /** The counters after the first `n` entries, as a read keeps them. */
  function AccountTo(m: Map, n: nat): Accounting
    requires n <= |m.entries|
  {
    if n == 0 then ZERO_ACCOUNTING else AccountTo(m, n - 1).Add(EntryAccount(m, m.entries[n - 1]))
  }

  lemma AddExact(x: Accounting, a: Accounting)
    requires x.Sum() + a.Sum() <= U64_MAX
    ensures x.Add(a) == Accounting(x.stored + a.stored, x.described + a.described, x.unknown + a.unknown,
                                   x.gapFilled + a.gapFilled)
    ensures x.Add(a).Sum() == x.Sum() + a.Sum()
  {
  }

  lemma TotalExact(x: Accounting)
    requires x.Sum() <= U64_MAX
    ensures x.Total() == x.Sum()
  {
  }

  lemma EntryAccountSum(m: Map, i: nat)
    requires i < |m.entries|
    requires m.StoredAt(i).Some? || m.DescribedAt(i)
    ensures EntryAccount(m, m.entries[i]).Sum() == m.entries[i].length
  {
  }

  /** One more entry, counted without saturating. */
  lemma AccountMore(m: Map, n: nat)
    requires 0 < n <= |m.entries|
    requires Accounts(m, n - 1, AccountTo(m, n - 1))
    requires AccountTo(m, n - 1).Sum() + EntryAccount(m, m.entries[n - 1]).Sum() <= U64_MAX
    ensures Accounts(m, n, AccountTo(m, n))
    ensures AccountTo(m, n).Sum() == AccountTo(m, n - 1).Sum() + EntryAccount(m, m.entries[n - 1]).Sum()
  {
    AddExact(AccountTo(m, n - 1), EntryAccount(m, m.entries[n - 1]));
  }

  lemma EntryMeets(m: Map, n: nat)
    requires Tiled(m) && 0 < n <= |m.entries|
    ensures m.OffsetAt(n) == m.OffsetAt(n - 1) + m.entries[n - 1].length <= U64_MAX
  {
    TiledOrder(m, n - 1, n);
    assert MeetsNext(m, n - 1);
  }

  /** Over a tiled map no counter saturates: the counters are the sums, and together the bytes covered. */
  lemma {:induction false} AccountToIsTally(m: Map, n: nat)
    requires Tiled(m) && n <= |m.entries|
    requires forall i :: 0 <= i < n ==> m.StoredAt(i).Some? || m.DescribedAt(i)
    ensures Accounts(m, n, AccountTo(m, n))
    ensures AccountTo(m, n).Sum() == m.OffsetAt(n)
  {
    if n > 0 {
      AccountToIsTally(m, n - 1);
      EntryAccountSum(m, n - 1);
      EntryMeets(m, n);
      AccountMore(m, n);
    }
  }

  // ----- the whole read, entry by entry -----

  /** The plaintext of every stream the set describes and holds. */
  function PlainOf(streams: seq<ImageStream>, volumes: Holdings): map<string, seq<Byte>>
    requires forall st :: st in streams ==> st.Openable()
  {
    map arn | arn in volumes.held && Find(streams, arn).Some? :: Plain(Find(streams, arn).value, volumes.held[arn])
  }

  function EntryDelivery(m: Map, e: MapEntry, streams: seq<ImageStream>, volumes: Holdings): (d: Delivery)
    requires forall st :: st in streams ==> st.Openable()
    ensures d.Honest()
  {
    match m.TargetOf(e)
    case None => Failed(NoTarget)
    case Some(Stored(arn)) => SetRegion(streams, volumes, arn, e.targetOffset, e.length)
    case Some(RepeatedByte(b)) => Bytes(Repeat(b, e.length))
    case Some(Unknown(kind)) => Bytes(UnknownBytes(kind, e.targetOffset, 0, e.length))
    case Some(_) => Failed(UnresolvedTarget)
  }

  function ReadFrom(m: Map, i: nat, streams: seq<ImageStream>, volumes: Holdings): (d: Delivery)
    requires i <= |m.entries|
    requires forall st :: st in streams ==> st.Openable()
    ensures d.Honest()
    decreases |m.entries| - i
  {
    if i == |m.entries| then Nothing()
    else Then(EntryDelivery(m, m.entries[i], streams, volumes), ReadFrom(m, i + 1, streams, volumes))
  }

  /** A stored entry delivered whole is that part of its stream's plaintext. */
  lemma StoredDelivered(arn: string, offset: U64, length: U64, streams: seq<ImageStream>, volumes: Holdings)
    requires Sound(streams, volumes)
    requires SetRegion(streams, volumes, arn, offset, length).Whole()
    ensures arn in PlainOf(streams, volumes) && offset + length <= |PlainOf(streams, volumes)[arn]|
    ensures SetRegion(streams, volumes, arn, offset, length).bytes == PlainOf(streams, volumes)[arn][offset..offset + length]
  {
    var st := Find(streams, arn).value;
    RegionIsPlain(st, volumes.held[arn], offset, length);
    assert PlainOf(streams, volumes)[arn] == Plain(st, volumes.held[arn]);
  }

  /** An entry delivered whole is that entry's bytes. */
  lemma EntryDelivered(m: Map, e: MapEntry, streams: seq<ImageStream>, volumes: Holdings)
    requires Sound(streams, volumes)
    requires EntryDelivery(m, e, streams, volumes).Whole()
    ensures EntryDelivery(m, e, streams, volumes).bytes == EntryBytes(m, e, PlainOf(streams, volumes))
  {
    if m.TargetOf(e).value.Stored? {
      StoredDelivered(m.TargetOf(e).value.arn, e.targetOffset, e.length, streams, volumes);
    }
  }

  lemma {:induction false} ReadFromIsWhole(m: Map, i: nat, streams: seq<ImageStream>, volumes: Holdings)
    requires forall st :: st in streams ==> st.Openable()
    requires i <= |m.entries|
    ensures ReadFrom(m, i, streams, volumes).Whole() <==>
            forall k :: i <= k < |m.entries| ==> EntryDelivery(m, m.entries[k], streams, volumes).Whole()
    decreases |m.entries| - i
  {
    if i < |m.entries| {
      ReadFromIsWhole(m, i + 1, streams, volumes);
    }
  }

  /** A whole read that succeeds is the image. */
  lemma {:induction false} ReadFromIsImage(m: Map, i: nat, streams: seq<ImageStream>, volumes: Holdings)
    requires Sound(streams, volumes) && i <= |m.entries|
    requires ReadFrom(m, i, streams, volumes).Whole()
    ensures ImageTo(m, PlainOf(streams, volumes), i) + ReadFrom(m, i, streams, volumes).bytes ==
            Image(m, PlainOf(streams, volumes))
    decreases |m.entries| - i
  {
    if i < |m.entries| {
      var here, rest := EntryDelivery(m, m.entries[i], streams, volumes), ReadFrom(m, i + 1, streams, volumes);
      ReadFromIsImage(m, i + 1, streams, volumes);
      EntryDelivered(m, m.entries[i], streams, volumes);
      Regroup(ImageTo(m, PlainOf(streams, volumes), i), here.bytes, rest.bytes);
    }
  }

  /** Reconstruct one described entry. */
  method EmitDescribed(m: Map, position: nat, sink: Sink) returns (accounting: Accounting, error: Option<Error>)
    requires position < |m.entries|
    modifies sink
    ensures m.DescribedAt(position) ==>
              Outcome(old(sink.out), sink.out, Bytes(EntryBytes(m, m.entries[position], map[])), error, sink.steady)
    ensures !m.DescribedAt(position) ==>
              sink.out == old(sink.out) && error == Some(if m.TargetAt(position).None? then NoTarget else NotDescribed)
    ensures error.None? ==> accounting == EntryAccount(m, m.entries[position])
  {
    accounting := ZERO_ACCOUNTING;
    var e := m.entries[position];
    match m.TargetOf(e) {
      case None =>
        error := Some(NoTarget);
      case Some(RepeatedByte(b)) =>
        assert EntryBytes(m, e, map[]) == Repeat(b, e.length);
        error := EmitRepeated(b, e.length, sink);
        accounting := if m.gapTargetId == Some(e.targetId) then Accounting(0, 0, 0, e.length) else Accounting(0, e.length, 0, 0);
      case Some(Unknown(kind)) =>
        assert EntryBytes(m, e, map[]) == UnknownBytes(kind, e.targetOffset, 0, e.length);
        error := EmitUnknown(kind, e.length, e.targetOffset, sink);
        accounting := Accounting(0, 0, e.length, 0);
      case _ =>
        error := Some(NotDescribed);
    }
  }

  /** Deliver one entry, whatever its target. */
  method DeliverEntry(m: Map, e: MapEntry, source: SetStreams, sink: Sink)
    returns (accounting: Accounting, error: Option<Error>)
    requires source.Valid()
    modifies source, sink
    ensures source.Valid()
    ensures Outcome(old(sink.out), sink.out, EntryDelivery(m, e, source.streams, source.volumes), error, sink.steady)
    ensures error.None? ==> accounting == EntryAccount(m, e)
  {
    accounting := ZERO_ACCOUNTING;
    match m.TargetOf(e) {
      case None =>
        error := Some(NoTarget);
      case Some(Stored(arn)) =>
        error := source.ReadRegion(arn, e.targetOffset, e.length, sink);
        accounting := Accounting(e.length, 0, 0, 0);
      case Some(RepeatedByte(b)) =>
        error := EmitRepeated(b, e.length, sink);
        accounting := if m.gapTargetId == Some(e.targetId) then Accounting(0, 0, 0, e.length) else Accounting(0, e.length, 0, 0);
      case Some(Unknown(kind)) =>
        error := EmitUnknown(kind, e.length, e.targetOffset, sink);
        accounting := Accounting(0, 0, e.length, 0);
      case _ =>
        error := Some(UnresolvedTarget);
    }
  }

  /**
   Deliver the whole image in address order. A run that ends well delivered the image and counted every
   byte of it once; the final size check never fails on a tiled map.
   */
  method ReadAll(m: Map, source: SetStreams, sink: Sink) returns (accounting: Accounting, error: Option<Error>)
    requires Tiled(m) && source.Valid()
    modifies source, sink
    ensures source.Valid()
    ensures Outcome(old(sink.out), sink.out, ReadFrom(m, 0, source.streams, source.volumes), error, sink.steady)
    ensures error.None? ==> Accounts(m, |m.entries|, accounting) && accounting.Total() == m.size
  {
    accounting, error := ReadEntries(m, source, sink);
    if error.None? {
      ReadFromIsWhole(m, 0, source.streams, source.volumes);
      AccountToIsTally(m, |m.entries|);
      TotalExact(accounting);
      if accounting.Total() != m.size {
        error := Some(SizeMismatch);
      }
    }
  }

  method ReadEntries(m: Map, source: SetStreams, sink: Sink) returns (accounting: Accounting, error: Option<Error>)
    requires Tiled(m) && source.Valid()
    modifies source, sink
    ensures source.Valid()
    ensures Outcome(old(sink.out), sink.out, ReadFrom(m, 0, source.streams, source.volumes), error, sink.steady)
    ensures error.None? ==> accounting == AccountTo(m, |m.entries|)
  {
    ghost var streams, volumes := source.streams, source.volumes;
    ghost var before, done, whole := sink.out, Nothing(), ReadFrom(m, 0, streams, volumes);
    var position := 0;
    accounting, error := ZERO_ACCOUNTING, None;
    Start(before, whole);
    while position < |m.entries| && error.None?
      invariant position <= |m.entries|
      invariant source.Valid()
      invariant error.None? ==> Underway(before, sink.out, whole, done, ReadFrom(m, position, streams, volumes))
      invariant error.None? ==> accounting == AccountTo(m, position)
      invariant error.Some? ==> Outcome(before, sink.out, whole, error, sink.steady)
      decreases |m.entries| - position, error.None?
    {
      ghost var middle, here := sink.out, EntryDelivery(m, m.entries[position], streams, volumes);
      var counted;
      counted, error := DeliverEntry(m, m.entries[position], source, sink);
      Advance(before, middle, sink.out, whole, done, here, ReadFrom(m, position + 1, streams, volumes), error, sink.steady);
      if error.None? {
        done, accounting, position := Then(done, here), accounting.Add(counted), position + 1;
      }
    }
    if error.None? {
      Finish(before, sink.out, whole, done, Nothing(), sink.steady);
    }
  }
}
