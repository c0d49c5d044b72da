/**
 Parsing a map's entries (Map::parse_with and resolve_coverage in src/map.rs): sort, check that the address
 space is covered once, and fill the holes where the policy allows it.
 */
module Coverage {
  import opened Basics
  import opened Sorting
  import opened Maps

  datatype GapPolicy = Refuse | FillWith(target: Target)

  datatype Malformed =
    | NoTargets | NoEntries | ZeroLength | BadTarget | ExtentOverflow
    | Hole | Overlap | TooManyTargets | CoverageDiffers

  predicate ByOffset(a: MapEntry, b: MapEntry) {
    a.offset <= b.offset
  }

  // ----- what a map may be -----

  ghost predicate Apart(x: MapEntry, y: MapEntry) {
    x.End() <= y.offset || y.End() <= x.offset
  }

  predicate Holds(e: MapEntry, a: nat) {
    e.offset <= a < e.End()
  }

  /** No address is covered twice. */
  ghost predicate Disjoint(entries: seq<MapEntry>) {
    && (forall x, y :: x in entries && y in entries && x != y ==> Apart(x, y))
    && (forall x :: x in entries ==> multiset(entries)[x] == 1)
  }

  /** No address below `size` is left out. */
  ghost predicate Complete(entries: seq<MapEntry>, size: nat) {
    forall a :: 0 <= a < size ==> Covered(entries, a)
  }

  ghost predicate Covered(entries: seq<MapEntry>, a: nat) {
    exists e :: e in entries && Holds(e, a)
  }

  ghost predicate Usable(e: MapEntry, targets: seq<Target>) {
    e.length > 0 && e.targetId < |targets| && e.End() <= U64_MAX
  }

  /** The coverage a policy accepts. */
  ghost predicate Fits(entries: seq<MapEntry>, targets: seq<Target>, size: nat, policy: GapPolicy) {
    && Disjoint(entries)
    && (forall e :: e in entries ==> e.End() <= size)
    && (Complete(entries, size) || (policy.FillWith? && |targets| <= U32_MAX))
  }

  // ----- chains of entries -----

  /** Entries laid end to end from 0 to `end`. */
  ghost predicate Chain(entries: seq<MapEntry>, end: nat) {
    if entries == [] then end == 0
    else
      var last := entries[|entries| - 1];
      last.length > 0 && last.End() == end && Chain(entries[..|entries| - 1], last.offset)
  }

  lemma ChainSnoc(entries: seq<MapEntry>, e: MapEntry)
    requires Chain(entries, e.offset) && e.length > 0
    ensures Chain(entries + [e], e.End())
  {
    assert (entries + [e])[..|entries|] == entries;
  }

  /** What index `i` of a chain says about its neighbours. */
  lemma {:induction false} ChainLinks(entries: seq<MapEntry>, end: nat, i: nat)
    requires Chain(entries, end) && i < |entries|
    ensures entries[i].length > 0
    ensures i == 0 ==> entries[0].offset == 0
    ensures entries[i].End() == if i + 1 < |entries| then entries[i + 1].offset else end
    decreases |entries|
  {
    var last := |entries| - 1;
    if i < last {
      ChainLinks(entries[..last], entries[last].offset, i);
    } else if last > 0 {
      ChainLinks(entries[..last], entries[last].offset, last - 1);
    }
  }

  lemma {:induction false} ChainOrder(entries: seq<MapEntry>, end: nat, i: nat, k: nat)
    requires Chain(entries, end) && i < k < |entries|
    ensures entries[i].End() <= entries[k].offset
    decreases k - i
  {
    ChainLinks(entries, end, i);
    if i + 1 < k {
      ChainOrder(entries, end, i + 1, k);
      ChainLinks(entries, end, i + 1);
    }
  }

  lemma {:induction false} ChainEnd(entries: seq<MapEntry>, end: nat, i: nat)
    requires Chain(entries, end) && i < |entries|
    ensures entries[i].End() <= end
  {
    var last := |entries| - 1;
    ChainLinks(entries, end, last);
    if i < last {
      ChainOrder(entries, end, i, last);
    }
  }

  /** A chain covers every address up to its end. */
  lemma {:induction false} ChainComplete(entries: seq<MapEntry>, end: nat)
    requires Chain(entries, end)
    ensures Complete(entries, end)
  {
    forall a | 0 <= a < end
      ensures Covered(entries, a)
    {
      var last := |entries| - 1;
      if a < entries[last].offset {
        ChainComplete(entries[..last], entries[last].offset);
        assert Covered(entries[..last], a);
        var e :| e in entries[..last] && Holds(e, a);
        assert e in entries;
      } else {
        assert Holds(entries[last], a);
      }
    }
  }

  lemma ChainSorted(entries: seq<MapEntry>, end: nat)
    requires Chain(entries, end)
    ensures Sorted(entries, ByOffset)
    ensures forall x, y :: x in entries && y in entries && ByOffset(x, y) && ByOffset(y, x) ==> x == y
    ensures Distinct(entries)
    ensures forall x, y :: x in entries && y in entries && x != y ==> Apart(x, y)
  {
    forall i, j | 0 <= i < j < |entries|
      ensures entries[i].End() <= entries[j].offset && entries[i].offset < entries[j].offset
    {
      ChainLinks(entries, end, i);
      ChainOrder(entries, end, i, j);
    }
    forall x, y | x in entries && y in entries && x != y
      ensures Apart(x, y) && x.offset != y.offset
    {
      var i :| 0 <= i < |entries| && entries[i] == x;
      var j :| 0 <= j < |entries| && entries[j] == y;
    }
  }

  lemma {:induction false} DistinctOnce<T>(s: seq<T>, x: T)
    requires Distinct(s) && x in s
    ensures multiset(s)[x] == 1
  {
    var i :| 0 <= i < |s| && s[i] == x;
    assert s == s[..i] + [x] + s[i + 1..];
    assert x !in s[..i] && x !in s[i + 1..];
  }

  lemma {:induction false} RepeatedTwice<T>(s: seq<T>, i: nat)
    requires i + 1 < |s| && s[i] == s[i + 1]
    ensures multiset(s)[s[i]] >= 2
  {
    assert s == s[..i] + [s[i], s[i + 1]] + s[i + 2..];
  }

  /** A part of a chain covers nothing twice. */
  lemma SubsetDisjoint(some: seq<MapEntry>, chain: seq<MapEntry>, end: nat)
    requires Chain(chain, end)
    requires multiset(some) <= multiset(chain)
    ensures Disjoint(some)
    ensures forall e :: e in some ==> e.End() <= end
  {
    ChainSorted(chain, end);
    forall x | x in some
      ensures x in chain && multiset(some)[x] == 1 && x.End() <= end
    {
      assert x in multiset(some);
      DistinctOnce(chain, x);
      var i :| 0 <= i < |chain| && chain[i] == x;
      ChainEnd(chain, end, i);
    }
  }

  lemma ByOffsetOrders()
    ensures Total(ByOffset) && Transitive(ByOffset)
  {
  }

  // ----- the walk -----

  datatype Resolved = Resolved(entries: seq<MapEntry>, targets: seq<Target>, covered: nat, gapTargetId: Option<nat>,
                               gapCount: nat, gapBytes: nat)

  /** A filled hole: at the start of the gap target, which was appended to the list. */
  predicate IsGap(e: MapEntry, targets: seq<Target>) {
    e.targetOffset == 0 && e.targetId == |targets|
  }

  function SumLengths(entries: seq<MapEntry>): nat {
    if entries == [] then 0 else SumLengths(entries[..|entries| - 1]) + entries[|entries| - 1].length
  }

  /** `entries` is `raw` with gap entries added, and `targets` grew only if there are any. */
  ghost predicate Extends(raw: seq<MapEntry>, targets: seq<Target>, policy: GapPolicy, r: Resolved) {
    exists filled: seq<MapEntry> ::
      && multiset(r.entries) == multiset(raw) + multiset(filled)
      && Filled(filled, targets, policy, r)
  }

  ghost predicate Filled(filled: seq<MapEntry>, targets: seq<Target>, policy: GapPolicy, r: Resolved) {
    && (forall e :: e in filled ==> IsGap(e, targets))
    && r.gapCount == |filled| && r.gapBytes == SumLengths(filled)
    && if filled == [] then r.targets == targets && r.gapTargetId == None
       else policy.FillWith? && |targets| <= U32_MAX && r.targets == targets + [policy.target] && r.gapTargetId == Some(|targets|)
  }

  /** The first address not covered by the first `p` entries of a sorted list is not covered by the rest. */
  lemma HoleIsUncovered(entries: seq<MapEntry>, p: nat, end: nat)
    requires Sorted(entries, ByOffset)
    requires p <= |entries|
    requires forall q :: 0 <= q < p ==> entries[q].End() <= end
    requires p < |entries| ==> entries[p].offset > end
    ensures !Covered(entries, end)
  {
    forall e | e in entries
      ensures !Holds(e, end)
    {
      var q :| 0 <= q < |entries| && entries[q] == e;
      if q > p {
        assert ByOffset(entries[p], entries[q]);
      }
    }
  }

  /** An entry starting before the previous one ends covers something twice. */
  lemma OverlapIsTwice(entries: seq<MapEntry>, p: nat)
    requires Sorted(entries, ByOffset)
    requires 0 < p < |entries|
    requires entries[p - 1].length > 0 && entries[p].length > 0
    requires entries[p].offset < entries[p - 1].End()
    ensures !Disjoint(entries)
  {
    var x, y := entries[p - 1], entries[p];
    assert ByOffset(x, y);
    if x == y {
      RepeatedTwice(entries, p - 1);
      assert x in entries && multiset(entries)[x] >= 2;
    } else {
      assert x in entries && y in entries && !Apart(x, y);
    }
  }

  /** The walk after `p` entries: `merged` is what the finished list will start with. */
  ghost predicate Walked(entries: seq<MapEntry>, p: nat, merged: seq<MapEntry>, filled: seq<MapEntry>, end: nat)
    requires p <= |entries|
  {
    && Chain(merged, end)
    && multiset(merged) == multiset(entries[..p]) + multiset(filled)
    && (forall q :: 0 <= q < p ==> entries[q].End() <= end)
    && (p > 0 ==> entries[p - 1].End() == end)
    && (p == 0 ==> end == 0)
  }

  lemma WalkOn(entries: seq<MapEntry>, p: nat, merged: seq<MapEntry>, filled: seq<MapEntry>, end: nat)
    requires p < |entries| && Walked(entries, p, merged, filled, end)
    requires entries[p].length > 0 && entries[p].offset == end
    ensures Walked(entries, p + 1, merged + [entries[p]], filled, entries[p].End())
  {
    ChainSnoc(merged, entries[p]);
    assert entries[..p + 1] == entries[..p] + [entries[p]];
  }

  /** A hole before entry `p`, filled, then the entry itself. */
  lemma FillOn(entries: seq<MapEntry>, p: nat, merged: seq<MapEntry>, filled: seq<MapEntry>, end: nat, gap: MapEntry)
    requires p < |entries| && Walked(entries, p, merged, filled, end)
    requires gap.offset == end && gap.length > 0 && gap.End() == entries[p].offset
    requires entries[p].length > 0
    ensures Walked(entries, p + 1, merged + [gap] + [entries[p]], filled + [gap], entries[p].End())
  {
    ChainSnoc(merged, gap);
    ChainSnoc(merged + [gap], entries[p]);
    assert entries[..p + 1] == entries[..p] + [entries[p]];
  }

  lemma SumLengthsSnoc(filled: seq<MapEntry>, gap: MapEntry)
    ensures SumLengths(filled + [gap]) == SumLengths(filled) + gap.length
  {
    assert (filled + [gap])[..|filled|] == filled;
  }

  /** The sorted list of entries and gaps is the chain the walk built. */
  lemma SortedIsChain(entries: seq<MapEntry>, filled: seq<MapEntry>, merged: seq<MapEntry>, end: nat)
    requires Chain(merged, end)
    requires multiset(merged) == multiset(entries) + multiset(filled)
    ensures Sort(entries + filled, ByOffset) == merged
  {
    ByOffsetOrders();
    ChainSorted(merged, end);
    SortSorts(entries + filled, ByOffset);
    SortedUnique(merged, Sort(entries + filled, ByOffset), ByOffset);
  }

  lemma SortOfSorted(entries: seq<MapEntry>, merged: seq<MapEntry>, end: nat)
    requires Sorted(entries, ByOffset)
    requires Chain(merged, end) && multiset(merged) == multiset(entries)
    ensures entries == merged
  {
    ChainSorted(merged, end);
    SortedUnique(merged, entries, ByOffset);
  }

  lemma HoleBreaksCover(entries: seq<MapEntry>, p: nat, end: nat, targets: seq<Target>, size: nat, policy: GapPolicy)
    requires Sorted(entries, ByOffset)
    requires p < |entries| && entries[p].offset > end
    requires forall q :: 0 <= q < p ==> entries[q].End() <= end
    ensures Fits(entries, targets, size, policy) ==> policy.FillWith? && |targets| <= U32_MAX
  {
    HoleIsUncovered(entries, p, end);
    if Fits(entries, targets, size, policy) {
      assert entries[p] in entries;
    }
  }

  /** The target covering holes, appended to the list on first use. */
  method GapTargetOf(targets: seq<Target>, gapTargetId: Option<nat>, gap: Target)
    returns (all: seq<Target>, id: Option<nat>)
    ensures gapTargetId.Some? ==> all == targets && id == gapTargetId
    ensures gapTargetId.None? ==> all == targets + [gap] && id == Some(|targets|)
  {
    if gapTargetId.Some? {
      return targets, gapTargetId;
    }
    all, id := targets + [gap], Some(|targets|);
  }

  /** Record a gap entry over `[from, to)`; it fails only when no more target ids are left. */
  method FillGap(filled: seq<MapEntry>, ghost targets: seq<Target>, policy: GapPolicy, walked: Resolved,
                 from: nat, to: nat)
    returns (fault: Option<Malformed>, gap: MapEntry, walked': Resolved)
    requires Filled(filled, targets, policy, walked) && policy.FillWith? && from < to <= U64_MAX
    ensures fault.Some? <==> |targets| > U32_MAX
    ensures gap.offset == from && gap.length == to - from
    ensures fault.None? ==> Filled(filled + [gap], targets, policy, walked')
  {
    gap := MapEntry(from, to - from, 0, 0);
    if walked.gapTargetId.None? && |walked.targets| > U32_MAX {
      return Some(TooManyTargets), gap, walked;
    }
    var all, id := GapTargetOf(walked.targets, walked.gapTargetId, policy.target);
    gap := MapEntry(from, to - from, 0, id.value);
    SumLengthsSnoc(filled, gap);
    fault := None;
    walked' := walked.(targets := all, gapTargetId := id, gapCount := |filled| + 1,
                       gapBytes := walked.gapBytes + gap.length);
  }

  /** What the walk establishes when the address space fits the policy. */
  ghost predicate Laid(entries: seq<MapEntry>, targets: seq<Target>, policy: GapPolicy, r: Resolved) {
    Chain(r.entries, r.covered) && Extends(entries, targets, policy, r)
  }

  lemma SameMembers<T>(a: seq<T>, b: seq<T>)
    requires multiset(a) == multiset(b)
    ensures forall x :: x in a <==> x in b
  {
    forall x
      ensures x in a <==> x in b
    {
      assert x in a <==> x in multiset(a);
      assert x in b <==> x in multiset(b);
    }
  }

  /** What was laid to the declared size fitted. */
  lemma LaidFits(raw: seq<MapEntry>, targets: seq<Target>, size: nat, policy: GapPolicy, r: Resolved)
    requires Laid(raw, targets, policy, r) && r.covered == size
    ensures Fits(raw, targets, size, policy)
  {
    var filled: seq<MapEntry> :| multiset(r.entries) == multiset(raw) + multiset(filled) && Filled(filled, targets, policy, r);
    SubsetDisjoint(raw, r.entries, size);
    if filled == [] {
      ChainComplete(r.entries, size);
      SameMembers(raw, r.entries);
      forall i | 0 <= i < size
        ensures Covered(raw, i)
      {
        assert Covered(r.entries, i);
      }
    }
  }

  /** One turn of the walk: the hole before entry `p`, if any, is filled or refused, and an overlap is refused. */
  method TakeEntry(entries: seq<MapEntry>, p: nat, ghost targets: seq<Target>, ghost declaredSize: U64, policy: GapPolicy,
                   ghost merged: seq<MapEntry>, filled: seq<MapEntry>, end: nat, walked: Resolved)
    returns (fault: Option<Malformed>, ghost merged': seq<MapEntry>, filled': seq<MapEntry>, walked': Resolved)
    requires p < |entries| && Sorted(entries, ByOffset) && entries[p].length > 0
    requires Walked(entries, p, merged, filled, end) && Filled(filled, targets, policy, walked)
    ensures fault.None? ==> entries[p].offset >= end
    ensures fault.None? ==>
              Walked(entries, p + 1, merged', filled', entries[p].End()) && Filled(filled', targets, policy, walked')
    ensures fault.Some? ==> !Fits(entries, targets, declaredSize, policy)
  {
    fault, merged', filled', walked' := None, merged, filled, walked;
    var e := entries[p];
    if e.offset > end {
      HoleBreaksCover(entries, p, end, targets, declaredSize, policy);
      if policy.Refuse? {
        fault := Some(Hole);
        return;
      }
      var gap;
      fault, gap, walked' := FillGap(filled, targets, policy, walked, end, e.offset);
      if fault.None? {
        FillOn(entries, p, merged, filled, end, gap);
        merged', filled' := merged + [gap] + [e], filled + [gap];
      }
    } else if e.offset < end {
      OverlapIsTwice(entries, p);
      fault := Some(Overlap);
    } else {
      WalkOn(entries, p, merged, filled, end);
      merged' := merged + [e];
    }
  }

  /** Add an entry, and the hole before it, to what is covered; the checked sum does not overflow. */
  method SumOn(covered: U64, end: U64, e: MapEntry) returns (sum: U64)
    requires covered == end <= e.offset && e.End() <= U64_MAX
    ensures sum == e.End()
  {
    sum := if e.offset > end then SatAdd(covered, e.offset - end) else covered;
    assert sum + e.length <= U64_MAX;
    sum := sum + e.length;
  }

  /** The walk over the sorted entries, with what it has covered summed up beside it. */
  method WalkEntries(entries: seq<MapEntry>, ghost targets: seq<Target>, ghost declaredSize: U64, policy: GapPolicy,
                     start: Resolved)
    returns (fault: Option<Malformed>, ghost merged: seq<MapEntry>, filled: seq<MapEntry>, walked: Resolved,
             end: U64, covered: U64)
    requires Sorted(entries, ByOffset) && start == Resolved([], targets, 0, None, 0, 0)
    requires forall e :: e in entries ==> Usable(e, targets)
    ensures fault.None? ==> Walked(entries, |entries|, merged, filled, end) && Filled(filled, targets, policy, walked)
    ensures fault.None? ==> covered == end
    ensures fault.Some? ==> !Fits(entries, targets, declaredSize, policy)
  {
    fault, merged, filled, walked, end, covered := None, [], [], start, 0, 0;
    for p := 0 to |entries|
      invariant fault.None? && covered == end
      invariant Walked(entries, p, merged, filled, end)
      invariant Filled(filled, targets, policy, walked)
    {
      assert Usable(entries[p], targets);
      fault, merged, filled, walked :=
        TakeEntry(entries, p, targets, declaredSize, policy, merged, filled, end, walked);
      if fault.Some? {
        return;
      }
      covered := SumOn(covered, end, entries[p]);
      end := entries[p].End();
    }
  }

  /**
   Check the sorted entries cover the address space once, filling holes under a filling policy. The
   coverage, summed entry by entry and gap by gap, comes out as the declared size exactly when the entries fit. The
   source refuses a sum past 64 bits; being the end of the last entry taken, it never is.
   */
  method ResolveCoverage(entries: seq<MapEntry>, targets: seq<Target>, declaredSize: U64, policy: GapPolicy)
    returns (r: Result<Resolved, Malformed>)
    requires entries != [] && Sorted(entries, ByOffset)
    requires forall e :: e in entries ==> Usable(e, targets)
    ensures r.Success? ==> Laid(entries, targets, policy, r.value)
    ensures r.Success? && r.value.covered == declaredSize <==> Fits(entries, targets, declaredSize, policy)
  {
    var start := Resolved([], targets, 0, None, 0, 0);
    var fault, filled, walked, end, covered;
    ghost var merged;
    fault, merged, filled, walked, end, covered := WalkEntries(entries, targets, declaredSize, policy, start);
    if fault.Some? {
      return Failure(fault.value);
    }
    r := FinishCoverage(entries, targets, declaredSize, policy, merged, filled, end,
                        walked.(entries := entries, covered := covered));
    if r.Success? && r.value.covered == declaredSize {
      LaidFits(entries, targets, declaredSize, policy, r.value);
    }
  }

  /** Entries that fit, the last ending at `end`, either reach the declared size or leave a hole to fill. */
  lemma EndOfFitting(entries: seq<MapEntry>, targets: seq<Target>, declaredSize: nat, policy: GapPolicy, end: nat)
    requires entries != [] && Sorted(entries, ByOffset) && entries[|entries| - 1].End() == end
    requires forall e :: e in entries ==> e.End() <= end
    requires Fits(entries, targets, declaredSize, policy)
    ensures end <= declaredSize
    ensures end < declaredSize ==> policy.FillWith? && |targets| <= U32_MAX
  {
    assert entries[|entries| - 1] in entries;
    assert forall q :: 0 <= q < |entries| ==> entries[q] in entries;
    HoleIsUncovered(entries, |entries|, end);
  }

  /** A hole at the end of the address space is still a hole. */
  method FinishCoverage(entries: seq<MapEntry>, targets: seq<Target>, declaredSize: U64, policy: GapPolicy,
                        ghost merged: seq<MapEntry>, filled: seq<MapEntry>, end: U64, walked: Resolved)
    returns (r: Result<Resolved, Malformed>)
    requires entries != [] && Sorted(entries, ByOffset)
    requires Walked(entries, |entries|, merged, filled, end)
    requires Filled(filled, targets, policy, walked)
    requires walked.entries == entries && walked.covered == end
    ensures r.Success? ==> Laid(entries, targets, policy, r.value)
    ensures Fits(entries, targets, declaredSize, policy) ==> r.Success? && r.value.covered == declaredSize
  {
    assert entries[..|entries|] == entries;
    if Fits(entries, targets, declaredSize, policy) {
      EndOfFitting(entries, targets, declaredSize, policy, end);
    }
    if end >= declaredSize || policy.Refuse? {
      r := Success(Settle(entries, filled, walked));
      SettledIsLaid(entries, targets, policy, merged, filled, end, walked);
      return;
    }
    var fault, gap, filledOut := FillGap(filled, targets, policy, walked, end, declaredSize);
    if fault.Some? {
      return Failure(fault.value);
    }
    var covered := SatAdd(walked.covered, gap.length);
    ChainSnoc(merged, gap);
    SettledIsLaid(entries, targets, policy, merged + [gap], filled + [gap], declaredSize,
                  filledOut.(entries := entries, covered := covered));
    r := Success(Settle(entries, filled + [gap], filledOut.(entries := entries, covered := covered)));
  }

  /** Gap entries go among the others by offset; with none the list is left as it is. */
  function Settle(entries: seq<MapEntry>, filled: seq<MapEntry>, walked: Resolved): Resolved {
    if filled == [] then walked else walked.(entries := Sort(entries + filled, ByOffset))
  }

  lemma SettledIsLaid(entries: seq<MapEntry>, targets: seq<Target>, policy: GapPolicy, merged: seq<MapEntry>,
                      filled: seq<MapEntry>, end: nat, walked: Resolved)
    requires Sorted(entries, ByOffset) && Chain(merged, end)
    requires multiset(merged) == multiset(entries) + multiset(filled)
    requires Filled(filled, targets, policy, walked) && walked.entries == entries && walked.covered == end
    ensures Laid(entries, targets, policy, Settle(entries, filled, walked))
  {
    var r := Settle(entries, filled, walked);
    if filled == [] {
      SortOfSorted(entries, merged, end);
    } else {
      SortedIsChain(entries, filled, merged, end);
    }
    assert r.entries == merged;
    assert Filled(filled, targets, policy, r);
  }

  // ----- parsing -----

  ghost predicate WellFormed(raw: seq<MapEntry>, targets: seq<Target>) {
    targets != [] && raw != [] && forall e :: e in raw ==> Usable(e, targets)
  }

  lemma FitsPermutes(a: seq<MapEntry>, b: seq<MapEntry>, targets: seq<Target>, size: nat, policy: GapPolicy)
    requires multiset(a) == multiset(b)
    requires Fits(a, targets, size, policy)
    ensures Fits(b, targets, size, policy)
  {
    SameMembers(a, b);
    if Complete(a, size) {
      forall i | 0 <= i < size
        ensures Covered(b, i)
      {
        assert Covered(a, i);
      }
    }
  }

  lemma LaidIsTiled(raw: seq<MapEntry>, targets: seq<Target>, size: U64, policy: GapPolicy, r: Resolved)
    requires WellFormed(raw, targets)
    requires Laid(raw, targets, policy, r) && r.covered == size
    ensures Tiled(Map(r.entries, r.targets, size, r.gapTargetId))
  {
    var m := Map(r.entries, r.targets, size, r.gapTargetId);
    var filled: seq<MapEntry> :| multiset(r.entries) == multiset(raw) + multiset(filled) && Filled(filled, targets, policy, r);
    assert raw[0] in multiset(raw);
    assert raw[0] in multiset(r.entries);
    assert raw[0] in r.entries;
    ChainLinks(r.entries, size, 0);
    forall i | 0 <= i < |m.entries|
      ensures m.entries[i].length > 0 && m.entries[i].targetId < |m.targets| && MeetsNext(m, i)
    {
      ChainLinks(r.entries, size, i);
      assert m.entries[i] in multiset(r.entries);
      if m.entries[i] in raw {
        assert Usable(m.entries[i], targets);
      } else {
        assert m.entries[i] in multiset(filled);
        assert m.entries[i] in filled;
      }
    }
  }

  /**
   Parse a map from its decoded entries. It succeeds exactly when the entries are well formed and fit the
   policy, whatever order they are stored in; the result tiles the declared size and is the stored entries
   with gap entries added, which name the one appended target.
   */
  method ParseWith(raw: seq<MapEntry>, targets: seq<Target>, declaredSize: U64, policy: GapPolicy)
    returns (r: Result<Map, Malformed>)
    ensures r.Success? <==> WellFormed(raw, targets) && Fits(raw, targets, declaredSize, policy)
    ensures r.Success? ==> Tiled(r.value) && r.value.size == declaredSize
    ensures r.Success? ==> exists resolved ::
              && Extends(raw, targets, policy, resolved)
              && r.value == Map(resolved.entries, resolved.targets, declaredSize, resolved.gapTargetId)
  {
    if targets == [] {
      return Failure(NoTargets);
    }
    if raw == [] {
      return Failure(NoEntries);
    }
    for index := 0 to |raw|
      invariant forall k :: 0 <= k < index ==> Usable(raw[k], targets)
    {
      assert raw[index] in raw;
      if raw[index].length == 0 {
        return Failure(ZeroLength);
      }
      if raw[index].targetId >= |targets| {
        return Failure(BadTarget);
      }
      if raw[index].End() > U64_MAX {
        return Failure(ExtentOverflow);
      }
    }
    var sorted := Sort(raw, ByOffset);
    ByOffsetOrders();
    SortSorts(raw, ByOffset);
    SameMembers(sorted, raw);
    var resolved := ResolveCoverage(sorted, targets, declaredSize, policy);
    ghost var fits := Fits(raw, targets, declaredSize, policy);
    if fits {
      FitsPermutes(raw, sorted, targets, declaredSize, policy);
    }
    if resolved.Failure? {
      return Failure(resolved.error);
    }
    if resolved.value.covered != declaredSize {
      return Failure(CoverageDiffers);
    }
    LaidPermutes(sorted, raw, targets, policy, resolved.value);
    LaidFits(raw, targets, declaredSize, policy, resolved.value);
    LaidIsTiled(raw, targets, declaredSize, policy, resolved.value);
    r := Success(Map(resolved.value.entries, resolved.value.targets, declaredSize, resolved.value.gapTargetId));
  }

  lemma LaidPermutes(a: seq<MapEntry>, b: seq<MapEntry>, targets: seq<Target>, policy: GapPolicy, r: Resolved)
    requires multiset(a) == multiset(b)
    requires Laid(a, targets, policy, r)
    ensures Laid(b, targets, policy, r)
  {
  }
}
