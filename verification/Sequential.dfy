/**
 The guard of the fast read (Image::is_sequential in src/image.rs, Map::part_layout in src/map.rs): does the
 image's order follow each stored stream's own order?
 */
module Sequential {
  import opened Basics
  import opened Streams
  import opened Maps
  import opened Runs

  datatype PartLayout = Single | InOrder | Striped

  // ----- layout -----

  /** The target ids of the stored entries; described ones carry no label. */
  function StoredIds(m: Map): (labels: seq<Option<nat>>)
    ensures |labels| == |m.entries|
  {
    seq(|m.entries|, i requires 0 <= i < |m.entries| =>
      if m.StoredAt(i).Some? then Some(m.entries[i].targetId) else None)
  }

  /** The stream names of the stored entries. */
  function StoredNames(m: Map): (labels: seq<Option<string>>)
    ensures |labels| == |m.entries|
  {
    seq(|m.entries|, i requires 0 <= i < |m.entries| => m.StoredAt(i))
  }

  /**
   How the stored targets are laid out: striped exactly when one comes back after another took over, and
   single when there are fewer than two.
   */
  method LayoutOf(m: Map) returns (layout: PartLayout)
    ensures layout.Striped? <==> !Grouped(StoredIds(m))
    ensures layout.Single? <==> AllSame(StoredIds(m))
  {
    ghost var labels := StoredIds(m);
    var runs: seq<nat> := [];
    for p := 0 to |m.entries|
      invariant runs == RunsOf(labels[..p])
    {
      assert labels[..p + 1][..p] == labels[..p];
      if m.StoredAt(p).Some? && !(runs != [] && runs[|runs| - 1] == m.entries[p].targetId) {
        runs := runs + [m.entries[p].targetId];
      }
    }
    assert labels[..|labels|] == labels;
    GroupedIsDistinctRuns(labels);
    DistinctLength(runs);
    var distinct := ToSet(runs);
    if |distinct| < 2 {
      FewRunsAllSame(labels);
      layout := Single;
    } else if |runs| == |distinct| {
      layout := InOrder;
    } else {
      layout := Striped;
    }
    ghost var same := AllSame(labels);
    if same {
      AllSameFewRuns(labels);
    }
  }

  // ----- the guard -----

  /** How many bytes of stream `s` the first `n` entries read. */
  function Covered(m: Map, s: string, n: nat): nat
    requires n <= |m.entries|
  {
    if n == 0 then 0
    else Covered(m, s, n - 1) + if m.StoredAt(n - 1) == Some(s) then m.entries[n - 1].length else 0
  }

  lemma {:induction false} CoveredGrows(m: Map, s: string, n: nat, k: nat)
    requires n <= k <= |m.entries|
    ensures Covered(m, s, n) <= Covered(m, s, k)
  {
    if n < k {
      CoveredGrows(m, s, n, k - 1);
    }
  }

  /** Entries not naming the stream add nothing to it. */
  lemma {:induction false} CoveredSame(m: Map, s: string, n: nat, k: nat)
    requires n <= k <= |m.entries|
    requires forall i :: n <= i < k ==> m.StoredAt(i) != Some(s)
    ensures Covered(m, s, n) == Covered(m, s, k)
  {
    if n < k {
      CoveredSame(m, s, n, k - 1);
    }
  }

  ghost predicate Named(m: Map, s: string, n: nat)
    requires n <= |m.entries|
  {
    exists i :: 0 <= i < n && m.StoredAt(i) == Some(s)
  }

  /** Entry `i`'s bytes can be produced, and a stored entry continues its stream where the last one left it. */
  ghost predicate InStep(m: Map, i: nat)
    requires i < |m.entries|
  {
    && (m.StoredAt(i).Some? || m.DescribedAt(i))
    && (m.StoredAt(i).Some? ==>
          && m.entries[i].targetOffset == Covered(m, m.StoredAt(i).value, i)
          && Covered(m, m.StoredAt(i).value, i + 1) <= U64_MAX)
  }

  /**
   Image order is each stored stream's own order: the layout is not striped; every target is stored or
   described; a stream's entries form one group, interrupted only by described ones; within it they tile the
   stream from 0 upward; and a stream the map names is covered to exactly its declared size.
   */
  ghost predicate InStreamOrder(m: Map, streams: seq<ImageStream>) {
    && Grouped(StoredIds(m))
    && Grouped(StoredNames(m))
    && (forall i :: 0 <= i < |m.entries| ==> InStep(m, i))
    && (forall st :: st in streams && Named(m, st.arn, |m.entries|) ==> Covered(m, st.arn, |m.entries|) == st.size)
  }

  /** What the walk remembers of the first `p` entries. */
  ghost predicate Remembers(m: Map, p: nat, seen: seq<string>, expected: map<string, nat>)
    requires p <= |m.entries|
  {
    && seen == RunsOf(StoredNames(m)[..p])
    && Distinct(seen)
    && (forall i :: 0 <= i < p ==> InStep(m, i))
    && Expects(m, p, expected)
  }

  ghost predicate Expects(m: Map, p: nat, expected: map<string, nat>)
    requires p <= |m.entries|
  {
    && (forall s :: s in expected <==> Named(m, s, p))
    && (forall s :: s in expected ==> expected[s] == Covered(m, s, p))
  }

  lemma NamesStep(m: Map, p: nat)
    requires p < |m.entries|
    ensures var runs, s := RunsOf(StoredNames(m)[..p]), m.StoredAt(p);
            RunsOf(StoredNames(m)[..p + 1]) ==
            if s.None? || (runs != [] && runs[|runs| - 1] == s.value) then runs else runs + [s.value]
  {
    var names := StoredNames(m);
    assert names[..p + 1][..p] == names[..p];
    assert names[..p + 1][p] == m.StoredAt(p);
  }

  lemma NamedStep(m: Map, p: nat, t: string)
    requires p < |m.entries|
    ensures Named(m, t, p + 1) <==> Named(m, t, p) || m.StoredAt(p) == Some(t)
  {
    if Named(m, t, p) {
      var i :| 0 <= i < p && m.StoredAt(i) == Some(t);
    }
  }

  lemma ExpectStored(m: Map, p: nat, expected: map<string, nat>, s: string)
    requires p < |m.entries| && Expects(m, p, expected)
    requires m.StoredAt(p) == Some(s)
    ensures Expects(m, p + 1, expected[s := Covered(m, s, p + 1)])
  {
    var after := expected[s := Covered(m, s, p + 1)];
    forall t
      ensures t in after <==> Named(m, t, p + 1)
      ensures t in after ==> after[t] == Covered(m, t, p + 1)
    {
      NamedStep(m, p, t);
      if t != s {
        CoveredStep(m, p, t);
      }
    }
  }

  lemma CoveredStep(m: Map, p: nat, t: string)
    requires p < |m.entries| && m.StoredAt(p) != Some(t)
    ensures Covered(m, t, p + 1) == Covered(m, t, p)
  {
  }

  lemma ExpectDescribed(m: Map, p: nat, expected: map<string, nat>)
    requires p < |m.entries| && Expects(m, p, expected)
    requires m.StoredAt(p) == None
    ensures Expects(m, p + 1, expected)
  {
    forall t
      ensures t in expected <==> Named(m, t, p + 1)
      ensures t in expected ==> expected[t] == Covered(m, t, p + 1)
    {
      NamedStep(m, p, t);
    }
  }

  lemma RememberStored(m: Map, p: nat, seen: seq<string>, seen': seq<string>, expected: map<string, nat>, s: string)
    requires p < |m.entries| && Remembers(m, p, seen, expected)
    requires m.StoredAt(p) == Some(s) && InStep(m, p)
    requires seen' == if seen != [] && seen[|seen| - 1] == s then seen else seen + [s]
    requires Distinct(seen')
    ensures Remembers(m, p + 1, seen', expected[s := Covered(m, s, p + 1)])
  {
    NamesStep(m, p);
    ExpectStored(m, p, expected, s);
  }

  lemma RememberDescribed(m: Map, p: nat, seen: seq<string>, expected: map<string, nat>)
    requires p < |m.entries| && Remembers(m, p, seen, expected)
    requires m.DescribedAt(p)
    ensures Remembers(m, p + 1, seen, expected)
  {
    NamesStep(m, p);
    ExpectDescribed(m, p, expected);
  }

  /** A stream that comes back breaks the grouping. */
  lemma ComesBack(m: Map, p: nat, seen: seq<string>, s: string)
    requires p < |m.entries|
    requires seen == RunsOf(StoredNames(m)[..p]) && m.StoredAt(p) == Some(s)
    requires seen != [] && seen[|seen| - 1] != s && s in seen
    ensures !Grouped(StoredNames(m))
  {
    var names := StoredNames(m);
    NamesStep(m, p);
    RunsPrefix(names, p + 1);
    var runs := RunsOf(names);
    assert (seen + [s])[|seen|] == s;
    var r :| 0 <= r < |seen| && seen[r] == s;
    assert runs[r] == runs[|seen|];
    GroupedIsDistinctRuns(names);
  }

  /** Whether image order is each stored stream's own order. */
  method IsSequential(m: Map, streams: seq<ImageStream>) returns (sequential: bool)
    ensures sequential <==> InStreamOrder(m, streams)
  {
    var layout := LayoutOf(m);
    if layout.Striped? {
      return false;
    }
    var seen: seq<string> := [];
    var expected: map<string, nat> := map[];
    for p := 0 to |m.entries|
      invariant Remembers(m, p, seen, expected)
    {
      var target := m.TargetAt(p);
      if target.Some? && target.value.Stored? {
        var stream := target.value.arn;
        var seen' := seen;
        if !(seen != [] && seen[|seen| - 1] == stream) {
          if stream in seen {
            ComesBack(m, p, seen, stream);
            return false;
          }
          seen' := seen + [stream];
        }
        var next := if stream in expected then expected[stream] else 0;
        NextIsCovered(m, p, seen, expected, stream);
        if next != m.entries[p].targetOffset || next + m.entries[p].length > U64_MAX {
          assert !InStep(m, p);
          return false;
        }
        RememberStored(m, p, seen, seen', expected, stream);
        seen, expected := seen', expected[stream := next + m.entries[p].length];
      } else if target.Some? && (target.value.RepeatedByte? || target.value.Unknown?) {
        RememberDescribed(m, p, seen, expected);
      } else {
        assert !InStep(m, p);
        return false;
      }
    }
    var names := StoredNames(m);
    assert names[..|names|] == names;
    GroupedIsDistinctRuns(names);
    sequential := forall st | st in streams :: st.arn in expected ==> expected[st.arn] == st.size;
  }

  lemma NextIsCovered(m: Map, p: nat, seen: seq<string>, expected: map<string, nat>, s: string)
    requires p < |m.entries| && Remembers(m, p, seen, expected)
    ensures (if s in expected then expected[s] else 0) == Covered(m, s, p)
  {
    if s !in expected {
      CoveredSame(m, s, 0, p);
    }
  }
}
