/** Runs of equal labels in a list where some places carry none. */
module Runs {
  import opened Basics

  /** The labels in order, a label repeated in a row kept once. */
  function RunsOf<T(==)>(labels: seq<Option<T>>): seq<T> {
    if labels == [] then []
    else
      var runs, last := RunsOf(labels[..|labels| - 1]), labels[|labels| - 1];
      if last.None? || (runs != [] && runs[|runs| - 1] == last.value) then runs else runs + [last.value]
  }

  /** No label comes back after another took over. */
  ghost predicate Grouped<T>(labels: seq<Option<T>>) {
    forall i, j, k :: 0 <= i < j < k < |labels| && labels[i].Some? && labels[j].Some? && labels[k] == labels[i] ==>
      labels[j] == labels[i]
  }

  lemma GroupedAt<T>(labels: seq<Option<T>>, i: nat, j: nat, k: nat)
    requires Grouped(labels)
    requires i < j < k < |labels| && labels[i].Some? && labels[j].Some?
    ensures labels[k] == labels[i] ==> labels[j] == labels[i]
  {
  }

  lemma {:induction false} RunsPrefix<T>(labels: seq<Option<T>>, p: nat)
    requires p <= |labels|
    ensures RunsOf(labels[..p]) <= RunsOf(labels)
  {
    if p < |labels| {
      var shorter := labels[..|labels| - 1];
      assert shorter[..p] == labels[..p];
      RunsPrefix(shorter, p);
    } else {
      assert labels[..p] == labels;
    }
  }

  /** Every run is somewhere in the list, in order, and neighbouring runs differ. */
  lemma {:induction false} RunsSites<T>(labels: seq<Option<T>>) returns (sites: seq<nat>)
    ensures |sites| == |RunsOf(labels)|
    ensures forall r :: 0 <= r < |sites| ==> sites[r] < |labels| && labels[sites[r]] == Some(RunsOf(labels)[r])
    ensures forall r, t :: 0 <= r < t < |sites| ==> sites[r] < sites[t]
    ensures forall r :: 0 <= r && r + 1 < |sites| ==> RunsOf(labels)[r] != RunsOf(labels)[r + 1]
  {
    if labels == [] {
      sites := [];
    } else {
      var shorter, last := labels[..|labels| - 1], labels[|labels| - 1];
      sites := RunsSites(shorter);
      var runs := RunsOf(shorter);
      if !(last.None? || (runs != [] && runs[|runs| - 1] == last.value)) {
        sites := sites + [|labels| - 1];
      }
    }
  }

  lemma {:induction false} LastRun<T>(labels: seq<Option<T>>, i: nat)
    requires i < |labels| && labels[i].Some?
    ensures var runs := RunsOf(labels[..i + 1]);
            runs != [] && runs[|runs| - 1] == labels[i].value
  {
    assert labels[..i + 1][..i] == labels[..i];
  }

  /** The place of a label's run in the whole list of runs. */
  lemma RunIndex<T>(labels: seq<Option<T>>, i: nat) returns (r: nat)
    requires i < |labels| && labels[i].Some?
    ensures r + 1 == |RunsOf(labels[..i + 1])|
    ensures r < |RunsOf(labels)| && RunsOf(labels)[r] == labels[i].value
  {
    LastRun(labels, i);
    RunsPrefix(labels, i + 1);
    r := |RunsOf(labels[..i + 1])| - 1;
  }

  lemma RunsGrow<T>(labels: seq<Option<T>>, i: nat, j: nat)
    requires i <= j <= |labels|
    ensures |RunsOf(labels[..i])| <= |RunsOf(labels[..j])|
  {
    assert labels[..j][..i] == labels[..i];
    RunsPrefix(labels[..j], i);
  }

  lemma RepeatedRunReturns<T>(labels: seq<Option<T>>)
    requires !Distinct(RunsOf(labels))
    ensures !Grouped(labels)
  {
    var runs := RunsOf(labels);
    var sites := RunsSites(labels);
    var r, t :| 0 <= r < t < |runs| && runs[r] == runs[t];
    assert runs[r] != runs[r + 1];
    assert labels[sites[r]] == labels[sites[t]] && labels[sites[r + 1]] != labels[sites[r]];
  }

  /** Runs with different labels come in the order of their places. */
  lemma RunOrder<T>(labels: seq<Option<T>>, i: nat, j: nat) returns (a: nat, b: nat)
    requires i < j < |labels| && labels[i].Some? && labels[j].Some? && labels[i] != labels[j]
    ensures a < b < |RunsOf(labels)|
    ensures a + 1 == |RunsOf(labels[..i + 1])| && b + 1 == |RunsOf(labels[..j + 1])|
    ensures RunsOf(labels)[a] == labels[i].value && RunsOf(labels)[b] == labels[j].value
  {
    a := RunIndex(labels, i);
    b := RunIndex(labels, j);
    RunsGrow(labels, i + 1, j + 1);
  }

  lemma ReturningLabelRepeats<T>(labels: seq<Option<T>>, i: nat, j: nat, k: nat)
    requires i < j < k < |labels| && labels[i].Some? && labels[j].Some?
    requires labels[k] == labels[i] && labels[j] != labels[i]
    ensures !Distinct(RunsOf(labels))
  {
    var a, b := RunOrder(labels, i, j);
    var b', c := RunOrder(labels, j, k);
    assert a < c && RunsOf(labels)[a] == RunsOf(labels)[c];
  }

  /** Runs repeat exactly when some label comes back. */
  lemma GroupedIsDistinctRuns<T>(labels: seq<Option<T>>)
    ensures Grouped(labels) <==> Distinct(RunsOf(labels))
  {
    if !Distinct(RunsOf(labels)) {
      RepeatedRunReturns(labels);
    }
    if !Grouped(labels) {
      var i, j, k :| 0 <= i < j < k < |labels| && labels[i].Some? && labels[j].Some? &&
                     labels[k] == labels[i] && labels[j] != labels[i];
      ReturningLabelRepeats(labels, i, j, k);
    }
  }

  ghost predicate AllSame<T>(labels: seq<Option<T>>) {
    forall i, j :: 0 <= i < |labels| && 0 <= j < |labels| && labels[i].Some? && labels[j].Some? ==>
      labels[i] == labels[j]
  }

  /** Fewer than two distinct runs means one label at most. */
  lemma FewRunsAllSame<T>(labels: seq<Option<T>>)
    requires |ToSet(RunsOf(labels))| < 2
    ensures AllSame(labels)
  {
    var ids := ToSet(RunsOf(labels));
    forall i, j | 0 <= i < |labels| && 0 <= j < |labels| && labels[i].Some? && labels[j].Some?
      ensures labels[i] == labels[j]
    {
      var a := RunIndex(labels, i);
      var b := RunIndex(labels, j);
      SubsetSize({labels[i].value, labels[j].value}, ids);
    }
  }

  lemma AllSameFewRuns<T>(labels: seq<Option<T>>)
    requires AllSame(labels)
    ensures |ToSet(RunsOf(labels))| < 2
  {
    var runs := RunsOf(labels);
    var ids := ToSet(runs);
    if runs != [] {
      var sites := RunsSites(labels);
      forall r | 0 <= r < |runs|
        ensures runs[r] == runs[0]
      {
        assert labels[sites[r]] == labels[sites[0]];
      }
      SubsetSize(ids, {runs[0]});
    }
  }
}
