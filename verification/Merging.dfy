/** Merging the objects of a set's volumes by ARN (`objects_across_volumes`, src/container.rs). */
module Merging {
  import opened Basics
  import opened Appearances

  /** A declaration of an object: its ARN, its recorded hashes, and everything else it says. */
  datatype Object = Object(arn: string, hashes: seq<string>, rest: string)

  /** The declarations in the order they are met; a volume without a graph has none. */
  function Declared(volumes: seq<Option<seq<Object>>>): seq<Object> {
    if volumes == [] then []
    else
      var last := volumes[|volumes| - 1];
      Declared(volumes[..|volumes| - 1]) + (if last.Some? then last.value else [])
  }

  function Arns(objects: seq<Object>): (r: seq<string>)
    ensures |r| == |objects|
  {
    seq(|objects|, i requires 0 <= i < |objects| => objects[i].arn)
  }

  // ----- the simple merge, by linear search -----

  function Find(merged: seq<Object>, arn: string): (r: Option<nat>)
    ensures r.None? ==> forall i :: 0 <= i < |merged| ==> merged[i].arn != arn
    ensures r.Some? ==> r.value < |merged| && merged[r.value].arn == arn
  {
    if merged == [] then None
    else if merged[|merged| - 1].arn == arn then Some(|merged| - 1)
    else Find(merged[..|merged| - 1], arn)
  }

  /** A fuller declaration replaces the one held; a new ARN goes last. */
  function Add(merged: seq<Object>, found: Object): seq<Object> {
    match Find(merged, found.arn)
    case None => merged + [found]
    case Some(i) => if |found.hashes| > |merged[i].hashes| then merged[i := found] else merged
  }

  function SimpleMerge(objects: seq<Object>): seq<Object> {
    if objects == [] then [] else Add(SimpleMerge(objects[..|objects| - 1]), objects[|objects| - 1])
  }

  // ----- the merge with an index -----

  /** The index is exactly the inverse of the list. */
  ghost predicate Inverse(position: map<string, nat>, merged: seq<Object>) {
    && (forall arn :: arn in position ==> position[arn] < |merged| && merged[position[arn]].arn == arn)
    && (forall i :: 0 <= i < |merged| ==> merged[i].arn in position && position[merged[i].arn] == i)
  }

  lemma FindIsIndex(position: map<string, nat>, merged: seq<Object>, arn: string)
    requires Inverse(position, merged)
    ensures Find(merged, arn) == if arn in position then Some(position[arn]) else None
  {
  }

  /** One step of the indexed merge is one step of the simple one. */
  method AddIndexed(merged0: seq<Object>, position0: map<string, nat>, found: Object)
    returns (merged: seq<Object>, position: map<string, nat>)
    requires Inverse(position0, merged0)
    ensures merged == Add(merged0, found) && Inverse(position, merged)
  {
    merged, position := merged0, position0;
    FindIsIndex(position, merged, found.arn);
    if found.arn in position {
      var index := position[found.arn];
      if |found.hashes| > |merged[index].hashes| {
        merged := merged[index := found];
      }
    } else {
      position := position[found.arn := |merged|];
      merged := merged + [found];
    }
  }

  lemma SimpleMergeSnoc(objects: seq<Object>, found: Object)
    ensures SimpleMerge(objects + [found]) == Add(SimpleMerge(objects), found)
  {
    assert (objects + [found])[..|objects|] == objects;
  }

  lemma OneMore(before: seq<Object>, objects: seq<Object>, i: nat)
    requires i < |objects|
    ensures SimpleMerge(before + objects[..i + 1]) == Add(SimpleMerge(before + objects[..i]), objects[i])
  {
    assert before + objects[..i + 1] == (before + objects[..i]) + [objects[i]];
    SimpleMergeSnoc(before + objects[..i], objects[i]);
  }

  method AddAll(objects: seq<Object>, merged0: seq<Object>, position0: map<string, nat>, ghost before: seq<Object>)
    returns (merged: seq<Object>, position: map<string, nat>)
    requires merged0 == SimpleMerge(before) && Inverse(position0, merged0)
    ensures merged == SimpleMerge(before + objects) && Inverse(position, merged)
  {
    merged, position := merged0, position0;
    assert before + objects[..0] == before;
    for i := 0 to |objects|
      invariant merged == SimpleMerge(before + objects[..i]) && Inverse(position, merged)
    {
      OneMore(before, objects, i);
      merged, position := AddIndexed(merged, position, objects[i]);
    }
    assert objects[..|objects|] == objects;
  }

  lemma DeclaredSnoc(volumes: seq<Option<seq<Object>>>, v: nat)
    requires v < |volumes|
    ensures Declared(volumes[..v + 1]) ==
      Declared(volumes[..v]) + (if volumes[v].Some? then volumes[v].value else [])
  {
    assert volumes[..v + 1][..v] == volumes[..v];
  }

  /**
   A single volume's objects are its summary's, or the summary's error, with nothing merged. Over several volumes the
   indexed merge agrees with the simple one, and its index stays the inverse of its list throughout.
   */
  method ObjectsAcrossVolumes(volumes: seq<Option<seq<Object>>>, summary: Result<seq<Object>, string>)
    returns (r: Result<seq<Object>, string>)
    ensures r == if |volumes| == 1 then summary else Success(SimpleMerge(Declared(volumes)))
  {
    if |volumes| == 1 {
      return summary;
    }
    var merged: seq<Object> := [];
    var position: map<string, nat> := map[];
    ghost var seen: seq<Object> := [];
    for v := 0 to |volumes|
      invariant seen == Declared(volumes[..v])
      invariant merged == SimpleMerge(seen) && Inverse(position, merged)
    {
      DeclaredSnoc(volumes, v);
      if volumes[v].Some? {
        merged, position := AddAll(volumes[v].value, merged, position, seen);
        seen := seen + volumes[v].value;
      }
    }
    assert volumes[..|volumes|] == volumes;
    r := Success(merged);
  }

  // ----- what the merge holds -----

  /** The earliest of the declarations of its ARN with the most hashes. */
  predicate IsFullest(objects: seq<Object>, k: nat)
    requires k < |objects|
  {
    forall j :: 0 <= j < |objects| && objects[j].arn == objects[k].arn ==>
      && |objects[j].hashes| <= |objects[k].hashes|
      && (j < k ==> |objects[j].hashes| < |objects[k].hashes|)
  }

  ghost predicate HoldsFullest(objects: seq<Object>, held: Object) {
    exists k :: 0 <= k < |objects| && objects[k] == held && IsFullest(objects, k)
  }

  /** Each ARN is listed once, in the order of first appearance. */
  lemma {:induction false} MergeListsEachOnce(objects: seq<Object>)
    ensures Arns(SimpleMerge(objects)) == Firsts(Arns(objects))
    ensures Distinct(Arns(SimpleMerge(objects)))
  {
    FirstsInOrder(Arns(objects));
    if objects != [] {
      var shorter, last := objects[..|objects| - 1], objects[|objects| - 1];
      MergeListsEachOnce(shorter);
      var merged := SimpleMerge(shorter);
      assert Arns(objects) == Arns(shorter) + [last.arn];
      FirstsSnoc(Arns(shorter), last.arn);
      match Find(merged, last.arn) {
        case None =>
          assert Arns(merged + [last]) == Arns(merged) + [last.arn];
        case Some(i) =>
          assert Arns(merged)[i] == last.arn;
          assert Arns(merged[i := last]) == Arns(merged);
      }
    }
  }

  lemma StaysFullest(objects: seq<Object>, last: Object, held: Object)
    requires HoldsFullest(objects, held)
    requires last.arn == held.arn ==> |last.hashes| <= |held.hashes|
    ensures HoldsFullest(objects + [last], held)
  {
    var k :| 0 <= k < |objects| && objects[k] == held && IsFullest(objects, k);
    assert (objects + [last])[k] == held && IsFullest(objects + [last], k);
  }

  lemma BecomesFullest(objects: seq<Object>, last: Object)
    requires forall j :: 0 <= j < |objects| && objects[j].arn == last.arn ==> |objects[j].hashes| < |last.hashes|
    ensures HoldsFullest(objects + [last], last)
  {
    assert (objects + [last])[|objects|] == last && IsFullest(objects + [last], |objects|);
  }

  lemma FullerThanAll(objects: seq<Object>, held: Object, last: Object)
    requires HoldsFullest(objects, held) && held.arn == last.arn && |held.hashes| < |last.hashes|
    ensures forall j :: 0 <= j < |objects| && objects[j].arn == last.arn ==> |objects[j].hashes| < |last.hashes|
  {
  }

  /** Each ARN's entry is the earliest of its fullest declarations. */
  lemma {:induction false} MergeHoldsFullest(objects: seq<Object>)
    ensures forall i :: 0 <= i < |SimpleMerge(objects)| ==> HoldsFullest(objects, SimpleMerge(objects)[i])
  {
    if objects != [] {
      var shorter, last := objects[..|objects| - 1], objects[|objects| - 1];
      var merged := SimpleMerge(shorter);
      assert objects == shorter + [last];
      MergeHoldsFullest(shorter);
      MergeListsEachOnce(shorter);
      var at := Find(merged, last.arn);
      forall i | 0 <= i < |SimpleMerge(objects)|
        ensures HoldsFullest(objects, SimpleMerge(objects)[i])
      {
        if i < |merged| && SimpleMerge(objects)[i] == merged[i] {
          if at.Some? {
            assert Arns(merged)[i] == merged[i].arn && Arns(merged)[at.value] == last.arn;
          }
          StaysFullest(shorter, last, merged[i]);
        } else {
          assert SimpleMerge(objects)[i] == last;
          if at.Some? {
            FullerThanAll(shorter, merged[at.value], last);
          } else {
            NoneDeclared(shorter, last.arn);
          }
          BecomesFullest(shorter, last);
        }
      }
    }
  }

  lemma NoneDeclared(objects: seq<Object>, arn: string)
    requires Find(SimpleMerge(objects), arn).None?
    ensures forall j :: 0 <= j < |objects| ==> objects[j].arn != arn
  {
    MergeListsEachOnce(objects);
    var merged := SimpleMerge(objects);
    assert forall i :: 0 <= i < |merged| ==> Arns(merged)[i] == merged[i].arn;
    forall j | 0 <= j < |objects|
      ensures objects[j].arn != arn
    {
      assert ToSet(Arns(objects)) == ToSet(Arns(merged));
      assert Arns(objects)[j] in ToSet(Arns(objects));
    }
  }

  /** Leaving a volume's objects unmerged is merging them exactly when the volume declares each ARN once. */
  lemma UnmergedExactlyWhen(objects: seq<Object>)
    ensures SimpleMerge(objects) == objects <==> Distinct(Arns(objects))
  {
    if SimpleMerge(objects) == objects {
      MergeListsEachOnce(objects);
    }
    if Distinct(Arns(objects)) {
      DistinctStays(objects);
    }
  }

  lemma {:induction false} DistinctStays(objects: seq<Object>)
    requires Distinct(Arns(objects))
    ensures SimpleMerge(objects) == objects
  {
    if objects != [] {
      var shorter, last := objects[..|objects| - 1], objects[|objects| - 1];
      assert shorter + [last] == objects;
      LastIsNew(shorter, last);
      DistinctStays(shorter);
    }
  }

  lemma LastIsNew(objects: seq<Object>, last: Object)
    requires Distinct(Arns(objects + [last]))
    ensures Distinct(Arns(objects)) && Find(objects, last.arn) == None
  {
    var arns := Arns(objects + [last]);
    forall i, j | 0 <= i < j < |objects|
      ensures Arns(objects)[i] != Arns(objects)[j]
    {
      assert arns[i] != arns[j];
    }
    forall i | 0 <= i < |objects|
      ensures objects[i].arn != last.arn
    {
      assert arns[i] != arns[|objects|];
    }
  }
}
