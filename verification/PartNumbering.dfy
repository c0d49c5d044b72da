/** The gap check over the numbers of a set's parts (`discover`, src/multi_part.rs). */
module PartNumbering {
  import opened Basics

  datatype Kind = Aff4 | RawImage

  datatype PartSet = PartSet(kind: Kind, parts: seq<string>, first: Option<nat>, last: Option<nat>)

  datatype Refusal = Mixed | NoSet | Gap(part: nat, next: nat)

  predicate AllNumbered(numbers: seq<Option<nat>>) {
    forall i :: 0 <= i < |numbers| ==> numbers[i].Some?
  }

  /** A number that was read fits 32 bits. */
  predicate Bounded(numbers: seq<Option<nat>>) {
    forall i :: 0 <= i < |numbers| && numbers[i].Some? ==> numbers[i].value <= U32_MAX
  }

  /** `a + 1` on 32 bits, as a release build computes it. */
  function WrappingSucc(a: nat): nat {
    (a + 1) % (U32_MAX + 1)
  }

  /** Part `i` is followed by the next number. */
  predicate Follows(numbers: seq<Option<nat>>, i: nat)
    requires i + 1 < |numbers| && AllNumbered(numbers)
  {
    numbers[i + 1].value == WrappingSucc(numbers[i].value)
  }

  /** The first place, from `i` on, where the numbers do not run on. */
  function FirstGap(numbers: seq<Option<nat>>, i: nat): (r: Option<nat>)
    requires AllNumbered(numbers)
    ensures r.None? ==> forall k: nat :: i <= k && k + 1 < |numbers| ==> Follows(numbers, k)
    ensures r.Some? ==> r.value + 1 < |numbers| && !Follows(numbers, r.value)
    decreases |numbers| - i
  {
    if i + 1 >= |numbers| then None else if !Follows(numbers, i) then Some(i) else FirstGap(numbers, i + 1)
  }

  /** What the sorted parts and their numbers amount to. */
  function Judge(kind: Kind, parts: seq<string>, numbers: seq<Option<nat>>): Result<PartSet, Refusal>
    requires |numbers| == |parts| > 0
  {
    if AllNumbered(numbers) && FirstGap(numbers, 0).Some? then
      var i := FirstGap(numbers, 0).value;
      Failure(Gap(numbers[i].value, numbers[i + 1].value))
    else
      Success(PartSet(kind, parts, numbers[0], numbers[|numbers| - 1]))
  }

  /** The loop over neighbouring pairs refuses the first gap. */
  method CheckNumbers(kind: Kind, parts: seq<string>, numbers: seq<Option<nat>>)
    returns (r: Result<PartSet, Refusal>)
    requires |numbers| == |parts| > 0
    ensures r == Judge(kind, parts, numbers)
  {
    if |parts| > 1 && AllNumbered(numbers) {
      var i := 0;
      while i + 1 < |numbers|
        invariant 0 <= i < |numbers|
        invariant FirstGap(numbers, 0) == FirstGap(numbers, i)
      {
        var a, b := numbers[i].value, numbers[i + 1].value;
        if b != WrappingSucc(a) {
          return Failure(Gap(a, b));
        }
        i := i + 1;
      }
    }
    r := Success(PartSet(kind, parts, numbers[0], numbers[|numbers| - 1]));
  }

  /** The numbers count up by one, on 32 bits. */
  predicate Consecutive(numbers: seq<Option<nat>>) {
    && AllNumbered(numbers)
    && forall i :: 0 <= i < |numbers| ==> numbers[i].value == (numbers[0].value + i) % (U32_MAX + 1)
  }

  lemma {:induction false} FollowingIsCounting(numbers: seq<Option<nat>>, i: nat)
    requires AllNumbered(numbers) && i < |numbers| && numbers[0].value <= U32_MAX
    requires forall k: nat :: k + 1 < |numbers| ==> Follows(numbers, k)
    ensures numbers[i].value == (numbers[0].value + i) % (U32_MAX + 1)
  {
    if i > 0 {
      FollowingIsCounting(numbers, i - 1);
      assert Follows(numbers, i - 1);
      WrappingSuccOfSum(numbers[0].value, i - 1);
    } else {
      WithinWidth(numbers[0].value);
    }
  }

  lemma WithinWidth(a: nat)
    requires a <= U32_MAX
    ensures a % (U32_MAX + 1) == a
  {
  }

  lemma WrappingSuccOfSum(a: nat, i: nat)
    ensures WrappingSucc((a + i) % (U32_MAX + 1)) == (a + (i + 1)) % (U32_MAX + 1)
  {
  }

  lemma ConsecutiveFollows(numbers: seq<Option<nat>>, i: nat)
    requires Consecutive(numbers) && i + 1 < |numbers|
    ensures Follows(numbers, i)
  {
    assert numbers[i].value == (numbers[0].value + i) % (U32_MAX + 1);
    assert numbers[i + 1].value == (numbers[0].value + (i + 1)) % (U32_MAX + 1);
    WrappingSuccOfSum(numbers[0].value, i);
  }

  /** The check passes exactly when some part has no number or the numbers count up. */
  lemma AcceptsExactlyWhen(kind: Kind, parts: seq<string>, numbers: seq<Option<nat>>)
    requires |numbers| == |parts| > 0 && Bounded(numbers)
    ensures Judge(kind, parts, numbers).Success? <==> (AllNumbered(numbers) ==> Consecutive(numbers))
  {
    if AllNumbered(numbers) {
      var gap := FirstGap(numbers, 0);
      if gap.None? {
        forall i | 0 <= i < |numbers|
          ensures numbers[i].value == (numbers[0].value + i) % (U32_MAX + 1)
        {
          FollowingIsCounting(numbers, i);
        }
      } else if Consecutive(numbers) {
        ConsecutiveFollows(numbers, gap.value);
      }
    }
  }

  /** With no number but the last at the 32-bit limit, counting up means counting without a gap. */
  lemma {:induction false} CountsWithoutWrapping(numbers: seq<Option<nat>>, i: nat)
    requires Consecutive(numbers) && i < |numbers|
    requires forall k :: 0 <= k < |numbers| - 1 ==> numbers[k].value < U32_MAX
    ensures numbers[i].value == numbers[0].value + i
  {
    if i > 0 {
      CountsWithoutWrapping(numbers, i - 1);
      ConsecutiveFollows(numbers, i - 1);
    }
  }

  /** No number but the last is at the 32-bit limit. */
  predicate BelowLimit(numbers: seq<Option<nat>>) {
    forall k :: 0 <= k < |numbers| - 1 ==> numbers[k].Some? && numbers[k].value < U32_MAX
  }

  /** The numbers are the first one and those after it, none missing. */
  predicate CountsUp(numbers: seq<Option<nat>>) {
    && |numbers| > 0 && numbers[0].Some?
    && forall i :: 0 <= i < |numbers| ==> numbers[i] == Some(numbers[0].value + i)
  }

  lemma ConsecutiveCountsUp(numbers: seq<Option<nat>>)
    requires |numbers| > 0 && Consecutive(numbers) && BelowLimit(numbers)
    ensures CountsUp(numbers)
  {
    forall i | 0 <= i < |numbers|
      ensures numbers[i] == Some(numbers[0].value + i)
    {
      CountsWithoutWrapping(numbers, i);
    }
  }

  /** Numbers that run from a first one to `n` after it: accepted when that one is zero, a gap otherwise. */
  lemma CountingFromOne(kind: Kind, parts: seq<string>, numbers: seq<Option<nat>>)
    requires |numbers| == |parts| > 1 && Bounded(numbers)
    requires numbers[0].Some? && forall k :: 1 <= k < |numbers| ==> numbers[k] == Some(k)
    ensures Judge(kind, parts, numbers) ==
      if numbers[0] == Some(0) then Success(PartSet(kind, parts, Some(0), Some(|numbers| - 1)))
      else Failure(Gap(numbers[0].value, 1))
  {
    if numbers[0] == Some(0) {
      forall k: nat | k + 1 < |numbers|
        ensures Follows(numbers, k)
      {
        assert numbers[k + 1] == Some(k + 1) && numbers[k + 1].value <= U32_MAX;
      }
    } else {
      assert !Follows(numbers, 0);
    }
  }
}
