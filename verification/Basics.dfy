/** Integer widths, options and small facts about sequences shared by the other modules. */
module Basics {

  const U64_MAX: int := 0xFFFF_FFFF_FFFF_FFFF
  const U32_MAX: int := 0xFFFF_FFFF

  type U64 = x: int | 0 <= x <= U64_MAX
  type Byte = x: int | 0 <= x < 256

  datatype Option<+T> = None | Some(value: T)

  datatype Result<+T, +E> = Success(value: T) | Failure(error: E)

  function Min(a: int, b: int): int {
    if a <= b then a else b
  }

  function Max(a: int, b: int): int {
    if a >= b then a else b
  }

  /** `u64::saturating_add`. */
  function SatAdd(a: U64, b: U64): U64 {
    if a + b <= U64_MAX then a + b else U64_MAX
  }

  /** Division rounding up, as `div_ceil`. */
  function DivCeil(a: nat, b: nat): nat
    requires b > 0
  {
    (a + b - 1) / b
  }

  lemma DivCeilBounds(a: nat, b: nat)
    requires b > 0
    ensures a <= DivCeil(a, b) * b < a + b
  {
  }

  lemma MulMonotone(a: nat, b: nat, c: nat)
    requires a <= b
    ensures a * c <= b * c
  {
    assert (b - a) * c >= 0;
    assert b * c == a * c + (b - a) * c;
  }

  lemma MulSucc(n: nat, c: nat)
    ensures (n + 1) * c == n * c + c
    ensures n * c >= 0
  {
  }

  /** Quotient and remainder are the only split of a number. */
  lemma SplitUnique(q: nat, m: nat, k: nat, r: nat, size: nat)
    requires m < size && r < size
    requires q * size + m == k * size + r
    ensures q == k && m == r
  {
    assert (q + 1) * size == q * size + size;
    assert (k + 1) * size == k * size + size;
    if q < k {
      MulMonotone(q + 1, k, size);
    } else if k < q {
      MulMonotone(k + 1, q, size);
    }
  }

  lemma QuotientRemainder(n: nat, size: nat)
    requires size > 0
    ensures n / size * size + n % size == n
    ensures 0 <= n % size < size
  {
  }

  lemma DivModAt(k: nat, size: nat, r: nat)
    requires r < size
    ensures k * size + r >= 0
    ensures (k * size + r) / size == k
    ensures (k * size + r) % size == r
  {
    MulMonotone(0, k, size);
    var n := k * size + r;
    QuotientRemainder(n, size);
    SplitUnique(n / size, n % size, k, r, size);
  }

  /** Stepping within one block keeps the quotient. */
  lemma WithinBlock(position: nat, size: nat, j: nat)
    requires size > 0
    requires position % size + j < size
    ensures (position + j) / size == position / size
    ensures (position + j) % size == position % size + j
  {
    QuotientRemainder(position, size);
    DivModAt(position / size, size, position % size + j);
  }

  function Repeat<T>(x: T, n: nat): (r: seq<T>)
    ensures |r| == n && forall i :: 0 <= i < n ==> r[i] == x
  {
    seq(n, i => x)
  }

  /** All the pieces joined in order. */
  function Flatten<T>(pieces: seq<seq<T>>): seq<T> {
    if pieces == [] then [] else pieces[0] + Flatten(pieces[1..])
  }

  lemma {:induction false} FlattenSnoc<T>(pieces: seq<seq<T>>, last: seq<T>)
    ensures Flatten(pieces + [last]) == Flatten(pieces) + last
  {
    if pieces == [] {
      assert pieces + [last] == [last];
      assert Flatten([last]) == last + Flatten<T>([]);
    } else {
      assert (pieces + [last])[1..] == pieces[1..] + [last];
      FlattenSnoc(pieces[1..], last);
    }
  }

  lemma {:induction false} FlattenConcat<T>(a: seq<seq<T>>, b: seq<seq<T>>)
    ensures Flatten(a + b) == Flatten(a) + Flatten(b)
  {
    if a == [] {
      assert a + b == b;
    } else {
      assert (a + b)[1..] == a[1..] + b;
      FlattenConcat(a[1..], b);
    }
  }

  ghost predicate Distinct<T>(s: seq<T>) {
    forall i, j :: 0 <= i < j < |s| ==> s[i] != s[j]
  }

  function ToSet<T>(s: seq<T>): set<T> {
    set x | x in s
  }

  /** A sequence is as long as its set of elements exactly when nothing repeats. */
  lemma {:induction false} DistinctLength<T>(s: seq<T>)
    ensures |ToSet(s)| <= |s|
    ensures Distinct(s) <==> |ToSet(s)| == |s|
  {
    if s == [] {
      assert ToSet(s) == {};
    } else {
      var last := s[|s| - 1];
      var rest := s[..|s| - 1];
      DistinctLength(rest);
      var all := ToSet(s);
      var some := ToSet(rest);
      assert s == rest + [last];
      assert all == some + {last};
      if last in rest {
        assert all == some;
        var k :| 0 <= k < |rest| && rest[k] == last;
        assert s[k] == s[|s| - 1];
      } else {
        assert |all| == |some| + 1;
        if Distinct(rest) {
          assert forall i, j :: 0 <= i < j < |s| ==> s[i] != s[j];
        } else {
          var i, j :| 0 <= i < j < |rest| && rest[i] == rest[j];
          assert s[i] == s[j];
        }
      }
    }
  }

  lemma {:induction false} SubsetSize<T>(a: set<T>, b: set<T>)
    requires a <= b
    ensures |a| <= |b|
  {
    if a != {} {
      var x :| x in a;
      SubsetSize(a - {x}, b - {x});
    }
  }

  lemma Regroup<T>(a: seq<T>, b: seq<T>, c: seq<T>)
    ensures a + (b + c) == (a + b) + c
  {
  }
}
