/** Lists with repeats dropped, each element kept at its first appearance. */
module Appearances {
  import opened Basics

  /** The distinct elements of a list in order of first appearance. */
  function Firsts<T(==)>(s: seq<T>): (r: seq<T>)
    ensures ToSet(r) == ToSet(s)
  {
    if s == [] then []
    else
      var r, last := Firsts(s[..|s| - 1]), s[|s| - 1];
      assert s == s[..|s| - 1] + [last];
      assert ToSet(s) == ToSet(r) + {last} && ToSet(r + [last]) == ToSet(r) + {last};
      if last in r then r else r + [last]
  }

  /** `x` is met before `y` is, if `y` is met at all. */
  ghost predicate MetBefore<T>(s: seq<T>, x: T, y: T) {
    exists p :: 0 <= p < |s| && s[p] == x && y !in s[..p + 1]
  }

  lemma MetBeforeLonger<T>(s: seq<T>, last: T, x: T, y: T)
    requires MetBefore(s, x, y)
    ensures MetBefore(s + [last], x, y)
  {
    var p :| 0 <= p < |s| && s[p] == x && y !in s[..p + 1];
    var longer := s + [last];
    assert longer[..p + 1] == s[..p + 1];
    assert longer[p] == x;
  }

  /** Nothing repeats, and the order is the order of first appearance. */
  lemma {:induction false} FirstsInOrder<T>(s: seq<T>)
    ensures Distinct(Firsts(s))
    ensures forall i, j :: 0 <= i < j < |Firsts(s)| ==> MetBefore(s, Firsts(s)[i], Firsts(s)[j])
  {
    if s != [] {
      var shorter, last := s[..|s| - 1], s[|s| - 1];
      var r := Firsts(shorter);
      FirstsInOrder(shorter);
      assert s == shorter + [last];
      forall i, j | 0 <= i < j < |Firsts(s)|
        ensures MetBefore(s, Firsts(s)[i], Firsts(s)[j])
      {
        if j < |r| {
          MetBeforeLonger(shorter, last, r[i], r[j]);
        } else {
          assert r[i] in ToSet(shorter) && last !in ToSet(shorter);
          var p :| 0 <= p < |shorter| && shorter[p] == r[i];
          assert s[p] == r[i] && last !in s[..p + 1];
        }
      }
    }
  }

  lemma FirstsSnoc<T>(s: seq<T>, x: T)
    ensures Firsts(s + [x]) == if x in Firsts(s) then Firsts(s) else Firsts(s) + [x]
  {
    assert (s + [x])[..|s|] == s;
  }

  /** What a list keeps of the elements that pass. */
  function Keep<T>(s: seq<T>, f: T -> bool): (r: seq<T>)
    ensures forall x :: x in r ==> x in s && f(x)
    ensures forall x :: x in s && f(x) ==> x in r
  {
    if s == [] then []
    else
      var r, last := Keep(s[..|s| - 1], f), s[|s| - 1];
      assert s == s[..|s| - 1] + [last];
      if f(last) then r + [last] else r
  }

  lemma KeepSnoc<T>(s: seq<T>, x: T, f: T -> bool)
    ensures Keep(s + [x], f) == if f(x) then Keep(s, f) + [x] else Keep(s, f)
  {
    assert (s + [x])[..|s|] == s;
  }

  lemma {:induction false} KeepCount<T>(s: seq<T>, f: T -> bool, x: T)
    ensures multiset(Keep(s, f))[x] == if f(x) then multiset(s)[x] else 0
  {
    if s != [] {
      KeepCount(s[..|s| - 1], f, x);
      assert s == s[..|s| - 1] + [s[|s| - 1]];
    }
  }

  /** The order of a list does not change which elements it keeps. */
  lemma KeepPermutes<T>(s: seq<T>, t: seq<T>, f: T -> bool)
    requires multiset(s) == multiset(t)
    ensures multiset(Keep(s, f)) == multiset(Keep(t, f))
  {
    forall x | x in Keep(s, f) || x in Keep(t, f)
      ensures multiset(Keep(s, f))[x] == multiset(Keep(t, f))[x]
    {
      KeepCount(s, f, x);
      KeepCount(t, f, x);
    }
  }

  /** Elements that all pass stay, and elements that all fail go. */
  lemma {:induction false} KeepAll<T>(s: seq<T>, f: T -> bool)
    requires forall x :: x in s ==> f(x)
    ensures Keep(s, f) == s
  {
    if s != [] {
      KeepAll(s[..|s| - 1], f);
    }
  }

  lemma KeepNone<T>(s: seq<T>, f: T -> bool)
    requires forall x :: x in s ==> !f(x)
    ensures Keep(s, f) == []
  {
    if Keep(s, f) != [] {
      assert Keep(s, f)[0] in Keep(s, f);
    }
  }

  lemma {:induction false} KeepJoin<T>(s: seq<T>, t: seq<T>, f: T -> bool)
    ensures Keep(s + t, f) == Keep(s, f) + Keep(t, f)
  {
    if t == [] {
      assert s + t == s;
    } else {
      assert (s + t)[..|s + t| - 1] == s + t[..|t| - 1];
      KeepJoin(s, t[..|t| - 1], f);
    }
  }
}
