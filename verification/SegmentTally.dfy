/** The tally of a volume's members by kind (`segment_kinds`, src/container.rs). */
module SegmentTally {
  import opened Basics
  import opened Appearances
  import opened Sorting

  datatype Kind =
    | BevyData | BevyIndex | BlockHash | MapStructure | Metadata | ContainerDescription | Version | LogicalFile | Other

  /** A kind's members, their number, and the text that stands for them. */
  datatype Row = Row(kind: Kind, count: nat, example: string)

  const ORDER: seq<Kind> := [
    BevyData, BevyIndex, BlockHash, MapStructure, Metadata, ContainerDescription, Version, LogicalFile, Other]

  function Slot(kind: Kind): (k: nat)
    ensures k < 9 && ORDER[k] == kind
    ensures forall j :: 0 <= j < 9 && ORDER[j] == kind ==> j == k
  {
    match kind
    case BevyData => 0
    case BevyIndex => 1
    case BlockHash => 2
    case MapStructure => 3
    case Metadata => 4
    case ContainerDescription => 5
    case Version => 6
    case LogicalFile => 7
    case Other => 8
  }

  // ----- strings in order -----

  /** The order of strings, character by character. */
  predicate StrLe(a: string, b: string) {
    a == "" || (b != "" && (a[0] < b[0] || (a[0] == b[0] && StrLe(a[1..], b[1..]))))
  }

  predicate StrLt(a: string, b: string) {
    StrLe(a, b) && a != b
  }

  lemma {:induction false} StrOrder(a: string, b: string)
    ensures StrLe(a, b) || StrLe(b, a)
    ensures StrLe(a, b) && StrLe(b, a) ==> a == b
    ensures StrLe(a, a)
  {
    if a != "" {
      StrOrder(a[1..], a[1..]);
      if b != "" {
        StrOrder(a[1..], b[1..]);
        assert a == [a[0]] + a[1..] && b == [b[0]] + b[1..];
      }
    }
  }

  lemma {:induction false} StrTransitive(a: string, b: string, c: string)
    requires StrLe(a, b) && StrLe(b, c)
    ensures StrLe(a, c)
  {
    if a != "" && a[0] == b[0] == c[0] {
      StrTransitive(a[1..], b[1..], c[1..]);
    }
  }

  lemma StrTotalOrder()
    ensures Total(StrLe) && Transitive(StrLe)
  {
    forall a, b
      ensures StrLe(a, b) || StrLe(b, a)
    {
      StrOrder(a, b);
    }
    forall a, b, c | StrLe(a, b) && StrLe(b, c)
      ensures StrLe(a, c)
    {
      StrTransitive(a, b, c);
    }
  }

  /** What follows the last slash. */
  function Tail(name: string): (r: string)
    ensures '/' !in r
    ensures r == name || exists front :: name == front + "/" + r
  {
    if name == "" then ""
    else if name[|name| - 1] == '/' then
      assert name == name[..|name| - 1] + "/" + "";
      ""
    else
      var r := Tail(name[..|name| - 1]);
      var last := [name[|name| - 1]];
      assert name == name[..|name| - 1] + last;
      assert r == name[..|name| - 1] || exists front :: name == front + "/" + (r + last) by {
        if r != name[..|name| - 1] {
          var front :| name[..|name| - 1] == front + "/" + r;
          assert name == front + "/" + (r + last);
        }
      }
      r + last
  }

  function Join(parts: seq<string>, separator: string): string {
    if parts == [] then ""
    else if |parts| == 1 then parts[0]
    else parts[0] + separator + Join(parts[1..], separator)
  }

  // ----- what the rows say -----

  function IsKind(classify: string -> Kind, kind: Kind): string -> bool {
    name => classify(name) == kind
  }

  function OfKind(names: seq<string>, classify: string -> Kind, kind: Kind): seq<string> {
    Keep(names, IsKind(classify, kind))
  }

  function Tails(names: seq<string>): (r: seq<string>)
    ensures |r| == |names|
  {
    seq(|names|, i requires 0 <= i < |names| => Tail(names[i]))
  }

  /** The greatest name, kept as the names are met. */
  function Greatest(names: seq<string>): Option<string> {
    if names == [] then None
    else
      var g, last := Greatest(names[..|names| - 1]), names[|names| - 1];
      if g.None? || StrLt(g.value, last) then Some(last) else g
  }

  /** `dedup` drops an element equal to the one before it. */
  function Dedup(s: seq<string>): seq<string> {
    if |s| < 2 then s
    else if s[0] == s[1] then Dedup(s[1..])
    else [s[0]] + Dedup(s[1..])
  }

  function Example(kind: Kind, names: seq<string>): string
    requires names != []
  {
    if kind.MapStructure? then Join(Dedup(Sort(Tails(names), StrLe)), ", ")
    else match Greatest(names) { case None => "" case Some(g) => Tail(g) }
  }

  /** The rows in `ORDER`, from place `k` on, the empty ones left out. */
  function RowsFrom(names: seq<string>, classify: string -> Kind, k: nat): seq<Row>
    requires k <= 9
    decreases 9 - k
  {
    if k == 9 then []
    else
      var members := OfKind(names, classify, ORDER[k]);
      (if members == [] then [] else [Row(ORDER[k], |members|, Example(ORDER[k], members))])
      + RowsFrom(names, classify, k + 1)
  }

  predicate CountGe(a: Row, b: Row) {
    a.count >= b.count
  }

  function SegmentRows(names: seq<string>, classify: string -> Kind): seq<Row> {
    Sort(RowsFrom(names, classify, 0), CountGe)
  }

  // ----- the loop -----

  datatype Seen = Seen(count: nat, greatest: Option<string>)

  function SeenOf(names: seq<string>): Seen {
    Seen(|names|, Greatest(names))
  }

  method Count(names: seq<string>, classify: string -> Kind) returns (counts: seq<Seen>, mapMembers: seq<string>)
    ensures |counts| == 9
    ensures forall k :: 0 <= k < 9 ==> counts[k] == SeenOf(OfKind(names, classify, ORDER[k]))
    ensures mapMembers == Tails(OfKind(names, classify, MapStructure))
  {
    counts := Repeat(Seen(0, None), 9);
    mapMembers := [];
    for i := 0 to |names|
      invariant |counts| == 9
      invariant forall k :: 0 <= k < 9 ==> counts[k] == SeenOf(OfKind(names[..i], classify, ORDER[k]))
      invariant mapMembers == Tails(OfKind(names[..i], classify, MapStructure))
    {
      var name := names[i];
      var kind := classify(name);
      var slot := Slot(kind);
      CountOne(names, classify, i);
      if kind == MapStructure {
        mapMembers := mapMembers + [Tail(name)];
      }
      var seen := counts[slot];
      var greatest := if seen.greatest.None? || StrLt(seen.greatest.value, name) then Some(name) else seen.greatest;
      counts := counts[slot := Seen(seen.count + 1, greatest)];
    }
    assert names[..|names|] == names;
  }

  /** One more name changes only its own kind's count and greatest name. */
  lemma CountOne(names: seq<string>, classify: string -> Kind, i: nat)
    requires i < |names|
    ensures forall kind :: kind != classify(names[i]) ==>
      OfKind(names[..i + 1], classify, kind) == OfKind(names[..i], classify, kind)
    ensures OfKind(names[..i + 1], classify, classify(names[i])) ==
      OfKind(names[..i], classify, classify(names[i])) + [names[i]]
    ensures var before := OfKind(names[..i], classify, classify(names[i]));
      && SeenOf(before + [names[i]]) == Seen(|before| + 1,
           if Greatest(before).None? || StrLt(Greatest(before).value, names[i]) then Some(names[i]) else Greatest(before))
      && Tails(before + [names[i]]) == Tails(before) + [Tail(names[i])]
  {
    assert names[..i + 1] == names[..i] + [names[i]];
    forall kind
      ensures OfKind(names[..i + 1], classify, kind) ==
        if kind == classify(names[i]) then OfKind(names[..i], classify, kind) + [names[i]] else OfKind(names[..i], classify, kind)
    {
      KeepSnoc(names[..i], names[i], IsKind(classify, kind));
    }
    var before := OfKind(names[..i], classify, classify(names[i]));
    assert (before + [names[i]])[..|before|] == before;
  }

  method SegmentKinds(names: seq<string>, classify: string -> Kind) returns (rows: seq<Row>)
    ensures rows == SegmentRows(names, classify)
  {
    var counts, mapMembers := Count(names, classify);
    mapMembers := Dedup(Sort(mapMembers, StrLe));
    rows := [];
    var k := 9;
    while k > 0
      invariant 0 <= k <= 9
      invariant rows == RowsFrom(names, classify, k)
    {
      k := k - 1;
      if counts[k].count > 0 {
        var example := if ORDER[k] == MapStructure then Join(mapMembers, ", ")
          else if counts[k].greatest.Some? then Tail(counts[k].greatest.value) else "";
        rows := [Row(ORDER[k], counts[k].count, example)] + rows;
      }
    }
    rows := Sort(rows, CountGe);
  }

  // ----- the order of the members does not matter -----

  lemma {:induction false} GreatestIsGreatest(names: seq<string>)
    requires names != []
    ensures Greatest(names).Some? && Greatest(names).value in names
    ensures forall x :: x in names ==> StrLe(x, Greatest(names).value)
  {
    var shorter, last := names[..|names| - 1], names[|names| - 1];
    assert names == shorter + [last];
    StrOrder(last, last);
    if shorter == [] {
      assert Greatest(names) == Some(last);
    } else {
      GreatestIsGreatest(shorter);
      var g := Greatest(shorter).value;
      StrOrder(g, last);
      GreatestOfMore(shorter, g, last);
    }
  }

  lemma GreatestOfMore(names: seq<string>, g: string, last: string)
    requires forall x :: x in names ==> StrLe(x, g)
    requires StrLe(g, last) || StrLe(last, g)
    ensures StrLe(g, last) ==> forall x :: x in names ==> StrLe(x, last)
  {
    if StrLe(g, last) {
      forall x | x in names
        ensures StrLe(x, last)
      {
        StrTransitive(x, g, last);
      }
    }
  }

  lemma GreatestPermutes(a: seq<string>, b: seq<string>)
    requires multiset(a) == multiset(b) && a != []
    ensures b != [] && Greatest(a) == Greatest(b)
  {
    SameSize(a, b);
    GreatestIsGreatest(a);
    GreatestIsGreatest(b);
    var x, y := Greatest(a).value, Greatest(b).value;
    assert x in multiset(b) && y in multiset(a);
    StrOrder(x, y);
  }

  /** Strictly increasing strings. */
  ghost predicate Increasing(s: seq<string>) {
    forall i, j :: 0 <= i < j < |s| ==> StrLt(s[i], s[j])
  }

  lemma {:induction false} DedupSorted(s: seq<string>)
    requires Sorted(s, StrLe)
    ensures Increasing(Dedup(s)) && ToSet(Dedup(s)) == ToSet(s)
  {
    if |s| >= 2 {
      var rest := s[1..];
      DedupSorted(rest);
      assert s == [s[0]] + rest;
      assert ToSet(s) == {s[0]} + ToSet(rest);
      if s[0] == s[1] {
        assert s[1] in ToSet(rest);
      } else {
        var d := Dedup(rest);
        forall j | 0 <= j < |d|
          ensures StrLt(s[0], d[j])
        {
          assert d[j] in ToSet(rest);
          var k :| 0 <= k < |rest| && rest[k] == d[j];
          if d[j] == s[0] {
            assert StrLe(s[0], s[1]) && (k == 0 || StrLe(s[1], s[1 + k]));
            StrOrder(s[0], s[1]);
          }
        }
        assert ToSet([s[0]] + d) == {s[0]} + ToSet(d);
      }
    }
  }

  lemma {:induction false} IncreasingUnique(a: seq<string>, b: seq<string>)
    requires Increasing(a) && Increasing(b) && ToSet(a) == ToSet(b)
    ensures a == b
  {
    EmptyTogether(a, b);
    EmptyTogether(b, a);
    if a != [] {
      FirstOfIncreasing(a, b);
      assert a == [a[0]] + a[1..] && b == [b[0]] + b[1..];
      assert ToSet(a) == {a[0]} + ToSet(a[1..]) && ToSet(b) == {b[0]} + ToSet(b[1..]);
      assert a[0] !in ToSet(a[1..]) && b[0] !in ToSet(b[1..]);
      assert ToSet(a[1..]) == ToSet(a) - {a[0]} && ToSet(b[1..]) == ToSet(b) - {b[0]};
      IncreasingUnique(a[1..], b[1..]);
    }
  }

  lemma EmptyTogether(a: seq<string>, b: seq<string>)
    requires ToSet(a) == ToSet(b)
    ensures a != [] ==> b != []
  {
    if a != [] {
      assert a[0] in ToSet(b);
    }
  }

  lemma FirstOfIncreasing(a: seq<string>, b: seq<string>)
    requires Increasing(a) && Increasing(b) && ToSet(a) == ToSet(b) && a != [] && b != []
    ensures a[0] == b[0]
  {
    assert a[0] in ToSet(b) && b[0] in ToSet(a);
    var i :| 0 <= i < |b| && b[i] == a[0];
    var j :| 0 <= j < |a| && a[j] == b[0];
    StrOrder(a[0], b[0]);
    if i > 0 && j > 0 {
      assert StrLt(b[0], b[i]) && StrLt(a[0], a[j]);
    }
  }

  /** The map row lists each distinct tail once, in order. */
  lemma MapMembersListed(names: seq<string>)
    ensures var members := Dedup(Sort(Tails(names), StrLe));
      Increasing(members) && ToSet(members) == ToSet(Tails(names))
  {
    StrTotalOrder();
    SortSorts(Tails(names), StrLe);
    var sorted := Sort(Tails(names), StrLe);
    DedupSorted(sorted);
    assert forall x :: x in sorted <==> x in multiset(sorted);
    assert forall x :: x in Tails(names) <==> x in multiset(Tails(names));
  }

  /** A name no other comes after. */
  ghost predicate IsGreatest(g: string, names: seq<string>) {
    g in names && forall x :: x in names ==> StrLe(x, g)
  }

  /** A kind is shown by the tail of its greatest name, the map by all its distinct tails in order. */
  lemma ExampleMeaning(kind: Kind, names: seq<string>)
    requires names != []
    ensures !kind.MapStructure? ==> exists g :: IsGreatest(g, names) && Example(kind, names) == Tail(g)
    ensures kind.MapStructure? ==> exists tails ::
      Increasing(tails) && ToSet(tails) == ToSet(Tails(names)) && Example(kind, names) == Join(tails, ", ")
  {
    GreatestIsGreatest(names);
    MapMembersListed(names);
    assert IsGreatest(Greatest(names).value, names);
  }

  lemma TailsSameSet(a: seq<string>, b: seq<string>)
    requires multiset(a) == multiset(b)
    ensures ToSet(Tails(a)) <= ToSet(Tails(b))
  {
    forall x | x in ToSet(Tails(a))
      ensures x in ToSet(Tails(b))
    {
      var i :| 0 <= i < |Tails(a)| && Tails(a)[i] == x;
      assert a[i] in multiset(b);
      var j :| 0 <= j < |b| && b[j] == a[i];
      assert Tails(b)[j] == x;
    }
  }

  lemma ExamplePermutes(kind: Kind, a: seq<string>, b: seq<string>)
    requires multiset(a) == multiset(b) && a != []
    ensures b != [] && Example(kind, a) == Example(kind, b)
  {
    GreatestPermutes(a, b);
    MapMembersListed(a);
    MapMembersListed(b);
    TailsSameSet(a, b);
    TailsSameSet(b, a);
    IncreasingUnique(Dedup(Sort(Tails(a), StrLe)), Dedup(Sort(Tails(b), StrLe)));
  }

  lemma {:induction false} RowsPermute(a: seq<string>, b: seq<string>, classify: string -> Kind, k: nat)
    requires multiset(a) == multiset(b) && k <= 9
    ensures RowsFrom(a, classify, k) == RowsFrom(b, classify, k)
    decreases 9 - k
  {
    if k < 9 {
      var x, y := OfKind(a, classify, ORDER[k]), OfKind(b, classify, ORDER[k]);
      KeepPermutes(a, b, IsKind(classify, ORDER[k]));
      SameSize(x, y);
      if x != [] {
        ExamplePermutes(ORDER[k], x, y);
      }
      RowsPermute(a, b, classify, k + 1);
    }
  }

  /** The same members in any order give the same rows. */
  lemma MemberOrderDoesNotMatter(a: seq<string>, b: seq<string>, classify: string -> Kind)
    requires multiset(a) == multiset(b)
    ensures SegmentRows(a, classify) == SegmentRows(b, classify)
  {
    RowsPermute(a, b, classify, 0);
  }

  // ----- the counts -----

  function Sum(rows: seq<Row>): nat {
    if rows == [] then 0 else rows[0].count + Sum(rows[1..])
  }

  lemma {:induction false} SumInsert(x: Row, s: seq<Row>)
    ensures Sum(Insert(x, s, CountGe)) == x.count + Sum(s)
  {
    if s != [] && !CountGe(x, s[0]) {
      SumInsert(x, s[1..]);
    }
  }

  lemma {:induction false} SumSort(s: seq<Row>)
    ensures Sum(Sort(s, CountGe)) == Sum(s)
  {
    if s != [] {
      SumSort(s[1..]);
      SumInsert(s[0], Sort(s[1..], CountGe));
    }
  }

  function TotalFrom(names: seq<string>, classify: string -> Kind, k: nat): nat
    requires k <= 9
    decreases 9 - k
  {
    if k == 9 then 0 else |OfKind(names, classify, ORDER[k])| + TotalFrom(names, classify, k + 1)
  }

  lemma {:induction false} SumIsTotal(names: seq<string>, classify: string -> Kind, k: nat)
    requires k <= 9
    ensures Sum(RowsFrom(names, classify, k)) == TotalFrom(names, classify, k)
    decreases 9 - k
  {
    if k < 9 {
      SumIsTotal(names, classify, k + 1);
      if OfKind(names, classify, ORDER[k]) != [] {
        assert RowsFrom(names, classify, k)[1..] == RowsFrom(names, classify, k + 1);
      } else {
        assert RowsFrom(names, classify, k) == RowsFrom(names, classify, k + 1);
      }
    }
  }

  lemma {:induction false} TotalSnoc(names: seq<string>, classify: string -> Kind, x: string, k: nat)
    requires k <= 9
    ensures TotalFrom(names + [x], classify, k) ==
      TotalFrom(names, classify, k) + (if Slot(classify(x)) >= k then 1 else 0)
    decreases 9 - k
  {
    if k < 9 {
      KeepSnoc(names, x, IsKind(classify, ORDER[k]));
      TotalSnoc(names, classify, x, k + 1);
    }
  }

  lemma {:induction false} TotalIsAll(names: seq<string>, classify: string -> Kind)
    ensures TotalFrom(names, classify, 0) == |names|
  {
    if names == [] {
      assert forall kind :: OfKind(names, classify, kind) == [];
      NothingToCount(classify, 0);
    } else {
      var shorter, last := names[..|names| - 1], names[|names| - 1];
      assert names == shorter + [last];
      TotalIsAll(shorter, classify);
      TotalSnoc(shorter, classify, last, 0);
    }
  }

  lemma {:induction false} NothingToCount(classify: string -> Kind, k: nat)
    requires k <= 9
    ensures TotalFrom([], classify, k) == 0
    decreases 9 - k
  {
    if k < 9 {
      NothingToCount(classify, k + 1);
    }
  }

  /** Every member is counted exactly once. */
  lemma CountsSumToMembers(names: seq<string>, classify: string -> Kind)
    ensures Sum(SegmentRows(names, classify)) == |names|
  {
    SumSort(RowsFrom(names, classify, 0));
    SumIsTotal(names, classify, 0);
    TotalIsAll(names, classify);
  }

  // ----- the order of the rows -----

  /** More members first, then the fixed order of kinds. */
  predicate RowBefore(a: Row, b: Row) {
    a.count > b.count || (a.count == b.count && Slot(a.kind) < Slot(b.kind))
  }

  /** The row's kind comes before those of all the others. */
  predicate Ahead(x: Row, s: seq<Row>) {
    forall j :: 0 <= j < |s| ==> Slot(x.kind) < Slot(s[j].kind)
  }

  /** The rows' kinds come in the fixed order. */
  predicate InOrder(s: seq<Row>) {
    s == [] || (Ahead(s[0], s[1..]) && InOrder(s[1..]))
  }

  lemma AheadOfPermutation(x: Row, s: seq<Row>, t: seq<Row>)
    requires Ahead(x, s) && multiset(t) == multiset(s)
    ensures Ahead(x, t)
  {
    forall j | 0 <= j < |t|
      ensures Slot(x.kind) < Slot(t[j].kind)
    {
      assert t[j] in multiset(s);
    }
  }

  lemma GoesFirst(x: Row, s: seq<Row>)
    requires Sorted(s, RowBefore) && Ahead(x, s) && (s == [] || CountGe(x, s[0]))
    ensures Sorted([x] + s, RowBefore)
  {
    forall j | 0 <= j < |s|
      ensures RowBefore(x, s[j])
    {
      assert j == 0 || RowBefore(s[0], s[j]);
    }
  }

  lemma StaysFirst(head: Row, rest: seq<Row>, x: Row, longer: seq<Row>)
    requires Sorted([head] + rest, RowBefore) && Sorted(longer, RowBefore) && RowBefore(head, x)
    requires multiset(longer) == multiset(rest) + multiset{x}
    ensures Sorted([head] + longer, RowBefore)
  {
    forall j | 0 <= j < |longer|
      ensures RowBefore(head, longer[j])
    {
      assert longer[j] in multiset(longer);
      if longer[j] != x {
        var k :| 0 <= k < |rest| && rest[k] == longer[j];
        assert RowBefore(([head] + rest)[0], ([head] + rest)[k + 1]);
      }
    }
  }

  lemma {:induction false} InsertKeepsOrder(x: Row, s: seq<Row>)
    requires Sorted(s, RowBefore) && Ahead(x, s)
    ensures Sorted(Insert(x, s, CountGe), RowBefore)
  {
    if s == [] || CountGe(x, s[0]) {
      GoesFirst(x, s);
    } else {
      InsertKeepsOrder(x, s[1..]);
      InsertKeepsElements(x, s[1..], CountGe);
      assert [s[0]] + s[1..] == s;
      StaysFirst(s[0], s[1..], x, Insert(x, s[1..], CountGe));
    }
  }

  lemma {:induction false} SortKeepsTies(s: seq<Row>)
    requires InOrder(s)
    ensures Sorted(Sort(s, CountGe), RowBefore) && multiset(Sort(s, CountGe)) == multiset(s)
  {
    if s != [] {
      SortKeepsTies(s[1..]);
      var rest := Sort(s[1..], CountGe);
      AheadOfPermutation(s[0], s[1..], rest);
      InsertKeepsOrder(s[0], rest);
      InsertKeepsElements(s[0], rest, CountGe);
      assert s == [s[0]] + s[1..];
    }
  }

  lemma {:induction false} RowsInOrder(names: seq<string>, classify: string -> Kind, k: nat)
    requires k <= 9
    ensures InOrder(RowsFrom(names, classify, k))
    ensures forall row :: row in RowsFrom(names, classify, k) ==> Slot(row.kind) >= k
    decreases 9 - k
  {
    if k < 9 {
      RowsInOrder(names, classify, k + 1);
      var rows, rest := RowsFrom(names, classify, k), RowsFrom(names, classify, k + 1);
      assert Slot(ORDER[k]) == k;
      if OfKind(names, classify, ORDER[k]) == [] {
        assert rows == rest;
      } else {
        assert rows[1..] == rest;
        assert Ahead(rows[0], rest);
      }
    }
  }

  function RowOf(names: seq<string>, classify: string -> Kind, kind: Kind): Row
    requires OfKind(names, classify, kind) != []
  {
    var members := OfKind(names, classify, kind);
    Row(kind, |members|, Example(kind, members))
  }

  lemma {:induction false} RowsAreThoseOfKinds(names: seq<string>, classify: string -> Kind, k: nat, row: Row)
    requires k <= 9
    ensures row in RowsFrom(names, classify, k) <==>
      Slot(row.kind) >= k && OfKind(names, classify, row.kind) != [] && row == RowOf(names, classify, row.kind)
    decreases 9 - k
  {
    if k < 9 {
      RowsAreThoseOfKinds(names, classify, k + 1, row);
      assert Slot(ORDER[k]) == k;
    }
  }

  /** The fullest kind comes first, and ties come in the fixed order. */
  lemma RowsDescend(names: seq<string>, classify: string -> Kind)
    ensures Sorted(SegmentRows(names, classify), RowBefore)
  {
    RowsInOrder(names, classify, 0);
    SortKeepsTies(RowsFrom(names, classify, 0));
  }

  /** The rows are exactly those of the kinds present. */
  lemma RowsOfKindsPresent(names: seq<string>, classify: string -> Kind, row: Row)
    ensures row in SegmentRows(names, classify) <==>
      OfKind(names, classify, row.kind) != [] && row == RowOf(names, classify, row.kind)
  {
    var rows := RowsFrom(names, classify, 0);
    RowsInOrder(names, classify, 0);
    SortKeepsTies(rows);
    assert row in SegmentRows(names, classify) <==> row in multiset(SegmentRows(names, classify));
    assert row in rows <==> row in multiset(rows);
    RowsAreThoseOfKinds(names, classify, 0, row);
  }
}
