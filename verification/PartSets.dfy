/** Finding a multi-part set in a folder and judging its names (src/multi_part.rs). */
module PartSets {
  import opened Basics
  import opened Appearances
  import opened Sorting
  import opened NaturalOrder
  import opened PartNames
  import opened PartNumbering

  /** `Path::extension`: a name that starts with its only dot has none. */
  function PathExtension(name: string): Option<string> {
    match RSplit(name)
    case None => None
    case Some(x) => if x.stem == "" then None else Some(x.ext)
  }

  predicate IsRawPart(name: string) {
    && !IsAff4Part(name)
    && PathExtension(name).Some? && IsOrdinal(PathExtension(name).value)
  }

  function Numbered(name: string, kind: Kind): (r: Option<nat>)
    ensures r.Some? ==> r.value <= U32_MAX
  {
    match kind
    case Aff4 => PartNumber(name)
    case RawImage =>
      match PathExtension(name)
      case None => None
      case Some(ext) => if IsOrdinal(ext) then ParseU32(ext) else None
  }

  function Numbers(parts: seq<string>, kind: Kind): (r: seq<Option<nat>>)
    ensures |r| == |parts| && Bounded(r)
  {
    seq(|parts|, i requires 0 <= i < |parts| => Numbered(parts[i], kind))
  }

  /** The set made of one kind's files: in natural order, their numbers checked. */
  function SetOf(kind: Kind, files: seq<string>): Result<PartSet, Refusal>
    requires files != []
  {
    var parts := SortNames(files);
    Judge(kind, parts, Numbers(parts, kind))
  }

  function SortNames(files: seq<string>): (r: seq<string>)
    ensures multiset(r) == multiset(files) && |r| == |files|
    ensures Sorted(r, NaturalLe)
  {
    NaturalIsTotalPreorder();
    SortSorts(files, NaturalLe);
    Sort(files, NaturalLe)
  }

  function DiscoverOf(listing: seq<string>): Result<PartSet, Refusal> {
    var aff4, raw := Keep(listing, IsAff4Part), Keep(listing, IsRawPart);
    if aff4 != [] && raw != [] then Failure(Mixed)
    else if aff4 != [] then SetOf(Aff4, aff4)
    else if raw != [] then SetOf(RawImage, raw)
    else Failure(NoSet)
  }

  /** `discover`, once the folder's files are listed. */
  method Discover(listing: seq<string>) returns (r: Result<PartSet, Refusal>)
    ensures r == DiscoverOf(listing)
  {
    var aff4: seq<string>, raw: seq<string> := [], [];
    for i := 0 to |listing|
      invariant aff4 == Keep(listing[..i], IsAff4Part)
      invariant raw == Keep(listing[..i], IsRawPart)
    {
      var name := listing[i];
      assert listing[..i + 1] == listing[..i] + [name];
      KeepSnoc(listing[..i], name, IsAff4Part);
      KeepSnoc(listing[..i], name, IsRawPart);
      if IsAff4Part(name) {
        aff4 := aff4 + [name];
      } else if IsRawPart(name) {
        raw := raw + [name];
      }
    }
    assert listing[..|listing|] == listing;
    if aff4 != [] && raw != [] {
      return Failure(Mixed);
    } else if aff4 == [] && raw == [] {
      return Failure(NoSet);
    } else if aff4 == [] {
      r := SetFrom(RawImage, raw);
    } else {
      r := SetFrom(Aff4, aff4);
    }
  }

  method SetFrom(kind: Kind, files: seq<string>) returns (r: Result<PartSet, Refusal>)
    requires files != []
    ensures r == SetOf(kind, files)
  {
    var parts := SortNames(files);
    var numbers: seq<Option<nat>> := [];
    for i := 0 to |parts|
      invariant |numbers| == i
      invariant forall k :: 0 <= k < i ==> numbers[k] == Numbered(parts[k], kind)
    {
      numbers := numbers + [Numbered(parts[i], kind)];
    }
    assert numbers == Numbers(parts, kind);
    r := CheckNumbers(kind, parts, numbers);
  }

  // ----- an accepted set has no gap -----

  /** The files a set of this kind is made of. */
  function FilesOf(listing: seq<string>, kind: Kind): seq<string> {
    if kind.Aff4? then Keep(listing, IsAff4Part) else Keep(listing, IsRawPart)
  }

  function Other(kind: Kind): Kind {
    if kind.Aff4? then RawImage else Aff4
  }

  /** A folder is accepted as a set of one kind. */
  predicate AcceptedAs(listing: seq<string>, kind: Kind) {
    DiscoverOf(listing).Success? && DiscoverOf(listing).value.kind == kind
  }

  /** What the set made of one kind's files is accepted on, and what it holds. */
  lemma SetOfExactlyWhen(kind: Kind, files: seq<string>)
    requires files != []
    ensures var parts := SortNames(files);
      var numbers := Numbers(parts, kind);
      && (SetOf(kind, files).Success? <==> (AllNumbered(numbers) ==> Consecutive(numbers)))
      && (SetOf(kind, files).Success? ==>
            SetOf(kind, files).value == PartSet(kind, parts, numbers[0], numbers[|numbers| - 1]))
  {
    var parts := SortNames(files);
    AcceptsExactlyWhen(kind, parts, Numbers(parts, kind));
  }

  lemma KindDecides(listing: seq<string>, kind: Kind)
    ensures AcceptedAs(listing, kind) <==>
      && FilesOf(listing, kind) != [] && FilesOf(listing, Other(kind)) == []
      && SetOf(kind, FilesOf(listing, kind)).Success?
    ensures AcceptedAs(listing, kind) ==> DiscoverOf(listing) == SetOf(kind, FilesOf(listing, kind))
  {
    if FilesOf(listing, kind) != [] {
      SetOfExactlyWhen(kind, FilesOf(listing, kind));
    }
    if FilesOf(listing, Other(kind)) != [] {
      SetOfExactlyWhen(Other(kind), FilesOf(listing, Other(kind)));
    }
  }

  /**
   A folder is accepted exactly when it holds one kind of part and its numbers, if every part has one, run on
   without a gap; the parts are then all of that kind's files in natural order.
   */
  lemma AcceptedExactlyWhen(listing: seq<string>, kind: Kind)
    ensures AcceptedAs(listing, kind) <==>
      && FilesOf(listing, kind) != [] && FilesOf(listing, Other(kind)) == []
      && var numbers := Numbers(SortNames(FilesOf(listing, kind)), kind);
         (AllNumbered(numbers) ==> Consecutive(numbers))
    ensures AcceptedAs(listing, kind) ==>
      var parts := SortNames(FilesOf(listing, kind));
      var numbers := Numbers(parts, kind);
      |numbers| > 0 && DiscoverOf(listing) == Success(PartSet(kind, parts, numbers[0], numbers[|numbers| - 1]))
  {
    KindDecides(listing, kind);
    if FilesOf(listing, kind) != [] {
      SetOfExactlyWhen(kind, FilesOf(listing, kind));
    }
  }

  /** With every number below the 32-bit limit an accepted, numbered set counts from its first to its last part. */
  lemma AcceptedNeverHasAGap(listing: seq<string>, kind: Kind)
    requires AcceptedAs(listing, kind)
    ensures var set_ := DiscoverOf(listing).value;
      var numbers := Numbers(set_.parts, kind);
      && |numbers| > 0 && set_.first == numbers[0] && set_.last == numbers[|numbers| - 1]
      && (AllNumbered(numbers) && BelowLimit(numbers) ==> CountsUp(numbers))
  {
    AcceptedExactlyWhen(listing, kind);
    var numbers := Numbers(DiscoverOf(listing).value.parts, kind);
    if AllNumbered(numbers) && BelowLimit(numbers) {
      ConsecutiveCountsUp(numbers);
    }
  }

  /** An ordinal that fits 32 bits, or no ordinal at all. */
  predicate OrdinalFits(name: string) {
    RSplit(name).Some? && IsOrdinal(RSplit(name).value.ext) ==> Decimal(RSplit(name).value.ext) <= U32_MAX
  }

  /** Every AFF4 set whose ordinals fit 32 bits is numbered throughout, so no gap in it goes unseen. */
  lemma Aff4SetIsNumbered(parts: seq<string>)
    requires forall name :: name in parts ==> IsAff4Part(name) && OrdinalFits(name)
    ensures AllNumbered(Numbers(parts, Aff4))
  {
    forall i | 0 <= i < |parts|
      ensures Numbers(parts, Aff4)[i].Some?
    {
      NumberMissingExactlyWhen(parts[i]);
    }
  }

  // ----- the order of the listing does not matter -----

  lemma SortOfPermutation(s: seq<string>, t: seq<string>)
    requires multiset(s) == multiset(t)
    requires forall name :: name in s ==> Precise(name)
    ensures SortNames(s) == SortNames(t)
  {
    var a, b := SortNames(s), SortNames(t);
    forall x, y | x in a && y in a && NaturalLe(x, y) && NaturalLe(y, x)
      ensures x == y
    {
      assert x in multiset(a);
      ListCmpAntisymmetric(Tokens(x), Tokens(y));
      TiesOnlyWithItselfExactlyWhen(x);
    }
    SortedUnique(a, b, NaturalLe);
  }

  lemma KeptPermutes(listing: seq<string>, other: seq<string>, f: string -> bool)
    requires multiset(listing) == multiset(other)
    requires forall name :: name in listing ==> Precise(name)
    ensures SortNames(Keep(listing, f)) == SortNames(Keep(other, f))
    ensures Keep(listing, f) == [] <==> Keep(other, f) == []
  {
    KeepPermutes(listing, other, f);
    SortOfPermutation(Keep(listing, f), Keep(other, f));
    SameSize(Keep(listing, f), Keep(other, f));
  }

  /** However the folder is listed the answer is the same, as long as no digit run in it saturates. */
  lemma ListingOrderDoesNotMatter(listing: seq<string>, other: seq<string>)
    requires multiset(listing) == multiset(other)
    requires forall name :: name in listing ==> Precise(name)
    ensures DiscoverOf(listing) == DiscoverOf(other)
  {
    KeptPermutes(listing, other, IsAff4Part);
    KeptPermutes(listing, other, IsRawPart);
  }

  // ----- generated names -----

  /** `base`, `base.1`, ..., `base.n`. */
  function Generated(base: string, n: nat): (r: seq<string>)
    ensures |r| == n + 1
    ensures forall k :: 0 <= k <= n ==> r[k] == PartName(base, k)
  {
    seq(n + 1, (k: nat) => PartName(base, k))
  }

  lemma {:induction false} CommonPrefix(p: seq<Token>, a: seq<Token>, b: seq<Token>)
    ensures ListCmp(p + a, p + b) == ListCmp(a, b)
  {
    if p == [] {
      assert p + a == a && p + b == b;
    } else {
      assert (p + a)[1..] == p[1..] + a && (p + b)[1..] == p[1..] + b;
      CommonPrefix(p[1..], a, b);
    }
  }

  lemma PartNameTokens(base: string, k: nat)
    requires 0 < k <= U64_MAX
    ensures Tokens(PartName(base, k)) == Tokens(base) + [Letter('.'), Number(k, |Render(k)|)]
  {
    var digits := Render(k);
    var tail := "." + digits;
    assert PartName(base, k) == base + tail;
    TokensJoin(base, tail);
    TokensOfLetter('.', digits);
    TokensOfRun(digits, "");
    assert digits + "" == digits;
  }

  /** The generated names come in the order of their numbers. */
  lemma GeneratedInOrder(base: string, j: nat, k: nat)
    requires j < k <= U64_MAX
    ensures NaturalOrdering(PartName(base, j), PartName(base, k)).Less?
  {
    PartNameTokens(base, k);
    var p, later := Tokens(base), [Letter('.'), Number(k, |Render(k)|)];
    if j == 0 {
      assert p + [] == p;
      CommonPrefix(p, [], later);
    } else {
      PartNameTokens(base, j);
      CommonPrefix(p, [Letter('.'), Number(j, |Render(j)|)], later);
    }
  }

  lemma GeneratedSorted(base: string, n: nat)
    requires n <= U64_MAX
    ensures Sorted(Generated(base, n), NaturalLe)
  {
    var wanted := Generated(base, n);
    forall i, j | 0 <= i < j < |wanted|
      ensures NaturalLe(wanted[i], wanted[j])
    {
      GeneratedInOrder(base, i, j);
    }
  }

  lemma GeneratedUntied(base: string, n: nat)
    requires n <= U64_MAX
    ensures Untied(Generated(base, n), NaturalLe)
  {
    var wanted := Generated(base, n);
    forall x, y | x in wanted && y in wanted && NaturalLe(x, y) && NaturalLe(y, x)
      ensures x == y
    {
      var i :| 0 <= i < |wanted| && wanted[i] == x;
      var j :| 0 <= j < |wanted| && wanted[j] == y;
      if i != j {
        GeneratedInOrder(base, if i < j then i else j, if i < j then j else i);
        ListCmpAntisymmetric(Tokens(x), Tokens(y));
      }
    }
  }

  /** Sorting any arrangement of the generated names restores their order. */
  lemma SortRestores(base: string, n: nat, files: seq<string>)
    requires n <= U64_MAX && multiset(files) == multiset(Generated(base, n))
    ensures SortNames(files) == Generated(base, n)
  {
    GeneratedSorted(base, n);
    GeneratedUntied(base, n);
    SortedUnique(Generated(base, n), SortNames(files), NaturalLe);
  }

  lemma GeneratedAreParts(base: string, n: nat)
    requires IsContainerName(base) && n <= U32_MAX
    ensures forall name :: name in Generated(base, n) ==> IsAff4Part(name)
  {
    BaseNumber(base);
    forall k | 0 <= k <= n
      ensures IsAff4Part(Generated(base, n)[k])
    {
      if k > 0 {
        GeneratedNameIsRead(base, k);
      }
    }
  }

  /** The numbers read from the generated names: the base's own, then 1 to `n`. */
  lemma GeneratedNumbers(base: string, n: nat)
    requires IsContainerName(base) && n <= U32_MAX
    ensures var numbers := Numbers(Generated(base, n), Aff4);
      && numbers[0] == PartNumber(base) && numbers[0].Some?
      && forall k :: 1 <= k <= n ==> numbers[k] == Some(k)
  {
    BaseNumber(base);
    forall k | 1 <= k <= n
      ensures Numbers(Generated(base, n), Aff4)[k] == Some(k)
    {
      GeneratedNameIsRead(base, k);
    }
  }

  /**
   A folder holding a generated set, in any order and among files that are no parts, is accepted as parts 0 to `n`
   exactly when the base's own name is numbered zero. A base such as `2024.aff4` is read as part 2024, so
   its set is refused as having a gap.
   */
  lemma GeneratedSetAcceptedExactlyWhen(base: string, n: nat, listing: seq<string>, others: seq<string>)
    requires IsContainerName(base) && 1 <= n <= U32_MAX
    requires multiset(listing) == multiset(Generated(base, n) + others)
    requires forall name :: name in others ==> !IsAff4Part(name) && !IsRawPart(name)
    ensures PartNumber(base).Some?
    ensures DiscoverOf(listing) ==
      if PartNumber(base) == Some(0) then Success(PartSet(Aff4, Generated(base, n), Some(0), Some(n)))
      else Failure(Gap(PartNumber(base).value, 1))
  {
    GeneratedListed(base, n, listing, others);
    SortRestores(base, n, Keep(listing, IsAff4Part));
    GeneratedNumbers(base, n);
    CountingFromOne(Aff4, Generated(base, n), Numbers(Generated(base, n), Aff4));
  }

  /** `2024.aff4` and `2024.aff4.1` are named as the scheme names them, and refused as having a gap. */
  lemma NumberedBaseRefused(listing: seq<string>)
    requires multiset(listing) == multiset(Generated("2024.aff4", 1))
    ensures IsBase("2024.aff4") && PartNumber("2024.aff4") == Some(2024)
    ensures DiscoverOf(listing) == Failure(Gap(2024, 1))
  {
    NumberedBase();
    assert Generated("2024.aff4", 1) + [] == Generated("2024.aff4", 1);
    GeneratedSetAcceptedExactlyWhen("2024.aff4", 1, listing, []);
  }

  lemma NumberedBase()
    ensures IsBase("2024.aff4") && PartNumber("2024.aff4") == Some(2024)
  {
    assert "2024" + "." + "aff4" == "2024.aff4";
    assert Lower("aff4") == "aff4";
    DecimalOf2024();
    DigitsNameABase("2024", "aff4");
  }

  lemma DecimalOf2024()
    ensures Decimal("2024") == 2024
  {
    assert "2024"[..3] == "202" && "202"[..2] == "20" && "20"[..1] == "2" && "2"[..0] == "";
  }

  lemma GeneratedListed(base: string, n: nat, listing: seq<string>, others: seq<string>)
    requires IsContainerName(base) && n <= U32_MAX
    requires multiset(listing) == multiset(Generated(base, n) + others)
    requires forall name :: name in others ==> !IsAff4Part(name) && !IsRawPart(name)
    ensures multiset(Keep(listing, IsAff4Part)) == multiset(Generated(base, n))
    ensures Keep(listing, IsAff4Part) != [] && Keep(listing, IsRawPart) == []
  {
    var whole := Generated(base, n);
    GeneratedAreParts(base, n);
    KeepPermutes(listing, whole + others, IsAff4Part);
    KeepJoin(whole, others, IsAff4Part);
    KeepAll(whole, IsAff4Part);
    KeepNone(others, IsAff4Part);
    assert Keep(whole + others, IsAff4Part) == whole;
    SameSize(Keep(listing, IsAff4Part), whole);
    forall name | name in listing
      ensures !IsRawPart(name)
    {
      assert name in multiset(listing);
      assert name in whole + others;
    }
    KeepNone(listing, IsRawPart);
  }

  // ----- judging the names -----

  datatype Departure = Departure(names: seq<string>, wanted: seq<string>)

  function SharesWith(base: string): string -> bool {
    name => SharesSetWith(name, base)
  }

  function Members(listing: seq<string>, base: string): seq<string> {
    Keep(listing, SharesWith(base))
  }

  lemma MembersSnoc(listing: seq<string>, i: nat, base: string)
    requires i < |listing|
    ensures Members(listing[..i + 1], base) ==
      if SharesSetWith(listing[i], base) then Members(listing[..i], base) + [listing[i]] else Members(listing[..i], base)
  {
    assert listing[..i + 1] == listing[..i] + [listing[i]];
    KeepSnoc(listing[..i], listing[i], SharesWith(base));
  }

  function DepartureOf(listing: seq<string>, name: string): Option<Departure> {
    match SetBase(name)
    case None => None
    case Some(base) =>
      var names := SortNames(Members(listing, base));
      if |names| < 2 || names == Generated(base, |names| - 1) then None
      else Some(Departure(names, Generated(base, |names| - 1)))
  }

  method FindMembers(listing: seq<string>, base: string) returns (names: seq<string>)
    ensures names == Members(listing, base)
  {
    names := [];
    for i := 0 to |listing|
      invariant names == Members(listing[..i], base)
    {
      MembersSnoc(listing, i, base);
      if SharesSetWith(listing[i], base) {
        names := names + [listing[i]];
      }
    }
    assert listing[..|listing|] == listing;
  }

  method NamesOfScheme(base: string, count: nat) returns (wanted: seq<string>)
    requires count > 0
    ensures wanted == Generated(base, count - 1)
  {
    wanted := [];
    for index := 0 to count
      invariant |wanted| == index
      invariant forall k :: 0 <= k < index ==> wanted[k] == PartName(base, k)
    {
      wanted := wanted + [if index == 0 then base else base + "." + Render(index)];
    }
  }

  /** `naming_departure`, once the folder's files are listed. */
  method NamingDeparture(listing: seq<string>, name: string) returns (r: Option<Departure>)
    ensures r == DepartureOf(listing, name)
  {
    var found := SetBase(name);
    if found.None? {
      return None;
    }
    var names := FindMembers(listing, found.value);
    names := SortNames(names);
    if |names| < 2 {
      return None;
    }
    var wanted := NamesOfScheme(found.value, |names|);
    r := if names == wanted then None else Some(Departure(names, wanted));
  }

  /** No departure is recorded exactly when the set's members are the generated names, in whatever order listed. */
  lemma ConformsExactlyWhen(listing: seq<string>, name: string, base: string)
    requires SetBase(name) == Some(base) && |Members(listing, base)| <= U64_MAX
    ensures DepartureOf(listing, name).None? <==>
      |Members(listing, base)| < 2
      || multiset(Members(listing, base)) == multiset(Generated(base, |Members(listing, base)| - 1))
  {
    var members := Members(listing, base);
    if |members| >= 2 {
      SortedIsGenerated(base, members);
    }
  }

  lemma SortedIsGenerated(base: string, members: seq<string>)
    requires 2 <= |members| <= U64_MAX
    ensures SortNames(members) == Generated(base, |members| - 1) <==>
      multiset(members) == multiset(Generated(base, |members| - 1))
  {
    if multiset(members) == multiset(Generated(base, |members| - 1)) {
      SortRestores(base, |members| - 1, members);
    }
  }

  /** A generated set among files of no concern to it conforms, in any order and asked of any of its parts. */
  lemma GeneratedSetConforms(base: string, n: nat, listing: seq<string>, others: seq<string>, k: nat)
    requires IsBase(base) && k <= n <= U32_MAX
    requires multiset(listing) == multiset(Generated(base, n) + others)
    requires forall name :: name in others ==> !SharesSetWith(name, base)
    ensures DepartureOf(listing, PartName(base, k)).None?
  {
    var whole := Generated(base, n);
    var shares := SharesWith(base);
    forall i | 0 <= i <= n
      ensures shares(whole[i])
    {
      GeneratedNameShares(base, i);
    }
    KeepPermutes(listing, whole + others, shares);
    KeepJoin(whole, others, shares);
    KeepAll(whole, shares);
    KeepNone(others, shares);
    assert Keep(whole + others, shares) == whole;
    SameSize(Members(listing, base), whole);
    if k > 0 {
      GeneratedNameIsRead(base, k);
    }
    ConformsExactlyWhen(listing, PartName(base, k), base);
  }
}
