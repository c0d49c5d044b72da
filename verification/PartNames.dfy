/**
 The names of the parts of a multi-part set (src/multi_part.rs): recognising them, reading their number,
 and finding the name a set shares.
 */
module PartNames {
  import opened Basics
  import opened NaturalOrder

  // ----- string operations of the standard library -----

  datatype Split = Split(stem: string, ext: string)

  /** `rsplit_once('.')`. */
  function RSplit(s: string): (r: Option<Split>)
    ensures r.None? <==> '.' !in s
    ensures r.Some? ==> s == r.value.stem + "." + r.value.ext && '.' !in r.value.ext
  {
    if s == "" then None
    else
      var most, last := s[..|s| - 1], s[|s| - 1];
      assert s == most + [last];
      if last == '.' then Some(Split(most, ""))
      else
        match RSplit(most)
        case None => None
        case Some(x) => Some(Split(x.stem, x.ext + [last]))
  }

  lemma {:induction false} RSplitUnique(stem: string, ext: string)
    requires '.' !in ext
    ensures RSplit(stem + "." + ext) == Some(Split(stem, ext))
  {
    var s := stem + "." + ext;
    if ext == "" {
      assert s[..|s| - 1] == stem;
    } else {
      var shorter := ext[..|ext| - 1];
      assert s[..|s| - 1] == stem + "." + shorter;
      assert s[|s| - 1] == ext[|ext| - 1] && ext == shorter + [ext[|ext| - 1]];
      RSplitUnique(stem, shorter);
    }
  }

  function LowerChar(c: char): char {
    if 'A' <= c <= 'Z' then (c as int + 32) as char else c
  }

  function Lower(s: string): (r: string)
    ensures |r| == |s|
  {
    seq(|s|, i requires 0 <= i < |s| => LowerChar(s[i]))
  }

  /** `trim_end_matches`. */
  function TrimEnd(s: string, p: char -> bool): (r: string)
    ensures r <= s
    ensures r != "" ==> !p(r[|r| - 1])
    ensures forall i :: |r| <= i < |s| ==> p(s[i])
  {
    if s != "" && p(s[|s| - 1]) then TrimEnd(s[..|s| - 1], p) else s
  }

  /** `trim_start_matches`. */
  function TrimStart(s: string, p: char -> bool): (r: string)
    ensures |r| <= |s| && r == s[|s| - |r|..]
    ensures r != "" ==> !p(r[0])
    ensures forall i :: 0 <= i < |s| - |r| ==> p(s[i])
  {
    if s != "" && p(s[0]) then TrimStart(s[1..], p) else s
  }

  lemma {:induction false} TrimEndIs(s: string, p: char -> bool, k: nat)
    requires k <= |s|
    requires k > 0 ==> !p(s[k - 1])
    requires forall i :: k <= i < |s| ==> p(s[i])
    ensures TrimEnd(s, p) == s[..k]
  {
    if k < |s| {
      TrimEndIs(s[..|s| - 1], p, k);
      assert s[..|s| - 1][..k] == s[..k];
    } else {
      assert s[..k] == s;
    }
  }

  lemma {:induction false} TrimStartIs(s: string, p: char -> bool, k: nat)
    requires k <= |s|
    requires k < |s| ==> !p(s[k])
    requires forall i :: 0 <= i < k ==> p(s[i])
    ensures TrimStart(s, p) == s[k..]
  {
    if k > 0 {
      TrimStartIs(s[1..], p, k - 1);
      assert s[1..][k - 1..] == s[k..];
    } else {
      assert s[0..] == s;
    }
  }

  predicate IsSeparator(c: char) {
    c == '_' || c == '-' || c == '.' || c == ' '
  }

  predicate NotDigit(c: char) {
    !IsDigit(c)
  }

  /** `parse::<u32>` of a run of digits. */
  function ParseU32(digits: string): (r: Option<nat>)
    ensures r.Some? ==> r.value <= U32_MAX
  {
    if Decimal(digits) <= U32_MAX then Some(Decimal(digits)) else None
  }

  /** Decimal rendering, without leading zeros. */
  function Render(n: nat): (r: string)
    ensures r != "" && AllDigits(r) && '.' !in r
    ensures Decimal(r) == n
  {
    var digit := [('0' as int + n % 10) as char];
    var r := if n < 10 then digit else Render(n / 10) + digit;
    assert r[..|r| - 1] == if n < 10 then "" else Render(n / 10);
    r
  }

  // ----- recognising a part -----

  predicate KnownExtension(ext: string) {
    Lower(ext) == "aff4" || Lower(ext) == "af4" || Lower(ext) == "aff4l"
  }

  predicate IsOrdinal(ext: string) {
    ext != "" && AllDigits(ext)
  }

  /** The name itself ends in a container extension. */
  predicate IsContainerName(name: string) {
    RSplit(name).Some? && KnownExtension(RSplit(name).value.ext)
  }

  predicate IsAff4Part(name: string) {
    match RSplit(name)
    case None => false
    case Some(x) => KnownExtension(x.ext) || (IsOrdinal(x.ext) && IsContainerName(x.stem))
  }

  /** The number the last digit run of a stem spells, when a separator or nothing comes before it. */
  function TrailingNumberOf(stem: string): (r: Option<nat>)
    ensures r.Some? ==> r.value <= U32_MAX
  {
    var upToRun := TrimEnd(stem, NotDigit);
    var before := TrimEnd(upToRun, IsDigit);
    if upToRun == "" || (before != "" && !IsSeparator(before[|before| - 1])) then None
    else ParseU32(upToRun[|before|..])
  }

  /** The backwards scan reads exactly the last digit run. */
  method TrailingNumber(stem: string) returns (r: Option<nat>)
    ensures r == TrailingNumberOf(stem)
  {
    var end: Option<nat> := None;
    var i := |stem|;
    while i > 0
      invariant 0 <= i <= |stem|
      invariant end.None? ==> forall j :: i <= j < |stem| ==> !IsDigit(stem[j])
      invariant end.Some? ==> i < end.value <= |stem|
      invariant end.Some? ==> forall j :: i <= j < end.value ==> IsDigit(stem[j])
      invariant end.Some? ==> forall j :: end.value <= j < |stem| ==> !IsDigit(stem[j])
    {
      i := i - 1;
      var c := stem[i];
      if IsDigit(c) {
        end := Some(if end.Some? then end.value else i + 1);
      } else if end.Some? {
        LastRunIs(stem, i + 1, end.value);
        if !IsSeparator(c) {
          return None;
        }
        return ParseU32(stem[i + 1..end.value]);
      }
    }
    if end.Some? {
      LastRunIs(stem, 0, end.value);
      return ParseU32(stem[..end.value]);
    }
    TrimEndIs(stem, NotDigit, 0);
    r := None;
  }

  lemma LastRunIs(stem: string, i: nat, end: nat)
    requires i < end <= |stem|
    requires i > 0 ==> !IsDigit(stem[i - 1])
    requires forall j :: i <= j < end ==> IsDigit(stem[j])
    requires forall j :: end <= j < |stem| ==> !IsDigit(stem[j])
    ensures TrailingNumberOf(stem) ==
      if i > 0 && !IsSeparator(stem[i - 1]) then None else ParseU32(stem[i..end])
  {
    TrimEndIs(stem, NotDigit, end);
    TrimEndIs(stem[..end], IsDigit, i);
    assert stem[..end][..i] == stem[..i];
    assert stem[..end][i..] == stem[i..end];
  }

  // ----- what is documented of a trailing number -----

  /** The number the digits at the very end of a stem spell, when a separator or nothing comes before them. */
  function DocumentedNumber(stem: string): Option<nat> {
    var before := TrimEnd(stem, IsDigit);
    if before == stem || (before != "" && !IsSeparator(before[|before| - 1])) then None
    else ParseU32(stem[|before|..])
  }

  predicate EndsInDigit(stem: string) {
    stem != "" && IsDigit(stem[|stem| - 1])
  }

  /** Where the last digit run of a stem starts and where it ends; both are the start when there is no digit. */
  function RunEnd(stem: string): nat {
    |TrimEnd(stem, NotDigit)|
  }

  function RunStart(stem: string): nat {
    |TrimEnd(TrimEnd(stem, NotDigit), IsDigit)|
  }

  lemma LastRunPlaces(stem: string)
    ensures RunStart(stem) <= RunEnd(stem) <= |stem|
    ensures RunStart(stem) == RunEnd(stem) <==> forall i :: 0 <= i < |stem| ==> !IsDigit(stem[i])
    ensures RunStart(stem) > 0 ==> !IsDigit(stem[RunStart(stem) - 1])
    ensures forall i :: RunStart(stem) <= i < RunEnd(stem) ==> IsDigit(stem[i])
    ensures forall i :: RunEnd(stem) <= i < |stem| ==> !IsDigit(stem[i])
  {
    var upToRun := TrimEnd(stem, NotDigit);
    assert upToRun != "" ==> IsDigit(upToRun[|upToRun| - 1]);
  }

  /** No number: no digit, a last run that follows a character of a word, or one that exceeds 32 bits. */
  predicate LastRunRefused(stem: string) {
    var from, to := RunStart(stem), RunEnd(stem);
    LastRunPlaces(stem);
    from == to || (from > 0 && !IsSeparator(stem[from - 1])) || Decimal(stem[from..to]) > U32_MAX
  }

  /** The scan finds no number exactly when the last run is refused. */
  lemma NumberRefusedExactlyWhen(stem: string)
    ensures TrailingNumberOf(stem).None? <==> LastRunRefused(stem)
  {
    LastRunPlaces(stem);
    if RunStart(stem) < RunEnd(stem) {
      LastRunIs(stem, RunStart(stem), RunEnd(stem));
    }
  }

  /**
   The scan reads a stem as documented exactly when the stem ends in a digit or its last run is refused. Any other stem
   is numbered by a run in its middle, where the documentation has no number.
   */
  lemma TrailingNumberDocumentedExactlyWhen(stem: string)
    ensures TrailingNumberOf(stem) == DocumentedNumber(stem) <==> EndsInDigit(stem) || LastRunRefused(stem)
  {
    NumberRefusedExactlyWhen(stem);
    if EndsInDigit(stem) {
      TrimEndIs(stem, NotDigit, |stem|);
      assert stem[..|stem|] == stem;
    } else {
      TrimEndIs(stem, IsDigit, |stem|);
      assert stem[..|stem|] == stem;
    }
  }

  /** `case_7_final` is part 7, and documented to have no number. */
  lemma NumberInTheMiddle()
    ensures TrailingNumberOf("case_7_final") == Some(7) && DocumentedNumber("case_7_final") == None
  {
    var stem := "case_7_final";
    LastRunIs(stem, 5, 6);
    assert stem[5..6] == "7";
    assert Decimal("7") == 7;
    TrimEndIs(stem, IsDigit, |stem|);
    assert stem[..|stem|] == stem;
  }

  function PartNumber(name: string): (r: Option<nat>)
    ensures r.Some? ==> r.value <= U32_MAX
  {
    match RSplit(name)
    case None => TrailingNumberOf(name)
    case Some(x) =>
      if IsOrdinal(x.ext) && IsContainerName(x.stem) then ParseU32(x.ext)
      else if KnownExtension(x.ext) && TrailingNumberOf(x.stem).None? then Some(0)
      else TrailingNumberOf(x.stem)
  }

  // ----- the name a set shares -----

  function SetBase(name: string): Option<string> {
    match RSplit(name)
    case None => None
    case Some(x) =>
      if IsOrdinal(x.ext) && IsAff4Part(name) then Some(x.stem)
      else if !KnownExtension(x.ext) then None
      else
        var digits := TrimEnd(x.stem, IsDigit);
        var trimmed := TrimEnd(digits, IsSeparator);
        if |digits| < |x.stem| && |trimmed| < |digits| && trimmed != "" then Some(trimmed + "." + x.ext)
        else Some(name)
  }

  /** `base` followed by a dot and an ordinal. */
  predicate IsLaterPart(candidate: string, base: string) {
    base <= candidate && |base| < |candidate| && candidate[|base|] == '.' && IsOrdinal(candidate[|base| + 1..])
  }

  /** The older convention: the same extension, and the stem followed by separators and digits. */
  predicate IsOlderPart(candidate: string, base: string) {
    match (RSplit(candidate), RSplit(base))
    case (Some(c), Some(b)) =>
      && Lower(c.ext) == Lower(b.ext) && b.stem <= c.stem
      && var rest := c.stem[|b.stem|..];
         var digits := TrimStart(rest, IsSeparator);
         |rest| > |digits| && digits != "" && AllDigits(digits)
    case _ => false
  }

  predicate SharesSetWith(candidate: string, base: string) {
    candidate == base || IsLaterPart(candidate, base) || IsOlderPart(candidate, base)
  }

  // ----- what a generated name is read as -----

  /** A base a set can be named after: a container name that reduces to itself. */
  predicate IsBase(base: string) {
    IsContainerName(base) && SetBase(base) == Some(base)
  }

  /** The name the scheme gives part `k`. */
  function PartName(base: string, k: nat): string {
    if k == 0 then base else base + "." + Render(k)
  }

  lemma OrdinalIsNoExtension(ext: string)
    requires IsOrdinal(ext)
    ensures !KnownExtension(ext)
  {
    assert IsDigit(ext[0]);
    assert Lower(ext)[0] == ext[0];
  }

  lemma OrdinalIsLater(base: string, ext: string)
    requires IsOrdinal(ext)
    ensures IsLaterPart(base + "." + ext, base)
  {
    var name := base + "." + ext;
    assert name[..|base|] == base && name[|base| + 1..] == ext;
  }

  /** Every later part's name is recognised, numbered, reduced to its base and counted in its set. */
  lemma GeneratedNameIsRead(base: string, k: nat)
    requires IsContainerName(base) && 1 <= k <= U32_MAX
    ensures var name := PartName(base, k);
      && IsAff4Part(name) && PartNumber(name) == Some(k)
      && SetBase(name) == Some(base) && SharesSetWith(name, base)
  {
    var name := PartName(base, k);
    RSplitUnique(base, Render(k));
    OrdinalIsNoExtension(Render(k));
    GeneratedNameShares(base, k);
  }

  lemma GeneratedNameShares(base: string, k: nat)
    ensures SharesSetWith(PartName(base, k), base)
  {
    if k > 0 {
      OrdinalIsLater(base, Render(k));
    }
  }

  /** The first part's number is the one its stem ends in, or zero. */
  lemma BaseNumber(base: string)
    requires IsContainerName(base)
    ensures IsAff4Part(base)
    ensures PartNumber(base) == var t := TrailingNumberOf(RSplit(base).value.stem); if t.None? then Some(0) else t
  {
    var ext := RSplit(base).value.ext;
    if IsOrdinal(ext) {
      OrdinalIsNoExtension(ext);
    }
  }

  /** The first part is numbered zero exactly when its stem's last run is refused or spells zero. */
  lemma NumberedZeroExactlyWhen(base: string)
    requires IsContainerName(base)
    ensures var stem := RSplit(base).value.stem;
      && RunStart(stem) <= RunEnd(stem) <= |stem|
      && (PartNumber(base) == Some(0) <==> LastRunRefused(stem) || Decimal(stem[RunStart(stem)..RunEnd(stem)]) == 0)
  {
    var stem := RSplit(base).value.stem;
    BaseNumber(base);
    LastRunPlaces(stem);
    NumberRefusedExactlyWhen(stem);
    if !LastRunRefused(stem) {
      LastRunIs(stem, RunStart(stem), RunEnd(stem));
    }
  }

  /** A stem of digits alone names a base, and one of 32 bits numbers it. */
  lemma DigitsNameABase(stem: string, ext: string)
    requires IsOrdinal(stem) && Decimal(stem) <= U32_MAX
    requires KnownExtension(ext) && '.' !in ext
    ensures IsBase(stem + "." + ext) && PartNumber(stem + "." + ext) == Some(Decimal(stem))
  {
    RSplitUnique(stem, ext);
    BaseNumber(stem + "." + ext);
    TrimEndIs(stem, IsDigit, 0);
    LastRunIs(stem, 0, |stem|);
    assert stem[0..|stem|] == stem;
    if IsOrdinal(ext) {
      OrdinalIsNoExtension(ext);
    }
  }

  lemma OlderPartIs(trimmed: string, seps: string, digits: string, ext: string)
    requires '.' !in ext && IsOrdinal(digits)
    requires seps != "" && (forall i :: 0 <= i < |seps| ==> IsSeparator(seps[i]))
    ensures IsOlderPart(trimmed + seps + digits + "." + ext, trimmed + "." + ext)
  {
    var whole := trimmed + seps + digits;
    RSplitUnique(whole, ext);
    RSplitUnique(trimmed, ext);
    assert whole[..|trimmed|] == trimmed;
    var rest := whole[|trimmed|..];
    assert rest == seps + digits;
    TrimStartIs(rest, IsSeparator, |seps|);
    assert rest[|seps|..] == digits;
  }

  /** What trimming takes off the end is all of the kind trimmed. */
  lemma TrimmedAway(s: string, p: char -> bool)
    ensures s == TrimEnd(s, p) + s[|TrimEnd(s, p)|..]
    ensures forall i :: 0 <= i < |s| - |TrimEnd(s, p)| ==> p(s[|TrimEnd(s, p)|..][i])
  {
    var r := TrimEnd(s, p);
    forall i | 0 <= i < |s| - |r|
      ensures p(s[|r|..][i])
    {
      assert s[|r|..][i] == s[|r| + i];
    }
  }

  lemma StrippedStemIsOlder(stem: string, ext: string)
    requires '.' !in ext
    requires |TrimEnd(TrimEnd(stem, IsDigit), IsSeparator)| < |TrimEnd(stem, IsDigit)| < |stem|
    ensures IsOlderPart(stem + "." + ext, TrimEnd(TrimEnd(stem, IsDigit), IsSeparator) + "." + ext)
  {
    var upTo := TrimEnd(stem, IsDigit);
    var trimmed := TrimEnd(upTo, IsSeparator);
    TrimmedAway(stem, IsDigit);
    TrimmedAway(upTo, IsSeparator);
    OlderPartIs(trimmed, upTo[|trimmed|..], stem[|upTo|..], ext);
  }

  /** A name always belongs to the set named by its own base. */
  lemma SharesItsOwnSet(name: string)
    requires SetBase(name).Some?
    ensures SharesSetWith(name, SetBase(name).value)
  {
    var x, base := RSplit(name).value, SetBase(name).value;
    if IsOrdinal(x.ext) && IsAff4Part(name) {
      OrdinalIsLater(x.stem, x.ext);
      assert IsLaterPart(name, base);
    } else if base != name {
      StrippedStemIsOlder(x.stem, x.ext);
      assert IsOlderPart(name, base);
    }
  }

  /** The three conventions reduce to one base: `foo.aff4`, `foo.aff4.1` and `foo_1.aff4` share a name. */
  lemma ConventionsAgree(stem: string, ext: string, seps: string, digits: string)
    requires stem != "" && !IsSeparator(stem[|stem| - 1]) && !IsDigit(stem[|stem| - 1])
    requires KnownExtension(ext) && '.' !in ext
    requires seps != "" && (forall i :: 0 <= i < |seps| ==> IsSeparator(seps[i]))
    requires IsOrdinal(digits)
    ensures var base := stem + "." + ext;
      && SetBase(base) == Some(base)
      && SetBase(base + "." + digits) == Some(base)
      && SetBase(stem + seps + digits + "." + ext) == Some(base)
  {
    var base := stem + "." + ext;
    RSplitUnique(stem, ext);
    if IsOrdinal(ext) {
      OrdinalIsNoExtension(ext);
    }
    TrimEndIs(stem, IsDigit, |stem|);
    NoDotInDigits(digits);
    RSplitUnique(base, digits);
    OlderNameReduces(stem, ext, seps, digits);
  }

  lemma NoDotInDigits(digits: string)
    requires AllDigits(digits)
    ensures '.' !in digits
  {
  }

  lemma OlderNameReduces(stem: string, ext: string, seps: string, digits: string)
    requires stem != "" && !IsSeparator(stem[|stem| - 1])
    requires KnownExtension(ext) && '.' !in ext
    requires seps != "" && (forall i :: 0 <= i < |seps| ==> IsSeparator(seps[i]))
    requires IsOrdinal(digits)
    ensures SetBase(stem + seps + digits + "." + ext) == Some(stem + "." + ext)
  {
    var whole := stem + seps + digits;
    RSplitUnique(whole, ext);
    if IsOrdinal(ext) {
      OrdinalIsNoExtension(ext);
    }
    assert (stem + seps)[|stem + seps| - 1] == seps[|seps| - 1];
    TrimJoined(stem + seps, digits, IsDigit);
    TrimJoined(stem, seps, IsSeparator);
  }

  lemma TrimJoined(front: string, tail: string, p: char -> bool)
    requires front != "" && !p(front[|front| - 1])
    requires forall i :: 0 <= i < |tail| ==> p(tail[i])
    ensures TrimEnd(front + tail, p) == front
  {
    TrimEndIs(front + tail, p, |front|);
    assert (front + tail)[..|front|] == front;
  }

  /** Each reduction strips one number, so reducing the base again may give another base. */
  lemma EachReductionStripsOneNumber(stem: string, ext: string, seps: string, digits: string, seps': string, digits': string)
    requires stem != "" && !IsSeparator(stem[|stem| - 1])
    requires KnownExtension(ext) && '.' !in ext
    requires seps != "" && (forall i :: 0 <= i < |seps| ==> IsSeparator(seps[i]))
    requires seps' != "" && (forall i :: 0 <= i < |seps'| ==> IsSeparator(seps'[i]))
    requires IsOrdinal(digits) && IsOrdinal(digits')
    ensures var once := stem + seps + digits + "." + ext;
      && SetBase(stem + seps + digits + seps' + digits' + "." + ext) == Some(once)
      && SetBase(once) == Some(stem + "." + ext) && stem + "." + ext != once
  {
    var longer := stem + seps + digits;
    assert longer[|longer| - 1] == digits[|digits| - 1];
    OlderNameReduces(longer, ext, seps', digits');
    OlderNameReduces(stem, ext, seps, digits);
    assert |longer + "." + ext| != |stem + "." + ext|;
  }

  /** A part of an AFF4 set has no number exactly when it is an ordinal name whose ordinal exceeds 32 bits. */
  lemma NumberMissingExactlyWhen(name: string)
    requires IsAff4Part(name)
    ensures PartNumber(name).None? <==>
      IsOrdinal(RSplit(name).value.ext) && Decimal(RSplit(name).value.ext) > U32_MAX
  {
    var x := RSplit(name).value;
    if IsOrdinal(x.ext) {
      OrdinalIsNoExtension(x.ext);
    }
  }
}
