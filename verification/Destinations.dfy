/** Giving every exported file a destination of its own (`deconflict`, src/main.rs). */
module Destinations {
  import opened Basics
  import opened Exporting
  import PartNames
  import Utf8

  /**
   A file name: text, or bytes that are not UTF-8, with the text the library shows for them, and for the parts
   before and from their last dot.
   */
  datatype Name = Text(text: string) | Raw(bytes: seq<Byte>, shown: string, stem: string, suffix: string) {
    function Shown(): string {
      if Text? then text else shown
    }

    function Bytes(): seq<Byte> {
      if Text? then Utf8.Encode(text) else bytes
    }

    /** `Path::file_stem`, as text. */
    function Stem(): string {
      if Text? then FileStem(text) else stem
    }

    /** `Path::extension` with its dot, as text, or nothing. */
    function Ending(): string {
      if Text? then Suffix(text) else suffix
    }
  }

  /** A destination: the directory and the file name in it. */
  datatype Path = Path(parent: seq<Name>, name: Name)

  datatype Alteration = Alteration(recorded: string, written: string, reasons: seq<Reason>)

  function FileStem(name: string): string {
    match PartNames.RSplit(name)
    case None => name
    case Some(x) => if name == ".." || x.stem == "" then name else x.stem
  }

  function Suffix(name: string): string {
    match PartNames.RSplit(name)
    case None => ""
    case Some(x) => if name == ".." || x.stem == "" then "" else "." + x.ext
  }

  lemma StemAndSuffix(name: string)
    ensures name == FileStem(name) + Suffix(name)
  {
  }

  const FIRST: nat := 2
  const LIMIT: nat := 10_000

  function Marker(n: nat): string {
    " (" + PartNames.Render(n) + ")"
  }

  /** `name (n).ext`, in the same directory. */
  function Candidate(p: Path, n: nat): Path {
    Path(p.parent, Text(p.name.Stem() + Marker(n) + p.name.Ending()))
  }

  /** The first candidate from `n` on that is not taken. */
  function FirstFree(taken: set<Path>, p: Path, n: nat): (r: Option<nat>)
    ensures r.Some? ==> n <= r.value < LIMIT && Candidate(p, r.value) !in taken
    ensures r.None? ==> forall m :: n <= m < LIMIT ==> Candidate(p, m) in taken
    decreases LIMIT - n
  {
    if n >= LIMIT then None else if Candidate(p, n) !in taken then Some(n) else FirstFree(taken, p, n + 1)
  }

  /** The alteration with a rename added; what it said before is kept. */
  function WithRename(alteration: Option<Alteration>, recorded: string, name: string): Alteration {
    match alteration
    case Some(a) => Alteration(a.recorded, name, a.reasons + [Renamed(name)])
    case None => Alteration(recorded, name, [Renamed(name)])
  }

  datatype Given = Given(path: Path, alteration: Option<Alteration>, taken: set<Path>)

  function DeconflictOf(p: Path, alteration: Option<Alteration>, recorded: string, taken: set<Path>): Given {
    if p !in taken then Given(p, alteration, taken + {p})
    else
      match FirstFree(taken, p, FIRST)
      case Some(n) =>
        var c := Candidate(p, n);
        Given(c, Some(WithRename(alteration, recorded, c.name.text)), taken + {c})
      case None => Given(p, alteration, taken)
  }

  method Deconflict(p: Path, alteration: Option<Alteration>, recorded: string, taken: set<Path>) returns (given: Given)
    ensures given == DeconflictOf(p, alteration, recorded, taken)
  {
    if p !in taken {
      return Given(p, alteration, taken + {p});
    }
    var n := FIRST;
    while n < LIMIT
      invariant FIRST <= n <= LIMIT
      invariant FirstFree(taken, p, FIRST) == FirstFree(taken, p, n)
    {
      var candidate := Candidate(p, n);
      if candidate !in taken {
        return Given(candidate, Some(WithRename(alteration, recorded, candidate.name.text)), taken + {candidate});
      }
      n := n + 1;
    }
    given := Given(p, alteration, taken);
  }

  // ----- the candidates are distinct -----

  lemma RenderInjective(m: nat, n: nat)
    requires PartNames.Render(m) == PartNames.Render(n)
    ensures m == n
  {
  }

  lemma SameMiddle(front: string, x: string, y: string, back: string)
    requires front + x + back == front + y + back
    ensures x == y
  {
    var s, t := front + x + back, front + y + back;
    assert |x| == |y|;
    assert x == s[|front|..|front| + |x|] == t[|front|..|front| + |y|] == y;
  }

  lemma MarkerInjective(m: nat, n: nat)
    requires Marker(m) == Marker(n)
    ensures m == n
  {
    SameMiddle(" (", PartNames.Render(m), PartNames.Render(n), ")");
    RenderInjective(m, n);
  }

  /** Different numbers give different names, and none of them is the name asked for. */
  lemma CandidatesDistinct(p: Path, m: nat, n: nat)
    ensures Candidate(p, m) == Candidate(p, n) ==> m == n
    ensures Candidate(p, n) != p
  {
    if Candidate(p, m) == Candidate(p, n) {
      SameMiddle(p.name.Stem(), Marker(m), Marker(n), p.name.Ending());
      MarkerInjective(m, n);
    }
    if p.name.Text? {
      StemAndSuffix(p.name.text);
      assert |Candidate(p, n).name.text| > |p.name.text|;
    }
  }

  /** The name asked for and its candidates numbered from 2 up to, but not including, `n`. */
  function NamesUpTo(p: Path, n: nat): (names: set<Path>)
    ensures p in names
  {
    if n <= FIRST then {p} else NamesUpTo(p, n - 1) + {Candidate(p, n - 1)}
  }

  lemma {:induction false} AmongNames(p: Path, m: nat, n: nat)
    requires FIRST <= m < n
    ensures Candidate(p, m) in NamesUpTo(p, n)
  {
    if m < n - 1 {
      AmongNames(p, m, n - 1);
    }
  }

  /** A candidate is not among the names before it. */
  lemma {:induction false} NewName(p: Path, n: nat, m: nat)
    requires m <= n
    ensures Candidate(p, n) !in NamesUpTo(p, m)
  {
    CandidatesDistinct(p, n, n);
    if m > FIRST {
      NewName(p, n, m - 1);
      CandidatesDistinct(p, n, m - 1);
    }
  }

  lemma {:induction false} NameCount(p: Path, n: nat)
    requires n >= FIRST
    ensures |NamesUpTo(p, n)| == n - 1
  {
    if n > FIRST {
      NameCount(p, n - 1);
      NewName(p, n - 1, n - 1);
    }
  }

  lemma {:induction false} NamesTaken(p: Path, n: nat, taken: set<Path>)
    requires p in taken && forall m :: FIRST <= m < n ==> Candidate(p, m) in taken
    ensures NamesUpTo(p, n) <= taken
  {
    if n > FIRST {
      NamesTaken(p, n - 1, taken);
    }
  }

  /** With fewer than 9,999 destinations taken, the name or one of its 9,998 candidates is free. */
  lemma SomeNameIsFree(p: Path, taken: set<Path>)
    requires |taken| < 9_999
    ensures p !in taken || FirstFree(taken, p, FIRST).Some?
  {
    if p in taken && FirstFree(taken, p, FIRST).None? {
      NamesTaken(p, LIMIT, taken);
      NameCount(p, LIMIT);
      SubsetSize(NamesUpTo(p, LIMIT), taken);
    }
  }

  // ----- one call -----

  /** Every name this destination could be given is taken already. */
  predicate Exhausted(p: Path, taken: set<Path>) {
    p in taken && forall n :: FIRST <= n < LIMIT ==> Candidate(p, n) in taken
  }

  /**
   A call gives a new destination exactly when the name asked for or one of its candidates is free. It stays in
   the same directory; a rename is reported with what was reported before; and otherwise nothing changes.
   */
  lemma GivesNewExactlyWhen(p: Path, alteration: Option<Alteration>, recorded: string, taken: set<Path>)
    ensures var g := DeconflictOf(p, alteration, recorded, taken);
      && (g.path !in taken <==> !Exhausted(p, taken))
      && g.path.parent == p.parent && g.taken == taken + {g.path}
      && (g.path == p ==> g.alteration == alteration)
      && (g.path != p ==> g.alteration.Some? && g.path.name.Text? && Renamed(g.path.name.text) in g.alteration.value.reasons)
      && (alteration.Some? ==> g.alteration.Some? && g.alteration.value.recorded == alteration.value.recorded
                               && alteration.value.reasons <= g.alteration.value.reasons)
  {
    var g := DeconflictOf(p, alteration, recorded, taken);
    if p in taken && FirstFree(taken, p, FIRST).Some? {
      var n := FirstFree(taken, p, FIRST).value;
      CandidatesDistinct(p, n, n);
      var reasons := g.alteration.value.reasons;
      assert reasons[|reasons| - 1] == Renamed(g.path.name.text);
    }
  }

  // ----- a whole run -----

  datatype Request = Request(path: Path, alteration: Option<Alteration>, recorded: string)

  /** The destinations given, in order, starting with nothing taken. */
  function Run(requests: seq<Request>): (r: (seq<Path>, set<Path>))
    ensures |r.0| == |requests|
  {
    if requests == [] then ([], {})
    else
      var (paths, taken) := Run(requests[..|requests| - 1]);
      var last := requests[|requests| - 1];
      var g := DeconflictOf(last.path, last.alteration, last.recorded, taken);
      (paths + [g.path], g.taken)
  }

  /** One more request is one more call. */
  lemma RunSnoc(requests: seq<Request>)
    requires requests != []
    ensures var (paths, taken) := Run(requests[..|requests| - 1]);
      var last := requests[|requests| - 1];
      var g := DeconflictOf(last.path, last.alteration, last.recorded, taken);
      Run(requests) == (paths + [g.path], g.taken) && g.taken == taken + {g.path} && g.path.parent == last.path.parent
      && (g.path !in taken <==> !Exhausted(last.path, taken))
  {
    var last := requests[|requests| - 1];
    GivesNewExactlyWhen(last.path, last.alteration, last.recorded, Run(requests[..|requests| - 1]).1);
  }

  lemma ToSetSnoc(paths: seq<Path>, path: Path)
    ensures ToSet(paths + [path]) == ToSet(paths) + {path}
  {
  }

  lemma {:induction false} TakenIsGiven(requests: seq<Request>)
    ensures Run(requests).1 == ToSet(Run(requests).0)
  {
    if requests != [] {
      var shorter := requests[..|requests| - 1];
      TakenIsGiven(shorter);
      RunSnoc(requests);
      ToSetSnoc(Run(shorter).0, Run(requests).0[|shorter|]);
    }
  }

  lemma DistinctSnoc(paths: seq<Path>, path: Path)
    requires Distinct(paths) && path !in ToSet(paths)
    ensures Distinct(paths + [path])
  {
  }

  lemma NotExhausted(p: Path, taken: set<Path>)
    requires |taken| < 9_999
    ensures !Exhausted(p, taken)
  {
    SomeNameIsFree(p, taken);
  }

  /** With few destinations given the next one is new. */
  lemma NextIsNew(paths: seq<Path>, taken: set<Path>, p: Path)
    requires |paths| < 9_999 && taken == ToSet(paths)
    ensures !Exhausted(p, taken)
  {
    DistinctLength(paths);
    NotExhausted(p, taken);
  }

  /** Up to 9,999 files never share a destination, whatever they ask for. */
  lemma {:induction false} RunIsInjective(requests: seq<Request>)
    requires |requests| <= 9_999
    ensures Distinct(Run(requests).0)
  {
    if requests != [] {
      var shorter := requests[..|requests| - 1];
      RunIsInjective(shorter);
      TakenIsGiven(shorter);
      NextIsNew(Run(shorter).0, Run(shorter).1, requests[|requests| - 1].path);
      RunSnoc(requests);
      DistinctSnoc(Run(shorter).0, Run(requests).0[|requests| - 1]);
    }
  }

  /** Each file stays in the directory it asked for. */
  lemma {:induction false} RunKeepsDirectories(requests: seq<Request>)
    ensures forall i :: 0 <= i < |requests| ==> Run(requests).0[i].parent == requests[i].path.parent
  {
    if requests != [] {
      RunKeepsDirectories(requests[..|requests| - 1]);
      RunSnoc(requests);
    }
  }

  // ----- when the candidates run out -----

  function Same(q: Request, k: nat): (r: seq<Request>)
    ensures |r| == k
  {
    seq(k, i => q)
  }

  lemma {:induction false} FirstFreeIs(taken: set<Path>, p: Path, from: nat, n: nat)
    requires from <= n < LIMIT && Candidate(p, n) !in taken
    requires forall m :: from <= m < n ==> Candidate(p, m) in taken
    ensures FirstFree(taken, p, from) == Some(n)
    decreases n - from
  {
    if from < n {
      FirstFreeIs(taken, p, from + 1, n);
    }
  }

  /** The next request for a name whose first candidates are taken takes the next candidate. */
  lemma NextRequest(q: Request, k: nat, taken: set<Path>)
    requires 2 <= k <= 9_999 && taken == NamesUpTo(q.path, k)
    ensures DeconflictOf(q.path, q.alteration, q.recorded, taken).taken == NamesUpTo(q.path, k + 1)
  {
    NewName(q.path, k, k);
    forall m | FIRST <= m < k
      ensures Candidate(q.path, m) in taken
    {
      AmongNames(q.path, m, k);
    }
    FirstFreeIs(taken, q.path, FIRST, k);
  }

  lemma SameAgain(q: Request, k: nat)
    requires k >= 1
    ensures Run(Same(q, k)).1 == DeconflictOf(q.path, q.alteration, q.recorded, Run(Same(q, k - 1)).1).taken
    ensures k == 1 ==> Run(Same(q, k)).1 == {q.path}
  {
    assert Same(q, k)[..k - 1] == Same(q, k - 1) && Same(q, k)[k - 1] == q;
    RunSnoc(Same(q, k));
    if k == 1 {
      assert Run(Same(q, 0)) == ([], {});
    }
  }

  /** After `k` requests for one name it and its candidates up to `k` are taken. */
  lemma {:induction false} RepeatedRequests(q: Request, k: nat)
    requires 1 <= k <= 9_999
    ensures Run(Same(q, k)).1 == NamesUpTo(q.path, k + 1)
  {
    SameAgain(q, k);
    if k > 1 {
      RepeatedRequests(q, k - 1);
      NextRequest(q, k, Run(Same(q, k - 1)).1);
    }
  }

  lemma ExhaustedAfter(q: Request, k: nat)
    requires k == 9_999
    ensures Exhausted(q.path, Run(Same(q, k)).1)
  {
    RepeatedRequests(q, k);
    forall m | FIRST <= m < LIMIT
      ensures Candidate(q.path, m) in Run(Same(q, k)).1
    {
      AmongNames(q.path, m, k + 1);
    }
  }

  /** A request that finds everything taken is given what an earlier one has. */
  lemma GivenTwice(q: Request, k: nat)
    requires Exhausted(q.path, Run(Same(q, k)).1)
    ensures Run(Same(q, k + 1)).0[k] == q.path && !Distinct(Run(Same(q, k + 1)).0)
  {
    assert Same(q, k + 1)[..k] == Same(q, k) && Same(q, k + 1)[k] == q;
    RunSnoc(Same(q, k + 1));
    TakenIsGiven(Same(q, k));
    var paths := Run(Same(q, k + 1)).0;
    assert q.path in ToSet(Run(Same(q, k)).0);
    var i :| 0 <= i < k && Run(Same(q, k)).0[i] == q.path;
    assert paths[i] == q.path && paths[k] == q.path;
  }

  /**
   The 10,000th request for one name is given the name itself, which the first already has, and nothing is reported:
   9,999 is the largest run that is always safe.
   */
  lemma TenThousandthCollides(q: Request)
    ensures Exhausted(q.path, Run(Same(q, 9_999)).1)
    ensures var g := DeconflictOf(q.path, q.alteration, q.recorded, Run(Same(q, 9_999)).1);
      g.path == q.path && g.alteration == q.alteration
    ensures Run(Same(q, 10_000)).0[9_999] == q.path && !Distinct(Run(Same(q, 10_000)).0)
  {
    ExhaustedAfter(q, 9_999);
    GivenTwice(q, 9_999);
  }

  // ----- safe names -----

  predicate CleanText(s: string) {
    forall i :: 0 <= i < |s| ==> !IsIllegal(s[i]) && !IsSeparator(s[i])
  }

  lemma CleanJoin(s: string, t: string)
    ensures CleanText(s + t) <==> CleanText(s) && CleanText(t)
  {
    if CleanText(s + t) {
      assert forall i :: 0 <= i < |s| ==> s[i] == (s + t)[i];
      assert forall i :: 0 <= i < |t| ==> t[i] == (s + t)[|s| + i];
    }
  }

  lemma MarkerClean(n: nat)
    ensures CleanText(Marker(n)) && |Marker(n)| > 3 && Marker(n)[|Marker(n)| - 1] == ')'
  {
    var digits := PartNames.Render(n);
    assert CleanText(digits);
    CleanJoin(" (", digits);
    CleanJoin(" (" + digits, ")");
  }

  /** A number in brackets before the suffix leaves a safe text safe. */
  lemma CandidateSafe(p: Path, n: nat)
    requires p.name.Text? && IsSafe(p.name.text)
    ensures IsSafe(Candidate(p, n).name.text)
  {
    var was := p.name.text;
    var stem, marker, suffix := FileStem(was), Marker(n), Suffix(was);
    var name := stem + marker + suffix;
    StemAndSuffix(was);
    assert CleanText(was);
    CleanJoin(stem, suffix);
    MarkerClean(n);
    CleanJoin(stem, marker);
    CleanJoin(stem + marker, suffix);
    if suffix == "" {
      assert name[|name| - 1] == ')';
    } else {
      assert name[|name| - 1] == suffix[|suffix| - 1] == was[|was| - 1];
    }
  }

  // ----- names that are not text -----

  predicate CleanBytes(b: seq<Byte>) {
    forall i :: 0 <= i < |b| ==> !IllegalByte(b[i]) && !SeparatorByte(b[i])
  }

  /** What the library shows of some bytes keeps their ASCII bytes, adds none, and ends as they do. */
  predicate ShownAs(b: seq<Byte>, text: string) {
    var t := Utf8.Encode(text);
    && (forall i :: 0 <= i < |t| && t[i] < 0x80 ==> t[i] in b)
    && (b == [] ==> text == "")
    && (b != [] ==> t != [] && (t[|t| - 1] >= 0x80 || t[|t| - 1] == b[|b| - 1]))
  }

  /** The library's reading of bytes that are not valid UTF-8. */
  ghost predicate ShowsBytes(lossy: seq<Byte> -> string) {
    forall b :: ShownAs(b, lossy(b))
  }

  /** `to_string_lossy`. */
  function Show(b: seq<Byte>, lossy: seq<Byte> -> string): string {
    match Utf8.Decode(b)
    case Some(text) => text
    case None => lossy(b)
  }

  lemma ShowIsShown(b: seq<Byte>, lossy: seq<Byte> -> string)
    requires ShowsBytes(lossy)
    ensures ShownAs(b, Show(b, lossy))
  {
    if Utf8.Decode(b).Some? {
      Utf8.EncodeDecode(b);
    }
  }

  function LastDot(b: seq<Byte>): (k: Option<nat>)
    ensures k.Some? ==> k.value < |b| && b[k.value] == DOT
  {
    if b == [] then None else if b[|b| - 1] == DOT then Some(|b| - 1) else LastDot(b[..|b| - 1])
  }

  /** Where the suffix of a name starts: at its last dot, unless that is its first byte. */
  function SuffixStart(b: seq<Byte>): (k: nat)
    ensures k <= |b| && (k < |b| ==> b[k] == DOT)
  {
    match LastDot(b)
    case None => |b|
    case Some(k) => if k == 0 || b == [DOT, DOT] then |b| else k
  }

  /** The name some bytes make. */
  function NameOf(b: seq<Byte>, lossy: seq<Byte> -> string): Name {
    match Utf8.Decode(b)
    case Some(text) => Text(text)
    case None =>
      var k := SuffixStart(b);
      Raw(b, lossy(b), Show(b[..k], lossy), if k == |b| then "" else "." + Show(b[k + 1..], lossy))
  }

  lemma NameKeepsBytes(b: seq<Byte>, lossy: seq<Byte> -> string)
    ensures NameOf(b, lossy).Bytes() == b
  {
    if Utf8.Decode(b).Some? {
      Utf8.EncodeDecode(b);
    }
  }

  lemma ShownClean(b: seq<Byte>, text: string)
    requires CleanBytes(b) && ShownAs(b, text)
    ensures CleanBytes(Utf8.Encode(text))
  {
    var t := Utf8.Encode(text);
    forall i | 0 <= i < |t|
      ensures !IllegalByte(t[i]) && !SeparatorByte(t[i])
    {
      if t[i] < 0x80 {
        var j :| 0 <= j < |b| && b[j] == t[i];
      }
    }
  }

  /** A suffix of shown bytes, with its dot, is as clean as they are and ends as they do. */
  lemma SuffixClean(ext: seq<Byte>, text: string)
    requires CleanBytes(ext) && ShownAs(ext, text)
    ensures var t := Utf8.Encode("." + text);
            CleanBytes(t) && t != [] && (t[|t| - 1] >= 0x80 || t[|t| - 1] == ([DOT] + ext)[|ext|])
  {
    ShownClean(ext, text);
    Utf8.EncodeJoin(".", text);
    Utf8.EncodeAscii(".");
    assert Utf8.Encode(".") == [DOT];
    assert !IllegalByte(DOT) && !SeparatorByte(DOT);
    if ext == [] {
      assert Utf8.Encode(text) == [];
    }
  }

  /** The parts a name is shown in, as the candidates take them: clean, and the suffix ends as the name does. */
  predicate PartsClean(n: Name) {
    var stem, suffix := Utf8.Encode(n.Stem()), Utf8.Encode(n.Ending());
    CleanBytes(stem) && CleanBytes(suffix) && (suffix != [] ==> !TrailingByte(suffix[|suffix| - 1]))
  }

  lemma RawStemClean(b: seq<Byte>, k: nat, lossy: seq<Byte> -> string)
    requires ShowsBytes(lossy) && CleanBytes(b) && k <= |b|
    ensures CleanBytes(Utf8.Encode(Show(b[..k], lossy)))
  {
    ShowIsShown(b[..k], lossy);
    ShownClean(b[..k], Show(b[..k], lossy));
  }

  lemma RawSuffixClean(b: seq<Byte>, k: nat, lossy: seq<Byte> -> string)
    requires ShowsBytes(lossy) && IsSafeBytes(b) && k < |b| && b[k] == DOT
    ensures var t := Utf8.Encode("." + Show(b[k + 1..], lossy));
            CleanBytes(t) && t != [] && !TrailingByte(t[|t| - 1])
  {
    var ext := b[k + 1..];
    ShowIsShown(ext, lossy);
    SuffixClean(ext, Show(ext, lossy));
    assert ([DOT] + ext)[|ext|] == b[|b| - 1];
  }

  lemma RawPartsClean(b: seq<Byte>, lossy: seq<Byte> -> string)
    requires ShowsBytes(lossy) && IsSafeBytes(b) && Utf8.Decode(b).None?
    ensures PartsClean(NameOf(b, lossy))
  {
    var k := SuffixStart(b);
    RawStemClean(b, k, lossy);
    if k < |b| {
      RawSuffixClean(b, k, lossy);
    }
  }

  lemma TextPartsClean(s: string)
    requires IsSafeBytes(Utf8.Encode(s))
    ensures PartsClean(Text(s))
  {
    StemAndSuffix(s);
    Utf8.EncodeJoin(FileStem(s), Suffix(s));
    var stem, suffix, whole := Utf8.Encode(FileStem(s)), Utf8.Encode(Suffix(s)), Utf8.Encode(s);
    assert forall i :: 0 <= i < |stem| ==> stem[i] == whole[i];
    assert forall i :: 0 <= i < |suffix| ==> suffix[i] == whole[|stem| + i];
  }

  lemma MarkerBytes(n: nat)
    ensures var marker := Utf8.Encode(Marker(n));
            CleanBytes(marker) && |marker| >= 3 && !TrailingByte(marker[|marker| - 1])
  {
    MarkerClean(n);
    Utf8.EncodeAscii(Marker(n));
    var marker := Utf8.Encode(Marker(n));
    forall i | 0 <= i < |marker|
      ensures !IllegalByte(marker[i]) && !SeparatorByte(marker[i])
    {
      assert marker[i] as char == Marker(n)[i];
    }
  }

  /** A number in brackets before the suffix leaves a name safe as bytes. */
  lemma CandidateSafeBytes(p: Path, n: nat)
    requires PartsClean(p.name)
    ensures IsSafeBytes(Candidate(p, n).name.Bytes()) && PartsClean(Candidate(p, n).name)
  {
    var stem, marker, suffix := p.name.Stem(), Marker(n), p.name.Ending();
    Utf8.EncodeJoin(stem, marker);
    Utf8.EncodeJoin(stem + marker, suffix);
    MarkerBytes(n);
    TextPartsClean(stem + marker + suffix);
  }

  // ----- a recorded path's place -----

  /** A path as a container records it: text, or the raw bytes, which are preferred. */
  datatype Recorded = AsText(path: string) | AsBytes(raw: seq<Byte>)

  function NamesOf(components: seq<seq<Byte>>, lossy: seq<Byte> -> string): (r: seq<Name>)
    ensures |r| == |components| && forall i :: 0 <= i < |r| ==> r[i] == NameOf(components[i], lossy)
  {
    seq(|components|, i requires 0 <= i < |components| => NameOf(components[i], lossy))
  }

  function TextNames(components: seq<string>): (r: seq<Name>)
    ensures |r| == |components| && forall i :: 0 <= i < |r| ==> r[i] == Text(components[i])
  {
    seq(|components|, i requires 0 <= i < |components| => Text(components[i]))
  }

  function NamesFor(recorded: Recorded, lossy: seq<Byte> -> string): (names: seq<Name>)
    ensures names != []
  {
    match recorded
    case AsText(path) => RebaseConfined(path); TextNames(ComponentsOf(path))
    case AsBytes(raw) => RebaseBytesConfined(raw); NamesOf(ByteComponentsOf(raw), lossy)
  }

  /** Where a recorded path is first placed: its components beneath the target. */
  function PlaceOf(recorded: Recorded, lossy: seq<Byte> -> string): Path {
    var names := NamesFor(recorded, lossy);
    Path(names[..|names| - 1], names[|names| - 1])
  }

  /** A path beneath the target, as text. */
  function ShownPath(names: seq<Name>): string {
    if names == [] then ""
    else if |names| == 1 then names[0].Shown()
    else ShownPath(names[..|names| - 1]) + "/" + names[|names| - 1].Shown()
  }

  function ShownOf(recorded: Recorded, lossy: seq<Byte> -> string): string {
    match recorded
    case AsText(path) => path
    case AsBytes(raw) => Show(raw, lossy)
  }

  function ReasonsOf(recorded: Recorded): seq<Reason> {
    match recorded
    case AsText(path) => ReasonsFor(path)
    case AsBytes(raw) => ByteReasonsFor(raw)
  }

  function RequestFor(recorded: Recorded, lossy: seq<Byte> -> string): Request {
    var reasons, shown := ReasonsOf(recorded), ShownOf(recorded, lossy);
    Request(PlaceOf(recorded, lossy),
            if reasons == [] then None else Some(Alteration(shown, ShownPath(NamesFor(recorded, lossy)), reasons)), shown)
  }

  function RequestsFor(recorded: seq<Recorded>, lossy: seq<Byte> -> string): (r: seq<Request>)
    ensures |r| == |recorded| && forall i :: 0 <= i < |r| ==> r[i] == RequestFor(recorded[i], lossy)
  {
    seq(|recorded|, i requires 0 <= i < |recorded| => RequestFor(recorded[i], lossy))
  }

  /** A path is shown as its last name alone exactly when it has no other. */
  lemma ShownPathLast(parent: seq<Name>, name: Name)
    ensures ShownPath(parent + [name]) == name.Shown() <==> parent == []
  {
    var whole := parent + [name];
    assert whole[..|whole| - 1] == parent;
    if parent != [] {
      assert |ShownPath(whole)| == |ShownPath(parent)| + 1 + |name.Shown()|;
    }
  }

  /** A call that renames reports the new file name as written. */
  lemma RenameWrites(p: Path, alteration: Option<Alteration>, recorded: string, taken: set<Path>)
    ensures var g := DeconflictOf(p, alteration, recorded, taken);
            if g.path == p then g.alteration == alteration
            else g.alteration.Some? && g.path.name.Text? && g.alteration.value.written == g.path.name.text
  {
    if p in taken && FirstFree(taken, p, FIRST).Some? {
      CandidatesDistinct(p, FirstFree(taken, p, FIRST).value, FirstFree(taken, p, FIRST).value);
    }
  }

  lemma PlaceWhole(recorded: Recorded, lossy: seq<Byte> -> string)
    ensures PlaceOf(recorded, lossy).parent + [PlaceOf(recorded, lossy).name] == NamesFor(recorded, lossy)
  {
    var names := NamesFor(recorded, lossy);
    assert names[..|names| - 1] + [names[|names| - 1]] == names;
  }

  /**
   A reported `written` is the path beneath the target until the file is renamed; then it is the file name alone,
   which is that path exactly when the file lies directly beneath the target.
   */
  lemma WrittenIsPathExactlyWhen(recorded: Recorded, lossy: seq<Byte> -> string, taken: set<Path>)
    ensures var r := RequestFor(recorded, lossy);
      var g := DeconflictOf(r.path, r.alteration, r.recorded, taken);
      g.alteration.Some? ==>
        (g.alteration.value.written == ShownPath(g.path.parent + [g.path.name]) <==> g.path == r.path || g.path.parent == [])
  {
    var r := RequestFor(recorded, lossy);
    var g := DeconflictOf(r.path, r.alteration, r.recorded, taken);
    RenameWrites(r.path, r.alteration, r.recorded, taken);
    if g.path == r.path {
      PlaceWhole(recorded, lossy);
    } else {
      ShownPathLast(g.path.parent, g.path.name);
    }
  }

  // ----- the export as a whole -----

  /** A name that is safe as bytes, and whose candidates will be. */
  predicate SafeName(n: Name) {
    IsSafeBytes(n.Bytes()) && PartsClean(n)
  }

  predicate SafeText(n: Name) {
    n.Text? && IsSafe(n.text)
  }

  /** A kind of name whose candidates are of that kind too. */
  ghost predicate Closed(kind: Name -> bool) {
    forall p: Path, n: nat :: kind(p.name) ==> kind(Candidate(p, n).name)
  }

  /** Such names are given names of their kind. */
  lemma {:induction false} RunKeepsKind(requests: seq<Request>, i: nat, kind: Name -> bool)
    requires i < |requests| && kind(requests[i].path.name) && Closed(kind)
    ensures kind(Run(requests).0[i].name)
  {
    var shorter, last := requests[..|requests| - 1], requests[|requests| - 1];
    RunSnoc(requests);
    if i < |shorter| {
      RunKeepsKind(shorter, i, kind);
    }
  }

  lemma SafeNamesClosed()
    ensures Closed(SafeName) && Closed(SafeText)
  {
    forall p: Path, n: nat | SafeName(p.name)
      ensures SafeName(Candidate(p, n).name)
    {
      CandidateSafeBytes(p, n);
    }
    forall p: Path, n: nat | SafeText(p.name)
      ensures SafeText(Candidate(p, n).name)
    {
      CandidateSafe(p, n);
    }
  }

  ghost predicate AllAre(names: seq<Name>, kind: Name -> bool) {
    forall i :: 0 <= i < |names| ==> kind(names[i])
  }

  /** Every component of a place is safe, as text if it was recorded as text. */
  lemma PlaceSafe(recorded: Recorded, lossy: seq<Byte> -> string)
    requires ShowsBytes(lossy)
    ensures AllAre(NamesFor(recorded, lossy), SafeName)
    ensures recorded.AsText? ==> AllAre(NamesFor(recorded, lossy), SafeText)
  {
    var names := NamesFor(recorded, lossy);
    match recorded {
      case AsText(path) =>
        RebaseConfined(path);
        forall i | 0 <= i < |names|
          ensures SafeText(names[i]) && SafeName(names[i])
        {
          EncodedSafe(ComponentsOf(path)[i]);
          TextPartsClean(ComponentsOf(path)[i]);
        }
      case AsBytes(raw) =>
        RebaseBytesConfined(raw);
        forall i | 0 <= i < |names|
          ensures SafeName(names[i])
        {
          var b := ByteComponentsOf(raw)[i];
          NameKeepsBytes(b, lossy);
          if Utf8.Decode(b).Some? {
            TextPartsClean(Utf8.Decode(b).value);
          } else {
            RawPartsClean(b, lossy);
          }
        }
    }
  }

  /**
   Any up to 9,999 recorded paths, as text or as bytes, are given distinct destinations, each of safe components in
   its own directory.
   */
  lemma ExportIsConfinedAndInjective(recorded: seq<Recorded>, lossy: seq<Byte> -> string)
    requires |recorded| <= 9_999 && ShowsBytes(lossy)
    ensures var paths := Run(RequestsFor(recorded, lossy)).0;
      && |paths| == |recorded| && Distinct(paths)
      && forall i :: 0 <= i < |paths| ==>
           && paths[i].parent == PlaceOf(recorded[i], lossy).parent
           && AllAre(paths[i].parent + [paths[i].name], SafeName)
           && (recorded[i].AsText? ==> AllAre(paths[i].parent + [paths[i].name], SafeText))
  {
    var requests := RequestsFor(recorded, lossy);
    var paths := Run(requests).0;
    RunIsInjective(requests);
    RunKeepsDirectories(requests);
    SafeNamesClosed();
    forall i | 0 <= i < |recorded|
      ensures AllAre(paths[i].parent + [paths[i].name], SafeName)
      ensures recorded[i].AsText? ==> AllAre(paths[i].parent + [paths[i].name], SafeText)
    {
      PlaceSafe(recorded[i], lossy);
      StaysOfKind(requests, i, NamesFor(recorded[i], lossy), SafeName);
      if recorded[i].AsText? {
        StaysOfKind(requests, i, NamesFor(recorded[i], lossy), SafeText);
      }
    }
  }

  lemma LastReplaced(names: seq<Name>, last: Name, kind: Name -> bool)
    requires names != [] && AllAre(names, kind) && kind(last)
    ensures AllAre(names[..|names| - 1] + [last], kind)
  {
  }

  /** Where a file goes all components are of the kind the place it asked for is made of. */
  lemma StaysOfKind(requests: seq<Request>, i: nat, names: seq<Name>, kind: Name -> bool)
    requires i < |requests| && Closed(kind) && names != [] && AllAre(names, kind)
    requires requests[i].path.name == names[|names| - 1]
    ensures AllAre(names[..|names| - 1] + [Run(requests).0[i].name], kind)
  {
    RunKeepsKind(requests, i, kind);
    LastReplaced(names, Run(requests).0[i].name, kind);
  }
}
