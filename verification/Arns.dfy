/** AFF4 resource names and the ZIP member names they map to (src/arn.rs). */
module Arns {
  import opened Basics
  import opened Escaping

  const SCHEME: string := "aff4://"

  datatype ByteRange = ByteRange(start: U64, length: U64)

  datatype NameMapping = Escaped | Literal

  datatype Arn = Arn(lexical: string, pathStart: Option<nat>, rangeStart: Option<nat>) {
    predicate Formed() {
      && (pathStart.Some? ==> pathStart.value <= EndOfPath())
      && (rangeStart.Some? ==> rangeStart.value + 2 <= |lexical|)
    }

    function EndOfPath(): nat {
      if rangeStart.Some? then rangeStart.value else |lexical|
    }

    function EndOfVolume(): nat {
      if pathStart.Some? then pathStart.value else EndOfPath()
    }

    /** The volume portion, without any path or range suffix. */
    function Volume(): string
      requires Formed()
    {
      lexical[..EndOfVolume()]
    }

    /** The path with its separator. */
    function Path(): Option<string>
      requires Formed()
    {
      if pathStart.None? then None else Some(lexical[pathStart.value..EndOfPath()])
    }

    /** The path without the separator. */
    function StoredPath(): Option<string>
      requires Formed()
    {
      var path := Path();
      if path.Some? && path.value != "" && path.value[0] == '/' then Some(path.value[1..]) else None
    }

    function WithoutRange(): string
      requires Formed()
    {
      lexical[..EndOfPath()]
    }

    function Range(): Option<ByteRange>
      requires Formed()
    {
      if rangeStart.None? then None else ParseByteRange(Inner(lexical, rangeStart.value))
    }

    predicate IsByteRange() {
      rangeStart.Some?
    }
  }

  // ----- reading the text -----

  /** The first place of a character. */
  function Find(s: string, c: char): (r: Option<nat>)
    ensures r.None? ==> c !in s
    ensures r.Some? ==> r.value < |s| && s[r.value] == c && c !in s[..r.value]
  {
    if s == "" then None
    else if s[0] == c then Some(0)
    else
      match Find(s[1..], c)
      case None => None
      case Some(k) =>
        assert s[..k + 1] == [s[0]] + s[1..][..k];
        Some(k + 1)
  }

  /** The last place of a character. */
  function FindLast(s: string, c: char): (r: Option<nat>)
    ensures r.None? ==> c !in s
    ensures r.Some? ==> r.value < |s| && s[r.value] == c && c !in s[r.value + 1..]
  {
    if s == "" then None
    else if s[|s| - 1] == c then Some(|s| - 1)
    else
      match FindLast(s[..|s| - 1], c)
      case None => None
      case Some(k) =>
        assert s[k + 1..] == s[..|s| - 1][k + 1..] + [s[|s| - 1]];
        Some(k)
  }

  lemma {:induction false} FirstIs(s: string, c: char, k: nat)
    requires k < |s| && s[k] == c && c !in s[..k]
    ensures Find(s, c) == Some(k)
  {
    if k > 0 {
      assert s[..k] == [s[0]] + s[1..][..k - 1];
      FirstIs(s[1..], c, k - 1);
    }
  }

  lemma {:induction false} LastIs(s: string, c: char, k: nat)
    requires k < |s| && s[k] == c && c !in s[k + 1..]
    ensures FindLast(s, c) == Some(k)
  {
    if k < |s| - 1 {
      assert s[k + 1..] == s[..|s| - 1][k + 1..] + [s[|s| - 1]];
      LastIs(s[..|s| - 1], c, k);
    }
  }

  function DigitIn(c: char, radix: nat): Option<nat> {
    var v := if '0' <= c <= '9' then c as int - '0' as int
      else if 'a' <= c <= 'f' then c as int - 'a' as int + 10
      else if 'A' <= c <= 'F' then c as int - 'A' as int + 10
      else radix;
    if v < radix then Some(v) else None
  }

  function DigitsIn(s: string, radix: nat): Option<nat> {
    if s == "" then Some(0)
    else
      match (DigitsIn(s[..|s| - 1], radix), DigitIn(s[|s| - 1], radix))
      case (Some(front), Some(last)) => Some(front * radix + last)
      case _ => None
  }

  /** `u64::from_str_radix`, which takes a leading plus sign. */
  function ParseU64(s: string, radix: nat): Option<U64> {
    var digits := if s != "" && s[0] == '+' then s[1..] else s;
    if digits == "" then None
    else
      match DigitsIn(digits, radix)
      case Some(n) => if n <= U64_MAX then Some(n) else None
      case None => None
  }

  function ParseOffset(s: string): Option<U64> {
    if |s| >= 2 && s[0] == '0' && (s[1] == 'x' || s[1] == 'X') then ParseU64(s[2..], 16) else ParseU64(s, 10)
  }

  function ParseByteRange(inner: string): Option<ByteRange> {
    match Find(inner, ':')
    case None => None
    case Some(k) =>
      match (ParseOffset(inner[..k]), ParseOffset(inner[k + 1..]))
      case (Some(start), Some(length)) => Some(ByteRange(start, length))
      case _ => None
  }

  /** Where a trailing bracketed group starts, if the text ends in one. */
  function BracketStart(rest: string): (r: Option<nat>)
    ensures r.Some? ==> r.value + 2 <= |rest|
  {
    match FindLast(rest, '[')
    case None => None
    case Some(k) => if rest[|rest| - 1] == ']' then Some(k) else None
  }

  /** The text before a range suffix. */
  function Scanned(rest: string): string {
    if BracketStart(rest).Some? then rest[..BracketStart(rest).value] else rest
  }

  function Shift(k: Option<nat>): Option<nat> {
    match k
    case None => None
    case Some(n) => Some(|SCHEME| + n)
  }

  /** None is a malformed name. */
  function Parse(text: string): Option<Arn> {
    if !(SCHEME <= text) then None
    else
      var rest := text[|SCHEME|..];
      var range := BracketStart(rest);
      if rest == "" then None
      else if range.Some? && ParseByteRange(Inner(rest, range.value)).None? then None
      else
        var path := Find(Scanned(rest), '/');
        if path == Some(0) then None
        else Some(Arn(text, Shift(path), Shift(range)))
  }

  // ----- a parsed name, taken apart -----

  function PathText(a: Arn): string
    requires a.Formed()
  {
    match a.Path() case None => "" case Some(p) => p
  }

  function RangeText(a: Arn): string
    requires a.Formed()
  {
    a.lexical[a.EndOfPath()..]
  }

  /** Where the parts of a name start, `rest` being the text after the scheme. */
  predicate Placed(a: Arn, rest: string) {
    && rest != "" && a.lexical == SCHEME + rest
    && a.rangeStart == Shift(BracketStart(rest)) && a.pathStart == Shift(Find(Scanned(rest), '/'))
    && Find(Scanned(rest), '/') != Some(0)
  }

  /** What stands between the brackets. */
  function Inner(text: string, start: nat): string
    requires start + 2 <= |text|
  {
    text[start + 1..|text| - 1]
  }

  /** The range suffix, if the text ends in a bracketed group, reads as one. */
  predicate RangeReads(rest: string) {
    BracketStart(rest).Some? ==> ParseByteRange(Inner(rest, BracketStart(rest).value)).Some?
  }

  lemma ParsesExactlyWhen(text: string, a: Arn)
    ensures Parse(text) == Some(a) <==>
      exists rest :: text == SCHEME + rest && RangeReads(rest) && Placed(a, rest)
  {
    if SCHEME <= text {
      assert text == SCHEME + text[|SCHEME|..];
    }
    forall rest | text == SCHEME + rest
      ensures rest == text[|SCHEME|..]
    {
    }
  }

  lemma PlacedFormed(a: Arn, rest: string)
    requires Placed(a, rest)
    ensures a.Formed() && a.EndOfPath() == |SCHEME| + |Scanned(rest)|
    ensures !a.IsByteRange() <==> RangeText(a) == ""
  {
  }

  lemma FormedTakenApart(a: Arn)
    requires a.Formed()
    ensures a.lexical == a.Volume() + PathText(a) + RangeText(a)
    ensures a.WithoutRange() == a.Volume() + PathText(a)
  {
  }

  lemma PlacedPath(a: Arn, rest: string)
    requires Placed(a, rest) && a.pathStart.Some?
    ensures a.Formed() && a.StoredPath().Some? && PathText(a) == "/" + a.StoredPath().value
  {
    PlacedFormed(a, rest);
    var k := Find(Scanned(rest), '/').value;
    assert a.lexical[|SCHEME| + k] == Scanned(rest)[k];
    assert a.Path().value[0] == '/';
  }

  lemma PlacedAuthority(a: Arn, rest: string)
    requires Placed(a, rest)
    ensures a.Formed() && SCHEME <= a.Volume() && '/' !in a.Volume()[|SCHEME|..]
    ensures a.Path().Some? || !a.IsByteRange() ==> |a.Volume()| > |SCHEME|
  {
    PlacedFormed(a, rest);
    var path := Find(Scanned(rest), '/');
    var authority := if path.Some? then Scanned(rest)[..path.value] else Scanned(rest);
    assert a.EndOfVolume() == |SCHEME| + |authority|;
    assert a.Volume()[|SCHEME|..] == rest[..|authority|] == authority;
  }

  lemma PlacedRange(a: Arn, rest: string)
    requires Placed(a, rest) && RangeReads(rest) && a.IsByteRange()
    ensures a.Formed() && a.Range().Some?
  {
    PlacedFormed(a, rest);
    InnerAfterScheme(rest, BracketStart(rest).value);
  }

  lemma InnerAfterScheme(rest: string, start: nat)
    requires start + 2 <= |rest|
    ensures Inner(SCHEME + rest, |SCHEME| + start) == Inner(rest, start)
  {
  }

  /**
   A parsed name keeps its text and is its volume, its path and its range suffix, one after the other; the path
   begins with a slash, and the volume's authority holds none.
   */
  lemma ParsedTakenApart(text: string, a: Arn)
    requires Parse(text) == Some(a)
    ensures a.Formed() && a.lexical == text
    ensures text == a.Volume() + PathText(a) + RangeText(a)
    ensures a.WithoutRange() == a.Volume() + PathText(a)
    ensures a.Path().Some? ==> a.StoredPath().Some? && PathText(a) == "/" + a.StoredPath().value
    ensures SCHEME <= a.Volume() && '/' !in a.Volume()[|SCHEME|..]
    ensures if a.IsByteRange() then a.Range().Some? else RangeText(a) == ""
  {
    ParsesExactlyWhen(text, a);
    var rest :| text == SCHEME + rest && RangeReads(rest) && Placed(a, rest);
    PlacedFormed(a, rest);
    FormedTakenApart(a);
    PlacedAuthority(a, rest);
    if a.Path().Some? {
      PlacedPath(a, rest);
    }
    if a.IsByteRange() {
      PlacedRange(a, rest);
    }
  }

  /** A parsed name has an empty authority exactly when a range suffix starts right after the scheme. */
  lemma AuthorityEmptyExactlyWhen(text: string, a: Arn)
    requires Parse(text) == Some(a)
    ensures a.Formed() && SCHEME <= text
    ensures a.Volume() == SCHEME <==> BracketStart(text[|SCHEME|..]) == Some(0)
    ensures a.Volume() == SCHEME ==> a.Path().None? && a.Range().Some?
  {
    ParsesExactlyWhen(text, a);
    var rest :| text == SCHEME + rest && RangeReads(rest) && Placed(a, rest);
    PlacedFormed(a, rest);
    PlacedAuthority(a, rest);
    assert rest == text[|SCHEME|..];
    if a.IsByteRange() {
      PlacedRange(a, rest);
    }
  }

  lemma OnlyRange(inner: string)
    requires '[' !in inner
    ensures var rest := "[" + inner + "]";
      BracketStart(rest) == Some(0) && Inner(rest, 0) == inner && Scanned(rest) == ""
  {
    var rest := "[" + inner + "]";
    assert rest[0] == '[' && rest[|rest| - 1] == ']';
    assert rest[1..] == inner + "]";
    LastIs(rest, '[', 0);
  }

  /** With no path the authority before a range suffix may be empty: such a name is accepted. */
  lemma EmptyAuthorityBeforeRange(inner: string)
    requires '[' !in inner && ParseByteRange(inner).Some?
    ensures Parse(SCHEME + ("[" + inner + "]")) == Some(Arn(SCHEME + ("[" + inner + "]"), None, Some(|SCHEME|)))
  {
    var rest := "[" + inner + "]";
    var a := Arn(SCHEME + rest, None, Some(|SCHEME|));
    OnlyRange(inner);
    assert Placed(a, rest);
    assert RangeReads(rest);
    ParsesExactlyWhen(SCHEME + rest, a);
  }

  // ----- member names -----

  predicate IsWithin(a: Arn, volume: Arn)
    requires a.Formed() && volume.Formed()
  {
    a.Volume() == volume.Volume()
  }

  function Spelled(path: string, mapping: NameMapping): string {
    if mapping.Escaped? then DecodeSpaces(path) else path
  }

  function Prefix(volume: string, mapping: NameMapping): string {
    if mapping.Escaped? then EscapeComponent(volume) else volume
  }

  /** The ZIP member a name maps to within a volume. */
  function MemberName(a: Arn, volume: Arn, mapping: NameMapping): Option<string>
    requires a.Formed() && volume.Formed()
  {
    if a.IsByteRange() then None
    else
      var path := a.StoredPath();
      if IsWithin(a, volume) then
        if path.None? then None else Some(Spelled(path.value, mapping))
      else
        var prefix := Prefix(a.Volume(), mapping);
        Some(if path.None? then prefix else prefix + "/" + Spelled(path.value, mapping))
  }

  /** What a mapping keeps of a path: all of it, or all but how its spaces are spelt. */
  function PathKept(path: string, mapping: NameMapping): string {
    if mapping.Escaped? then EncodeSpaces(path) else path
  }

  lemma SpelledKeeps(s: string, t: string, mapping: NameMapping)
    ensures Spelled(s, mapping) == Spelled(t, mapping) <==> PathKept(s, mapping) == PathKept(t, mapping)
  {
    SpacesAgree(s, t);
  }

  /** A name parsed from a text, without a range suffix. */
  predicate Parsed(a: Arn) {
    Parse(a.lexical) == Some(a) && !a.IsByteRange()
  }

  lemma ParsedText(a: Arn)
    requires Parsed(a)
    ensures a.Formed()
    ensures a.lexical == a.Volume() + (if a.StoredPath().Some? then "/" + a.StoredPath().value else "")
  {
    ParsedTakenApart(a.lexical, a);
  }

  /** Inside one volume two names with paths share a member exactly when their paths agree up to how spaces are spelt. */
  lemma LocalMembersAgree(a: Arn, b: Arn, volume: Arn, mapping: NameMapping)
    requires Parsed(a) && Parsed(b) && a.Formed() && b.Formed() && volume.Formed()
    requires IsWithin(a, volume) && IsWithin(b, volume)
    requires a.StoredPath().Some? && b.StoredPath().Some?
    ensures MemberName(a, volume, mapping) == MemberName(b, volume, mapping) <==>
      PathKept(a.StoredPath().value, mapping) == PathKept(b.StoredPath().value, mapping)
  {
    SpelledKeeps(a.StoredPath().value, b.StoredPath().value, mapping);
  }

  /** Names outside the volume share a member exactly when volumes agree and paths agree up to spaces. */
  lemma ForeignMembersAgree(a: Arn, b: Arn, volume: Arn, mapping: NameMapping)
    requires Parsed(a) && Parsed(b) && a.Formed() && b.Formed() && volume.Formed()
    requires !IsWithin(a, volume) && !IsWithin(b, volume)
    ensures MemberName(a, volume, mapping) == MemberName(b, volume, mapping) <==>
      && a.Volume() == b.Volume()
      && (a.StoredPath().Some? <==> b.StoredPath().Some?)
      && (a.StoredPath().Some? ==>
            PathKept(a.StoredPath().value, mapping) == PathKept(b.StoredPath().value, mapping))
  {
    ParsedText(a);
    ParsedText(b);
    if mapping.Escaped? {
      EscapedForeign(a.Volume(), a.StoredPath(), b.Volume(), b.StoredPath());
    } else {
      ParsedTakenApart(a.lexical, a);
      ParsedTakenApart(b.lexical, b);
      LiteralForeign(a.Volume(), a.StoredPath(), b.Volume(), b.StoredPath());
    }
  }

  function Joined(prefix: string, path: Option<string>): string {
    if path.None? then prefix else prefix + "/" + path.value
  }

  lemma JoinedSlash(p: string, x: Option<string>)
    requires '/' !in p
    ensures Find(Joined(p, x), '/') == if x.None? then None else Some(|p|)
  {
    if x.Some? {
      var s := p + "/" + x.value;
      assert s[..|p|] == p;
      FirstIs(s, '/', |p|);
    }
  }

  /** A prefix without a slash is told from what follows its slash. */
  lemma JoinedTold(p: string, x: Option<string>, q: string, y: Option<string>)
    requires '/' !in p && '/' !in q
    ensures Joined(p, x) == Joined(q, y) <==> p == q && x == y
  {
    var s, t := Joined(p, x), Joined(q, y);
    JoinedSlash(p, x);
    JoinedSlash(q, y);
    if s == t && x.Some? {
      assert s[..|p|] == p && t[..|q|] == q;
      assert s[|p| + 1..] == x.value && t[|q| + 1..] == y.value;
    }
  }

  function Map(path: Option<string>, mapping: NameMapping): Option<string> {
    if path.None? then None else Some(Spelled(path.value, mapping))
  }

  lemma EscapedForeign(v: string, x: Option<string>, w: string, y: Option<string>)
    ensures Joined(EscapeComponent(v), Map(x, Escaped)) == Joined(EscapeComponent(w), Map(y, Escaped)) <==>
      && v == w && (x.Some? <==> y.Some?)
      && (x.Some? ==> PathKept(x.value, Escaped) == PathKept(y.value, Escaped))
  {
    EscapedHasNoSlash(v);
    EscapedHasNoSlash(w);
    JoinedTold(EscapeComponent(v), Map(x, Escaped), EscapeComponent(w), Map(y, Escaped));
    if EscapeComponent(v) == EscapeComponent(w) {
      EscapeInjective(v, w);
    }
    if x.Some? && y.Some? {
      SpelledKeeps(x.value, y.value, Escaped);
    }
  }

  lemma LiteralForeign(v: string, x: Option<string>, w: string, y: Option<string>)
    requires SCHEME <= v && SCHEME <= w && '/' !in v[|SCHEME|..] && '/' !in w[|SCHEME|..]
    ensures Joined(v, x) == Joined(w, y) <==> v == w && x == y
  {
    var p, q := v[|SCHEME|..], w[|SCHEME|..];
    assert v == SCHEME + p && w == SCHEME + q;
    assert Joined(v, x) == SCHEME + Joined(p, x);
    assert Joined(w, y) == SCHEME + Joined(q, y);
    assert (SCHEME + Joined(p, x))[|SCHEME|..] == Joined(p, x);
    assert (SCHEME + Joined(q, y))[|SCHEME|..] == Joined(q, y);
    JoinedTold(p, x, q, y);
  }

  /** Names free of literal spaces, all inside the volume with paths or all outside it, never share a member. */
  lemma MemberNamesInjective(a: Arn, b: Arn, volume: Arn, mapping: NameMapping)
    requires Parsed(a) && Parsed(b) && a.Formed() && b.Formed() && volume.Formed()
    requires ' ' !in a.lexical && ' ' !in b.lexical
    requires IsWithin(a, volume) <==> IsWithin(b, volume)
    requires IsWithin(a, volume) ==> a.StoredPath().Some? && b.StoredPath().Some?
    requires MemberName(a, volume, mapping) == MemberName(b, volume, mapping)
    ensures a == b
  {
    ParsedText(a);
    ParsedText(b);
    if IsWithin(a, volume) {
      LocalMembersAgree(a, b, volume, mapping);
    } else {
      ForeignMembersAgree(a, b, volume, mapping);
    }
    if a.StoredPath().Some? {
      SpaceFreeRecovered(a.StoredPath().value);
      SpaceFreeRecovered(b.StoredPath().value);
    }
    assert a.lexical == b.lexical;
  }

  /** The name of an object inside the volume is recovered from its member. */
  lemma LocalNameRecovered(a: Arn, volume: Arn)
    requires Parsed(a) && a.Formed() && volume.Formed() && IsWithin(a, volume) && a.StoredPath().Some?
    requires ' ' !in a.lexical
    ensures a.lexical == volume.Volume() + "/" + EncodeSpaces(MemberName(a, volume, Escaped).value)
  {
    ParsedText(a);
    SpaceFreeRecovered(a.StoredPath().value);
  }

  /** A literal space and an encoded one are one member: two names of a volume that differ only there collide. */
  lemma SpellingsCollide(a: Arn, b: Arn, volume: Arn)
    requires Parsed(a) && Parsed(b) && a.Formed() && b.Formed() && volume.Formed()
    requires IsWithin(a, volume) && IsWithin(b, volume)
    requires a.StoredPath().Some? && ' ' in a.StoredPath().value
    requires b.StoredPath() == Some(EncodeSpaces(a.StoredPath().value))
    ensures a != b && MemberName(a, volume, Escaped) == MemberName(b, volume, Escaped)
  {
    DecodeEncoded(a.StoredPath().value);
    NoSpaceEncoded(a.StoredPath().value);
  }

  lemma {:induction false} NoSpaceEncoded(s: string)
    ensures ' ' !in EncodeSpaces(s)
  {
    if s != "" {
      NoSpaceEncoded(s[1..]);
    }
  }

  /** The name of `path` inside the volume with this authority. */
  function LocalName(authority: string, path: string): Arn {
    Arn(SCHEME + (authority + ("/" + path)), Some(|SCHEME| + |authority|), None)
  }

  lemma LocalNameParts(authority: string, path: string)
    ensures var a := LocalName(authority, path);
      a.Formed() && a.Volume() == SCHEME + authority && a.StoredPath() == Some(path)
  {
    var a := LocalName(authority, path);
    var text := a.lexical;
    assert text[..|SCHEME| + |authority|] == SCHEME + authority;
    assert a.Path().value == text[|SCHEME| + |authority|..] == "/" + path;
    assert ("/" + path)[1..] == path;
  }

  /** An authority, a slash and anything that does not end as a range suffix: a name inside that volume. */
  lemma LocalNameParses(authority: string, path: string)
    requires authority != "" && '/' !in authority
    requires BracketStart(authority + ("/" + path)).None?
    ensures Parse(LocalName(authority, path).lexical) == Some(LocalName(authority, path))
  {
    var rest := authority + ("/" + path);
    var a := LocalName(authority, path);
    assert rest[..|authority|] == authority;
    FirstIs(rest, '/', |authority|);
    assert Placed(a, rest) && RangeReads(rest);
    ParsesExactlyWhen(a.lexical, a);
  }

  /** What a name outside the volume takes for its member. */
  lemma ForeignMember(b: Arn, volume: Arn, mapping: NameMapping)
    requires Parsed(b) && b.Formed() && volume.Formed() && !IsWithin(b, volume)
    ensures MemberName(b, volume, mapping) ==
            Some(Joined(Prefix(b.Volume(), mapping), Map(b.StoredPath(), mapping)))
    ensures mapping.Literal? ==> MemberName(b, volume, mapping) == Some(b.lexical)
  {
    ParsedText(b);
    if b.StoredPath().Some? {
      Regroup(b.Volume(), "/", b.StoredPath().value);
    } else {
      assert b.Volume() + "" == b.Volume();
    }
  }

  /** An escaped member is spelt as the name with its volume escaped. */
  lemma EscapedSpelling(v: string, x: Option<string>)
    ensures EncodeSpaces(Joined(EscapeComponent(v), Map(x, Escaped))) == EncodeSpaces(Joined(EscapeComponent(v), x))
    ensures SpaceFree(Joined(EscapeComponent(v), Map(x, Escaped))) <==> ' ' !in v
  {
    var e := EscapeComponent(v);
    if x.None? {
      EscapedSpaceFree(v, "");
      assert e + "" == e;
    } else {
      var d := DecodeSpaces(x.value);
      assert e + "/" + d == e + ("/" + d) && e + "/" + x.value == e + ("/" + x.value);
      DecodedSpaceFree(x.value);
      assert ("/" + d)[1..] == d;
      EscapedSpaceFree(v, "/" + d);
      EncodeDecoded(x.value);
      EncodeSpacesJoin(e, "/" + d);
      EncodeSpacesJoin(e, "/" + x.value);
      EncodeSpacesJoin("/", d);
      EncodeSpacesJoin("/", x.value);
    }
  }

  /**
   A name inside the volume and one outside it share a member exactly when the path of the one spells out the
   other: literally, or, under the escaped mapping, with its volume escaped, spaces in the path however spelt, and no
   space in that volume.
   */
  lemma MixedMembersAgree(a: Arn, b: Arn, volume: Arn, mapping: NameMapping)
    requires Parsed(a) && Parsed(b) && a.Formed() && b.Formed() && volume.Formed()
    requires IsWithin(a, volume) && !IsWithin(b, volume)
    ensures MemberName(a, volume, mapping) == MemberName(b, volume, mapping) <==>
      && a.StoredPath().Some?
      && match mapping
         case Literal => a.StoredPath().value == b.lexical
         case Escaped =>
           && ' ' !in b.Volume()
           && EncodeSpaces(a.StoredPath().value) == EncodeSpaces(Joined(EscapeComponent(b.Volume()), b.StoredPath()))
  {
    ForeignMember(b, volume, mapping);
    if mapping.Escaped? && a.StoredPath().Some? {
      EscapedSpelling(b.Volume(), b.StoredPath());
      DecodesToExactlyWhen(a.StoredPath().value, MemberName(b, volume, mapping).value);
    }
  }

  /** Such names exist: any volume has a name that spells out a given foreign one and takes its member under v2.1. */
  lemma LocalMeetsForeign(volume: Arn, foreign: Arn, authority: string)
    requires volume.Formed() && volume.Volume() == SCHEME + authority && authority != "" && '/' !in authority
    requires Parsed(foreign) && foreign.Formed() && !IsWithin(foreign, volume)
    requires BracketStart(authority + ("/" + foreign.lexical)).None?
    ensures var local := LocalName(authority, foreign.lexical);
      && Parse(local.lexical) == Some(local) && local.Formed() && IsWithin(local, volume)
      && MemberName(local, volume, Literal) == MemberName(foreign, volume, Literal)
  {
    LocalNameParses(authority, foreign.lexical);
    LocalNameParts(authority, foreign.lexical);
    MixedMembersAgree(LocalName(authority, foreign.lexical), foreign, volume, Literal);
  }
}
