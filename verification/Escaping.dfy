/** Percent-escaping of names (src/arn.rs): the escape of section 5.2 of AFF4 Standard v1.0a, and its reversal. */
module Escaping {
  import opened Basics
  import opened Utf8

  const PERCENT: Byte := 37
  const PLUS: Byte := 43

  const FORBIDDEN: string := "<>\\^`{|}\" "

  predicate MustEscape(c: char) {
    IsControl(c) || c in FORBIDDEN || c == ':' || c == '/' || c == '%'
  }

  function HexDigit(n: nat): char
    requires n < 16
  {
    if n < 10 then ('0' as int + n) as char else ('A' as int + n - 10) as char
  }

  /** `%` and two uppercase hex digits. */
  function PercentByte(b: Byte): string {
    ['%', HexDigit(b / 16), HexDigit(b % 16)]
  }

  function PercentBytes(bytes: seq<Byte>): string {
    if bytes == [] then "" else PercentByte(bytes[0]) + PercentBytes(bytes[1..])
  }

  function EscapeChar(c: char): string {
    if MustEscape(c) then PercentBytes(EncodeChar(c)) else [c]
  }

  function EscapeComponent(s: string): string {
    if s == "" then "" else EscapeChar(s[0]) + EscapeComponent(s[1..])
  }

  // ----- reading escapes back -----

  /** A hex digit in either case. */
  function HexValue(b: Byte): Option<nat> {
    if 48 <= b <= 57 then Some(b - 48)
    else if 65 <= b <= 70 then Some(b - 55)
    else if 97 <= b <= 102 then Some(b - 87)
    else None
  }

  /** `u8::from_str_radix` of two bytes, which takes a leading plus sign for a sign. */
  function HexPair(a: Byte, b: Byte): Option<Byte> {
    match (HexValue(a), HexValue(b))
    case (Some(x), Some(y)) => Some(x * 16 + y)
    case (None, Some(y)) => if a == PLUS then Some(y) else None
    case _ => None
  }

  /** The bytes begin where a character may begin. */
  predicate AtBoundary(b: seq<Byte>) {
    b == [] || !IsContinuation(b[0])
  }

  function Prepend(b: Byte, rest: Option<seq<Byte>>): Option<seq<Byte>> {
    if rest.Some? then Some([b] + rest.value) else None
  }

  function PrependAll(front: seq<Byte>, rest: Option<seq<Byte>>): Option<seq<Byte>> {
    if rest.Some? then Some(front + rest.value) else None
  }

  /** The decoded bytes; none when the two bytes after a `%` end inside a character, where slicing the text fails. */
  function UnescapeBytes(b: seq<Byte>): Option<seq<Byte>> {
    if b == [] then Some([])
    else if b[0] == PERCENT && |b| > 2 then
      if !AtBoundary(b[3..]) then None
      else if HexPair(b[1], b[2]).Some? then Prepend(HexPair(b[1], b[2]).value, UnescapeBytes(b[3..]))
      else Prepend(b[0], UnescapeBytes(b[1..]))
    else Prepend(b[0], UnescapeBytes(b[1..]))
  }

  /** `unescape`; `lossy` stands for the library's reading of bytes that are not valid UTF-8. */
  function UnescapeOf(text: string, lossy: seq<Byte> -> string): Option<string> {
    match UnescapeBytes(Encode(text))
    case None => None
    case Some(out) => Some(match Decode(out) { case Some(s) => s case None => lossy(out) })
  }

  /** The loop over the bytes, with its output buffer. */
  method Unescape(text: string, lossy: seq<Byte> -> string) returns (r: Option<string>)
    ensures r == UnescapeOf(text, lossy)
  {
    var bytes := Encode(text);
    var out: seq<Byte> := [];
    var i := 0;
    PrependNothing(UnescapeBytes(bytes));
    assert bytes[0..] == bytes;
    while i < |bytes|
      invariant 0 <= i <= |bytes|
      invariant UnescapeBytes(bytes) == PrependAll(out, UnescapeBytes(bytes[i..]))
    {
      var rest := bytes[i..];
      assert |rest| > 1 ==> rest[1..] == bytes[i + 1..];
      if bytes[i] == PERCENT && i + 2 < |bytes| {
        assert rest[3..] == bytes[i + 3..];
        if !AtBoundary(bytes[i + 3..]) {
          return None;
        }
        var pair := HexPair(bytes[i + 1], bytes[i + 2]);
        if pair.Some? {
          PushOne(out, pair.value, UnescapeBytes(bytes[i + 3..]));
          out := out + [pair.value];
          i := i + 3;
          continue;
        }
      }
      assert rest[1..] == bytes[i + 1..];
      PushOne(out, bytes[i], UnescapeBytes(bytes[i + 1..]));
      out := out + [bytes[i]];
      i := i + 1;
    }
    assert bytes[|bytes|..] == [] && out + [] == out;
    r := Some(match Decode(out) { case Some(s) => s case None => lossy(out) });
  }

  lemma PrependNothing(rest: Option<seq<Byte>>)
    ensures PrependAll([], rest) == rest
  {
    if rest.Some? {
      assert [] + rest.value == rest.value;
    }
  }

  lemma PushOne(out: seq<Byte>, b: Byte, rest: Option<seq<Byte>>)
    ensures PrependAll(out, Prepend(b, rest)) == PrependAll(out + [b], rest)
  {
    if rest.Some? {
      assert out + ([b] + rest.value) == (out + [b]) + rest.value;
    }
  }

  // ----- escaping loses nothing -----

  lemma PercentByteRead(b: Byte, rest: seq<Byte>)
    requires AtBoundary(rest)
    ensures UnescapeBytes(Encode(PercentByte(b)) + rest) == Prepend(b, UnescapeBytes(rest))
  {
    var text := PercentByte(b);
    EncodeAscii(text);
    var bytes := Encode(text);
    assert bytes == [PERCENT, text[1] as int, text[2] as int];
    var all := bytes + rest;
    assert all[3..] == rest && all[0] == PERCENT && all[1] == bytes[1] && all[2] == bytes[2];
    assert HexValue(bytes[1]) == Some(b / 16) && HexValue(bytes[2]) == Some(b % 16);
  }

  lemma EncodeStartsAtBoundary(s: string, rest: seq<Byte>)
    requires AtBoundary(rest)
    ensures AtBoundary(Encode(s) + rest)
  {
    if s != "" {
      assert (Encode(s) + rest)[0] == EncodeChar(s[0])[0];
    } else {
      assert Encode(s) + rest == rest;
    }
  }

  lemma PercentSplit(bytes: seq<Byte>, rest: seq<Byte>)
    requires bytes != []
    ensures Encode(PercentBytes(bytes)) + rest == Encode(PercentByte(bytes[0])) + (Encode(PercentBytes(bytes[1..])) + rest)
  {
    EncodeJoin(PercentByte(bytes[0]), PercentBytes(bytes[1..]));
    Regroup(Encode(PercentByte(bytes[0])), Encode(PercentBytes(bytes[1..])), rest);
  }

  lemma {:induction false} PercentBytesRead(bytes: seq<Byte>, rest: seq<Byte>)
    requires AtBoundary(rest)
    ensures UnescapeBytes(Encode(PercentBytes(bytes)) + rest) == PrependAll(bytes, UnescapeBytes(rest))
  {
    if bytes == [] {
      assert Encode("") + rest == rest;
      PrependNothing(UnescapeBytes(rest));
    } else {
      PercentBytesRead(bytes[1..], rest);
      PercentSplit(bytes, rest);
      EncodeStartsAtBoundary(PercentBytes(bytes[1..]), rest);
      PercentByteRead(bytes[0], Encode(PercentBytes(bytes[1..])) + rest);
      JoinOne(bytes, UnescapeBytes(rest));
    }
  }

  lemma JoinOne(bytes: seq<Byte>, rest: Option<seq<Byte>>)
    requires bytes != []
    ensures Prepend(bytes[0], PrependAll(bytes[1..], rest)) == PrependAll(bytes, rest)
  {
    if rest.Some? {
      assert [bytes[0]] + (bytes[1..] + rest.value) == bytes + rest.value;
    }
  }

  /** Bytes that are no percent sign stand for themselves. */
  lemma {:induction false} PlainBytesRead(bytes: seq<Byte>, rest: seq<Byte>)
    requires forall i :: 0 <= i < |bytes| ==> bytes[i] != PERCENT
    ensures UnescapeBytes(bytes + rest) == PrependAll(bytes, UnescapeBytes(rest))
  {
    if bytes == [] {
      assert bytes + rest == rest;
      PrependNothing(UnescapeBytes(rest));
    } else {
      assert (bytes + rest)[1..] == bytes[1..] + rest;
      PlainBytesRead(bytes[1..], rest);
      JoinOne(bytes, UnescapeBytes(rest));
    }
  }

  lemma {:induction false} EscapedRead(s: string)
    ensures UnescapeBytes(Encode(EscapeComponent(s))) == Some(Encode(s))
  {
    if s != "" {
      var c, tail := s[0], EscapeComponent(s[1..]);
      EscapedRead(s[1..]);
      EncodeJoin(EscapeChar(c), tail);
      EncodeStartsAtBoundary(tail, []);
      assert Encode(tail) + [] == Encode(tail);
      if MustEscape(c) {
        PercentBytesRead(EncodeChar(c), Encode(tail));
      } else {
        assert Encode([c]) == EncodeChar(c) + Encode("");
        PlainBytesRead(EncodeChar(c), Encode(tail));
      }
    }
  }

  /** Unescaping an escaped string gives the string back, whatever it holds. */
  lemma UnescapeEscaped(s: string, lossy: seq<Byte> -> string)
    ensures UnescapeOf(EscapeComponent(s), lossy) == Some(s)
  {
    EscapedRead(s);
    DecodeEncode(s);
  }

  /** So two strings never share an escaped form. */
  lemma EscapeInjective(s: string, t: string)
    requires EscapeComponent(s) == EscapeComponent(t)
    ensures s == t
  {
    EscapedRead(s);
    EscapedRead(t);
    DecodeEncode(s);
    DecodeEncode(t);
  }

  lemma {:induction false} NoSlashInPercent(bytes: seq<Byte>)
    ensures '/' !in PercentBytes(bytes)
  {
    if bytes != [] {
      NoSlashInPercent(bytes[1..]);
    }
  }

  /** An escaped string is one component: no slash survives. */
  lemma {:induction false} EscapedHasNoSlash(s: string)
    ensures '/' !in EscapeComponent(s)
  {
    if s != "" {
      EscapedHasNoSlash(s[1..]);
      NoSlashInPercent(EncodeChar(s[0]));
    }
  }

  // ----- encoded spaces -----

  predicate StartsWithSpace(s: string) {
    |s| >= 3 && s[0] == '%' && s[1] == '2' && s[2] == '0'
  }

  /** `replace("%20", " ")`. */
  function DecodeSpaces(s: string): string {
    if s == "" then ""
    else if StartsWithSpace(s) then " " + DecodeSpaces(s[3..])
    else [s[0]] + DecodeSpaces(s[1..])
  }

  /** `replace(' ', "%20")`. */
  function EncodeSpaces(s: string): string {
    if s == "" then "" else (if s[0] == ' ' then "%20" else [s[0]]) + EncodeSpaces(s[1..])
  }

  lemma EncodeHead(s: string)
    requires s != ""
    ensures EncodeSpaces(s) != "" && EncodeSpaces(s)[0] == if s[0] == ' ' then '%' else s[0]
    ensures s[0] != ' ' ==> EncodeSpaces(s)[1..] == EncodeSpaces(s[1..])
  {
  }

  lemma EncodePrefix(s: string)
    requires StartsWithSpace(s)
    ensures EncodeSpaces(s) == "%20" + EncodeSpaces(s[3..])
  {
    assert s[1..][1..] == s[2..] && s[2..][1..] == s[3..];
    assert EncodeSpaces(s) == [s[0]] + EncodeSpaces(s[1..]);
    assert EncodeSpaces(s[1..]) == [s[1]] + EncodeSpaces(s[2..]);
    assert EncodeSpaces(s[2..]) == [s[2]] + EncodeSpaces(s[3..]);
  }

  lemma {:induction false} EncodeDecoded(s: string)
    ensures EncodeSpaces(DecodeSpaces(s)) == EncodeSpaces(s)
  {
    if s != "" {
      if StartsWithSpace(s) {
        EncodeDecoded(s[3..]);
        assert DecodeSpaces(s)[1..] == DecodeSpaces(s[3..]);
        EncodePrefix(s);
      } else {
        EncodeDecoded(s[1..]);
        assert DecodeSpaces(s)[1..] == DecodeSpaces(s[1..]);
      }
    }
  }

  lemma {:induction false} DecodeEncoded(s: string)
    ensures DecodeSpaces(EncodeSpaces(s)) == DecodeSpaces(s)
  {
    if s != "" {
      DecodeEncoded(s[1..]);
      if s[0] == ' ' {
        assert EncodeSpaces(s)[3..] == EncodeSpaces(s[1..]);
      } else if StartsWithSpace(s) {
        DecodeEncoded(s[3..]);
        EncodePrefix(s);
        assert EncodeSpaces(s)[3..] == EncodeSpaces(s[3..]);
      } else {
        SpaceStartKept(s);
        assert EncodeSpaces(s)[1..] == EncodeSpaces(s[1..]);
      }
    }
  }

  lemma SpaceStartKept(s: string)
    requires s != "" && s[0] != ' ' && !StartsWithSpace(s)
    ensures !StartsWithSpace(EncodeSpaces(s))
  {
    EncodeHead(s);
    if |s| > 1 {
      EncodeHead(s[1..]);
      assert EncodeSpaces(s)[1] == EncodeSpaces(s[1..])[0];
      if |s| > 2 && s[1] != ' ' {
        assert s[1..][1..] == s[2..];
        EncodeHead(s[2..]);
        assert EncodeSpaces(s)[2] == EncodeSpaces(s[1..])[1] == EncodeSpaces(s[2..])[0];
      }
    }
  }

  /** The two spellings of a space are all that decoding forgets. */
  lemma SpacesAgree(s: string, t: string)
    ensures DecodeSpaces(s) == DecodeSpaces(t) <==> EncodeSpaces(s) == EncodeSpaces(t)
  {
    EncodeDecoded(s);
    EncodeDecoded(t);
    DecodeEncoded(s);
    DecodeEncoded(t);
  }

  /** A path without a literal space is recovered from its decoded form. */
  lemma {:induction false} SpaceFreeRecovered(s: string)
    requires ' ' !in s
    ensures EncodeSpaces(s) == s
    ensures EncodeSpaces(DecodeSpaces(s)) == s
  {
    EncodeDecoded(s);
    if s != "" {
      SpaceFreeRecovered(s[1..]);
      assert s == [s[0]] + s[1..];
    }
  }

  // ----- where no encoded space is left -----

  /** No `%20` stands anywhere in the text. */
  predicate SpaceFree(s: string) {
    s == "" || (!StartsWithSpace(s) && SpaceFree(s[1..]))
  }

  lemma DecodeHead(s: string)
    requires s != ""
    ensures DecodeSpaces(s) != "" && DecodeSpaces(s)[0] == if StartsWithSpace(s) then ' ' else s[0]
    ensures DecodeSpaces(s)[1..] == DecodeSpaces(if StartsWithSpace(s) then s[3..] else s[1..])
  {
  }

  lemma {:induction false} DecodedSpaceFree(s: string)
    ensures SpaceFree(DecodeSpaces(s))
  {
    if s != "" {
      DecodeHead(s);
      DecodedSpaceFree(if StartsWithSpace(s) then s[3..] else s[1..]);
      if StartsWithSpace(DecodeSpaces(s)) {
        var d := DecodeSpaces(s[1..]);
        assert s[0] == '%' && d[0] == '2' && d[1] == '0';
        DecodeHead(s[1..]);
        assert s[1] == '2' && d[1..] == DecodeSpaces(s[1..][1..]);
        DecodeHead(s[1..][1..]);
        assert false;
      }
    }
  }

  lemma {:induction false} SpaceFreeKept(s: string)
    requires SpaceFree(s)
    ensures DecodeSpaces(s) == s
  {
    if s != "" {
      SpaceFreeKept(s[1..]);
    }
  }

  /** A text decodes to `m` exactly when `m` has no encoded space left and spells what the text does. */
  lemma DecodesToExactlyWhen(s: string, m: string)
    ensures DecodeSpaces(s) == m <==> SpaceFree(m) && EncodeSpaces(s) == EncodeSpaces(m)
  {
    DecodedSpaceFree(s);
    EncodeDecoded(s);
    SpacesAgree(s, m);
    if SpaceFree(m) {
      SpaceFreeKept(m);
    }
  }

  lemma PercentByteSpaceFree(b: Byte, t: string)
    ensures SpaceFree(PercentByte(b) + t) <==> b != 32 && SpaceFree(t)
  {
    var s := PercentByte(b) + t;
    assert s[1..][1..] == s[2..] && s[2..][1..] == s[3..] == t;
    assert s[0] == '%' && s[1] == HexDigit(b / 16) && s[2] == HexDigit(b % 16);
    assert !StartsWithSpace(s[1..]) && !StartsWithSpace(s[2..]);
    assert SpaceFree(s[1..]) == SpaceFree(s[2..]) == SpaceFree(t);
    assert StartsWithSpace(s) <==> b == 32;
  }

  lemma {:induction false} PercentBytesSpaceFree(bytes: seq<Byte>, t: string)
    ensures SpaceFree(PercentBytes(bytes) + t) <==> 32 !in bytes && SpaceFree(t)
  {
    if bytes == [] {
      assert "" + t == t;
    } else {
      PercentBytesSpaceFree(bytes[1..], t);
      Regroup(PercentByte(bytes[0]), PercentBytes(bytes[1..]), t);
      PercentByteSpaceFree(bytes[0], PercentBytes(bytes[1..]) + t);
    }
  }

  lemma EscapeCharSpaceFree(c: char, t: string)
    ensures SpaceFree(EscapeChar(c) + t) <==> c != ' ' && SpaceFree(t)
  {
    if MustEscape(c) {
      PercentBytesSpaceFree(EncodeChar(c), t);
      assert 32 in EncodeChar(c) <==> c == ' ';
    } else {
      assert ([c] + t)[1..] == t;
    }
  }

  /** Escaping leaves an encoded space exactly where there was a space. */
  lemma {:induction false} EscapedSpaceFree(s: string, t: string)
    ensures SpaceFree(EscapeComponent(s) + t) <==> ' ' !in s && SpaceFree(t)
  {
    if s == "" {
      assert "" + t == t;
    } else {
      EscapedSpaceFree(s[1..], t);
      Regroup(EscapeChar(s[0]), EscapeComponent(s[1..]), t);
      EscapeCharSpaceFree(s[0], EscapeComponent(s[1..]) + t);
    }
  }

  lemma {:induction false} EncodeSpacesJoin(s: string, t: string)
    ensures EncodeSpaces(s + t) == EncodeSpaces(s) + EncodeSpaces(t)
  {
    if s == "" {
      assert s + t == t;
    } else {
      assert (s + t)[1..] == s[1..] + t;
      EncodeSpacesJoin(s[1..], t);
    }
  }
}
