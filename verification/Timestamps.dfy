/**
 Reading and writing RFC 3339 timestamps: `parse_rfc3339` (src/main.rs) and `format_rfc3339_utc`
 (src/write/logical.rs), over the bytes of the text.
 */
module Timestamps {
  import opened Basics
  import opened CivilDates

  const DASH: Byte := 45
  const PLUS: Byte := 43
  const DOT: Byte := 46
  const COLON: Byte := 58
  const LETTER_T: Byte := 84
  const LETTER_Z: Byte := 90

  predicate IsDigit(b: Byte) {
    48 <= b <= 57
  }

  predicate IsSign(b: Byte) {
    b == PLUS || b == DASH
  }

  predicate AllDigits(s: seq<Byte>) {
    forall i :: 0 <= i < |s| ==> IsDigit(s[i])
  }

  function Value(s: seq<Byte>): int {
    if s == [] then 0 else Value(s[..|s| - 1]) * 10 + (s[|s| - 1] as int - 48)
  }

  /** `parse::<i64>` of a text of at most four bytes: a sign is accepted, and no digits are not. */
  function ParseInt(s: seq<Byte>): Option<int> {
    if s == [] then None
    else
      var digits := if IsSign(s[0]) then s[1..] else s;
      if digits == [] || !AllDigits(digits) then None
      else if s[0] == DASH then Some(-Value(digits)) else Some(Value(digits))
  }

  // ----- reading -----

  datatype Fields = Fields(date: Date, hour: int, minute: int, second: int) {
    /** Seconds since the epoch, before the offset. */
    function Seconds(): int {
      SecondsOf(DaysOf(date), hour, minute, second)
    }
  }

  function SecondsOf(days: int, hour: int, minute: int, second: int): int {
    days * 86400 + hour * 3600 + minute * 60 + second
  }

  /** The six numbers at their fixed places; of the separators only the two of the date are looked at. */
  function ReadFields(text: seq<Byte>): Option<Fields> {
    if |text| < 19 || text[4] != DASH || text[7] != DASH then None
    else
      match (ParseInt(text[0..4]), ParseInt(text[5..7]), ParseInt(text[8..10]),
             ParseInt(text[11..13]), ParseInt(text[14..16]), ParseInt(text[17..19]))
      case (Some(y), Some(mo), Some(d), Some(h), Some(mi), Some(s)) => Some(Fields(Date(y, mo, d), h, mi, s))
      case _ => None
  }

  function FindSign(s: seq<Byte>): (r: Option<nat>)
    ensures r.Some? ==> r.value < |s| && IsSign(s[r.value])
  {
    if s == [] then None
    else if IsSign(s[0]) then Some(0)
    else
      match FindSign(s[1..])
      case None => None
      case Some(k) => Some(k + 1)
  }

  function Signed(sign: Byte, x: int): int {
    if sign == PLUS then x else -x
  }

  /** What the text after the seconds field takes off, in seconds: nothing without a sign, or when too short. */
  function OffsetSeconds(rest: seq<Byte>): Option<int> {
    match FindSign(rest)
    case None => Some(0)
    case Some(at) =>
      OffsetBehind(rest[at], rest[at + 1..])
  }

  /** What a sign takes off, by the bytes behind it. */
  function OffsetBehind(sign: Byte, back: seq<Byte>): Option<int> {
    if |back| < 5 then Some(0) else OffsetOf(sign, ParseInt(back[0..2]), ParseInt(back[3..5]))
  }

  function OffsetOf(sign: Byte, hours: Option<int>, minutes: Option<int>): Option<int> {
    match (hours, minutes)
    case (Some(oh), Some(om)) => Some(Signed(sign, oh * 3600 + om * 60))
    case _ => None
  }

  /** The instant a text names, in seconds since the epoch. */
  function Parse(text: seq<Byte>): Option<int> {
    match ReadFields(text)
    case None => None
    case Some(f) =>
      match OffsetSeconds(text[19..])
      case None => None
      case Some(off) => Some(f.Seconds() - off)
  }

  // ----- writing -----

  /** Decimal digits, zero-padded to at least `w`. */
  function Padded(n: nat, w: nat): (r: seq<Byte>)
    ensures |r| >= w && r != [] && AllDigits(r) && Value(r) == n
  {
    if n < 10 && w <= 1 then [48 + n]
    else
      var front := Padded(n / 10, if w == 0 then 0 else w - 1);
      var r := front + [48 + n % 10];
      assert r[..|r| - 1] == front;
      r
  }

  /** The first number too wide for `w` digits. */
  function Limit(w: nat): nat {
    if w == 0 then 1 else 10 * Limit(w - 1)
  }

  /** A number is written in exactly its width when it fits, and in more when it does not. */
  lemma {:induction false} PaddedWidth(n: nat, w: nat)
    requires w > 0
    ensures |Padded(n, w)| == w <==> n < Limit(w)
  {
    if w > 1 {
      PaddedWidth(n / 10, w - 1);
    }
  }

  /** The first nineteen bytes of a timestamp, with its three inner separators. */
  function Stamp(f: Fields, a: Byte, b: Byte, c: Byte): seq<Byte>
    requires Writable(f)
  {
    Padded(f.date.year, 4) + [DASH] + Padded(f.date.month, 2) + [DASH] + Padded(f.date.day, 2) + [a]
    + Padded(f.hour, 2) + [b] + Padded(f.minute, 2) + [c] + Padded(f.second, 2)
  }

  predicate Writable(f: Fields) {
    f.date.year >= 0 && f.date.month >= 0 && f.date.day >= 0 && f.hour >= 0 && f.minute >= 0 && f.second >= 0
  }

  /** Every field fits the width it is written in. */
  predicate Fits(f: Fields) {
    Writable(f) && f.date.year < 10000 && f.date.month < 100 && f.date.day < 100
    && f.hour < 100 && f.minute < 100 && f.second < 100
  }

  function FieldsAt(secs: nat): Fields {
    var rem := secs % 86400;
    Fields(CivilOf(secs / 86400), rem / 3600, rem % 3600 / 60, rem % 60)
  }

  lemma ClockParts(secs: nat)
    ensures var rem := secs % 86400;
      && SecondsOf(secs / 86400, rem / 3600, rem % 3600 / 60, rem % 60) == secs
      && rem / 3600 < 24 && rem % 3600 / 60 < 60 && rem % 60 < 60
  {
    var rem := secs % 86400;
    assert rem % 3600 % 60 == rem % 60;
  }

  lemma ShortMonths(d: Date)
    requires Valid(d)
    ensures 1 <= d.month < 100 && 1 <= d.day < 100
  {
  }

  lemma FieldsAtFit(secs: nat)
    ensures Writable(FieldsAt(secs)) && FieldsAt(secs).date == CivilOf(secs / 86400)
    ensures FieldsAt(secs).date.year < 10000 ==> Fits(FieldsAt(secs))
  {
    ClockParts(secs);
    CivilIsInverse(secs / 86400);
    NotBeforeEpoch(secs / 86400);
    ShortMonths(CivilOf(secs / 86400));
  }

  /** The fields written for an instant are a date of the calendar and a time of day, and they name that instant. */
  lemma FieldsAtMeaning(secs: nat)
    ensures FieldsAt(secs).Seconds() == secs && Valid(FieldsAt(secs).date)
    ensures FieldsAt(secs).hour < 24 && FieldsAt(secs).minute < 60 && FieldsAt(secs).second < 60
  {
    CivilIsInverse(secs / 86400);
    ClockParts(secs);
  }

  lemma NotBeforeEpoch(days: nat)
    ensures CivilOf(days).year >= 1970
  {
    var d := CivilOf(days);
    CivilIsInverse(days);
    EpochIsDayZero();
    if d.year < 1970 {
      DaysIncrease(d, Date(1970, 1, 1));
    }
  }

  function Format(secs: nat): seq<Byte> {
    FieldsAtFit(secs);
    Stamp(FieldsAt(secs), LETTER_T, COLON, COLON) + [LETTER_Z]
  }

  // ----- what is read from a written field -----

  lemma ParsePadded(n: nat, w: nat)
    ensures ParseInt(Padded(n, w)) == Some(n)
  {
    var s := Padded(n, w);
    assert IsDigit(s[0]);
  }

  /** Where six pieces of their own widths stand when joined with separators. */
  lemma JoinedPlaces(y: seq<Byte>, mo: seq<Byte>, d: seq<Byte>, h: seq<Byte>, mi: seq<Byte>, s: seq<Byte>, a: Byte, b: Byte, c: Byte)
    requires |y| == 4 && |mo| == 2 && |d| == 2 && |h| == 2 && |mi| == 2 && |s| == 2
    ensures var t := y + [DASH] + mo + [DASH] + d + [a] + h + [b] + mi + [c] + s;
      && |t| == 19 && t[4] == DASH && t[7] == DASH
      && t[0..4] == y && t[5..7] == mo && t[8..10] == d && t[11..13] == h && t[14..16] == mi && t[17..19] == s
  {
  }

  lemma StampPlaces(f: Fields, a: Byte, b: Byte, c: Byte)
    requires Fits(f)
    ensures var s := Stamp(f, a, b, c);
      && |s| == 19 && s[4] == DASH && s[7] == DASH
      && s[0..4] == Padded(f.date.year, 4) && s[5..7] == Padded(f.date.month, 2) && s[8..10] == Padded(f.date.day, 2)
      && s[11..13] == Padded(f.hour, 2) && s[14..16] == Padded(f.minute, 2) && s[17..19] == Padded(f.second, 2)
  {
    Limits();
    PaddedWidth(f.date.year, 4);
    PaddedWidth(f.date.month, 2);
    PaddedWidth(f.date.day, 2);
    PaddedWidth(f.hour, 2);
    PaddedWidth(f.minute, 2);
    PaddedWidth(f.second, 2);
    JoinedPlaces(Padded(f.date.year, 4), Padded(f.date.month, 2), Padded(f.date.day, 2), Padded(f.hour, 2),
                 Padded(f.minute, 2), Padded(f.second, 2), a, b, c);
  }

  lemma Limits()
    ensures Limit(2) == 100 && Limit(4) == 10000
  {
    assert Limit(1) == 10 && Limit(3) == 1000;
  }

  /** Whatever stands between the numbers and after them, the fields of a stamp are read back. */
  lemma FieldsReadBack(f: Fields, a: Byte, b: Byte, c: Byte, rest: seq<Byte>)
    requires Fits(f)
    ensures ReadFields(Stamp(f, a, b, c) + rest) == Some(f)
    ensures (Stamp(f, a, b, c) + rest)[19..] == rest
  {
    var s := Stamp(f, a, b, c);
    var text := s + rest;
    StampPlaces(f, a, b, c);
    assert text[0..4] == s[0..4] && text[5..7] == s[5..7] && text[8..10] == s[8..10];
    assert text[11..13] == s[11..13] && text[14..16] == s[14..16] && text[17..19] == s[17..19];
    ParsePadded(f.date.year, 4);
    ParsePadded(f.date.month, 2);
    ParsePadded(f.date.day, 2);
    ParsePadded(f.hour, 2);
    ParsePadded(f.minute, 2);
    ParsePadded(f.second, 2);
  }

  lemma ParsedFrom(text: seq<Byte>, f: Fields, off: int)
    requires |text| >= 19 && ReadFields(text) == Some(f) && OffsetSeconds(text[19..]) == Some(off)
    ensures Parse(text) == Some(f.Seconds() - off)
  {
  }

  lemma {:induction false} FindSignAfter(front: seq<Byte>, sign: Byte, back: seq<Byte>)
    requires IsSign(sign) && forall i :: 0 <= i < |front| ==> !IsSign(front[i])
    ensures FindSign(front + [sign] + back) == Some(|front|)
  {
    if front != [] {
      assert (front + [sign] + back)[1..] == front[1..] + [sign] + back;
      FindSignAfter(front[1..], sign, back);
    }
  }

  lemma {:induction false} FindSignNone(s: seq<Byte>)
    requires forall i :: 0 <= i < |s| ==> !IsSign(s[i])
    ensures FindSign(s) == None
  {
    if s != [] {
      FindSignNone(s[1..]);
    }
  }

  /** With nothing signed after the seconds the instant is the calendar's, to the second. */
  lemma ReadsUtc(f: Fields, a: Byte, b: Byte, c: Byte, rest: seq<Byte>)
    requires Fits(f) && forall i :: 0 <= i < |rest| ==> !IsSign(rest[i])
    ensures Parse(Stamp(f, a, b, c) + rest) == Some(f.Seconds())
  {
    FindSignNone(rest);
    FieldsReadBack(f, a, b, c, rest);
    ParsedFrom(Stamp(f, a, b, c) + rest, f, 0);
  }

  /** Hours and minutes in two digits each, a byte between them, and whatever follows. */
  function OffsetText(oh: nat, colon: Byte, om: nat, tail: seq<Byte>): seq<Byte> {
    Padded(oh, 2) + [colon] + Padded(om, 2) + tail
  }

  lemma OffsetPlaces(sign: Byte, oh: nat, colon: Byte, om: nat, tail: seq<Byte>)
    requires oh < 100 && om < 100
    ensures OffsetBehind(sign, OffsetText(oh, colon, om, tail)) == Some(Signed(sign, oh * 3600 + om * 60))
  {
    var back := OffsetText(oh, colon, om, tail);
    PaddedWidth(oh, 2);
    PaddedWidth(om, 2);
    Limits();
    assert back[0..2] == Padded(oh, 2);
    assert back[3..5] == Padded(om, 2);
    ParsePadded(oh, 2);
    ParsePadded(om, 2);
  }

  lemma SignFound(front: seq<Byte>, sign: Byte, back: seq<Byte>)
    requires IsSign(sign) && forall i :: 0 <= i < |front| ==> !IsSign(front[i])
    ensures OffsetSeconds(front + [sign] + back) == OffsetBehind(sign, back)
  {
    FindSignAfter(front, sign, back);
    assert (front + [sign] + back)[|front| + 1..] == back;
  }

  lemma ParsedBy(text: seq<Byte>, f: Fields, off: Option<int>)
    requires |text| >= 19 && ReadFields(text) == Some(f) && OffsetSeconds(text[19..]) == off
    ensures IsInstant(Parse(text), f.Seconds(), off)
  {
  }

  /** `p` is the local time less the offset, and nothing when there is none: for `Some(x)`, `p == Some(local - x)`. */
  predicate IsInstant(p: Option<int>, local: int, off: Option<int>) {
    p.Some? == off.Some? && (off.Some? ==> p.value == local - off.value)
  }

  /** The instant is the calendar's less what the first sign takes off. */
  lemma InstantIs(f: Fields, a: Byte, b: Byte, c: Byte, front: seq<Byte>, sign: Byte, back: seq<Byte>)
    requires Fits(f) && IsSign(sign) && forall i :: 0 <= i < |front| ==> !IsSign(front[i])
    ensures IsInstant(Parse(Stamp(f, a, b, c) + (front + [sign] + back)), f.Seconds(), OffsetBehind(sign, back))
  {
    var rest := front + [sign] + back;
    SignFound(front, sign, back);
    FieldsReadBack(f, a, b, c, rest);
    ParsedBy(Stamp(f, a, b, c) + rest, f, OffsetBehind(sign, back));
  }

  lemma OffsetRead(fraction: seq<Byte>, sign: Byte, oh: nat, colon: Byte, om: nat, tail: seq<Byte>)
    requires oh < 100 && om < 100
    requires IsSign(sign) && forall i :: 0 <= i < |fraction| ==> !IsSign(fraction[i])
    ensures OffsetSeconds(fraction + [sign] + OffsetText(oh, colon, om, tail)) == Some(Signed(sign, oh * 3600 + om * 60))
  {
    SignFound(fraction, sign, OffsetText(oh, colon, om, tail));
    OffsetPlaces(sign, oh, colon, om, tail);
  }

  /** An offset moves the instant by exactly its hours and minutes, east back and west forward. */
  lemma OffsetMovesExactly(f: Fields, a: Byte, b: Byte, c: Byte, fraction: seq<Byte>, sign: Byte, oh: nat, colon: Byte,
                           om: nat, tail: seq<Byte>, off: int)
    requires Fits(f) && oh < 100 && om < 100 && off == Signed(sign, oh * 3600 + om * 60)
    requires IsSign(sign) && forall i :: 0 <= i < |fraction| ==> !IsSign(fraction[i])
    ensures Parse(Stamp(f, a, b, c) + (fraction + [sign] + OffsetText(oh, colon, om, tail))) == Some(f.Seconds() - off)
  {
    var rest := fraction + [sign] + OffsetText(oh, colon, om, tail);
    OffsetRead(fraction, sign, oh, colon, om, tail);
    FieldsReadBack(f, a, b, c, rest);
    ParsedFrom(Stamp(f, a, b, c) + rest, f, off);
  }

  /**
   Whatever follows the first sign decides as its length and two pairs of its bytes do: fewer than five bytes are
   passed over, otherwise bytes 0-1 are the hours and bytes 3-4 the minutes, and the text is refused when
   either is no number.
   */
  lemma OffsetDecides(text: seq<Byte>, f: Fields, front: seq<Byte>, sign: Byte, back: seq<Byte>)
    requires ReadFields(text) == Some(f) && text[19..] == front + [sign] + back
    requires IsSign(sign) && forall i :: 0 <= i < |front| ==> !IsSign(front[i])
    ensures Parse(text).None? <==> |back| >= 5 && (ParseInt(back[0..2]).None? || ParseInt(back[3..5]).None?)
    ensures |back| < 5 ==> Parse(text) == Some(f.Seconds())
    ensures |back| >= 5 && Parse(text).Some? ==>
      Parse(text).value == f.Seconds() - Signed(sign, ParseInt(back[0..2]).value * 3600 + ParseInt(back[3..5]).value * 60)
  {
    SignFound(front, sign, back);
    ParsedBy(text, f, OffsetBehind(sign, back));
  }

  /** An offset of fewer than five bytes, wherever it stands, is passed over: the local time is taken for UTC. */
  lemma ShortOffsetIgnored(f: Fields, a: Byte, b: Byte, c: Byte, front: seq<Byte>, sign: Byte, back: seq<Byte>)
    requires Fits(f) && IsSign(sign) && forall i :: 0 <= i < |front| ==> !IsSign(front[i])
    requires |back| < 5
    ensures Parse(Stamp(f, a, b, c) + (front + [sign] + back)) == Some(f.Seconds())
  {
    InstantIs(f, a, b, c, front, sign, back);
  }

  /** Hours and minutes in two digits each with nothing between them, and whatever follows. */
  function CompactOffset(oh: nat, om: nat, tail: seq<Byte>): seq<Byte> {
    Padded(oh, 2) + Padded(om, 2) + tail
  }

  lemma TwoDigits(n: nat)
    requires n < 100
    ensures Padded(n, 2) == [48 + n / 10, 48 + n % 10]
  {
    assert Padded(n / 10, 1) == [48 + n / 10];
  }

  lemma ParsePair(x: Byte, y: Byte)
    requires IsDigit(x)
    ensures ParseInt([x, y]) == if IsDigit(y) then Some((x as int - 48) * 10 + (y as int - 48)) else None
  {
    var s := [x, y];
    assert s[..1] == [x] && [x][..0] == [];
    assert Value([x]) == x as int - 48;
    assert s[1] == y;
  }

  /** Without the colon the minutes are read one place late. */
  function LateOffset(sign: Byte, oh: nat, om: nat, tail: seq<Byte>): Option<int> {
    if tail == [] then Some(0)
    else if IsDigit(tail[0]) then Some(Signed(sign, oh * 3600 + (om % 10 * 10 + (tail[0] as int - 48)) * 60))
    else None
  }

  lemma CompactBehind(sign: Byte, oh: nat, om: nat, tail: seq<Byte>)
    requires oh < 100 && om < 100
    ensures OffsetBehind(sign, CompactOffset(oh, om, tail)) == LateOffset(sign, oh, om, tail)
  {
    var back := CompactOffset(oh, om, tail);
    TwoDigits(oh);
    TwoDigits(om);
    if tail != [] {
      assert back[0..2] == Padded(oh, 2) && back[3..5] == [48 + om % 10, tail[0]];
      ParsePadded(oh, 2);
      ParsePair(48 + om % 10, tail[0]);
    }
  }

  /** Reading the minutes late reads them right. */
  predicate LateIsRight(oh: nat, om: nat, tail: seq<Byte>) {
    if tail == [] then oh == om == 0 else IsDigit(tail[0]) && om / 10 == om % 10 == tail[0] as int - 48
  }

  lemma InstantByLate(p: Option<int>, local: int, sign: Byte, oh: nat, om: nat, tail: seq<Byte>)
    requires om < 100 && IsInstant(p, local, LateOffset(sign, oh, om, tail))
    ensures IsInstant(p, local, Some(Signed(sign, oh * 3600 + om * 60))) <==> LateIsRight(oh, om, tail)
    ensures p.None? <==> tail != [] && !IsDigit(tail[0])
  {
  }

  lemma CompactRead(front: seq<Byte>, sign: Byte, oh: nat, om: nat, tail: seq<Byte>)
    requires oh < 100 && om < 100
    requires IsSign(sign) && forall i :: 0 <= i < |front| ==> !IsSign(front[i])
    ensures OffsetSeconds(front + [sign] + CompactOffset(oh, om, tail)) == LateOffset(sign, oh, om, tail)
  {
    SignFound(front, sign, CompactOffset(oh, om, tail));
    CompactBehind(sign, oh, om, tail);
  }

  /**
   An offset without the colon is applied as written exactly when it is zero and ends the text, or its minutes are
   one digit twice and that digit stands a third time behind them. Followed by anything but a digit it is refused.
   */
  lemma CompactAppliedExactlyWhen(text: seq<Byte>, f: Fields, front: seq<Byte>, sign: Byte, oh: nat, om: nat, tail: seq<Byte>)
    requires ReadFields(text) == Some(f) && text[19..] == front + [sign] + CompactOffset(oh, om, tail)
    requires oh < 100 && om < 100
    requires IsSign(sign) && forall i :: 0 <= i < |front| ==> !IsSign(front[i])
    ensures IsInstant(Parse(text), f.Seconds(), Some(Signed(sign, oh * 3600 + om * 60))) <==> LateIsRight(oh, om, tail)
    ensures Parse(text).None? <==> tail != [] && !IsDigit(tail[0])
  {
    CompactRead(front, sign, oh, om, tail);
    ParsedBy(text, f, LateOffset(sign, oh, om, tail));
    InstantByLate(Parse(text), f.Seconds(), sign, oh, om, tail);
  }

  /** `0530`, `5:30` and `053000`. */
  const FIVE_THIRTY: seq<Byte> := [48, 53, 51, 48]
  const SHORT_HOUR: seq<Byte> := [53, COLON, 51, 48]
  const WITH_SECONDS: seq<Byte> := [48, 53, 51, 48, 48, 48]

  /**
   Three ways of writing five and a half hours: `+0530` and `+5:30` are taken for UTC, and `+053000` is applied
   as five hours, an instant that is neither.
   */
  lemma OffsetMisread(f: Fields, a: Byte, b: Byte, c: Byte, front: seq<Byte>)
    requires Fits(f) && forall i :: 0 <= i < |front| ==> !IsSign(front[i])
    ensures Parse(Stamp(f, a, b, c) + (front + [PLUS] + FIVE_THIRTY)) == Some(f.Seconds())
    ensures Parse(Stamp(f, a, b, c) + (front + [PLUS] + SHORT_HOUR)) == Some(f.Seconds())
    ensures Parse(Stamp(f, a, b, c) + (front + [PLUS] + WITH_SECONDS)) == Some(f.Seconds() - 18000)
  {
    ShortOffsetIgnored(f, a, b, c, front, PLUS, FIVE_THIRTY);
    ShortOffsetIgnored(f, a, b, c, front, PLUS, SHORT_HOUR);
    MinutesReadLate();
    InstantIs(f, a, b, c, front, PLUS, WITH_SECONDS);
  }

  lemma MinutesReadLate()
    ensures OffsetBehind(PLUS, WITH_SECONDS) == Some(18000)
  {
    assert WITH_SECONDS[0..2] == [48, 53] && WITH_SECONDS[3..5] == [48, 48];
    ParsePair(48, 53);
    ParsePair(48, 48);
  }

  // ----- what is documented -----

  /** `time-secfrac` of section 5.6 of RFC 3339, which is optional. */
  predicate IsFraction(s: seq<Byte>) {
    s == [] || (|s| >= 2 && s[0] == DOT && AllDigits(s[1..]))
  }

  /** `Z` after any fraction. */
  predicate EndsInZ(rest: seq<Byte>) {
    rest != [] && IsLetter(rest[|rest| - 1], LETTER_Z) && IsFraction(rest[..|rest| - 1])
  }

  /** `time-numoffset` after any fraction: a sign, two digits, a colon and two digits, at most 23:59. */
  predicate EndsInOffset(rest: seq<Byte>) {
    |rest| >= 6
    && var at := |rest| - 6;
       && IsFraction(rest[..at]) && IsSign(rest[at])
       && AllDigits(rest[at + 1..at + 3]) && rest[at + 3] == COLON && AllDigits(rest[at + 4..])
       && Value(rest[at + 1..at + 3]) < 24 && Value(rest[at + 4..]) < 60
  }

  /** A letter in either case. */
  predicate IsLetter(b: Byte, upper: Byte) {
    b == upper || b as int == upper as int + 32
  }

  /** Nineteen bytes of `full-date`, `T` and `partial-time`. */
  predicate HasShape(text: seq<Byte>) {
    |text| >= 19
    && text[4] == DASH && text[7] == DASH && IsLetter(text[10], LETTER_T) && text[13] == COLON && text[16] == COLON
    && AllDigits(text[0..4]) && AllDigits(text[5..7]) && AllDigits(text[8..10])
    && AllDigits(text[11..13]) && AllDigits(text[14..16]) && AllDigits(text[17..19])
  }

  function FieldsWritten(text: seq<Byte>): Fields
    requires |text| >= 19
  {
    Fields(Date(Value(text[0..4]), Value(text[5..7]), Value(text[8..10])),
           Value(text[11..13]), Value(text[14..16]), Value(text[17..19]))
  }

  /** A date of the calendar and a time of day; a leap second is the sixtieth. */
  predicate OnTheClock(f: Fields) {
    Valid(f.date) && 0 <= f.hour < 24 && 0 <= f.minute < 60 && 0 <= f.second <= 60
  }

  /** `date-time` of section 5.6 of RFC 3339. */
  predicate IsDateTime(text: seq<Byte>) {
    HasShape(text) && OnTheClock(FieldsWritten(text)) && (EndsInZ(text[19..]) || EndsInOffset(text[19..]))
  }

  /** The instant a timestamp of the documented form names; nothing for any other text. */
  function Documented(text: seq<Byte>): Option<int> {
    if IsDateTime(text) then Some(FieldsWritten(text).Seconds() - OffsetWritten(text[19..])) else None
  }

  function OffsetWritten(rest: seq<Byte>): int
    requires EndsInZ(rest) || EndsInOffset(rest)
  {
    var at := |rest| - 6;
    if EndsInZ(rest) then 0
    else Signed(rest[at], Value(rest[at + 1..at + 3]) * 3600 + Value(rest[at + 4..]) * 60)
  }

  /** A sign with five bytes or more behind it, of which two at a fixed place are no number. */
  predicate OffsetRefused(rest: seq<Byte>) {
    match FindSign(rest)
    case None => false
    case Some(at) =>
      |rest| - at >= 6 && (ParseInt(rest[at + 1..at + 3]).None? || ParseInt(rest[at + 4..at + 6]).None?)
  }

  lemma ParseDigits(s: seq<Byte>)
    requires s != [] && AllDigits(s)
    ensures ParseInt(s) == Some(Value(s))
  {
    assert IsDigit(s[0]);
  }

  lemma ShapeRead(text: seq<Byte>)
    requires HasShape(text)
    ensures ReadFields(text) == Some(FieldsWritten(text))
  {
    ParseDigits(text[0..4]);
    ParseDigits(text[5..7]);
    ParseDigits(text[8..10]);
    ParseDigits(text[11..13]);
    ParseDigits(text[14..16]);
    ParseDigits(text[17..19]);
  }

  lemma FractionUnsigned(s: seq<Byte>)
    requires IsFraction(s)
    ensures forall i :: 0 <= i < |s| ==> !IsSign(s[i])
  {
    forall i | 1 <= i < |s|
      ensures !IsSign(s[i])
    {
      assert s[i] == s[1..][i - 1];
      assert IsDigit(s[1..][i - 1]);
    }
  }

  lemma ZIsZero(rest: seq<Byte>)
    requires EndsInZ(rest)
    ensures OffsetSeconds(rest) == Some(0)
  {
    FractionUnsigned(rest[..|rest| - 1]);
    forall i | 0 <= i < |rest|
      ensures !IsSign(rest[i])
    {
      if i < |rest| - 1 {
        assert rest[i] == rest[..|rest| - 1][i];
      }
    }
    FindSignNone(rest);
  }

  lemma OffsetAsWritten(rest: seq<Byte>)
    requires EndsInOffset(rest)
    ensures var at := |rest| - 6;
      OffsetSeconds(rest) == Some(Signed(rest[at], Value(rest[at + 1..at + 3]) * 3600 + Value(rest[at + 4..]) * 60))
  {
    var at := |rest| - 6;
    var back := rest[at + 1..];
    FractionUnsigned(rest[..at]);
    assert rest == rest[..at] + [rest[at]] + back;
    assert back[0..2] == rest[at + 1..at + 3] && back[3..5] == rest[at + 4..];
    ParseDigits(back[0..2]);
    ParseDigits(back[3..5]);
    SignFound(rest[..at], rest[at], back);
  }

  lemma RefusedIs(rest: seq<Byte>)
    ensures OffsetSeconds(rest).None? <==> OffsetRefused(rest)
  {
    match FindSign(rest)
    case None =>
    case Some(at) =>
      if |rest| - at >= 6 {
        assert rest[at + 1..][0..2] == rest[at + 1..at + 3] && rest[at + 1..][3..5] == rest[at + 4..at + 6];
      }
  }

  lemma DocumentedRead(rest: seq<Byte>)
    requires EndsInZ(rest) || EndsInOffset(rest)
    ensures OffsetSeconds(rest) == Some(OffsetWritten(rest))
  {
    if EndsInZ(rest) {
      ZIsZero(rest);
    } else {
      OffsetAsWritten(rest);
    }
  }

  /** A timestamp of the documented form is read as the instant it names. */
  lemma DateTimeRead(text: seq<Byte>)
    requires IsDateTime(text)
    ensures Parse(text) == Documented(text)
  {
    ShapeRead(text);
    DocumentedRead(text[19..]);
    ParsedFrom(text, FieldsWritten(text), OffsetWritten(text[19..]));
  }

  /**
   The reader does what is documented, an instant for a timestamp and nothing for any other text, exactly when the text
   is a timestamp, a field is no number, or its first sign has five bytes behind it that hold no offset. Every other
   text is guessed at.
   */
  lemma ReadsAsDocumentedExactlyWhen(text: seq<Byte>)
    ensures Parse(text) == Documented(text) <==>
      IsDateTime(text) || ReadFields(text).None? || OffsetRefused(text[19..])
  {
    if IsDateTime(text) {
      DateTimeRead(text);
    } else if |text| >= 19 {
      RefusedIs(text[19..]);
    }
  }

  // ----- the round trip -----

  /** The first second of the year 10000. */
  const YEAR_10000: nat := 253_402_300_800

  lemma FirstDayOfYear10000()
    ensures DaysOf(Date(10000, 1, 1)) == 2_932_897
  {
    DaysSplit(Date(10000, 1, 1));
  }

  lemma YearOfDay(days: nat)
    ensures CivilOf(days).year < 10000 <==> days < 2_932_897
  {
    var d, first := CivilOf(days), Date(10000, 1, 1);
    CivilIsInverse(days);
    FirstDayOfYear10000();
    if d.year < 10000 {
      DaysIncrease(d, first);
    } else if d != first {
      DaysIncrease(first, d);
    }
  }

  lemma Year10000(secs: nat)
    ensures secs / 86400 < 2_932_897 <==> secs < YEAR_10000
  {
  }

  /** What the writer writes the reader reads, to the second, exactly until the year outgrows four digits. */
  lemma RoundTripsExactlyWhen(secs: nat)
    ensures Parse(Format(secs)) == Some(secs) <==> secs < YEAR_10000
    ensures secs >= YEAR_10000 ==> Parse(Format(secs)) == None
  {
    FieldsAtFit(secs);
    YearOfDay(secs / 86400);
    Year10000(secs);
    if secs < YEAR_10000 {
      ReadsUtc(FieldsAt(secs), LETTER_T, COLON, COLON, [LETTER_Z]);
      FieldsAtMeaning(secs);
    } else {
      LongYearRefused(secs);
    }
  }

  lemma LongYearRefused(secs: nat)
    requires FieldsAt(secs).date.year >= 10000
    ensures Parse(Format(secs)) == None
  {
    FieldsAtFit(secs);
    var year := Padded(FieldsAt(secs).date.year, 4);
    PaddedWidth(FieldsAt(secs).date.year, 4);
    Limits();
    assert Format(secs)[4] == year[4];
    assert IsDigit(year[4]);
  }

  lemma ThirtiethIsInMarch(year: int)
    ensures DaysOf(Date(year, 2, 30)) == DaysOf(Date(year, 3, if Leap(year) then 1 else 2))
  {
    DaysSplit(Date(year, 2, 30));
    DaysSplit(Date(year, 3, if Leap(year) then 1 else 2));
    MarchYearLength(year - 1);
  }

  /** 30 February, which the reader does not question, is read as the first or second of March. */
  lemma ThirtiethOfFebruary(year: nat, hour: nat, minute: nat, second: nat, rest: seq<Byte>)
    requires year < 10000 && hour < 100 && minute < 100 && second < 100
    requires forall i :: 0 <= i < |rest| ==> !IsSign(rest[i])
    ensures !Valid(Date(year, 2, 30))
    ensures var march := Date(year, 3, if Leap(year) then 1 else 2);
      && Parse(Stamp(Fields(Date(year, 2, 30), hour, minute, second), LETTER_T, COLON, COLON) + rest)
         == Parse(Stamp(Fields(march, hour, minute, second), LETTER_T, COLON, COLON) + rest)
         == Some(Fields(march, hour, minute, second).Seconds())
  {
    var march := Date(year, 3, if Leap(year) then 1 else 2);
    ReadsUtc(Fields(Date(year, 2, 30), hour, minute, second), LETTER_T, COLON, COLON, rest);
    ReadsUtc(Fields(march, hour, minute, second), LETTER_T, COLON, COLON, rest);
    ThirtiethIsInMarch(year);
  }
}
