/** UTF-8 (RFC 3629): the bytes of a string, and the string some bytes spell. */
module Utf8 {
  import opened Basics

  /** `char::is_control`. */
  predicate IsControl(c: char) {
    (c as int) < 0x20 || 0x7F <= (c as int) < 0xA0
  }

  /** The bytes of one character. */
  function EncodeChar(c: char): (r: seq<Byte>)
    ensures 1 <= |r| <= 4
    ensures (c as int) < 0x80 ==> r == [c as int]
    ensures (c as int) >= 0x80 ==> forall i :: 0 <= i < |r| ==> r[i] >= 0x80
    ensures !IsContinuation(r[0])
  {
    var n := c as int;
    if n < 0x80 then [n]
    else if n < 0x800 then [0xC0 + n / 0x40, 0x80 + n % 0x40]
    else if n < 0x10000 then [0xE0 + n / 0x1000, 0x80 + n / 0x40 % 0x40, 0x80 + n % 0x40]
    else [0xF0 + n / 0x40000, 0x80 + n / 0x1000 % 0x40, 0x80 + n / 0x40 % 0x40, 0x80 + n % 0x40]
  }

  function Encode(s: string): seq<Byte> {
    if s == "" then [] else EncodeChar(s[0]) + Encode(s[1..])
  }

  predicate IsContinuation(b: Byte) {
    0x80 <= b < 0xC0
  }

  predicate IsScalar(n: int) {
    0 <= n < 0xD800 || 0xE000 <= n < 0x110000
  }

  /** The first character of some bytes: the shortest form of a scalar value, or nothing. */
  function DecodeChar(b: seq<Byte>): Option<char> {
    if b == [] then None
    else if b[0] < 0x80 then Some(b[0] as char)
    else if |b| < 2 || !IsContinuation(b[1]) then None
    else if b[0] < 0xE0 then
      var n := (b[0] as int - 0xC0) * 0x40 + (b[1] as int - 0x80);
      if n < 0x80 then None else Some(n as char)
    else if |b| < 3 || !IsContinuation(b[2]) then None
    else if b[0] < 0xF0 then
      var n := (b[0] as int - 0xE0) * 0x1000 + (b[1] as int - 0x80) * 0x40 + (b[2] as int - 0x80);
      if n < 0x800 || !IsScalar(n) then None else Some(n as char)
    else if |b| < 4 || !IsContinuation(b[3]) then None
    else
      var n := (b[0] as int - 0xF0) * 0x40000 + (b[1] as int - 0x80) * 0x1000 + (b[2] as int - 0x80) * 0x40 + (b[3] as int - 0x80);
      if n < 0x10000 || !IsScalar(n) then None else Some(n as char)
  }

  lemma Recompose(w: nat, x: nat, y: nat, z: nat)
    requires x < 0x40 && y < 0x40 && z < 0x40
    ensures var n := w * 0x40000 + x * 0x1000 + y * 0x40 + z;
      n % 0x40 == z && n / 0x40 % 0x40 == y && n / 0x1000 % 0x40 == x && n / 0x40000 == w
  {
    var n := w * 0x40000 + x * 0x1000 + y * 0x40 + z;
    assert n / 0x40 == w * 0x1000 + x * 0x40 + y;
    assert n / 0x1000 == w * 0x40 + x;
  }

  /** A character read is written as the bytes it was read from. */
  lemma DecodedIsPrefix(b: seq<Byte>)
    requires DecodeChar(b).Some?
    ensures EncodeChar(DecodeChar(b).value) <= b
  {
    if b[0] >= 0xF0 {
      Recompose(b[0] as int - 0xF0, b[1] as int - 0x80, b[2] as int - 0x80, b[3] as int - 0x80);
    } else if b[0] >= 0xE0 {
      Recompose(0, b[0] as int - 0xE0, b[1] as int - 0x80, b[2] as int - 0x80);
    } else if b[0] >= 0x80 {
      Recompose(0, 0, b[0] as int - 0xC0, b[1] as int - 0x80);
    }
  }

  /** The string some bytes spell, when they are valid. */
  function Decode(b: seq<Byte>): Option<string>
    decreases |b|
  {
    if b == [] then Some("")
    else
      match DecodeChar(b)
      case None => None
      case Some(c) =>
        DecodedIsPrefix(b);
        match Decode(b[|EncodeChar(c)|..])
        case None => None
        case Some(s) => Some([c] + s)
  }

  /** Six bits at a time. */
  lemma Sextets(n: nat)
    ensures n == n / 0x40 * 0x40 + n % 0x40
    ensures n / 0x40 == n / 0x1000 * 0x40 + n / 0x40 % 0x40
    ensures n / 0x1000 == n / 0x40000 * 0x40 + n / 0x1000 % 0x40
  {
  }

  lemma DecodeFirstOf(c: char, b: seq<Byte>)
    requires EncodeChar(c) <= b
    ensures DecodeChar(b) == Some(c)
  {
    var n := c as int;
    var e := EncodeChar(c);
    Sextets(n);
    assert b[0] == e[0];
    if n >= 0x80 {
      assert b[1] == e[1];
      if n >= 0x800 {
        assert b[2] == e[2];
        if n >= 0x10000 {
          assert b[3] == e[3];
        }
      }
    }
  }

  lemma DecodeEncodedChar(c: char, rest: seq<Byte>)
    ensures DecodeChar(EncodeChar(c) + rest) == Some(c)
  {
    DecodeFirstOf(c, EncodeChar(c) + rest);
  }

  /** Every string is spelt by its own bytes. */
  lemma {:induction false} DecodeEncode(s: string)
    ensures Decode(Encode(s)) == Some(s)
  {
    if s != "" {
      DecodeEncodedChar(s[0], Encode(s[1..]));
      assert Encode(s)[|EncodeChar(s[0])|..] == Encode(s[1..]);
      DecodeEncode(s[1..]);
      assert [s[0]] + s[1..] == s;
    }
  }

  /** Bytes that spell a string are that string's bytes, so no two byte sequences spell one string. */
  lemma {:induction false} EncodeDecode(b: seq<Byte>)
    requires Decode(b).Some?
    ensures Encode(Decode(b).value) == b
    decreases |b|
  {
    if b != [] {
      var c := DecodeChar(b).value;
      DecodedIsPrefix(b);
      var rest := b[|EncodeChar(c)|..];
      EncodeDecode(rest);
      assert Decode(b).value[1..] == Decode(rest).value;
      assert b == EncodeChar(c) + rest;
    }
  }

  lemma {:induction false} EncodeJoin(s: string, t: string)
    ensures Encode(s + t) == Encode(s) + Encode(t)
  {
    if s == "" {
      assert s + t == t;
    } else {
      assert (s + t)[1..] == s[1..] + t;
      EncodeJoin(s[1..], t);
    }
  }

  /** Bytes that spell no character are no text behind any text. */
  lemma {:induction false} BadTail(s: string, b: seq<Byte>)
    requires b != [] && DecodeChar(b) == None
    ensures Decode(Encode(s) + b) == None
  {
    if s == "" {
      assert Encode(s) + b == b;
    } else {
      var e, rest := EncodeChar(s[0]), Encode(s[1..]) + b;
      assert Encode(s) + b == e + rest;
      DecodeEncodedChar(s[0], rest);
      BadTail(s[1..], b);
    }
  }

  predicate IsAscii(s: string) {
    forall i :: 0 <= i < |s| ==> (s[i] as int) < 0x80
  }

  /** A string of single-byte characters has one byte for each. */
  lemma {:induction false} EncodeAscii(s: string)
    requires IsAscii(s)
    ensures |Encode(s)| == |s| && forall i :: 0 <= i < |s| ==> Encode(s)[i] == s[i] as int
  {
    if s != "" {
      EncodeAscii(s[1..]);
    }
  }
}
