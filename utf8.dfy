/**
 * UTF-8 as Rust's String::from_utf8 accepts it: the byte-sequence syntax
 * of section 4 of RFC 3629, a decoder that reads scalar values from the
 * bit patterns of the bytes, and the encoder that is its inverse.
 */
module Utf8 {
  import opened Wrappers
  import opened Wasm

  /** UTF8-tail = %x80-BF */
  predicate IsTail(b: byte) {
    0x80 <= b <= 0xBF
  }

  /**
   * The length of the UTF8-char that s starts with, read off the grammar of
   * section 4 of RFC 3629 (UTF8-1 .. UTF8-4), or 0 when s starts with none.
   */
  function CharWidth(s: seq<byte>): (n: nat)
    ensures n <= 4 && n <= |s|
  {
    if |s| == 0 then 0
    else if s[0] <= 0x7F then 1
    else if 0xC2 <= s[0] <= 0xDF then
      if |s| >= 2 && IsTail(s[1]) then 2 else 0
    else if s[0] == 0xE0 then
      if |s| >= 3 && 0xA0 <= s[1] <= 0xBF && IsTail(s[2]) then 3 else 0
    else if 0xE1 <= s[0] <= 0xEC || 0xEE <= s[0] <= 0xEF then
      if |s| >= 3 && IsTail(s[1]) && IsTail(s[2]) then 3 else 0
    else if s[0] == 0xED then
      if |s| >= 3 && 0x80 <= s[1] <= 0x9F && IsTail(s[2]) then 3 else 0
    else if s[0] == 0xF0 then
      if |s| >= 4 && 0x90 <= s[1] <= 0xBF && IsTail(s[2]) && IsTail(s[3]) then 4 else 0
    else if 0xF1 <= s[0] <= 0xF3 then
      if |s| >= 4 && IsTail(s[1]) && IsTail(s[2]) && IsTail(s[3]) then 4 else 0
    else if s[0] == 0xF4 then
      if |s| >= 4 && 0x80 <= s[1] <= 0x8F && IsTail(s[2]) && IsTail(s[3]) then 4 else 0
    else 0
  }

  /** UTF8-octets = *( UTF8-char ) */
  predicate WellFormed(s: seq<byte>)
    decreases |s|
  {
    s == [] || (CharWidth(s) > 0 && WellFormed(s[CharWidth(s)..]))
  }

  /** The six payload bits of a continuation byte. */
  function Payload(b: byte): int {
    b as int - 0x80
  }

  /**
   * Decodes the scalar value s starts with from the bit patterns of its
   * bytes (0xxxxxxx, 110xxxxx, 1110xxxx, 11110xxx, each followed by the
   * right number of 10xxxxxx bytes), refusing overlong forms, surrogates
   * and values above U+10FFFF. It accepts exactly the UTF8-chars of the
   * RFC 3629 grammar, and consumes exactly one of them.
   */
  function DecodeChar(s: seq<byte>): (r: Option<(char, nat)>)
    ensures r.Some? <==> CharWidth(s) > 0
    ensures r.Some? ==> r.value.1 == CharWidth(s)
  {
    if |s| == 0 then None
    else
      var b0 := s[0] as int;
      if b0 < 0x80 then Some((b0 as char, 1))
      else if b0 < 0xC0 then None
      else if b0 < 0xE0 then
        if |s| < 2 || !IsTail(s[1]) then None
        else
          var x := (b0 - 0xC0) * 64 + Payload(s[1]);
          if x < 0x80 then None else Some((x as char, 2))
      else if b0 < 0xF0 then
        if |s| < 3 || !IsTail(s[1]) || !IsTail(s[2]) then None
        else
          var x := ((b0 - 0xE0) * 64 + Payload(s[1])) * 64 + Payload(s[2]);
          if x < 0x800 || (0xD800 <= x && x < 0xE000) then None else Some((x as char, 3))
      else if b0 < 0xF8 then
        if |s| < 4 || !IsTail(s[1]) || !IsTail(s[2]) || !IsTail(s[3]) then None
        else
          var x := (((b0 - 0xF0) * 64 + Payload(s[1])) * 64 + Payload(s[2])) * 64 + Payload(s[3]);
          if x < 0x10000 || x >= 0x110000 then None else Some((x as char, 4))
      else None
  }

  /** String::from_utf8: the text the bytes encode, or None when they are not UTF-8. */
  function Decode(s: seq<byte>): (r: Option<string>)
    decreases |s|
    ensures r.Some? ==> |r.value| <= |s| <= 4 * |r.value|
  {
    if s == [] then Some([])
    else
      match DecodeChar(s)
      case None => None
      case Some((c, n)) =>
        match Decode(s[n..])
        case None => None
        case Some(t) => Some([c] + t)
  }

  /** The UTF-8 bytes of one scalar value (String::as_bytes, one char at a time). */
  function EncodeChar(c: char): seq<byte> {
    var x := c as int;
    if x < 0x80 then [x as byte]
    else if x < 0x800 then
      [(0xC0 + x / 64) as byte, (0x80 + x % 64) as byte]
    else if x < 0x10000 then
      [(0xE0 + x / 64 / 64) as byte, (0x80 + x / 64 % 64) as byte, (0x80 + x % 64) as byte]
    else
      [(0xF0 + x / 64 / 64 / 64) as byte, (0x80 + x / 64 / 64 % 64) as byte,
       (0x80 + x / 64 % 64) as byte, (0x80 + x % 64) as byte]
  }

  /** The UTF-8 bytes of a text. */
  function Encode(t: string): seq<byte> {
    if t == [] then [] else EncodeChar(t[0]) + Encode(t[1..])
  }

  /** Decoding the encoding of one scalar value gives it back and consumes exactly its bytes. */
  lemma DecodeCharOfEncodeChar(c: char, rest: seq<byte>)
    ensures DecodeChar(EncodeChar(c) + rest) == Some((c, |EncodeChar(c)|))
  {
    var s := EncodeChar(c) + rest;
    var x := c as int;
    if x < 0x80 {
    } else if x < 0x800 {
      assert s[0] as int - 0xC0 == x / 64 && Payload(s[1]) == x % 64;
    } else if x < 0x10000 {
      assert s[0] as int - 0xE0 == x / 64 / 64;
      assert Payload(s[1]) == x / 64 % 64 && Payload(s[2]) == x % 64;
    } else {
      assert s[0] as int - 0xF0 == x / 64 / 64 / 64;
      assert Payload(s[1]) == x / 64 / 64 % 64;
      assert Payload(s[2]) == x / 64 % 64 && Payload(s[3]) == x % 64;
    }
  }

  /** Splitting a number into a quotient and a six-bit remainder. */
  lemma Split64(q: int, r: int)
    requires 0 <= r < 64
    ensures (q * 64 + r) / 64 == q && (q * 64 + r) % 64 == r
  {
  }

  lemma EncodeTwoBytes(s: seq<byte>, c: char)
    requires DecodeChar(s) == Some((c, 2))
    ensures EncodeChar(c) == s[..2]
  {
    var a, p1 := s[0] as int - 0xC0, Payload(s[1]);
    assert c as int == a * 64 + p1;
    Split64(a, p1);
    assert EncodeChar(c) == [s[0], s[1]];
  }

  lemma EncodeThreeBytes(s: seq<byte>, c: char)
    requires DecodeChar(s) == Some((c, 3))
    ensures EncodeChar(c) == s[..3]
  {
    var a, p1, p2 := s[0] as int - 0xE0, Payload(s[1]), Payload(s[2]);
    var q1 := a * 64 + p1;
    assert c as int == q1 * 64 + p2;
    Split64(q1, p2);
    Split64(a, p1);
    assert EncodeChar(c) == [s[0], s[1], s[2]];
  }

  lemma EncodeFourBytes(s: seq<byte>, c: char)
    requires DecodeChar(s) == Some((c, 4))
    ensures EncodeChar(c) == s[..4]
  {
    var a, p1, p2, p3 := s[0] as int - 0xF0, Payload(s[1]), Payload(s[2]), Payload(s[3]);
    var q2 := a * 64 + p1;
    var q1 := q2 * 64 + p2;
    assert c as int == q1 * 64 + p3;
    Split64(q1, p3);
    Split64(q2, p2);
    Split64(a, p1);
    assert EncodeChar(c) == [s[0], s[1], s[2], s[3]];
  }

  /** A decoded scalar value re-encodes to exactly the bytes it was decoded from. */
  lemma EncodeCharOfDecodeChar(s: seq<byte>, c: char, n: nat)
    requires DecodeChar(s) == Some((c, n))
    ensures EncodeChar(c) == s[..n]
  {
    if n == 2 {
      EncodeTwoBytes(s, c);
    } else if n == 3 {
      EncodeThreeBytes(s, c);
    } else if n == 4 {
      EncodeFourBytes(s, c);
    }
  }

  /** Round trip: the encoding of any text decodes to that text. */
  lemma {:induction false} DecodeEncode(t: string)
    ensures Decode(Encode(t)) == Some(t)
  {
    if t != [] {
      DecodeCharOfEncodeChar(t[0], Encode(t[1..]));
      assert Encode(t)[|EncodeChar(t[0])|..] == Encode(t[1..]);
      DecodeEncode(t[1..]);
      assert [t[0]] + t[1..] == t;
    }
  }

  /**
   * One step of a successful decode: the first CharWidth(s) bytes come back
   * from encoding the first scalar value, and the rest decodes on its own.
   */
  lemma EncodeDecodeStep(s: seq<byte>)
    requires s != [] && Decode(s).Some?
    ensures 0 < CharWidth(s) && Decode(s[CharWidth(s)..]).Some?
    ensures Encode(Decode(s).value) == s[..CharWidth(s)] + Encode(Decode(s[CharWidth(s)..]).value)
  {
    var (c, n) := DecodeChar(s).value;
    EncodeCharOfDecodeChar(s, c, n);
    var t := Decode(s).value;
    assert t == [c] + Decode(s[n..]).value;
    assert t[1..] == Decode(s[n..]).value;
  }

  /** Round trip: a successfully decoded text encodes back to the very bytes scanned. */
  lemma {:induction false} EncodeDecode(s: seq<byte>)
    requires Decode(s).Some?
    ensures Encode(Decode(s).value) == s
    decreases |s|
  {
    if s != [] {
      EncodeDecodeStep(s);
      EncodeDecode(s[CharWidth(s)..]);
      assert s == s[..CharWidth(s)] + s[CharWidth(s)..];
    }
  }

  /** Decoding succeeds exactly on the well-formed UTF-8 of RFC 3629. */
  lemma {:induction false} DecodeSucceedsIffWellFormed(s: seq<byte>)
    ensures Decode(s).Some? <==> WellFormed(s)
  {
    if s != [] && CharWidth(s) > 0 {
      DecodeSucceedsIffWellFormed(s[CharWidth(s)..]);
    }
  }

  /** Every scalar value takes one to four bytes. */
  lemma {:induction false} EncodeLength(t: string)
    ensures |t| <= |Encode(t)| <= 4 * |t|
  {
    if t != [] {
      EncodeLength(t[1..]);
    }
  }

  /** Only the NUL character encodes to a zero byte. */
  lemma {:induction false} ZeroByteIffNul(t: string)
    ensures 0 in Encode(t) <==> '\0' in t
  {
    if t != [] {
      ZeroByteIffNul(t[1..]);
      assert t == [t[0]] + t[1..];
    }
  }
}
