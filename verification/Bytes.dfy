/** Bytes, and the UTF-8 encoding (RFC 3629) that connects them to strings. */
module Bytes {
  import opened Wrappers

  type byte = b: int | 0 <= b < 256

  type bytes = seq<byte>

  function EncodeChar(c: char): (r: bytes)
    ensures 1 <= |r| <= 4
  {
    var n := c as int;
    if n < 0x80 then [n]
    else if n < 0x800 then [0xC0 + n / 64, 0x80 + n % 64]
    else if n < 0x1_0000 then [0xE0 + n / 64 / 64, 0x80 + n / 64 % 64, 0x80 + n % 64]
    else [0xF0 + n / 64 / 64 / 64, 0x80 + n / 64 / 64 % 64, 0x80 + n / 64 % 64, 0x80 + n % 64]
  }

  /** Section 3 of RFC 3629: how many bytes a character takes, how the first one says so, and how its bits are spread. */
  lemma EncodeCharExactly(c: char)
    ensures var (n, r) := (c as int, EncodeChar(c));
            && (n < 0x80 <==> |r| == 1) && (n < 0x800 <==> |r| <= 2) && (n < 0x1_0000 <==> |r| <= 3)
            && (|r| == 1 ==> r[0] == n)
            && (|r| == 2 ==> 0xC0 <= r[0] < 0xE0 && n == 64 * (r[0] as int - 0xC0) + (r[1] as int - 0x80))
            && (|r| == 3 ==> 0xE0 <= r[0] < 0xF0 && n == 4096 * (r[0] as int - 0xE0) + 64 * (r[1] as int - 0x80) + (r[2] as int - 0x80))
            && (|r| == 4 ==>
                  && 0xF0 <= r[0] < 0xF8
                  && n == 262144 * (r[0] as int - 0xF0) + 4096 * (r[1] as int - 0x80) + 64 * (r[2] as int - 0x80) + (r[3] as int - 0x80))
            && forall i :: 1 <= i < |r| ==> 0x80 <= r[i] < 0xC0
  {
  }

  function EncodeUtf8(s: string): bytes {
    if s == "" then [] else EncodeChar(s[0]) + EncodeUtf8(s[1..])
  }

  predicate IsContinuation(bs: bytes, i: nat) {
    i < |bs| && 0x80 <= bs[i] < 0xC0
  }

  function ScalarValue(n: int, low: nat): Option<char> {
    if low <= n < 0xD800 || (low <= n && 0xE000 <= n < 0x11_0000) then Some(n as char) else None
  }

  /** Appends six payload bits. */
  function Shift(high: int, continuation: int): int {
    high * 64 + (continuation - 0x80)
  }

  /** The first character, rejecting overlong forms, surrogates and values past U+10FFFF. */
  function DecodeChar(bs: bytes): Option<char>
    requires bs != []
  {
    var b: int := bs[0];
    if b < 0x80 then Some(b as char)
    else if b < 0xC0 then None
    else if !IsContinuation(bs, 1) then None
    else if b < 0xE0 then ScalarValue(Shift(b - 0xC0, bs[1]), 0x80)
    else if !IsContinuation(bs, 2) then None
    else if b < 0xF0 then ScalarValue(Shift(Shift(b - 0xE0, bs[1]), bs[2]), 0x800)
    else if !IsContinuation(bs, 3) || b >= 0xF8 then None
    else ScalarValue(Shift(Shift(Shift(b - 0xF0, bs[1]), bs[2]), bs[3]), 0x1_0000)
  }

  /** `String::from_utf8`. */
  function DecodeUtf8(bs: bytes): Option<string>
    decreases |bs|
  {
    if bs == [] then Some("") else
      match DecodeChar(bs)
      case None => None
      case Some(c) =>
        var width := |EncodeChar(c)|;
        if width > |bs| then None else
          match DecodeUtf8(bs[width..])
          case None => None
          case Some(rest) => Some([c] + rest)
  }

  lemma ShiftLaws(n: nat, high: nat, continuation: int)
    ensures Shift(n / 64, 0x80 + n % 64) == n
    ensures 0x80 <= continuation < 0xC0 ==>
      Shift(high, continuation) / 64 == high && 0x80 + Shift(high, continuation) % 64 == continuation
  {
  }

  lemma DecodeCharOfEncode(c: char, rest: bytes)
    ensures DecodeChar(EncodeChar(c) + rest) == Some(c)
  {
    var n := c as int;
    ShiftLaws(n, 0, 0);
    ShiftLaws(n / 64, 0, 0);
    ShiftLaws(n / 64 / 64, 0, 0);
    var bs := EncodeChar(c) + rest;
    assert forall i :: 0 <= i < |EncodeChar(c)| ==> bs[i] == EncodeChar(c)[i];
  }

  lemma EncodeOfDecodeChar(bs: bytes)
    requires bs != [] && DecodeChar(bs).Some?
    ensures EncodeChar(DecodeChar(bs).value) <= bs
  {
    var b: int := bs[0];
    if b >= 0xF0 {
      ShiftLaws(0, b - 0xF0, bs[1]);
      ShiftLaws(0, Shift(b - 0xF0, bs[1]), bs[2]);
      ShiftLaws(0, Shift(Shift(b - 0xF0, bs[1]), bs[2]), bs[3]);
    } else if b >= 0xE0 {
      ShiftLaws(0, b - 0xE0, bs[1]);
      ShiftLaws(0, Shift(b - 0xE0, bs[1]), bs[2]);
    } else if b >= 0xC0 {
      ShiftLaws(0, b - 0xC0, bs[1]);
    }
  }

  /** A byte string decodes to a text exactly when it is that text's encoding. */
  lemma Utf8RoundTrip(bs: bytes, s: string)
    ensures DecodeUtf8(bs) == Some(s) <==> bs == EncodeUtf8(s)
  {
    DecodeOfEncodeUtf8(s);
    if DecodeUtf8(bs).Some? {
      EncodeOfDecodeUtf8(bs);
    }
  }

  lemma {:induction false} DecodeOfEncodeUtf8(s: string)
    ensures DecodeUtf8(EncodeUtf8(s)) == Some(s)
  {
    if s != "" {
      var first, rest := EncodeChar(s[0]), EncodeUtf8(s[1..]);
      DecodeCharOfEncode(s[0], rest);
      DecodeOfEncodeUtf8(s[1..]);
      assert (first + rest)[|first|..] == rest;
      assert [s[0]] + s[1..] == s;
    }
  }

  lemma {:induction false} EncodeOfDecodeUtf8(bs: bytes)
    requires DecodeUtf8(bs).Some?
    ensures EncodeUtf8(DecodeUtf8(bs).value) == bs
    decreases |bs|
  {
    if bs != [] {
      DecodeUtf8Front(bs);
      var c := DecodeChar(bs).value;
      var tail := bs[|EncodeChar(c)|..];
      EncodeOfDecodeUtf8(tail);
      EncodeUtf8Cons(c, DecodeUtf8(tail).value);
    }
  }

  /** Decoding takes the encoding of one character off the front. */
  lemma {:induction false} DecodeUtf8Front(bs: bytes)
    requires bs != [] && DecodeUtf8(bs).Some?
    ensures DecodeChar(bs).Some?
    ensures var c := DecodeChar(bs).value;
            var n := |EncodeChar(c)|;
            && n <= |bs| && bs == EncodeChar(c) + bs[n..]
            && DecodeUtf8(bs[n..]).Some? && DecodeUtf8(bs).value == [c] + DecodeUtf8(bs[n..]).value
  {
    EncodeOfDecodeChar(bs);
  }

  lemma EncodeUtf8Cons(c: char, rest: string)
    ensures EncodeUtf8([c] + rest) == EncodeChar(c) + EncodeUtf8(rest)
  {
    assert ([c] + rest)[1..] == rest;
  }
}
