/** Standard base64 (section 4 of RFC 4648), decoded strictly: canonical padding, zero trailing bits. */
module Base64 {
  import opened Wrappers
  import opened Bytes

  type sextet = v: int | 0 <= v < 64

  function CharOf(v: sextet): char {
    if v < 26 then ('A' as int + v) as char
    else if v < 52 then ('a' as int + v - 26) as char
    else if v < 62 then ('0' as int + v - 52) as char
    else if v == 62 then '+' else '/'
  }

  function ValueOf(c: char): Option<sextet> {
    if 'A' <= c <= 'Z' then Some(c as int - 'A' as int)
    else if 'a' <= c <= 'z' then Some(c as int - 'a' as int + 26)
    else if '0' <= c <= '9' then Some(c as int - '0' as int + 52)
    else if c == '+' then Some(62)
    else if c == '/' then Some(63)
    else None
  }

  lemma AlphabetLaws(v: sextet, c: char)
    ensures ValueOf(CharOf(v)) == Some(v)
    ensures ValueOf(c).Some? ==> CharOf(ValueOf(c).value) == c
    ensures CharOf(v) != '='
  {
  }

  /** Table 1 of RFC 4648. */
  const CAPITALS := "ABCDEFGHIJKLMNOPQRSTUVWXYZ"
  const SMALLS := "abcdefghijklmnopqrstuvwxyz"
  const OTHERS := "0123456789+/"
  const ALPHABET := CAPITALS + SMALLS + OTHERS

  lemma CapitalAt(i: int)
    requires 0 <= i < 26
    ensures |CAPITALS| == 26 && CAPITALS[i] as int == 'A' as int + i
  {
  }

  lemma SmallAt(i: int)
    requires 0 <= i < 26
    ensures |SMALLS| == 26 && SMALLS[i] as int == 'a' as int + i
  {
  }

  lemma OtherAt(i: int)
    requires 0 <= i < 12
    ensures |OTHERS| == 12 && OTHERS[i] == CharOf(i + 52)
  {
  }

  lemma AlphabetExactly(v: sextet)
    ensures |ALPHABET| == 64 && CharOf(v) == ALPHABET[v]
  {
    CapitalAt(if v < 26 then v else 0);
    SmallAt(if 26 <= v < 52 then v - 26 else 0);
    OtherAt(if v < 52 then 0 else v - 52);
  }

  function EncodeThree(a: byte, b: byte, c: byte): string {
    [CharOf(a / 4), CharOf(a % 4 * 16 + b / 16), CharOf(b % 16 * 4 + c / 64), CharOf(c % 64)]
  }

  function Encode(bs: bytes): (r: string)
    ensures bs != [] ==> |r| >= 4
  {
    if bs == [] then ""
    else if |bs| == 1 then EncodeThree(bs[0], 0, 0)[..2] + "=="
    else if |bs| == 2 then EncodeThree(bs[0], bs[1], 0)[..3] + "="
    else EncodeThree(bs[0], bs[1], bs[2]) + Encode(bs[3..])
  }

  /** Four symbols, the last of which may stand for padding bits that must be zero. */
  function DecodeFour(s: string): Option<bytes>
    requires |s| == 4
  {
    var a, b, c, d := ValueOf(s[0]), ValueOf(s[1]), ValueOf(s[2]), ValueOf(s[3]);
    if a.None? || b.None? || c.None? || d.None? then None
    else Some([a.value * 4 + b.value / 16, b.value % 16 * 16 + c.value / 4, c.value % 4 * 64 + d.value])
  }

  /** The last four symbols, where `=` and `==` cut the group to two or one bytes. */
  function DecodeLast(s: string): Option<bytes>
    requires |s| == 4
  {
    var a, b, c := ValueOf(s[0]), ValueOf(s[1]), ValueOf(s[2]);
    if s[3] != '=' then DecodeFour(s)
    else if a.None? || b.None? then None
    else if s[2] == '=' then
      if b.value % 16 == 0 then Some([a.value * 4 + b.value / 16]) else None
    else if c.None? || c.value % 4 != 0 then None
    else Some([a.value * 4 + b.value / 16, b.value % 16 * 16 + c.value / 4])
  }

  function Decode(s: string): Option<bytes>
    decreases |s|
  {
    if s == "" then Some([])
    else if |s| < 4 then None
    else if |s| == 4 then DecodeLast(s)
    else
      match DecodeFour(s[..4])
      case None => None
      case Some(head) =>
        match Decode(s[4..])
        case None => None
        case Some(tail) => Some(head + tail)
  }

  /** Twenty-four bits cut as three bytes and as four sextets. */
  lemma Regroup(a: sextet, b: sextet, c: sextet, d: sextet)
    ensures var x, y, z := a * 4 + b / 16, b % 16 * 16 + c / 4, c % 4 * 64 + d;
            x / 4 == a && x % 4 * 16 + y / 16 == b && y % 16 * 4 + z / 64 == c && z % 64 == d
  {
    var x, y, z := a * 4 + b / 16, b % 16 * 16 + c / 4, c % 4 * 64 + d;
    assert x / 4 == a && x % 4 == b / 16;
    assert y / 16 == b % 16 && y % 16 == c / 4;
    assert z / 64 == c % 4 && z % 64 == d;
  }

  lemma RegroupBack(x: byte, y: byte, z: byte)
    ensures var a, b, c, d := x / 4, x % 4 * 16 + y / 16, y % 16 * 4 + z / 64, z % 64;
            a * 4 + b / 16 == x && b % 16 * 16 + c / 4 == y && c % 4 * 64 + d == z
  {
    var a, b, c, d := x / 4, x % 4 * 16 + y / 16, y % 16 * 4 + z / 64, z % 64;
    assert b / 16 == x % 4 && b % 16 == y / 16;
    assert c / 4 == y % 16 && c % 4 == z / 64;
  }

  lemma {:induction false} DecodeFourOfEncode(a: byte, b: byte, c: byte)
    ensures DecodeFour(EncodeThree(a, b, c)) == Some([a, b, c])
  {
    RegroupBack(a, b, c);
    AlphabetLaws(a / 4, 'A');
    AlphabetLaws(a % 4 * 16 + b / 16, 'A');
    AlphabetLaws(b % 16 * 4 + c / 64, 'A');
    AlphabetLaws(c % 64, 'A');
  }

  lemma {:induction false} EncodeOfDecodeFour(s: string)
    requires |s| == 4 && DecodeFour(s).Some?
    ensures var bs := DecodeFour(s).value; |bs| == 3 && EncodeThree(bs[0], bs[1], bs[2]) == s
  {
    var a, b, c, d := ValueOf(s[0]).value, ValueOf(s[1]).value, ValueOf(s[2]).value, ValueOf(s[3]).value;
    Regroup(a, b, c, d);
    AlphabetLaws(0, s[0]);
    AlphabetLaws(0, s[1]);
    AlphabetLaws(0, s[2]);
    AlphabetLaws(0, s[3]);
    var bs := DecodeFour(s).value;
    assert EncodeThree(bs[0], bs[1], bs[2]) == [CharOf(a), CharOf(b), CharOf(c), CharOf(d)];
  }

  lemma {:induction false} DecodeLastOfEncode(bs: bytes)
    requires 1 <= |bs| <= 2
    ensures |Encode(bs)| == 4 && DecodeLast(Encode(bs)) == Some(bs)
  {
    var a, b := bs[0], if |bs| == 2 then bs[1] else 0;
    RegroupBack(a, b, 0);
    AlphabetLaws(a / 4, 'A');
    AlphabetLaws(a % 4 * 16 + b / 16, 'A');
    AlphabetLaws(b % 16 * 4, 'A');
    if |bs| == 1 {
      assert Encode(bs) == [CharOf(a / 4), CharOf(a % 4 * 16), '=', '='];
      assert DecodeLast(Encode(bs)) == Some([a]);
      assert bs == [a];
    } else {
      assert Encode(bs) == [CharOf(a / 4), CharOf(a % 4 * 16 + b / 16), CharOf(b % 16 * 4), '='];
      assert DecodeLast(Encode(bs)) == Some([a, b]);
      assert bs == [a, b];
    }
  }

  lemma {:induction false} EncodeOfDecodeLast(s: string)
    requires |s| == 4 && DecodeLast(s).Some?
    ensures Encode(DecodeLast(s).value) == s
  {
    if s[3] != '=' {
      EncodeOfDecodeFour(s);
      var bs := DecodeFour(s).value;
      assert Encode(bs[3..]) == "";
    } else {
      EncodeOfDecodeShort(s);
    }
  }

  lemma {:induction false} EncodeOfDecodeShort(s: string)
    requires |s| == 4 && s[3] == '=' && DecodeLast(s).Some?
    ensures Encode(DecodeLast(s).value) == s
  {
    var a: int, b: int := ValueOf(s[0]).value, ValueOf(s[1]).value;
    var c: int := if s[2] == '=' then 0 else ValueOf(s[2]).value;
    Regroup(a, b, c, 0);
    AlphabetLaws(0, s[0]);
    AlphabetLaws(0, s[1]);
    AlphabetLaws(0, s[2]);
    var x: int := a * 4 + b / 16;
    if s[2] == '=' {
      assert Encode([x]) == [CharOf(x / 4), CharOf(x % 4 * 16), '=', '='];
      assert DecodeLast(s) == Some([x]) && x % 4 * 16 == b;
    } else {
      var y: int := b % 16 * 16 + c / 4;
      assert Encode([x, y]) == [CharOf(x / 4), CharOf(x % 4 * 16 + y / 16), CharOf(y % 16 * 4), '='];
      assert DecodeLast(s) == Some([x, y]);
    }
  }

  /** A text decodes to some bytes exactly when it is their encoding: no second spelling is accepted. */
  lemma Base64RoundTrip(s: string, bs: bytes)
    ensures Decode(s) == Some(bs) <==> s == Encode(bs)
  {
    if s == Encode(bs) {
      DecodeOfEncode(bs);
    }
    if Decode(s) == Some(bs) {
      EncodeOfDecode(s);
    }
  }

  lemma {:induction false} DecodeOfEncode(bs: bytes)
    ensures Decode(Encode(bs)) == Some(bs)
  {
    if 1 <= |bs| < 3 {
      DecodeLastOfEncode(bs);
    } else if |bs| >= 3 {
      var head, rest := EncodeThree(bs[0], bs[1], bs[2]), bs[3..];
      DecodeFourOfEncode(bs[0], bs[1], bs[2]);
      DecodeOfEncode(rest);
      assert [bs[0], bs[1], bs[2]] + rest == bs;
      if rest == [] {
        AlphabetLaws(bs[2] % 64, 'A');
        assert Encode(bs) == head + "" == head;
        assert bs == [bs[0], bs[1], bs[2]];
      } else {
        DecodeStep(head, Encode(rest));
      }
    }
  }

  lemma {:induction false} DecodeStep(head: string, tail: string)
    requires |head| == 4 && tail != "" && DecodeFour(head).Some? && Decode(tail).Some?
    ensures Decode(head + tail) == Some(DecodeFour(head).value + Decode(tail).value)
  {
    assert (head + tail)[..4] == head && (head + tail)[4..] == tail;
  }

  lemma {:induction false} EncodeOfDecode(s: string)
    requires Decode(s).Some?
    ensures Encode(Decode(s).value) == s
    decreases |s|
  {
    if |s| == 4 {
      EncodeOfDecodeLast(s);
    } else if |s| > 4 {
      EncodeOfDecodeFour(s[..4]);
      EncodeOfDecode(s[4..]);
      var bs := Decode(s).value;
      assert bs[3..] == Decode(s[4..]).value;
      assert s == s[..4] + s[4..];
    }
  }

  /** Three bytes are determined by the number they spell. */
  lemma ThreeBytes(x: int, y: int, z: int, u: int, v: int, w: int)
    requires 0 <= y < 256 && 0 <= z < 256 && 0 <= v < 256 && 0 <= w < 256
    requires 65536 * x + 256 * y + z == 65536 * u + 256 * v + w
    ensures x == u && y == v && z == w
  {
  }

  /** Four symbols stand for three bytes exactly when they number the same twenty-four bits. */
  lemma {:induction false} GroupExactly(a: sextet, b: sextet, c: sextet, d: sextet, x: byte, y: byte, z: byte)
    ensures DecodeFour([CharOf(a), CharOf(b), CharOf(c), CharOf(d)]) == Some([x, y, z]) <==>
      65536 * (x as int) + 256 * (y as int) + (z as int)
      == 262144 * (a as int) + 4096 * (b as int) + 64 * (c as int) + (d as int)
  {
    AlphabetLaws(a, 'A');
    AlphabetLaws(b, 'A');
    AlphabetLaws(c, 'A');
    AlphabetLaws(d, 'A');
    var (u: int, v: int, w: int) := (a * 4 + b / 16, b % 16 * 16 + c / 4, c % 4 * 64 + d);
    assert DecodeFour([CharOf(a), CharOf(b), CharOf(c), CharOf(d)]) == Some([u, v, w]);
    if 65536 * (x as int) + 256 * (y as int) + (z as int)
       == 262144 * (a as int) + 4096 * (b as int) + 64 * (c as int) + (d as int) {
      ThreeBytes(x, y, z, u, v, w);
    }
  }

  predicate Symbol(c: char) {
    ValueOf(c).Some? || c == '='
  }

  /** Encodings use only the alphabet and `=`, so they never hold a separator of a larger format. */
  lemma {:induction false} EncodeAlphabet(bs: bytes)
    ensures forall i :: 0 <= i < |Encode(bs)| ==> Symbol(Encode(bs)[i])
  {
    if |bs| >= 3 {
      EncodeAlphabet(bs[3..]);
    }
    forall v: sextet
      ensures Symbol(CharOf(v))
    {
      AlphabetLaws(v, 'A');
    }
  }
}
