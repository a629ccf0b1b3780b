/** The wire form of encrypted strings: parser, printer, sealing, and what decryption guarantees. */
module EncryptedStrings {
  import opened Wrappers
  import opened Text
  import opened Bytes
  import opened Crypto
  import Decimal
  import Base64

  // ---- Parsing ----

  function DigitsValue(s: string, acc: nat): Option<nat>
    decreases |s|
  {
    if s == "" then Some(acc)
    else if !Decimal.IsDigit(s[0]) then None
    else
      var next := acc * 10 + (s[0] as int - '0' as int);
      if next > 255 then None else DigitsValue(s[1..], next)
  }

  /** `str::parse::<u8>`: an optional plus sign, then digits that stay within a byte. */
  function ParseU8(s: string): Option<nat> {
    var digits := if |s| > 1 && s[0] == '+' then s[1..] else s;
    if digits == "" then None else DigitsValue(digits, 0)
  }

  function ParseType(header: string): Result<EncryptionType, CryptoError> {
    match ParseU8(header)
    case None => Err(InvalidEncryptionTypeHeader)
    case Some(n) =>
      if n == 0 then Err(LegacyNoMacDisabled)
      else if n == 2 then Ok(AesCbc256HmacSha256B64)
      else Err(UnsupportedEncryptionType(n))
  }

  function DecodePart(part: string, raw: string): Result<bytes, CryptoError> {
    match Base64.Decode(raw)
    case None => Err(InvalidBase64(part))
    case Some(bs) => Ok(bs)
  }

  function CheckLengths(iv: bytes, data: bytes, mac: bytes): Result<EncryptedString, CryptoError> {
    if |iv| != BLOCK then Err(InvalidIvLength(|iv|))
    else if |mac| != MAC_LENGTH then Err(InvalidMacLength(|mac|))
    else if data == [] || |data| % BLOCK != 0 then Err(InvalidCiphertextLength(|data|))
    else Ok(RawEncryptedString(AesCbc256HmacSha256B64, iv, data, mac))
  }

  function ParseParts(iv: string, data: string, mac: string): Result<EncryptedString, CryptoError> {
    var iv :- DecodePart("iv", iv);
    var data :- DecodePart("data", data);
    var mac :- DecodePart("mac", mac);
    CheckLengths(iv, data, mac)
  }

  function ParsePayload(payload: string): Result<EncryptedString, CryptoError> {
    var pieces := Split(payload, '|');
    if |pieces| != 3 then Err(InvalidPartCount) else ParseParts(pieces[0], pieces[1], pieces[2])
  }

  function Parse(raw: string): Result<EncryptedString, CryptoError> {
    match SplitOnce(raw, '.')
    case None => Err(LegacyNoMacDisabled)
    case Some((header, payload)) =>
      var _ :- ParseType(header);
      ParsePayload(payload)
  }

  /** Steps through the pieces of the payload as the program's iterator does. */
  method FromStr(raw: string) returns (r: Result<EncryptedString, CryptoError>)
    ensures r == Parse(raw)
  {
    var split := SplitOnce(raw, '.');
    if split.None? {
      return Err(LegacyNoMacDisabled);
    }
    var encryptionType := ParseType(split.value.0);
    if encryptionType.Err? {
      return Err(encryptionType.error);
    }
    var pieces := Split(split.value.1, '|');
    var next := 0;
    var parts := [];
    while next < 3
      invariant 0 <= next <= 3 && next <= |pieces| && parts == pieces[..next]
    {
      if next == |pieces| {
        return Err(InvalidPartCount);
      }
      parts := parts + [pieces[next]];
      next := next + 1;
    }
    if next < |pieces| {
      return Err(InvalidPartCount);
    }
    var iv := DecodePart("iv", parts[0]);
    if iv.Err? {
      return Err(iv.error);
    }
    var data := DecodePart("data", parts[1]);
    if data.Err? {
      return Err(data.error);
    }
    var mac := DecodePart("mac", parts[2]);
    if mac.Err? {
      return Err(mac.error);
    }
    if |iv.value| != BLOCK {
      return Err(InvalidIvLength(|iv.value|));
    }
    if |mac.value| != MAC_LENGTH {
      return Err(InvalidMacLength(|mac.value|));
    }
    if data.value == [] || |data.value| % BLOCK != 0 {
      return Err(InvalidCiphertextLength(|data.value|));
    }
    r := Ok(RawEncryptedString(encryptionType.value, iv.value, data.value, mac.value));
  }

  // ---- Printing ----

  function Payload(es: EncryptedString): string {
    Join([Base64.Encode(es.iv), Base64.Encode(es.data), Base64.Encode(es.mac)], '|')
  }

  function Print(es: EncryptedString): string {
    "2" + ['.'] + Payload(es)
  }

  lemma PartIsFree(bs: bytes)
    ensures Free('|', Base64.Encode(bs))
  {
    Base64.EncodeAlphabet(bs);
  }

  /** A payload is accepted exactly when it is the canonical rendering of the result. */
  lemma PayloadExactly(payload: string, es: EncryptedString)
    ensures ParsePayload(payload) == Ok(es) <==> payload == Payload(es)
  {
    PayloadParses(es);
    if ParsePayload(payload) == Ok(es) {
      PayloadIsCanonical(payload);
    }
  }

  lemma PayloadParses(es: EncryptedString)
    ensures ParsePayload(Payload(es)) == Ok(es)
  {
    PartIsFree(es.iv);
    PartIsFree(es.data);
    PartIsFree(es.mac);
    var iv, data, mac := Base64.Encode(es.iv), Base64.Encode(es.data), Base64.Encode(es.mac);
    SplitOfJoin([iv, data, mac], '|');
    PartsExactly(iv, data, mac, es);
  }

  lemma LengthsHold(es: EncryptedString)
    ensures CheckLengths(es.iv, es.data, es.mac) == Ok(es)
  {
    assert es.encryptionType == AesCbc256HmacSha256B64;
    assert es == RawEncryptedString(AesCbc256HmacSha256B64, es.iv, es.data, es.mac);
  }

  lemma PartsExactly(iv: string, data: string, mac: string, es: EncryptedString)
    ensures ParseParts(iv, data, mac) == Ok(es) <==>
      iv == Base64.Encode(es.iv) && data == Base64.Encode(es.data) && mac == Base64.Encode(es.mac)
  {
    Base64.Base64RoundTrip(iv, es.iv);
    Base64.Base64RoundTrip(data, es.data);
    Base64.Base64RoundTrip(mac, es.mac);
    LengthsHold(es);
  }

  lemma PayloadIsCanonical(payload: string)
    requires ParsePayload(payload).Ok?
    ensures payload == Payload(ParsePayload(payload).value)
  {
    var pieces := Split(payload, '|');
    JoinOfSplit(payload, '|');
    PartsExactly(pieces[0], pieces[1], pieces[2], ParsePayload(payload).value);
    assert pieces == [pieces[0], pieces[1], pieces[2]];
  }

  /** An input is accepted exactly when it is a header that means 2, a dot, and the canonical payload. */
  lemma ParseExactly(raw: string, es: EncryptedString)
    ensures Parse(raw) == Ok(es) <==>
      exists header :: Free('.', header) && ParseU8(header) == Some(2) && raw == header + ['.'] + Payload(es)
  {
    if Parse(raw) == Ok(es) {
      var (header, payload) := SplitOnce(raw, '.').value;
      PayloadExactly(payload, es);
    }
    if header :| Free('.', header) && ParseU8(header) == Some(2) && raw == header + ['.'] + Payload(es) {
      SplitOnceAppend(header, '.', Payload(es));
      PayloadExactly(Payload(es), es);
    }
  }

  lemma PrintParses(es: EncryptedString)
    ensures Parse(Print(es)) == Ok(es)
  {
    assert DigitsValue("2", 0) == DigitsValue("", 2);
    assert ParseU8("2") == Some(2);
    ParseExactly(Print(es), es);
  }

  function Zeros(n: nat): string {
    seq(n, _ => '0')
  }

  lemma {:induction false} DigitsOfTwo(s: string)
    ensures DigitsValue(s, 0) == Some(2) <==> s != "" && s == Zeros(|s| - 1) + "2"
    decreases |s|
  {
    if s != "" {
      var d := s[0] as int - '0' as int;
      if s[0] == '0' {
        DigitsOfTwo(s[1..]);
        if s == Zeros(|s| - 1) + "2" {
          assert |s| > 1 && s[1..] == Zeros(|s| - 2) + "2";
        }
        if |s| > 1 && s[1..] == Zeros(|s| - 2) + "2" {
          assert s == ['0'] + s[1..] == Zeros(|s| - 1) + "2";
        }
      } else {
        if Decimal.IsDigit(s[0]) && DigitsValue(s, 0).Some? {
          DigitsGrow(s[1..], d);
        }
        assert s == Zeros(|s| - 1) + "2" ==> |s| == 1;
        assert s[1..] == "" <==> |s| == 1;
      }
    }
  }

  lemma {:induction false} DigitsGrow(s: string, acc: nat)
    requires acc > 0 && DigitsValue(s, acc).Some?
    ensures DigitsValue(s, acc).value >= acc
    ensures s != "" ==> DigitsValue(s, acc).value >= 10 * acc
    decreases |s|
  {
    if s != "" {
      DigitsGrow(s[1..], acc * 10 + (s[0] as int - '0' as int));
    }
  }

  /** The header means 2 when it is `2` after any number of zeros and an optional plus sign. */
  lemma HeaderSpellings(header: string)
    ensures ParseU8(header) == Some(2) <==>
      exists n: nat :: header == Zeros(n) + "2" || header == "+" + Zeros(n) + "2"
  {
    var digits := if |header| > 1 && header[0] == '+' then header[1..] else header;
    DigitsOfTwo(digits);
    if ParseU8(header) == Some(2) {
      var n: nat := |digits| - 1;
      assert digits == Zeros(n) + "2";
      if digits != header {
        assert header == "+" + Zeros(n) + "2";
      }
    }
    if n: nat :| header == Zeros(n) + "2" || header == "+" + Zeros(n) + "2" {
      SpelledDigits(header, n);
    }
  }

  lemma SpelledDigits(header: string, n: nat)
    requires header == Zeros(n) + "2" || header == "+" + Zeros(n) + "2"
    ensures ParseU8(header) == Some(2)
  {
    var digits := Zeros(n) + "2";
    DigitsOfTwo(digits);
    if header == digits {
      assert header[0] != '+';
    } else {
      assert header[1..] == digits;
    }
  }

  /** A header with a leading zero, and one with a sign, are read like the one the printer writes. */
  lemma OddHeadersParse(es: EncryptedString)
    ensures Parse("02." + Payload(es)) == Ok(es) && Parse("+2." + Payload(es)) == Ok(es)
  {
    assert "02" == Zeros(1) + "2" && "+2" == "+" + Zeros(0) + "2";
    SpelledDigits("02", 1);
    SpelledDigits("+2", 0);
    HeaderParses("02", es);
    HeaderParses("+2", es);
    assert "02" + ['.'] == "02." && "+2" + ['.'] == "+2.";
  }

  lemma {:induction false} HeaderParses(header: string, es: EncryptedString)
    requires Free('.', header) && ParseU8(header) == Some(2)
    ensures Parse(header + ['.'] + Payload(es)) == Ok(es)
  {
    ParseExactly(header + ['.'] + Payload(es), es);
  }

  // ---- Why inputs are rejected ----

  predicate AllDigits(s: string) {
    forall i :: 0 <= i < |s| ==> Decimal.IsDigit(s[i])
  }

  lemma {:induction false} DigitsSnoc(s: string, c: char, acc: nat)
    ensures DigitsValue(s + [c], acc) ==
      var front := DigitsValue(s, acc);
      if front.None? || !Decimal.IsDigit(c) then None
      else
        var next: nat := front.value * 10 + (c as int - '0' as int);
        if next > 255 then None else Some(next)
    decreases |s|
  {
    if s == "" {
      assert [c][1..] == "";
      assert s + [c] == [c];
    } else {
      assert (s + [c])[1..] == s[1..] + [c];
      if Decimal.IsDigit(s[0]) {
        DigitsSnoc(s[1..], c, acc * 10 + (s[0] as int - '0' as int));
      }
    }
  }

  lemma {:induction false} DigitsValueExactly(s: string, n: nat)
    ensures DigitsValue(s, 0) == Some(n) <==> AllDigits(s) && Decimal.Read(s) == n <= 255
  {
    if s != "" {
      var front, last := s[..|s| - 1], s[|s| - 1];
      assert s == front + [last];
      DigitsSnoc(front, last, 0);
      if AllDigits(front) {
        DigitsValueExactly(front, Decimal.Read(front));
      }
      if DigitsValue(front, 0).Some? {
        DigitsValueExactly(front, DigitsValue(front, 0).value);
      }
    }
  }

  /** A byte is written in decimal, with an optional plus sign in front. */
  lemma ParseU8Exactly(s: string, n: nat)
    ensures ParseU8(s) == Some(n) <==>
      var digits := if "+" <= s then s[1..] else s;
      digits != "" && AllDigits(digits) && Decimal.Read(digits) == n <= 255
  {
    var digits := if |s| > 1 && s[0] == '+' then s[1..] else s;
    DigitsValueExactly(digits, n);
  }

  /** Without a dot, or with type 0: no MAC. Other types are not supported, and the rest are no types. */
  lemma HeaderRejections(header: string, payload: string)
    requires Free('.', header)
    ensures var (r, n) := (Parse(header + ['.'] + payload), ParseU8(header));
            && (n.None? ==> r == Err(InvalidEncryptionTypeHeader))
            && (n == Some(0) ==> r == Err(LegacyNoMacDisabled))
            && (n.Some? && n.value != 0 && n.value != 2 ==> r == Err(UnsupportedEncryptionType(n.value)))
            && (n == Some(2) ==> r == ParsePayload(payload))
    ensures Parse(header) == Err(LegacyNoMacDisabled)
  {
    SplitOnceAppend(header, '.', payload);
  }

  /** Then the number of parts counts, then their encoding from left to right, then the lengths of IV, MAC and data. */
  lemma PayloadRejections(payload: string)
    ensures |Split(payload, '|')| != 3 ==> ParsePayload(payload) == Err(InvalidPartCount)
    ensures |Split(payload, '|')| == 3 ==>
      var (iv, data, mac) := (Base64.Decode(Split(payload, '|')[0]), Base64.Decode(Split(payload, '|')[1]),
                              Base64.Decode(Split(payload, '|')[2]));
      var r := ParsePayload(payload);
      if iv.None? then r == Err(InvalidBase64("iv"))
      else if data.None? then r == Err(InvalidBase64("data"))
      else if mac.None? then r == Err(InvalidBase64("mac"))
      else if |iv.value| != 16 then r == Err(InvalidIvLength(|iv.value|))
      else if |mac.value| != 32 then r == Err(InvalidMacLength(|mac.value|))
      else if |data.value| == 0 || |data.value| % 16 != 0 then r == Err(InvalidCiphertextLength(|data.value|))
      else r.Ok? && r.value.iv == iv.value && r.value.data == data.value && r.value.mac == mac.value
  {
  }

  // ---- Sealing and opening ----

  function SealBytes(p: Primitives, key: Key, iv: Block, plain: bytes): EncryptedString {
    var data := CbcEncrypt(p, key.encryption, iv, Pad(plain));
    RawEncryptedString(AesCbc256HmacSha256B64, iv, data, p.hmac(key.authentication, iv + data))
  }

  /** Decryption yields a plaintext exactly for its sealing: MAC, chaining and padding all have to agree. */
  lemma DecryptExactly(p: Primitives, es: EncryptedString, key: Key, plain: bytes)
    ensures Decrypt(p, es, key) == Ok(plain) <==> es == SealBytes(p, key, es.iv, plain)
  {
    var padded := CbcDecrypt(p, key.encryption, es.iv, es.data);
    PaddingRoundTrip(padded, plain);
    CbcEncryptOfDecrypt(p, key.encryption, es.iv, es.data);
    CbcDecryptOfEncrypt(p, key.encryption, es.iv, Pad(plain));
  }

  /** The MAC comes first; then only the padding can be wrong. */
  lemma DecryptFailsExactly(p: Primitives, es: EncryptedString, key: Key)
    ensures Decrypt(p, es, key) == Err(MacVerificationFailed) <==> p.hmac(key.authentication, es.iv + es.data) != es.mac
    ensures Decrypt(p, es, key) == Err(DecryptFailed) <==>
      && p.hmac(key.authentication, es.iv + es.data) == es.mac
      && !PaddedRight(CbcDecrypt(p, key.encryption, es.iv, es.data))
    ensures Decrypt(p, es, key).Ok? || Decrypt(p, es, key) == Err(MacVerificationFailed) || Decrypt(p, es, key) == Err(DecryptFailed)
  {
    UnpadFailsExactly(CbcDecrypt(p, key.encryption, es.iv, es.data));
  }

  /** What a successful decryption says about the text that was accepted. */
  lemma DecryptIsFaithful(p: Primitives, es: EncryptedString, key: Key)
    requires Decrypt(p, es, key).Ok?
    ensures var plain := Decrypt(p, es, key).value;
            && es.mac == p.hmac(key.authentication, es.iv + es.data)
            && 1 <= |es.data| - |plain| <= BLOCK
            && es.data == CbcEncrypt(p, key.encryption, es.iv, Pad(plain))
  {
    DecryptExactly(p, es, key, Decrypt(p, es, key).value);
  }

  /** The MAC input has one reading, since the IV has a fixed length. */
  lemma MacInputIsUnambiguous(a: EncryptedString, b: EncryptedString)
    ensures a.iv + a.data == b.iv + b.data <==> a.iv == b.iv && a.data == b.data
  {
    if a.iv + a.data == b.iv + b.data {
      assert a.iv == (a.iv + a.data)[..BLOCK] && b.iv == (b.iv + b.data)[..BLOCK];
      assert a.data == (a.iv + a.data)[BLOCK..] && b.data == (b.iv + b.data)[BLOCK..];
    }
  }

  function SealText(p: Primitives, key: Key, iv: Block, text: string): string {
    Print(SealBytes(p, key, iv, EncodeUtf8(text)))
  }

  /** `parse` and then `decrypt_utf8`, as every string of a vault item is opened. */
  function OpenText(p: Primitives, raw: string, key: Key): Result<string, CryptoError> {
    var es :- Parse(raw);
    DecryptText(p, es, key)
  }

  function OpenBytes(p: Primitives, raw: string, key: Key): Result<bytes, CryptoError> {
    var es :- Parse(raw);
    Decrypt(p, es, key)
  }

  /** Opening undoes sealing. */
  lemma OpenSealed(p: Primitives, key: Key, iv: Block, plain: bytes, text: string)
    ensures OpenBytes(p, Print(SealBytes(p, key, iv, plain)), key) == Ok(plain)
    ensures OpenText(p, SealText(p, key, iv, text), key) == Ok(text)
  {
    PrintParses(SealBytes(p, key, iv, plain));
    DecryptExactly(p, SealBytes(p, key, iv, plain), key, plain);
    PrintParses(SealBytes(p, key, iv, EncodeUtf8(text)));
    DecryptExactly(p, SealBytes(p, key, iv, EncodeUtf8(text)), key, EncodeUtf8(text));
    Utf8RoundTrip(EncodeUtf8(text), text);
  }

  /** A wire string opens to some bytes exactly when it spells a ciphertext with their MAC and their padded encryption. */
  lemma OpensExactly(p: Primitives, raw: string, key: Key, plain: bytes)
    ensures OpenBytes(p, raw, key) == Ok(plain) <==>
      exists es :: Parse(raw) == Ok(es) && SealedWith(p, es, key.encryption, key.authentication, plain)
  {
    if Parse(raw).Ok? {
      var es: EncryptedString := Parse(raw).value;
      DecryptExactly(p, es, key, plain);
      assert es.encryptionType == AesCbc256HmacSha256B64;
      if OpenBytes(p, raw, key) == Ok(plain) {
        assert Parse(raw) == Ok(es) && SealedWith(p, es, key.encryption, key.authentication, plain);
      }
    }
  }

  /** MAC over IV and data under one key, data the chained encryption of the padded text under the other. */
  predicate SealedWith(p: Primitives, es: EncryptedString, encryption: HalfKey, authentication: HalfKey, plain: bytes) {
    && es.mac == p.hmac(authentication, es.iv + es.data)
    && es.data == CbcEncrypt(p, encryption, es.iv, Pad(plain))
  }
}
