/**
 Authenticated encrypted strings, `2.<iv>|<data>|<mac>`: AES-256-CBC (section 6.2 of NIST SP 800-38A) with
 PKCS#7 padding (section 6.3 of RFC 5652) and HMAC-SHA256 over iv and data.
 */
module Crypto {
  import opened Wrappers
  import opened Text
  import opened Bytes
  import opened Sequences
  import Base64

  const BLOCK := 16
  const HALF_KEY := 32
  const MAC_LENGTH := 32

  /** The foreign algorithms. Only the laws in `Lawful` are used of them. */
  datatype RawPrimitives = RawPrimitives(
    encryptBlock: (bytes, bytes) -> bytes,   // AES-256: key, block
    decryptBlock: (bytes, bytes) -> bytes,
    hmac: (bytes, bytes) -> bytes,           // HMAC-SHA256: key, message
    hkdfExpand: (bytes, string) -> bytes     // HKDF-SHA256 expand to 32 bytes: key, info
  )

  /** For each key the block functions are inverse permutations of the blocks; digests have 32 bytes. */
  ghost predicate Lawful(p: RawPrimitives) {
    && (forall k, b :: |b| == BLOCK ==> |p.encryptBlock(k, b)| == BLOCK && p.decryptBlock(k, p.encryptBlock(k, b)) == b)
    && (forall k, b :: |b| == BLOCK ==> |p.decryptBlock(k, b)| == BLOCK && p.encryptBlock(k, p.decryptBlock(k, b)) == b)
    && (forall k, m :: |p.hmac(k, m)| == MAC_LENGTH)
    && (forall k, i :: |p.hkdfExpand(k, i)| == HALF_KEY)
  }

  type Primitives = p: RawPrimitives | Lawful(p)
    ghost witness RawPrimitives(
      (k, b) => b, (k, b) => b, (k, m) => seq(MAC_LENGTH, _ => 0), (k, i) => seq(HALF_KEY, _ => 0))

  type Block = b: bytes | |b| == BLOCK witness seq(BLOCK, _ => 0)

  type HalfKey = k: bytes | |k| == HALF_KEY witness seq(HALF_KEY, _ => 0)

  datatype Key = Key(encryption: HalfKey, authentication: HalfKey)

  datatype CryptoError =
    | InvalidKeyLength(actual: nat)
    | InvalidEncryptionTypeHeader
    | LegacyNoMacDisabled
    | UnsupportedEncryptionType(encryptionType: nat)
    | InvalidPartCount
    | InvalidBase64(part: string)
    | InvalidIvLength(actual: nat)
    | InvalidMacLength(actual: nat)
    | InvalidCiphertextLength(actual: nat)
    | MacVerificationFailed
    | DecryptFailed
    | InvalidUtf8

  // ---- Keys ----

  function KeyFromBytes(raw: bytes): Result<Key, CryptoError> {
    if |raw| != 2 * HALF_KEY then Err(InvalidKeyLength(|raw|))
    else Ok(Key(raw[..HALF_KEY], raw[HALF_KEY..]))
  }

  function KeyToBytes(key: Key): bytes {
    key.encryption + key.authentication
  }

  /** Sixty-four bytes and nothing else are a key, and the two halves lose nothing. */
  lemma KeyRoundTrip(raw: bytes, key: Key)
    ensures KeyFromBytes(raw) == Ok(key) <==> raw == KeyToBytes(key)
  {
    assert KeyToBytes(key)[..HALF_KEY] == key.encryption;
    assert KeyToBytes(key)[HALF_KEY..] == key.authentication;
    if |raw| == 2 * HALF_KEY {
      assert raw == raw[..HALF_KEY] + raw[HALF_KEY..];
    }
  }

  // ---- Exclusive or ----

  function XorBits(a: nat, b: nat, width: nat): nat {
    if width == 0 then 0 else 2 * XorBits(a / 2, b / 2, width - 1) + (if a % 2 == b % 2 then 0 else 1)
  }

  function Pow2(n: nat): nat {
    if n == 0 then 1 else 2 * Pow2(n - 1)
  }

  lemma {:induction false} XorBitsBounded(a: nat, b: nat, width: nat)
    ensures XorBits(a, b, width) < Pow2(width)
  {
    if width > 0 {
      XorBitsBounded(a / 2, b / 2, width - 1);
    }
  }

  lemma {:induction false} XorBitsTwice(a: nat, b: nat, width: nat)
    requires a < Pow2(width)
    ensures XorBits(XorBits(a, b, width), b, width) == a
  {
    if width > 0 {
      XorBitsTwice(a / 2, b / 2, width - 1);
      var x := XorBits(a, b, width);
      assert x / 2 == XorBits(a / 2, b / 2, width - 1);
      assert x % 2 == if a % 2 == b % 2 then 0 else 1;
    }
  }

  lemma EightBits()
    ensures Pow2(8) == 256
  {
    assert Pow2(4) == 16;
  }

  function XorByte(a: byte, b: byte): byte {
    XorBitsBounded(a, b, 8);
    EightBits();
    XorBits(a, b, 8)
  }

  lemma XorByteTwice(a: byte, b: byte)
    ensures XorByte(XorByte(a, b), b) == a
  {
    EightBits();
    XorBitsTwice(a, b, 8);
  }

  /** Bit `k` of a number, the lowest being bit 0. */
  function Bit(n: nat, k: nat): nat {
    if k == 0 then n % 2 else Bit(n / 2, k - 1)
  }

  lemma {:induction false} LowBits(n: nat)
    ensures Bit(n, 0) == n % 2 && Bit(n, 1) == n / 2 % 2 && Bit(n, 2) == n / 4 % 2 && Bit(n, 3) == n / 8 % 2
  {
    var two := n / 2 / 2;
    assert Bit(n, 1) == Bit(n / 2, 0);
    assert Bit(n, 2) == Bit(n / 2, 1) == Bit(two, 0) && two == n / 4;
    assert Bit(n, 3) == Bit(n / 2, 2) == Bit(two, 1) == Bit(two / 2, 0) && two / 2 == n / 8;
  }

  lemma {:induction false} HighBit(n: nat, k: nat)
    ensures Bit(n, k + 4) == Bit(n / 16, k)
  {
    var two := n / 2 / 2;
    var four := two / 2 / 2;
    assert Bit(n, k + 4) == Bit(n / 2, k + 3) == Bit(two, k + 2);
    assert Bit(two, k + 2) == Bit(two / 2, k + 1) == Bit(four, k) && four == n / 16;
  }

  lemma Sixteenths(n: nat)
    ensures n / 16 / 2 == n / 32 && n / 16 / 4 == n / 64 && n / 16 / 8 == n / 128
  {
  }

  /** The bits of a byte, by division. */
  lemma {:induction false} BitsOfByte(n: nat)
    ensures Bit(n, 0) == n % 2 && Bit(n, 1) == n / 2 % 2 && Bit(n, 2) == n / 4 % 2 && Bit(n, 3) == n / 8 % 2
    ensures Bit(n, 4) == n / 16 % 2 && Bit(n, 5) == n / 32 % 2 && Bit(n, 6) == n / 64 % 2 && Bit(n, 7) == n / 128 % 2
  {
    LowBits(n);
    LowBits(n / 16);
    Sixteenths(n);
    HighBit(n, 0);
    HighBit(n, 1);
    HighBit(n, 2);
    HighBit(n, 3);
  }

  /** The lowest bit, and the others. */
  lemma {:induction false} XorBitsFront(a: nat, b: nat, width: nat)
    requires width > 0
    ensures XorBits(a, b, width) % 2 == if a % 2 != b % 2 then 1 else 0
    ensures XorBits(a, b, width) / 2 == XorBits(a / 2, b / 2, width - 1)
  {
  }

  /** Exclusive or, bit by bit: set where the two differ. */
  lemma {:induction false} XorBitsDiffer(a: nat, b: nat, width: nat, k: nat)
    requires k < width
    ensures Bit(XorBits(a, b, width), k) == if Bit(a, k) != Bit(b, k) then 1 else 0
  {
    XorBitsFront(a, b, width);
    if k > 0 {
      XorBitsDiffer(a / 2, b / 2, width - 1, k - 1);
    }
  }

  function Xor(a: Block, b: Block): Block {
    seq(BLOCK, i requires 0 <= i < BLOCK => XorByte(a[i], b[i]))
  }

  lemma XorTwice(a: Block, b: Block)
    ensures Xor(Xor(a, b), b) == a
  {
    forall i | 0 <= i < BLOCK
      ensures Xor(Xor(a, b), b)[i] == a[i]
    {
      XorByteTwice(a[i], b[i]);
    }
  }

  /** A bit of the exclusive or of two blocks is set exactly where theirs differ. */
  lemma XorExactly(a: Block, b: Block, i: nat, k: nat)
    requires i < BLOCK && k < 8
    ensures Bit(Xor(a, b)[i], k) == if Bit(a[i], k) != Bit(b[i], k) then 1 else 0
  {
    XorBitsDiffer(a[i], b[i], 8, k);
  }

  // ---- Cipher block chaining ----

  function CbcEncrypt(p: Primitives, key: HalfKey, iv: Block, plain: bytes): (r: bytes)
    requires |plain| % BLOCK == 0
    ensures |r| == |plain|
    decreases |plain|
  {
    if plain == [] then [] else
      var c: Block := p.encryptBlock(key, Xor(plain[..BLOCK], iv));
      c + CbcEncrypt(p, key, c, plain[BLOCK..])
  }

  function CbcDecrypt(p: Primitives, key: HalfKey, iv: Block, data: bytes): (r: bytes)
    requires |data| % BLOCK == 0
    ensures |r| == |data|
    decreases |data|
  {
    if data == [] then [] else
      Xor(p.decryptBlock(key, data[..BLOCK]), iv) + CbcDecrypt(p, key, data[..BLOCK], data[BLOCK..])
  }

  /** The block that the next one is chained to. */
  function LastBlock(iv: Block, data: bytes): Block
    requires |data| % BLOCK == 0
  {
    if data == [] then iv else data[|data| - BLOCK..]
  }

  /** Block `i` of a text. */
  function BlockAt(data: bytes, i: nat): Block
    requires BLOCK * (i + 1) <= |data|
  {
    data[BLOCK * i..BLOCK * (i + 1)]
  }

  lemma {:induction false} CbcDecryptBlock(p: Primitives, key: HalfKey, iv: Block, data: bytes, i: nat)
    requires |data| % BLOCK == 0 && BLOCK * (i + 1) <= |data|
    ensures BlockAt(CbcDecrypt(p, key, iv, data), i)
         == Xor(p.decryptBlock(key, BlockAt(data, i)), if i == 0 then iv else BlockAt(data, i - 1))
    decreases i
  {
    var first: Block, rest := data[..BLOCK], data[BLOCK..];
    var head, tail := Xor(p.decryptBlock(key, first), iv), CbcDecrypt(p, key, first, rest);
    assert CbcDecrypt(p, key, iv, data) == head + tail;
    if i == 0 {
      assert BlockAt(data, 0) == first;
      assert BlockAt(head + tail, 0) == head;
    } else {
      CbcDecryptBlock(p, key, first, rest, i - 1);
      assert BlockAt(head + tail, i) == BlockAt(tail, i - 1);
      assert BlockAt(data, i) == BlockAt(rest, i - 1);
      assert i > 1 ==> BlockAt(data, i - 1) == BlockAt(rest, i - 2);
      assert i == 1 ==> BlockAt(data, 0) == first;
    }
  }

  /**
   Cipher block chaining, bit by bit: a bit of the plaintext is set exactly where the decrypted block differs from the
   ciphertext block before it, or from the initialisation vector for the first one.
   */
  lemma CbcDecryptExactly(p: Primitives, key: HalfKey, iv: Block, data: bytes, i: nat, j: nat, k: nat)
    requires |data| % BLOCK == 0 && BLOCK * (i + 1) <= |data| && j < BLOCK && k < 8
    ensures Bit(CbcDecrypt(p, key, iv, data)[BLOCK * i + j], k) ==
      var before := if i == 0 then iv[j] else data[BLOCK * (i - 1) + j];
      if Bit(p.decryptBlock(key, data[BLOCK * i..BLOCK * (i + 1)])[j], k) != Bit(before, k) then 1 else 0
  {
    CbcDecryptBlock(p, key, iv, data, i);
    var plain := CbcDecrypt(p, key, iv, data);
    assert BlockAt(plain, i)[j] == plain[BLOCK * i + j];
    XorExactly(p.decryptBlock(key, BlockAt(data, i)), if i == 0 then iv else BlockAt(data, i - 1), j, k);
  }

  lemma {:induction false} CbcDecryptOfEncrypt(p: Primitives, key: HalfKey, iv: Block, plain: bytes)
    requires |plain| % BLOCK == 0
    ensures CbcDecrypt(p, key, iv, CbcEncrypt(p, key, iv, plain)) == plain
    decreases |plain|
  {
    if plain != [] {
      var c: Block := p.encryptBlock(key, Xor(plain[..BLOCK], iv));
      var rest := CbcEncrypt(p, key, c, plain[BLOCK..]);
      assert (c + rest)[..BLOCK] == c && (c + rest)[BLOCK..] == rest;
      XorTwice(plain[..BLOCK], iv);
      CbcDecryptOfEncrypt(p, key, c, plain[BLOCK..]);
      assert plain == plain[..BLOCK] + plain[BLOCK..];
    }
  }

  lemma {:induction false} CbcEncryptOfDecrypt(p: Primitives, key: HalfKey, iv: Block, data: bytes)
    requires |data| % BLOCK == 0
    ensures CbcEncrypt(p, key, iv, CbcDecrypt(p, key, iv, data)) == data
    decreases |data|
  {
    if data != [] {
      var c: Block := data[..BLOCK];
      var first: Block, rest := Xor(p.decryptBlock(key, c), iv), CbcDecrypt(p, key, c, data[BLOCK..]);
      assert (first + rest)[..BLOCK] == first && (first + rest)[BLOCK..] == rest;
      XorTwice(p.decryptBlock(key, c), iv);
      CbcEncryptOfDecrypt(p, key, c, data[BLOCK..]);
      assert data == c + data[BLOCK..];
    }
  }

  /** After the first block the chain goes on from it. */
  lemma LastBlockNext(iv: Block, data: bytes)
    requires |data| % BLOCK == 0 && data != []
    ensures LastBlock(iv, data) == LastBlock(data[..BLOCK], data[BLOCK..])
  {
    assert |data| == BLOCK ==> data[|data| - BLOCK..] == data[..BLOCK];
  }

  lemma {:induction false} CbcDecryptSnoc(p: Primitives, key: HalfKey, iv: Block, data: bytes, c: Block)
    requires |data| % BLOCK == 0
    ensures CbcDecrypt(p, key, iv, data + c) ==
            CbcDecrypt(p, key, iv, data) + Xor(p.decryptBlock(key, c), LastBlock(iv, data))
    decreases |data|
  {
    var whole := data + c;
    if data == [] {
      assert whole == c && whole[..BLOCK] == c && whole[BLOCK..] == [];
      var x := Xor(p.decryptBlock(key, c), iv);
      assert x + [] == [] + x;
    } else {
      var first: Block, rest := data[..BLOCK], data[BLOCK..];
      assert whole[..BLOCK] == first && whole[BLOCK..] == rest + c;
      CbcDecryptSnoc(p, key, first, rest, c);
      LastBlockNext(iv, data);
      var (head, last) := (Xor(p.decryptBlock(key, first), iv), Xor(p.decryptBlock(key, c), LastBlock(iv, data)));
      Associative(head, CbcDecrypt(p, key, first, rest), last);
    }
  }

  // ---- Padding ----

  function Pad(plain: bytes): (r: bytes)
    ensures |r| % BLOCK == 0 && r != []
  {
    var n := BLOCK - |plain| % BLOCK;
    plain + seq(n, _ => n)
  }

  function Unpad(data: bytes): Option<bytes> {
    if data == [] then None else
      var n: int := data[|data| - 1];
      if n == 0 || n > BLOCK || n > |data| then None
      else if forall i :: |data| - n <= i < |data| ==> data[i] == n then Some(data[..|data| - n])
      else None
  }

  /** The last byte says how many bytes the padding has, between one and a block, and each of them says so. */
  predicate PaddedRight(data: bytes) {
    && data != []
    && var n: int := data[|data| - 1];
    && 1 <= n <= 16 && n <= |data|
    && forall i :: |data| - n <= i < |data| ==> data[i] == n
  }

  lemma UnpadFailsExactly(data: bytes)
    ensures Unpad(data).Some? <==> PaddedRight(data)
    ensures PaddedRight(data) ==> Unpad(data) == Some(data[..|data| - data[|data| - 1]])
  {
  }

  /** Whole blocks unpad to some bytes exactly when they are those bytes, padded. */
  lemma PaddingRoundTrip(data: bytes, plain: bytes)
    requires |data| % BLOCK == 0
    ensures Unpad(data) == Some(plain) <==> data == Pad(plain)
  {
    if data == Pad(plain) {
      var n := BLOCK - |plain| % BLOCK;
      assert data[|data| - 1] == n && data[..|data| - n] == plain;
    }
    if Unpad(data) == Some(plain) {
      var n: int := data[|data| - 1];
      assert n == BLOCK - |plain| % BLOCK;
      assert data == data[..|data| - n] + data[|data| - n..];
      assert data[|data| - n..] == seq(n, _ => n);
    }
  }

  // ---- Encrypted strings ----

  datatype EncryptionType = AesCbc256HmacSha256B64

  datatype RawEncryptedString = RawEncryptedString(
    encryptionType: EncryptionType, iv: bytes, data: bytes, mac: bytes)
  {
    predicate Valid() {
      |iv| == BLOCK && |mac| == MAC_LENGTH && data != [] && |data| % BLOCK == 0
    }
  }

  /** The fields are private and only the parser builds a value, so these lengths always hold. */
  type EncryptedString = e: RawEncryptedString | e.Valid()
    witness RawEncryptedString(
      AesCbc256HmacSha256B64, seq(BLOCK, _ => 0), seq(BLOCK, _ => 0), seq(MAC_LENGTH, _ => 0))

  function Decrypt(p: Primitives, es: EncryptedString, key: Key): Result<bytes, CryptoError> {
    if p.hmac(key.authentication, es.iv + es.data) != es.mac then Err(MacVerificationFailed) else
      match Unpad(CbcDecrypt(p, key.encryption, es.iv, es.data))
      case None => Err(DecryptFailed)
      case Some(plain) => Ok(plain)
  }

  function DecryptText(p: Primitives, es: EncryptedString, key: Key): Result<string, CryptoError> {
    var plain :- Decrypt(p, es, key);
    match DecodeUtf8(plain)
    case None => Err(InvalidUtf8)
    case Some(text) => Ok(text)
  }

  method WriteBlock(buffer: array<byte>, at: nat, block: Block)
    requires at + BLOCK <= buffer.Length
    modifies buffer
    ensures buffer[..] == old(buffer[..at]) + block + old(buffer[at + BLOCK..])
  {
    for j := 0 to BLOCK
      invariant forall k :: 0 <= k < at || at + j <= k < buffer.Length ==> buffer[k] == old(buffer[k])
      invariant forall k :: 0 <= k < j ==> buffer[at + k] == block[k]
    {
      buffer[at + j] := block[j];
    }
    assert buffer[at..at + BLOCK] == block;
    assert buffer[..] == buffer[..at] + buffer[at..at + BLOCK] + buffer[at + BLOCK..];
  }

  /** One turn of the loop below: the next block leaves the input and its plaintext joins the output. */
  lemma CbcDecryptNext(p: Primitives, key: HalfKey, iv: Block, input: bytes, i: nat)
    requires |input| % BLOCK == 0 && i % BLOCK == 0 && i < |input|
    ensures i + BLOCK <= |input|
    ensures CbcDecrypt(p, key, iv, input[..i + BLOCK]) == CbcDecrypt(p, key, iv, input[..i])
              + Xor(p.decryptBlock(key, input[i..i + BLOCK]), LastBlock(iv, input[..i]))
    ensures LastBlock(iv, input[..i + BLOCK]) == input[i..i + BLOCK]
  {
    var c: Block := input[i..i + BLOCK];
    assert input[..i + BLOCK] == input[..i] + c;
    CbcDecryptSnoc(p, key, iv, input[..i], c);
  }

  /** Decrypts the blocks of a buffer where they lie. */
  method CbcDecryptInPlace(p: Primitives, key: HalfKey, iv: Block, buffer: array<byte>)
    requires buffer.Length % BLOCK == 0
    modifies buffer
    ensures buffer[..] == CbcDecrypt(p, key, iv, old(buffer[..]))
  {
    ghost var input := buffer[..];
    var previous := iv;
    var i := 0;
    while i < buffer.Length
      invariant 0 <= i <= buffer.Length && i % BLOCK == 0
      invariant buffer[..i] == CbcDecrypt(p, key, iv, input[..i])
      invariant forall k :: i <= k < buffer.Length ==> buffer[k] == input[k]
      invariant previous == LastBlock(iv, input[..i])
    {
      CbcDecryptNext(p, key, iv, input, i);
      var c: Block := buffer[i..i + BLOCK];
      assert c == input[i..i + BLOCK];
      var plain := Xor(p.decryptBlock(key, c), previous);
      ghost var done := buffer[..i];
      WriteBlock(buffer, i, plain);
      assert buffer[..i + BLOCK] == done + plain;
      previous := c;
      i := i + BLOCK;
    }
    assert buffer[..i] == buffer[..] && input[..i] == input;
  }

  method DecryptBytes(p: Primitives, es: EncryptedString, key: Key) returns (r: Result<bytes, CryptoError>)
    ensures r == Decrypt(p, es, key)
  {
    if p.hmac(key.authentication, es.iv + es.data) != es.mac {
      return Err(MacVerificationFailed);
    }
    var buffer := new byte[|es.data|](i requires 0 <= i < |es.data| => es.data[i]);
    assert buffer[..] == es.data;
    CbcDecryptInPlace(p, key.encryption, es.iv, buffer);
    match Unpad(buffer[..]) {
      case None => r := Err(DecryptFailed);
      case Some(plain) => r := Ok(plain);
    }
  }
}
