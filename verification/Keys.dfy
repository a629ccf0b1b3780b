/** From the master password down: key-derivation bounds, stretching, and unwrapping the user key. */
module Keys {
  import opened Wrappers
  import opened Bytes
  import opened Crypto
  import opened EncryptedStrings
  import opened Cipher

  const U32_MAX := 0xFFFF_FFFF

  type u32 = n: int | 0 <= n <= U32_MAX

  datatype KdfConfig =
    | Pbkdf2Sha256(iterations: u32)
    | Argon2id(iterations: u32, memoryMib: u32, parallelism: u32)

  datatype KeyDerivationError =
    | EmptyPassword
    | KdfDowngrade(parameter: string, actual: u32, minimum: u32)
    | KdfTooExpensive(parameter: string, actual: u32, maximum: u32)
    | InvalidArgon2Parameters
    | CryptoProblem(error: CryptoError)

  function ValidateBounds(parameter: string, actual: u32, minimum: u32, maximum: u32): Result<(), KeyDerivationError> {
    if actual < minimum then Err(KdfDowngrade(parameter, actual, minimum))
    else if actual > maximum then Err(KdfTooExpensive(parameter, actual, maximum))
    else Ok(())
  }

  function ValidateForPrelogin(kdf: KdfConfig): Result<(), KeyDerivationError> {
    match kdf
    case Pbkdf2Sha256(iterations) => ValidateBounds("pbkdf2_iterations", iterations, 5_000, 2_000_000)
    case Argon2id(iterations, memoryMib, parallelism) =>
      var _ :- ValidateBounds("argon2_iterations", iterations, 2, 10);
      var _ :- ValidateBounds("argon2_memory_mib", memoryMib, 16, 1024);
      ValidateBounds("argon2_parallelism", parallelism, 1, 16)
  }

  /** `u32::checked_mul`. */
  function CheckedMul(a: u32, b: u32): Option<u32> {
    if a * b <= U32_MAX then Some(a * b) else None
  }

  /** The parameter ranges of section 3.1 of RFC 9106: lanes, passes, and at least 8 KiB for each lane. */
  predicate Argon2Accepts(memoryKib: u32, passes: u32, lanes: u32) {
    && 1 <= lanes < 0x100_0000
    && 1 <= passes
    && 8 * lanes <= memoryKib
  }

  /** The checks that stand before the derivation itself, with the memory cost in KiB on success. */
  function Argon2Memory(kdf: KdfConfig): Result<u32, KeyDerivationError>
    requires kdf.Argon2id?
  {
    var _ :- ValidateForPrelogin(kdf);
    match CheckedMul(kdf.memoryMib, 1024)
    case None => Err(InvalidArgon2Parameters)
    case Some(kib) =>
      if Argon2Accepts(kib, kdf.iterations, kdf.parallelism) then Ok(kib) else Err(InvalidArgon2Parameters)
  }

  /** Exactly the settings inside the bounds are accepted; nothing after the bounds refuses an Argon2 setting. */
  lemma AcceptedArgon2IsDerivable(kdf: KdfConfig)
    requires kdf.Argon2id?
    ensures ValidateForPrelogin(kdf).Ok? <==>
      2 <= kdf.iterations <= 10 && 16 <= kdf.memoryMib <= 1024 && 1 <= kdf.parallelism <= 16
    ensures ValidateForPrelogin(kdf).Ok? ==> Argon2Memory(kdf) == Ok(kdf.memoryMib * 1024)
    ensures Argon2Memory(kdf) != Err(InvalidArgon2Parameters)
  {
    if ValidateForPrelogin(kdf).Ok? {
      assert CheckedMul(kdf.memoryMib, 1024) == Some(kdf.memoryMib * 1024);
    }
  }

  /** Exactly the settings inside the bounds are accepted, for both derivations. */
  lemma ValidatedExactly(kdf: KdfConfig)
    ensures ValidateForPrelogin(kdf).Ok? <==>
      match kdf
      case Pbkdf2Sha256(iterations) => 5_000 <= iterations <= 2_000_000
      case Argon2id(iterations, memoryMib, parallelism) =>
        2 <= iterations <= 10 && 16 <= memoryMib <= 1024 && 1 <= parallelism <= 16
    ensures var r := ValidateForPrelogin(kdf);
            r.Err? ==>
              && (r.error.KdfDowngrade? || r.error.KdfTooExpensive?)
              && (r.error.KdfDowngrade? ==> r.error.actual < r.error.minimum && IsSetting(kdf, r.error.parameter, r.error.actual))
              && (r.error.KdfTooExpensive? ==> r.error.actual > r.error.maximum && IsSetting(kdf, r.error.parameter, r.error.actual))
  {
  }

  /** The setting of that name. */
  predicate IsSetting(kdf: KdfConfig, parameter: string, value: u32) {
    match kdf
    case Pbkdf2Sha256(iterations) => parameter == "pbkdf2_iterations" && value == iterations
    case Argon2id(iterations, memoryMib, parallelism) =>
      || (parameter == "argon2_iterations" && value == iterations)
      || (parameter == "argon2_memory_mib" && value == memoryMib)
      || (parameter == "argon2_parallelism" && value == parallelism)
  }

  // ---- Unwrapping ----

  /** HKDF-expands the master key once for each half. */
  function StretchMasterKey(p: Primitives, masterKey: HalfKey): Key {
    Key(p.hkdfExpand(masterKey, "enc"), p.hkdfExpand(masterKey, "mac"))
  }

  /** Fills the 64-byte buffer half by half, as the program does, and cuts the key from it. */
  method StretchInBuffer(p: Primitives, masterKey: HalfKey) returns (r: Result<Key, CryptoError>)
    ensures r == Ok(StretchMasterKey(p, masterKey))
  {
    var stretched := new byte[2 * HALF_KEY](_ => 0);
    var enc, mac := p.hkdfExpand(masterKey, "enc"), p.hkdfExpand(masterKey, "mac");
    for i := 0 to HALF_KEY
      invariant forall k :: 0 <= k < i ==> stretched[k] == enc[k]
    {
      stretched[i] := enc[i];
    }
    for i := 0 to HALF_KEY
      invariant forall k :: 0 <= k < HALF_KEY ==> stretched[k] == enc[k]
      invariant forall k :: 0 <= k < i ==> stretched[HALF_KEY + k] == mac[k]
    {
      stretched[HALF_KEY + i] := mac[i];
    }
    var key: Key := Key(enc, mac);
    assert stretched[..] == KeyToBytes(key);
    KeyRoundTrip(stretched[..], key);
    r := KeyFromBytes(stretched[..]);
  }

  function UnwrapUserKey(p: Primitives, masterKey: HalfKey, wrapped: string): Result<Key, CryptoError> {
    var plain :- OpenBytes(p, wrapped, StretchMasterKey(p, masterKey));
    KeyFromBytes(plain)
  }

  function WrapUserKey(p: Primitives, masterKey: HalfKey, iv: Block, userKey: Key): string {
    Print(SealBytes(p, StretchMasterKey(p, masterKey), iv, KeyToBytes(userKey)))
  }

  /**
   A wrapped user key opens exactly when it is sealed with the master key expanded for "enc" as the encryption key and
   for "mac" as the authentication key; and the user key is then the sixty-four bytes inside, first half for encryption.
   */
  lemma UnwrapExactly(p: Primitives, masterKey: HalfKey, wrapped: string, userKey: Key)
    ensures UnwrapUserKey(p, masterKey, wrapped) == Ok(userKey) <==>
      exists es :: Parse(wrapped) == Ok(es)
        && SealedWith(p, es, p.hkdfExpand(masterKey, "enc"), p.hkdfExpand(masterKey, "mac"),
                      userKey.encryption + userKey.authentication)
  {
    var key := StretchMasterKey(p, masterKey);
    OpensExactly(p, wrapped, key, userKey.encryption + userKey.authentication);
    if OpenBytes(p, wrapped, key).Ok? {
      KeyRoundTrip(OpenBytes(p, wrapped, key).value, userKey);
    }
  }

  /** Unwrapping undoes wrapping. */
  lemma UnwrapUndoesWrap(p: Primitives, masterKey: HalfKey, iv: Block, userKey: Key)
    ensures UnwrapUserKey(p, masterKey, WrapUserKey(p, masterKey, iv, userKey)) == Ok(userKey)
  {
    OpenSealed(p, StretchMasterKey(p, masterKey), iv, KeyToBytes(userKey), "");
    KeyRoundTrip(KeyToBytes(userKey), userKey);
  }

  /** The whole hierarchy: master key over user key over optional item key over every text of the item. */
  lemma HierarchyRoundTrip(p: Primitives, masterKey: HalfKey, keyIv: Block, userKey: Key,
                           item: DecryptedCipher, itemKey: Option<Key>, ivOf: Slot -> Block)
    ensures var unlocked := UnwrapUserKey(p, masterKey, WrapUserKey(p, masterKey, keyIv, userKey));
            && unlocked.Ok?
            && DecryptCipher(p, SealCipher(p, item, userKey, itemKey, ivOf), unlocked.value) == Ok(item)
  {
    UnwrapUndoesWrap(p, masterKey, keyIv, userKey);
    DecryptUndoesSeal(p, item, userKey, itemKey, ivOf);
  }
}
