/** Vault items: decryption of every present string under the item's effective key, and sealing, its inverse. */
module Cipher {
  import opened Wrappers
  import opened Text
  import opened Bytes
  import opened Crypto
  import opened EncryptedStrings

  // The parts of an item hold wire strings when encrypted and plain texts when decrypted.

  datatype Field = Field(name: Option<string>, value: Option<string>, fieldType: Option<nat>)

  datatype Login = Login(username: Option<string>, password: Option<string>, totp: Option<string>)

  datatype SshKey = SshKey(privateKey: Option<string>, publicKey: Option<string>, keyFingerprint: Option<string>)

  datatype EncryptedCipher = EncryptedCipher(
    id: string, cipherType: nat, organizationId: Option<string>, key: Option<string>,
    name: Option<string>, notes: Option<string>, fields: seq<Field>,
    login: Option<Login>, sshKey: Option<SshKey>)

  datatype DecryptedCipher = DecryptedCipher(
    id: string, cipherType: nat, organizationId: Option<string>,
    name: Option<string>, notes: Option<string>, fields: seq<Field>,
    login: Option<Login>, sshKey: Option<SshKey>)

  datatype CipherError =
    | Crypto(error: CryptoError)
    | BlankProperty
    | MissingProperty(property: string)
    | NoExtractableFields(id: string)
    | UnsupportedAttachment

  // ---- Decryption ----

  /** Opens one wire string: parse, verify, decrypt, decode. */
  type Opener = string -> Result<string, CryptoError>

  function OpenUnder(p: Primitives, key: Key): Opener {
    raw => OpenText(p, raw, key)
  }

  function OpenOptional(open: Opener, value: Option<string>): Result<Option<string>, CryptoError> {
    match value
    case None => Ok(None)
    case Some(raw) =>
      var text :- open(raw);
      Ok(Some(text))
  }

  function OpenField(open: Opener, f: Field): Result<Field, CryptoError> {
    var name :- OpenOptional(open, f.name);
    var value :- OpenOptional(open, f.value);
    Ok(Field(name, value, f.fieldType))
  }

  function OpenFields(open: Opener, fs: seq<Field>): Result<seq<Field>, CryptoError> {
    if fs == [] then Ok([]) else
      var first :- OpenField(open, fs[0]);
      var rest :- OpenFields(open, fs[1..]);
      Ok([first] + rest)
  }

  function OpenLogin(open: Opener, login: Option<Login>): Result<Option<Login>, CryptoError> {
    match login
    case None => Ok(None)
    case Some(l) =>
      var username :- OpenOptional(open, l.username);
      var password :- OpenOptional(open, l.password);
      var totp :- OpenOptional(open, l.totp);
      Ok(Some(Login(username, password, totp)))
  }

  function OpenSshKey(open: Opener, sshKey: Option<SshKey>): Result<Option<SshKey>, CryptoError> {
    match sshKey
    case None => Ok(None)
    case Some(k) =>
      var privateKey :- OpenOptional(open, k.privateKey);
      var publicKey :- OpenOptional(open, k.publicKey);
      var keyFingerprint :- OpenOptional(open, k.keyFingerprint);
      Ok(Some(SshKey(privateKey, publicKey, keyFingerprint)))
  }

  /** The item's own key, unwrapped with the user key, or the user key when the item has none. */
  function EffectiveKey(p: Primitives, wrapped: Option<string>, userKey: Key): Result<Key, CryptoError> {
    match wrapped
    case None => Ok(userKey)
    case Some(raw) =>
      var plain :- OpenBytes(p, raw, userKey);
      KeyFromBytes(plain)
  }

  /**
   An item without a key of its own uses the user key; one with a key uses exactly the key that its wrapped key opens to
   under the user key, first half for encryption and second half for authentication, and no other.
   */
  lemma EffectiveKeyExactly(p: Primitives, wrapped: Option<string>, userKey: Key, key: Key)
    ensures wrapped.None? ==> EffectiveKey(p, wrapped, userKey) == Ok(userKey)
    ensures wrapped.Some? ==>
      (EffectiveKey(p, wrapped, userKey) == Ok(key) <==>
         OpenBytes(p, wrapped.value, userKey) == Ok(key.encryption + key.authentication))
    ensures wrapped.Some? && OpenBytes(p, wrapped.value, userKey).Err? ==>
      EffectiveKey(p, wrapped, userKey) == Err(OpenBytes(p, wrapped.value, userKey).error)
  {
    if wrapped.Some? && OpenBytes(p, wrapped.value, userKey).Ok? {
      KeyRoundTrip(OpenBytes(p, wrapped.value, userKey).value, key);
    }
  }

  /** So an item whose own key does not unwrap cannot be decrypted. */
  lemma BadItemKeyFails(p: Primitives, c: EncryptedCipher, userKey: Key)
    requires c.key.Some?
    requires forall key: Key :: OpenBytes(p, c.key.value, userKey) != Ok(key.encryption + key.authentication)
    ensures DecryptCipher(p, c, userKey).Err?
  {
    if EffectiveKey(p, c.key, userKey).Ok? {
      EffectiveKeyExactly(p, c.key, userKey, EffectiveKey(p, c.key, userKey).value);
    }
  }

  function OpenWith(open: Opener, c: EncryptedCipher): Result<DecryptedCipher, CryptoError> {
    var name :- OpenOptional(open, c.name);
    var notes :- OpenOptional(open, c.notes);
    var fields :- OpenFields(open, c.fields);
    var login :- OpenLogin(open, c.login);
    var sshKey :- OpenSshKey(open, c.sshKey);
    Ok(DecryptedCipher(c.id, c.cipherType, c.organizationId, name, notes, fields, login, sshKey))
  }

  function DecryptCipher(p: Primitives, c: EncryptedCipher, userKey: Key): Result<DecryptedCipher, CipherError> {
    match EffectiveKey(p, c.key, userKey)
    case Err(e) => Err(Crypto(e))
    case Ok(k) =>
      match OpenWith(OpenUnder(p, k), c)
      case Err(e) => Err(Crypto(e))
      case Ok(item) => Ok(item)
  }

  // ---- What decryption does, string by string ----

  function Present(value: Option<string>): seq<string> {
    if value.Some? then [value.value] else []
  }

  function FieldStrings(fs: seq<Field>): seq<string> {
    if fs == [] then [] else Present(fs[0].name) + Present(fs[0].value) + FieldStrings(fs[1..])
  }

  function LoginStrings(login: Option<Login>): seq<string> {
    if login.None? then [] else
      Present(login.value.username) + Present(login.value.password) + Present(login.value.totp)
  }

  function SshKeyStrings(k: Option<SshKey>): seq<string> {
    if k.None? then [] else
      Present(k.value.privateKey) + Present(k.value.publicKey) + Present(k.value.keyFingerprint)
  }

  function EncryptedStringsOf(c: EncryptedCipher): seq<string> {
    Present(c.name) + Present(c.notes) + FieldStrings(c.fields) + LoginStrings(c.login) + SshKeyStrings(c.sshKey)
  }

  function TextsOf(c: DecryptedCipher): seq<string> {
    Present(c.name) + Present(c.notes) + FieldStrings(c.fields) + LoginStrings(c.login) + SshKeyStrings(c.sshKey)
  }

  /** Opens a list of strings from left to right, stopping at the first failure. */
  function OpenAll(open: Opener, raws: seq<string>): Result<seq<string>, CryptoError> {
    if raws == [] then Ok([]) else
      var first :- open(raws[0]);
      var rest :- OpenAll(open, raws[1..]);
      Ok([first] + rest)
  }

  /** Opening one list after another: what `OpenAll` gives on their concatenation. */
  function Then(a: Result<seq<string>, CryptoError>, b: Result<seq<string>, CryptoError>): Result<seq<string>, CryptoError> {
    var x :- a;
    var y :- b;
    Ok(x + y)
  }

  lemma {:induction false} OpenAllAppend(open: Opener, a: seq<string>, b: seq<string>)
    ensures OpenAll(open, a + b) == Then(OpenAll(open, a), OpenAll(open, b))
  {
    if a == [] {
      assert a + b == b;
      assert OpenAll(open, b).Ok? ==> [] + OpenAll(open, b).value == OpenAll(open, b).value;
    } else {
      assert (a + b)[0] == a[0] && (a + b)[1..] == a[1..] + b;
      OpenAllAppend(open, a[1..], b);
      if open(a[0]).Ok? && OpenAll(open, a[1..]).Ok? && OpenAll(open, b).Ok? {
        var x, xs, ys := open(a[0]).value, OpenAll(open, a[1..]).value, OpenAll(open, b).value;
        assert [x] + (xs + ys) == [x] + xs + ys;
      }
    }
  }

  /** The strings of an opened part, or its error. */
  function Opened<T>(r: Result<T, CryptoError>, strings: T -> seq<string>): Result<seq<string>, CryptoError> {
    match r
    case Err(e) => Err(e)
    case Ok(v) => Ok(strings(v))
  }

  lemma OpenOptionalStrings(open: Opener, v: Option<string>)
    ensures Opened(OpenOptional(open, v), Present) == OpenAll(open, Present(v))
    ensures OpenOptional(open, v).Ok? ==> SameOption(v, OpenOptional(open, v).value)
  {
    if v.Some? {
      assert [v.value][1..] == [];
      assert open(v.value).Ok? ==>
          [open(v.value).value] + [] == [open(v.value).value];
    }
  }

  lemma OpenThreeStrings(open: Opener, a: Option<string>, b: Option<string>, c: Option<string>)
    ensures OpenAll(open, Present(a) + Present(b) + Present(c)) ==
      Then(Then(Opened(OpenOptional(open, a), Present), Opened(OpenOptional(open, b), Present)),
           Opened(OpenOptional(open, c), Present))
  {
    OpenOptionalStrings(open, a);
    OpenOptionalStrings(open, b);
    OpenOptionalStrings(open, c);
    OpenAllAppend(open, Present(a) + Present(b), Present(c));
    OpenAllAppend(open, Present(a), Present(b));
  }

  lemma {:induction false} OpenFieldsStrings(open: Opener, fs: seq<Field>)
    ensures Opened(OpenFields(open, fs), FieldStrings) == OpenAll(open, FieldStrings(fs))
    ensures OpenFields(open, fs).Ok? ==> SameFields(fs, OpenFields(open, fs).value)
  {
    if fs != [] {
      var f, rest := fs[0], fs[1..];
      OpenFieldsStrings(open, rest);
      OpenOptionalStrings(open, f.name);
      OpenOptionalStrings(open, f.value);
      OpenAllAppend(open, Present(f.name), Present(f.value));
      OpenAllAppend(open, Present(f.name) + Present(f.value), FieldStrings(rest));
      if OpenFields(open, fs).Ok? {
        var all := OpenFields(open, fs).value;
        assert all[1..] == OpenFields(open, rest).value;
      }
    }
  }

  /** The same string slots are filled. */
  predicate SameOption(a: Option<string>, b: Option<string>) {
    a.Some? <==> b.Some?
  }

  predicate SameFields(a: seq<Field>, b: seq<Field>) {
    && |a| == |b|
    && forall i :: 0 <= i < |a| ==>
         && SameOption(a[i].name, b[i].name) && SameOption(a[i].value, b[i].value)
         && a[i].fieldType == b[i].fieldType
  }

  predicate SameLogin(a: Option<Login>, b: Option<Login>) {
    && (a.Some? <==> b.Some?)
    && (a.Some? && b.Some? ==>
          && SameOption(a.value.username, b.value.username)
          && SameOption(a.value.password, b.value.password)
          && SameOption(a.value.totp, b.value.totp))
  }

  predicate SameSshKey(a: Option<SshKey>, b: Option<SshKey>) {
    && (a.Some? <==> b.Some?)
    && (a.Some? && b.Some? ==>
          && SameOption(a.value.privateKey, b.value.privateKey)
          && SameOption(a.value.publicKey, b.value.publicKey)
          && SameOption(a.value.keyFingerprint, b.value.keyFingerprint))
  }

  predicate SameShape(a: EncryptedCipher, b: DecryptedCipher) {
    && a.id == b.id && a.cipherType == b.cipherType && a.organizationId == b.organizationId
    && SameOption(a.name, b.name) && SameOption(a.notes, b.notes) && SameFields(a.fields, b.fields)
    && SameLogin(a.login, b.login) && SameSshKey(a.sshKey, b.sshKey)
  }

  lemma OpenLoginStrings(open: Opener, login: Option<Login>)
    ensures Opened(OpenLogin(open, login), LoginStrings) == OpenAll(open, LoginStrings(login))
    ensures OpenLogin(open, login).Ok? ==> SameLogin(login, OpenLogin(open, login).value)
  {
    if login.Some? {
      OpenThreeStrings(open, login.value.username, login.value.password, login.value.totp);
    }
  }

  lemma OpenSshKeyStrings(open: Opener, k: Option<SshKey>)
    ensures Opened(OpenSshKey(open, k), SshKeyStrings) == OpenAll(open, SshKeyStrings(k))
    ensures OpenSshKey(open, k).Ok? ==> SameSshKey(k, OpenSshKey(open, k).value)
  {
    if k.Some? {
      OpenThreeStrings(open, k.value.privateKey, k.value.publicKey, k.value.keyFingerprint);
    }
  }

  lemma OpenFiveParts(open: Opener, a: seq<string>, b: seq<string>, c: seq<string>, d: seq<string>, e: seq<string>)
    ensures OpenAll(open, a + b + c + d + e) ==
      Then(Then(Then(Then(OpenAll(open, a), OpenAll(open, b)), OpenAll(open, c)), OpenAll(open, d)), OpenAll(open, e))
  {
    OpenAllAppend(open, a + b + c + d, e);
    OpenAllAppend(open, a + b + c, d);
    OpenAllAppend(open, a + b, c);
    OpenAllAppend(open, a, b);
  }

  lemma OpenWithStrings(open: Opener, c: EncryptedCipher)
    ensures Opened(OpenWith(open, c), TextsOf) == OpenAll(open, EncryptedStringsOf(c))
  {
    OpenFiveParts(open, Present(c.name), Present(c.notes), FieldStrings(c.fields),
                  LoginStrings(c.login), SshKeyStrings(c.sshKey));
    OpenOptionalStrings(open, c.name);
    OpenOptionalStrings(open, c.notes);
    OpenFieldsStrings(open, c.fields);
    OpenLoginStrings(open, c.login);
    OpenSshKeyStrings(open, c.sshKey);
  }

  lemma OpenWithShape(open: Opener, c: EncryptedCipher)
    requires OpenWith(open, c).Ok?
    ensures SameShape(c, OpenWith(open, c).value)
  {
    OpenOptionalStrings(open, c.name);
    OpenOptionalStrings(open, c.notes);
    OpenFieldsStrings(open, c.fields);
    OpenLoginStrings(open, c.login);
    OpenSshKeyStrings(open, c.sshKey);
  }

  /**
   Decrypting an item is opening its present strings in order under the effective key: it fails with the first
   failure, and otherwise fills the same slots with exactly the opened texts.
   */
  lemma DecryptOpensEveryString(p: Primitives, c: EncryptedCipher, userKey: Key)
    ensures var key := EffectiveKey(p, c.key, userKey);
            var r := DecryptCipher(p, c, userKey);
            && (key.Err? ==> r == Err(Crypto(key.error)))
            && (key.Ok? ==>
                  var texts := OpenAll(OpenUnder(p, key.value), EncryptedStringsOf(c));
                  && (texts.Err? ==> r == Err(Crypto(texts.error)))
                  && (texts.Ok? ==> r.Ok? && TextsOf(r.value) == texts.value && SameShape(c, r.value)))
  {
    if EffectiveKey(p, c.key, userKey).Ok? {
      var open := OpenUnder(p, EffectiveKey(p, c.key, userKey).value);
      OpenWithStrings(open, c);
      if OpenWith(open, c).Ok? {
        OpenWithShape(open, c);
      }
    }
  }

  /** An item decrypts exactly when its key unwraps and each present string opens under it. */
  lemma DecryptSucceedsExactly(p: Primitives, c: EncryptedCipher, userKey: Key)
    ensures DecryptCipher(p, c, userKey).Ok? <==>
      && EffectiveKey(p, c.key, userKey).Ok?
      && forall i :: 0 <= i < |EncryptedStringsOf(c)| ==>
           OpenText(p, EncryptedStringsOf(c)[i], EffectiveKey(p, c.key, userKey).value).Ok?
  {
    DecryptOpensEveryString(p, c, userKey);
    if EffectiveKey(p, c.key, userKey).Ok? {
      OpenAllSucceedsExactly(OpenUnder(p, EffectiveKey(p, c.key, userKey).value), EncryptedStringsOf(c));
    }
  }

  lemma {:induction false} OpenAllSucceedsExactly(open: Opener, raws: seq<string>)
    ensures OpenAll(open, raws).Ok? <==> forall i :: 0 <= i < |raws| ==> open(raws[i]).Ok?
  {
    if raws != [] {
      OpenAllSucceedsExactly(open, raws[1..]);
      assert forall i :: 1 <= i < |raws| ==> raws[i] == raws[1..][i - 1];
    }
  }

  // ---- Sealing ----

  /** The places of an item that carry an initialisation vector. */
  datatype Slot =
    | ItemKey | Name | Notes | FieldName(index: nat) | FieldValue(index: nat)
    | Username | Password | Totp | PrivateKey | PublicKey | KeyFingerprint

  function SealOptional(p: Primitives, value: Option<string>, key: Key, iv: Block): Option<string> {
    if value.None? then None else Some(SealText(p, key, iv, value.value))
  }

  function SealFields(p: Primitives, fs: seq<Field>, key: Key, ivOf: Slot -> Block): seq<Field> {
    seq(|fs|, i requires 0 <= i < |fs| =>
      Field(SealOptional(p, fs[i].name, key, ivOf(FieldName(i))),
            SealOptional(p, fs[i].value, key, ivOf(FieldValue(i))),
            fs[i].fieldType))
  }

  function SealLogin(p: Primitives, login: Option<Login>, key: Key, ivOf: Slot -> Block): Option<Login> {
    match login
    case None => None
    case Some(l) => Some(Login(
      SealOptional(p, l.username, key, ivOf(Username)),
      SealOptional(p, l.password, key, ivOf(Password)),
      SealOptional(p, l.totp, key, ivOf(Totp))))
  }

  function SealSshKey(p: Primitives, sshKey: Option<SshKey>, key: Key, ivOf: Slot -> Block): Option<SshKey> {
    match sshKey
    case None => None
    case Some(k) => Some(SshKey(
      SealOptional(p, k.privateKey, key, ivOf(PrivateKey)),
      SealOptional(p, k.publicKey, key, ivOf(PublicKey)),
      SealOptional(p, k.keyFingerprint, key, ivOf(KeyFingerprint))))
  }

  /** Seals every present text under the item key, wrapped with the user key, or under the user key itself. */
  function SealCipher(p: Primitives, c: DecryptedCipher, userKey: Key, itemKey: Option<Key>,
                      ivOf: Slot -> Block): EncryptedCipher
  {
    var key := if itemKey.Some? then itemKey.value else userKey;
    var wrapped := if itemKey.None? then None
                   else Some(Print(SealBytes(p, userKey, ivOf(ItemKey), KeyToBytes(itemKey.value))));
    EncryptedCipher(
      c.id, c.cipherType, c.organizationId, wrapped,
      SealOptional(p, c.name, key, ivOf(Name)),
      SealOptional(p, c.notes, key, ivOf(Notes)),
      SealFields(p, c.fields, key, ivOf),
      SealLogin(p, c.login, key, ivOf),
      SealSshKey(p, c.sshKey, key, ivOf))
  }

  lemma OpenSealedOptional(p: Primitives, value: Option<string>, key: Key, iv: Block)
    ensures OpenOptional(OpenUnder(p, key), SealOptional(p, value, key, iv)) == Ok(value)
  {
    if value.Some? {
      OpenSealed(p, key, iv, [], value.value);
    }
  }

  lemma {:induction false} OpenSealedFields(p: Primitives, fs: seq<Field>, key: Key, ivOf: Slot -> Block, from: nat)
    requires from <= |fs|
    ensures OpenFields(OpenUnder(p, key), SealFields(p, fs, key, ivOf)[from..]) == Ok(fs[from..])
    decreases |fs| - from
  {
    var sealed := SealFields(p, fs, key, ivOf);
    if from < |fs| {
      OpenSealedOptional(p, fs[from].name, key, ivOf(FieldName(from)));
      OpenSealedOptional(p, fs[from].value, key, ivOf(FieldValue(from)));
      OpenSealedFields(p, fs, key, ivOf, from + 1);
      assert sealed[from..][1..] == sealed[from + 1..];
      assert fs[from..] == [fs[from]] + fs[from + 1..];
      assert OpenField(OpenUnder(p, key), sealed[from]) == Ok(fs[from]);
    } else {
      assert sealed[from..] == [] && fs[from..] == [];
    }
  }

  lemma OpenSealedLogin(p: Primitives, login: Option<Login>, key: Key, ivOf: Slot -> Block)
    ensures OpenLogin(OpenUnder(p, key), SealLogin(p, login, key, ivOf)) == Ok(login)
  {
    if login.Some? {
      OpenSealedOptional(p, login.value.username, key, ivOf(Username));
      OpenSealedOptional(p, login.value.password, key, ivOf(Password));
      OpenSealedOptional(p, login.value.totp, key, ivOf(Totp));
    }
  }

  lemma OpenSealedSshKey(p: Primitives, k: Option<SshKey>, key: Key, ivOf: Slot -> Block)
    ensures OpenSshKey(OpenUnder(p, key), SealSshKey(p, k, key, ivOf)) == Ok(k)
  {
    if k.Some? {
      OpenSealedOptional(p, k.value.privateKey, key, ivOf(PrivateKey));
      OpenSealedOptional(p, k.value.publicKey, key, ivOf(PublicKey));
      OpenSealedOptional(p, k.value.keyFingerprint, key, ivOf(KeyFingerprint));
    }
  }

  /** Whatever the item, its key and its initialisation vectors: decrypting what was sealed returns the item. */
  lemma DecryptUndoesSeal(p: Primitives, c: DecryptedCipher, userKey: Key, itemKey: Option<Key>, ivOf: Slot -> Block)
    ensures DecryptCipher(p, SealCipher(p, c, userKey, itemKey, ivOf), userKey) == Ok(c)
  {
    var key := if itemKey.Some? then itemKey.value else userKey;
    if itemKey.Some? {
      OpenSealed(p, userKey, ivOf(ItemKey), KeyToBytes(itemKey.value), "");
      KeyRoundTrip(KeyToBytes(itemKey.value), itemKey.value);
    }
    var sealed := SealCipher(p, c, userKey, itemKey, ivOf);
    assert EffectiveKey(p, sealed.key, userKey) == Ok(key);
    OpenSealedOptional(p, c.name, key, ivOf(Name));
    OpenSealedOptional(p, c.notes, key, ivOf(Notes));
    OpenSealedFields(p, c.fields, key, ivOf, 0);
    assert sealed.fields[0..] == sealed.fields && c.fields[0..] == c.fields;
    OpenSealedLogin(p, c.login, key, ivOf);
    OpenSealedSshKey(p, c.sshKey, key, ivOf);
  }
}
