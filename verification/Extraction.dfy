/** Projecting a decrypted item: one property, or the whole item as a secret document. */
module Extraction {
  import opened Wrappers
  import opened Text
  import opened Cipher

  datatype SecretDocument = SecretDocument(data: map<string, string>, metadata: map<string, string>)

  function Existing(property: string, value: Option<string>): Result<string, CipherError> {
    match value
    case Some(v) => Ok(v)
    case None => Err(MissingProperty(property))
  }

  function LoginPart(c: DecryptedCipher, part: Login -> Option<string>): Option<string> {
    if c.login.Some? then part(c.login.value) else None
  }

  function SshPart(c: DecryptedCipher, part: SshKey -> Option<string>): Option<string> {
    if c.sshKey.Some? then part(c.sshKey.value) else None
  }

  function Username(c: DecryptedCipher): Option<string> { LoginPart(c, (l: Login) => l.username) }
  function Password(c: DecryptedCipher): Option<string> { LoginPart(c, (l: Login) => l.password) }
  function Totp(c: DecryptedCipher): Option<string> { LoginPart(c, (l: Login) => l.totp) }
  function PrivateKey(c: DecryptedCipher): Option<string> { SshPart(c, (k: SshKey) => k.privateKey) }
  function PublicKey(c: DecryptedCipher): Option<string> { SshPart(c, (k: SshKey) => k.publicKey) }
  function KeyFingerprint(c: DecryptedCipher): Option<string> { SshPart(c, (k: SshKey) => k.keyFingerprint) }

  /** The slot a reserved property name stands for; None for any other name. */
  function ReservedSlot(c: DecryptedCipher, property: string): Option<Option<string>> {
    if property == "name" then Some(c.name)
    else if property == "notes" then Some(c.notes)
    else if property == "username" || property == "login.username" then Some(Username(c))
    else if property == "password" || property == "login.password" then Some(Password(c))
    else if property == "totp" || property == "login.totp" then Some(Totp(c))
    else if property == "privateKey" || property == "sshPrivateKey" || property == "sshKey.privateKey"
      then Some(PrivateKey(c))
    else if property == "publicKey" || property == "sshPublicKey" || property == "sshKey.publicKey"
      then Some(PublicKey(c))
    else if property == "keyFingerprint" || property == "sshKey.keyFingerprint" then Some(KeyFingerprint(c))
    else None
  }

  function CustomName(property: string): string {
    match StripPrefix(property, "field.")
    case Some(name) => name
    case None =>
      match StripPrefix(property, "custom.")
      case Some(name) => name
      case None => property
  }

  /** The first field of that name, whether or not it carries a value. */
  function FirstNamed(fields: seq<Field>, name: string): Option<Field> {
    if fields == [] then None
    else if fields[0].name == Some(name) then Some(fields[0])
    else FirstNamed(fields[1..], name)
  }

  function CustomValue(fields: seq<Field>, name: string): Option<string> {
    match FirstNamed(fields, name)
    case None => None
    case Some(f) => f.value
  }

  function ExtractProperty(c: DecryptedCipher, raw: string): Result<string, CipherError> {
    var property := Trim(raw);
    if property == "" then Err(BlankProperty)
    else if "attachment." <= property || "attachments." <= property then Err(UnsupportedAttachment)
    else
      match ReservedSlot(c, property)
      case Some(value) => Existing(property, value)
      case None => Existing(property, CustomValue(c.fields, CustomName(property)))
  }

  // ---- The whole item ----

  function InsertOptional(data: map<string, string>, key: string, value: Option<string>): map<string, string> {
    match value
    case None => data
    case Some(v) => data[key := v]
  }

  function ConventionalData(c: DecryptedCipher): map<string, string> {
    var data := InsertOptional(map[], "notes", c.notes);
    var data := InsertOptional(data, "username", Username(c));
    var data := InsertOptional(data, "password", Password(c));
    var data := InsertOptional(data, "totp", Totp(c));
    var data := InsertOptional(data, "privateKey", PrivateKey(c));
    var data := InsertOptional(data, "publicKey", PublicKey(c));
    InsertOptional(data, "keyFingerprint", KeyFingerprint(c))
  }

  predicate Insertable(f: Field) {
    f.name.Some? && f.value.Some? && Trim(f.name.value) != ""
  }

  function WithFields(data: map<string, string>, fields: seq<Field>): map<string, string> {
    if fields == [] then data else
      var last := fields[|fields| - 1];
      var rest := WithFields(data, fields[..|fields| - 1]);
      if Insertable(last) then rest[last.name.value := last.value.value] else rest
  }

  function ToSecretDocument(c: DecryptedCipher): Result<SecretDocument, CipherError> {
    var data := WithFields(ConventionalData(c), c.fields);
    if data == map[] then Err(NoExtractableFields(c.id)) else Ok(SecretDocument(data, map[]))
  }

  /** Fills the document entry by entry. */
  method BuildSecretDocument(c: DecryptedCipher) returns (r: Result<SecretDocument, CipherError>)
    ensures r == ToSecretDocument(c)
  {
    var data: map<string, string> := map[];
    data := InsertOptional(data, "notes", c.notes);
    if c.login.Some? {
      var login := c.login.value;
      data := InsertOptional(data, "username", login.username);
      data := InsertOptional(data, "password", login.password);
      data := InsertOptional(data, "totp", login.totp);
    }
    if c.sshKey.Some? {
      var sshKey := c.sshKey.value;
      data := InsertOptional(data, "privateKey", sshKey.privateKey);
      data := InsertOptional(data, "publicKey", sshKey.publicKey);
      data := InsertOptional(data, "keyFingerprint", sshKey.keyFingerprint);
    }
    for i := 0 to |c.fields|
      invariant data == WithFields(ConventionalData(c), c.fields[..i])
    {
      var field := c.fields[i];
      assert c.fields[..i + 1][..i] == c.fields[..i];
      if field.name.Some? && field.value.Some? {
        if Trim(field.name.value) != "" {
          data := data[field.name.value := field.value.value];
        }
      }
    }
    assert c.fields[..|c.fields|] == c.fields;
    if data == map[] {
      return Err(NoExtractableFields(c.id));
    }
    r := Ok(SecretDocument(data, map[]));
  }

  // ---- What the document holds ----

  /** The value of the last insertable field of that name. */
  function LastValued(fields: seq<Field>, name: string): Option<string> {
    if fields == [] then None else
      var last := fields[|fields| - 1];
      if Insertable(last) && last.name.value == name then last.value
      else LastValued(fields[..|fields| - 1], name)
  }

  function Conventional(c: DecryptedCipher, key: string): Option<string> {
    if key == "notes" then c.notes
    else if key == "username" then Username(c)
    else if key == "password" then Password(c)
    else if key == "totp" then Totp(c)
    else if key == "privateKey" then PrivateKey(c)
    else if key == "publicKey" then PublicKey(c)
    else if key == "keyFingerprint" then KeyFingerprint(c)
    else None
  }

  /** Custom fields come first, then the conventional slots. */
  function Entry(c: DecryptedCipher, key: string): Option<string> {
    var custom := LastValued(c.fields, key);
    if custom.Some? then custom else Conventional(c, key)
  }

  function At(data: map<string, string>, key: string): Option<string> {
    if key in data then Some(data[key]) else None
  }

  lemma ConventionalEntries(c: DecryptedCipher, key: string)
    ensures At(ConventionalData(c), key) == Conventional(c, key)
  {
  }

  lemma {:induction false} FieldEntries(data: map<string, string>, fields: seq<Field>, key: string)
    ensures var custom := LastValued(fields, key);
            At(WithFields(data, fields), key) == if custom.Some? then custom else At(data, key)
  {
    if fields != [] {
      FieldEntries(data, fields[..|fields| - 1], key);
    }
  }

  /** Each key of the document has the last valued custom field of that name, else the conventional value. */
  lemma DocumentEntries(c: DecryptedCipher, key: string)
    ensures ToSecretDocument(c).Ok? ==> At(ToSecretDocument(c).value.data, key) == Entry(c, key)
    ensures ToSecretDocument(c).Err? ==> Entry(c, key).None? && ToSecretDocument(c).error == NoExtractableFields(c.id)
  {
    ConventionalEntries(c, key);
    FieldEntries(ConventionalData(c), c.fields, key);
  }

  /** Whole-item extraction fails exactly when there is nothing to extract. */
  lemma DocumentFailsExactly(c: DecryptedCipher)
    ensures ToSecretDocument(c).Err? <==> forall key :: Entry(c, key).None?
  {
    if ToSecretDocument(c).Err? {
      forall key ensures Entry(c, key).None? {
        DocumentEntries(c, key);
      }
    } else {
      var key :| key in ToSecretDocument(c).value.data;
      DocumentEntries(c, key);
    }
  }

  // ---- One property against the whole item ----

  predicate DistinctNames(fields: seq<Field>) {
    forall i, j :: 0 <= i < j < |fields| && fields[i].name.Some? ==> fields[i].name != fields[j].name
  }

  /** The first field of that name is at `i`. */
  predicate FirstAt(fields: seq<Field>, name: string, i: nat) {
    i < |fields| && fields[i].name == Some(name) && forall j :: 0 <= j < i ==> fields[j].name != Some(name)
  }

  /** The last field of that name that enters the document is at `i`. */
  predicate LastAt(fields: seq<Field>, name: string, i: nat) {
    && i < |fields| && Insertable(fields[i]) && fields[i].name == Some(name)
    && forall j :: i < j < |fields| ==> !(Insertable(fields[j]) && fields[j].name == Some(name))
  }

  lemma {:induction false} FirstNamedAt(fields: seq<Field>, name: string, i: nat)
    requires FirstAt(fields, name, i)
    ensures FirstNamed(fields, name) == Some(fields[i])
  {
    if i > 0 {
      assert fields[0].name != Some(name);
      assert forall j :: 0 <= j < i - 1 ==> fields[1..][j] == fields[j + 1];
      FirstNamedAt(fields[1..], name, i - 1);
    }
  }

  lemma {:induction false} FirstNamedHasPlace(fields: seq<Field>, name: string) returns (i: nat)
    requires FirstNamed(fields, name).Some?
    ensures FirstAt(fields, name, i)
  {
    if fields[0].name == Some(name) {
      i := 0;
    } else {
      i := FirstNamedHasPlace(fields[1..], name);
      i := i + 1;
      assert forall j :: 1 <= j < i ==> fields[j] == fields[1..][j - 1];
    }
  }

  lemma {:induction false} LastValuedAt(fields: seq<Field>, name: string, i: nat)
    requires LastAt(fields, name, i)
    ensures LastValued(fields, name) == fields[i].value
  {
    var n := |fields| - 1;
    if i < n {
      LastValuedAt(fields[..n], name, i);
    }
  }

  lemma {:induction false} LastValuedHasPlace(fields: seq<Field>, name: string) returns (i: nat)
    requires LastValued(fields, name).Some?
    ensures LastAt(fields, name, i)
  {
    var n := |fields| - 1;
    if Insertable(fields[n]) && fields[n].name.value == name {
      i := n;
    } else {
      i := LastValuedHasPlace(fields[..n], name);
      assert forall j :: i < j < n ==> fields[j] == fields[..n][j];
    }
  }

  lemma NotReserved(c: DecryptedCipher, property: string)
    requires property != "" && property[0] == 'f'
    ensures ReservedSlot(c, property).None?
    ensures !("attachment." <= property) && !("attachments." <= property)
  {
  }

  /** Asking for `field.<key>` looks for the custom field named `key` less its trailing whitespace. */
  lemma FieldPrefixReads(c: DecryptedCipher, key: string)
    ensures ExtractProperty(c, "field." + key) ==
            Existing("field." + TrimEnd(key), CustomValue(c.fields, TrimEnd(key)))
  {
    var prefix, name := "field.", TrimEnd(key);
    TrimAfterPrefix(prefix, key);
    var property := prefix + name;
    assert property[0] == 'f';
    NotReserved(c, property);
    StripsBack(prefix, name);
  }

  lemma StripsBack(prefix: string, name: string)
    ensures StripPrefix(prefix + name, prefix) == Some(name)
  {
  }

  /** What the first field of a name holds, by its place. */
  lemma CustomValueIs(fields: seq<Field>, name: string, value: Option<string>)
    requires value.Some?
    ensures CustomValue(fields, name) == value <==> exists i: nat :: FirstAt(fields, name, i) && fields[i].value == value
  {
    if CustomValue(fields, name) == value {
      var i := FirstNamedHasPlace(fields, name);
      FirstNamedAt(fields, name, i);
      assert FirstAt(fields, name, i) && fields[i].value == value;
    }
    if i: nat :| FirstAt(fields, name, i) && fields[i].value == value {
      FirstNamedAt(fields, name, i);
    }
  }

  /**
   For any item: the document entry of a custom name is the value of the last valued field of that name, and
   `field.<key>` extracts the same exactly when the first field named by the key, less its trailing whitespace,
   carries that value too.
   */
  lemma CustomEntryAgreesExactly(c: DecryptedCipher, key: string, last: nat)
    requires LastAt(c.fields, key, last)
    ensures ToSecretDocument(c).Ok? && At(ToSecretDocument(c).value.data, key) == c.fields[last].value
    ensures ExtractProperty(c, "field." + key) == Ok(ToSecretDocument(c).value.data[key]) <==>
      exists first: nat :: FirstAt(c.fields, TrimEnd(key), first) && c.fields[first].value == c.fields[last].value
  {
    LastValuedAt(c.fields, key, last);
    DocumentEntries(c, key);
    FieldPrefixReads(c, key);
    CustomValueIs(c.fields, TrimEnd(key), c.fields[last].value);
  }

  /**
   The same without the `field.` prefix: the trimmed key must not ask for an attachment; if it is a reserved name, the
   reserved slot must hold the value, else the first field named by it, less a `field.` or `custom.` prefix.
   */
  lemma PlainKeyAgreesExactly(c: DecryptedCipher, key: string, last: nat)
    requires LastAt(c.fields, key, last)
    ensures ToSecretDocument(c).Ok? && At(ToSecretDocument(c).value.data, key) == c.fields[last].value
    ensures ExtractProperty(c, key) == Ok(ToSecretDocument(c).value.data[key]) <==>
      var property := Trim(key);
      && !("attachment." <= property) && !("attachments." <= property)
      && if ReservedSlot(c, property).Some? then ReservedSlot(c, property).value == c.fields[last].value
         else exists first: nat :: FirstAt(c.fields, CustomName(property), first) && c.fields[first].value == c.fields[last].value
  {
    LastValuedAt(c.fields, key, last);
    DocumentEntries(c, key);
    CustomValueIs(c.fields, CustomName(Trim(key)), c.fields[last].value);
  }

  /** With distinct names, only one field has the name. */
  lemma DistinctFirstIsLast(fields: seq<Field>, name: string, last: nat)
    requires DistinctNames(fields) && LastAt(fields, name, last)
    ensures FirstAt(fields, name, last)
  {
  }

  /**
   With distinct field names, a custom entry of the document is what `field.<key>` extracts exactly when the key
   has no trailing whitespace, or the field named by the trimmed key happens to carry the same value.
   */
  lemma CustomEntryIsProperty(c: DecryptedCipher, key: string, last: nat)
    requires DistinctNames(c.fields) && LastAt(c.fields, key, last)
    ensures ToSecretDocument(c).Ok?
    ensures ExtractProperty(c, "field." + key) == Ok(c.fields[last].value.value) <==>
      TrimEnd(key) == key || CustomValue(c.fields, TrimEnd(key)) == c.fields[last].value
  {
    CustomEntryAgreesExactly(c, key, last);
    DistinctFirstIsLast(c.fields, key, last);
    CustomValueIs(c.fields, TrimEnd(key), c.fields[last].value);
  }

  /** The names that a property asks for as they stand: trimmed, and without a prefix that is cut off. */
  lemma PlainName(key: string)
    ensures CustomName(Trim(key)) == key <==> Trimmed(key) && !("field." <= key) && !("custom." <= key)
  {
    TrimLaws(key);
    TrimStartLaws(key);
    TrimEndLaws(TrimStart(key));
    if Trim(key) != key {
      assert |Trim(key)| < |key|;
    }
  }

  /** With distinct names, a key that is trimmed, unprefixed and not reserved extracts its own entry. */
  lemma PlainKeyIsProperty(c: DecryptedCipher, key: string, last: nat)
    requires DistinctNames(c.fields) && LastAt(c.fields, key, last)
    requires Trimmed(key) && !("field." <= key) && !("custom." <= key) && ReservedSlot(c, key).None?
    ensures ExtractProperty(c, key) == Ok(c.fields[last].value.value) <==>
      !("attachment." <= key) && !("attachments." <= key)
  {
    TrimLaws(key);
    PlainName(key);
    PlainKeyAgreesExactly(c, key, last);
    DistinctFirstIsLast(c.fields, key, last);
  }

  /** Every other entry of the document is what its own key extracts, whatever the custom fields are. */
  lemma ConventionalEntryIsProperty(c: DecryptedCipher, key: string)
    requires ToSecretDocument(c).Ok? && key in ToSecretDocument(c).value.data
    requires LastValued(c.fields, key).None?
    ensures ExtractProperty(c, key) == Ok(ToSecretDocument(c).value.data[key])
  {
    DocumentEntries(c, key);
    ConventionalEntries(c, key);
    ReservedConventional(c, key);
    TrimLaws(key);
  }

  lemma ReservedConventional(c: DecryptedCipher, key: string)
    requires Conventional(c, key).Some?
    ensures ReservedSlot(c, key) == Some(Conventional(c, key))
    ensures Trimmed(key) && key != "" && key[0] != 'a'
  {
    if key == "notes" {
    } else if key == "username" {
    } else if key == "password" {
    } else if key == "totp" {
    } else if key == "privateKey" {
    } else if key == "publicKey" {
    } else if key == "keyFingerprint" {
    }
  }

  // ---- Every property name, by its slot ----

  /** The property is this slot: its text, or an error that names the property. */
  predicate Gives(c: DecryptedCipher, property: string, slot: Option<string>) {
    ExtractProperty(c, property) == if slot.Some? then Ok(slot.value) else Err(MissingProperty(property))
  }

  /** The names that stand for fixed slots. */
  const RESERVED: set<string> := {
    "name", "notes", "username", "login.username", "password", "login.password", "totp", "login.totp",
    "privateKey", "sshPrivateKey", "sshKey.privateKey", "publicKey", "sshPublicKey", "sshKey.publicKey",
    "keyFingerprint", "sshKey.keyFingerprint"}

  lemma ReservedIsTrimmed(property: string)
    requires property in RESERVED
    ensures property != "" && Trim(property) == property
    ensures !("attachment." <= property) && !("attachments." <= property)
  {
    assert Trimmed(property) && property[0] != 'a';
    TrimLaws(property);
  }

  /** A reserved name gives its slot. */
  lemma {:induction false} GivesReserved(c: DecryptedCipher, property: string, slot: Option<string>)
    requires property in RESERVED && ReservedSlot(c, property) == Some(slot)
    ensures Gives(c, property, slot)
  {
    ReservedIsTrimmed(property);
  }

  lemma ItemSlots(c: DecryptedCipher)
    ensures Gives(c, "name", c.name) && Gives(c, "notes", c.notes)
  {
    ReservedIsTrimmed("name");
    ReservedIsTrimmed("notes");
  }

  lemma UsernameSlots(c: DecryptedCipher)
    ensures var slot := if c.login.Some? then c.login.value.username else None;
            Gives(c, "username", slot) && Gives(c, "login.username", slot)
  {
    ReservedIsTrimmed("username");
    ReservedIsTrimmed("login.username");
  }

  lemma PasswordSlots(c: DecryptedCipher)
    ensures var slot := if c.login.Some? then c.login.value.password else None;
            Gives(c, "password", slot) && Gives(c, "login.password", slot)
  {
    ReservedIsTrimmed("password");
    ReservedIsTrimmed("login.password");
  }

  lemma TotpSlots(c: DecryptedCipher)
    ensures var slot := if c.login.Some? then c.login.value.totp else None;
            Gives(c, "totp", slot) && Gives(c, "login.totp", slot)
  {
    ReservedIsTrimmed("totp");
    ReservedIsTrimmed("login.totp");
  }

  lemma PrivateKeySlots(c: DecryptedCipher)
    ensures var slot := if c.sshKey.Some? then c.sshKey.value.privateKey else None;
            Gives(c, "privateKey", slot) && Gives(c, "sshPrivateKey", slot) && Gives(c, "sshKey.privateKey", slot)
  {
    var slot := if c.sshKey.Some? then c.sshKey.value.privateKey else None;
    GivesReserved(c, "privateKey", slot);
    GivesReserved(c, "sshPrivateKey", slot);
    GivesReserved(c, "sshKey.privateKey", slot);
  }

  lemma PublicKeySlots(c: DecryptedCipher)
    ensures var slot := if c.sshKey.Some? then c.sshKey.value.publicKey else None;
            Gives(c, "publicKey", slot) && Gives(c, "sshPublicKey", slot) && Gives(c, "sshKey.publicKey", slot)
  {
    var slot := if c.sshKey.Some? then c.sshKey.value.publicKey else None;
    GivesReserved(c, "publicKey", slot);
    GivesReserved(c, "sshPublicKey", slot);
    GivesReserved(c, "sshKey.publicKey", slot);
  }

  lemma FingerprintSlots(c: DecryptedCipher)
    ensures var slot := if c.sshKey.Some? then c.sshKey.value.keyFingerprint else None;
            Gives(c, "keyFingerprint", slot) && Gives(c, "sshKey.keyFingerprint", slot)
  {
    var slot := if c.sshKey.Some? then c.sshKey.value.keyFingerprint else None;
    GivesReserved(c, "keyFingerprint", slot);
    GivesReserved(c, "sshKey.keyFingerprint", slot);
  }

  lemma ReservedExactly(c: DecryptedCipher, property: string)
    ensures ReservedSlot(c, property).Some? <==> property in RESERVED
  {
  }

  /** Whitespace around a property does not matter; without anything else it is refused, and so are attachments. */
  lemma RefusedProperties(c: DecryptedCipher, raw: string)
    ensures ExtractProperty(c, raw) == ExtractProperty(c, Trim(raw))
    ensures ExtractProperty(c, raw) == Err(BlankProperty) <==> AllWhitespace(raw)
    ensures ExtractProperty(c, raw) == Err(UnsupportedAttachment) <==>
      "attachment." <= Trim(raw) || "attachments." <= Trim(raw)
  {
    TrimLaws(raw);
    TrimToNothing(raw);
  }

  /** The property is the first custom field of that name, if it carries a value. */
  ghost predicate GivesField(c: DecryptedCipher, property: string, name: string) {
    forall value: string ::
      ExtractProperty(c, property) == Ok(value) <==>
        exists i: nat :: FirstAt(c.fields, name, i) && c.fields[i].value == Some(value)
  }

  lemma GivesFieldOf(c: DecryptedCipher, property: string, name: string)
    requires ExtractProperty(c, property) == Existing(property, CustomValue(c.fields, name))
    ensures GivesField(c, property, name)
    ensures ExtractProperty(c, property).Err? ==> ExtractProperty(c, property) == Err(MissingProperty(property))
  {
    forall value: string
      ensures ExtractProperty(c, property) == Ok(value) <==>
        exists i: nat :: FirstAt(c.fields, name, i) && c.fields[i].value == Some(value)
    {
      CustomValueIs(c.fields, name, Some(value));
    }
  }

  /** Every other name is that of a custom field, less a `field.` or else a `custom.` in front. */
  lemma CustomSlots(c: DecryptedCipher, property: string, name: string)
    requires property != "" && Trimmed(property) && property !in RESERVED
    requires !("attachment." <= property) && !("attachments." <= property)
    requires || property == "field." + name || property == "custom." + name
             || (property == name && !("field." <= name) && !("custom." <= name))
    ensures GivesField(c, property, name)
    ensures ExtractProperty(c, property).Err? ==> ExtractProperty(c, property) == Err(MissingProperty(property))
  {
    TrimLaws(property);
    ReservedExactly(c, property);
    if property == "field." + name {
      StripsBack("field.", name);
    } else if property == "custom." + name {
      StripsBack("custom.", name);
    }
    GivesFieldOf(c, property, name);
  }

  /** What enters the document: fields with a name that is not blank and a value. */
  lemma InsertableExactly(f: Field)
    ensures Insertable(f) <==> f.name.Some? && f.value.Some? && !AllWhitespace(f.name.value)
  {
    if f.name.Some? {
      TrimToNothing(f.name.value);
    }
  }

  /** The conventional entries of the document, by their slots; no other key has one. */
  lemma ConventionalSlots(c: DecryptedCipher, key: string)
    ensures var l := if c.login.Some? then c.login.value else Login(None, None, None);
            var k := if c.sshKey.Some? then c.sshKey.value else SshKey(None, None, None);
            && Conventional(c, "notes") == c.notes && Conventional(c, "username") == l.username
            && Conventional(c, "password") == l.password && Conventional(c, "totp") == l.totp
            && Conventional(c, "privateKey") == k.privateKey && Conventional(c, "publicKey") == k.publicKey
            && Conventional(c, "keyFingerprint") == k.keyFingerprint
    ensures key !in {"notes", "username", "password", "totp", "privateKey", "publicKey", "keyFingerprint"} ==>
      Conventional(c, key).None?
  {
  }

  /** Two fields of one name: the document takes the last value, the property the first. */
  lemma DuplicateNamesDisagree()
    ensures var c := DecryptedCipher("1", 1, None, None, None,
                       [Field(Some("k"), Some("a"), None), Field(Some("k"), Some("b"), None)], None, None);
            ToSecretDocument(c).Ok? && At(ToSecretDocument(c).value.data, "k") == Some("b")
            && ExtractProperty(c, "field.k") == Ok("a")
  {
    var fields := [Field(Some("k"), Some("a"), None), Field(Some("k"), Some("b"), None)];
    var c := DecryptedCipher("1", 1, None, None, None, fields, None, None);
    TrimLaws("k");
    DocumentEntries(c, "k");
    FieldPrefixReads(c, "k");
    assert "field." + "k" == "field.k";
  }

  /** A name that ends in a space is in the document but cannot be asked for. */
  lemma TrailingSpaceIsUnreachable()
    ensures var c := DecryptedCipher("1", 1, None, None, None, [Field(Some("k "), Some("a"), None)], None, None);
            ToSecretDocument(c).Ok? && At(ToSecretDocument(c).value.data, "k ") == Some("a")
            && ExtractProperty(c, "field.k ").Err?
  {
    var c := DecryptedCipher("1", 1, None, None, None, [Field(Some("k "), Some("a"), None)], None, None);
    assert TrimEnd("k ") == TrimEnd("k ") && "k "[..1] == "k";
    assert TrimEnd("k") == "k";
    assert TrimEnd("k ") == "k";
    assert TrimStart("k ") == "k ";
    DocumentEntries(c, "k ");
    FieldPrefixReads(c, "k ");
    assert "field." + "k " == "field.k ";
    assert c.fields[1..] == [];
  }
}
