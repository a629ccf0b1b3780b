/** Selectors and client errors: what a request may ask for, and how validation settles it early. */
module Selector {
  import opened Wrappers
  import opened Text
  import opened Crypto
  import opened Cipher
  import opened Extraction

  datatype ApiError =
    | Http
    | HttpStatus(status: nat)
    | UnsupportedKdfType
    | MissingKdfParameter
    | MissingMasterPasswordUnlock
    | MissingMasterKeyWrappedUserKey
    | MissingCachedSync
    | InvalidBaseUrl
    | CipherNotFound
    | AmbiguousCipherName
    | UnsupportedSharedItem

  datatype ClientError =
    | Validation(field: string)
    | CryptoFailure(cryptoError: CryptoError)
    | CipherFailure(cipherError: CipherError)
    | KeyDerivation
    | Api(apiError: ApiError)
    | InvalidEndpoint
    | InsecureEndpoint
    | UnsupportedVersionSelector
    | UnprefixedSelectorKey

  datatype RemoteRef = RemoteRef(key: string, property: Option<string>, version: Option<string>)

  datatype BitwardenSelector = BitwardenSelector(key: string, property: Option<string>)

  predicate Blank(s: string) {
    Trim(s) == ""
  }

  function SelectorValue(key: string): Option<string> {
    match StripPrefix(key, "id:")
    case Some(value) => Some(value)
    case None => StripPrefix(key, "name:")
  }

  function ValidateSelectorKey(key: string): Result<(), ClientError> {
    match SelectorValue(key)
    case Some(value) => if Blank(value) then Err(Validation("remote_ref.key")) else Ok(())
    case None => Err(UnprefixedSelectorKey)
  }

  function TryFrom(ref: RemoteRef): Result<BitwardenSelector, ClientError> {
    if Blank(ref.key) then Err(Validation("remote_ref.key"))
    else if ref.version.Some? && !Blank(ref.version.value) then Err(UnsupportedVersionSelector)
    else if ref.property.Some? && Blank(ref.property.value) then Err(Validation("remote_ref.property"))
    else
      var property := if ref.property.Some? then Some(Trim(ref.property.value)) else None;
      var key := Trim(ref.key);
      match ValidateSelectorKey(key)
      case Err(e) => Err(e)
      case Ok(_) => Ok(BitwardenSelector(key, property))
  }

  datatype CipherLookup = Id(id: string) | Name(name: string)

  function LookupFromKey(key: string): Result<CipherLookup, ClientError> {
    match StripPrefix(key, "id:")
    case Some(id) => Ok(Id(id))
    case None =>
      match StripPrefix(key, "name:")
      case Some(name) => Ok(CipherLookup.Name(name))
      case None => Err(UnprefixedSelectorKey)
  }

  lemma BlankExactly(s: string)
    ensures Blank(s) <==> AllWhitespace(s)
  {
    TrimToNothing(s);
  }

  /** The key names an item: `id:` or `name:`, and something visible after it. */
  ghost predicate NamesAnItem(key: string) {
    exists value: string :: !AllWhitespace(value) && (key == "id:" + value || key == "name:" + value)
  }

  lemma ValidKeyExactly(key: string)
    ensures ValidateSelectorKey(key).Ok? <==> NamesAnItem(key)
    ensures ValidateSelectorKey(key) == Err(UnprefixedSelectorKey) <==> !("id:" <= key) && !("name:" <= key)
    ensures ValidateSelectorKey(key).Err? ==>
      ValidateSelectorKey(key).error == UnprefixedSelectorKey || ValidateSelectorKey(key).error == Validation("remote_ref.key")
  {
    if SelectorValue(key).Some? {
      BlankExactly(SelectorValue(key).value);
    }
    if NamesAnItem(key) {
      var value: string :| !AllWhitespace(value) && (key == "id:" + value || key == "name:" + value);
      BlankExactly(value);
      if key == "id:" + value {
        assert key[3..] == value;
      } else {
        assert key[5..] == value;
      }
    }
  }

  /** Exactly which references are accepted, and what of them is kept. */
  lemma AcceptedExactly(ref: RemoteRef, selector: BitwardenSelector)
    ensures TryFrom(ref) == Ok(selector) <==>
      && TrimsTo(ref.key, selector.key) && NamesAnItem(selector.key)
      && (ref.version.Some? ==> AllWhitespace(ref.version.value))
      && (ref.property.None? ==> selector.property.None?)
      && (ref.property.Some? ==>
            && selector.property.Some? && selector.property.value != ""
            && TrimsTo(ref.property.value, selector.property.value))
  {
    TrimExactly(ref.key, selector.key);
    ValidKeyExactly(Trim(ref.key));
    if ref.version.Some? {
      BlankExactly(ref.version.value);
    }
    if ref.property.Some? && selector.property.Some? {
      TrimExactly(ref.property.value, selector.property.value);
    }
  }

  /** And why the others are not: the first check that fails, in this order. */
  lemma RejectedExactly(ref: RemoteRef)
    ensures var versioned := ref.version.Some? && !AllWhitespace(ref.version.value);
            var unnamed := ref.property.Some? && AllWhitespace(ref.property.value);
            var r := TryFrom(ref);
            if AllWhitespace(ref.key) then r == Err(Validation("remote_ref.key"))
            else if versioned then r == Err(UnsupportedVersionSelector)
            else if unnamed then r == Err(Validation("remote_ref.property"))
            else if !("id:" <= Trim(ref.key)) && !("name:" <= Trim(ref.key)) then r == Err(UnprefixedSelectorKey)
            else r.Ok? || r == Err(Validation("remote_ref.key"))
  {
    BlankExactly(ref.key);
    ValidKeyExactly(Trim(ref.key));
    if ref.version.Some? {
      BlankExactly(ref.version.value);
    }
    if ref.property.Some? {
      BlankExactly(ref.property.value);
    }
  }

  /** An accepted selector asked for again is accepted as it is. */
  lemma AcceptedIsNormal(ref: RemoteRef, selector: BitwardenSelector)
    requires TryFrom(ref) == Ok(selector)
    ensures TryFrom(RemoteRef(selector.key, selector.property, None)) == Ok(selector)
  {
    TrimLaws(ref.key);
    if ref.property.Some? {
      TrimLaws(ref.property.value);
    }
  }

  /** Lookup and extraction cannot reject what validation accepted for its form. */
  lemma AcceptedIsUsable(ref: RemoteRef, selector: BitwardenSelector, c: DecryptedCipher)
    requires TryFrom(ref) == Ok(selector)
    ensures LookupFromKey(selector.key).Ok?
    ensures match LookupFromKey(selector.key).value
            case Id(id) => selector.key == "id:" + id && !AllWhitespace(id)
            case Name(name) => selector.key == "name:" + name && !AllWhitespace(name)
    ensures selector.property.Some? ==> ExtractProperty(c, selector.property.value) != Err(BlankProperty)
  {
    ValidKeyExactly(selector.key);
    BlankExactly(SelectorValue(selector.key).value);
    if ref.property.Some? {
      TrimLaws(ref.property.value);
    }
  }
}
