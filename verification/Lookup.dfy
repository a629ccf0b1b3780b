/** Finding the selected item in a synced vault and answering for it. */
module Lookup {
  import opened Wrappers
  import opened Sequences
  import opened Crypto
  import opened Cipher
  import opened Extraction
  import opened Selector

  datatype SyncResponse = SyncResponse(ciphers: seq<EncryptedCipher>)

  function FindById(ciphers: seq<EncryptedCipher>, id: string): Option<EncryptedCipher> {
    if ciphers == [] then None
    else if ciphers[0].id == id then Some(ciphers[0])
    else FindById(ciphers[1..], id)
  }

  function ResolveById(p: Primitives, sync: SyncResponse, userKey: Key, id: string): Result<DecryptedCipher, ClientError> {
    match FindById(sync.ciphers, id)
    case None => Err(Api(CipherNotFound))
    case Some(cipher) =>
      if cipher.organizationId.Some? then Err(Api(UnsupportedSharedItem)) else
        match DecryptCipher(p, cipher, userKey)
        case Err(e) => Err(CipherFailure(e))
        case Ok(item) => Ok(item)
  }

  // ---- By name ----

  /** A decryptable item that carries the name; whether it is shared is read off the encrypted item. */
  datatype Hit = Hit(shared: bool, item: DecryptedCipher)

  function HitOf(p: Primitives, cipher: EncryptedCipher, userKey: Key, name: string): seq<Hit> {
    match DecryptCipher(p, cipher, userKey)
    case Err(_) => []
    case Ok(item) => if item.name == Some(name) then [Hit(cipher.organizationId.Some?, item)] else []
  }

  function HitFinder(p: Primitives, userKey: Key, name: string): EncryptedCipher -> seq<Hit> {
    cipher => HitOf(p, cipher, userKey, name)
  }

  /** All hits, in vault order. */
  function Hits(p: Primitives, ciphers: seq<EncryptedCipher>, userKey: Key, name: string): seq<Hit> {
    FlatMap(HitFinder(p, userKey, name), ciphers)
  }

  /** What the first two hits decide. */
  function Decide(hits: seq<Hit>): Result<DecryptedCipher, ClientError> {
    if hits == [] then Err(Api(CipherNotFound))
    else if hits[0].shared then Err(Api(UnsupportedSharedItem))
    else if |hits| == 1 then Ok(hits[0].item)
    else if hits[1].shared then Err(Api(UnsupportedSharedItem))
    else Err(Api(AmbiguousCipherName))
  }

  /** Once a hit is shared, or is the second one, what follows does not matter. */
  lemma DecideEarly(before: seq<Hit>, hit: Hit, rest: seq<Hit>)
    requires before == [] || (|before| == 1 && !before[0].shared)
    ensures hit.shared ==> Decide(before + [hit] + rest) == Err(Api(UnsupportedSharedItem))
    ensures !hit.shared && before != [] ==> Decide(before + [hit] + rest) == Err(Api(AmbiguousCipherName))
  {
  }

  /** The hits up to one item, that item's, and the others'. */
  lemma HitsSplit(p: Primitives, ciphers: seq<EncryptedCipher>, userKey: Key, name: string, i: nat)
    requires i < |ciphers|
    ensures Hits(p, ciphers[..i + 1], userKey, name) == Hits(p, ciphers[..i], userKey, name) + HitOf(p, ciphers[i], userKey, name)
    ensures Hits(p, ciphers, userKey, name)
         == Hits(p, ciphers[..i], userKey, name) + HitOf(p, ciphers[i], userKey, name) + Hits(p, ciphers[i + 1..], userKey, name)
  {
    FlatMapSplit(HitFinder(p, userKey, name), ciphers, i);
  }

  /** The search loop: leaves early on a shared or a second match. */
  method ResolveByName(p: Primitives, sync: SyncResponse, userKey: Key, name: string)
    returns (r: Result<DecryptedCipher, ClientError>)
    ensures r == Decide(Hits(p, sync.ciphers, userKey, name))
  {
    var nameMatch: Option<DecryptedCipher> := None;
    for i := 0 to |sync.ciphers|
      invariant Hits(p, sync.ciphers[..i], userKey, name) ==
        if nameMatch.None? then [] else [Hit(false, nameMatch.value)]
    {
      var cipher := sync.ciphers[i];
      HitsSplit(p, sync.ciphers, userKey, name, i);
      var decrypted := DecryptCipher(p, cipher, userKey);
      if decrypted.Ok? && decrypted.value.name == Some(name) {
        DecideEarly(Hits(p, sync.ciphers[..i], userKey, name), Hit(cipher.organizationId.Some?, decrypted.value),
                    Hits(p, sync.ciphers[i + 1..], userKey, name));
        if cipher.organizationId.Some? {
          return Err(Api(UnsupportedSharedItem));
        }
        if nameMatch.Some? {
          return Err(Api(AmbiguousCipherName));
        }
        nameMatch := Some(decrypted.value);
      }
    }
    assert sync.ciphers[..|sync.ciphers|] == sync.ciphers;
    r := if nameMatch.Some? then Ok(nameMatch.value) else Err(Api(CipherNotFound));
  }

  function ByName(p: Primitives, sync: SyncResponse, userKey: Key, name: string): Result<DecryptedCipher, ClientError> {
    Decide(Hits(p, sync.ciphers, userKey, name))
  }

  // ---- The whole answer ----

  function ResolveCipher(p: Primitives, sync: SyncResponse, userKey: Key, key: string): Result<DecryptedCipher, ClientError> {
    match LookupFromKey(key)
    case Err(e) => Err(e)
    case Ok(Id(id)) => ResolveById(p, sync, userKey, id)
    case Ok(Name(name)) => ByName(p, sync, userKey, name)
  }

  function Project(item: DecryptedCipher, property: Option<string>): Result<SecretDocument, ClientError> {
    if item.organizationId.Some? then Err(Api(UnsupportedSharedItem)) else
      match property
      case None =>
        (match ToSecretDocument(item)
         case Err(e) => Err(CipherFailure(e))
         case Ok(document) => Ok(document))
      case Some(name) =>
        match ExtractProperty(item, name)
        case Err(e) => Err(CipherFailure(e))
        case Ok(value) => Ok(SecretDocument(map["value" := value][name := value], map[]))
  }

  /** The plain answer: sync in hand, look the selector up and project it. */
  function Resolve(p: Primitives, sync: SyncResponse, userKey: Key, selector: BitwardenSelector): Result<SecretDocument, ClientError> {
    match ResolveCipher(p, sync, userKey, selector.key)
    case Err(e) => Err(e)
    case Ok(item) => Project(item, selector.property)
  }

  // ---- What lookup promises ----

  /** Decryption keeps the identity of an item. */
  lemma DecryptKeepsIdentity(p: Primitives, c: EncryptedCipher, userKey: Key)
    requires DecryptCipher(p, c, userKey).Ok?
    ensures var item := DecryptCipher(p, c, userKey).value; item.id == c.id && item.organizationId == c.organizationId
  {
    DecryptOpensEveryString(p, c, userKey);
  }

  /** The item can be decrypted and has this name. */
  predicate Carries(p: Primitives, cipher: EncryptedCipher, userKey: Key, name: string) {
    DecryptCipher(p, cipher, userKey).Ok? && DecryptCipher(p, cipher, userKey).value.name == Some(name)
  }

  /** The item at `i` is personal, decrypts to `item`, carries the name, and is alone in that. */
  ghost predicate SolePersonalMatch(p: Primitives, ciphers: seq<EncryptedCipher>, userKey: Key, name: string,
                                    i: nat, item: DecryptedCipher)
  {
    && i < |ciphers|
    && ciphers[i].organizationId.None? && item.name == Some(name)
    && DecryptCipher(p, ciphers[i], userKey) == Ok(item)
    && forall j :: 0 <= j < |ciphers| && j != i ==> !Carries(p, ciphers[j], userKey, name)
  }

  /** A name resolves exactly when one decryptable item carries it and that item is personal. */
  lemma NameResolvesExactly(p: Primitives, sync: SyncResponse, userKey: Key, name: string, item: DecryptedCipher)
    ensures ByName(p, sync, userKey, name) == Ok(item) <==>
      exists i :: SolePersonalMatch(p, sync.ciphers, userKey, name, i, item)
  {
    if ByName(p, sync, userKey, name) == Ok(item) {
      var i := SoleProducer(HitFinder(p, userKey, name), sync.ciphers);
      assert SolePersonalMatch(p, sync.ciphers, userKey, name, i, item);
    }
    if i :| SolePersonalMatch(p, sync.ciphers, userKey, name, i, item) {
      SoleProducerProduces(HitFinder(p, userKey, name), sync.ciphers, i);
    }
  }

  /** The order of the vault decides neither whether a name resolves, nor to what, nor whether it is unknown. */
  lemma NameLookupIgnoresOrder(p: Primitives, a: SyncResponse, b: SyncResponse, userKey: Key, name: string)
    requires multiset(a.ciphers) == multiset(b.ciphers)
    ensures var x, y := ByName(p, a, userKey, name), ByName(p, b, userKey, name);
            && (x.Ok? || y.Ok? ==> x == y)
            && (x == Err(Api(CipherNotFound)) <==> y == Err(Api(CipherNotFound)))
  {
    FlatMapPermutation(HitFinder(p, userKey, name), a.ciphers, b.ciphers);
    DecideIgnoresOrder(Hits(p, a.ciphers, userKey, name), Hits(p, b.ciphers, userKey, name));
  }

  lemma DecideIgnoresOrder(hs: seq<Hit>, ks: seq<Hit>)
    requires multiset(hs) == multiset(ks)
    ensures Decide(hs).Ok? || Decide(ks).Ok? ==> Decide(hs) == Decide(ks)
    ensures Decide(hs) == Err(Api(CipherNotFound)) <==> Decide(ks) == Err(Api(CipherNotFound))
  {
    assert |hs| == |multiset(hs)| == |multiset(ks)| == |ks|;
    if |hs| == 1 {
      assert hs == [hs[0]] && ks == [ks[0]];
      assert hs[0] in multiset(ks);
    }
  }

  // ---- Every answer, by the items that carry the name or the id ----

  /** The items that carry the name, at these places and no other before them. */
  predicate FirstCarries(p: Primitives, ciphers: seq<EncryptedCipher>, userKey: Key, name: string, from: nat, i: nat) {
    && from <= i < |ciphers| && Carries(p, ciphers[i], userKey, name)
    && forall j :: from <= j < i ==> !Carries(p, ciphers[j], userKey, name)
  }

  lemma NoHits(p: Primitives, ciphers: seq<EncryptedCipher>, userKey: Key, name: string)
    requires forall j :: 0 <= j < |ciphers| ==> !Carries(p, ciphers[j], userKey, name)
    ensures Hits(p, ciphers, userKey, name) == []
  {
    FlatMapEmpty(HitFinder(p, userKey, name), ciphers);
  }

  /** The hit that an item which carries the name gives. */
  function HitAt(p: Primitives, cipher: EncryptedCipher, userKey: Key, name: string): Hit
    requires Carries(p, cipher, userKey, name)
  {
    Hit(cipher.organizationId.Some?, DecryptCipher(p, cipher, userKey).value)
  }

  /** The first item that carries the name gives the first hit. */
  lemma {:induction false} HitsFrom(p: Primitives, ciphers: seq<EncryptedCipher>, userKey: Key, name: string, i: nat)
    requires FirstCarries(p, ciphers, userKey, name, 0, i)
    ensures Hits(p, ciphers, userKey, name)
         == [HitAt(p, ciphers[i], userKey, name)] + Hits(p, ciphers[i + 1..], userKey, name)
  {
    NoHits(p, ciphers[..i], userKey, name);
    HitsSplit(p, ciphers, userKey, name, i);
  }

  lemma NothingCarries(p: Primitives, sync: SyncResponse, userKey: Key, name: string)
    requires forall j :: 0 <= j < |sync.ciphers| ==> !Carries(p, sync.ciphers[j], userKey, name)
    ensures ByName(p, sync, userKey, name) == Err(Api(CipherNotFound))
  {
    NoHits(p, sync.ciphers, userKey, name);
  }

  /** A single item carries the name: refused when shared, else the answer. */
  lemma OneCarries(p: Primitives, sync: SyncResponse, userKey: Key, name: string, i: nat)
    requires FirstCarries(p, sync.ciphers, userKey, name, 0, i)
    requires forall j :: i < j < |sync.ciphers| ==> !Carries(p, sync.ciphers[j], userKey, name)
    ensures ByName(p, sync, userKey, name) ==
      if sync.ciphers[i].organizationId.Some? then Err(Api(UnsupportedSharedItem))
      else Ok(DecryptCipher(p, sync.ciphers[i], userKey).value)
  {
    HitsFrom(p, sync.ciphers, userKey, name, i);
    var tail := sync.ciphers[i + 1..];
    forall j | 0 <= j < |tail|
      ensures !Carries(p, tail[j], userKey, name)
    {
      assert tail[j] == sync.ciphers[i + 1 + j];
    }
    NoHits(p, tail, userKey, name);
  }

  /** Counted from after an item, the next one that carries the name comes first. */
  lemma {:induction false} FirstInTail(p: Primitives, ciphers: seq<EncryptedCipher>, userKey: Key, name: string, from: nat, j: nat)
    requires FirstCarries(p, ciphers, userKey, name, from, j)
    ensures FirstCarries(p, ciphers[from..], userKey, name, 0, j - from) && ciphers[from..][j - from] == ciphers[j]
  {
    var tail := ciphers[from..];
    forall l | 0 <= l < j - from
      ensures !Carries(p, tail[l], userKey, name)
    {
      assert tail[l] == ciphers[from + l];
    }
  }

  lemma DecideTwo(first: Hit, second: Hit, rest: seq<Hit>)
    ensures Decide([first] + ([second] + rest)) ==
      if first.shared || second.shared then Err(Api(UnsupportedSharedItem)) else Err(Api(AmbiguousCipherName))
  {
  }

  lemma {:induction false} NextHit(p: Primitives, ciphers: seq<EncryptedCipher>, userKey: Key, name: string, from: nat, j: nat)
    returns (rest: seq<Hit>)
    requires FirstCarries(p, ciphers, userKey, name, from, j)
    ensures Hits(p, ciphers[from..], userKey, name) == [HitAt(p, ciphers[j], userKey, name)] + rest
  {
    var tail, k: nat := ciphers[from..], j - from;
    FirstInTail(p, ciphers, userKey, name, from, j);
    HitsFrom(p, tail, userKey, name, k);
    rest := Hits(p, tail[k + 1..], userKey, name);
  }

  lemma {:induction false} TwoHits(p: Primitives, ciphers: seq<EncryptedCipher>, userKey: Key, name: string, i: nat, j: nat)
    returns (rest: seq<Hit>)
    requires FirstCarries(p, ciphers, userKey, name, 0, i) && FirstCarries(p, ciphers, userKey, name, i + 1, j)
    ensures Hits(p, ciphers, userKey, name)
         == [HitAt(p, ciphers[i], userKey, name)] + ([HitAt(p, ciphers[j], userKey, name)] + rest)
  {
    HitsFrom(p, ciphers, userKey, name, i);
    rest := NextHit(p, ciphers, userKey, name, i + 1, j);
  }

  /** Two items carry the name: the first two decide, shared before ambiguous. */
  lemma {:induction false} TwoCarry(p: Primitives, sync: SyncResponse, userKey: Key, name: string, i: nat, j: nat)
    requires FirstCarries(p, sync.ciphers, userKey, name, 0, i)
    requires FirstCarries(p, sync.ciphers, userKey, name, i + 1, j)
    ensures ByName(p, sync, userKey, name) ==
      if sync.ciphers[i].organizationId.Some? || sync.ciphers[j].organizationId.Some?
      then Err(Api(UnsupportedSharedItem)) else Err(Api(AmbiguousCipherName))
  {
    var rest := TwoHits(p, sync.ciphers, userKey, name, i, j);
    DecideTwo(HitAt(p, sync.ciphers[i], userKey, name), HitAt(p, sync.ciphers[j], userKey, name), rest);
  }

  /** The first item of that id. */
  predicate FirstWithId(ciphers: seq<EncryptedCipher>, id: string, i: nat) {
    i < |ciphers| && ciphers[i].id == id && forall j :: 0 <= j < i ==> ciphers[j].id != id
  }

  lemma {:induction false} FindByIdFirst(ciphers: seq<EncryptedCipher>, id: string, i: nat)
    requires FirstWithId(ciphers, id, i)
    ensures FindById(ciphers, id) == Some(ciphers[i])
  {
    if i > 0 {
      assert ciphers[0].id != id;
      assert forall j :: 0 <= j < i - 1 ==> ciphers[1..][j] == ciphers[j + 1];
      FindByIdFirst(ciphers[1..], id, i - 1);
    }
  }

  lemma {:induction false} FindByIdNone(ciphers: seq<EncryptedCipher>, id: string)
    requires forall j :: 0 <= j < |ciphers| ==> ciphers[j].id != id
    ensures FindById(ciphers, id) == None
  {
    if ciphers != [] {
      assert forall j :: 0 <= j < |ciphers| - 1 ==> ciphers[1..][j] == ciphers[j + 1];
      FindByIdNone(ciphers[1..], id);
    }
  }

  /** Nobody has the id: not found. */
  lemma NobodyHasId(p: Primitives, sync: SyncResponse, userKey: Key, id: string)
    requires forall j :: 0 <= j < |sync.ciphers| ==> sync.ciphers[j].id != id
    ensures ResolveCipher(p, sync, userKey, "id:" + id) == Err(Api(CipherNotFound))
  {
    FindByIdNone(sync.ciphers, id);
    IdSelector(id);
  }

  /** The first item of the id decides: refused when shared, else decrypted, or its decryption error. */
  lemma IdDecides(p: Primitives, sync: SyncResponse, userKey: Key, id: string, i: nat)
    requires FirstWithId(sync.ciphers, id, i)
    ensures ResolveCipher(p, sync, userKey, "id:" + id) ==
      if sync.ciphers[i].organizationId.Some? then Err(Api(UnsupportedSharedItem))
      else if DecryptCipher(p, sync.ciphers[i], userKey).Err?
      then Err(CipherFailure(DecryptCipher(p, sync.ciphers[i], userKey).error))
      else Ok(DecryptCipher(p, sync.ciphers[i], userKey).value)
  {
    FindByIdFirst(sync.ciphers, id, i);
    IdSelector(id);
  }

  lemma IdSelector(id: string)
    ensures LookupFromKey("id:" + id) == Ok(Id(id))
  {
    assert ("id:" + id)[3..] == id;
  }

  lemma NameSelector(name: string)
    ensures LookupFromKey("name:" + name) == Ok(CipherLookup.Name(name))
  {
    assert ("name:" + name)[5..] == name;
    assert ("name:" + name)[0] != "id:"[0];
  }

  // ---- What an answer holds ----

  /** The entries of the document are these keys, all with the same value. */
  predicate HoldsOnly(document: SecretDocument, keys: set<string>, value: string) {
    document.data.Keys == keys && forall key :: key in keys ==> document.data[key] == value
  }

  /** The answer for an item: one property under `value` and its own name, or every entry of the item. */
  ghost predicate AnswersFor(item: DecryptedCipher, property: Option<string>, r: Result<SecretDocument, ClientError>) {
    match property
    case Some(name) =>
      (match ExtractProperty(item, name)
       case Ok(value) => r.Ok? && HoldsOnly(r.value, {"value", name}, value)
       case Err(e) => r == Err(CipherFailure(e)))
    case None =>
      if r.Ok? then forall key :: At(r.value.data, key) == Entry(item, key)
      else r.error == CipherFailure(NoExtractableFields(item.id)) && forall key :: Entry(item, key).None?
  }

  lemma ProjectMeans(item: DecryptedCipher, property: Option<string>)
    requires item.organizationId.None?
    ensures AnswersFor(item, property, Project(item, property))
  {
    if property.None? {
      DocumentEntries(item, "notes");
      forall key: string
        ensures ToSecretDocument(item).Ok? ==> At(ToSecretDocument(item).value.data, key) == Entry(item, key)
        ensures ToSecretDocument(item).Err? ==> Entry(item, key).None?
      {
        DocumentEntries(item, key);
      }
    }
  }

  /** Whatever resolves answers for a personal item of the vault that its selector found. */
  lemma ResolveMeans(p: Primitives, sync: SyncResponse, userKey: Key, selector: BitwardenSelector)
    ensures var found := ResolveCipher(p, sync, userKey, selector.key);
            var r := Resolve(p, sync, userKey, selector);
            if found.Err? then r == Err(found.error)
            else found.value.organizationId.None? && AnswersFor(found.value, selector.property, r)
  {
    if ResolveCipher(p, sync, userKey, selector.key).Ok? {
      ResolvedIsPersonal(p, sync, userKey, selector.key);
      ProjectMeans(ResolveCipher(p, sync, userKey, selector.key).value, selector.property);
    }
  }

  /** A sealed personal item, asked for by its id: the answer is the item's own. */
  lemma SealedItemById(p: Primitives, sync: SyncResponse, userKey: Key, i: nat, item: DecryptedCipher, itemKey: Option<Key>,
                       ivOf: Slot -> Block, property: Option<string>)
    requires FirstWithId(sync.ciphers, item.id, i) && item.organizationId.None?
    requires sync.ciphers[i] == SealCipher(p, item, userKey, itemKey, ivOf)
    ensures AnswersFor(item, property, Resolve(p, sync, userKey, BitwardenSelector("id:" + item.id, property)))
  {
    DecryptUndoesSeal(p, item, userKey, itemKey, ivOf);
    DecryptKeepsIdentity(p, sync.ciphers[i], userKey);
    IdDecides(p, sync, userKey, item.id, i);
    ResolveMeans(p, sync, userKey, BitwardenSelector("id:" + item.id, property));
  }

  /** And by its name, when no other item that can be decrypted carries it. */
  lemma SealedItemByName(p: Primitives, sync: SyncResponse, userKey: Key, i: nat, item: DecryptedCipher, itemKey: Option<Key>,
                         ivOf: Slot -> Block, name: string, property: Option<string>)
    requires i < |sync.ciphers| && sync.ciphers[i] == SealCipher(p, item, userKey, itemKey, ivOf)
    requires item.organizationId.None? && item.name == Some(name)
    requires forall j :: 0 <= j < |sync.ciphers| && j != i ==> !Carries(p, sync.ciphers[j], userKey, name)
    ensures AnswersFor(item, property, Resolve(p, sync, userKey, BitwardenSelector("name:" + name, property)))
  {
    DecryptUndoesSeal(p, item, userKey, itemKey, ivOf);
    DecryptKeepsIdentity(p, sync.ciphers[i], userKey);
    OneCarries(p, sync, userKey, name, i);
    NameSelector(name);
    ResolveMeans(p, sync, userKey, BitwardenSelector("name:" + name, property));
  }

  // ---- When the order of the vault decides ----

  /** How many hits are shared, or how many are personal. */
  function Count(hits: seq<Hit>, shared: bool): nat {
    if hits == [] then 0 else (if hits[0].shared == shared then 1 else 0) + Count(hits[1..], shared)
  }

  lemma {:induction false} CountAppend(a: seq<Hit>, b: seq<Hit>, shared: bool)
    ensures Count(a + b, shared) == Count(a, shared) + Count(b, shared)
  {
    if a == [] {
      assert a + b == b;
    } else {
      assert (a + b)[1..] == a[1..] + b;
      CountAppend(a[1..], b, shared);
    }
  }

  lemma {:induction false} CountsAddUp(hits: seq<Hit>)
    ensures Count(hits, true) + Count(hits, false) == |hits|
  {
    if hits != [] {
      CountsAddUp(hits[1..]);
    }
  }

  /** The counts do not depend on the order. */
  lemma {:induction false} CountPermutation(a: seq<Hit>, b: seq<Hit>, shared: bool)
    requires multiset(a) == multiset(b)
    ensures Count(a, shared) == Count(b, shared)
  {
    if a == [] {
      assert |multiset(b)| == 0;
      assert b == [];
    } else {
      var i := FirstInPermutation(a, b);
      CountPermutation(a[1..], b[..i] + b[i + 1..], shared);
      CountAround(b, i, shared);
    }
  }

  lemma {:induction false} CountAround(hits: seq<Hit>, i: nat, shared: bool)
    requires i < |hits|
    ensures Count(hits, shared)
         == (if hits[i].shared == shared then 1 else 0) + Count(hits[..i] + hits[i + 1..], shared)
  {
    var front, back := hits[..i], hits[i + 1..];
    assert hits == front + ([hits[i]] + back);
    assert ([hits[i]] + back)[1..] == back;
    CountAppend(front, [hits[i]] + back, shared);
    CountAppend(front, back, shared);
  }

  /** Without a shared hit, or with at most one personal hit beside shared ones, the counts settle the refusal. */
  lemma {:induction false} DecideByCounts(hits: seq<Hit>)
    ensures Count(hits, true) == 0 && |hits| > 1 ==> Decide(hits) == Err(Api(AmbiguousCipherName))
    ensures Count(hits, true) > 0 && Count(hits, false) <= 1 ==> Decide(hits) == Err(Api(UnsupportedSharedItem))
  {
    CountsAddUp(hits);
    if |hits| > 1 {
      assert Count(hits, true) == (if hits[0].shared then 1 else 0) + (if hits[1].shared then 1 else 0)
                                  + Count(hits[1..][1..], true);
      assert Count(hits, false) == (if hits[0].shared then 0 else 1) + (if hits[1].shared then 0 else 1)
                                   + Count(hits[1..][1..], false);
    }
  }

  /** Equal hits up to order are decided alike unless two personal hits meet a shared one. */
  lemma DecideSettled(hs: seq<Hit>, ks: seq<Hit>)
    requires multiset(hs) == multiset(ks)
    requires Count(hs, false) <= 1 || Count(hs, true) == 0
    ensures Decide(hs) == Decide(ks)
  {
    assert |hs| == |multiset(hs)| == |multiset(ks)| == |ks|;
    CountPermutation(hs, ks, true);
    CountPermutation(hs, ks, false);
    DecideByCounts(hs);
    DecideByCounts(ks);
    DecideIgnoresOrder(hs, ks);
    CountsAddUp(hs);
  }

  /** Finds an item that gives a hit of the wanted kind, and puts it in front. */
  lemma PullHit(p: Primitives, ciphers: seq<EncryptedCipher>, userKey: Key, name: string, shared: bool)
    returns (c: EncryptedCipher, hit: Hit, rest: seq<EncryptedCipher>)
    requires Count(Hits(p, ciphers, userKey, name), shared) > 0
    ensures multiset([c] + rest) == multiset(ciphers)
    ensures HitOf(p, c, userKey, name) == [hit] && hit.shared == shared
    ensures Count(Hits(p, ciphers, userKey, name), true)
         == (if shared then 1 else 0) + Count(Hits(p, rest, userKey, name), true)
    ensures Count(Hits(p, ciphers, userKey, name), false)
         == (if shared then 0 else 1) + Count(Hits(p, rest, userKey, name), false)
  {
    var i := FirstHit(HitFinder(p, userKey, name), ciphers, shared);
    c := ciphers[i];
    hit := HitOf(p, c, userKey, name)[0];
    rest := ciphers[..i] + ciphers[i + 1..];
    WithoutOne(ciphers, i);
    HitsWithout(HitFinder(p, userKey, name), ciphers, i, true);
    HitsWithout(HitFinder(p, userKey, name), ciphers, i, false);
    CountOne(hit);
  }

  lemma {:induction false} CountOne(hit: Hit)
    ensures Count([hit], true) == (if hit.shared then 1 else 0) && Count([hit], false) == (if hit.shared then 0 else 1)
  {
    assert [hit][1..] == [];
  }

  lemma {:induction false} FirstHit(f: EncryptedCipher -> seq<Hit>, ciphers: seq<EncryptedCipher>, shared: bool)
    returns (i: nat)
    requires forall c :: |f(c)| <= 1
    requires Count(FlatMap(f, ciphers), shared) > 0
    ensures i < |ciphers| && |f(ciphers[i])| == 1 && f(ciphers[i])[0].shared == shared
  {
    CountAppend(f(ciphers[0]), FlatMap(f, ciphers[1..]), shared);
    if |f(ciphers[0])| == 1 && f(ciphers[0])[0].shared == shared {
      i := 0;
    } else {
      i := FirstHit(f, ciphers[1..], shared);
      i := i + 1;
    }
  }

  lemma {:induction false} HitsWithout(f: EncryptedCipher -> seq<Hit>, ciphers: seq<EncryptedCipher>, i: nat, kind: bool)
    requires i < |ciphers|
    ensures Count(FlatMap(f, ciphers), kind)
         == Count(f(ciphers[i]), kind) + Count(FlatMap(f, ciphers[..i] + ciphers[i + 1..]), kind)
  {
    var front, middle, back := FlatMap(f, ciphers[..i]), f(ciphers[i]), FlatMap(f, ciphers[i + 1..]);
    FlatMapSplit(f, ciphers, i);
    FlatMapAppend(f, ciphers[..i], ciphers[i + 1..]);
    CountAppend(front + middle, back, kind);
    CountAppend(front, middle, kind);
    CountAppend(front, back, kind);
  }

  /** The hits of three items in front come first. */
  lemma {:induction false} ThreeHits(p: Primitives, userKey: Key, name: string,
                                     a: EncryptedCipher, b: EncryptedCipher, c: EncryptedCipher,
                                     rest: seq<EncryptedCipher>, x: Hit, y: Hit, z: Hit)
    requires HitOf(p, a, userKey, name) == [x] && HitOf(p, b, userKey, name) == [y] && HitOf(p, c, userKey, name) == [z]
    ensures Hits(p, [a, b, c] + rest, userKey, name) == [x, y, z] + Hits(p, rest, userKey, name)
  {
    var f := HitFinder(p, userKey, name);
    FlatMapAppend(f, [a, b, c], rest);
    FlatMapAppend(f, [a, b], [c]);
    FlatMapAppend(f, [a], [b]);
    FlatMapOne(f, a);
    FlatMapOne(f, b);
    FlatMapOne(f, c);
    assert [a] + [b] == [a, b] && [a, b] + [c] == [a, b, c];
    assert [x] + [y] + [z] == [x, y, z];
  }

  /** Two personal hits and a shared one: two orders of the same vault, refused differently. */
  lemma ContestedOrders(p: Primitives, sync: SyncResponse, userKey: Key, name: string) returns (a: SyncResponse, b: SyncResponse)
    requires var hits := Hits(p, sync.ciphers, userKey, name); Count(hits, false) > 1 && Count(hits, true) > 0
    ensures multiset(a.ciphers) == multiset(b.ciphers) == multiset(sync.ciphers)
    ensures ByName(p, a, userKey, name) == Err(Api(AmbiguousCipherName))
    ensures ByName(p, b, userKey, name) == Err(Api(UnsupportedSharedItem))
  {
    var c0, x, rest0 := PullHit(p, sync.ciphers, userKey, name, false);
    var c1, y, rest1 := PullHit(p, rest0, userKey, name, false);
    var c2, z, rest2 := PullHit(p, rest1, userKey, name, true);
    a, b := SyncResponse([c0, c1, c2] + rest2), SyncResponse([c2, c0, c1] + rest2);
    ThreeInFront(sync.ciphers, c0, rest0, c1, rest1, c2, rest2);
    ThreeHits(p, userKey, name, c0, c1, c2, rest2, x, y, z);
    ThreeHits(p, userKey, name, c2, c0, c1, rest2, z, x, y);
  }

  /** Every order of the vault answers the name alike. */
  ghost predicate OrderIrrelevant(p: Primitives, sync: SyncResponse, userKey: Key, name: string) {
    forall other: SyncResponse ::
      multiset(other.ciphers) == multiset(sync.ciphers) ==> ByName(p, other, userKey, name) == ByName(p, sync, userKey, name)
  }

  /** The order of the vault is irrelevant exactly when at most one hit is personal, or none is shared. */
  lemma OrderIrrelevantExactly(p: Primitives, sync: SyncResponse, userKey: Key, name: string)
    ensures OrderIrrelevant(p, sync, userKey, name) <==>
      var hits := Hits(p, sync.ciphers, userKey, name);
      Count(hits, false) <= 1 || Count(hits, true) == 0
  {
    var hits := Hits(p, sync.ciphers, userKey, name);
    if Count(hits, false) <= 1 || Count(hits, true) == 0 {
      forall other: SyncResponse | multiset(other.ciphers) == multiset(sync.ciphers)
        ensures ByName(p, other, userKey, name) == ByName(p, sync, userKey, name)
      {
        FlatMapPermutation(HitFinder(p, userKey, name), sync.ciphers, other.ciphers);
        DecideSettled(hits, Hits(p, other.ciphers, userKey, name));
      }
    } else {
      var a, b := ContestedOrders(p, sync, userKey, name);
      assert ByName(p, a, userKey, name) != ByName(p, b, userKey, name);
    }
  }

  lemma SealedHit(p: Primitives, item: DecryptedCipher, userKey: Key, name: string, ivOf: Slot -> Block)
    requires item.name == Some(name)
    ensures HitOf(p, SealCipher(p, item, userKey, None, ivOf), userKey, name)
         == [Hit(item.organizationId.Some?, item)]
  {
    var c := SealCipher(p, item, userKey, None, ivOf);
    DecryptUndoesSeal(p, item, userKey, None, ivOf);
    DecryptKeepsIdentity(p, c, userKey);
  }

  lemma {:induction false} ContestedVault(p: Primitives, userKey: Key, name: string,
                                          x: EncryptedCipher, y: EncryptedCipher, z: EncryptedCipher,
                                          mine: Hit, other: Hit, theirs: Hit)
    requires HitOf(p, x, userKey, name) == [mine] && HitOf(p, y, userKey, name) == [other]
    requires HitOf(p, z, userKey, name) == [theirs]
    requires !mine.shared && !other.shared && theirs.shared
    ensures var hits := Hits(p, [x, y, z], userKey, name); Count(hits, false) == 2 && Count(hits, true) == 1
  {
    ThreeHits(p, userKey, name, x, y, z, [], mine, other, theirs);
    assert [x, y, z] + [] == [x, y, z];
    ThreeCounts(mine, other, theirs);
  }

  lemma {:induction false} ThreeCounts(mine: Hit, other: Hit, theirs: Hit)
    requires !mine.shared && !other.shared && theirs.shared
    ensures var hits := [mine, other, theirs] + []; Count(hits, false) == 2 && Count(hits, true) == 1
  {
    var hits := [mine, other, theirs] + [];
    assert hits[1..] == [other, theirs] && hits[1..][1..] == [theirs];
    assert Count([theirs], true) == 1;
    CountsAddUp(hits);
  }

  /** A vault with two personal items and a shared one of the same name, refused one way and, in another order, the other. */
  lemma RefusalFollowsOrder(p: Primitives, userKey: Key, ivOf: Slot -> Block)
    returns (a: SyncResponse, b: SyncResponse)
    ensures multiset(a.ciphers) == multiset(b.ciphers) && |multiset(a.ciphers)| == 3
    ensures ByName(p, a, userKey, "db") == Err(Api(AmbiguousCipherName))
    ensures ByName(p, b, userKey, "db") == Err(Api(UnsupportedSharedItem))
  {
    var mine := DecryptedCipher("1", 1, None, Some("db"), None, [], None, None);
    var other := DecryptedCipher("2", 1, None, Some("db"), None, [], None, None);
    var theirs := DecryptedCipher("3", 1, Some("org"), Some("db"), None, [], None, None);
    SealedHit(p, mine, userKey, "db", ivOf);
    SealedHit(p, other, userKey, "db", ivOf);
    SealedHit(p, theirs, userKey, "db", ivOf);
    a, b := RefusedBothWays(p, userKey, "db", SealCipher(p, mine, userKey, None, ivOf), SealCipher(p, other, userKey, None, ivOf),
                            SealCipher(p, theirs, userKey, None, ivOf), Hit(false, mine), Hit(false, other), Hit(true, theirs));
  }

  lemma RefusedBothWays(p: Primitives, userKey: Key, name: string,
                        x: EncryptedCipher, y: EncryptedCipher, z: EncryptedCipher, mine: Hit, other: Hit, theirs: Hit)
    returns (a: SyncResponse, b: SyncResponse)
    requires HitOf(p, x, userKey, name) == [mine] && HitOf(p, y, userKey, name) == [other]
    requires HitOf(p, z, userKey, name) == [theirs]
    requires !mine.shared && !other.shared && theirs.shared
    ensures multiset(a.ciphers) == multiset(b.ciphers) && |multiset(a.ciphers)| == 3
    ensures ByName(p, a, userKey, name) == Err(Api(AmbiguousCipherName))
    ensures ByName(p, b, userKey, name) == Err(Api(UnsupportedSharedItem))
  {
    ContestedVault(p, userKey, name, x, y, z, mine, other, theirs);
    a, b := ContestedOrders(p, SyncResponse([x, y, z]), userKey, name);
    assert |multiset([x, y, z])| == 3;
  }

  lemma {:induction false} FindByIdFinds(ciphers: seq<EncryptedCipher>, i: nat)
    requires i < |ciphers| && forall j :: 0 <= j < |ciphers| && j != i ==> ciphers[j].id != ciphers[i].id
    ensures FindById(ciphers, ciphers[i].id) == Some(ciphers[i])
  {
    if i > 0 {
      FindByIdFinds(ciphers[1..], i - 1);
    }
  }

  /** Where ids are unique, the id of an item found by name finds the same item. */
  lemma IdFindsWhatNameFound(p: Primitives, sync: SyncResponse, userKey: Key, name: string)
    requires forall i, j :: 0 <= i < j < |sync.ciphers| ==> sync.ciphers[i].id != sync.ciphers[j].id
    requires ByName(p, sync, userKey, name).Ok?
    ensures ResolveById(p, sync, userKey, ByName(p, sync, userKey, name).value.id) == ByName(p, sync, userKey, name)
  {
    var item := ByName(p, sync, userKey, name).value;
    var i := SoleProducer(HitFinder(p, userKey, name), sync.ciphers);
    DecryptKeepsIdentity(p, sync.ciphers[i], userKey);
    FindByIdFinds(sync.ciphers, i);
  }

  /** What either lookup returns is personal, so the second check for shared items never refuses. */
  lemma ResolvedIsPersonal(p: Primitives, sync: SyncResponse, userKey: Key, key: string)
    requires ResolveCipher(p, sync, userKey, key).Ok?
    ensures ResolveCipher(p, sync, userKey, key).value.organizationId.None?
  {
    match LookupFromKey(key).value {
      case Id(id) =>
        DecryptKeepsIdentity(p, FindById(sync.ciphers, id).value, userKey);
      case Name(name) =>
        var i := SoleProducer(HitFinder(p, userKey, name), sync.ciphers);
        DecryptKeepsIdentity(p, sync.ciphers[i], userKey);
    }
  }

  /** For a validated selector the answer is never a validation error, and never blames a missing sync. */
  lemma ValidatedSelectorsResolve(p: Primitives, sync: SyncResponse, userKey: Key, ref: RemoteRef, selector: BitwardenSelector)
    requires TryFrom(ref) == Ok(selector)
    ensures var r := Resolve(p, sync, userKey, selector);
            r.Err? ==> !r.error.Validation? && r.error != CipherFailure(BlankProperty)
                       && r.error != UnprefixedSelectorKey && r.error != Api(MissingCachedSync)
  {
    var found := ResolveCipher(p, sync, userKey, selector.key);
    DecryptFailuresAreCrypto(p, sync, userKey, selector.key);
    if found.Ok? {
      AcceptedIsUsable(ref, selector, found.value);
    }
    AcceptedIsUsable(ref, selector, DecryptedCipher("", 0, None, None, None, [], None, None));
  }

  lemma DecryptFailuresAreCrypto(p: Primitives, sync: SyncResponse, userKey: Key, key: string)
    requires LookupFromKey(key).Ok?
    ensures var r := ResolveCipher(p, sync, userKey, key);
            r.Err? ==> (r.error.CipherFailure? && r.error.cipherError.Crypto?)
                       || r.error == Api(CipherNotFound) || r.error == Api(AmbiguousCipherName)
                       || r.error == Api(UnsupportedSharedItem)
  {
  }
}
