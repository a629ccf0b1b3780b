# Verification of the Bitwarden/Vaultwarden secrets provider

A Dafny 4.11 model of the provider behind the External Secrets webhook, and proofs about it. Run
`dafny verify dfyconfig.toml` in this directory.

The modules follow the program.

- **Vault cache** (`VaultCache`, `CacheTheorems`, `CachedClient`): any number of resolve tasks share the cached vault,
  its mutex, the refresh lock and the counters. The system is a step function with one transition per lock, await or
  atomic operation, a clock that only moves forward, fetches with arbitrary results, and cancellation at every await.
  A run is any sequence of such steps. The client is also given as a class with its mutable fields, and one call of it,
  disturbed at its waits by any run of other tasks, is shown to be a run of the step system.
- **Lookup and projection** (`Selector`, `Lookup`, `Extraction`): validation of a reference, lookup by id or by name,
  and the answer as one property or as a whole document.
- **Decryption** (`Bytes`, `Base64`, `Crypto`, `EncryptedStrings`, `Cipher`, `Keys`): UTF-8, base64, CBC chaining,
  padding, the `2.iv|data|mac` wire form, items with an optional wrapped key, and the unwrapping of the user key. The
  AES block function is a keyed permutation, HMAC a function to 32 bytes and HKDF expansion a function to 32 bytes,
  all three parameters of every theorem (`Crypto.Primitives`).
- **Policy and shutdown** (`PolicyFile`, `Policy`, `Lifecycle`, `ReloadTask`): the policy file format, evaluation and
  hot swap, the shutdown latch, and the reload task racing the signal. File contents and read failures are arbitrary
  at each evaluation.
- **Admission** (`Admission`): the resolve handler under concurrent requests, with permits, policy swaps, disconnects
  and the metric recorded at each exit.
- **Metrics** (`Metrics`, `Decimal`, `Exposition`, `ExpositionReader`, `MetricsPage`): histograms, the registry, the text
  printer, the page it prints, and a reader after the "Line format" section of the Prometheus text exposition format
  0.0.4.
- **End to end** (`EndToEnd`): handler, vault cache and reload task as one system, where a request that passes the policy
  becomes a task on the cache.
- `Wrappers`, `Text`, `Sequences` and `Census` hold what several modules share.

Some properties one might expect are false of the code; the model keeps the code, gives an input, and states exactly
when they hold.

- A document entry of a custom field and the property of its name can differ: property lookup takes the first field of a
  name, the document the last valued one, and property lookup trims the name and reserves some
  (`Extraction.CustomEntryAgreesExactly` and `PlainKeyAgreesExactly`; inputs in `DuplicateNamesDisagree` and
  `TrailingSpaceIsUnreachable`).
- A policy entry that starts with `#` does not survive being put at the start of a line
  (`PolicyFile.CommaJoinSurvives` and `NewlineJoinSurvives`; input in `HashEntryIsLost`).
- The refusal of a name can depend on the order of the vault (`Lookup.OrderIrrelevantExactly`; vault in
  `RefusalFollowsOrder`).
- An encrypted string has several accepted spellings of its header (`EncryptedStrings.HeaderSpellings`; inputs in
  `OddHeadersParse`).
- A webhook token can be accepted at startup and then authorize nobody (`Admission.StartupAcceptsExactly`; tokens in
  `AcceptedButUseless`).

## Model

| member | source | states |
|---|---|---|
| `VaultCache.FreshIffBeforeDeadline` | crates/bweso-bitwarden/src/api.rs:579-596 | a vault is fresh exactly before one deadline: fetch time plus TTL, or 30 s before the token expires, whichever is first; so freshness never returns once lost |
| `VaultCache.NewVaultIsFreshExactly` | crates/bweso-bitwarden/src/api.rs:566-596 | in terms of the login alone: a vault just built is fresh exactly with a positive TTL, before fetch time plus TTL, and, when the granted lifetime ends at a representable instant, before fetch time plus that lifetime minus 30 s |
| `VaultCache.FreshForExactly` | crates/bweso-bitwarden/src/api.rs:566-596 | so it is fresh exactly for min(TTL, granted lifetime - 30 s), a lifetime past the last instant not counting |
| `VaultCache.DeadlineIsFreshFor` | crates/bweso-bitwarden/src/api.rs:566-596 | with a positive TTL the deadline of a new vault is its fetch time plus min(TTL, granted lifetime - 30 s), read off the session that the login returned |
| `VaultCache.StepShape` | crates/bweso-bitwarden/src/api.rs:190-261 | every lock, await, counter and cancel step moves one task only, and takes and gives up the cache mutex and the refresh lock consistently with that task's position |
| `VaultCache.InvStep` | crates/bweso-bitwarden/src/api.rs:190-261 | each step of any task or of the environment keeps the system invariant: lock ownership, install history, what each task carries and may assume |
| `VaultCache.InvRun` | crates/bweso-bitwarden/src/api.rs:190-261 | the invariant holds after every run, whatever the interleaving, fetch results and cancellations |
| `CacheTheorems.AnswersAreDirectSyncs` | crates/bweso-bitwarden/src/api.rs:190-261 | every task that ends answers as a plain lookup on one installed vault, whose session and sync came from one fetch, fetched less than a TTL before the task started (with TTL 0: not before it started), or with the error that its own login or sync request returned in the run |
| `CacheTheorems.LookupFindsAVault` | crates/bweso-bitwarden/src/api.rs:196-197 | a task that reaches the lookup always finds a vault: `MissingCachedSync` is unreachable |
| `CacheTheorems.SingleFlight` | crates/bweso-bitwarden/src/api.rs:222-245 | at most one task is between taking and releasing the refresh lock, so at most one fetch is in flight |
| `CacheTheorems.CacheOnlyGetsNewer` | crates/bweso-bitwarden/src/api.rs:243-245 | only the holder of the refresh lock changes the cache, only by installing, and the fetch time never decreases |
| `CacheTheorems.SomeTaskCanMove` | crates/bweso-bitwarden/src/api.rs:190-254 | no deadlock: while a task is unfinished, some unfinished task has its next step enabled |
| `CacheTheorems.InstallsAreSpaced` | crates/bweso-bitwarden/src/api.rs:222-245 | consecutive installs are apart by at least min(TTL, lifetime - 30 s), with the lifetime that the login of the earlier one granted |
| `CacheTheorems.RefreshRateIsBounded` | crates/bweso-bitwarden/src/api.rs:216-246 | if every login grants a vault a gap g > 0 of freshness, any window W of time sees at most W / g + 1 installs |
| `CacheTheorems.CountersAreConserved` | crates/bweso-bitwarden/src/api.rs:216-246 | each `ensure` whose outcome is known is counted once, in the counter of its outcome; successes equal installs plus the at most one about to install plus those cancelled in that gap |
| `CacheTheorems.BurstFetchesOnce` | crates/bweso-bitwarden/src/api.rs:216-246 | calls that arrive on a stale cache and are all served, with a first fetch that stays fresh to the end, add one install, one success, and a hit for every other caller |
| `CachedClient.BitwardenApiClient.HasFreshCache` | crates/bweso-bitwarden/src/api.rs:248-254 | true exactly when a vault is present and its deadline has not passed |
| `CachedClient.BitwardenApiClient.EnsureFreshCachedSync` | crates/bweso-bitwarden/src/api.rs:216-246 | in place: cache, counters and result of one call, with whatever client it finds when it takes the refresh lock |
| `CachedClient.BitwardenApiClient.ResolveWithCachedSync` | crates/bweso-bitwarden/src/api.rs:190-214 | in place: the state and the answer of a whole call, with whatever client it finds at the lock and at the lookup |
| `CachedClient.UndisturbedCallIsARun` | crates/bweso-bitwarden/src/api.rs:190-261 | from a state with free locks, a call that nobody disturbs, with time passing between its checks, is a run of the step system with the same cache, counters and answer |
| `CachedClient.DisturbedEnsureIsARun` | crates/bweso-bitwarden/src/api.rs:216-246 | the same for `ensure` when any run of other tasks happens while the call waits for the refresh lock |
| `CachedClient.DisturbedLookUpIsARun` | crates/bweso-bitwarden/src/api.rs:194-214 | after any run of other tasks before the lookup, the call answers from the cache it finds |
| `CachedClient.DisturbedCallIsARun` | crates/bweso-bitwarden/src/api.rs:190-214 | both together: client and answer of the whole call, disturbed at both waits |
| `CachedClient.SecondCallerServesTheFirst` | crates/bweso-bitwarden/src/api.rs:222-226 | on a stale cache there is a run in which a second caller fetches while the first waits, and the first becomes a hit |
| `Lookup.ResolveByName` | crates/bweso-bitwarden/src/api.rs:296-318 | the early-exit loop returns what the first two matching items decide |
| `Lookup.NameResolvesExactly` | crates/bweso-bitwarden/src/api.rs:296-318 | a name resolves to an item exactly when one decryptable item carries it and that item is personal |
| `Lookup.NothingCarries` | crates/bweso-bitwarden/src/api.rs:296-318 | a name that no decryptable item carries is not found |
| `Lookup.OneCarries` | crates/bweso-bitwarden/src/api.rs:296-318 | the only item that carries the name decides: refused when shared, else the answer |
| `Lookup.TwoCarry` | crates/bweso-bitwarden/src/api.rs:296-318 | of several items that carry the name the first two decide: shared before ambiguous |
| `Lookup.NameLookupIgnoresOrder` | crates/bweso-bitwarden/src/api.rs:296-318 | permuting the vault changes neither success, nor the item, nor not-found |
| `Lookup.OrderIrrelevantExactly` | crates/bweso-bitwarden/src/api.rs:296-318 | every permutation of the vault answers a name alike exactly when at most one match is personal or none is shared |
| `Lookup.RefusalFollowsOrder` | crates/bweso-bitwarden/src/api.rs:301-314 | a sealed vault of three items that is refused as ambiguous and, in another order, as shared |
| `Lookup.NobodyHasId` | crates/bweso-bitwarden/src/api.rs:274-294 | an id that no item has is not found |
| `Lookup.IdDecides` | crates/bweso-bitwarden/src/api.rs:274-294 | the first item of the id decides: refused when shared, else decrypted, or its decryption error |
| `Lookup.IdFindsWhatNameFound` | crates/bweso-bitwarden/src/api.rs:274-318 | with unique ids, looking up the id of an item found by name gives the same item |
| `Lookup.ResolvedIsPersonal` | crates/bweso-bitwarden/src/api.rs:198-202 | whatever either lookup returns is personal, so the second shared-item check never refuses |
| `Lookup.ResolveMeans` | crates/bweso-bitwarden/src/api.rs:198-214 | whatever the lookup finds is answered for: with a property, exactly the keys `value` and the property, both with what the property extracts; without one, exactly the entries of the item; or the extraction error |
| `Lookup.SealedItemById` | crates/bweso-bitwarden/src/api.rs:190-294 | a sealed personal item asked for by its id gives the answer of the item itself |
| `Lookup.SealedItemByName` | crates/bweso-bitwarden/src/api.rs:190-318 | a sealed personal item that alone carries its name gives the same when asked for by name |
| `Lookup.ValidatedSelectorsResolve` | crates/bweso-bitwarden/src/api.rs:190-214 | for a validated selector the answer is never a validation, blank-property, unprefixed-key or missing-sync error |
| `Selector.AcceptedExactly` | crates/bweso-bitwarden/src/lib.rs:183-218 | which references validation accepts, and with which trimmed key and property (both directions) |
| `Selector.RejectedExactly` | crates/bweso-bitwarden/src/lib.rs:183-218 | which error the other references get: blank key, version, blank property, missing prefix, in this order |
| `Selector.AcceptedIsNormal` | crates/bweso-bitwarden/src/lib.rs:183-206 | an accepted selector is a fixed point of validation |
| `Selector.AcceptedIsUsable` | crates/bweso-bitwarden/src/api.rs:359-367 | an accepted selector always classifies as id or name with a non-blank value, and never yields `BlankProperty` |
| `Bytes.Utf8RoundTrip` | crates/bweso-bitwarden/src/crypto.rs:43-47 | bytes decode to a text exactly when they are its UTF-8 encoding (RFC 3629) |
| `Bytes.EncodeCharExactly` | crates/bweso-bitwarden/src/crypto.rs:43-54 | how many bytes a character takes, how the first one tells, and how its bits are spread (section 3 of RFC 3629) |
| `Base64.Base64RoundTrip` | crates/bweso-bitwarden/src/crypto.rs:281-285 | a text decodes exactly when it is the canonical encoding of the result (sections 3.5 and 4 of RFC 4648) |
| `Base64.AlphabetExactly` | crates/bweso-bitwarden/src/crypto.rs:281-285 | the symbols are those of table 1 of RFC 4648 |
| `Base64.GroupExactly` | crates/bweso-bitwarden/src/crypto.rs:281-285 | four symbols stand for three bytes exactly when both spell the same twenty-four bits |
| `Crypto.KeyRoundTrip` | crates/bweso-bitwarden/src/crypto.rs:191-210 | sixty-four bytes and nothing else are a key, and the two halves lose nothing |
| `Crypto.XorExactly` | crates/bweso-bitwarden/src/crypto.rs:66-71 | a bit of the exclusive or of two blocks is set exactly where theirs differ |
| `Crypto.CbcDecryptExactly` | crates/bweso-bitwarden/src/crypto.rs:66-71 | a bit of the plaintext is set exactly where the decrypted block differs from the ciphertext block before it, or from the IV in the first block |
| `Crypto.CbcDecryptOfEncrypt` | crates/bweso-bitwarden/src/crypto.rs:66-71 | CBC decryption undoes CBC encryption (section 6.2 of NIST SP 800-38A) |
| `Crypto.CbcEncryptOfDecrypt` | crates/bweso-bitwarden/src/crypto.rs:66-71 | CBC encryption undoes CBC decryption, so no two ciphertexts share a plaintext under one IV |
| `Crypto.PaddingRoundTrip` | crates/bweso-bitwarden/src/crypto.rs:66-71 | whole blocks unpad to some bytes exactly when they are those bytes padded (section 6.3 of RFC 5652) |
| `Crypto.UnpadFailsExactly` | crates/bweso-bitwarden/src/crypto.rs:66-71 | unpadding succeeds exactly when the last byte names a length of 1 to 16 and that many bytes at the end carry it, and takes them off |
| `Crypto.CbcDecryptInPlace` | crates/bweso-bitwarden/src/crypto.rs:66-71 | the buffer is decrypted where it lies, to the CBC plaintext of its old contents |
| `Crypto.DecryptBytes` | crates/bweso-bitwarden/src/crypto.rs:57-74 | MAC first, then decryption of a mutable copy, then unpadding, with the error of the first step that fails |
| `EncryptedStrings.FromStr` | crates/bweso-bitwarden/src/crypto.rs:77-126 | the step-by-step parser returns the specified result or error |
| `EncryptedStrings.PayloadExactly` | crates/bweso-bitwarden/src/crypto.rs:86-126 | a payload is accepted exactly when it is the canonical rendering of the result |
| `EncryptedStrings.ParseExactly` | crates/bweso-bitwarden/src/crypto.rs:80-126 | an input is accepted exactly when it is a header that means 2, a dot and the canonical payload |
| `EncryptedStrings.PrintParses` | crates/bweso-bitwarden/src/crypto.rs:80-126 | parsing a printed value returns it; every value of the type has a 16-byte IV, a 32-byte MAC and non-empty whole blocks |
| `EncryptedStrings.HeaderSpellings` | crates/bweso-bitwarden/src/crypto.rs:137-149 | the headers that mean 2 are `2` after any zeros and an optional plus sign, and no others |
| `EncryptedStrings.OddHeadersParse` | crates/bweso-bitwarden/src/crypto.rs:137-149 | `02.` and `+2.` in front of any canonical payload are accepted |
| `EncryptedStrings.ParseU8Exactly` | crates/bweso-bitwarden/src/crypto.rs:137-149 | a type is read exactly from a decimal numeral up to 255 with an optional plus sign |
| `EncryptedStrings.HeaderRejections` | crates/bweso-bitwarden/src/crypto.rs:80-149 | the error for a missing dot, a header that is no type, type 0 and every type other than 2 |
| `EncryptedStrings.PayloadRejections` | crates/bweso-bitwarden/src/crypto.rs:86-126 | the error of a payload: number of parts, then base64 from left to right, then the lengths of IV, MAC and data |
| `EncryptedStrings.DecryptExactly` | crates/bweso-bitwarden/src/crypto.rs:57-74 | decryption yields a plaintext exactly when the encrypted string is the sealing of that plaintext under the same IV |
| `EncryptedStrings.DecryptFailsExactly` | crates/bweso-bitwarden/src/crypto.rs:57-74 | a MAC mismatch is reported exactly when there is one, and a decryption failure exactly for a matching MAC over a badly padded plaintext |
| `EncryptedStrings.OpensExactly` | crates/bweso-bitwarden/src/crypto.rs:57-74 | a wire string opens to some bytes exactly when it spells data that is their padded encryption and the MAC of IV and data |
| `EncryptedStrings.DecryptIsFaithful` | crates/bweso-bitwarden/src/crypto.rs:57-74 | a successful decryption matched the MAC of IV and data, is 1 to 16 bytes shorter, and re-encrypts to the same data |
| `EncryptedStrings.MacInputIsUnambiguous` | crates/bweso-bitwarden/src/crypto.rs:287-303 | the MAC input determines IV and data |
| `EncryptedStrings.OpenSealed` | crates/bweso-bitwarden/src/crypto.rs:43-74 | opening undoes sealing, for bytes and for texts |
| `Cipher.DecryptOpensEveryString` | crates/bweso-bitwarden/src/cipher.rs:71-111 | decrypting an item opens each present string under the effective key, in order, keeps everything else, and fails with the first string's error |
| `Cipher.EffectiveKeyExactly` | crates/bweso-bitwarden/src/cipher.rs:71-111 | an item without a key uses the user key; one with a key uses exactly the 64 bytes it opens to, first half for encryption |
| `Cipher.BadItemKeyFails` | crates/bweso-bitwarden/src/cipher.rs:71-111 | an item whose own key does not unwrap is not decrypted under any other key |
| `Cipher.DecryptSucceedsExactly` | crates/bweso-bitwarden/src/cipher.rs:71-111 | an item decrypts exactly when its key unwraps and each present string opens under it |
| `Cipher.DecryptUndoesSeal` | crates/bweso-bitwarden/src/cipher.rs:71-111 | for every item, user key, optional item key and IVs: decrypting the sealed item returns the item |
| `Extraction.BuildSecretDocument` | crates/bweso-bitwarden/src/cipher.rs:317-353 | the inserting code builds the specified document |
| `Extraction.DocumentEntries` | crates/bweso-bitwarden/src/cipher.rs:317-353 | each key holds the last valued custom field of that name, else the conventional value |
| `Extraction.DocumentFailsExactly` | crates/bweso-bitwarden/src/cipher.rs:346-350 | extraction of the whole item fails exactly when no key has a value |
| `Extraction.InsertableExactly` | crates/bweso-bitwarden/src/cipher.rs:338-344 | a custom field enters the document exactly with a value and a name that is not blank |
| `Extraction.ConventionalSlots` | crates/bweso-bitwarden/src/cipher.rs:320-336 | the seven conventional keys by the slots of the item, and no others |
| `Extraction.ItemSlots` | crates/bweso-bitwarden/src/cipher.rs:245-247 | `name` and `notes` give the name and the notes, or say that they are missing |
| `Extraction.UsernameSlots` | crates/bweso-bitwarden/src/cipher.rs:248-255 | `username` and `login.username` give the user name of the login |
| `Extraction.PasswordSlots` | crates/bweso-bitwarden/src/cipher.rs:256-263 | `password` and `login.password` give its password |
| `Extraction.TotpSlots` | crates/bweso-bitwarden/src/cipher.rs:264-269 | `totp` and `login.totp` give its one-time secret |
| `Extraction.PrivateKeySlots` | crates/bweso-bitwarden/src/cipher.rs:270-277 | `privateKey`, `sshPrivateKey` and `sshKey.privateKey` give the private key of the SSH key |
| `Extraction.PublicKeySlots` | crates/bweso-bitwarden/src/cipher.rs:278-285 | `publicKey`, `sshPublicKey` and `sshKey.publicKey` give its public key |
| `Extraction.FingerprintSlots` | crates/bweso-bitwarden/src/cipher.rs:286-293 | `keyFingerprint` and `sshKey.keyFingerprint` give its fingerprint |
| `Extraction.ReservedExactly` | crates/bweso-bitwarden/src/cipher.rs:245-296 | those sixteen names and no others stand for fixed slots |
| `Extraction.RefusedProperties` | crates/bweso-bitwarden/src/cipher.rs:236-244 | whitespace around a property does not matter; a blank one and one that starts with `attachment.` or `attachments.` are refused, and no others |
| `Extraction.CustomSlots` | crates/bweso-bitwarden/src/cipher.rs:297-308 | every other property gives the first custom field of its name, less a `field.` or else a `custom.` in front, and says that it is missing otherwise |
| `Extraction.FieldPrefixReads` | crates/bweso-bitwarden/src/cipher.rs:297-308 | `field.<key>` reads the first custom field named by the key less its trailing whitespace |
| `Extraction.CustomEntryAgreesExactly` | crates/bweso-bitwarden/src/cipher.rs:236-353 | for any item, when a custom entry of the document equals `field.<key>`: exactly when the first field named by the end-trimmed key carries the value of the last valued field of that name |
| `Extraction.PlainKeyAgreesExactly` | crates/bweso-bitwarden/src/cipher.rs:236-353 | for any item, when a custom entry equals the property of its own key without a prefix, with attachments, reserved names, cut prefixes and blanks accounted for |
| `Extraction.PlainKeyIsProperty` | crates/bweso-bitwarden/src/cipher.rs:297-308 | with distinct names, a trimmed, unprefixed and unreserved key extracts its own entry exactly when it does not ask for an attachment |
| `Extraction.CustomEntryIsProperty` | crates/bweso-bitwarden/src/cipher.rs:236-353 | with distinct names the two agree exactly when the key has no trailing whitespace or the trimmed key's field has the same value |
| `Extraction.ConventionalEntryIsProperty` | crates/bweso-bitwarden/src/cipher.rs:236-353 | every other entry is what its own key extracts |
| `Extraction.DuplicateNamesDisagree` | crates/bweso-bitwarden/src/cipher.rs:304-343 | with a repeated field name the property is the first value and the document entry the last |
| `Extraction.TrailingSpaceIsUnreachable` | crates/bweso-bitwarden/src/cipher.rs:237-343 | a document entry whose name ends in a space cannot be asked for as a property |
| `Keys.AcceptedArgon2IsDerivable` | crates/bweso-bitwarden/src/keys.rs:50-84 | exactly the settings inside the bounds are accepted, and each of them survives the MiB-to-KiB step in 32 bits and the bounds of section 3.1 of RFC 9106 |
| `Keys.ValidatedExactly` | crates/bweso-bitwarden/src/keys.rs:50-84 | both kinds of settings are accepted exactly inside their bounds, and a refusal names a setting, its value and the bound it breaks |
| `Keys.StretchInBuffer` | crates/bweso-bitwarden/src/keys.rs:260-283 | the 64-byte buffer is filled half by half and cut into the stretched key, never failing |
| `Keys.UnwrapExactly` | crates/bweso-bitwarden/src/keys.rs:260-300 | a wrapped user key opens exactly when it is sealed with the `enc` expansion of the master key as encryption key and the `mac` expansion as authentication key; the user key is the bytes inside, first half for encryption |
| `Keys.UnwrapUndoesWrap` | crates/bweso-bitwarden/src/keys.rs:289-300 | unwrapping a user key undoes wrapping it under the stretched master key |
| `Keys.HierarchyRoundTrip` | crates/bweso-bitwarden/src/keys.rs:289-300 | from the master key over the user key and the item key down to every text, opening undoes sealing |
| `PolicyFile.ReadPolicyFile` | crates/vaultwarden-eso-provider/src/main.rs:439-468 | the loops over lines and pieces return the specified entries; the only failure is an unreadable file |
| `PolicyFile.ParseMeaning` | crates/vaultwarden-eso-provider/src/main.rs:450-467 | what a file holds, in order and with repetitions: of the lines whose first visible character is not `#`, the pieces between commas, each for what is left of it without surrounding whitespace |
| `PolicyFile.EntryExactly` | crates/vaultwarden-eso-provider/src/main.rs:450-467 | an entry is in the file exactly when it is non-empty and trimmed and, whitespace aside, a piece of a line that is no comment |
| `PolicyFile.CommentAddsNothing` | crates/vaultwarden-eso-provider/src/main.rs:452-456 | whitespace, then `#`, then anything on the line adds no entry |
| `PolicyFile.ParseConcatenates` | crates/vaultwarden-eso-provider/src/main.rs:450-467 | parsing two texts joined by a newline gives the entries of both, one after the other |
| `PolicyFile.ParseIsClean` | crates/vaultwarden-eso-provider/src/main.rs:450-467 | every entry is non-empty, trimmed and free of commas and newlines |
| `PolicyFile.CommaJoinSurvives` | crates/vaultwarden-eso-provider/src/main.rs:450-467 | a comma-joined list of clean entries reads back exactly when the first does not start with `#` |
| `PolicyFile.NewlineJoinKeeps` | crates/vaultwarden-eso-provider/src/main.rs:450-467 | a newline-joined list reads back as its entries that do not start with `#` |
| `PolicyFile.NewlineJoinSurvives` | crates/vaultwarden-eso-provider/src/main.rs:450-467 | so it survives exactly when no entry starts with `#` |
| `PolicyFile.HashEntryIsLost` | crates/vaultwarden-eso-provider/src/main.rs:450-467 | a concrete entry that starts with `#` comes out of one file and is lost in another |
| `PolicyFile.OneLineForm` | crates/vaultwarden-eso-provider/src/main.rs:450-467 | every file has an equivalent one-line form: a comma and its entries joined by commas |
| `Policy.NormalizePolicyEntries` | crates/vaultwarden-eso-provider/src/main.rs:420-429 | the loop trims each inline entry, and a blank one fails the lot |
| `Policy.StartupPolicyExactly` | crates/vaultwarden-eso-provider/src/main.rs:336-375 | startup accepts allow-all and nothing else, or readable sources without blank inline entries that list something; the inline entries are kept trimmed and in order; and which error stands for no mode, both modes and a blank entry |
| `Policy.EvaluateSources` | crates/vaultwarden-eso-provider/src/main.rs:291-315 | inline entries extended by each configured file, or the error |
| `Policy.SelectorPolicy.Reload` | crates/vaultwarden-eso-provider/src/main.rs:386-401 | in place: the rules served afterwards and what is reported |
| `Policy.EvaluateGrantsTheUnion` | crates/vaultwarden-eso-provider/src/main.rs:291-315 | evaluated rules allow a key exactly when an inline entry or a file entry grants it |
| `Policy.EvaluateFailsExactly` | crates/vaultwarden-eso-provider/src/main.rs:291-315 | evaluation fails exactly when a configured file is unreadable or nothing is listed anywhere, with the error for each |
| `Policy.EmptiedFilesNarrow` | crates/vaultwarden-eso-provider/src/main.rs:291-315 | whatever was served before, a reload that finds the configured files empty allows no key that was not allowed, and serves the inline entries alone when there are any |
| `Policy.ReloadKeepsOrReplaces` | crates/vaultwarden-eso-provider/src/main.rs:386-401 | a reload reports a change exactly when the rules change, and otherwise leaves every decision as it was |
| `Policy.PolicyOverRuns` | crates/vaultwarden-eso-provider/src/main.rs:336-401 | over any reloads the variant never changes, a served list is never empty, and the rules are those of the last good files |
| `Policy.InlineEntriesStayAllowed` | crates/vaultwarden-eso-provider/src/main.rs:291-295 | every inline key and prefix keeps granting for the life of the process |
| `Policy.DecisionsFollowLastGood` | crates/vaultwarden-eso-provider/src/main.rs:247-401 | at every moment a key is allowed exactly as the last successfully read files and the inline entries say |
| `Lifecycle.Lifecycle.MarkShuttingDown` | crates/vaultwarden-eso-provider/src/lifecycle.rs:28-33 | stores the flag and posts one permit, or hands it to the waiter |
| `Lifecycle.Lifecycle.PollShutdownRequested` | crates/vaultwarden-eso-provider/src/lifecycle.rs:41-48 | the first poll: done on the flag without touching the permit, else takes the permit or registers |
| `Lifecycle.NotificationSurvives` | crates/vaultwarden-eso-provider/src/lifecycle.rs:28-48 | a notification is never lost: before the poll, after it, or when the waiter it was handed to is dropped |
| `Lifecycle.PermitsDoNotPileUp` | crates/vaultwarden-eso-provider/src/lifecycle.rs:9-33 | any number of notifications nobody waited for let one poll through, and the next one waits |
| `ReloadTask.InvRun` | crates/vaultwarden-eso-provider/src/main.rs:489-530 | the invariant of the reload task over every interleaving of ticks, the signal and its own steps |
| `ReloadTask.NoLostWakeup` | crates/vaultwarden-eso-provider/src/main.rs:489-530 | once `mark_shutting_down` has completed, the task has an enabled step that brings it closer to its exit, until it has exited |
| `ReloadTask.ShutdownIsBounded` | crates/vaultwarden-eso-provider/src/main.rs:489-530 | from the flag store on, at most seven steps of the task remain, and each lowers the bound |
| `ReloadTask.ReloadsStopAtShutdown` | crates/vaultwarden-eso-provider/src/main.rs:496-505 | the task exits only on shutdown, and reloads at most once after the flag store |
| `ReloadTask.ReloadsWaitForTicks` | crates/vaultwarden-eso-provider/src/main.rs:489-505 | each reload waits for an interval of its own, so the files read at startup are not read again at once |
| `ReloadTask.TickReloads` | crates/vaultwarden-eso-provider/src/main.rs:489-530 | while nobody shuts down, a tick leads to one reload and one recorded outcome, and back to the top of the loop |
| `ReloadTask.ServedRulesAreLastGood` | crates/vaultwarden-eso-provider/src/main.rs:475-530 | throughout, the served rules are those of the last good evaluation |
| `ReloadTask.CountersTellOutcomes` | crates/vaultwarden-eso-provider/src/main.rs:506-528 | each outcome counter is the number of recorded reloads with that outcome |
| `Admission.AuthorizedExactly` | crates/vaultwarden-eso-provider/src/main.rs:727-749 | a header passes exactly when it is text of six letters spelling `bearer` in any case, one space and the token |
| `Admission.UsableExactly` | crates/vaultwarden-eso-provider/src/main.rs:727-749 | some request can be let in with a token exactly when the token is non-empty, has no blank at either end and is visible ASCII |
| `Admission.StartupAcceptsExactly` | crates/vaultwarden-eso-provider/src/main.rs:701-774 | which tokens startup accepts (a visible one from the flag, or from the file less the line ends at its end, without the opt-out), and which of those lock everybody out: exactly those with a blank at an end or a character outside visible ASCII |
| `Admission.OpenToAllExactly` | crates/vaultwarden-eso-provider/src/main.rs:701-749 | a request without a header is let in exactly when the opt-out is set and neither token source is; then startup succeeds and every request is let in |
| `Admission.StartupFailsExactly` | crates/vaultwarden-eso-provider/src/main.rs:701-774 | startup fails exactly on two token sources, a blank or unreadable one, a token with the opt-out, or neither; with the error for each |
| `Admission.AcceptedButUseless` | crates/vaultwarden-eso-provider/src/main.rs:701-774 | two tokens that startup accepts and nobody can use, one with a blank at its end and one outside ASCII |
| `Admission.StatusExactly` | crates/vaultwarden-eso-provider/src/main.rs:991-1040 | which errors are answered with 400, 404, 409, 422, 502 and 500 |
| `Admission.KindExactly` | crates/vaultwarden-eso-provider/src/main.rs:991-1040 | which kind each error is reported and counted as |
| `Admission.InvStep` | crates/vaultwarden-eso-provider/src/main.rs:862-942 | each step of any request or of the environment keeps permits, metrics and what every request has met consistent |
| `Admission.PermitsAreConserved` | crates/vaultwarden-eso-provider/src/main.rs:877-893 | available permits plus held ones equal the limit, and all are back when every request has ended or was dropped |
| `Admission.CapIsRespected` | crates/vaultwarden-eso-provider/src/main.rs:877-893 | no more provider calls in flight than the cap; a request is shed exactly when all permits are held |
| `Admission.NoCapNeverSheds` | crates/vaultwarden-eso-provider/src/main.rs:877-893 | without a cap no request is ever shed |
| `Admission.InputsAreTheirOwn` | crates/vaultwarden-eso-provider/src/main.rs:862-942 | requests do not mix: header, body and answer of each are those of its own events |
| `Admission.SwapTakesEffect` | crates/vaultwarden-eso-provider/src/main.rs:916-923 | a policy swap takes effect at once: a request not judged before it is judged by it or by a later one |
| `Admission.OnlyClearedCallsReachTheProvider` | crates/vaultwarden-eso-provider/src/main.rs:862-926 | a request calls the provider at most once, and only after auth success, admission, and one served snapshot, no older than its arrival, allowing its trimmed key |
| `Admission.RepliesAreSequential` | crates/vaultwarden-eso-provider/src/main.rs:862-942 | every reply is the one that the request's own inputs and one policy snapshot call for, whatever the interleaving |
| `Admission.MetricsAreConserved` | crates/vaultwarden-eso-provider/src/main.rs:862-942 | the counts over all labels add up to the requests recorded; dropped requests are never counted |
| `Admission.EachReplyIsCounted` | crates/vaultwarden-eso-provider/src/main.rs:862-942 | each label combination counts exactly the recorded requests whose reply had that status, outcome and error kind |
| `Admission.NoRequestIsStuck` | crates/vaultwarden-eso-provider/src/main.rs:862-942 | every unfinished request has a step of its own, and can be dropped at the awaits and nowhere else |
| `Metrics.HistogramValues.Observe` | crates/vaultwarden-eso-provider/src/metrics.rs:238-248 | in place: count, sum and every bucket whose bound is at or above the duration go up |
| `Metrics.HistogramMeaning` | crates/vaultwarden-eso-provider/src/metrics.rs:237-248 | after any observations: the count, the sum, and in each bucket the number of durations at or below its bound |
| `Metrics.BucketsAreCumulative` | crates/vaultwarden-eso-provider/src/metrics.rs:237-248 | buckets never decrease and never exceed the count |
| `Metrics.OrderDoesNotMatter` | crates/vaultwarden-eso-provider/src/metrics.rs:237-248 | the histogram depends only on the multiset of observations |
| `Metrics.AppMetrics.RecordResolveRequest` | crates/vaultwarden-eso-provider/src/metrics.rs:55-75 | in place: one entry is created if missing and observes the duration |
| `Metrics.RegistryMeaning` | crates/vaultwarden-eso-provider/src/metrics.rs:55-75 | each key's histogram is that of exactly the durations recorded under it |
| `Metrics.CountsAddUp` | crates/vaultwarden-eso-provider/src/metrics.rs:55-75 | the counts over all keys add up to the number of recordings |
| `Exposition.MetricText.AppendEscapedLabelValue` | crates/vaultwarden-eso-provider/src/metrics.rs:598-607 | appends the escaped value, character by character |
| `Exposition.MetricText.AppendLabeledMetric` | crates/vaultwarden-eso-provider/src/metrics.rs:578-596 | appends one sample line |
| `Exposition.MetricText.AppendHistogram` | crates/vaultwarden-eso-provider/src/metrics.rs:533-566 | appends the bucket lines, the `+Inf` line, the sum and the count |
| `ExpositionReader.UnescapeEscape` | crates/vaultwarden-eso-provider/src/metrics.rs:598-607 | a reader of an escaped value stops at the closing quote and nowhere before, and gets the value back |
| `ExpositionReader.EscapeIsInjective` | crates/vaultwarden-eso-provider/src/metrics.rs:598-607 | distinct label values are escaped differently |
| `ExpositionReader.EscapeHasNoNewline` | crates/vaultwarden-eso-provider/src/metrics.rs:598-607 | an escaped value holds no raw newline |
| `ExpositionReader.SampleRoundTrip` | crates/vaultwarden-eso-provider/src/metrics.rs:578-596 | with valid names, any label values and a value on one line, a printed sample reads back exactly when its value is one token |
| `ExpositionReader.DocumentRoundTrip` | crates/vaultwarden-eso-provider/src/metrics.rs:578-614 | reading a document of comments, labelled and plain lines gives back exactly the samples printed, in order |
| `ExpositionReader.HistogramReadsBack` | crates/vaultwarden-eso-provider/src/metrics.rs:533-566 | reading a printed histogram gives, for each bound, how many durations are at or below it, in `+Inf` and `_count` how many there are, and in `_sum` their sum within half a microsecond |
| `ExpositionReader.BoundTextIsExact` | crates/vaultwarden-eso-provider/src/metrics.rs:539-541 | the printed `le` bound is the bucket's bound in seconds, exactly |
| `ExpositionReader.BoundTexts` | crates/vaultwarden-eso-provider/src/metrics.rs:539-541 | the eleven `le` texts, from 0.005 to 10.000 |
| `ExpositionReader.SecondsTextExactly` | crates/vaultwarden-eso-provider/src/metrics.rs:533-566 | a printed duration is a decimal with six places within half a microsecond of it |
| `MetricsPage.PageText.RenderCacheMetrics` | crates/vaultwarden-eso-provider/src/metrics.rs:354-426 | appends the lines of the cache metrics |
| `MetricsPage.PageText.RenderPolicyMetrics` | crates/vaultwarden-eso-provider/src/metrics.rs:428-531 | appends the lines of the policy metrics, or none before a file-backed policy exists |
| `MetricsPage.PageText.Render` | crates/vaultwarden-eso-provider/src/metrics.rs:114-184 | prints the whole page, line by line |
| `MetricsPage.PageReadsBack` | crates/vaultwarden-eso-provider/src/metrics.rs:114-184 | reading the whole page gives back exactly the samples on it, whatever the labels of the requests |
| `MetricsPage.PageShows` | crates/vaultwarden-eso-provider/src/metrics.rs:114-531 | which counter or gauge a reader finds under each name and label set of the page, in which order, and which are left out |
| `EndToEnd.InvRun` | crates/vaultwarden-eso-provider/src/main.rs:862-942 | handler, vault cache and reload task together: the invariants of all three and the ties between them hold after every run; the handler reads the rules that the reload task has in force |
| `EndToEnd.NothingIsBlocked` | crates/vaultwarden-eso-provider/src/main.rs:862-942 | putting the systems together blocks no handler step |
| `EndToEnd.HangUpExactly` | crates/vaultwarden-eso-provider/src/main.rs:918-926 | during a call the client can go away exactly while the task on the cache waits for something |
| `EndToEnd.ReloadTakesEffect` | crates/vaultwarden-eso-provider/src/main.rs:386-401 | a request not yet judged is, if ever, judged by the rules in force now or by rules a later reload puts in force |
| `EndToEnd.EveryDocumentIsEarned` | crates/vaultwarden-eso-provider/src/main.rs:862-942 | every document that leaves with a 200 went to an authorized request; it holds exactly what the personal item found by its selector answers, in an installed vault less than a TTL old when the call began (with TTL 0: fetched after it began); and its key was granted by the inline entries or the last good files of the rules read after the request arrived |

## Left out

- CachedClient.BitwardenApiClient.EnsureFreshCachedSync: the instants, the fetch and what other calls leave at the refresh lock are parameters; hits that others count while this call fetches are not part of the contract, since the step system covers every interleaving.
- CachedClient.BitwardenApiClient.ResolveWithCachedSync: the same, with what other calls leave before the lookup.
- CacheTheorems.BurstFetchesOnce: stated for bursts in which no caller is cancelled; with cancellations `CountersAreConserved` gives the balance.
- ExpositionReader.DocumentRoundTrip: an unlabelled value must not start with an opening brace, which no number does; an empty label set is read although the program prints none.
- MetricsPage.PageReadsBack: the wording of the HELP lines is a parameter, one line for each metric; the registry maps are given by their entries in key order.
- Exposition.MetricText.AppendHistogram: durations are whole nanoseconds and the sum is printed to the nearest microsecond; the rounding of the 64-bit floating point sum is not modelled.
- Admission.AuthorizedExactly: the constant-time comparison is modelled as equality.
- Memory: the shared `Arc` and lock objects of the cache and of the handler are fields of a state value that steps replace; aliasing and memory ordering are not modelled, each atomic operation is one step.
- Counters are unbounded; wrap-around of 64-bit counters is not modelled.
- HTTP, TLS, JSON and the content-type check: a request body and a fetch are steps with an arbitrary result or error.
- AES, HMAC, HKDF, PBKDF2 and Argon2 themselves, and the lower-casing of the salt.
- Zeroization and redacted debug output.
- File metadata and the size limit: a file read shows arbitrary text or fails.
- Whether the reload task is started at all: a configured file and a non-zero interval.
- The recording of HTTP requests, policy gauges and last-success times, which follows the pattern of the resolve histogram; the page shows given values of them.
- A second call of `mark_shutting_down`.
- Endpoint parsing and URL building, health checks, command-line parsing, Helm charts and scripts.
