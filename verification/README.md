# Latch wallet: codecs, signatures, passkey ceremonies and caches

This project models the server and browser code of a Stellar smart-account wallet and proves what it relies on:

- **Byte codecs.** ECDSA signatures from DER to 64 low-s bytes, base64url, three readers of a P-256 public key (CBOR map,
  fixed offsets, byte pattern) and the key data that is built from them.
- **What a wallet signs.** The XDR of contract values, of invocation trees with any nesting and of authorization entries,
  as a printer and a parser that are inverse in both directions; the authorization preimage and the digest; the delegated
  and the Phantom flow from build to submit, with entries as objects that are changed in place; and the signed text as the
  TypeScript gate and the Rust verifier contract check it.
- **Passkey ceremonies.** Users, sessions, challenges, credentials and accounts as tables; every request as a process that
  runs one database statement at a time. Properties hold over every interleaving, with crashes. The same requests are
  written as handlers of a class that change the tables in place, and the handlers are proved to do what the statements do
  when nothing runs in between.
- **Relying-party checks.** Which relying-party id and origin begin issues and what finish accepts.
- **Caches and searches.** The factory route's deployment cache over any number of server instances, the polling loops, and
  the search for the verifier's hash in diagnostic events.

SHA-256, address prediction and the outcome of signature checks are parameters: no property depends on which functions they
are, except that the laws on stored key data ask for an injective address function. The relying-party checks are parameters
of the request steps too, and `CeremonyOrigins` puts the modelled ones in their place.

## How the files fit together

`Bytes` holds numbers, hexadecimal text and small datatypes. `DerSignature`, `Base64Url` and `PublicKey` are the codecs.
`ScVals` and `Authorization` are the XDR layer, `MessageFormat`, `NonceLoop`, `SigningFlows` and `Diagnostics` the
transaction routes, `FactoryCache` the deployment routes. `Store` has the tables and their statements, `Ceremony` one
statement of a request, `ChallengeRuns` and `OwnershipRuns` the interleavings, `WholeRequests` and `RequestLaws` the
uninterrupted requests, `PasskeyServer` the handlers. `OriginChecks` has the relying-party checks, `OriginExamples` single
inputs for them, `CeremonyOrigins` what they mean for the interleavings. `KeyDataRuns` is about stored key data in the
interleavings, and `RunSteps`, `SplitRun` and `StaleRuns` build single long runs.

Several properties one would expect do not hold of the code as they stand. Each has its exact condition, and an input at
which it fails:

- The compact signature is right exactly when r is below 2^256 and s is at most the group order; the parser checks neither
  (`CompactExactlyWhen`, `CompactAboveOrder`).
- The attestation scan finds the key exactly when every encoded key in the object has the coordinates behind the first
  occurrence of the ten-byte prefix, which a credential id can hold (`FromAttestationExactlyWhen`, `FromAttestationMisled`).
- The nonce is a safe integer, as its comment says, but only four of its six bytes reach it, so that two keys share a nonce
  exactly when those agree (`NonceUsesFourBytes`, `TwoKeysOneNonce`).
- A sign-in challenge can be read exactly while no newer one is stored, anybody's: a later begin shuts out an earlier sign-in
  that has not read its challenge yet, until its own challenge has been used (`ReadsExactlyWhen`,
  `AuthenticatesExactlyWhen`, `ShadowLasts`, `ShadowedThenAccepted`).
- Credential and account keep one owner exactly as long as no registration's upsert goes through for a user who does not own
  the other row; two registrations of one passkey are enough to part them (`SplitsExactlyWhen`, `AgreeThroughoutExactlyWhen`,
  `OwnersCanSplit`).
- After any interleaving, crashes included, an account has the key data of its credential exactly when the credential has the
  key that the account's last upsert carried; a statement breaks that exactly when it is a registration's upsert, of a
  credential with an account or of an account, that carries another key than the credential has. A server that dies between
  the two upserts leaves key data stale (`KeyDataMatchesExactlyWhen`, `StalesExactlyWhen`, `CrashLeavesStaleKeyData`). A
  registration that nothing interrupts does so exactly when it changes the key of a passkey that has an account, and another
  account is for the new key and an id that decodes alike (`RegKeepsKeyDataExactlyWhen`, `SecondIdLeavesStaleKeyData`); with
  canonical ids that cannot be, and whether other ids can come is up to the verification library, which is not part of this
  model.
- The factory route salts the address of an Ed25519 key with the text of the key: two texts of one key, which differ in case,
  get the same address exactly when their hashes are the same (`SameEd25519AddressExactlyWhen`, `TwoTextsOneKey`).
- GET answers the same with a warm as with an empty cache exactly when it does not come upon an empty address, which POST
  caches when none could be read (`WarmGetIsColdGetExactlyWhen`, `UnreadableAddressIsCached`).
- A context that begin issues is accepted by finish, from its own origin, exactly when that origin is no extension's or is the
  plain origin of an allowlisted one (`IssuedContextAcceptedExactlyWhen`, `UnlistedExtensionIsRefused`). If the origin is no
  extension's, the issued relying-party id is expected exactly when it is trimmed and not empty; if it is an extension's,
  exactly when it is that extension's id in one of its two forms (`IssuedRpIdExpectedExactlyWhen`,
  `NamelessHostIsNotExpected`, `ListedExtensionExpectsItself`).

## Model

| member | source | states |
|---|---|---|
| Bytes.ToFromHex | app/api/transaction/submit/route.ts:78-134 | Text of lower-case digit pairs, which the gates ask for, is the hexadecimal text of the bytes it decodes to |
| DerSignature.ReadBig | lib/webauthn.ts:309-310 | Reading bytes through hexadecimal text as a big integer gives their big-endian number |
| DerSignature.Print32IsBigEndian | lib/webauthn.ts:318-319 | The detour toString(16), padStart, hex parse is the 32-byte big-endian form of every number that fits |
| DerSignature.ReadIntegers | lib/webauthn.ts:300-310 | The moving-offset parser reads the two numbers that the format places there, or throws |
| DerSignature.DerToCompact | lib/webauthn.ts:299-322 | The imperative conversion, with its reassigned s, computes the specification that the lemmas below are about |
| DerSignature.CompactExactlyWhen | lib/webauthn.ts:299-322 | On any parsable bytes the output is 64 bytes holding r and the low s exactly when r is below 2^256 and s at most the order |
| DerSignature.CompactAboveOrder | lib/webauthn.ts:312-321 | One above the order, s prints as -1 and 63 bytes come out |
| DerSignature.DerIntegerShape | lib/webauthn.ts:294-298 | A minimal INTEGER has 1 to 33 octets, the right value, no sign bit and no octet to spare |
| DerSignature.ParsePair | lib/webauthn.ts:300-310 | Any two non-empty INTEGERs are read back, minimal or not, whatever surrounds them |
| DerSignature.ParseDerEncode | lib/webauthn.ts:300-310 | The parser inverts DER encoding for all 256-bit pairs |
| DerSignature.CompactOfSignature | lib/webauthn.ts:309-321 | For every signature the result is r and s' in 32 bytes each, with s' the representative of s in the lower half |
| DerSignature.CompactEqualExactlyWhen | lib/webauthn.ts:309-321 | Two signatures have the same compact form exactly when r agrees and s agrees up to sign |
| DerSignature.CompactIdempotent | lib/webauthn.ts:299-322 | Encoding the output as DER and converting again returns the same bytes |
| Base64Url.DecodeEncode | lib/webauthn.ts:21-28 | Decoding undoes encoding for byte strings of every length; the text has no '+', '/' or '=' |
| Base64Url.EncodeDecode | lib/webauthn-server.ts:285-291 | Encoding undoes decoding exactly on canonical texts |
| Base64Url.DecodeInjective | lib/webauthn-server.ts:289-291 | Canonical texts that decode alike are the same text |
| Base64Url.Vectors | lib/webauthn.ts:21-28 | Padded text of one, four and five bytes as the standard gives it |
| Base64Url.UrlVector | lib/webauthn-server.ts:285-287 | The two URL-safe symbols, and no padding |
| Base64Url.KeyDataInjective | app/api/webauthn/registration/finish/route.ts:83-89 | Cutting key data at 65 recovers key and credential id, so equal key data means the same passkey |
| PublicKey.RoundTrip | lib/webauthn-server.ts:308 | The CBOR reader gives back every nested item that was written and stops at its end |
| PublicKey.LookupFindsLast | lib/webauthn-server.ts:310-314 | Of a repeated label the last value counts, and none is found exactly when no entry has the label |
| PublicKey.FromCoseOfMap | lib/webauthn-server.ts:307-326 | On any encoded map the reader answers exactly when labels -2 and -3 hold 32 bytes, and with those |
| PublicKey.CanonicalKeyIsCbor | lib/webauthn.ts:269-286 | The 77 bytes the browser paths expect are the CBOR encoding of an ES256 key |
| PublicKey.FromCoseCanonical | lib/webauthn-server.ts:307-326 | The CBOR reader gives 04, x, y for every canonical key |
| PublicKey.FromAuthDataCanonical | lib/webauthn.ts:262-275 | So does the fixed-offset path, for every credential id length and any extension data |
| PublicKey.FromAttestationShape | lib/webauthn.ts:278-287 | The scan returns 65 bytes exactly when 77 bytes follow the place it found |
| PublicKey.FromAttestationCanonical | lib/webauthn.ts:278-287 | The scan gives 04, x, y when nothing before the key looks like its start |
| PublicKey.FromAttestationExactlyWhen | lib/webauthn.ts:278-287 | On any attestation object, the scan gives every key the object holds exactly when all encoded keys in it have the coordinates behind the first occurrence of the prefix |
| PublicKey.FromAttestationMisled | lib/webauthn.ts:261-288 | A registration whose credential id is the prefix: the scan gives a wrong key where the other two readers give the right one |
| PublicKey.ExtractorsAgree | lib/webauthn.ts:234-291 | All three readers, and every way through extractPublicKey - raw key, imported key, authenticator data, attestation object, whatever the fields after the deciding one hold - agree on canonical keys |
| PublicKey.ExtractShape | lib/webauthn.ts:234-291 | Only the scan answers with anything but 65 bytes that start with 04; no answer exactly when no field gives one |
| PublicKey.SameKeyDataOnBothSides | app/api/webauthn/registration/finish/route.ts:83-89 | For one registration the browser's key data is the server's |
| ScVals.RoundTrip | lib/webauthn.ts:138-148 | Every nested contract value is read back from its XDR, whatever follows |
| ScVals.Sound | lib/soroban-auth-payload.ts:11 | The parser accepts nothing but encodings |
| ScVals.DecodeExactly | lib/soroban-auth-payload.ts:11 | What parses is exactly what prints, in both directions |
| ScVals.PrefixFree | lib/webauthn.ts:144-147 | No encoding is the beginning of another |
| ScVals.Injective | lib/webauthn.ts:159-211 | Two values have the same bytes exactly when they are the same value |
| ScVals.Aligned | lib/webauthn.ts:144-146 | Every encoding is a whole number of four-byte units |
| ScVals.RuleIdZeroBytes | app/api/transaction/build-delegated/route.ts:132 | The 20 bytes of the rule ids [0] |
| ScVals.LeafBytes | lib/webauthn.ts:159-211 | The bytes of one value of each kind that stands on its own |
| ScVals.MapBytes | lib/webauthn.ts:159-176 | The bytes of a map of one entry |
| Authorization.InvocationRoundTrip | lib/soroban-auth-payload.ts:11-18 | Every invocation tree is read back, whatever its nesting |
| Authorization.InvocationSound | lib/soroban-auth-payload.ts:11-18 | The tree parser accepts nothing but encodings |
| Authorization.InvocationPrefixFree | lib/soroban-auth-payload.ts:11-22 | No tree is encoded as the beginning of another |
| Authorization.InvocationAligned | lib/soroban-auth-payload.ts:11-22 | Every tree, whatever its nesting, is a whole number of four-byte units |
| Authorization.AuthExactly | lib/soroban-auth-payload.ts:11 | Entry bytes parse to an entry exactly when they are its encoding; so the clone through XDR is the entry |
| Authorization.AuthPrefixFree | lib/soroban-auth-payload.ts:11 | No entry is encoded as the beginning of another |
| Authorization.AuthAligned | lib/soroban-auth-payload.ts:11 | Every entry is a whole number of four-byte units |
| Authorization.PreimagePrefixFree | lib/soroban-auth-payload.ts:14-22 | No preimage is encoded as the beginning of another |
| Authorization.PreimageAligned | lib/soroban-auth-payload.ts:14-22 | Every preimage is a whole number of four-byte units |
| Authorization.PreimageInjective | lib/soroban-auth-payload.ts:14-22 | Two preimages have the same bytes exactly when all four fields agree |
| Authorization.EntryPreimageShape | lib/soroban-auth-payload.ts:11-21 | The preimage is taken from the entry itself, and source-account credentials have none |
| Authorization.SamePreimageExactlyWhen | lib/soroban-auth-payload.ts:12-22 | Two entries are signed alike exactly when network id, nonce, expiry ledger and invocation tree agree |
| Authorization.HashedPreimage | lib/soroban-auth-payload.ts:11-22 | What is hashed parses to the network id, the nonce, the expiry ledger and the whole tree of the entry, and to nothing else; source-account credentials, and only they, are an error |
| Authorization.PreimageEnvelope | lib/soroban-auth-payload.ts:14-16 | The envelope type, then the network id |
| Authorization.DigestInputInjective | lib/webauthn.ts:143-147 | The digest input determines the payload and the rule ids, for lists of any length |
| Authorization.HashedDigest | lib/webauthn.ts:138-148 | The digest is the hash of bytes whose first 32 are the hash of the preimage of the entry and whose rest parses to the vector of the rule ids |
| Authorization.SameDigestExactlyWhen | lib/webauthn.ts:138-148 | Unless the hash collides on these very bytes, two digests agree exactly when network id, nonce, expiry ledger, invocation tree and rule ids all do |
| Authorization.SignatureIsNotSigned | app/api/transaction/build-delegated/route.ts:127-137 | Setting the signature after hashing changes neither the preimage nor the digest; which bytes those are hashes of is stated by HashedDigest |
| SigningFlows.SigDataInjective | lib/webauthn.ts:152-176 | The passkey signature data determines authenticator data, client data and signature |
| SigningFlows.SigDataReads | lib/webauthn.ts:159-176 | A reader of the signature data finds authenticator data, client data and signature under their names, and nothing else |
| SigningFlows.AuthPayloadReads | lib/webauthn.ts:184-211 | A reader of the payload finds the rule ids, in order, and one signer with its data |
| SigningFlows.PasskeyPayloadReads | lib/webauthn.ts:159-211 | The payload names rules, verifier and key, and its signature data parse to the three parts |
| SigningFlows.PasskeyPayloadExactly | lib/webauthn.ts:104-211 | The bytes a passkey puts on an entry agree exactly when verifier, key data, authenticator data, client data, rules and r do and s does up to sign; the keys of both maps ascend |
| SigningFlows.AuthPayloadInjective | lib/webauthn.ts:184-211 | The payload bytes determine signer, signature data and rule ids |
| SigningFlows.AccountInitParamsInjective | app/api/smart-account/factory/route.ts:39-74 | The factory's parameters determine key data and salt, and the keys of both maps ascend |
| SigningFlows.AccountInitParamsRead | app/api/smart-account/factory/route.ts:39-74 | A reader of the parameters finds the salt, no threshold, and one external signer with the key data and the kind |
| SigningFlows.EntryObject.SetSignature | app/api/transaction/submit-delegated/route.ts:73-74 | The setter changes the signature and nothing else |
| SigningFlows.BuildDelegated | app/api/transaction/build-delegated/route.ts:106-197 | Changing the entry in place - expiry, digest, then signature - answers what the specification says, which DelegatedAgreement and BuildsExactlyWhen characterise |
| SigningFlows.BuildsExactlyWhen | app/api/transaction/build-delegated/route.ts:106-112 | An answer exactly for the bytes of an entry with address credentials, as long as the expiry fits |
| SigningFlows.SubmitDelegated | app/api/transaction/submit-delegated/route.ts:48-76 | Filling the signature into the parsed template gives the specified pair of entries |
| SigningFlows.AccountSignatureReads | app/api/transaction/submit-delegated/route.ts:60-74 | A reader of the signature finds one key and one signature under their names |
| SigningFlows.SubmitOfBuild | app/api/transaction/submit-delegated/route.ts:48-76 | What submit makes of build's answer, in terms of the simulated entry |
| SigningFlows.DelegatedAgreement | app/api/transaction/build-delegated/route.ts:110-188 | As submitted, the first entry is the simulated one but for an expiry 60 ledgers on and a payload that names the delegate under rule 0, and has the digest handed out; the second calls __check_auth of the smart account with that digest as its one argument and nothing below it, for the classic account, with the nonce, until the same ledger, and holds the given key and signature; the bytes to sign parse to its preimage and their hash is its payload; the keys of both signature maps ascend; exactly 64-byte signatures are accepted |
| SigningFlows.UnsignedEntryHasTemplatePreimage | lib/delegated-native-auth-entry.ts:12-51 | The library's unsigned entry calls the check with that digest, has its own credentials, and has the preimage of the route's template for the same nonce and expiry |
| SigningFlows.SubmitPhantom | app/api/transaction/submit/route.ts:64-161 | The route's gates and its in-place signature compute the specification, which PhantomAgreement and PhantomAcceptsExactly characterise |
| SigningFlows.PhantomAgreement | app/api/transaction/submit/route.ts:97-161 | Whatever is accepted: the signed text is that of the digest of the entry as submitted; its payload names rule 0 and, as the one signer, the verifier with the key of the request, whose data are the signature of the request, both byte for byte; nothing else in the entry changed |
| SigningFlows.PhantomAcceptsExactly | app/api/transaction/submit/route.ts:64-113 | A message is accepted for an entry exactly when it is the text of its digest |
| MessageFormat.GateExactly | app/api/transaction/submit/route.ts:64-113 | For each digest the gate lets exactly one text through |
| MessageFormat.GateFormatNamesOneDigest | app/api/transaction/submit/route.ts:72-106 | Each well-formed text is let through for exactly one digest |
| MessageFormat.HexEncode | latch-demo/contracts/ed25519-verifier/src/lib.rs:85-94 | The in-place loop stays in bounds, writes the digits and leaves the rest of the buffer |
| MessageFormat.HexBytesIsAsciiHex | latch-demo/contracts/ed25519-verifier/src/lib.rs:85-94 | Those digits are the text that TypeScript prints |
| MessageFormat.HexBytesInjective | latch-demo/contracts/ed25519-verifier/src/lib.rs:85-94 | Different bytes have different digits |
| MessageFormat.Verify | latch-demo/contracts/ed25519-verifier/src/lib.rs:38-80 | The contract succeeds exactly on a 32-byte key and payload, the one expected message and a valid signature |
| MessageFormat.GateAgreesWithContract | latch-demo/contracts/ed25519-verifier/src/lib.rs:46-74 | The two implementations accept the same texts for every digest |
| MessageFormat.ContractMessageNamesOnePayload | latch-demo/contracts/ed25519-verifier/src/lib.rs:66-74 | One message authorises one payload |
| NonceLoop.Step | lib/delegated-native-auth-entry.ts:25-27 | With 32-bit shift and or, one step shifts a byte in modulo 2^32, signed |
| NonceLoop.Nonce | lib/delegated-native-auth-entry.ts:22-27 | The loop's value is in the signed 32-bit range and congruent to the 48-bit number modulo 2^32 |
| NonceLoop.NonceUsesFourBytes | lib/delegated-native-auth-entry.ts:22-27 | Two keys get the same nonce exactly when bytes 2 to 5 agree |
| NonceLoop.TwoKeysOneNonce | lib/delegated-native-auth-entry.ts:22-27 | Two keys with one nonce |
| Diagnostics.Bytes32HexFromNative | app/api/transaction/submit/route.ts:207-226 | The recursion, which walks arrays twice, finds the first 32-byte leaf in preorder, and nothing exactly when there is none |
| Diagnostics.ExtractVerifierHash | app/api/transaction/submit/route.ts:195-255 | The answer is that leaf of the first verify call that has one; none exactly when no call has one |
| Diagnostics.TopicsOfAHit | app/api/transaction/submit/route.ts:240-246 | All three topics are needed, in any order and among others |
| Diagnostics.ReportedHashReadsBack | app/api/transaction/submit/route.ts:208-210 | What is reported decodes to the leaf and is never the empty text |
| FactoryCache.SettledExactly | app/api/smart-account/factory/route.ts:260-267 | The poll gives up exactly when all 30 answers are NOT_FOUND, and otherwise gives the first other answer |
| FactoryCache.DeployWebauthn | lib/smart-account-factory-webauthn.ts:115-177 | The address is always the predicted one; success exactly when it was there, or sending worked and no failure or other address came back within 30 polls |
| FactoryCache.PredictedFrom | lib/smart-account-factory-webauthn.ts:37-75 | Both predicted addresses are those of parameters in which a reader finds the key bytes, the hash of text and version as salt, and one signer of the right kind |
| MessageFormat.Utf8Widths | app/api/smart-account/factory/route.ts:32-36 | The bytes of a character of each width, as the text under the salt is hashed |
| FactoryCache.SameAddress | lib/smart-account-factory-webauthn.ts:37-75 | With an injective address function, predicted addresses agree exactly when key data do |
| FactoryCache.SameEd25519AddressExactlyWhen | app/api/smart-account/factory/route.ts:32-74 | For Ed25519 keys, exactly when key bytes and salts do, which for lower-case keys means the same key; a passkey never has the address of an Ed25519 key |
| FactoryCache.TwoTextsOneKey | app/api/smart-account/factory/route.ts:32-46 | Two texts of one key get one address exactly when the hashes of the texts are the same |
| FactoryCache.Instance.HandleGet | app/api/smart-account/factory/route.ts:78-153 | The handler gives the specified reply and leaves the specified map, which GetAnswersForTheLedger characterises |
| FactoryCache.Instance.HandlePost | app/api/smart-account/factory/route.ts:178-299 | So does POST, with its loop of at most 30 polls; PostAnswersForTheLedger characterises it |
| FactoryCache.ReportedExactlyWhen | app/api/smart-account/factory/route.ts:241-282 | On an honest chain the reported address is the predicted one exactly when one of two addresses could be read |
| FactoryCache.CachesAreTruthful | app/api/smart-account/factory/route.ts:25-26 | Over every run of any number of instances, each cached entry is for a key whose predicted address is deployed, and gives that address or none; none only after a deployment without a readable one |
| FactoryCache.GetAnswersForTheLedger | app/api/smart-account/factory/route.ts:78-153 | After any run of any number of instances, GET says deployed exactly when the predicted address is on the ledger, with that address or the cached empty one; when exactly it fails and how; an account it found is cached and nothing else changes |
| FactoryCache.PostAnswersForTheLedger | app/api/smart-account/factory/route.ts:178-299 | After any run, on an honest chain: when exactly POST answers from the map, creates or fails; what it answers is on the ledger, has the key's classic address and the predicted or the empty smart account, and is all that changes in the map |
| FactoryCache.CreatedIsReported | app/api/smart-account/factory/route.ts:192-282 | The transaction's address comes before the simulation's; what one POST created, the next POST and GET report |
| FactoryCache.WarmGetIsColdGetExactlyWhen | app/api/smart-account/factory/route.ts:95-145 | After any run GET answers with a warm cache what it answers with an empty one, exactly when it does not come upon a cached empty address |
| FactoryCache.GetIsLookUpThenStore | app/api/smart-account/factory/route.ts:136-145 | A whole GET is two steps of the run relation |
| FactoryCache.PostIsSettleThenStore | app/api/smart-account/factory/route.ts:260-282 | So is a whole POST |
| FactoryCache.UnsettledPostChangesNothing | app/api/smart-account/factory/route.ts:260-280 | A POST that saw no success leaves the map alone |
| FactoryCache.UnreadableAddressIsCached | app/api/smart-account/factory/route.ts:241-282 | With no readable address the empty one is cached and later reported as deployed |
| OriginChecks.AgreedExactly | lib/webauthn-server.ts:219-226 | The sources agree on an id exactly when each is silent or names it and one names it |
| OriginChecks.Push | lib/webauthn-server.ts:109-117 | One push adds the specified ids to the set |
| OriginChecks.ExpectedRpIds | lib/webauthn-server.ts:101-123 | The set grown by the pushes is the specified one |
| OriginChecks.HostBeforePath | lib/webauthn-server.ts:51-63 | The URL parser finds an extension id before any path, query or fragment |
| OriginChecks.HostWithPort | lib/webauthn-server.ts:51-63 | And before a port, exactly when that is below 65536 |
| OriginChecks.HostAfterUser | lib/webauthn-server.ts:51-63 | And after a user name |
| OriginChecks.PageNamesExtension | lib/webauthn-server.ts:51-63 | The address of any page of an extension, such as a referer, names the extension |
| OriginChecks.FirstHeaderWins | lib/webauthn-server.ts:68-74 | Where the first extension header is sent the second is not looked at, even if the first names no id |
| OriginChecks.AllowedExactly | lib/webauthn-server.ts:25-46 | The allowlist holds exactly the ids that the entries between the commas name, in any case |
| OriginChecks.QuotedEntry | lib/webauthn-server.ts:25-41 | White space and quotes of either kind around an entry are taken off |
| OriginChecks.UnevenQuotesStay | lib/webauthn-server.ts:24-32 | Quotes that differ stay, and leave no id |
| OriginChecks.NormalizedShape | lib/webauthn-server.ts:88-90 | What normalizes to the origin of an extension is that origin in any case, between white space, before slashes |
| OriginChecks.ShapeNormalizes | lib/webauthn-server.ts:88-90 | And all of these do |
| OriginChecks.NormalizedParsesExactlyWhen | lib/webauthn-server.ts:88-90 | An origin that normalizes to an extension's parses to that extension exactly when it is ASCII |
| OriginChecks.ExtensionExactlyWhen | lib/webauthn-server.ts:133-189 | Where an extension is named, finish succeeds exactly when it is allowlisted and the client's origin is its own; then all sources name it and both forms of the id are expected |
| OriginChecks.WebExactlyWhen | lib/webauthn-server.ts:191-202 | Where none is named, finish succeeds exactly when the client's origin is the issued one and not blank; it expects that origin, and of relying-party ids exactly the issued one, trimmed, with its other forms if it is an extension's, or localhost if it is blank |
| OriginChecks.BodyIdMatters | lib/webauthn-server.ts:147-160 | A body id that is no text or no id is an error, a blank one counts as none |
| OriginChecks.MixedSourcesAreRefused | lib/webauthn-server.ts:162-168 | Finish refuses a header and an origin that name different extensions |
| OriginChecks.IssuedContextAcceptedExactlyWhen | lib/webauthn-server.ts:191-202 | A context from begin, answered from its own origin, is accepted exactly when that origin is no extension's or is the plain origin of an allowlisted one; expected is then the issued origin with the issued relying-party id alone, or the extension's origin with both forms of its id |
| OriginChecks.BeginForExtension | lib/webauthn-server.ts:210-255 | Where a source names an extension, begin issues that allowlisted id and its origin or nothing |
| OriginChecks.BeginsForExactlyWhen | lib/webauthn-server.ts:210-255 | Begin issues the context of an extension exactly when it is allowlisted, every source that names one names it and one does; the referer counts only where the origin names none |
| OriginChecks.ConfiguredContext | lib/webauthn-server.ts:257-273 | A configured relying-party id and origin are issued, trimmed |
| OriginChecks.ForwardedContext | lib/webauthn-server.ts:257-273 | With nothing configured: the forwarded protocol, the host with its port in the origin, without it in the relying-party id |
| OriginChecks.ExtensionContextAccepted | lib/webauthn-server.ts:173-189 | Finish accepts every context begun for an extension and expects exactly the two forms of its id |
| OriginChecks.IssuedRpIdExpectedExactlyWhen | lib/webauthn-server.ts:101-123 | Where the issued origin is no extension's, the issued relying-party id is among the expected ones exactly when it is trimmed and not empty; where it is an extension's, exactly when it is one of that extension's two forms |
| OriginExamples.UnlistedExtensionIsRefused | lib/webauthn-server.ts:173-189 | With an unlisted extension's origin configured, begin issues a context that finish refuses from that origin |
| OriginExamples.PlainFinish | lib/webauthn-server.ts:191-202 | With nothing configured, finish expects http://localhost and the relying-party id localhost alone |
| OriginExamples.NamelessHostIsNotExpected | lib/webauthn-server.ts:257-273 | A host that is only a port gets an empty relying-party id, which finish does not expect |
| OriginExamples.KelvinOriginIsAccepted | lib/webauthn-server.ts:88-90 | An origin spelt with the Kelvin sign names no extension and normalizes to one, so that finish accepts it where the body names that extension |
| OriginExamples.ListedExtensionExpectsItself | lib/webauthn-server.ts:173-189 | With an allowlisted extension's origin configured, finish accepts the issued context and does not expect its relying-party id |
| CeremonyOrigins.AcceptedCameFrom | lib/webauthn-server.ts:133-203 | What finish accepts came from the issued origin, or from an allowlisted extension that all sources name |
| CeremonyOrigins.SuccessCameFromItsOrigin | app/api/webauthn/authentication/finish/route.ts:37-53 | In every interleaving, every success consumed a row whose relying-party id and origin begin had resolved, and came from that origin or an allowlisted extension |
| ChallengeRuns.ChallengesConserved | app/api/webauthn/authentication/finish/route.ts:129 | In every interleaving, with crashes and even with repeated ids, issued challenges are those consumed and those still stored, counted |
| ChallengeRuns.SuccessConsumedAnIssuedRow | app/api/webauthn/authentication/finish/route.ts:25-53 | Every success consumed a row that a begin of the same purpose issued with a resolved context, unexpired when the clock was read, accepted for the client's origin, and for a registration issued to the same user |
| ChallengeRuns.NoDoubleConsumption | app/api/webauthn/registration/finish/route.ts:185 | With fresh ids, no two successes consumed one challenge, it is gone afterwards, and the row deleted is the row that was read |
| OwnershipRuns.KeysHoldInEveryRun | prisma/schema.prisma:19-104 | Foreign keys and unique columns hold in every interleaving, also after a crash between the two upserts |
| OwnershipRuns.OwnersAgreeInExclusiveRuns | app/api/webauthn/registration/finish/route.ts:120-183 | Every account's credential exists with the same owner, if nothing runs between registration's owner check and its second upsert |
| OwnershipRuns.SplitsExactlyWhen | app/api/webauthn/registration/finish/route.ts:137-183 | From agreeing owners, a statement parts them exactly when it is a registration's upsert that goes through for a user who does not own the other row |
| OwnershipRuns.AgreeThroughoutExactlyWhen | app/api/webauthn/registration/finish/route.ts:120-183 | In any interleaving the owners agree all the way exactly when no such statement is taken |
| SplitRun.OwnersCanSplit | app/api/webauthn/registration/finish/route.ts:120-183 | A run from empty tables, with nothing configured and no transfer, that ends with different owners |
| OwnershipRuns.OnlyRegistrationWritesKeys | app/api/webauthn/authentication/finish/route.ts:91-127 | No statement but registration's two upserts creates or removes a credential or account, or changes more than owner and counter |
| OwnershipRuns.SessionOutcome | lib/session.ts:20-69 | A live session slides, with no other change, and gives its user; otherwise one user and one session are added, and that user owns nothing, unless an id is taken, when nothing changes |
| WholeRequests.AloneIsARun | app/api/webauthn/authentication/finish/route.ts:17-148 | A request that runs alone is one of the interleavings |
| WholeRequests.SessionAlone | lib/session.ts:20-69 | The session statements amount to one step |
| WholeRequests.BeginAlone | app/api/webauthn/authentication/begin/route.ts:30-79 | So do those of a begin |
| WholeRequests.AuthAlone | app/api/webauthn/authentication/finish/route.ts:27-141 | So do those of a sign-in: counter, transfer, list and deletion |
| WholeRequests.RegAlone | app/api/webauthn/registration/finish/route.ts:41-197 | So do those of a registration: check, two upserts and deletion |
| WholeRequests.ServeIsRunAlone | app/api/webauthn/registration/finish/route.ts:30-197 | Every request run statement by statement does what the whole request says |
| RequestLaws.ListedExactlyWhen | app/api/webauthn/authentication/finish/route.ts:97-127 | On any tables, a sign-in lists its account exactly when ownership was transferred or the account was the user's |
| RequestLaws.SignInListsItsAccount | app/api/webauthn/authentication/finish/route.ts:97-141 | After any sequence of requests, every successful sign-in lists the account it signed in to |
| RequestLaws.SignInOutcome | app/api/webauthn/authentication/finish/route.ts:27-141 | When exactly a sign-in succeeds; then the credential has the new owner and counter, the reply holds the account and exactly the accounts of the user, the challenge is gone and nothing else has changed; otherwise no challenge is consumed |
| RequestLaws.BeginOutcome | app/api/webauthn/authentication/begin/route.ts:16-79 | When exactly a begin issues; then the row is the user's, with the resolved context and five minutes to live, an authentication allows exactly the credentials of the user, and nothing else changes |
| RequestLaws.AuthenticatesExactlyWhen | app/api/webauthn/authentication/finish/route.ts:27-121 | On any tables, a sign-in with a challenge succeeds exactly when it is stored, for signing in, unexpired, accepted for the client's origin, and no newer one is stored, the assertion holds, and passkey and account are known |
| RequestLaws.ReadsExactlyWhen | app/api/webauthn/authentication/finish/route.ts:27-31 | In any interleaving a sign-in comes to hold a challenge exactly when no newer one is stored at that moment |
| RequestLaws.ShadowLasts | app/api/webauthn/authentication/finish/route.ts:27-129 | Through any sequence of requests in which no success uses the later sign-in challenge, none uses the earlier one, and both stay stored |
| RequestLaws.ShadowedThenAccepted | app/api/webauthn/authentication/finish/route.ts:27-129 | Two sign-ins: the first is refused while the second is stored, and accepted once the second has been used |
| RequestLaws.RejectedExactlyWhen | prisma/schema.prisma:70-77 | The uniqueness constraints turn an account away exactly when another one has the same key and an id that decodes alike |
| RequestLaws.RegKeepsKeyDataExactlyWhen | app/api/webauthn/registration/finish/route.ts:137-183 | A registration that nothing interrupts leaves stale key data exactly when it changes the key of a passkey that has an account and another account is for the new key and an id that decodes alike |
| KeyDataRuns.StalesExactlyWhen | app/api/webauthn/registration/finish/route.ts:137-183 | From right key data, a statement breaks it exactly when it is a registration's upsert that goes through and carries another key than the credential has, which for the credential's upsert asks for an account |
| KeyDataRuns.KeyDataThroughoutExactlyWhen | app/api/webauthn/registration/finish/route.ts:137-183 | In any interleaving from empty tables, key data is right all the way exactly when no such statement is taken |
| KeyDataRuns.KeyDataMatchesExactlyWhen | app/api/webauthn/registration/finish/route.ts:83-183 | After any interleaving, crashes included, an account's key data, salt and address are those of its credential exactly when the credential has the key that the account's last upsert carried |
| StaleRuns.CrashLeavesStaleKeyData | app/api/webauthn/registration/finish/route.ts:137-164 | A run from empty tables, with a canonical id and a server that dies between the two upserts, that ends with stale key data |
| StaleRuns.SecondIdLeavesStaleKeyData | app/api/webauthn/registration/finish/route.ts:137-183 | Whole requests from empty tables, with two ids that decode alike, the last of which leaves stale key data |
| RequestLaws.RegKeepsKeyed | app/api/webauthn/registration/finish/route.ts:83-183 | With canonical ids a registration keeps the key-data law and succeeds exactly when its checks pass |
| RequestLaws.KeyDataOverAllRequests | app/api/webauthn/registration/finish/route.ts:83-183 | Over every sequence of requests with canonical ids, stored key data, salt and address are those of the credential |
| RequestLaws.RegistrationOutcome | app/api/webauthn/registration/finish/route.ts:41-197 | After any such sequence a registration succeeds exactly when its checks pass; then both rows hold what came out of the attestation - owner, id bytes, both forms of the key, counter, key data, salt, address, whether deployed, an older row's creation time - the challenge is gone and nothing else has changed; otherwise nothing has |
| RequestLaws.RegistersExactlyWhen | app/api/webauthn/registration/finish/route.ts:41-135 | Those checks: the challenge is stored, for registering, the session user's, his newest, unexpired and accepted for the client's origin, the attestation holds, its key can be read, deployment went through, and the passkey is nobody else's |
| RequestLaws.TwoTextsOneId | lib/webauthn-server.ts:289-291 | Two texts, one of them canonical, can decode to one id |
| PasskeyServer.Server.GetOrCreateSession | lib/session.ts:20-69 | The handler leaves the specified tables and answers the specified user |
| PasskeyServer.Server.FindNewest | app/api/webauthn/registration/finish/route.ts:41-45 | Some newest matching row is always found, or none exactly when none matches |
| PasskeyServer.Server.Begin | app/api/webauthn/registration/begin/route.ts:17-72 | The handler does what its statements do alone |
| PasskeyServer.Server.SignIn | app/api/webauthn/authentication/finish/route.ts:91-109 | Counter update and transfer leave the specified tables |
| PasskeyServer.Server.AuthenticationFinish | app/api/webauthn/authentication/finish/route.ts:17-148 | The handler does what its statements do alone, for the newest row it found |
| PasskeyServer.Server.Enrol | app/api/webauthn/registration/finish/route.ts:83-183 | Key-data derivation and the two upserts leave the specified tables |
| PasskeyServer.Server.RegistrationFinish | app/api/webauthn/registration/finish/route.ts:30-204 | The handler does what its statements do alone, for the newest row it found |

## Left out

- The WebAuthn verification library: its outcome is an input, and so is the credential id it reports, which may be any text here.
- Cryptography: hashes, Ed25519 and P-256 checks, and the WebAuthn library's verification are parameters or inputs.
- extractPublicKey, path 1 beyond its shape test: what the browser's key import makes of an SPKI key is an input.
- RPC calls, Friendbot, Horizon, transaction assembly and fees: their outcomes are inputs, and the ledger is a growing set.
- Prisma's transport, cookies, CORS, JSON parsing and missing request fields.
- Interleaving inside one database operation: an upsert, and a transaction, is a single step.
- Columns that no branch reads: row ids of credentials and accounts, transports, device type, backup flag, creation times of users and credentials; and the order in which a sign-in lists accounts.
- The schema's optional challenge owner: both begin routes always set it, and so does the model.
- AccountSigner rows: no route modelled here writes them.
- PasskeyServer.Server.RegistrationFinish: prediction and deployment happen outside the tables, so whether they went through is an input and the address is the parameter of the model.
- ChallengeRuns.NoDoubleConsumption: asks that random ids never repeat; ChallengesConserved holds without that.
- RequestLaws.KeyDataOverAllRequests: asks for canonical ids and an injective address function; RejectedExactlyWhen and RegKeepsKeyDataExactlyWhen are the exact laws for other ids, KeyDataMatchesExactlyWhen that for all interleavings.
- OwnershipRuns.OwnersAgreeInExclusiveRuns: the two upserts are not in one transaction, so it does not hold without its condition; AgreeThroughoutExactlyWhen is the law for all interleavings.
- FactoryCache.CachesAreTruthful: speaks of the Ed25519 factory route on a chain that reports the addresses it predicts; the other account routes fall back to the prediction after 30 unanswered polls and key their caches differently.
- XDR arms that no route builds or reads here: other contract values, contract creation in an invocation, and limits on nesting depth.
- Base64 wrapping of XDR texts, and that Node's base64 reader stops at '=': the model passes over it as over other foreign characters.
- PublicKey.RoundTrip: the CBOR subset is integers, byte strings and maps in definite lengths; other items are refused by the model's reader.
- The verifier contract's sig_data container: the submit route sends a raw signature, the contract in this repository decodes a struct; only the signed text and the key are compared.
- On-chain account code (do_check_auth, context rules): not shown in this repository.
- OriginChecks: capital letters are lowered only where that can change a result, A to Z and the Kelvin sign.
- The counter contract, the pages, the Freighter and standalone passkey account routes, and scripts.
