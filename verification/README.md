# Verified model of the UBIRCH COSE client

A Dafny model of the signing service: it registers device identities in a database, matches them to
certificates, and issues canonical-CBOR `COSE_Sign1` objects. The proofs hold for every input, every
interleaving and every fault that the model's events and parameters express.

| file | models |
|---|---|
| `Prelude.dfy`, `ByteOrder.dfy` | shared types; byte orders and sorting |
| `Cbor.dfy`, `CborMaps.dfy` | the canonical CBOR that the encoder library writes, a strict decoder, Go maps with string keys |
| `Codecs.dfy` | hexadecimal, UUID text, standard base64 |
| `Crypto.dfy` | the cryptographic library as a record of functions with the laws in `Lawful` |
| `Cose.dfy`, `Requests.dfy` | signature structures, COSE objects, their verifier, and the two request routes |
| `Database.dfy`, `DatabaseManager.dfy` | rows, the identity table, transactions and the connection that changes them |
| `Registration.dfy` | interleaved `initIdentity` calls as a state machine, beside other programs that commit rows |
| `IdentityHandler.dfy` | `initIdentity` and `initIdentities` as methods, and why the former is a run of the machine |
| `Skids.dfy`, `Protocol.dfy` | certificate matching, the SKID lookup, the two caches |
| `Service.dfy` | request handling, and the whole service as a state machine with restarts |
| `ServiceMethods.dfy`, `ServiceRun.dfy` | why the methods that answer requests and load certificates are runs of the machine, and an example run |
| `JsonText.dfy`, `FileManager.dfy`, `CrashRecovery.dfy` | keystore text, keystore files with backup, crashes at every step |
| `LegacyFileManager.dfy`, `Migrator.dfy` | conversion of legacy keystores, migration into the database |

Faults, randomness, generated keys, certificate lists and parsed JSON enter as parameters or events.
Runs are arbitrary sequences of events; an event that is not enabled changes nothing.

Two results limit what the code guarantees:

- The key that the backend accepted last for a uid need not be the one that the call has committed.
  A call may submit its key after the database server has ended its transaction (a lost connection,
  say), when another call has already committed another key for the uid (`LateSubmitHappens`), or is
  just about to (`LateSubmitBeforeCommit`). These are the only cases: the agreement holds at every
  point of a run, and whichever commit comes next, if and only if no call submits a key for a uid
  under which another key is committed or about to be committed (`LateSubmitBreaksIff`,
  `AgreementHoldsIff`). It is enough that no call submits once its transaction has ended
  (`TimelyRunAgrees`).
- A crash in the window between the rename and the creation of the new keystore file loses the keys,
  unless there are none, and so does a torn write when the file that was moved to the backup was
  torn itself. `CrashSurvivedIff` gives the exact condition for every point of a persist and every
  state of the two files; `WindowLosesKeys` and `RecoveredMapIsLost` are the failing cases.

Where code and documentation differ the model follows the code: the kid is the 8-byte SKID
(main/cose_signer.go:98-104), all JSON values must be strings (main/cose_signer.go:249), the payload
of a hash request is the body as it was sent (main/services.go:131-133), and the JSON text `null`
is accepted and encoded as CBOR null, because it leaves a nil map.

## Model

| member | source | states |
|---|---|---|
| Cbor.HeadLayout | main/cose_signer.go:71-74 | the bytes of an item head for every major type and argument size, as section 2.1 of RFC 7049 prescribes |
| Cbor.DecodeEncode | main/cose_signer.go:218-227 | strict decoding of an encoded canonical value followed by any bytes gives back the value and those bytes |
| Cbor.EncodeDecode | main/cose_signer.go:71-74 | whatever the strict decoder accepts is the canonical encoding of the value it returns, followed by the rest |
| Cbor.DecodeIffEncoding | main/cose_signer.go:236-246 | decoding and canonical encoding are exact inverses, both directions |
| Cbor.PrefixFree | main/cose_signer.go:236-246 | two canonical encodings followed by anything agree only if the values and the remainders agree |
| ByteOrder.LexIff | main/cose_signer.go:71-74 | the order of byte strings: the first differing byte decides, or the end of the shorter string |
| ByteOrder.SortEnumeration | main/cose_signer.go:248-257 | sorting the keys in any iteration order gives a strictly increasing permutation of them |
| CborMaps.LengthFirstIsBytewise | main/cose_signer.go:71-74 | on text keys the length-first order of RFC 7049 is the bytewise order of the encoded keys, and the length-first order of the texts |
| CborMaps.TextMapCanonical | main/cose_signer.go:248-257 | a marshalled string map is canonical, so the strict decoder accepts it |
| CborMaps.MarshalIgnoresIterationOrder | main/cose_signer.go:248-257 | the encoding of a map does not depend on Go's iteration order |
| CborMaps.MarshalTextMapInjective | main/cose_signer.go:248-257 | two string maps have the same encoding if and only if they are equal |
| CborMaps.EncodesMapIff | main/cose_signer.go:248-257 | a byte string decodes strictly to a map of exactly the given text keys and text values if and only if it is what the encoder writes |
| CborMaps.OneEntryLayout | main/cose_signer.go:248-257 | the bytes of the empty map and of a map with one short entry |
| CborMaps.TwoEntriesLayout | main/cose_signer.go:248-257 | the bytes of a map with two short entries |
| Hex.DecodeDigitsIff | main/services.go:214-218 | a text decodes to given bytes exactly if it has two digits of the alphabet for every byte, small or capital, the high one first |
| Hex.EncodedDigits | main/file_manager.go:104-110 | the text of bytes, digit by digit in the small alphabet |
| Hex.UuidText | main/file_manager.go:104-110 | the text of a UUID, character by character |
| Hex.UuidStringInjective | main/file_manager.go:104-110 | different UUIDs have different texts |
| Base64.DecodeIff | main/services.go:219-224 | exactly which texts decode to given bytes: whole quads as encoded, unused bits before padding free, line breaks anywhere |
| Base64.EncodeLayout | main/protocol.go:202 | three bytes are written as the four base-64 digits of their 24-bit number; one or two last bytes are filled up with zeros and padded |
| Base64.UnusedBitsAreFree | main/services.go:219-224 | padded quads decode whatever their unused bits are |
| Base64.LineBreaksAreSkipped | main/services.go:219-224 | carriage returns and line feeds, and no other characters, are skipped wherever they stand |
| Base64.DecodeWithLineBreaks | main/services.go:219-224 | an encoding with line breaks put in anywhere still decodes to the same bytes |
| Base64.EncodeInjective | main/protocol.go:202 | base64 texts of different keys differ |
| Cose.ProtectedHeaderBytes | main/cose_signer.go:82-91 | the protected header is the three bytes A1 01 26 |
| Cose.SigStructureLayout | main/cose_signer.go:236-246 | the bytes to be signed, written out, as section 4.4 of RFC 8152 prescribes |
| Cose.CoseLayout | main/cose_signer.go:218-227 | the bytes of an issued object with an 8-byte kid and a 64-byte signature |
| Cose.DecodeCoseIff | main/cose_signer.go:218-227 | a recipient decodes a byte string to an object exactly if it is that object's encoding |
| Cose.ToBeSignedInjective | main/cose_signer.go:236-246 | different headers or payloads are never signed under the same bytes |
| Cose.SignedCoseVerifiesIff | main/cose_signer.go:118-130 | a signed object decodes to its four fields, and verifies exactly if its signature is good for the digest rebuilt from its payload |
| Requests.GetHashFromHashRequest | main/services.go:211-238 | the hash returned is the 32 bytes that the body represents in the announced format; an error means it represents no hash |
| Requests.HashFromBodyIff | main/services.go:211-238 | a body yields a hash exactly if it represents it |
| Requests.HashFormats | main/services.go:211-238 | binary, hex in either case and base64 with line breaks all yield the same hash |
| Requests.GetPayloadAndHashFromDataRequest | main/services.go:139-162 | which data requests are accepted; a JSON payload decodes to a map of exactly the text entries of the body, `null` becomes the byte F6, and the digest is that of the signature structure over the payload |
| Requests.PayloadAndHashIff | main/services.go:125-162 | for every request, exactly which payload and hash it asks for on the two routes, if any |
| Requests.GetPayloadAndHash | main/services.go:125-137 | the two routes; the payload of a hash request is the undecoded body |
| Requests.DataRouteVerifies | main/services.go:148-157 | the digest signed on the data route is the one every verifier rebuilds from the object, which therefore verifies, for payloads of every size |
| Requests.HashRouteRefinesDataRoute | README.md:99-108 | a client following the README's steps over the hash route ends up with exactly the object of the data route, and it verifies |
| Requests.UnrepairedReplyHashesOtherBytes | README.md:49-52 | without the original payload a verifier hashes other bytes than were signed |
| Identities.EncodeIdentityIff | main/protocol.go:125-144 | a row is made of a complete identity only: it holds the encrypted private key, the raw public key, and the uid and token as they are |
| Identities.DecodeRowIff | main/protocol.go:165-194 | a row is read by decrypting the private key and turning the public key into PEM; nothing may be empty |
| Identities.StoreThenLoad | main/protocol.go:125-144 | decoding a stored row gives back the identity, with matching keys |
| Database.InsertKeepsConsistent | main/database.go:40-46 | an insert never lets a uid stand twice among committed and pending rows |
| Database.SettleIs | main/database.go:133-149 | an insert waits exactly as long as another open transaction holds the uid and it is not committed, or until nothing moves any more |
| DatabaseAccess.DatabaseManager.StartTransaction | main/database.go:116-118 | a new transaction without rows, or an error without effect |
| DatabaseAccess.DatabaseManager.StoreNewIdentity | main/database.go:133-149 | an insert waits while another transaction holds the uid; then the row becomes pending exactly if the uid is neither committed nor pending anywhere; failure aborts the transaction |
| DatabaseAccess.DatabaseManager.CloseTransaction | main/database.go:120-131 | commit appends exactly the transaction's rows, rollback none |
| DatabaseAccess.DatabaseManager.GetIdentity | main/database.go:151-165 | returns the uid's row, and ErrNotExist only if there is none |
| DatabaseAccess.DatabaseManager.GetUuidForPublicKey | main/database.go:167-181 | returns the uid of some row with the key, and ErrNotExist only if there is none |
| Registration.CommittedRowsAreUniqueAcceptedAndFinal | main/identity_handler.go:96-115 | in all runs: at most one row per uid, never changed, and if a call committed it the backend had accepted its key by then |
| Registration.AgreementHoldsIff | main/identity_handler.go:96-115 | over whole runs: the key accepted last for every uid that a call committed is the committed one, at every point and after whichever commit comes next, if and only if every submission is harmless |
| Registration.TimelyRunAgrees | main/identity_handler.go:96-115 | in all runs without late submissions every submission is harmless, so the key accepted last is the committed one |
| Registration.NoOtherKeyAfterCommit | main/identity_handler.go:136-139 | in runs of harmless submissions the backend accepts no other key for a uid once a call has committed its row |
| Registration.NoKeyAfterCommit | main/identity_handler.go:136-139 | in runs without late submissions it accepts no further key at all for such a uid |
| Registration.LateSubmitBreaksIff | main/identity_handler.go:106-115 | a submission keeps the agreement, now and after whichever commit comes next, exactly if no call has committed or is about to commit another key for the uid |
| Registration.LateSubmitHappens | main/identity_handler.go:96-115 | a concrete run with a lost connection in which the backend's key is not the committed one |
| Registration.LateSubmitBeforeCommit | main/identity_handler.go:96-115 | a second such run: the late key comes between the other call's registration and its commit |
| IdentityHandling.IdentityHandler.InitIdentity | main/identity_handler.go:72-121 | table, transactions, backend log and result after the call under every combination of faults and whatever other transactions do while its insert waits; no transaction of its own stays open; an empty token or nil uid is refused |
| IdentityHandling.InitOutcome | main/identity_handler.go:72-121 | a call that reports success has committed the row and registered just its key; a call for a uid that has a row changes nothing |
| IdentityHandling.InitOutcomeIs | main/identity_handler.go:72-121 | exactly when a call inserts, submits, commits and succeeds, and which key and row those are |
| IdentityHandling.IdentityHandler.RegisterPublicKey | main/identity_handler.go:123-144 | the key belonging to the private key reaches the backend unless the requests cannot be made or it refuses |
| IdentityHandling.IdentityHandler.InitIdentities | main/identity_handler.go:43-70 | existing rows stay, new rows are for listed identities or were pending in other transactions, success gives every listed uid a row, and it succeeds without faults when no other transaction holds a listed uid |
| IdentityHandling.InitIdentityIsARun | main/identity_handler.go:72-121 | the method's effect is that of a call of the state machine that others interrupt only while its insert waits, from any state and under any faults |
| Skids.MatchesIff | main/protocol.go:309-346 | the store holds exactly the uids resolved by a certificate with an 8-byte kid, with the kid of the last such certificate |
| Skids.LookupAfterIs | main/protocol.go:284-309 | over all load histories the store is the last match result below the maximum of consecutive failures and empty from it on |
| Skids.LookupAfterLoads | main/protocol.go:284-309 | with n loads failed since the last good one, the counter is n and the store is the match result of that load if n is below the maximum, else empty |
| Caches.CachedAnswer | main/protocol.go:202-220 | a cached uid is one that the query could return for that very key |
| Caches.CachedAnswerUnique | main/protocol.go:202-220 | with distinct stored keys it is the only one |
| Caches.AnswersAreExplained | main/protocol.go:313-346 | looking up a certificate list through a cache that fills up meanwhile: every result is a uid with the key in its row, or there is no usable key, or no such row, or a fault |
| Caches.CachesSurviveCommits | main/protocol.go:146-163 | committing rows never invalidates a cache entry |
| ProtocolObject.Protocol.StartTransaction | main/protocol.go:108-119 | with retries: a fresh transaction or the decisive fault |
| ProtocolObject.Protocol.StoreNewIdentity | main/protocol.go:125-144 | inserts the row with encrypted private key and raw public key exactly if no attribute is empty, both conversions work and the uid is free once the insert no longer waits |
| ProtocolObject.Protocol.FetchIdentityFromStorage | main/protocol.go:165-194 | exactly which identity is returned: that of the uid's row, its private key decrypted and its public key as PEM; ErrNotExist exactly if a working database has no row |
| ProtocolObject.Protocol.GetIdentity | main/protocol.go:146-163 | every answer is the decoded committed row, only answers are cached, and a committed row is found |
| ProtocolObject.Protocol.GetUuidForPublicKey | main/protocol.go:196-220 | the uid of a committed row with the key, cached under the key's base64 text |
| ProtocolObject.Protocol.Exists | main/protocol.go:234-244 | true exactly if the table has a row for the uid |
| ProtocolObject.Protocol.LoadSKIDs | main/protocol.go:284-350 | what each certificate resolves to and why, and the cache, the store and the counter after the load |
| Signing.COSEService.Sign | main/cose_signer.go:95-116 | an object exactly if the uid has a SKID and signing works, with that SKID as kid |
| Signing.RespondIff | main/services.go:86-123 | for every lookup result, request and SKID: the signed object, with its payload and signature, or the status of the refusal, and exactly when each is answered |
| Signing.COSEService.HandleRequest | main/services.go:86-137 | in every case the answer in terms of the uid's row, the token, what the request asks for and the SKID: 404, 401, 400, 500 or the signed object |
| Service.IssuedObjectsVerify | main/cose_signer.go:95-130 | in every reachable state, with other programs committing rows and with restarts: an object issued for a registered uid, or one whose stored keys belong together, carries the kid of a certificate behind the SKID store read at signing, whose key verifies the signature and, for a registered uid, was accepted by the backend |
| ServiceMethods.HandleRequestIsARun | main/services.go:86-123 | the answer and the cache that the method's contract names are those of an uninterrupted request of the service machine, from any state and under any fault |
| ServiceMethods.LoadSKIDsIsARun | main/protocol.go:284-350 | every load that the method's contract allows is an uninterrupted load of the service machine, with the same cache, store and counter |
| ServiceRun.ObjectIsIssued | main/services.go:86-123 | a concrete run from an empty database to an issued object that the registered key verifies and no other key does, so the safety results are not vacuous |
| Service.LookupsAgree | main/protocol.go:146-163 | all lookups of a uid that succeed, at whatever times and across restarts, return the same identity |
| Service.CommittedIsFound | main/protocol.go:146-163 | a request arriving after the commit is never told that the uid is unknown |
| Service.LookupFailsOnlyOnFault | main/protocol.go:165-194 | a table lookup fails only when the database does or the row cannot be decoded; for registered uids only when the database does |
| Service.IdentityCacheRefinesTable | main/protocol.go:146-194 | in all runs a cached identity is the decoded committed row; that of a registered uid holds its own key pair |
| Service.UidCacheRefinesTable | main/protocol.go:196-232 | in all runs a cached uid has a committed row with the key it is cached under |
| Service.SkidStoreOverAllRuns | main/protocol.go:284-309 | between loads of every run the counter is the number of consecutive failures and the store is the last match result below the maximum, empty from it on |
| Service.ListBehindIs | main/protocol.go:284-346 | the list behind the store is that of the load which was the last to succeed, or none once too many have failed |
| Service.SkidStoreBacked | main/protocol.go:309-346 | at all times a stored kid is that of a certificate whose key stands in the uid's committed row |
| Service.LoadsResolveSoundly | main/protocol.go:309-346 | for every load, with rows committed meanwhile: a certificate yields a uid whose row has its key, unless it has no usable key, no row had the key when the load began, or the database failed |
| Service.LoadMatchesCertified | main/protocol.go:309-346 | so with distinct keys and no fault a uid gets a kid if a certificate with an 8-byte kid had its key when the load began, and in any load only if one has it by now |
| JsonText.PrintLayout | main/file_manager.go:152 | the printed text of maps with at most one entry |
| JsonText.PrintTwoLayout | main/file_manager.go:152 | the printed text of a map with two entries |
| JsonText.LinesLayout | main/file_manager.go:152 | every line of a printed map |
| JsonText.Marshal | main/file_manager.go:152 | the text does not depend on the order in which the keys are met |
| JsonText.ParsePrint | main/file_manager.go:131 | parsing a printed map gives the map back |
| JsonText.TrailingBytesFail | main/file_manager.go:131 | nothing but white space may follow a printed map |
| JsonText.StrictPrefixFails | main/file_manager.go:131-139 | no strict prefix of a printed map parses |
| Keystores.EntryIdText | main/file_manager.go:104-110 | the names of the two keys, character by character: the private key's is an underscore before the public key's |
| Keystores.EntryIdInjective | main/file_manager.go:104-110 | entry names of different uids or kinds differ |
| Keystores.OneMapIsTwo | main/file_manager.go:51-94 | after any sequence of sets each get returns the key set last for that uid and kind |
| Keystores.KeystoreLayout | main/file_manager.go:145-157 | the text of a keystore file with one private key |
| Keystores.ParseKeystoreText | main/file_manager.go:145-157 | a written keystore file reads back as the same keystore |
| Keystores.TornTextFails | main/file_manager.go:131-139 | every torn write of a keystore file is detected |
| BackedFile.LoadFile | main/file_manager.go:112-143 | the loaded map for every combination of missing, unreadable and unparsable files |
| BackedFile.LoadMainCases | main/file_manager.go:112-143 | what is loaded from a missing, unreadable, unparsable or good file, with a good, bad or missing backup |
| BackedFile.PersistFile | main/file_manager.go:145-157 | file and backup after every combination of a failed rename and a torn write |
| FileManagement.FileManager.LoadKeys | main/file_manager.go:96-98 | the keystore after loading, unchanged if loading fails |
| FileManagement.FileManager.SetKey | main/file_manager.go:87-94 | exactly one key changes, and a completed write can be loaded back |
| CrashRecovery.RestartRecovers | main/file_manager.go:112-157 | in every safe run a restart finds the map last completed or loaded, or the one whose writing was interrupted since |
| CrashRecovery.SpacedRunIsSafe | main/file_manager.go:112-157 | a run is safe if its renames work, no crash falls into the window, and a completed persist separates any two interrupted writes |
| CrashRecovery.CompletedPersistIsClean | main/file_manager.go:145-157 | a completed persist ends the interruption: its map is the only one a restart may find, and the next write may be interrupted again |
| CrashRecovery.PersistSteps | main/file_manager.go:145-157 | the steps of a persist lead through exactly the points at which a crash is considered |
| CrashRecovery.CrashSurvivedIff | main/file_manager.go:112-157 | for every state of the two files that loads, and every point of the next persist: exactly when a crash there is survived |
| CrashRecovery.WindowLosesKeys | main/file_manager.go:112-116 | between rename and creation a restart finds no keys although the backup holds all |
| CrashRecovery.TwoTornWritesFail | main/file_manager.go:131-157 | after two torn writes in a row loading fails whatever the backup held, because the rename has replaced it by the torn file |
| CrashRecovery.RecoveredMapIsLost | main/file_manager.go:131-157 | a map that a start still read from its backup is gone after one more torn write |
| LegacyKeystores.LegacyFileManager.PortLegacyKeystoreFile | main/legacy_file_manager.go:100-120 | a file without legacy entries is left alone, another is rewritten with its entries |
| LegacyKeystores.FieldIsTaken | main/legacy_file_manager.go:94-98 | of a legacy file just the entries under the field are taken, whatever other fields there are |
| LegacyKeystores.ParseLegacyText | main/legacy_file_manager.go:94-105 | the entries of a file with the field "Keystore" are those of the map under it |
| LegacyKeystores.LegacyFileIsPorted | main/legacy_file_manager.go:100-120 | such a file is rewritten as the map it holds and becomes the backup |
| LegacyKeystores.PortKeepsEntries | main/legacy_file_manager.go:100-120 | loading after a port gives the legacy entries |
| LegacyKeystores.PortIdempotentIff | main/legacy_file_manager.go:109-111 | a second port changes nothing exactly if no entry is named like the legacy field |
| LegacyKeystores.UuidNamesAreNotTheField | main/legacy_file_manager.go:96-98 | entries named by UUIDs never are |
| Migration.GetKeysFromFile | main/migrator.go:41-60 | succeeds exactly if the file loads and holds every uuid's text with and without underscore as names, and fills in the private and the public key filed under them |
| Migration.MigrateIdentities | main/migrator.go:62-103 | the table gains exactly all identities or nothing, and exactly when that happens, with inserts that wait for other transactions; an empty key or token is refused |
| Migration.UndisturbedMigration | main/migrator.go:62-103 | when no other transaction holds a listed uid, the migration succeeds exactly if nothing fails and the list is complete, distinct and new to the table |
| Migration.WorldMovesOn | main/migrator.go:62-103 | while inserts wait, other transactions commit nothing but rows they already held |

## Left out

- HTTP server, routing, health checks, metrics, audit log and shutdown: plumbing.
- Header and path texts: a request comes with its content type, transfer encoding, token and route already read.
- A request body that cannot be read, and the texts of error messages.
- TLS pinning and the requests for the certificate list: a load is a list or a failure.
- ECDSA, AES, SHA-256, PEM, X.509 and CSR contents: functions under the laws of `Lawful`.
- JSON request parsing: a request comes with its parsed string map; only the link to the body's bytes is missing.
- JSON text with escapes, non-ASCII characters, numbers, arrays or a top-level `null`; keys and values are those that need no escape. After a type error Go may have filled part of the destination, here it is unchanged.
- Non-ASCII case folding of field names in legacy files.
- UTF-8 validity of CBOR text strings, floats, indefinite lengths, and nil byte slices as payloads.
- Lengths are below 2^64; int wrap-around of the failure counter is not modelled.
- Contents of the `VARCHAR` limit and SQL text: an insert may fail for any reason.
- An insert for which the other transactions never give way: the call then counts as failed and its transaction as rolled back.
- Registration.NoKeyAfterCommit: submissions take effect when they are made; a backend that acts on a request after the call has given up is outside the model.
- CrashRecovery.RestartRecovers: disks keep what was written in order; lost or reordered sectors are outside the model.
- Goroutine scheduling inside one atomic access of a `sync.Map`, the mutexes and the database: each access is one event.
- The steps of other programs beside the service: they commit single rows with free uids; their open transactions appear only in the sequential methods.
- Service.IssuedObjectsVerify: a row that another program commits with keys that do not belong together is outside the claim, because nothing in the service checks them.
- The library type behind `EncryptedKeystore`, taken as a map of strings, its key encryption, and the background submission of CSRs, whose result is only logged.
