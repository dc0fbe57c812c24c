# Contract register and audit trail: a Dafny model

This project models the core of a public-works contract management system.
Contracts and their audit trail are kept twice: once on a Hyperledger Fabric
ledger by a Go chaincode, and once in an in-memory simulator that the Node
server uses instead of the network. Around these two stores sit small pieces
of logic, each modelled and proved here:

- the server's helpers: pagination, contract timeline classification, input
  sanitising, contract numbers, day counts and audit payloads;
- the web client's status labels, its transaction-hash shortening, its
  contract-payload check and its event emitter;
- the route guard that sends visitors to the login page or to the dashboard;
- the system-settings handlers: typed values, export with encrypted values
  masked, all-or-nothing category update, and best-effort import.

Modules, one per source file plus shared ones:

- `Wrappers`: `Option`, `Result`, `Outcome`.
- `Decimal`: the decimal spelling of integers, as Go's `%d` and JavaScript's `String(n)` write them.
- `Json`: JSON values and a stored blob that may not parse.
- `KeyOrder`: the lexicographic order of a Fabric range scan.
- `Records`: the Go `Contract` and `AuditLog` records, their JSON encoding and decoding, the update merge and the audit key.
- `Chaincode`: the chaincode as a class `Ledger` over the world state (a map plus its keys in scan order).
- `JsValues`: JavaScript values with truthiness and `String()`.
- `BlockchainService`: the in-memory simulator as a class `Service` over two insertion-ordered maps and a connection flag.
- `BlockchainLib`: `formatTxHash`, `validateContractData` and the class `EventEmitter`.
- `Helpers`, `StatusUtils`, `RouteGuard` (the Next.js middleware) and `Settings`.

Behaviours of the code that a reader might not expect, modelled as written:

- `GetAllContracts` and `GetAuditLogs` abort the whole listing when one stored
  value does not decode. They do not skip that value.
- Import writes a value in the clear even when the setting is marked
  encrypted. Category update encrypts it. The `sealed` field of a stored
  setting records which of the two happened.
- Import stores the formatted text of `settingData.value || settingData`. An
  entry whose `value` is falsy (`false`, `""`, `null`, `0`) is therefore
  formatted as the whole entry object: a boolean setting gets `"true"`, a text
  setting gets `"[object Object]"`. The corrected reading, which takes the
  entry's `value` whenever it has one, appears only in the round-trip lemma
  under "## Findings".

Clocks, random transaction ids and block numbers come in as parameters. The
cipher is abstract: a stored setting keeps its plaintext plus a flag saying
whether the column holds it encrypted.

## Model

| member | source | states |
|---|---|---|
| Decimal.NatToStringRoundTrip | server/chaincode/contract-management.go:113 | Reading back the decimal spelling of a number gives the number: `%d` loses nothing |
| Decimal.IntToStringDigits | server/utils/helpers.js:50 | A non-negative integer is written with digits only, and they read back as it |
| Decimal.IntToStringInjective | server/chaincode/contract-management.go:113 | Two integers have the same `%d` spelling iff they are equal |
| Decimal.SignCharacter | server/chaincode/contract-management.go:118 | A spelled integer starts with `-` iff it is negative |
| KeyOrder.Insert | server/chaincode/contract-management.go:235 | Adding a key to an ascending key list keeps it ascending and adds exactly that key: the scan order of the world state |
| Records.ContractRoundTrip | server/chaincode/contract-management.go:17-30 | A marshalled `Contract` unmarshals to the same contract |
| Records.AuditLogRoundTrip | server/chaincode/contract-management.go:33-42 | A marshalled `AuditLog` unmarshals to the same entry |
| Records.StringItemsRoundTrip | server/chaincode/contract-management.go:29 | The `attachments` string list survives marshal and unmarshal |
| Records.ContractFromExactMembers | server/chaincode/contract-management.go:91 | JSON members that spell out every field decode to exactly that contract |
| Records.EncodedContractIdentity | server/chaincode/contract-management.go:18-21 | `id`, `title`, `contractor` and `value` read back from the encoding as the record's own values |
| Records.EncodedContractTerms | server/chaincode/contract-management.go:22-25 | `startDate`, `endDate`, `status` and `createdBy` read back from the encoding as the record's own values |
| Records.EncodedContractHistory | server/chaincode/contract-management.go:26-29 | `createdAt`, `updatedAt`, `description` and `attachments` read back from the encoding as the record's own values |
| Records.AuditEntryIsNoContract | server/chaincode/contract-management.go:249-255 | A stored audit entry decodes as a contract, but one with an empty title, so the contract listing skips it |
| Records.ContractIsNoAuditEntry | server/chaincode/contract-management.go:299-305 | A stored contract decodes as an audit entry, but one with an empty action, so the audit listing skips it |
| Records.MergeUpdates | server/chaincode/contract-management.go:156-180 | Each of the seven mutable fields takes the payload's value iff the payload has it with the right JSON type; id, creator, creation time and attachments never change; `updatedAt` becomes the tx seconds |
| Records.MergeWithoutUsableFields | server/chaincode/contract-management.go:156-180 | A payload with no usable field only moves `updatedAt` |
| Records.MergeIdempotent | server/chaincode/contract-management.go:156-180 | Applying the same payload twice at the same time equals applying it once |
| Records.MergeIgnoresOtherMembers | server/chaincode/contract-management.go:156-177 | Payload members outside the seven mutable fields have no effect |
| Records.AuditEntry | server/chaincode/contract-management.go:112-121 | The derived audit entry has key `audit-<id>-<seconds>`, the given action, and the contract as its entity |
| Records.AuditKeyDiffersFromSubject | server/chaincode/contract-management.go:113 | An audit key never equals the key of the contract it describes |
| Records.AuditKeySameSecond | server/chaincode/contract-management.go:196 | Two audit keys for one contract coincide iff the tx seconds are equal, so two writes in one second share one audit entry |
| Chaincode.StoredContractDecodable | server/chaincode/contract-management.go:100-106 | What the chaincode stores for a contract decodes under both record types |
| Chaincode.StoredAuditLogDecodable | server/chaincode/contract-management.go:275-280 | What the chaincode stores for an audit entry decodes under both record types |
| Chaincode.ScanContractsSucceeds | server/chaincode/contract-management.go:247-252 | The contract listing succeeds iff every scanned value decodes |
| Chaincode.ScanContractsExact | server/chaincode/contract-management.go:254-257 | A successful listing holds exactly the decoded values with non-empty id and title |
| Chaincode.ScanAuditLogsSucceeds | server/chaincode/contract-management.go:297-302 | The audit listing succeeds iff every scanned value decodes |
| Chaincode.ScanAuditLogsExact | server/chaincode/contract-management.go:305-310 | A successful audit listing holds exactly the decoded entries with non-empty id and action that pass the entity filter |
| Chaincode.ScanAuditLogsNarrows | server/chaincode/contract-management.go:307-309 | With a non-empty filter the listing is the unfiltered listing restricted to that entity, in scan order |
| Chaincode.ListingsSucceed | server/chaincode/contract-management.go:234-314 | On a world state the chaincode itself wrote, neither listing can fail |
| Chaincode.ApplyUpdates | server/chaincode/contract-management.go:156-180 | The field-by-field overwrite computes exactly the merge of the stored record with the payload |
| Chaincode.Ledger.PutState | server/chaincode/contract-management.go:106 | The host's write: binds a non-empty key to the value and keeps the scan order; the empty key is refused and nothing is written. The ledger never holds the empty key |
| Chaincode.Ledger.InitLedger | server/chaincode/contract-management.go:45-76 | Succeeds and writes the seed contract under its id, and no audit entry |
| Chaincode.Ledger.ContractExists | server/chaincode/contract-management.go:264-271 | True iff the key is bound, whatever kind of record it holds |
| Chaincode.Ledger.CreateAuditLog | server/chaincode/contract-management.go:274-281 | Writes the entry under a non-empty key, overwriting without a check; the empty key fails with the host's error and writes nothing |
| Chaincode.Ledger.CreateContract | server/chaincode/contract-management.go:79-129 | A bound key fails with "already exists" and writes nothing; an undecodable payload fails and writes nothing; a decodable payload for the empty id fails with "failed to put contract" and writes nothing; otherwise stores the payload with its id forced to the argument, plus one `CREATE_CONTRACT` audit entry by the payload's creator |
| Chaincode.Ledger.UpdateContract | server/chaincode/contract-management.go:132-212 | An unbound key fails with "does not exist"; an undecodable stored value or payload fails; all three write nothing; otherwise stores the merge and one `UPDATE_CONTRACT` audit entry by the stored creator |
| Chaincode.Ledger.GetContract | server/chaincode/contract-management.go:215-231 | The decoded record; "does not exist" for an unbound key; a decode error for an unreadable value |
| Chaincode.Ledger.GetAllContracts | server/chaincode/contract-management.go:234-261 | The scan loop computes the contract listing over the keys in scan order, aborting on the first undecodable value |
| Chaincode.Ledger.GetAuditLogs | server/chaincode/contract-management.go:284-314 | The scan loop computes the audit listing for the filter, aborting on the first undecodable value |
| BlockchainService.InsertionMap.Values | server/services/blockchainService.js:212 | `Array.from(map.values())`: one value per key, in key insertion order |
| BlockchainService.EmptyMapValid | server/services/blockchainService.js:24-25 | A new `Map` is well formed and lists nothing |
| BlockchainService.SetValid | server/services/blockchainService.js:85 | `map.set` binds the key, keeps every other key and keeps the map well formed |
| BlockchainService.SetExistingValid | server/services/blockchainService.js:148 | Setting a present key keeps the map well formed and its key order unchanged |
| BlockchainService.SetExistingValues | server/services/blockchainService.js:148 | Setting a present key replaces its value in place: same length, same order |
| BlockchainService.SetNewValues | server/services/blockchainService.js:85 | Setting a new key appends its value to the listing |
| BlockchainService.ValuesExact | server/services/blockchainService.js:212 | The listing holds exactly the stored values |
| BlockchainService.NewContractRecord | server/services/blockchainService.js:85-91 | The stored record has the payload's properties, with `txId`, `blockNumber`, `createdAt` and `updatedAt` overriding them |
| BlockchainService.UpdatedContractRecord | server/services/blockchainService.js:140-146 | Spread order: a property from the update wins over the stored one, and the tx stamps win over both |
| BlockchainService.EmptyUpdateKeepsData | server/services/blockchainService.js:140-146 | An empty update keeps every stored property except the three stamps |
| BlockchainService.AuditLogRecord | server/services/blockchainService.js:237-242 | The stored log has the payload's properties, with `txId`, `blockNumber` and `createdAt` set to the transaction's id, block number and timestamp and overriding them |
| BlockchainService.ContractAuditData | server/services/blockchainService.js:94-103 | The audit payload: id `audit-<id>-<millis>`, the action, entity type `CONTRACT`, the contract id as entity and the given user |
| BlockchainService.OfEntityExact | server/services/blockchainService.js:274 | The filter keeps exactly the logs whose `entityId` equals the argument, and never adds one |
| BlockchainService.AuditIdsCollide | server/services/blockchainService.js:95 | Two audit ids for one contract coincide iff the millisecond readings are equal |
| BlockchainService.Service.constructor | server/services/blockchainService.js:22-26 | Starts disconnected with both maps empty |
| BlockchainService.Service.Initialize | server/services/blockchainService.js:42-58 | Sets the connection flag and returns true; the maps are untouched |
| BlockchainService.Service.Disconnect | server/services/blockchainService.js:60-67 | Clears the connection flag; the maps are untouched |
| BlockchainService.Service.TestConnection | server/services/blockchainService.js:316-323 | Reports the connection flag |
| BlockchainService.Service.CreateAuditLog | server/services/blockchainService.js:222-257 | Disconnected: fails and changes nothing; otherwise stores the stamped log under the payload's id, replacing any log there |
| BlockchainService.Service.CreateContract | server/services/blockchainService.js:70-118 | Disconnected: fails and changes nothing; otherwise stores the stamped record under the payload's id without an existence check, and one `CREATE_CONTRACT` audit log by the payload's creator |
| BlockchainService.Service.UpdateContract | server/services/blockchainService.js:120-175 | Disconnected or unknown id: fails and changes nothing; otherwise stores the spread merge in place and one `UPDATE_CONTRACT` audit log by the stored creator |
| BlockchainService.Service.GetContract | server/services/blockchainService.js:177-199 | Disconnected: fails; otherwise the stored record, or null for an unknown id |
| BlockchainService.Service.GetAllContracts | server/services/blockchainService.js:201-219 | Disconnected: fails; otherwise every stored record in insertion order |
| BlockchainService.Service.GetAuditLogs | server/services/blockchainService.js:259-283 | Disconnected: fails; otherwise every log for a falsy id, else exactly the logs about that entity, in insertion order |
| BlockchainService.CreateOverwrites | server/services/blockchainService.js:85-91 | Creating an id that is already stored replaces the record: the listing keeps its length |
| BlockchainService.CreateThenGet | server/services/blockchainService.js:85-91 | A created record reads back under its id, with the creation stamps |
| BlockchainService.CreationLogFound | server/services/blockchainService.js:94-103 | The creation audit log is among the logs listed for the contract's id |
| BlockchainLib.FormatTxHash | lib/blockchain.ts:290-293 | At most 16 characters: unchanged; longer: first 8, `...`, last 8, length 19; never over 19. The simulator's own copy at server/services/blockchainService.js:331-334 is the same function |
| BlockchainLib.FormatTxHashIdempotent | lib/blockchain.ts:290-293 | Shortening a shortened hash changes nothing |
| BlockchainLib.FormatTxHashForgetsMiddle | lib/blockchain.ts:290-293 | Two long hashes shorten alike iff their first 8 and last 8 characters agree |
| BlockchainLib.ValidateContractData | lib/blockchain.ts:295-297 | True iff id, title, contractor and value are all truthy |
| BlockchainLib.ValidateTypedContractData | lib/blockchain.ts:295-297 | With string fields and a numeric value: true iff the three strings are non-empty and the value is not 0 |
| BlockchainLib.ValidateNeedsEveryField | lib/blockchain.ts:295-297 | A payload missing any of the four fields is rejected |
| BlockchainLib.IndexOf | lib/blockchain.ts:326 | The first position of the callback, or -1 iff it is absent |
| BlockchainLib.RemoveFirstCounts | lib/blockchain.ts:326-329 | `splice` removes exactly one registration of a present callback and leaves an absent one's list alone |
| BlockchainLib.RemoveFirstUndoesAppend | lib/blockchain.ts:316-329 | Removing a freshly added, previously absent callback restores the list |
| BlockchainLib.RemoveFirstKeepsOrder | lib/blockchain.ts:326-329 | What remains is the list with the first occurrence cut out, the others in order |
| BlockchainLib.EventEmitter.constructor | lib/blockchain.ts:313-314 | No listeners |
| BlockchainLib.EventEmitter.On | lib/blockchain.ts:316-321 | Appends the callback to the event's list, creating it if needed; other events untouched |
| BlockchainLib.EventEmitter.Off | lib/blockchain.ts:323-331 | Removes the first registration of the callback; unknown event or callback: nothing changes |
| BlockchainLib.EventEmitter.Emit | lib/blockchain.ts:333-338 | One call per registration, in registration order, each with the data; none for an unknown event |
| Helpers.CeilDiv | server/utils/helpers.js:38 | `Math.ceil(a / b)`: the least q with a ≤ q·b |
| Helpers.CeilDivUnique | server/utils/helpers.js:132 | The ceiling bounds determine the quotient |
| Helpers.CeilDivAtMost | server/utils/helpers.js:86 | A ceiling quotient is at most n iff the dividend is at most n·b |
| Helpers.DaysBetween | server/utils/helpers.js:34-39 | Never negative; the least whole number of days covering the gap |
| Helpers.DaysBetweenSymmetric | server/utils/helpers.js:34-39 | The order of the dates does not matter |
| Helpers.DaysBetweenZero | server/utils/helpers.js:34-39 | Zero iff the instants are equal |
| Helpers.PadStart | server/utils/helpers.js:49 | `padStart(width, "0")`: at least `width` long, ends with the input, zeros before it |
| Helpers.ContractNumberSequence | server/utils/helpers.js:49-50 | The number ends in `-` and a field of at least three digits that reads back as the (non-negative) sequence; below 1000 the field is exactly three wide |
| Helpers.ContractNumberHead | server/utils/helpers.js:48-50 | The number starts with the prefix (`HD` when omitted) and `-`, then the year (the current year when omitted) and `-`; a non-negative year reads back from its digits |
| Helpers.ContractNumberInjective | server/utils/helpers.js:48-50 | Under one prefix, distinct non-negative year and sequence pairs give distinct numbers |
| Helpers.ContractNumberDefaults | server/utils/helpers.js:48 | Omitting the prefix and the year gives the number for prefix `HD` and the current year |
| Helpers.ProgressMonotone | server/utils/helpers.js:110 | More progress never gives an earlier progress stage |
| Helpers.CalculateContractStatus | server/utils/helpers.js:81-112 | `daysRemaining` is the ceiling of the days left; a completed status forces `completed`/`none`; urgency always matches the timeline; the progress stage follows the 100/75/50 thresholds |
| Helpers.TimelineByTimeLeft | server/utils/helpers.js:94-103 | For a contract not completed: overdue iff now is past the end; else expiring soon iff at most 7 days remain; else approaching iff at most 30; else on track |
| Helpers.CompletedOnlyFromStatus | server/utils/helpers.js:91-93 | The `completed` timeline comes only from the `completed` status |
| Helpers.Trim | server/utils/helpers.js:121 | `trim()`: no longer than the input, no whitespace at either end |
| Helpers.TrimIsInfix | server/utils/helpers.js:121 | The trimmed string is one contiguous stretch of the input, and everything dropped before and after it is whitespace |
| Helpers.TrimOnlyDrops | server/utils/helpers.js:121 | Trimming only removes characters |
| Helpers.RemoveAngleBrackets | server/utils/helpers.js:121 | No `<` or `>` remains, nothing grows, and bracket-free text is unchanged |
| Helpers.RemoveAngleBracketsConcat | server/utils/helpers.js:121 | Removing brackets from a concatenation is removing them from each part: the other characters keep their order |
| Helpers.RemoveAngleBracketsChar | server/utils/helpers.js:121 | A single `<` or `>` disappears; any other single character stays |
| Helpers.RemoveAngleBracketsOnlyDrops | server/utils/helpers.js:121 | Only brackets are removed: every other character keeps its count |
| Helpers.SanitizeInput | server/utils/helpers.js:119-122 | Non-strings unchanged; strings come back with no brackets and no longer |
| Helpers.SanitizeOnlyDrops | server/utils/helpers.js:119-122 | Sanitising a string only removes characters |
| Helpers.SanitizeKeepsCleanText | server/utils/helpers.js:119-122 | Text without brackets or surrounding whitespace is unchanged |
| Helpers.SanitizeNotIdempotent | server/utils/helpers.js:121 | Trimming happens before bracket removal, so `"< a"` sanitises to `" a"`, which sanitises again to `"a"` |
| Helpers.GeneratePagination | server/utils/helpers.js:131-146 | `totalPages` is the ceiling of total/limit; `hasNext` iff page < totalPages; `hasPrev` iff page > 1; `nextPage` is page + 1 exactly when `hasNext`, `prevPage` is page - 1 exactly when `hasPrev` |
| Helpers.PaginationNeighbours | server/utils/helpers.js:132-144 | For every page: a next page iff items remain after it (page × limit < total), and then it is page + 1 and at most totalPages; a previous page iff page ≥ 2, and then it is page - 1 and at least 1 |
| Helpers.PaginationEmpty | server/utils/helpers.js:132-133 | No items: no pages and no next page |
| Helpers.ToUpper | server/utils/helpers.js:164 | Each ASCII letter upper-cased, everything else kept |
| Helpers.ToUpperIdempotent | server/utils/helpers.js:164 | The result has no lower-case ASCII letter, and upper-casing it again changes nothing |
| Helpers.CreateAuditLogData | server/utils/helpers.js:160-171 | The action upper-cased; old and new values recorded iff truthy, otherwise null |
| Helpers.AuditValuesRecorded | server/utils/helpers.js:165-166 | Any object, even an empty one, is recorded; null is not |
| StatusUtils.TranslateContractStatus | lib/status-utils.ts:2-14 | The Vietnamese label of each of the seven statuses, which differs from the status; any other status unchanged |
| StatusUtils.GetStatusBadgeColor | lib/status-utils.ts:17-29 | The fixed class string of each known status, `secondary` otherwise, never empty |
| StatusUtils.TablesShareKeys | lib/status-utils.ts:3-11 | Both tables cover exactly the seven statuses, so every labelled status has its own colour |
| StatusUtils.LabelsDistinct | lib/status-utils.ts:3-11 | Distinct statuses get distinct labels |
| StatusUtils.TranslateIdempotent | lib/status-utils.ts:13 | No label is itself a status, so translating twice equals translating once |
| RouteGuard.BearerStripped | middleware.ts:29 | `Bearer <t>` yields `t` |
| RouteGuard.SessionToken | middleware.ts:27-29 | A non-empty cookie wins; with neither cookie nor header there is no token |
| RouteGuard.HeaderTokenUsed | middleware.ts:27-29 | Without a usable cookie the bearer header's token is used, and it counts iff it is non-empty |
| RouteGuard.Guard | middleware.ts:25-54 | Redirects only to `/login` or `/`; redirects to `/login` with the path as `redirect` iff the path is protected and there is no token |
| RouteGuard.RoutesDisjoint | middleware.ts:5-39 | No path matches both a protected and a public route |
| RouteGuard.DashboardRedirect | middleware.ts:49-51 | The redirect to `/` fires iff the path is public and a token is present |
| RouteGuard.UnlistedPathsPass | middleware.ts:53 | A path under neither list always passes |
| RouteGuard.RedirectTargetPasses | middleware.ts:42-51 | Following a redirect with the same credentials passes: the guard never redirects twice |
| RouteGuard.SubpagesProtected | middleware.ts:32-34 | Every page below a protected route is protected |
| Settings.ParseSettingValue | server/routes/settings.js:74-93 | Any falsy value reads as null; a truthy value of a boolean setting reads as `true` exactly when it is `"true"` or `true`, otherwise `false`; other types keep the value |
| Settings.FormatSettingValue | server/routes/settings.js:96-113 | A boolean setting is stored as `"true"` exactly for a truthy value, else `"false"`; every other type but `json` and `array`, `number` included, stores `String(value)` |
| Settings.BooleanRoundTrip | server/routes/settings.js:79-80 | A boolean stored and read back is the same boolean |
| Settings.BooleanTextRoundTrip | server/routes/settings.js:102-103 | `"true"` and `"false"` survive a read and a write |
| Settings.BooleanTextNormalised | server/routes/settings.js:79-103 | Any stored text of a boolean setting, read and written back, becomes `"true"` exactly when it was `"true"`, and `"false"` otherwise |
| Settings.TextRoundTrip | server/routes/settings.js:75 | A non-empty string round-trips; the empty string comes back as null |
| Settings.ExportEntry | server/routes/settings.js:512-524 | An encrypted setting exports the placeholder; any other exports its parsed stored value; the data type and the description are copied from the row |
| Settings.ExportCovers | server/routes/settings.js:503-524 | The export has an entry for exactly the category and key pairs of the rows |
| Settings.ExportEntries | server/routes/settings.js:503-524 | With unique rows, each row's entry is its own export entry |
| Settings.ExportMasksEncrypted | server/routes/settings.js:513-515 | An encrypted setting is never exported with its value |
| Settings.Export | server/routes/settings.js:488-543 | The handler's loop groups every row under its category as its export entry; `exported_by` is the username, else the email; version `1.0` |
| Settings.Rewritten | server/routes/settings.js:300-316 | An updated row holds the formatted value, encrypted iff the setting is |
| Settings.MissingKeysExact | server/routes/settings.js:284-289 | The batch raises an error iff one of its keys is not in the category, and each error names such a key |
| Settings.WrittenEffect | server/routes/settings.js:284-333 | Writing a batch keeps the category's keys; each updated key holds its formatted value; other rows are unchanged |
| Settings.UpdateCategory | server/routes/settings.js:258-360 | Any unknown key: nothing changes and the errors are returned; otherwise every row is written and the parsed values are returned |
| Settings.UpdateRollsBack | server/routes/settings.js:335-342 | One unknown key anywhere in the batch is enough to roll the whole batch back |
| Settings.Imported | server/routes/settings.js:602-621 | An imported row holds the formatted text of `settingData.value \|\| settingData`, in the clear, with its type and encryption flag kept |
| Settings.ImportCategories | server/routes/settings.js:567-650 | Importing never makes a setting's type one the model leaves out; a `null` or `undefined` category resets its results and adds a warning |
| Settings.ImportSettingKeepsShape | server/routes/settings.js:587-621 | One imported entry changes only its own category and keeps that category's keys, types and encryption flags |
| Settings.ImportEntriesKeepsShape | server/routes/settings.js:585-637 | Importing a category's entries never adds or removes a key, never changes a type or encryption flag, and touches no other category |
| Settings.ImportEntriesWrites | server/routes/settings.js:587-637 | Every known, readable entry without the placeholder ends up stored as the formatted text of `settingData.value \|\| settingData`, in the clear |
| Settings.ImportEntriesKeeps | server/routes/settings.js:597-599 | A row no entry writes keeps its stored value, including a row whose entry carries the placeholder |
| Settings.ImportWarnsOnUnknownKey | server/routes/settings.js:589-593 | An unknown key adds a warning and nothing else; the import goes on |
| Settings.ImportWarnsOnUnreadableCategory | server/routes/settings.js:584-649 | A `null` category empties its result set, adds one category warning, writes nothing, and the import goes on |
| Settings.ImportSettings | server/routes/settings.js:546-671 | A missing or non-object `settings` fails and changes nothing; otherwise every category is imported in order, each entry as `settingData.value \|\| settingData`, an unreadable category only warns, and the result is always committed |
| Settings.ExportImportRoundTrip | server/routes/settings.js:513-518 | Under the corrected reading of line 602, a plain setting exported and imported stores the text it was exported from |
| Settings.ExportImportAsWritten | server/routes/settings.js:602-606 | As written, a plain setting exported and imported stores the text it was exported from exactly when it is not a boolean stored as `"false"` |
| Settings.ExportedSecretSkipped | server/routes/settings.js:597-599 | An exported encrypted setting is never written by the import |
| Settings.FalsyEntryValueFormatsEntry | server/routes/settings.js:602-606 | As written, an entry whose `value` is falsy is formatted as the whole entry object: `"true"` for a boolean setting, `"[object Object]"` otherwise |
| Settings.ExportedFalseImportsAsTrue | server/routes/settings.js:602 | As written, importing the export entry of a boolean stored as `"false"` stores `"true"`; the corrected reading would store `"false"` |

## Left out

- Store failures are not modelled: `GetState`, the range scan, the SQL statements and the connection never fail. `PutState` fails only on the empty key, which the host refuses.
- The chaincode's writes reach the world state as they are made. The host discards a failing transaction's writes; in the model no failure comes after a write, so the two agree.
- JavaScript values are integers, strings, booleans, `null`, `undefined` and plain objects. Fractions, `NaN`, the infinities and arrays are not modelled. So `String(1.5)` or `String([1, 2])` in the format's default branch, a `NaN` field being falsy in the contract validation, and the `attachments` arrays of the simulator's records are outside the model.
- Go JSON: numbers are integers, not `float64`; key matching is exact, not case-insensitive; duplicate keys and the nil/empty slice difference are not modelled. `json.Marshal` cannot fail here.
- JavaScript values are compared structurally. `===` on objects and `Map` keys compares identity; the model does not capture object identity.
- Time and randomness are parameters: transaction ids, block numbers, `Date.now()`, ISO timestamps and the chaincode's tx seconds. Two `new Date()` readings in one call are taken as one.
- `setTimeout` delays, `async` interleavings and logging are not modelled. Each operation runs to completion alone.
- `getNetworkStatus` and `generateTxId` in the simulator, and `generateContractId` in `lib/blockchain.ts`, are random and are not modelled.
- `formatCurrency`, `formatDate`, `isValidEmail` and `isValidPhone` in the helpers are not modelled. The first two use `Intl`; the last two are regular expressions.
- Helpers.CalculateContractStatus: dates are integer milliseconds, so invalid dates (`NaN`) are not modelled; progress is an integer.
- Helpers.DaysBetween: dates are integer milliseconds; invalid dates (`NaN`) are not modelled.
- Helpers.GeneratePagination requires a positive limit, because `Math.ceil(total / 0)` is `Infinity`. `parseInt` of the page and limit is taken as the identity.
- Helpers.ToUpper upper-cases ASCII letters only; JavaScript also maps other Unicode letters.
- Helpers.CreateAuditLogData keeps the old and new values as values; `JSON.stringify` is not modelled.
- BlockchainLib.EventEmitter.Emit returns the calls it makes instead of running them. Callbacks that throw, or that change the listeners during the emit, are not modelled.
- RouteGuard.Guard decides the redirect. Building URLs and the `config.matcher` of the middleware are not modelled.
- Settings.ParseSettingValue requires a data type other than `number`, `json` and `array`. Those branches need `Number()` and `JSON.parse`.
- Settings.FormatSettingValue requires a data type other than `json` and `array`. Those branches need `JSON.stringify`. Its `number` branch is `String(value)` and is modelled.
- Encryption and decryption of settings are not modelled. `logSettingChange` writes its own audit rows, which are not modelled either.
- Keys such as `__proto__`, inherited by the plain objects that hold the existing settings, are not modelled.
- StatusUtils.TranslateContractStatus does not model names inherited from `Object.prototype`, such as `constructor`, `toString` or `__proto__`. For these the source's lookup finds a truthy inherited member and returns it. The model returns the status unchanged, as it does for any other unknown status.
- StatusUtils.GetStatusBadgeColor does not model those inherited names either. For them the source returns the inherited member; the model returns `"secondary"`.
- BlockchainLib.FormatTxHash counts characters as code points. JavaScript's `length` and `slice` count UTF-16 code units, so the two differ for text outside the Basic Multilingual Plane. They agree on hexadecimal hashes.
- The other settings routes are not modelled: the listings (`GET /`, `GET /:category`), the audit listing and the reset route. The multi-category update (`PUT /`) is also left out; it applies the category update's rule to several categories at once.
- Settings.ImportSettings does not model the per-key `try`/`catch` beyond the unreadable-entry case: a thrown database error is a store failure, left out above.
- Settings.ImportSettings models the payload check as `None` for a missing or non-object `settings`. An array of settings is not distinguished from an object.
- Settings.ImportSettings takes each category as the entries `Object.entries` yields for it, or `None` for `null` and `undefined`, where it throws. The text of the category warning (`error.message`) is not modelled.
- Settings.Export models the export handler, which no request reaches as the router is set up. `GET /:category` (server/routes/settings.js:217) is registered before `GET /export` (line 488) and answers `GET /export` as the settings of a category named `export`, without passing the request on.

## Findings

| source | as written | input that shows it | evidently intended | confidence | as-written member | corrected member |
|---|---|---|---|---|---|---|
| server/routes/settings.js:602 | `settingData.value \|\| settingData` falls back to the whole entry object whenever `value` is falsy | an import file whose entry for a boolean setting is `{"value": false, ...}` (the shape the export handler writes for a stored `"false"`); the import formats the whole entry object, which is truthy, and stores `"true"` | take the entry's `value` whenever the entry has one, and the entry itself only when it is a bare value | high, not executed | Settings.ExportedFalseImportsAsTrue | Settings.ExportImportRoundTrip |
