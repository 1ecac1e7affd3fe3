# Verified model of the fintech dashboard backend

The backend keeps its hard guarantees in a few small protocols over shared database rows and in a few
pieces of pure code those protocols rest on. This project states what they guarantee and proves it for every
input and every interleaving. `dafny verify dfyconfig.toml` checks the whole project.

## What is modelled

Services that change rows are classes whose methods make one database statement or transaction each. The
contract of such a method is the matching step of a transition function; calls hold the snapshots they read
earlier, so a run is any interleaving of the steps of any number of calls. The proof modules state invariants
of those transition functions and theorems over whole runs. Pure code is functions and lemmas, loops are
methods with invariants.

| files | subject |
|---|---|
| `Texts`, `Json`, `CanonicalJson`, `StableJson`, `JsonSpelling`, `Utf16`, `JsonColumn`, `JsValues` | UTF-16 texts, the JSON printer with a parser that undoes it, how its texts are spelled, key order, the stable text of the audit hash, what a JSON column gives back, JavaScript values with a `toJSON` |
| `RequestFingerprint`, `PostingFingerprint` | the canonical body of the idempotency contract, and of a posting request |
| `Uuid` | time-ordered ids: UUID version 7, section 5.7 of RFC 9562, with the dedicated counter of section 6.2, method 1 |
| `AuditChain`, `AuditRecords`, `AuditRuns`, `AuditForks`, `AuditTamper` | the hash-chained audit log: appending, what a row holds and hashes, linear chains and forks, re-verification, tamper evidence |
| `RefreshSessions`, `RefreshProofs` | refresh-token rotation with reuse detection, logout, resets |
| `Lockout` | failed logins, the lock, resets |
| `MfaLogin`, `MfaLoginProofs`, `MfaAttempts`, `MfaSteps`, `MfaFloor`, `LoginAfterReset` | second factors at login, password reset and MFA management: challenge, secret, replay floor, backup codes, session or stamp, the attempts counted. TOTP one-time use is section 5.2 of RFC 6238 |
| `ResetChallenge` | the password-reset challenge |
| `Throttler` | the Redis rate limiter as a timed state machine |
| `CustomerColumns`, `Customers` | what an update makes of the columns, versioned updates, the KYC lifecycle |
| `LedgerBook` | a double-entry book and what every balanced pair of entries keeps |
| `Posting`, `PostingProofs`, `PostingOutcomes`, `PostingReplays`, `PostingService` | posting a transaction: plans, the executor, when a request goes through and why not, idempotency keys |
| `SeedBook`, `SeedLedger`, `SeedChoices`, `SeedDoubles` | the ledger the seed script builds, what its formulas come to, its shares in binary doubles |
| `Notifications`, `NotificationTies` | the stitched page, rows of one instant |
| `Retention`, `RetentionRuns` | the retention prune, alone and among other traffic |
| `EnvelopeCodec` | the envelope byte format |

## Where the code and its own description disagree

The model follows the code. Each of these is a lemma with a concrete case and, beside it, the exact condition.

- Posting. The documentation promises that a retried request gets the stored response. A key posts at most once in
  every run (`PostingProofs.AtMostOncePerKey`), but two retries that both find a key stale can cost the response:
  the second reclaim deletes the first one's new claim, the loser of the UNIQUE key releases the completed row
  (`PostingReplays.TwoReclaimersLoseTheReplay`). `ReplayLostIff` names exactly the steps that do it; over a run the
  responses are always there if and only if no step is one of them (`AlwaysKeptIff`), and a retry is answered with
  its response if and only if it is there (`RetryReplayedIff`).
- Customer updates, versions. The transition check uses the row as read, the version check a later write. They are
  about the same row if and only if the client's version is not above the one read
  (`Customers.CheckedWhatItOverwrites`); a guessed next version commits REJECTED to VERIFIED
  (`FutureVersionSkipsReview`).
- Customer updates, columns. The request reads as a patch, but its address is written as a whole: a country alone
  clears the other three columns (`CustomerColumns.CountryAloneClears`). The columns a request does not name are kept
  if and only if it has no address or one that names, if only with null, every address column the row has a value in
  (`KeepsUnnamedIff`). The request type declares phone
  and date of birth nullable; a null phone ends in an unhandled error, a null date of birth stores 1 January 1970
  (`NullDateStoresEpoch`, `StoresNamedIff`).
- Audit chain. One linear chain needs every row appended after all others in `(created_at, id)`
  (`AuditForks.ChainIsLinearIff`). One process with a steady clock does that (`AuditRuns.ChainIsLinear`); a clock that
  steps back does not (`ClockStepBackForks`), nor do two processes within one millisecond
  (`AuditForks.TwoProcessesFork`).
- Audit entries. `record` hashes a context field holding `undefined`, as `null`, but does not store it, and hashes a
  date by its own keys, as `{}`, but stores its text; such a row would not re-verify (`AuditRuns.StoredTextIff`,
  `UndefinedFieldNotKept`, `DateFieldNotKept`). Its present callers pass neither.
- Request fingerprints. `result[key] = …` drops a field named `__proto__` and `sortValue` turns every date into `{}`,
  so the exported function does not tell all bodies apart (`RequestFingerprint.DocumentedContractIff`,
  `ProtoCollides`, `DatesCollide`). Its only caller passes eight fixed scalar fields, and of those it tells any two
  apart (`PostingFingerprint.OneTextPerRequest`).
- Ids never regress, up to the point where the logical clock leaves its 48 bits (`Uuid.NextGreaterIff`,
  `IdsIncreaseIff`); `LastMillisecondRegresses` is a run that gets there.
- Second factors. MFA management and the confirmation of an enrolment write the replay floor without comparing it.
  Accepted TOTP codes rise, each under its own secret, if and only if no write comes late: the row no longer holds the
  secret that was read, or its floor has reached the step (`MfaLoginProofs.RunInStepIff`). While they rise no code
  serves twice (`FactorUsedOnce`); a late write can be such a second use itself (`MfaFloor.StaleReadReplays`). A late
  write below the stored floor is exactly what puts used codes above it (`MfaFloor.CoveredIff`, `AlwaysCoveredIff`), and
  from there they serve again (`LoweringServesAgain`, `LoweredFloorReplays`). Even the compare-and-set of a login is
  late when the secret was replaced and the floor came back (`ReplacedSecretReplays`).
- Logins and resets. A reset revokes all sessions and challenges of its user, but a login that has consumed its
  challenge and not yet issued its session still gets a live one; exactly such a login does
  (`LoginAfterReset.SurvivesResetIff`).
- Rate limit. At the millisecond a block of the same length as `ttl` ends, Redis still keeps the old hit key, so a
  client that waits exactly the reported seconds can be blocked again (`Throttler.AfterBlock`, `BoundaryBlocksAgain`).
- Reset challenges. Closing a user's other challenges consumes rows that were never stamped
  (`ResetChallenge.UnstampedConsumeIff`, `ConsumedUnstamped`).
- Notification pages. The queries order by creation time alone, so rows of one instant may repeat across pages
  (`Notifications.TiesMayRepeatARow`). The list is fixed if and only if no two matching rows of a read-group share an
  instant (`NotificationTies.ListingIsFixedIff`); the pages hold every row once if and only if no boundary separates
  two such rows (`PagesHoldEachRowOnceIff`).
- Seed data. A coverage transfer is meant to go to another customer; the fallback of its formula can point back. It does
  if and only if the number of customers divides both steps (`SeedChoices.TransfersToItselfIff`), never with 1500.

## Model

First the results, subject by subject; the rows from `Uuid.UuidGenerator.Next` on are the operations of the classes,
whose contracts are the steps the results speak of.

| member | source | states |
|---|---|---|
| Json.ParseWrite | Api/src/common/audit/audit.service.ts:102 | For any value without `undefined`, NaN or infinity, parsing its JSON text followed by any delimiter-led text gives the value back and leaves that text |
| Json.WriteInjective | Api/src/common/audit/audit.service.ts:102 | Two such values with one text are equal |
| CanonicalJson.SortSorts | Api/src/common/audit/audit.service.ts:105-106 | Sorting the keys gives an ascending sequence |
| CanonicalJson.SortMembers | Api/src/common/audit/audit.service.ts:105-106 | Sorting keeps exactly the entries it was given |
| CanonicalJson.SortedDetermined | Api/src/common/audit/audit.service.ts:105-106 | A key-sorted sequence is determined by the entries it holds, so it does not depend on insertion order |
| CanonicalJson.CanonEqualSame | Api/src/common/audit/audit.service.ts:100-109 | Equal key-sorted copies mean values that are equal up to key order at every depth |
| CanonicalJson.SameCanonEqual | Api/src/common/audit/audit.service.ts:100-109 | The converse: values equal up to key order have one key-sorted copy |
| StableJson.StableIsWriteOfCanon | Api/src/common/audit/audit.service.ts:101-109 | The recursive printer prints exactly what `JSON.stringify` prints for the key-sorted copy |
| StableJson.ParseStable | Api/src/common/audit/audit.service.ts:101-109 | A parser undoes `stableStringify`: the text followed by any delimiter-led rest gives the key-sorted value and that rest |
| StableJson.StableEqualIffSame | Api/src/common/audit/audit.service.ts:100-109 | Two values have one stable text if and only if they are equal up to key order |
| Utf16.StableWellFormed | Api/src/common/audit/audit.service.ts:97-109 | The hashed text never holds a lone surrogate, whatever the strings in the payload, so its UTF-8 encoding loses nothing |
| JsonSpelling.StableObjectsSpelled | Api/src/common/audit/audit.service.ts:101-109 | The stable text of an object is `{`, all its members with commas between them, each a quoted key, a colon and the stable text of its value, the keys ascending by code units, and `}` |
| JsonSpelling.ArraysSpelled | Api/src/common/audit/audit.service.ts:101-104 | An array is its items in brackets with commas between them, in their own order |
| JsonSpelling.Literals | Api/src/common/audit/audit.service.ts:102 | The texts of null, `undefined` and NaN inside a value, of the booleans and of strings |
| JsonSpelling.ShortEscapes | Api/src/common/audit/audit.service.ts:102 | The seven two-character escapes of a string |
| JsonSpelling.OtherEscapes | Api/src/common/audit/audit.service.ts:102 | Any other control, and a surrogate standing alone, is its four lower-case hexadecimal digits; all else is itself |
| JsonSpelling.WrittenAsItIsIff | Api/src/common/audit/audit.service.ts:102 | A string is written as it is if and only if its surrogates come in pairs and it has no control, quote or backslash |
| RequestFingerprint.SortValueLoop | Api/src/common/util/request-fingerprint.ts:18-35 | The recursive key loop, with one assignment per kept key, computes the function the lemmas below are about |
| RequestFingerprint.SortValueIdempotent | Api/src/common/util/request-fingerprint.ts:18-35 | `sortValue(sortValue(v))` is `sortValue(v)` |
| RequestFingerprint.CanonicalEqualIffSame | Api/src/common/util/request-fingerprint.ts:10-16 | Two bodies have one canonical text if and only if they are equal up to key order after the nullish and `__proto__` fields are dropped everywhere; array order and array nulls count |
| RequestFingerprint.DocumentedContractIff | Api/src/common/util/request-fingerprint.ts:10-13 | For any body of JavaScript values: the documented contract, by which null JSON alone is dropped, holds for it against all JSON bodies without a `__proto__` field if and only if it keeps exactly the fields the documentation keeps and every object with a `toJSON` (a date, a decimal) has the own fields of its JSON |
| RequestFingerprint.ReadsIff | Api/src/common/util/request-fingerprint.ts:18-35 | What `sortValue` keeps of a body is its documented reading under exactly that condition |
| RequestFingerprint.ProtoCollides | Api/src/common/util/request-fingerprint.ts:30 | The concrete failure: `{"__proto__": {}}` and `{}` share a canonical text |
| RequestFingerprint.DatesCollide | Api/src/common/util/request-fingerprint.ts:22-33 | Another concrete failure: any two dates, as bodies, share the canonical text of `{}` |
| JsonSpelling.EnumerationIff | Api/src/common/util/request-fingerprint.ts:24-35 | Keys are enumerated array indices first, by number, the others after them by code units |
| JsonSpelling.IndexKeyIff | Api/src/common/util/request-fingerprint.ts:24-35 | An array index is the numeral of a number up to 2^32 - 2 |
| JsonSpelling.CanonicalObjectsSpelled | Api/src/common/util/request-fingerprint.ts:10-35 | The canonical text of a body is its members in braces without the nullish ones and `__proto__`, in that order |
| PostingFingerprint.OneTextPerRequest | Api/src/modules/transactions/transactions.service.ts:108-117 | For the eight fields the posting service fingerprints, two requests have one canonical text if and only if they are the same request, whatever is absent and whatever the description says |
| PostingFingerprint.CarriesThePosting | Api/src/modules/transactions/transactions.service.ts:108-117 | The body has eight fields; kind, amount, currency and description are under their own literal keys |
| PostingFingerprint.CarriesTheIds | Api/src/modules/transactions/transactions.service.ts:108-117 | So are the two wallets, the original transaction and the category |
| Uuid.WriteFields | Api/src/common/util/uuid.ts:49-61 | The nine in-place byte assignments leave the id bytes of timestamp, version, counter and variant, the random bytes otherwise |
| Uuid.IdOrder | Api/src/common/util/uuid.ts:49-70 | Two ids compare as text exactly as their logical clocks compare, whatever the random bytes |
| Uuid.NextGreaterIff | Api/src/common/util/uuid.ts:33-47 | The next id is greater than the last one if and only if the new logical clock fits 48 bits: repeats, backward readings and counter overflow included |
| Uuid.IdsIncreaseIff | Api/src/common/util/uuid.ts:24-47 | Over any run with readings of 48 bits, all ids are strictly increasing if and only if the logical clock still fits 48 bits at the end |
| Uuid.LastMillisecondRegresses | Api/src/common/util/uuid.ts:37-47 | The concrete failure: 4097 calls in the last millisecond of 48 bits, and the last id is below the one before it |
| Uuid.ClockBound | Api/src/common/util/uuid.ts:37-47 | The logical clock runs ahead of the latest reading by at most one millisecond per 4096 calls |
| Uuid.IdsStrictlyIncrease | Api/src/common/util/uuid.ts:24-28 | Over any run whose readings leave that room below 2^48, every later id is greater than every earlier one |
| Uuid.IdIsUuidV7 | Api/src/common/util/uuid.ts:10-14 | Every id matches `UUID_RE` and carries version 7 |
| Uuid.IdFields | Api/src/common/util/uuid.ts:49-61 | The bytes hold, by the layout of RFC 9562, the time in 48 bits, version 7, the counter in twelve, the variant, and the random bits in the 62 left |
| Uuid.IdSpelled | Api/src/common/util/uuid.ts:63-70 | The text spells every byte, in order, in two lower-case hexadecimal digits |
| AuditRecords.StoresTheCall | Api/src/common/audit/audit.service.ts:76-91 | The row an append stores has, field by field, what the caller passed, the time read and the new id |
| AuditRecords.HashesTheCall | Api/src/common/audit/audit.service.ts:59-74 | Its hash is that of the previous hash, a bar and the stable text of ten fields, which carry under each literal key the caller's value of that name |
| AuditRecords.LinksToTheLatest | Api/src/common/audit/audit.service.ts:54-60 | It links to the literal seed in an empty table, and else to the row that is after all others in `(created_at, id)` |
| AuditChain.LatestIsMaximum | Api/src/common/audit/audit.service.ts:54-57 | The predecessor query returns the row after all others in `(created_at, id)` |
| AuditChain.SamePayloadFields | Api/src/common/audit/audit.service.ts:61-74 | Payloads equal up to key order agree in all ten hashed fields, ip hash and correlation id included |
| AuditChain.SameFieldsPayload | Api/src/common/audit/audit.service.ts:61-74 | The converse: entries equal in those fields have payloads equal up to key order |
| AuditRuns.ChainIsLinear | Api/src/common/audit/audit.service.ts:51-92 | In every reachable log (one process, clock not stepping back between appends, ties allowed) the query picks the row appended last, and in `(created_at, id)` order each row links to the one before it, the first to the seed |
| AuditRuns.AppendBecomesLatestIff | Api/src/common/audit/audit.service.ts:54-60 | An appended row is the next predecessor if and only if its `created_at` did not step back |
| AuditRuns.ClockStepBackForks | Api/src/common/audit/audit.service.ts:54-60 | When it did step back, the following append links to the same row again |
| AuditForks.ChainIsLinearIff | Api/src/common/audit/audit.service.ts:51-97 | Whoever appended, any number of processes and clocks: if every row was appended after all earlier ones in `(created_at, id)` the walk in that order is one linear chain, and if the walk is one then so they were, or two rows have one entry hash or one has that of the seed |
| AuditForks.AppendStaysAppended | Api/src/common/audit/audit.service.ts:51-92 | Every append of every process keeps what that theorem starts from: each row links to the row the query found |
| AuditForks.TwoProcessesFork | Api/src/common/audit/audit.service.ts:54-60 | The concrete failure: two processes append in one millisecond, the second id sorts first, and the next append links to the first row again |
| AuditRuns.StoredTextIff | Api/src/common/audit/audit.service.ts:61-91 | The text recomputed from the stored row is the text that was hashed if and only if the context, of any JavaScript values, is kept: no object field is `undefined`, and every object with a `toJSON` gives the JSON of its own fields |
| AuditRuns.AppendedRowVerifiesIff | Api/src/common/audit/audit.service.ts:61-91 | A row verifies from what is stored if its context was kept in that sense, and otherwise only if the hash collides |
| AuditRuns.UndefinedFieldNotKept | Api/src/common/audit/audit.service.ts:68-84 | Any context with a single `undefined` field is hashed with it and stored without it |
| AuditRuns.DateFieldNotKept | Api/src/common/audit/audit.service.ts:84-108 | So is any context with a single date: hashed with `{}` for it, stored with its text |
| AuditRuns.ReachableLogVerifies | Api/src/common/audit/audit.service.ts:51-97 | Every log written with kept contexts, dates and the like included where they are kept, verifies from the genesis seed to its last row |
| AuditTamper.SplitAtBar | Api/src/common/audit/audit.service.ts:97 | The previous hash, a bar and the payload split in one way only, whatever the payload contains |
| AuditTamper.TamperEvident | Api/src/common/audit/audit.service.ts:57-97 | Two verifying logs that end in one entry hash have the same length and agree row for row in every hashed field, or they exhibit two texts with one hash. The rows may hold any JSON context: objects, arrays, strings, numbers, JSON null (hashed like an absent context) |
| JsonColumn.ParseStringify | Api/src/common/audit/audit.service.ts:84 | The text sent to the JSON column parses back to the value without its `undefined` fields; that the column may reorder keys is left open (`AuditChain.StoredAs`) |
| JsonColumn.FieldsMeetIff | Api/src/common/audit/audit.service.ts:84 | An object equals, up to key order, what the column keeps of another with the same keys if and only if no field of that is `undefined` and all fields agree |
| JsValues.KeptIff | Api/src/common/audit/audit.service.ts:84-108 | For every JavaScript value: what a walk over own keys sees is what the column keeps, up to key order, if and only if no object field is `undefined` and every `toJSON` gives the own fields |
| JsValues.ParseSent | Api/src/common/audit/audit.service.ts:84 | What the JSON column is sent parses back to the clean copy of what JSON sees |
| RefreshProofs.SessionIsOnePath | Api/src/modules/auth/auth.service.ts:201-216 | In every reachable state a session's tokens form one acyclic `replacedById` path, and only its last token can be live |
| RefreshProofs.DeadStaysDead | Api/src/modules/auth/auth.service.ts:188-245 | A session without a live token never regains one, in any interleaving |
| RefreshProofs.RotationMovesLiveToken | Api/src/modules/auth/auth.service.ts:206-216 | A winning rotation leaves exactly the replacement live in its session |
| RefreshProofs.OneWinner | Api/src/modules/auth/auth.service.ts:201-216 | Of all calls that present one token at most one mints a replacement |
| RefreshProofs.ReuseKillsSessions | Api/src/modules/auth/auth.service.ts:188-226 | Once a call answers TokenReused, every session its user had at that step is dead for the rest of the run |
| RefreshProofs.ReuseKillsWinner | Api/src/modules/auth/auth.service.ts:217-225 | That includes the replacement the winner got for the same token |
| RefreshProofs.LogoutEndsSession | Api/src/modules/auth/auth.service.ts:235-245 | After a logout with the right secret the session of the presented token is dead for the rest of every run |
| RefreshProofs.LogoutRevokesFamily | Api/src/modules/auth/auth.service.ts:235-245 | That logout revokes exactly the live tokens of that session, at its time, and none of another |
| RefreshProofs.LogoutNeedsSecret | Api/src/modules/auth/auth.service.ts:240-244 | With a wrong secret a logout changes no token |
| RefreshProofs.ResetEndsSessions | Api/src/modules/password-reset/password-reset.service.ts:412-440 | Every session the user has at a reset is dead for the rest of every run |
| RefreshProofs.ResetRevokesUser | Api/src/modules/password-reset/password-reset.service.ts:412-440 | A reset revokes exactly the live tokens of that user |
| RefreshProofs.ReuseRevokesUser | Api/src/modules/auth/auth.service.ts:188-225 | So does a reuse, seen at the read or at a lost rotation, of the user of the presented token |
| RefreshProofs.ReadsTheRow | Api/src/modules/auth/auth.service.ts:181-186 | A refresh and a logout read the row of the presented id, and nothing if there is none |
| RefreshProofs.RefreshGoesOn | Api/src/modules/auth/auth.service.ts:188-205 | A token read unrevoked rotates if and only if it is before its expiry and the secret is right; read revoked it is reuse |
| RefreshProofs.RotationIff | Api/src/modules/auth/auth.service.ts:206-216 | A rotation mints if and only if the presented token is still unrevoked; then it is revoked, linked to the new one, and nothing else changes |
| RefreshProofs.LoginAddsOne | Api/src/modules/auth/auth.service.ts:269-276 | A login adds one live token in a session of its own and changes no other |
| RefreshProofs.TokensStay | Api/src/modules/auth/auth.service.ts:206-214 | Token rows stay, with owner and family, and no revocation or link is undone |
| Lockout.CountIsExact | Api/src/modules/auth/auth.service.ts:311-319 | In every interleaving the stored count is the number of failures since the last reset: none is lost |
| Lockout.LockNeedsFive | Api/src/modules/auth/auth.service.ts:322-331 | A lock is only written over a stored count of at least five, and 15 minutes ahead |
| Lockout.StepKeepsSecured | Api/src/modules/auth/auth.service.ts:311-331 | At five or more, either the lock outlasts the last failure or a failure in flight still holds the current row |
| Lockout.QuietMeansLocked | Api/src/modules/auth/auth.service.ts:311-331 | With no call pending, five failures since the last reset mean a lock that outlasts the last of them |
| Lockout.LockHolds | Api/src/modules/auth/auth.service.ts:111-118 | While the lock runs no failure is counted, nothing resets it but a password reset, and every new login is refused unseen |
| Lockout.RefusedIff | Api/src/modules/auth/auth.service.ts:108-118 | A new login is refused before its password if and only if a deadline is stored and lies after now |
| Lockout.RefusedUntilIff | Api/src/modules/auth/auth.service.ts:108-118 | Over every run: if and only if the deadline written last, and not reset since, lies after now |
| Lockout.LockExpires | Api/src/modules/auth/auth.service.ts:108-118 | At the last deadline, if no later lock was set, a new login goes on to its password: time alone lets an account in again |
| Lockout.DeadlineIsExact | Api/src/modules/auth/auth.service.ts:315-331 | The stored deadline is, in every run, the one written last, unless a reset came after it |
| Lockout.DecidesIff | Api/src/modules/auth/auth.service.ts:320-322 | A failure goes on to lock if and only if it was at least the fifth and found no deadline after now |
| Lockout.WritesIff | Api/src/modules/auth/auth.service.ts:323-331 | It writes a deadline 15 minutes ahead if and only if neither column changed since its increment |
| Lockout.RightPasswordLogsIn | Api/src/modules/auth/auth.service.ts:108-130 | Undisturbed, a right password at an account not locked logs in and clears both columns |
| Lockout.WrongPasswordCounts | Api/src/modules/auth/auth.service.ts:315-331 | A wrong one counts one more, and from the fifth on locks for 15 minutes |
| MfaLoginProofs.SessionsOneToOne | Api/src/modules/auth/mfa-login.service.ts:71-116 | In every interleaving two issued sessions rest on two different challenges, however stale the snapshots |
| MfaLoginProofs.SessionIsEarned | Api/src/modules/auth/mfa-login.service.ts:58-116 | An issued session rests on a consumed LOGIN challenge and on a factor spent by that challenge's user |
| MfaLoginProofs.FactorUsedOnce | Api/src/modules/password-reset/password-reset.service.ts:176-209 | No backup code serves twice, and two uses of one TOTP code (a step of one secret) take a late write of its user: logins, password resets, re-authentications and confirmations together |
| MfaLoginProofs.StampIsEarned | Api/src/modules/password-reset/password-reset.service.ts:193-209 | A stamped reset challenge rests on a factor of its user that was spent for it |
| MfaLoginProofs.FactorsSpentOnce | Api/src/modules/auth/mfa-login.service.ts:71-77 | The same of the history of accepted codes |
| MfaLoginProofs.InStepIff | Api/src/modules/auth/mfa-management.service.ts:226-249 | A step keeps the accepted codes of a user in step (each under its own secret, rising) if and only if it is not a write for which the row, at that moment, no longer holds the secret read or has a floor at or above the step |
| MfaLoginProofs.RunInStepIff | Api/src/modules/auth/mfa-management.service.ts:226-249 | Over every run they are in step if and only if no such late write happened |
| MfaFloor.CoveredIff | Api/src/modules/auth/mfa-management.service.ts:226-249 | A step leaves an accepted step of the current secret above the floor if and only if it writes below the floor stored at that moment |
| MfaFloor.AlwaysCoveredIff | Api/src/modules/auth/mfa-management.service.ts:226-249 | Over every run accepted steps stay at or below the floor at all times if and only if no write goes below it |
| MfaFloor.UncoveredServesAgain | Api/src/modules/auth/mfa-login.service.ts:58-116 | Whenever an accepted code of the current secret is above the floor, the run can go on so that a login with it gets a session |
| MfaFloor.LoweringServesAgain | Api/src/modules/auth/mfa-management.service.ts:238-247 | So after any write below the floor the code of the former floor can serve a second time |
| MfaFloor.LoweredFloorReplays | Api/src/modules/auth/mfa-management.service.ts:226-249 | The concrete failure: a management call that read floor 9 writes its step 10 after a login accepted 11, and step 11 gets a second session |
| MfaFloor.StaleReadReplays | Api/src/modules/auth/mfa-management.service.ts:226-249 | Without lowering: a management call accepts the very code a login has just used |
| MfaFloor.ReplacedSecretReplays | Api/src/modules/auth/mfa-login.service.ts:71-77 | The compare-and-set alone: the secret is replaced, the floor comes back to what a login read, and a used code of the old secret gets a session |
| LoginAfterReset.LiveAfterReset | Api/src/modules/password-reset/password-reset.service.ts:412-440 | In every run a session that is live after a reset of its user belongs to a login whose challenge was created later, or that had consumed it but not issued its session when the reset came |
| LoginAfterReset.SurvivesResetIff | Api/src/modules/auth/mfa-login.service.ts:108-116 | A login under way at a reset can still get a live session if and only if it has won its challenge by then |
| MfaLoginProofs.AttemptsNeverExceed | Api/src/modules/mfa/mfa-challenge.service.ts:117-131 | No challenge counts more failed attempts than it allows |
| MfaAttempts.AttemptsAreExact | Api/src/modules/mfa/mfa-challenge.service.ts:121-131 | Over every run the attempt count of a challenge is exactly the number of failed attempts that met it unconsumed, unexpired and below its limit |
| MfaAttempts.ExhaustedIsClosed | Api/src/modules/mfa/mfa-challenge.service.ts:81-131 | After `maxAttempts` of them nothing opens the challenge and no consume or stamp on it wins, for the rest of the run |
| MfaAttempts.RejectCounts | Api/src/modules/mfa/mfa-challenge.service.ts:121-131 | A failed attempt counts one if and only if the challenge is still open, and changes nothing else |
| MfaAttempts.OpensIff | Api/src/modules/mfa/mfa-challenge.service.ts:81-97 | A challenge opens if and only if it is unconsumed, unexpired, below its limit and the secret is right |
| MfaAttempts.ConsumesIff | Api/src/modules/mfa/mfa-challenge.service.ts:104-115 | A consume wins if and only if the challenge is still open by then |
| MfaAttempts.StampsIff | Api/src/modules/password-reset/password-reset-challenge.service.ts:124-136 | A stamp wins if and only if the challenge is still open and unstamped by then |
| MfaSteps.TotpStartsIff | Api/src/modules/auth/mfa-login.service.ts:59-66 | A TOTP code is checked, against the secret and floor read, if and only if the challenge takes a factor and the user has a secret; without one it is a failed attempt |
| MfaSteps.TotpIsSpentIff | Api/src/modules/auth/mfa-login.service.ts:67-78 | It is accepted if and only if it checks out and the floor is still the one read; then its step is the floor, and otherwise the attempt is counted |
| MfaSteps.BackupStartsIff | Api/src/modules/mfa/backup-code.service.ts:51-56 | A backup code is looked for among exactly the unused codes of the user |
| MfaSteps.BackupIsSpentIff | Api/src/modules/mfa/backup-code.service.ts:51-61 | It is accepted if and only if one matches and is still there and unused; then it is used, and otherwise the attempt is counted |
| MfaSteps.MismatchIsFailure | Api/src/modules/password-reset/password-reset.service.ts:175-178 | A reset presented from another device goes on to be counted as a failed attempt |
| MfaSteps.ManagementIff | Api/src/modules/auth/mfa-management.service.ts:228-252 | Management goes on if and only if the user has a secret, and writes an accepted step whatever the row says |
| MfaSteps.WrongCodeCosts | Api/src/modules/auth/mfa-login.service.ts:59-109 | Undisturbed, a wrong code at an open login challenge costs one attempt and changes nothing else |
| MfaSteps.RightCodeLogsIn | Api/src/modules/auth/mfa-login.service.ts:59-125 | A right code above the floor consumes the challenge, becomes the floor and gives its user one live session |
| MfaSteps.BackupCodeStamps | Api/src/modules/password-reset/password-reset-challenge.service.ts:124-136 | An unused backup code stamps an open reset challenge of its user and is used from then on |
| MfaSteps.EnrolmentGivesSecret | Api/src/modules/auth/mfa-enrollment.service.ts:40-44 | Starting an enrolment changes the secret and the floor of that user and nothing else |
| MfaSteps.DisablingClears | Api/src/modules/auth/mfa-management.service.ts:75-90 | Disabling takes the secret, the floor and every backup code of that user, and nothing of others |
| MfaSteps.AdminResetClears | Api/src/modules/auth/mfa-management.service.ts:151-174 | A reset by an administrator takes these and every session, and closes exactly the login and enrolment challenges of that user |
| MfaSteps.TrustIsRevoked | Api/src/modules/password-reset/password-reset.service.ts:412-440 | A completed password reset closes every session and challenge of that user, and nothing of others |
| MfaSteps.CodesAreReplaced | Api/src/modules/mfa/backup-code.service.ts:30-40 | After new codes are made the user has exactly those, all unused |
| ResetChallenge.LifecycleOneWay | Api/src/modules/password-reset/password-reset-challenge.service.ts:124-157 | Over any stretch of a run: the stamp and the consume are never undone or moved, and a consumed row is frozen |
| ResetChallenge.OneWinnerEach | Api/src/modules/password-reset/password-reset-challenge.service.ts:117-157 | The stamp and the completion of a challenge have one winner each |
| ResetChallenge.CompletionIsAuthorized | Api/src/modules/password-reset/password-reset-challenge.service.ts:144-157 | A password change rests on a challenge stamped before it was consumed, consumed before expiry and with attempts left |
| ResetChallenge.AttemptsNeverExceed | Api/src/modules/password-reset/password-reset-challenge.service.ts:164-174 | `attemptCount` never exceeds `maxAttempts` |
| ResetChallenge.ClosedToWrites | Api/src/modules/password-reset/password-reset-challenge.service.ts:124-157 | At or after expiry, or exhausted, neither the stamp nor the consume can happen |
| ResetChallenge.CompletionEndsSiblings | Api/src/modules/password-reset/password-reset.service.ts:277-279 | After a completed reset no other challenge its user had can change the password again |
| ResetChallenge.UnstampedConsumeIff | Api/src/modules/password-reset/password-reset.service.ts:412-440 | A challenge is consumed without a stamp if and only if another reset of its user closes it |
| ResetChallenge.ConsumedUnstamped | Api/src/modules/password-reset/password-reset.service.ts:366-373 | A run that ends with such a row |
| ResetChallenge.AttemptsAreExact | Api/src/modules/password-reset/password-reset-challenge.service.ts:164-174 | Over every run the attempt count is exactly the number of failed attempts that met the challenge still open |
| ResetChallenge.ExhaustedIsClosed | Api/src/modules/password-reset/password-reset-challenge.service.ts:95-174 | After `maxAttempts` of them nothing opens, stamps or completes it for the rest of the run |
| ResetChallenge.OpensIff | Api/src/modules/password-reset/password-reset-challenge.service.ts:95-115 | A load opens a challenge if and only if it is unconsumed, unexpired, below its limit and the secret is right |
| ResetChallenge.StampsIff | Api/src/modules/password-reset/password-reset-challenge.service.ts:124-136 | A stamp wins if and only if the challenge is still open and unstamped, and writes time and method there alone |
| ResetChallenge.CompletesIff | Api/src/modules/password-reset/password-reset-challenge.service.ts:138-159 | A completion wins if and only if the challenge is still open and stamped, and closes exactly the open challenges of its user |
| ResetChallenge.AdministratorCloses | Api/src/modules/password-reset/password-reset.service.ts:430-439 | An administrator closes exactly those |
| ResetChallenge.StampThenComplete | Api/src/modules/password-reset/password-reset.service.ts:160-288 | Undisturbed, one call stamps an open challenge and the next completes it |
| Throttler.LifetimeBound | Api/src/common/throttler/redis-throttler.storage.ts:47-63 | One lifetime of the hit key admits no more than its counter leaves of `limit` |
| Throttler.WindowBound | Api/src/common/throttler/redis-throttler.storage.ts:31-66 | After any history, any stretch spanning at most `ttl` milliseconds admits at most `2 * limit - 1` requests, one of `ttl + 1` at most `2 * limit`, outages and lost replies included |
| Throttler.WindowBoundReached | Api/src/common/throttler/redis-throttler.storage.ts:31-66 | The first bound is reached for every limit |
| Throttler.BlockedRunChangesNothing | Api/src/common/throttler/redis-throttler.storage.ts:38-45 | Requests during a block are refused and change neither key |
| Throttler.AfterBlock | Api/src/common/throttler/redis-throttler.storage.ts:38-65 | The next request after a block is admitted if and only if the block and the old hit key have both expired; with `blockDuration >= ttl` that is certain once the reported whole seconds have passed, and its count is 1 |
| Throttler.BoundaryBlocksAgain | Api/src/common/throttler/redis-throttler.storage.ts:59-63 | At the reported second itself it is blocked again when both durations are one minute |
| Throttler.CountsAndBlocks | Api/src/common/throttler/redis-throttler.storage.ts:36-63 | Under a running block nothing is counted; otherwise a request is counted in the running lifetime or a new one of `ttl`, and blocked for `blockDuration` if and only if it goes over the limit |
| Throttler.TellsTheTime | Api/src/common/throttler/redis-throttler.storage.ts:38-66 | The reported times are what the two keys have left, in seconds rounded up; a lifetime that ended under a block is told as a whole new one |
| Throttler.FailsClosed | Api/src/common/throttler/redis-throttler.storage.ts:106-120 | Without an answer a request is refused for `ttl`, the block or a second, whichever is longest; it is counted if only the reply was lost |
| Customers.AllowedByTheRules | Api/src/modules/customers/kyc-transitions.ts:3-28 | The matrix by its documented rules: a negative decision goes back to a neutral state, a verified customer is not downgraded, what was not started cannot expire, all else is legal |
| Customers.PassesIff | Api/src/modules/customers/customers.service.ts:385-421 | An update passes its checks if and only if the customer is there, the address is free or unchanged, both changes are legal and no field throws |
| Customers.RefusedBecause | Api/src/modules/customers/customers.service.ts:385-421 | The cause of each refusal, in order |
| Customers.CommitsIff | Api/src/modules/customers/customers.service.ts:423-465 | A write commits if and only if the row is live, at the sent version and without an address clash; then row, decision and audit rows are as stated, and otherwise unchanged |
| Customers.DeletesIff | Api/src/modules/customers/customers.service.ts:499-514 | A delete takes effect once, as one more version with its audit row |
| Customers.CheckedWhatItOverwrites | Api/src/modules/customers/customers.service.ts:423-443 | A committed update was checked against the row it overwrote if and only if the client's version was not above the one read |
| Customers.HonestWritesAreSound | Api/src/modules/customers/customers.service.ts:383-466 | With versions from earlier reads every committed write is a legal KYC edge of the row it changes, reopens nothing, raises the version by one, and its columns are the request merged into that very row |
| Customers.CommittedColumnsIff | Api/src/modules/customers/customers.service.ts:425-436 | Of such a write: the columns the request does not name are kept if and only if it sends no address or one that names, if only with null, every address column the row has a value in; the named ones hold what was asked if and only if no null date of birth is sent |
| CustomerColumns.KeepsUnnamedIff | Api/src/modules/customers/customers.service.ts:430-433 | The first of these for every request and row |
| CustomerColumns.StoresNamedIff | Api/src/modules/customers/customers.service.ts:426-436 | The second |
| CustomerColumns.CountryAloneClears | Api/src/modules/customers/customers.service.ts:430-433 | The concrete case: an address of a country alone clears city, postal code and street |
| CustomerColumns.NullDateStoresEpoch | Api/src/modules/customers/customers.service.ts:429 | A null date of birth stores 1 January 1970 |
| Customers.ConflictIff | Api/src/modules/customers/customers.service.ts:440-442 | An update sent with the version it reads is refused with a conflict at its write if and only if the row changed in between |
| Customers.StepsByOne | Api/src/modules/customers/customers.service.ts:423-438 | Only committed writes and the delete change the row, each by one version |
| Customers.DeletedIsFrozen | Api/src/modules/customers/customers.service.ts:423-424 | A deleted row, its decisions and its audit entries never change again |
| Customers.ClosedIsAbsorbing | Api/src/modules/customers/customers.service.ts:411-421 | CLOSED is never left, in honest runs |
| Customers.MustPassThrough | Api/src/modules/customers/kyc-transitions.ts:13-22 | Leaving a set of states that the matrix closes but for a gate passes through the gate |
| Customers.ReviewComesBetween | Api/src/modules/customers/kyc-transitions.ts:13-22 | A neutral state lies between REJECTED or EXPIRED and a later VERIFIED, and a review or negative state between VERIFIED and a later downgrade |
| Customers.NewestDecisionAgrees | Api/src/modules/customers/customers.service.ts:444-454 | From a start that is no decision, a VERIFIED or REJECTED status is the newest decision row |
| Customers.AuditTellsTheHistory | Api/src/modules/customers/customers.service.ts:455-458 | The `kyc_change` entries are legal edges leading one after the other from the first status to the current one |
| Customers.FutureVersionSkipsReview | Api/src/modules/customers/customers.service.ts:402-424 | A run in which a guessed next version commits REJECTED to VERIFIED |
| PostingService.TwoRows | Api/src/modules/transactions/transactions.service.ts:585-598 | Numbering all legs first equals numbering them one after the other when their wallets differ |
| PostingProofs.PlansAreGood | Api/src/modules/transactions/transactions.service.ts:235-407 | Every plan has two equal opposite legs; a debit is balance-checked or on a system wallet; a reversal mirrors an unreversed original |
| PostingOutcomes.PostsIff | Api/src/modules/transactions/transactions.service.ts:235-512 | A request is posted if and only if it is for money to go from one wallet to another, both known and of the requested currency, the payer a system wallet, a deposit's or holding at least the amount, and the key unused. Who pays whom is said by kind: the named wallets of a transfer, the first CLEARING or REVENUE wallet of the currency, the reverse of an unreversed original named with its amount and currency |
| PostingOutcomes.PostedIsPaid | Api/src/modules/transactions/transactions.service.ts:428-462 | Then the payer has the amount less, the payee the amount more, and no other wallet changes |
| PostingOutcomes.RefusedIff | Api/src/modules/transactions/transactions.service.ts:256-530 | Otherwise it is refused with a problem if and only if that problem's cause is there, for each of the twelve |
| PostingOutcomes.CreatesIff | Api/src/modules/transactions/transactions.service.ts:156-191 | The posting step answers with the new transaction if and only if the request can be posted and the key row is there; ledger and key row then change together, and else neither does |
| PostingOutcomes.UndisturbedCallPosts | Api/src/modules/transactions/transactions.service.ts:96-193 | Undisturbed, a call under a new key that can be posted is answered with its transaction and leaves the key completed |
| PostingOutcomes.UndisturbedCallFails | Api/src/modules/transactions/transactions.service.ts:176-191 | One that cannot is told the cause and leaves neither a ledger row nor a key row |
| PostingOutcomes.AbandonedKeyIsTakenOver | Api/src/modules/transactions/transactions.service.ts:119-133 | A key left in progress for more than a minute is taken over by the next caller, with whatever body |
| PostingOutcomes.BeginIff | Api/src/modules/transactions/transactions.service.ts:119-133 | What a call finds under its key: nothing, an abandoned row, its own request in flight or completed, or another body |
| PostingOutcomes.ClaimIff | Api/src/modules/transactions/transactions.service.ts:135-148 | The insert of the key row succeeds if and only if the key is free |
| PostingOutcomes.RecheckIff | Api/src/modules/transactions/transactions.service.ts:146-153 | Whoever lost it is told what the row says by then |
| PostingOutcomes.AdjustmentIsRefused | Api/src/modules/transactions/transactions.service.ts:101-106 | An adjustment is refused before its key is looked at |
| PostingProofs.BookIsBalanced | Api/src/modules/transactions/transactions.service.ts:428-617 | In every run, whatever crashes: balances per currency sum to zero, each balance is the fold of its entries, entries are numbered 1 to k per wallet, and no customer wallet is negative |
| PostingProofs.MoneyMovesAsAsked | Api/src/modules/transactions/transactions.service.ts:256-407 | In every run each transaction moves exactly the requested amount and currency between the wallets its request names, the other side being the CLEARING or REVENUE wallet its kind calls for |
| PostingProofs.AtMostOncePerKey | Api/src/modules/transactions/transactions.service.ts:156-175 | In every run one key posts at most one transaction and at most one caller is told it created it |
| PostingProofs.AnswersAreTrue | Api/src/modules/transactions/transactions.service.ts:195-212 | A created or replayed answer names a transaction of the caller's own key |
| PostingProofs.ReversalUndoes | Api/src/modules/transactions/transactions.service.ts:345-407 | A transaction is marked reversed if and only if exactly one later transaction reverses it, and that one cancels it on every wallet |
| PostingProofs.HistoryStays | Api/src/modules/transactions/transactions.service.ts:428-452 | Entries are never changed or removed; transactions only get the reversed mark |
| PostingReplays.ReplayLostIff | Api/src/modules/transactions/transactions.service.ts:119-191 | A step loses a stored response if and only if it deletes a completed key row or completes a row claimed by another body |
| PostingReplays.RetryReplayedIff | Api/src/modules/transactions/transactions.service.ts:119-133 | In every reachable state a retry of a posted body is answered with its stored response if and only if the key still holds it |
| PostingReplays.AlwaysKeptIff | Api/src/modules/transactions/transactions.service.ts:119-191 | Over any run every posted transaction is replayable at all times if and only if no step is one of the losing ones |
| PostingReplays.RetryIsReplayed | Api/src/modules/transactions/transactions.service.ts:119-133 | When every reclaim took a remnant, a retry of a posted body always gets its stored response and any other body a conflict |
| PostingReplays.TwoReclaimersLoseTheReplay | Api/src/modules/transactions/transactions.service.ts:121-129 | A run in which two retries reclaim one stale key: booked once, but the next retry finds no response |
| LedgerBook.PairKeepsBalanced | Api/scripts/seed-dev.ts:696-711 | Two opposite entries of one amount in one currency keep all four book invariants |
| SeedLedger.RunIsGood | Api/scripts/seed-dev.ts:690-769 | All of that after every single posting |
| SeedBook.PostingKeepsSound | Api/scripts/seed-dev.ts:713-769 | One posting keeps the book balanced, in pairs, counted and free of overdrafts |
| SeedBook.CountingIsNumbering | Api/scripts/seed-dev.ts:690-694 | The counter map gives the same numbers as the highest entry number plus one |
| SeedLedger.ChoiceIsCovered | Api/scripts/seed-dev.ts:845-918 | For every balance, customer and turn: a debit is only chosen on a positive balance and leaves at least 78 percent of it, and a transfer goes to another customer |
| SeedLedger.WithdrawalCovered | Api/scripts/seed-dev.ts:863-876 | A withdrawal takes at most 22 percent of a positive balance, in every currency, with the share taken exactly |
| SeedLedger.TransferCovered | Api/scripts/seed-dev.ts:906-918 | So does a transfer, with the share taken exactly |
| SeedDoubles.WithdrawalInDoublesCovered | Api/scripts/seed-dev.ts:863-868 | The same with the share computed in binary doubles, for balances up to 2^46 major units: the debit is positive and leaves at least 78 percent |
| SeedDoubles.TransferInDoublesCovered | Api/scripts/seed-dev.ts:906-910 | The same for a transfer |
| SeedDoubles.Share22 | Api/scripts/seed-dev.ts:865 | `Math.floor(x * 0.22)` in doubles is never above 22 percent, although the double nearest to 0.22 is |
| SeedDoubles.Share18 | Api/scripts/seed-dev.ts:908 | Nor `Math.floor(x * 0.18)` above 18 percent |
| SeedLedger.FeeCovered | Api/scripts/seed-dev.ts:878-889 | So does a fee |
| SeedLedger.CountLeavesRoom | Api/scripts/seed-dev.ts:299-306 | Every count lies between 26 and 45, two above the coverage rows |
| SeedLedger.CoverageIsComplete | Api/scripts/seed-dev.ts:815-816 | Row `4k + s` of a wallet has kind `k` and status `s` |
| SeedChoices.TransfersToItselfIff | Api/scripts/seed-dev.ts:817-819 | A coverage transfer goes back to its own customer if and only if the number of customers divides both steps of the formula; with 1500 customers it never does |
| SeedChoices.SelectorComesOnce | Api/scripts/seed-dev.ts:848 | In any hundred consecutive turns of a wallet each selector comes exactly once |
| SeedChoices.ChoiceIff | Api/scripts/seed-dev.ts:848-918 | The kind of a turn by its selector and the balance, and the counterparty of a transfer |
| SeedChoices.WithdrawalIsLargest | Api/scripts/seed-dev.ts:863-876 | A withdrawal is the largest amount in whole units within its plan and 22 percent, 25 units at the least |
| SeedChoices.TransferIsLargest | Api/scripts/seed-dev.ts:906-918 | A transfer likewise, with 18 percent |
| SeedChoices.ConvertedAmount | Api/scripts/seed-dev.ts:243-250 | Amounts in dollars and euros are those in lira by 35 and 38, rounded to the nearest |
| SeedChoices.CountsFollowThePattern | Api/scripts/seed-dev.ts:299-306 | The first twelve counts are the requested ones, later ones within two of them and at most 45 |
| SeedChoices.SidesIff | Api/scripts/seed-dev.ts:746-768 | Who is debited and who credited, by kind |
| SeedChoices.CoverageSigns | Api/scripts/seed-dev.ts:775-784 | Which coverage rows credit their owner and which debit it |
| Notifications.ListingIsTwoGroups | Api/src/modules/notification/notification.service.ts:234-239 | Sorting by unread first, then newest, is the two sorted groups one after the other |
| Notifications.SortedIsOrdered | Api/src/modules/notification/notification.service.ts:253-275 | The ordered query returns the rows, in order |
| Notifications.ListedIff | Api/src/modules/notification/notification.service.ts:226-232 | The list holds exactly the rows of the recipient that meet every given filter |
| Notifications.ListingOrder | Api/src/modules/notification/notification.service.ts:234-239 | No read row comes before an unread one, and within each group none before a newer one |
| Notifications.PagesIff | Api/src/modules/notification/notification.service.ts:284-289 | The number of pages is the least positive one whose pages hold all items |
| Notifications.PagesCoverTheList | Api/src/modules/notification/notification.service.ts:284-289 | Pages 1 to `totalPages` concatenate to the whole list, and none but a lone first page is empty, when all requests break ties alike |
| Notifications.TiesMayRepeatARow | Api/src/modules/notification/notification.service.ts:246 | With the ties of one instant broken differently per request, page 2 repeats a row of page 1 |
| NotificationTies.ListingIsFixedIff | Api/src/modules/notification/notification.service.ts:246-276 | The list is the same for every way of breaking ties if and only if no two matching rows of one read-group share a creation time |
| NotificationTies.PagesHoldEachRowOnceIff | Api/src/modules/notification/notification.service.ts:246-289 | Pages taken by separate requests, each breaking ties its own way, hold every matching row exactly once, whatever those ways are, if and only if no page boundary separates two such rows |
| Retention.PrunedPerRecipient | Api/src/modules/notification/notification.service.ts:332-337 | Each recipient keeps exactly its newest rows, at most 200, among those not older than the cutoff |
| Retention.PrunedIff | Api/src/modules/notification/notification.service.ts:332-370 | A prune leaves a row if and only if it is at most ninety days old and fewer than 200 such rows of its recipient are newer |
| Retention.PruneIsIdempotent | Api/src/modules/notification/notification.service.ts:336 | A second prune at the same time removes nothing |
| RetentionRuns.RemovedIff | Api/src/modules/notification/notification.service.ts:338-370 | Statement by statement among other traffic, each query with its own order of ties: a step removes a row if and only if it is the age prune and the row is past the cutoff, or the delete of an overflow in which the row was beyond its recipient's newest 200 at the read |
| RetentionRuns.AddedIff | Api/src/modules/notification/notification.service.ts:338-370 | A row is new in the table if and only if the step emits it |
| RetentionRuns.ChangedIff | Api/src/modules/notification/notification.service.ts:338-370 | A row that stays changes if and only if it is marked read for the first time |
| RetentionRuns.OverflowRemovesIff | Api/src/modules/notification/notification.service.ts:352-365 | The second half of that, whatever was emitted, read or pruned between the read of an overflow and its delete |
| RetentionRuns.LeftAfterDelete | Api/src/modules/notification/notification.service.ts:352-365 | After it the recipient has only rows of its newest 200 at the read, and rows emitted since |
| RetentionRuns.OnlyUnwantedGo | Api/src/modules/notification/notification.service.ts:338-370 | In every run a removed notification was too old, or not among its recipient's newest 200 at an earlier moment of the run, as the query of that moment broke ties |
| EnvelopeCodec.PackEnvelope | Api/src/common/crypto/envelope-codec.ts:20-31 | The header filled in place and the joined buffers are the layout; each length error exactly when it applies |
| EnvelopeCodec.UnpackEnvelope | Api/src/common/crypto/envelope-codec.ts:34-52 | The advancing offset reads what the absolute layout says, with its three errors |
| EnvelopeCodec.UnpackPacked | Api/src/common/crypto/envelope-codec.ts:20-52 | Unpacking what was packed gives the envelope back |
| EnvelopeCodec.PackUnpacked | Api/src/common/crypto/envelope-codec.ts:33-52 | Every blob that unpacks is the packing of its envelope |
| EnvelopeCodec.TruncationIsNoticed | Api/src/common/crypto/envelope-codec.ts:33-46 | A packed envelope cut before its ciphertext never unpacks |
| Uuid.UuidGenerator.Next | Api/src/common/util/uuid.ts:29-71 | The call moves the two module variables as the logical clock moves and returns the text of that clock and the random bytes |
| AuditChain.AuditService.AppendEntry | Api/src/common/audit/audit.service.ts:51-92 | One append under the lock: predecessor by `(created_at, id)` descending or the genesis seed, new id, hash over the previous hash, a bar and the payload; the rows so far stay and the new one holds every field the caller passed |
| RefreshSessions.AuthService.IssueSession | Api/src/modules/auth/auth.service.ts:269-276 | Adds one live token in a new session |
| RefreshSessions.AuthService.FindForRefresh | Api/src/modules/auth/auth.service.ts:181-186 | Reads the row for the presented id |
| RefreshSessions.AuthService.ContinueRefresh | Api/src/modules/auth/auth.service.ts:188-227 | From the snapshot to the next write: reuse revokes all sessions of the user, an invalid token ends the call, otherwise the rotation transaction |
| RefreshSessions.AuthService.Rotate | Api/src/modules/auth/auth.service.ts:206-216 | The conditional revoke gates the insert of the replacement |
| RefreshSessions.AuthService.PunishLoser | Api/src/modules/auth/auth.service.ts:217-225 | The loser revokes every live token of the user |
| RefreshSessions.AuthService.FinishLogout | Api/src/modules/auth/auth.service.ts:235-245 | Only a verified secret revokes the session family |
| RefreshSessions.AuthService.Reset | Api/src/modules/auth/mfa-management.service.ts:151-174 | An administrator reset revokes every live token of the user |
| Lockout.LoginService.Begin | Api/src/modules/auth/auth.service.ts:108-118 | A future `lockedUntil` in the row read refuses the login before the password |
| Lockout.LoginService.RecordSuccess | Api/src/modules/auth/auth.service.ts:127-130 | A verified password resets both fields |
| Lockout.LoginService.IncrementFailures | Api/src/modules/auth/auth.service.ts:315-319 | Increments the stored count, not a snapshot, and returns the row |
| Lockout.LoginService.DecideLock | Api/src/modules/auth/auth.service.ts:320-322 | Locks only at five or more and only when the returned row was not locked |
| Lockout.LoginService.CompareAndLock | Api/src/modules/auth/auth.service.ts:323-331 | Writes the deadline if and only if the row is still the one returned |
| MfaLogin.MfaLoginService.Load | Api/src/modules/mfa/mfa-challenge.service.ts:81-97 | One `null` for an unknown, consumed, expired or exhausted challenge and a wrong secret |
| MfaLogin.MfaLoginService.AdvanceFloor | Api/src/modules/auth/mfa-login.service.ts:67-78 | The floor moves to the accepted step only if it is still the one read |
| MfaLogin.MfaLoginService.RedeemCode | Api/src/modules/mfa/backup-code.service.ts:51-61 | The first matching code of those read is stamped only if still unused |
| MfaLogin.MfaLoginService.CountFailure | Api/src/modules/mfa/mfa-challenge.service.ts:121-131 | Counts an attempt only on an open challenge |
| MfaLogin.MfaLoginService.ConsumeChallenge | Api/src/modules/mfa/mfa-challenge.service.ts:104-115 | The consume has one winner and needs an open challenge |
| MfaLogin.MfaLoginService.Issue | Api/src/modules/auth/mfa-login.service.ts:116 | Only the winner of the consume gets a session |
| MfaLogin.MfaLoginService.ReplaceBackupCodes | Api/src/modules/mfa/backup-code.service.ts:30-40 | The whole set of codes is replaced in one step |
| MfaLogin.MfaLoginService.MarkFactorVerified | Api/src/modules/password-reset/password-reset-challenge.service.ts:124-136 | The stamp needs an open, unstamped challenge and a proven factor; the loser of a race gets nothing |
| MfaLogin.MfaLoginService.BeginManagement | Api/src/modules/auth/mfa-management.service.ts:103-115 | The secret and floor a re-authentication or a confirmation will rely on |
| MfaLogin.MfaLoginService.WriteFloor | Api/src/modules/auth/mfa-management.service.ts:238-248 | The accepted step is written whatever the row holds by then |
| MfaLogin.MfaLoginService.RedeemWithoutChallenge | Api/src/modules/auth/mfa-management.service.ts:250-252 | MFA management redeems a code of the same table, only if still unused |
| MfaLogin.MfaLoginService.Start | Api/src/modules/auth/mfa-enrollment.service.ts:40-44 | A new secret and no floor |
| MfaLogin.MfaLoginService.DisableMfa | Api/src/modules/auth/mfa-management.service.ts:75-90 | Secret, floor and backup codes go in one transaction |
| MfaLogin.MfaLoginService.ResetMfa | Api/src/modules/auth/mfa-management.service.ts:151-174 | The same with the sessions and the login and enrolment challenges |
| MfaLogin.MfaLoginService.RevokeAllTrust | Api/src/modules/password-reset/password-reset.service.ts:412-440 | Every session and every challenge of the user |
| ResetChallenge.PasswordResetChallengeService.LoadOpen | Api/src/modules/password-reset/password-reset-challenge.service.ts:95-115 | One `null` for every reject, otherwise the row |
| ResetChallenge.PasswordResetChallengeService.MarkFactorVerified | Api/src/modules/password-reset/password-reset-challenge.service.ts:124-136 | The stamp is set once, on an open challenge |
| ResetChallenge.PasswordResetChallengeService.CompleteReset | Api/src/modules/password-reset/password-reset.service.ts:270-288 | Consume and revocation of all other trust are one step, won by one caller |
| ResetChallenge.PasswordResetChallengeService.RevokeChallenges | Api/src/modules/password-reset/password-reset.service.ts:430-439 | Every other open challenge of the user is closed |
| ResetChallenge.PasswordResetChallengeService.RegisterFailedAttempt | Api/src/modules/password-reset/password-reset-challenge.service.ts:164-174 | Counts an attempt only on an open challenge |
| Throttler.Redis.Increment | Api/src/common/throttler/redis-throttler.storage.ts:31-66 | The script, command by command, is one counted hit or one blocked answer |
| Throttler.RedisThrottlerStorage.Increment | Api/src/common/throttler/redis-throttler.storage.ts:78-121 | An answer from Redis is reported; an error is answered blocked, never allowed |
| Customers.CustomersService.UpdateChecks | Api/src/modules/customers/customers.service.ts:385-421 | The checks, in order, on the row read |
| Customers.CustomersService.UpdateWrite | Api/src/modules/customers/customers.service.ts:423-465 | The versioned write with its decision row and audit entry: every column as the merge of request and row gives it, the address as one block, and the refusal of a taken e-mail address |
| Customers.CustomersService.Delete | Api/src/modules/customers/customers.service.ts:499-514 | Soft delete of a live row, one version up |
| PostingService.TransactionsService.Find | Api/src/modules/transactions/transactions.service.ts:101-133 | Kind check, then an existing key row is resolved, or reclaimed when stale |
| PostingService.TransactionsService.DeleteStale | Api/src/modules/transactions/transactions.service.ts:127-129 | The reclaim deletes whatever row the key has by then |
| PostingService.TransactionsService.CreateKey | Api/src/modules/transactions/transactions.service.ts:135-148 | The insert claims the key or loses it |
| PostingService.TransactionsService.FindAgain | Api/src/modules/transactions/transactions.service.ts:146-153 | The loser resolves the row it finds |
| PostingService.TransactionsService.LockAndLoadWallets | Api/src/modules/transactions/transactions.service.ts:468-496 | Unknown wallet before cross currency, over all legs |
| PostingService.TransactionsService.AssertSufficientBalance | Api/src/modules/transactions/transactions.service.ts:499-512 | True if and only if every checked debit of a customer wallet is covered |
| PostingService.TransactionsService.WriteBalancedLedger | Api/src/modules/transactions/transactions.service.ts:579-606 | All numbers are taken before any insert, and the sum check cannot fail |
| PostingService.TransactionsService.ApplyBalanceDeltas | Api/src/modules/transactions/transactions.service.ts:609-617 | Each leg moves its balance |
| PostingService.TransactionsService.ExecutePlan | Api/src/modules/transactions/transactions.service.ts:428-462 | Writes the transaction, its two entries, both balances and the reversed mark |
| PostingService.TransactionsService.PostByKind | Api/src/modules/transactions/transactions.service.ts:164-175 | Ledger and key row change together or not at all |
| PostingService.TransactionsService.ReleaseKey | Api/src/modules/transactions/transactions.service.ts:176-190 | A failed posting deletes its key row |
| SeedLedger.Builder.AddEntry | Api/scripts/seed-dev.ts:696-711 | Appends the entry with the counter's next number and moves the balance |
| SeedLedger.Builder.AddLegs | Api/scripts/seed-dev.ts:746-768 | The two entries by kind: debit first, then credit |
| SeedLedger.Builder.AddTx | Api/scripts/seed-dev.ts:713-769 | The header, then debit and credit by kind, on a run that stays in order |
| SeedLedger.Builder.AddRows | Api/scripts/seed-dev.ts:725-769 | The rows of one posting: the header and its two legs, nothing else |
| SeedLedger.Builder.AddCoverage | Api/scripts/seed-dev.ts:812-837 | Posts every kind in every status, in order |
| SeedLedger.Builder.GenerateOne | Api/scripts/seed-dev.ts:845-919 | One turn posts what the choice function says for the current balance: top up, withdraw, fee, small top up or transfer |
| SeedLedger.Builder.Build | Api/scripts/seed-dev.ts:665-930 | For any customers the result is balanced, paired, counted, free of overdrafts by generated debits, and has as many transactions as it reports, the sum of the counts of all wallets |
| SeedLedger.Builder.Balances | Api/scripts/seed-dev.ts:923-927 | Each reported balance is the fold of that wallet's entries |
| SeedLedger.Builder.AddOneCoverage | Api/scripts/seed-dev.ts:812-833 | One coverage posting: its header, wallets and amount by kind, currency and status |
| Notifications.NotificationService.List | Api/src/modules/notification/notification.service.ts:225-291 | The page is the slice of the full listing, with exact totals and unread count |
| Notifications.NotificationService.Stitch | Api/src/modules/notification/notification.service.ts:247-276 | The three branches of the window equal one slice |
| Retention.NotificationPruner.Prune | Api/src/modules/notification/notification.service.ts:338-370 | Run without interference: what is left is exactly what retention is to leave, and the count is what went |
| Retention.NotificationPruner.OverCap | Api/src/modules/notification/notification.service.ts:345-349 | Each recipient over the cap, once |
| Retention.NotificationPruner.CutDown | Api/src/modules/notification/notification.service.ts:352-365 | One recipient is cut down to its newest rows, by id |

## Left out

Contracts that say less than the source might be read to say:

- AuditRuns.ChainIsLinear: one process and a clock that does not step back between appends, which is what the tie-break of the code covers; `AuditForks.ChainIsLinearIff` has no such condition.
- AuditTamper.TamperEvident: the hash is any function to bar-free texts other than the genesis seed, and date texts are distinct for distinct instants; both are assumptions of the environment, and a collision is an explicit alternative of the conclusion.
- MfaLoginProofs.FactorsSpentOnce: of the TOTP check only that an accepted step is above the floor it was given, not that it lies in the time window around now.
- PostingReplays.RetryIsReplayed: for runs whose reclaims take remnants only, because it is false in general (`TwoReclaimersLoseTheReplay`); the exact condition is in `AlwaysKeptIff` and `RetryReplayedIff`.
- Customers.HonestWritesAreSound: for clients that send versions they could have read, because it is false otherwise (`FutureVersionSkipsReview`).
- SeedLedger.WithdrawalCovered: `Math.floor(x * 0.22)` and `Math.floor(x * 0.18)` are exact in the book; `SeedDoubles` carries the bounds over to doubles up to 2^46 major units. `Math.round` is exact rational rounding.
- Notifications.PagesCoverTheList: for one fixed order of ties across the requests; `NotificationTies` says exactly when that does not matter.
- Retention.NotificationPruner.Prune: its statements run without interference; `RetentionRuns` says what holds among other traffic.
- Throttler.WindowBound: for one key with constant limits and positive durations, which is how the limiter is configured.
- ResetChallenge.CompletionIsAuthorized: the time a completion stamps on the user's other challenges is read just before the transaction in the code and inside it in the model.

What the model does not contain:

- Argon2, AES-GCM, HMAC, SHA-256 and JWT: secrets are right or wrong, hashes are functions; randomness and fresh ids are parameters.
- JSON numbers are tokens; the conversion between doubles and their texts is not modelled. An `undefined` array item in an audit context would make the database client throw; the model prints it as `null`.
- `toISOString` is a parameter of the audit model. JavaScript values are primitives, arrays without holes, plain objects, and objects that JSON prints otherwise than by their own keys; big integers, for which both printers throw, are none, and a context itself is a plain object.
- Isolation anomalies inside one database statement or transaction, row-level security and advisory-lock mechanics: each statement or transaction is one step. An administrator's reset of sessions, codes and challenges is several steps, which allows more interleavings than the code.
- Redis durations that are zero or negative, for which the commands fail.
- Remembered devices, device fingerprints, notifications and audit entries as side effects of the login and reset flows.
- In customer updates: whether an e-mail address is taken, at the check and at the write, is an input; texts are as trimmed; validation of formats.
- Ledger rows with no counterpart in posting: statuses other than POSTED and REVERSED, public references, accounts, categories, balance holds. Wallets are provisioned before a run starts.
- The sum check of a posting plan and the `NotReversible` answer exist in the code but cannot occur for rows the service writes.
- Descriptions, dates and the risk data of the seed script; whether its coverage rows overdraw a wallet, which it does not promise.
- `parseToken`, `isUuid` as a test of inputs, masking, query parsers, DTO validation, controllers, guards, realtime streams and the web application: single-branch code or plumbing.
- Creation of customers, markRead and markAll, emit and its deduplication window: one-statement operations that would only add easy members.
- Money conversion between major and minor units and analytics percentages: binary floating point.
