# SibylHub: a verified model of its decision procedures

This project models, in Dafny, the parts of SibylHub whose answers are decided by their own code, and proves
what those parts promise: over every input, every cutting of a stream, every run of requests, every directory
tree. `dafny verify dfyconfig.toml` checks all of it.

| component | files |
|---|---|
| policy engine: registry validation, alias and policy index, package checks | `Registry.dfy`, `PolicyEngine.dfy` |
| day numbers to dates; the context budget in Rust and in JavaScript numbers | `Calendar.dfy`, `Budget.dfy`, `ClientBudget.dfy` |
| A2A stream reader, the accumulators behind it, and their bounded append | `SseReader.dfy`, `Telemetry.dfy`, `Capping.dfy` |
| candidate ingestion: the service, the client, and both over a lossy network | `Ingestion.dfy`, `IngestionProperties.dfy`, `Acceptance.dfy`, `Provenance.dfy`, `Interleaving.dfy`, `Synchronization.dfy`, `Protocol.dfy` |
| package identities and canonical forms that feed hashes | `Percent.dfy`, `Purl.dfy`, `DeterministicJson.dfy`, `CanonicalTree.dfy`, `NormalForm.dfy` |
| project scanner and dependency merge | `Scanner.dfy`, `ScanReading.dfy`, `Dependencies.dfy` |
| scraper run and artifact validation; from a run to the service's tables | `Candidates.dfy`, `CandidateValidator.dfy`, `RunAssembly.dfy`, `RunReading.dfy`, `EndToEnd.dfy` |
| shared | `Wrappers.dfy`, `Arithmetic.dfy`, `Sorting.dfy`, `Stability.dfy`, `Entries.dfy`, `Counting.dfy`, `Text.dfy`, `Splitting.dfy`, `FirstSeen.dfy` |

Code that updates state is a class or a method with the source's loops, proved equal to a specification
function; the results are lemmas about that function. What each operation puts into its answer is stated once more from
its inputs alone, in terms that the code does not use.

## Where the code does not do what it is for

Each of these is stated as the exact condition under which the code does meet the promise, with a lemma that
shows the other case.

- **Batches of one artifact.** Every batch carries the crawl id and the content identity of the whole artifact
  (sync.ts:114-136), and the service answers a known crawl with what it stored first
  (CandidateIngestionService.php:21-28). However often its batches are sent, an artifact is staged completely
  exactly when it fits one batch: `Protocol.AllStagedExactlyWhenOneBatch`, `Protocol.PastTheFirstBatch`.
- **Observations.** The client sends `source_id` (sync.ts:100-105), the service reads `sourceId`
  (CandidateIngestionService.php:75-83), so it can read none of them: `Protocol.ObservationsAreUnreadable`. A candidate
  with observations is always rejected: `Protocol.ArrivesValid` with `Acceptance.BatchIsExact`.
- **Identities in two languages.** The service rebuilds a candidate's identity without qualifiers and subpath, with
  `rawurlencode`, and treats the namespace `0` as absent: `Purl.LanguagesAgreeOnPortablePurls`.
- **Shared evidence.** The second of two candidates that cite one evidence record is rejected, but its staged row
  stays: `Acceptance.BatchIsExact`, `Acceptance.RejectedCandidateCanStayStaged`.
- **The lookup outside the transaction.** Overlapping requests can bind one crawl to two artifacts; only the pair of
  crawl and artifact stays unique: `Interleaving.FinishKeepsOneArtifact`, `Interleaving.TwoArtifactsForOneCrawl`.
- **Resent artifact chunks.** The comments at telemetry.rs:305-327 promise that a resent artifact does not multiply
  the answer and that another artifact discards nothing. One chunk: `Telemetry.ResendingIsHarmless` and
  `Telemetry.ChunkKeepsTheAnswer`. Whole streams: the answer is each artifact's latest text, whatever the texts are,
  exactly when the artifacts sent since the last immediate repetition are all of them, once each, in the order in which
  they first came: `Telemetry.LatestTextsExactly`; two artifacts are enough to miss it:
  `Telemetry.TwoArtifactsBreakResending`.
- **The bounded append.** The comment at telemetry.rs:335-337 promises that past the bound the text becomes a prefix.
  `push_capped` (token_estimate.rs:48-62) cuts between letters, and what is left of the bound takes the next line break:
  the text kept of a message is a prefix exactly when it fits, or is cut in its last part, or is cut without a byte to
  spare: `Capping.MessageIsBounded`, `Capping.BreakAfterTheCut`.
- **The unspecified state.** An encoder of version 1.0 that leaves out zero values leaves out `TASK_STATE_UNSPECIFIED`,
  and the state recorded before stays where version 0.3 records `unknown`: `Telemetry.VersionsReadAlike`.
- **Runtime ids.** A runtime id that two languages declare belongs to the later one. Every rearrangement of a registry
  answers every query alike exactly when no runtime id has two owners: `PolicyEngine.OrderIsInvisibleExactly`. A
  runtime literally named `*` is taken for the generic key: `PolicyEngine.IndexAgreesExactly`.
- **The budget in JavaScript numbers.** Client and backend agree on every ceiling while 35 times it is below 2^54. Up
  to 2^55 / 35 they disagree exactly on the ceilings that are 10 modulo 40 and, once 30 times the ceiling has passed
  2^54, on those that end in 5: `ClientBudget.AgreementInTheFirstBands`. On all safe integers the ceiling's residue
  modulo 3200, with the binary64 gaps at its size, decides: `ClientBudget.AgreementHasAPeriod`.

The registry serializer's normal form is not idempotent: an array numbered 0 to n - 1 out of order needs two passes
(`CanonicalTree.CanonicalIsIdempotent`, `CanonicalTree.ShuffledListNeedsTwoPasses`). The export is not affected, because
everything that it hashes or returns is normalised twice, and a third pass never changes anything
(`CanonicalTree.TwoPassesSettle`).

## What is assumed

- Parsing of JSON, TOML and YAML, UTF-8 validity in the stream reader, SHA-256, `JSON.stringify`, `json_encode`,
  trimming in the scraper, the credential scan, the artifact's schema with its scan for unsafe content, and the
  adapters' network answers are parameters of the model.
- `localeCompare` is any order of strings; where a result needs it to tell strings apart, that is a hypothesis
  (`TotalOrder`). `ksort`'s comparison totally orders the keys of each single array that it sorts, integers by value
  (`SoundKeyOrder`); nothing is assumed of other sets of keys.
- `JSON.stringify` prints undefined list items as null and different JSON values differently (`DeterministicJson.Prints`).
  `json_encode` prints different values differently, if no string key spells an integer, which PHP itself excludes, and
  no float prints as one (`CanonicalTree.Faithful`). Of SHA-256 only that the two texts at hand do not collide.
- JavaScript products and quotients are rounded to the nearest binary64 number, ties to even; this is modelled, not
  assumed (`ClientBudget`).
- An A2A 1.0 encoder may leave out zero values or write them; one that leaves them out does so for all of them
  (`Telemetry.V10`).
- The append of `Telemetry`'s results on whole texts never truncates; `Capping` says what the bounded one changes.
- No key of a JavaScript object spells an array index; such keys are listed first, whatever they are sorted by.
- A failed insert leaves the transaction usable, as in SQLite. A missing array key is an exception, as Laravel makes it.
- A directory has each name once and names hold no `/` (`Scanner.WellFormed`); file names are valid text.
- Strings are sequences of Unicode scalar values; JavaScript's lone surrogates are not modelled.

## Model

| member | source | states |
|---|---|---|
| Calendar.CivilDateIsTheCalendar | apps/backend/src/routes/mod.rs:409-421 | Day 0 is 1970-01-01, every day number gives a date of the proleptic Gregorian calendar, and the next day number gives the next date. |
| Calendar.CivilDateRoundTrips | apps/backend/src/routes/mod.rs:409-421 | The conversion and counting days from a date are inverse both ways, on all integers and all valid dates. |
| Calendar.OnlyTheFirstAdditionCanOverflow | apps/backend/src/routes/mod.rs:409-421 | On 64-bit day numbers only the addition of 719468 can overflow, exactly for the last 719468 of them; after it every product, sum and difference of the conversion fits. |
| Budget.AllocateContextBudget | apps/backend/src/routes/mod.rs:279-306 | The five shares sum to any 64-bit ceiling, each is its floor or one more, and the extra units go to the largest remainders, ties to the lower index; casts and saturation lose nothing. |
| Budget.HandOut | apps/backend/src/routes/mod.rs:295-303 | The hand-out loop gives one unit each to the first indices in serving order and ends with remainder 0. |
| Budget.ApportionmentIsOptimal | apps/backend/src/routes/mod.rs:279-306 | No other integer split of the ceiling has a smaller sum of absolute deviations from the exact weighted shares. |
| Budget.LargestRemainderUnique | apps/backend/src/routes/mod.rs:279-306 | Floors, remainders and total leave exactly one largest-remainder split. |
| Budget.SharesAreParts | apps/backend/src/routes/mod.rs:279-306 | The shares are 10, 15, 35, 30 and 10 per cent of the ceiling, each rounded down or up. |
| Budget.HundredsAreExact | apps/backend/src/routes/mod.rs:279-306 | A ceiling of whole hundreds is split exactly. |
| ClientBudget.AllocateContextBudgetJs | packages/api-client/src/budget.ts:17-50 | The client's version refuses exactly what is not a safe non-negative integer, and gives every other ceiling the largest-remainder split of the floors and remainders that binary64 arithmetic leaves it. |
| ClientBudget.HandsOutAlways | packages/api-client/src/budget.ts:31-39 | With products and quotients rounded as binary64 rounds them, the floors leave between 0 and 5 units for every safe integer. |
| ClientBudget.AgreeIsOneSplit | packages/api-client/src/budget.ts:17-50 | `Agree` means that the client's split is the one the backend's method is proved to give. |
| ClientBudget.AgreementHasAPeriod | packages/api-client/src/budget.ts:17-50 | On all safe integers whether the two agree depends only on the ceiling modulo 3200 and the gaps and scales of binary64 at its size, and is decided on the residue. |
| ClientBudget.AgreementInTheFirstBands | packages/api-client/src/budget.ts:17-50 | Up to 2^55 / 35 they disagree exactly where 35 times the ceiling has reached 2^54 and the ceiling is 10 modulo 40, and where 30 times it has and the ceiling ends in 5. |
| ClientBudget.ClientDiffersPast54 | packages/api-client/src/budget.ts:17-50 | A ceiling just past the bound at which they serve different partitions. |
| SseReader.SseEvents | apps/gateway/crates/sibyl-gateway-a2a/src/bridge.rs:600-648 | The buffer-and-drain loops yield the recursive reading of the deliveries, which the rows below characterise down to what each line yields. |
| SseReader.BufferIsBounded | apps/gateway/crates/sibyl-gateway-a2a/src/bridge.rs:600-648 | What is buffered between deliveries holds no newline and is within the cap. |
| SseReader.SplitIsExact | apps/gateway/crates/sibyl-gateway-a2a/src/bridge.rs:600-648 | The lines and the tail make up the body again; each line ends at its only newline and the tail has none. |
| SseReader.ReaderIsOnePass | apps/gateway/crates/sibyl-gateway-a2a/src/bridge.rs:600-648 | However a body is cut, unless a delivery overfills the buffer or fails, the events are those of the one-pass split at newlines. |
| SseReader.ChunkingDoesNotMatter | apps/gateway/crates/sibyl-gateway-a2a/src/bridge.rs:600-648 | Two cuttings of one body give the same events. |
| SseReader.ReaderStopsAtTrip | apps/gateway/crates/sibyl-gateway-a2a/src/bridge.rs:600-648 | An overfilled buffer or a failed connection: the complete lines before it, then that error, unless a line's own error came first. |
| SseReader.NothingAfterAnError | apps/gateway/crates/sibyl-gateway-a2a/src/bridge.rs:600-663 | An error is the last event of a stream. |
| SseReader.LineYields | apps/gateway/crates/sibyl-gateway-a2a/src/bridge.rs:650-664 | A line that is not UTF-8 fails the stream; one that does not begin with `data:` or has nothing but blanks after it yields nothing; the payload between blanks and line ends is the event, or fails the stream if it is not JSON. |
| SseReader.DataLineSplits | apps/gateway/crates/sibyl-gateway-a2a/src/bridge.rs:650-664 | Every line that begins with `data:` has these parts, so the four cases are all. |
| SseReader.LastLineCounts | apps/gateway/crates/sibyl-gateway-a2a/src/bridge.rs:635-646 | A body of one unterminated data line yields its event exactly when it is JSON and the malformed-event error exactly when it is not. |
| Telemetry.A2aCallFacts.ObserveResult | apps/gateway/crates/sibyl-gateway-a2a/src/telemetry.rs:255-273 | A task id, a context id and a normalised state are taken over from the payload of either version; an absent or empty one erases nothing. |
| Telemetry.RequestNamesItsTask | apps/gateway/crates/sibyl-gateway-a2a/src/telemetry.rs:226-248 | A task that the request names is recorded whatever `params.id` is, else a known task stays, else `params.id` is taken; a named context is taken over; nothing known is erased. |
| Telemetry.IdIsAFallback | apps/gateway/crates/sibyl-gateway-a2a/src/telemetry.rs:226-248 | Requests that differ in `params.id` alone are read alike exactly when a task is named or known or the ids say the same. |
| Telemetry.SentMessageIsRead | apps/gateway/crates/sibyl-gateway-a2a/src/telemetry.rs:226-248 | A request that sends a message continues the message's task and context, in both wire versions. |
| Telemetry.ResultText.Observe | apps/gateway/crates/sibyl-gateway-a2a/src/telemetry.rs:338-395 | The two segments after an event are two independent folds of it. |
| Telemetry.ResultText.Joined | apps/gateway/crates/sibyl-gateway-a2a/src/telemetry.rs:399-405 | The answer and the statement, joined by a line break when neither is empty. |
| Telemetry.EventStates | apps/gateway/crates/sibyl-gateway-a2a/src/telemetry.rs:338-395 | In either version a task or status update states the non-empty texts of its status message, a message its own, line by line; an artifact update states nothing, and then the old statement stays. |
| Telemetry.EventAnswers | apps/gateway/crates/sibyl-gateway-a2a/src/telemetry.rs:338-383 | In either version a task's artifact texts, in order, replace the answer; an artifact's texts replace, continue or follow it by id and flag; any other event leaves it. |
| Telemetry.StreamStates | apps/gateway/crates/sibyl-gateway-a2a/src/telemetry.rs:338-395 | After a stream the statement is the texts of the last event that states any. |
| Telemetry.StateSpellingsAgree | apps/gateway/crates/sibyl-gateway-a2a/src/telemetry.rs:144-154 | The 0.3 and the 1.0 spelling of every task state are recorded as the same label. |
| Telemetry.PayloadReached | apps/gateway/crates/sibyl-gateway-a2a/src/telemetry.rs:426-450 | The payload is reached whether it stands alone (0.3) or under its member's name (1.0). |
| Telemetry.VersionsReadAlike | apps/gateway/crates/sibyl-gateway-a2a/src/telemetry.rs:255-395 | A stream of tasks, messages, status and artifact updates gives the same ids, answer and statement in both wire versions; the same state exactly unless version 1.0 leaves out an unspecified state that comes last and something else was recorded. |
| Telemetry.VersionsEndAlike | apps/gateway/crates/sibyl-gateway-a2a/src/telemetry.rs:176-191 | Both versions end the stream at the same event exactly when `final` is set on no ongoing state. |
| Telemetry.RecordedStateIsBounded | apps/gateway/crates/sibyl-gateway-a2a/src/telemetry.rs:144-154 | Whatever the upstream sends, the recorded state is empty or one of nine labels. |
| Telemetry.StatementIsTheLast | apps/gateway/crates/sibyl-gateway-a2a/src/telemetry.rs:338-395 | The statement is the last non-empty one of the run. |
| Telemetry.AnswerFromBearersAlone | apps/gateway/crates/sibyl-gateway-a2a/src/telemetry.rs:338-395 | The answer is that of the artifact-bearing events alone. |
| Telemetry.SilentEventsDoNotMatter | apps/gateway/crates/sibyl-gateway-a2a/src/telemetry.rs:338-395 | Inserting or deleting other events never changes the answer. |
| Telemetry.SnapshotErasesTheAnswer | apps/gateway/crates/sibyl-gateway-a2a/src/telemetry.rs:338-395 | After a task snapshot with text the answer no longer depends on what came before it. |
| Telemetry.ChunkKeepsTheAnswer | apps/gateway/crates/sibyl-gateway-a2a/src/telemetry.rs:349-374 | A chunk keeps the answer so far exactly when its artifact is not the current one, it appends, or it repeats that answer. |
| Telemetry.ResendingIsHarmless | apps/gateway/crates/sibyl-gateway-a2a/src/telemetry.rs:349-374 | Sending a chunk of any parts twice equals sending it once exactly when it does not append and the answer before was empty or of the same artifact. |
| Telemetry.LatestTextsExactly | apps/gateway/crates/sibyl-gateway-a2a/src/telemetry.rs:305-374 | For which sequences of artifact ids the answer is always the join of each artifact's latest text: those sent since the last immediate repetition are all of them, each once, in first order. |
| Telemetry.TwoArtifactsBreakResending | apps/gateway/crates/sibyl-gateway-a2a/src/telemetry.rs:349-374 | With two artifacts, resending the second drops the first and resending the first repeats it. |
| Capping.TextIsBounded | apps/gateway/crates/sibyl-gateway-proxy/src/token_estimate.rs:48-62 | What the bounded append keeps of any texts is within the bound, begins with as much of the whole text as fits, and is a prefix exactly when that fits, is cut in its last part, or is cut without a byte to spare. |
| Capping.MessageIsBounded | apps/gateway/crates/sibyl-gateway-a2a/src/telemetry.rs:334-395 | The same of the statement that a message leaves, in both wire versions. |
| Capping.PartsAreCollected | apps/gateway/crates/sibyl-gateway-a2a/src/telemetry.rs:410-422 | With any append, what is collected of a message's parts is made of its non-empty texts, a line break before each but the first. |
| Capping.BreakAfterTheCut | apps/gateway/crates/sibyl-gateway-a2a/src/telemetry.rs:334-395 | A text that fills the bound but for one byte, a two-byte letter and a second text: the letter goes, the break stays. |
| Registry.ValidateIndex | apps/backend/src/engine/mod.rs:827-860 | Accepts exactly an index of version 2.0 with a revision, whose language ids are the 25 expected ones, each once, with 25 distinct builders and complete entries. |
| Registry.ValidateArtifacts | apps/backend/src/engine/mod.rs:872-1141 | Accepts exactly the artifacts that match the index one by one, pass all their checks and together use exactly the builders of the index. |
| PolicyEngine.InsertAliasRepresents | apps/backend/src/engine/mod.rs:1544-1558 | Inserting an alias fails exactly when it already stands for another id; the map otherwise represents one more pair. |
| PolicyEngine.BuildEngine | apps/backend/src/engine/mod.rs:1143-1287 | Building succeeds exactly when no alias stands for two ids and every invariant's packages exist; the index then holds exactly the rules the artifacts declare. |
| PolicyEngine.FromV2 | apps/backend/src/engine/mod.rs:448-464 | A split registry loads exactly when index and artifacts pass validation and no alias is ambiguous; the engine then holds what they declare and lists the expected languages in order. |
| PolicyEngine.CheckPackages | apps/backend/src/engine/mod.rs:369-435 | The loops, the set of reported invariants and the sort compute the specified answer. |
| PolicyEngine.CheckIsTheScan | apps/backend/src/engine/mod.rs:369-435 | The answer is, as a multiset, what a plain scan of the language's invariants finds for each dependency, sorted by all four fields. |
| PolicyEngine.ViolationsSay | apps/backend/src/engine/mod.rs:1237-1281 | A violation is in the answer exactly when an invariant of the language, bound to no other runtime, bans a package that the dependency names; it carries the dependency, the invariant's severity and reason, and its own example or else the approved package's name. |
| PolicyEngine.IndexAgreesExactly | apps/backend/src/engine/mod.rs:400-425 | Index and scan agree on every alias exactly when no invariant is bound to a runtime literally named `*`. |
| PolicyEngine.CheckRefuses | apps/backend/src/engine/mod.rs:369-398 | Each of the five outcomes of a query, four refusals and an answer, with its exact condition on aliases, ownership and dependencies. |
| PolicyEngine.OrderIsInvisibleExactly | apps/backend/src/engine/mod.rs:1143-1287 | Every rearrangement of languages, runtimes, packages and invariants, or of the languages alone, answers every query alike exactly when no runtime id has two owners. |
| PolicyEngine.SharedRuntimeDependsOnOrder | apps/backend/src/engine/mod.rs:1193-1205 | For any two languages that declare one runtime id, some order of the languages builds an engine that answers some query differently. |
| PolicyEngine.FieldsOrderIsTotal | apps/backend/src/engine/mod.rs:427-433 | The sort key covers every field of a violation. |
| PolicyEngine.ValidatedFailsOnlyOnAliases | apps/backend/src/engine/mod.rs:1143-1287 | After validation, building can fail only on an ambiguous alias; both unresolved-package branches are unreachable. |
| PolicyEngine.LanguagesAreTheExpectedOnes | apps/backend/src/engine/mod.rs:1479-1493 | The built languages are the 25 expected ones, each once, in order of their ids. |
| PolicyEngine.ViewsSay | apps/backend/src/engine/mod.rs:1173-1194 | The engine lists each language with its own names and its runtimes and invariants in order. |
| PolicyEngine.AliasesResolve | apps/backend/src/engine/mod.rs:256-272 | A normalised language or runtime alias resolves to the one id that declared it and to nothing else. |
| Percent.DecodeEncode | packages/schemas/src/candidates.ts:286-301 | Decoding undoes percent-encoding, for every string and both languages' character sets. |
| Percent.PlainExactly | packages/schemas/src/candidates.ts:286-301 | A text is printed as it is exactly when it is made of ASCII letters, digits and `-_.!~*'()` in JavaScript, `-_.~` in PHP. |
| Percent.OthersBecomeTriplets | packages/schemas/src/candidates.ts:286-301 | Every other character becomes the upper-case percent triplets of its UTF-8 bytes. |
| Purl.ParseUndoesPrint | packages/schemas/src/candidates.ts:286-301 | A parser recovers type, namespace, name, version, sorted qualifiers and subpath from the printed identity. |
| Purl.IdentityIsThePackage | packages/schemas/src/candidates.ts:286-301 | Two PURLs share an identity exactly when they are equal up to qualifier order and absent or empty namespace and subpath. |
| Purl.TiedKeysShowTheirOrder | packages/schemas/src/candidates.ts:286-301 | If the collation ties two qualifier keys, their insertion order shows in the identity. |
| Purl.NormalizedIsRecovered | packages/schemas/src/candidates.ts:405-421 | The identity of a normalised PURL gives exactly that PURL back. |
| Purl.PlainIdentity | packages/schemas/src/candidates.ts:286-301 | A PURL of such characters is printed literally: type, namespace, name, version, sorted qualifiers and subpath with their separators. |
| Purl.PlainPhpIdentity | apps/backoffice/app/Services/CandidateIngestionService.php:172-180 | The service prints type, namespace, name and version literally. |
| Purl.LanguagesAgreeOnPortablePurls | apps/backoffice/app/Services/CandidateIngestionService.php:172-180 | The service computes the printed identity exactly for PURLs without qualifiers and subpath, without the characters `!*'()` and with another namespace than `0`. |
| DeterministicJson.OneFormExactly | packages/schemas/src/candidates.ts:270-284 | Two values are rewritten alike exactly when they are the same up to key order and undefined members, at every depth. |
| DeterministicJson.PrintedAlikeExactly | packages/schemas/src/candidates.ts:282-284 | Two values serialize alike exactly when they are the same in that sense, undefined list items counted as null. |
| DeterministicJson.ObjectForm | packages/schemas/src/candidates.ts:270-280 | An object becomes its defined members, rewritten, in the order of their keys. |
| DeterministicJson.ListForm | packages/schemas/src/candidates.ts:270-272 | A list keeps its order, and scalars stay. |
| CanonicalTree.Canonicalize | apps/backoffice/app/Services/NormalizedRegistrySerializer.php:157-173 | The recursive procedure with its loops and sorts computes the specified form. |
| NormalForm.ListForm | apps/backoffice/app/Services/NormalizedRegistrySerializer.php:161-167 | A list becomes its normalised items ordered byte by byte by their `id`, else `slug`, else `ordinal`, each if not null, as PHP prints it; those of one text keep their order. |
| NormalForm.MapForm | apps/backoffice/app/Services/NormalizedRegistrySerializer.php:168-171 | Any other array becomes its keys in order, each with its normalised value. |
| CanonicalTree.CanonicalIsIdempotent | apps/backoffice/app/Services/NormalizedRegistrySerializer.php:157-173 | Normalising twice is normalising once exactly for values without a shuffled list whose items are out of order. |
| CanonicalTree.ShuffledListNeedsTwoPasses | apps/backoffice/app/Services/NormalizedRegistrySerializer.php:157-173 | An array with keys 1, 0 whose normal form changes on the second pass. |
| CanonicalTree.TwoPassesSettle | apps/backoffice/app/Services/NormalizedRegistrySerializer.php:29-47 | After two passes, which all that the export hashes or returns goes through, a third changes nothing. |
| CanonicalTree.TwoPassFormIsAlike | apps/backoffice/app/Services/NormalizedRegistrySerializer.php:157-173 | Two values have one form after two passes exactly when, numbered arrays read as lists, they differ only in key order and in list order between items of different identifying text. |
| CanonicalTree.MapOrderIsInvisible | apps/backoffice/app/Services/NormalizedRegistrySerializer.php:168-171 | The order of map entries does not show. |
| CanonicalTree.ListOrderIsInvisible | apps/backoffice/app/Services/NormalizedRegistrySerializer.php:161-167 | The order of list items with pairwise different identifying texts does not show. |
| CanonicalTree.KeylessItemsStay | apps/backoffice/app/Services/NormalizedRegistrySerializer.php:165-165 | Items without identifying text keep their order, by stability of the sort. |
| CanonicalTree.RevisionIsTheRegistry | apps/backoffice/app/Services/NormalizedRegistrySerializer.php:29-30 | Two graphs, normalised, wrapped, normalised again, printed and hashed, get one revision exactly when they are alike in that sense, unless the hashes of their two texts collide. |
| NormalForm.RevisionText | apps/backoffice/app/Services/NormalizedRegistrySerializer.php:29-30 | The revision is `sha256:` and the hash of the printed members `graph`, normalised twice, and `schemaVersion` 2.0. |
| Ingestion.CandidateIngestionService.Ingest | apps/backoffice/app/Services/CandidateIngestionService.php:16-107 | New store and answer of one request are the specified ones; a failed transaction leaves the store as it was. |
| Ingestion.CandidateIngestionService.Stage | apps/backoffice/app/Services/CandidateIngestionService.php:43-91 | The guarded inserts of one candidate: rows inserted before a failure stay. |
| Ingestion.CandidateIngestionService.ResponseForBatch | apps/backoffice/app/Services/CandidateIngestionService.php:212-225 | The reported outcomes and their counts are those of the batch's stored rows. |
| Ingestion.ProcessAddsOneOutcome | apps/backoffice/app/Services/CandidateIngestionService.php:41-100 | A candidate adds exactly one outcome row under its id, which an accepted one links to its staged row; it breaks the transaction exactly when that id is taken or cannot be printed. |
| IngestionProperties.ProcessKeepsSound | apps/backoffice/database/migrations/2026_09_22_000000_create_candidate_staging_tables.php:12-80 | Every unique key stays unique, every outcome points right, and every evidence and observation row names a staged row of its own batch. |
| IngestionProperties.AllAddOutcomes | apps/backoffice/app/Services/CandidateIngestionService.php:41-100 | The loop completes exactly when all outcome ids are printable and distinct; it adds one outcome per candidate, in order. |
| IngestionProperties.CommittedBatch | apps/backoffice/app/Services/CandidateIngestionService.php:30-104 | A new crawl commits exactly when no two candidates write the same outcome id; its outcomes are the envelope's candidates, in order. |
| IngestionProperties.CountsSum | apps/backoffice/app/Services/CandidateIngestionService.php:219-222 | The five counts sum to the number of outcomes. |
| IngestionProperties.AcceptedIsStagedOnce | apps/backoffice/app/Services/CandidateIngestionService.php:45-91 | An accepted outcome has exactly one staged row with its candidate id. |
| IngestionProperties.ReplayIsIdempotent | apps/backoffice/app/Services/CandidateIngestionService.php:21-28 | A replay leaves the store unchanged and answers duplicate exactly where the stored outcome is accepted; another artifact under the crawl is refused. |
| IngestionProperties.CrawlKeepsItsArtifact | apps/backoffice/app/Services/CandidateIngestionService.php:16-107 | Over every run of requests a committed crawl keeps its content identity and its outcome rows. |
| IngestionProperties.EveryReachableStoreIsSound | apps/backoffice/app/Services/CandidateIngestionService.php:16-107 | No run from an empty store breaks the store's invariant, one artifact per crawl included. |
| Acceptance.BatchIsExact | apps/backoffice/app/Services/CandidateIngestionService.php:41-100 | Outcome i is accepted exactly when its candidate is valid, readable, and cites no evidence claimed earlier; the staged rows are those of all valid candidates, rejected ones included. |
| Acceptance.AcceptedShareNoEvidence | apps/backoffice/app/Services/CandidateIngestionService.php:56-74 | Two accepted candidates of a batch never rest on the same evidence. |
| Acceptance.AllAcceptedExactlyWhenDisjoint | apps/backoffice/app/Services/CandidateIngestionService.php:41-100 | Valid, readable candidates are all accepted exactly when no two cite the same evidence. |
| Acceptance.RejectedCandidateCanStayStaged | apps/backoffice/app/Services/CandidateIngestionService.php:45-98 | A staged row does not imply acceptance. |
| Provenance.RowsOfTheBatch | apps/backoffice/app/Services/CandidateIngestionService.php:43-91 | In a committed batch each valid candidate's staged row has under it exactly the envelope's evidence that it cites, up to the first held by an earlier candidate, and its observations up to the first unreadable one, each with its own kind and source; all of them if it is accepted. |
| Interleaving.OverlapKeepsRows | apps/backoffice/database/migrations/2026_09_22_000000_create_candidate_staging_tables.php:21-78 | However requests overlap, crawl and artifact stay unique as a pair, and all row invariants hold. |
| Interleaving.FinishKeepsOneArtifact | apps/backoffice/app/Services/CandidateIngestionService.php:21-30 | A transaction breaks the binding of a crawl to one artifact exactly when it commits a crawl stored since it looked; for the same artifact it changes nothing. |
| Interleaving.TwoArtifactsForOneCrawl | apps/backoffice/app/Services/CandidateIngestionService.php:21-30 | A run of two overlapping requests that binds one crawl to two artifacts. |
| Interleaving.OneArtifactWhenBound | apps/backoffice/app/Services/CandidateIngestionService.php:21-30 | If the crawl id determines the artifact, no overlap breaks the binding. |
| Synchronization.SynchronizationClient.Synchronize | apps/scraper/src/sync.ts:167-250 | Whatever is answered: n divided by the batch size, rounded up, batches are sent; each candidate's outcome is what its batch's reply says of it; the counters tally the outcomes. |
| Synchronization.SynchronizationClient.ReadReply | apps/scraper/src/sync.ts:210-246 | A reply is read as a whole or, if anything throws, not at all. |
| Synchronization.EveryCandidateIsReported | apps/scraper/src/sync.ts:138-250 | One outcome per candidate in artifact order, and five counters that sum to n. |
| Synchronization.FindIsFirst | apps/scraper/src/sync.ts:219-221 | The lookup returns the first element naming the candidate, and throws at a null before it. |
| Synchronization.OutcomeSays | apps/scraper/src/sync.ts:210-246 | A candidate is reported with the status sent for it if that is one of the four final words, and the first 256 characters of its message, where its batch's reply can be read for all its candidates; in every other case as retryable. |
| Protocol.ObservationsAreUnreadable | apps/scraper/src/sync.ts:100-105 | An observation as the client sends it cannot be read by the service, which looks for `sourceId`. |
| Protocol.ArrivesValid | apps/scraper/src/sync.ts:41-112 | A candidate under its own identity is valid for the service exactly when its PURL is portable and its evidence known; its observations are readable exactly when it has none. |
| Protocol.EnvelopeIsAdmitted | apps/backoffice/app/Services/CandidateIngestionService.php:118-162 | A batch is let in exactly when crawl id and content identity have their forms, it is within the limit, its evidence ids are distinct, and the scan passes. |
| Protocol.ReportsAreBacked | apps/scraper/src/sync.ts:167-250 | Over every pattern of lost requests, lost replies and foreign requests, a candidate reported accepted or duplicate has a staged row in a batch of its crawl and artifact, then and ever after. |
| Protocol.AllStagedExactlyWhenOneBatch | apps/scraper/src/sync.ts:114-136 | Valid candidates of an artifact, its batches sent in any order and number, are all staged exactly when they fit one batch. |
| Protocol.InTheFirstBatch | apps/scraper/src/sync.ts:167-250 | In a session on a new crawl without losses, a candidate of the first batch is reported accepted exactly when it was acceptable, else rejected. |
| Protocol.PastTheFirstBatch | apps/scraper/src/sync.ts:167-250 | In such a session every candidate past the first batch is reported retryable. |
| Scanner.Scan | apps/cli/src/scanner/mod.rs:29-74 | The worklist terminates on every finite tree, succeeds exactly when nothing it touches is unreadable, and returns the sorted files and manifests of the unpruned part of the tree. |
| Scanner.ReadDirectory | apps/cli/src/scanner/mod.rs:36-66 | One directory's own files and its children to read make up everything below it. |
| Scanner.EachFolderOnce | apps/cli/src/scanner/mod.rs:34-69 | A directory is visited exactly when neither it nor one above it is pruned, and never twice. |
| Scanner.EachFileOnce | apps/cli/src/scanner/mod.rs:29-105 | Every regular file of those directories is listed once, with the manifest detected in it. |
| Scanner.ListingOrderIsInvisible | apps/cli/src/scanner/mod.rs:29-74 | Success and result do not depend on the order in which directories are listed. |
| ScanReading.ScanSays | apps/cli/src/scanner/mod.rs:29-163 | The result lists exactly the paths of the regular files reached through directories with none of the four pruned names, and for each of the eight manifest names its kind, language, runtime, and package manager and lockfile if one stands beside it. |
| Dependencies.ExtractDependencies | apps/cli/src/scanner/mod.rs:172-207 | The last declared version of a name wins over every pinned one, of which the first counts. |
| Dependencies.KeyIsRead | apps/cli/src/scanner/mod.rs:394-404 | A pnpm key printed from name, version and peers gives name and version back, scoped names included. |
| CandidateValidator.CheckReferences | packages/schemas/src/candidates.ts:335-385 | The validator's loops push exactly the specified issues, in order. |
| CandidateValidator.NoIssuesExactly | packages/schemas/src/candidates.ts:335-385 | There is no issue exactly when every identity derives from its PURL and all checked evidence references resolve. |
| CandidateValidator.IssuesAreJustified | packages/schemas/src/candidates.ts:335-385 | An issue is raised at a candidate and part exactly when the identity differs or unknown evidence is cited there. |
| CandidateValidator.ObservationsAreUnchecked | packages/schemas/src/candidates.ts:345-385 | Candidate lists that differ in their observations alone give the same issues: what observations cite is never checked. |
| RunAssembly.RunAdapter | apps/scraper/src/adapters.ts:141-182 | The loop delivers candidates and failures of the first `limit` summaries, in order. |
| RunAssembly.EverySummaryCounts | apps/scraper/src/adapters.ts:76-182 | Every such summary is a candidate or a failure; a candidate carries its own identity and no detection twice. |
| RunReading.DeliveredAreMade | apps/scraper/src/adapters.ts:76-182 | Every delivered candidate is made of one summary's details: normalised PURL, its own identity, evidence once each, and the first detection of each kind and name from adapter and classifier. |
| RunReading.FailuresAre | apps/scraper/src/adapters.ts:141-182 | A package fails exactly when it cannot be fetched or searched, or a URL of it does not parse. |
| RunAssembly.EcosystemsAreSettled | apps/scraper/src/cli.ts:67-76 | Sources come once each and normalising again changes nothing. |
| RunReading.SourcesAskedFor | apps/scraper/src/cli.ts:67-76 | A source is asked for exactly when a word is its name, an alias of it, or `all` and it is one of the six. |
| RunAssembly.ExecuteRun | apps/scraper/src/cli.ts:78-255 | The run keeps the first candidate of each identity and its counters are the coverage's column sums; the artifact is missing exactly when nothing is kept, and refused exactly when the schema, the content scan or a reference check refuses it. |
| RunAssembly.KeptInFirstSeenOrder | apps/scraper/src/cli.ts:136-161 | Each identity is kept once, at the place where the sources first delivered it. |
| RunAssembly.CountersTellTheArtifact | apps/scraper/src/cli.ts:127-248 | The summed columns equal what the artifact holds: normalised, deduplicated, classified and conflicted candidates. |
| RunReading.CoverageSays | apps/scraper/src/cli.ts:127-205 | The coverage of a source: what it discovered, detailed and failed, and what of it was kept beside the sources before it, classified and conflicted ones counted. |
| RunReading.CountersSum | apps/scraper/src/cli.ts:127-205 | The counters of discovered packages and failures are the sums over the sources. |
| RunAssembly.EvidenceIsCited | apps/scraper/src/cli.ts:207-222 | There is one evidence record for each id that some kept candidate lists. |
| RunReading.EvidenceHasLastSource | apps/scraper/src/cli.ts:207-222 | Each evidence record has the source of the last kept candidate that cites it. |
| RunReading.ArtifactIsOrdered | apps/scraper/src/artifact.ts:40-76 | The artifact lists what was kept, cited and covered, each in the order of its ids. |
| RunAssembly.ReferencesResolveExactly | apps/scraper/src/artifact.ts:40-92 | The assembled artifact passes the reference checks exactly when all nested evidence ids are some kept candidate's own. |
| RunAssembly.OwnEvidenceIsEnough | apps/scraper/src/artifact.ts:78-92 | Candidates that cite only their own evidence always pass the reference checks. |
| EndToEnd.ValidatedArrives | apps/backoffice/app/Services/CandidateIngestionService.php:165-190 | A validated candidate is valid for the service exactly when its PURL is portable. |
| EndToEnd.RunIsStagedExactlyWhenOneBatch | apps/scraper/src/sync.ts:114-250 | A run's validated artifact with portable PURLs, once its crawl is stored, is staged completely exactly when it fits one batch. |

## Left out

- Ingestion.CandidateIngestionService.Ingest: does not model column widths, timestamps, payload columns and diagnostics.
- Protocol.EnvelopeIsAdmitted: the further fields of an evidence record, their URL and hash, which the model's records do not carry.
- Synchronization.SynchronizationClient.Synchronize: the checks of token and URL in the constructor, timeouts and response size limits; a reply that breaks one is a failed reply.
- RunAssembly.ExecuteRun: the schema and the content scan are one parameter, their rules are not modelled; the enablement guards for synchronization and Firecrawl, per-source summaries, framework tallies and diagnostics.
- RunAssembly.EcosystemsAreSettled: words that are members of every JavaScript object, such as `constructor`.
- Scanner.Scan: which of several errors is reported; names that are not valid text.
- HTTP, TLS, etcd, Redis, Axum, Laravel and Filament wiring, file writes: I/O over libraries that are not part of this model.
- React, Astro and Docusaurus user interfaces; the gateway's admin handlers and stores.
- The legacy 1.0 engine, evidence validation, health aggregation, URL joining, package classification, method-name canonicalisation, configuration parsing: single-branch facts.
- `parse_yarn_lock` and the other lockfile parsers: no specification the code meets, or thin reads of a parsed value.
- The record builders of the registry serializer and the database import and export: the export is not the import's inverse.
