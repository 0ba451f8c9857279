# SHEIN operations server: a verified model

This project models the parts of the server whose correctness spans many calls, and proves what they
promise over all inputs, all runs and all interleavings.

- **Canonical JSON** (`Utf16`, `Decimals`, `Json`, `JsonRoundTrip`, `JsonCanonical`, `JsonGrammar`,
  `JsonParsing`): JavaScript strings as UTF-16 code units, numbers as exact decimals printed by
  Number::toString, `JSON.stringify`, `JSON.parse` against the grammar of RFC 8259, object property order, the
  plan serializer `stableJson` and `canonicalize` (key order as in section 3.2.3 of RFC 8785).
- **Webhooks** (`WebhookPayload`, `WebhookKey`, `WebhookReplay`, `WebhookIngress`, `WebhookRepair`):
  normalization through embedded JSON text, dedupe keys, the replay window, and the insert/enqueue/mark
  protocol as a step system.
- **AI titles** (`AiSlotPool`, `AiTitleCache`, `AiTitleHits`, `AiImageCache`, `AiImageReads`, `OrderedMap`):
  the slots and their queue, single flight with a settings epoch and how long its results are cached, the image
  cache and the shared reads in front of it.
- **Compliance** (`ComplianceRows`, `SyncToPlan`, `WarningRules`, `WarningValidity`, `WarningReports`,
  `WarningAgreement`, `WarningBuilds`, `OfficialIds`, `Preflight`, `AssignmentChecks`, `PreflightChoices`,
  `PlanReasons`, `RowStatus`, `PlanDocument`, `PlanReading`, `WriteExecutor`, `PlannedRequests`,
  `ComplianceSync`, `ComplianceRuns`, `ComplianceJobRows`, `ComplianceJobs`, `ComplianceRetries`, `Revalidation`):
  from the platform's answers to rows, plans, requests and gated execution; sync jobs over whole runs; the check
  before completion.
- **Store data sync** (`ConcurrentMap`, `RateLimiter`, `RequestGaps`), **authorization** (`Authorization`)
  and the **read-back simulator** (`FaultGates`). `JsStrings`, `JsNumbers`, `NumberTexts`,
  `Trimming` and `Options` are shared.

An `await` between reading and writing shared state is a step boundary: a state, its actions and a total
step function (an action that is not enabled changes nothing) give the runs, and invariants are proved for
every step. Where the server updates objects in place there is a class whose methods are proved against the
same functions. Loops of the server are loops here, proved against functions about which the results are
stated; and what these functions compute is characterized without them, so that the conditions of every
outcome, error code, cached answer and request can be read off a contract. Digests and signatures are taken to
be injective, so a key or token is the text that is digested.

Where the code and its promises differ, the code is modelled and the exact condition proved:

- `stableJson` and `canonicalize` differ on array-index keys (`PrintersAgree`, `PrintersDiffer`).
- Ids with a colon, or spelled "unscoped", can make two stores share a dedupe key (`SharesKeyIff`).
- A delivery that marks its event late takes a processed event back to queued (`ProcessedStaysIff`,
  `LateMarkUndoesProcessed`).
- A signed request is accepted at both ends of its window (`AcceptedTwiceAtTheEnds`), never a third time.
- A caller after a settings change can join a request begun before it (`JoinedAnswerCanBeStale`).
- A valid warning assignment is rejected by the builder when a copied text is blank or an empty id was
  selected (`ValidationAndCompilationAgree`).
- An SKC that the platform answers twice in one reply loses the items of its first answer
  (`NothingDroppedIff`, `SecondAnswerDropsItems`).
- A sync of selected SKCs replaces the failure list and so can lose failures (`SelectedKeepsPartitionIff`).
- A sync request reads the record before its body arrives and writes it back later, which can undo a job that
  ended in between (`JobsAreSerialIff`, `OldRecordComesBack`).
- A product sync that ends while a retry runs writes an old record back, and SKCs can then end up without a
  row and unlisted (`EveryMomentCoversIff`, `RestoreCoversIff`, `RestoreLosesSkcs`).
- A null row in the platform's answer makes a sync throw at its end: its failure list is not stored, so a full
  sync can lose SKCs and a retry can leave SKCs with a row listed as failed (`FullSyncPartitionsIff`,
  `RetryKeepsPartitionIff`, `NullRowSyncLosesSkc`, `NullRowRetryKeepsListing`).
- A row can be shown as passed although its plan has something to do, and the reverse
  (`PassedRowIsCompliantIff`, `CompliantRowIsPassedIff`).
- The limiter's interval does not hold between a retry and the next task (`IntervalHoldsIff`).
- Read-back can depend on the order when ids come with several codes (`OrderIrrelevantIff`).

## Model

| member | source | states |
|---|---|---|
| `Decimals.NumberRoundTrip` | server/compliance-write-executor.js:20-20 | reading a number printed by Number::toString gives the number back, whatever non-number text follows |
| `JsonRoundTrip.RoundTrip` | server/compliance-write-executor.js:19-28 | the parser reads back exactly the tree whose `JSON.stringify` text it is given and stops at its end, so escapes, numbers, arrays and objects are all undone |
| `JsonRoundTrip.ParseStringify` | server/webhook-ingress.js:45-45 | `JSON.parse` of the printed text is the value the tree stands for |
| `JsonRoundTrip.StringifyInjective` | server/compliance-write-executor.js:19-28 | different trees have different texts |
| `JsonCanonical.StableJsonCanonical` | server/compliance-write-executor.js:19-28 | two values have the same `stableJson` text if and only if they are equal up to the order of object keys |
| `JsonCanonical.ParseStableJson` | server/compliance-write-executor.js:19-28 | `JSON.parse` of the `stableJson` text is the canonicalized value |
| `JsonCanonical.CanonicalTextCanonical` | server/webhook-ingress.js:29-39 | printing a canonicalized value is canonical and injective as well, with array-index keys too |
| `JsonCanonical.PrintersAgree` | server/webhook-ingress.js:29-39 | `stableJson(v)` equals `JSON.stringify(canonicalize(v))` if and only if in every object the numeric order of array-index keys is their text order |
| `JsonCanonical.PrintersAgreeWithoutIndexKeys` | server/webhook-ingress.js:29-39 | without array-index keys both printers agree |
| `JsonCanonical.PrintersDiffer` | server/webhook-ingress.js:29-39 | with the keys "2" and "10" they differ |
| `JsonCanonical.FromEntriesFixed` | server/webhook-ingress.js:31-36 | `Object.fromEntries` keeps a list of entries if and only if its keys are distinct and in enumeration order |
| `JsonCanonical.EvaluateIsValue` | server/webhook-ingress.js:45-45 | whatever text is parsed, the result has distinct keys in enumeration order everywhere |
| `JsonCanonical.ParseStringifyValue` | server/webhook-ingress.js:41-50 | `JSON.parse` undoes `JSON.stringify` on every value of the language |
| `JsonParsing.ParseIff` | server/webhook-ingress.js:41-50 | `JSON.parse` accepts exactly the texts of the JSON grammar, white space and all escapes included, and gives the value of the tree that the text writes |
| `JsonParsing.ParseValueIff` | server/webhook-ingress.js:41-50 | the parser reads a tree to the end of a text if and only if the grammar derives the text from that tree |
| `JsonParsing.WrittenTreeUnique` | server/webhook-ingress.js:41-50 | so a text writes one tree at most |
| `JsonGrammar.MakeNumberValue` | server/webhook-ingress.js:41-50 | the number made of digits, point and exponent has the value that they spell, zeros at either end or not |
| `WebhookPayload.ParseJsonStringWeight` | server/webhook-ingress.js:41-50 | re-entering a string never gains text, and loses some when it yields a container: the reason why normalization ends |
| `WebhookPayload.ReenteredIff` | server/webhook-ingress.js:41-50 | a string is re-entered if and only if, trimmed, it is the JSON text of an object or an array, and then becomes that text's value |
| `WebhookPayload.NormalizeObject` | server/webhook-ingress.js:52-64 | normalizing an object keeps its keys, their order and every value but that of `data` |
| `WebhookPayload.NormalizeIsValue` | server/webhook-ingress.js:52-64 | normalizing keeps objects well formed |
| `WebhookPayload.NormalizeIdempotent` | server/webhook-ingress.js:52-64 | normalizing twice is normalizing once, on every value |
| `WebhookPayload.NormalizeText` | server/webhook-ingress.js:52-64 | a container and its JSON text normalize to the same payload |
| `WebhookPayload.NormalizeDataText` | server/webhook-ingress.js:57-62 | so do an object whose `data` is a container and one whose `data` is that container's text; hence both get one key |
| `WebhookKey.StringifyNoNewline` | server/webhook-ingress.js:66-73 | printed JSON has no line feed, so the key's separator is unambiguous |
| `WebhookKey.DedupeKeyExact` | server/webhook-ingress.js:66-73 | two deliveries have one key if and only if their scope texts are equal and their normalized payloads are equal up to key order |
| `WebhookKey.StoresNeverShare` | server/webhook-ingress.js:149-153 | tenants and stores with ids free of ':' and other than "unscoped" never share a key |
| `WebhookKey.SharesKeyIff` | server/webhook-ingress.js:149-153 | for a given source, event type and payload, a tenant and store share their key with another pair if and only if one of their names is "unscoped" or their joined text splits at another ':' into two non-empty parts |
| `WebhookKey.StoresCanShare` | server/webhook-ingress.js:149-153 | two pairs of stores that share a key |
| `WebhookIngress.StepInv` | server/webhook-ingress.js:154-194 | every step keeps: one event per key, jobs only for events, a delivery works on its own key's event |
| `WebhookIngress.ExactlyOnce` | server/webhook-ingress.js:154-194 | over every interleaving each key has at most one event and each event at most one job; an accepted delivery's event has the delivery's key and its job, and keeps them in every later run |
| `WebhookIngress.SameKeySameEvent` | server/webhook-ingress.js:154-170 | two accepted deliveries share an event if and only if they share a key |
| `WebhookRepair.DeliveryIsServed` | server/webhook-ingress.js:154-194 | a delivery whose own calls succeed ends accepted on its key's event with the job there, whatever other deliveries and workers do between its steps |
| `WebhookRepair.FailedEnqueueIsRepaired` | server/webhook-ingress.js:172-194 | after a failed enqueue was marked, the event is `received`; whatever others do before, between and after its steps, the next delivery of the key ends accepted on that event with the job there, and queues it if it finds it `received` |
| `WebhookRepair.ProcessedStaysIff` | server/webhook-ingress.js:168-194 | a processed event that no worker touches stays processed in every later run if and only if no delivery that came before may still mark it |
| `WebhookRepair.LateMarkUndoesProcessed` | server/webhook-ingress.js:176-188 | a run in which the worker has processed the event before its delivery marks it: the event ends queued |
| `WebhookIngress.DuplicateMeansJob` | server/webhook-ingress.js:168-170 | a delivery is turned away as a duplicate only when the job exists |
| `WebhookIngress.NewIff` | server/webhook-ingress.js:154-170 | a delivery is new if and only if no stored event has its key |
| `WebhookIngress.OneIsNoDuplicate` | server/webhook-ingress.js:168-194 | over every interleaving at most one accepted delivery of a key is told that it is no duplicate |
| `WebhookIngress.Ingress.Ingest` | server/webhook-ingress.js:121-195 | the imperative form refines the steps: its new stores and its result are those of the step system for each fate of the three awaited calls |
| `WebhookReplay.Adapter.Claim` | server/shein-webhook.js:56-62 | a claim succeeds unless an unexpired entry holds the key, and then stores its expiry |
| `WebhookReplay.Adapter.Release` | server/shein-webhook.js:64-68 | a release removes exactly the key's entry |
| `WebhookReplay.Adapter.Adapt` | server/shein-webhook.js:101-225 | accepted if and only if event code, app id, timestamp and signature are right, the clock is within the window, no live entry holds the key and the delivery can be read; each error if and only if its check is the first to fail; a refusal before the claim leaves the entries alone, a delivery that cannot be read gives its key back |
| `WebhookReplay.DeliveredIff` | server/shein-webhook.js:166-194 | a delivery gets past the store if and only if the request is in order and its key not held, and holds the key for exactly a whole window from its claim on |
| `WebhookReplay.ClaimHeld` | server/shein-webhook.js:56-62 | a claim that is not given back is held with an expiry that never moves forward |
| `WebhookReplay.ClaimsApart` | server/shein-webhook.js:184-194 | two accepted deliveries of one signed request without a release between are claimed at least `2*maxClockSkewMs` apart |
| `WebhookReplay.AcceptedTwiceAtTheEnds` | server/shein-webhook.js:131-194 | with one clock reading per delivery they lie exactly at the two ends of the window |
| `WebhookReplay.NeverThrice` | server/shein-webhook.js:131-194 | so one request is never accepted three times |
| `WebhookReplay.EndsAreBothAccepted` | server/shein-webhook.js:131-194 | the two ends do both accept: the guarantee is not once |
| `WebhookReplay.FreedKeyStaysFree` | server/shein-webhook.js:64-68 | a key that was given back stays free until a delivery claims it |
| `WebhookReplay.FailedDeliveryCanBeRetried` | server/shein-webhook.js:196-225 | while a delivery that will fail holds its key, the request is refused for a whole window; after the key is given back the checks alone decide, as long as no other delivery of it was accepted |
| `AiSlotPool.ConcurrencyLimit` | server/cloud/ai-title-service.js:256-261 | the limit made of an integer setting is the setting cut to 1 to 8, and 2 for the setting 0 |
| `AiSlotPool.QueueLimit` | server/cloud/ai-title-service.js:262-267 | the same for the queue, between 0 and 64 |
| `AiSlotPool.SlotPool.AcquireAiSlot` | server/cloud/ai-title-service.js:535-548 | a slot if one is free, else a place at the end of the queue, else refusal; the new pool is the specified one |
| `AiSlotPool.SlotPool.ReleaseAiSlot` | server/cloud/ai-title-service.js:550-557 | hands the slot to the first waiter, the only one to leave the queue |
| `AiSlotPool.SlotsBounded` | server/cloud/ai-title-service.js:535-557 | over every run `inflight` is the number of holders, both limits hold, and a waiter means that all slots are taken |
| `AiSlotPool.NobodyOvertakes` | server/cloud/ai-title-service.js:535-548 | a newcomer gets no slot while somebody waits, and is refused only when slots and queue are full |
| `AiSlotPool.ClampNeverActs` | server/cloud/ai-title-service.js:550-552 | the clamp `Math.max(0, ...)` never acts |
| `AiSlotPool.WaiterMovesUp` | server/cloud/ai-title-service.js:550-557 | after `n` releases, whoever had `n` or more others in front has moved up `n` places |
| `AiSlotPool.WaiterGranted` | server/cloud/ai-title-service.js:572-650 | the waiter at place `p` gets its slot by exactly the `p + 1`-th release, whatever else happens in between |
| `AiImageCache.ImageCache.RemoveImageCacheEntry` | server/cloud/ai-title-service.js:464-469 | removes the key's entry and keeps the byte counter exact |
| `AiImageCache.ImageCache.ReadImageCache` | server/cloud/ai-title-service.js:471-482 | an expired entry goes, a live one is returned and becomes the most recent |
| `AiImageCache.ImageCache.MakeRoom` | server/cloud/ai-title-service.js:488-500 | the eviction loop drops the shortest least recent prefix that makes room, ends, and never runs out of entries |
| `AiImageCache.ImageCache.StoreImageCache` | server/cloud/ai-title-service.js:484-503 | the cache after a store is the specified one, with its byte counter exact |
| `AiImageCache.EvictCount` | server/cloud/ai-title-service.js:488-500 | the least number of oldest entries whose removal leaves room |
| `AiImageCache.StoredWithin` | server/cloud/ai-title-service.js:484-503 | a store keeps keys distinct and both limits |
| `AiImageCache.ReadWithin` | server/cloud/ai-title-service.js:471-482 | so does a read |
| `AiImageCache.StoredIsRead` | server/cloud/ai-title-service.js:471-503 | what was stored is read back unchanged until it expires and is dropped afterwards |
| `AiImageCache.StoredExact` | server/cloud/ai-title-service.js:484-503 | a store keeps the other entries in their order but for the oldest, of which it drops as few as it must, and files the image with its size and expiry; an image that may not be cached changes nothing |
| `AiImageCache.AlwaysRecent` | server/cloud/ai-title-service.js:464-503 | over every run both limits hold and map order is the order of last use |
| `AiImageReads.ImageReader.ReadAiImage` | server/cloud/ai-title-service.js:505-533 | memory, the read under way, or a new read, with the state that follows |
| `AiImageReads.ImageReader.FinishRead` | server/cloud/ai-title-service.js:526-528 | the read's own entry leaves `imagePending` |
| `AiImageReads.OneReadPerKey` | server/cloud/ai-title-service.js:514-530 | over every run at most one read per key is under way |
| `AiImageReads.ServedFromOwnKey` | server/cloud/ai-title-service.js:505-533 | every call is served by a read of its own key, a new one only when no earlier read of the key is open, and the cache keeps its limits |
| `AiImageReads.EndingReadIsPending` | server/cloud/ai-title-service.js:526-528 | the guard of the clean-up always holds |
| `AiImageReads.DeliveredIsServed` | server/cloud/ai-title-service.js:505-533 | an image that was delivered is served from memory until it expires, and from then on a call shares the read under way or begins a new one |
| `AiImageReads.FailureFreesKey` | server/cloud/ai-title-service.js:514-530 | a read that fails brings nothing, and once it ended the next call of its key begins a new read |
| `AiTitleCache.TitleService.BeginSuggest` | server/cloud/ai-title-service.js:376-449 | the synchronous part of `suggest` takes exactly the step of the system: hit, join or begin |
| `AiTitleCache.TitleService.StoreResult` | server/cloud/ai-title-service.js:416-423 | the `then` of a request takes its step: cached only under the captured epoch, after the oldest entries made room |
| `AiTitleCache.TitleService.FinishSuggest` | server/cloud/ai-title-service.js:445-447 | the `finally` of a request takes its step |
| `AiTitleCache.TitleService.CompleteSave` | server/cloud/ai-title-service.js:361-362 | a completed save takes its step |
| `AiTitleCache.SingleFlight` | server/cloud/ai-title-service.js:396-449 | over every run at most one request per key is under way |
| `AiTitleCache.FinishRemovesItsOwn` | server/cloud/ai-title-service.js:445-447 | a finishing request removes its own pending entry and no other |
| `AiTitleCache.CacheIsCurrent` | server/cloud/ai-title-service.js:353-363 | the cache keeps its limit, and each cached result comes from a request for the same key begun after the last completed save |
| `AiTitleCache.AnswersAreForTheKey` | server/cloud/ai-title-service.js:366-449 | a caller is answered from a request for its own key; a cached answer is from after the last save, a joined one if and only if the request's epoch is current |
| `AiTitleCache.JoinedAnswerCanBeStale` | server/cloud/ai-title-service.js:397-406 | joining is not guarded: a caller after a save can join a request begun before it |
| `AiTitleHits.StoredIsAnswered` | server/cloud/ai-title-service.js:379-423 | a result that arrives at time `t` under the current epoch is the cached answer for its key at every time before `t + ttlMs`, in every run without a save and with fewer than `maxEntries` other keys stored or refreshed since |
| `AiTitleHits.ExpiredIsNoAnswer` | server/cloud/ai-title-service.js:382-395 | from `t + ttlMs` on it never is, in any run |
| `AiTitleHits.FailureLeavesKeyFree` | server/cloud/ai-title-service.js:428-447 | a request that fails leaves the cache alone, and once it finished the next caller of its key starts a new request |
| `WarningRules.ValidateWarningAssignment` | server/compliance-workflow.js:370-512 | the loops compute the specified blockers and closed selection, of which `ValidIff` and `SelectionExact` say what they mean |
| `WarningValidity.ValidIff` | server/compliance-workflow.js:370-512 | an assignment is valid if and only if active fields exist, the type codes do not contradict each other, every selected id is offered by its field, a single-valued field has one id at most, no selected value excludes a selected one, and some warning is selected or mapped |
| `WarningValidity.SelectionExact` | server/compliance-workflow.js:466-511 | whatever the assignment: the last field then selects exactly the offered warnings selected and the warnings mapped from a selected id, the other fields what they did, and the mapped ones are reported as required |
| `WarningValidity.ActiveFieldsExact` | server/compliance-workflow.js:370-393 | the active fields are the enabled ones by `fieldSort`, those of one rank in the order of the rules |
| `WarningReports.RulesReported` | server/compliance-workflow.js:383-425 | missing rules are reported alone, contradicting type codes exactly when they contradict |
| `WarningReports.SingleValueReported` | server/compliance-workflow.js:437-441 | a single-valued field is reported if and only if two different ids are selected in it |
| `WarningReports.InvalidReported` | server/compliance-workflow.js:426-480 | the ids reported as invalid under a field code are exactly the selected ones that a field with that code does not offer |
| `WarningReports.ConflictReported` | server/compliance-workflow.js:449-467 | the conflicts reported for an id are exactly the selected ids that its value excludes |
| `WarningReports.SelectionReported` | server/compliance-workflow.js:493-501 | a selection is asked for if and only if no offered warning is selected and none is mapped |
| `WarningRules.BuildWarningUpdateBody` | server/compliance-write-contract.js:360-420 | the loops compute the specified request body or rejection |
| `WarningBuilds.BuildExact` | server/compliance-write-contract.js:360-420 | for any selection: a body is built if and only if every listed id is offered, type code, some SKC name and all field codes are not blank and no id sent is empty; the error names the first thing that lacks; the body lists every active field with exactly the ids listed for it and the mandatory warnings |
| `WarningBuilds.SentExact` | server/compliance-write-contract.js:366-406 | the ids sent for a field are each once, those listed first and in order, then the mandatory warnings in the field that carries them |
| `OfficialIds.NumericIff` | server/compliance-write-contract.js:65-73 | an id is sent as a number if and only if it is the text that a safe integer prints as |
| `OfficialIds.SentBodyInjective` | server/compliance-write-contract.js:408-419 | what is sent determines the body that was built: different ids stay different |
| `WarningAgreement.SortFieldsSorts` | server/compliance-write-contract.js:346-350 | the active fields are sorted by `fieldSort`, ties keep their order, nothing is lost or doubled |
| `WarningAgreement.ValidationAndCompilationAgree` | server/compliance-workflow.js:370-512 | for a valid assignment with distinct field codes the builder succeeds if and only if the texts it copies are not blank and no selected id is empty; it then sends exactly the validated selection and adds no value |
| `WarningAgreement.ValidCanBeRejected` | server/compliance-write-contract.js:408-412 | a valid assignment that the builder rejects, for a requirement without a type code |
| `WarningAgreement.MappedWarningsAreSent` | server/compliance-write-contract.js:366-419 | the body built from a valid assignment carries in its last field every warning mapped from any value of its other fields |
| `WarningAgreement.NoExclusionIsSent` | server/compliance-workflow.js:411-511 | no value of the other fields in that body excludes another one in it |
| `WarningAgreement.RegularByIdUnique` | server/compliance-workflow.js:411-511 | with ids unique across the regular fields the value consulted for an id is the one that has it |
| `WarningAgreement.ValidationIsFixpoint` | server/compliance-workflow.js:370-512 | the validated selection is a fixed point of validation |
| `WarningAgreement.BuiltFor` | server/compliance-write-contract.js:360-420 | a built body names the given SKCs and certificate type |
| `ComplianceRows.RequirementsPartitioned` | server/shein-compliance.js:137-164 | every returned requirement is in exactly one of the four lists, as often as it was returned |
| `ComplianceRows.PhotosFiled` | server/shein-compliance.js:159-164 | a returned photo is kept if and only if its label group is "1" or "2", in one list only |
| `ComplianceRows.RowExact` | server/shein-compliance.js:137-164 | each list of the row holds exactly the returned items of its own group, as often as they were returned, and the row tells which answers came |
| `ComplianceRows.RowInOrder` | server/shein-compliance.js:137-164 | in the order in which they were returned |
| `AssignmentChecks.ValidateCertificateAssignment` | server/compliance-workflow.js:132-304 | the validator pushes the specified blockers and accepts exactly the acceptable assignments |
| `AssignmentChecks.CertificateValidIff` | server/compliance-workflow.js:132-304 | no blocker if and only if the pool certificate is in effect, or the schema, the file and every enabled required field are in order |
| `AssignmentChecks.FieldIff` | server/compliance-workflow.js:194-297 | a field brings no blocker if and only if its input fits its type, or its agency and laboratory are trusted |
| `AssignmentChecks.ValidateAgencyAssignment` | server/compliance-workflow.js:306-368 | the same for agencies: chosen, enabled, approved, and of the type the requirement names |
| `PreflightChoices.CertificateActsIff` | server/compliance-workflow.js:610-690 | an unresolved certificate requirement acts if and only if the first assignment under its key is acceptable and, for a per-SKC report, is this SKC's own with its uploaded files; else it blocks. The action rechecks, binds that assignment's pool number, or creates, by dimension and pool number |
| `PreflightChoices.AgencyActsIff` | server/compliance-workflow.js:690-718 | the same for agencies, whose action carries the assignment's agency and type and is a recheck exactly for the covered range 1 |
| `PreflightChoices.WarningActsIff` | server/compliance-workflow.js:719-743 | the same for warnings: the assignment is valid, and the action carries the validated selection and the assignment's rules |
| `PreflightChoices.OtherwiseIff` | server/compliance-workflow.js:591-608 | unknown necessity blocks, a requirement under review waits under its key, and what need not be dealt with contributes nothing |
| `PreflightChoices.UnsupportedIff` | server/compliance-workflow.js:746-764 | an unsupported item blocks if and only if it is required or rejected and has not passed |
| `PreflightChoices.PhotoActsIff` | server/compliance-workflow.js:792-818 | an unresolved photo acts if and only if the chosen assignment, the exact one or else a reusable one of its group, has a picture, and the action carries that picture |
| `PreflightChoices.PhotoOtherwiseIff` | server/compliance-workflow.js:766-791 | a photo of unknown necessity blocks, any other that need not be dealt with contributes nothing |
| `PreflightChoices.ChoiceReasons` | server/compliance-workflow.js:610-662 | each reason found before the validator is asked is given exactly under its condition |
| `PreflightChoices.CertificateReasons` | server/compliance-workflow.js:132-193 | each reason of the certificate validator is given exactly under its condition |
| `PreflightChoices.FieldReasons` | server/compliance-workflow.js:194-297 | so is each reason for a field |
| `PreflightChoices.AgencyReasons` | server/compliance-workflow.js:306-368 | and each reason of the agency validator |
| `PlanReasons.PlanBlockedBy` | server/compliance-workflow.js:534-830 | a plan is blocked by exactly its missing or stale sources and what blocks one of the row's items |
| `PlanReasons.PlanWaitsFor` | server/compliance-workflow.js:598-605 | a plan waits for exactly the requirements under review, in their order |
| `Preflight.BuildSkcCompliancePreflight` | server/compliance-workflow.js:534-847 | the loops push exactly the outcomes of the row's items, in order |
| `Preflight.PlanBuilder.Push` | server/compliance-workflow.js:534-847 | one outcome goes to the list it belongs to and leaves the others |
| `Preflight.BuiltRowsAreGrouped` | server/shein-compliance.js:137-164 | each list of a built row holds only requirements of its own group |
| `Preflight.UnresolvedAreListed` | server/compliance-workflow.js:591-830 | the unresolved requirements of a built row are the unresolved ones of the platform's answer |
| `Preflight.NothingLostInPlan` | server/compliance-workflow.js:591-830 | in a plan without blockers the actions correspond one to one, in order, to the unresolved requirements and photos, each of the right kind and key, and no unsupported item is unresolved |
| `SyncToPlan.NothingDroppedIff` | server/shein-compliance.js:121-137 | of what a whole reply lists for an SKC the row keeps everything if and only if only its last entry for that SKC lists items |
| `SyncToPlan.SecondAnswerDropsItems` | server/shein-compliance.js:121-137 | a reply with two entries for one SKC whose first item is dropped |
| `SyncToPlan.WholeReplyToPlan` | server/compliance-workflow.js:591-830 | for each SKC of a sync whose plan has no blockers, the actions correspond one to one and in order to requirements and photos which are exactly the unresolved ones, photos of groups 1 and 2, of its last answers |
| `SyncToPlan.NothingLostFromReplyIff` | server/shein-compliance.js:121-164 | the requirements and photos that an unblocked plan acts upon are all the unresolved ones that the reply lists for the SKC if and only if no earlier entry for it lists an unresolved one |
| `Preflight.BuildCompliancePreflight` | server/compliance-workflow.js:849-892 | the loop computes all plans, whether they can be executed together, and how many actions there are |
| `Preflight.ExecutableActsOnAll` | server/compliance-workflow.js:849-892 | plans that can be executed together have no blockers, and their actions are as many as the unresolved requirements and photos of all rows, at least one |
| `Preflight.StatusExact` | server/compliance-workflow.js:832-847 | each of the five statuses if and only if: rules are pending when every blocker is about the rules, blocked when some other one is, ready with actions and no blockers, waiting without both, compliant without all three |
| `RowStatus.PassedIff` | server/shein-compliance.js:50-93 | a row is shown as passed if and only if every item of its six lists is clear, also when there are none |
| `RowStatus.StateExact` | server/shein-compliance.js:50-93 | each of the five states if and only if nothing graver is among the items: rejected, missing, under review, unknown, else passed |
| `RowStatus.CompliantIff` | server/compliance-workflow.js:534-847 | a plan has nothing to do if and only if both answers came, the rules are fresh, and requirements, unsupported items and photos are quiet; for any review states |
| `RowStatus.PassedRowIsCompliantIff` | server/shein-compliance.js:67-93 | a row shown as passed has nothing to do if and only if the sources are ready, every required item is known to have passed, or a photo to be under review, and no optional photo was rejected |
| `RowStatus.PassedRowWithWork` | server/shein-compliance.js:67-85 | a row shown as passed whose plan has something to do |
| `RowStatus.CompliantRowIsPassedIff` | server/shein-compliance.js:50-93 | a row with nothing to do is shown as passed if and only if no unsupported item is under review or of unknown necessity |
| `RowStatus.CompliantRowNotPassed` | server/shein-compliance.js:50-65 | a row with nothing to do that is not shown as passed |
| `WriteExecutor.CompileComplianceWriteRequests` | server/compliance-write-executor.js:67-161 | the loops compute the specified requests and issues |
| `WriteExecutor.CompilationConserves` | server/compliance-write-executor.js:67-161 | requests plus issues count exactly the actions of the ready plans |
| `WriteExecutor.ExecutableIsComplete` | server/compliance-write-executor.js:67-161 | an executable write plan has one request for every action of every ready plan, in order, each for its own SKC |
| `WriteExecutor.RequestFits` | server/compliance-write-executor.js:76-114 | a request carries its action's key and writes to its own SKC only |
| `PlannedRequests.CompiledExact` | server/compliance-write-executor.js:74-145 | what each kind of action becomes and when: a certificate binding sends the trimmed pool number, an agency binding its agency and type, a warning update the built body; creation, upload, recheck and unknown actions each become their own issue and never a request |
| `PlannedRequests.PlanFits` | server/compliance-write-executor.js:67-114 | the requests of a compiled ready plan are one for each unresolved requirement of its row, in order: binding the first assignment's pool number or agency with its type, or updating with its validated selection |
| `PlannedRequests.ExecutablePayload` | server/compliance-write-executor.js:67-161 | the same over all plans: in an executable write plan made from preflight plans every request carries what the assignment that counts says, for its own SKC, and no other request is there |
| `WriteExecutor.PlannedWarningCompiles` | server/compliance-write-executor.js:67-161 | a warning action planned by the preflight compiles if and only if the copied texts are not blank and no selected id is empty |
| `WriteExecutor.TokenConfirmsOnePlan` | server/compliance-write-executor.js:163-171 | a token confirms a plan document if and only if it equals the confirmed one up to key order |
| `WriteExecutor.TokenNeedsSecret` | server/compliance-write-executor.js:163-171 | and only under the secret it was made with |
| `PlanDocument.SameGivesView` | server/compliance-write-executor.js:19-28 | values that are equal up to key order have the same properties, all the way down |
| `PlanDocument.LookupFinds` | server/compliance-write-executor.js:74-80 | looking a key up finds the property with that key, and nothing when there is none |
| `PlanDocument.SameDocumentsSamePlans` | server/compliance-write-executor.js:67-76 | plan documents that are equal up to key order list the same plans, as the executor reads them |
| `JsNumbers.NumberOfJson` | server/compliance-write-contract.js:346-356 | `Number` of a text that is a JSON number is the number that JSON reads |
| `PlanDocument.NumbersAndTexts` | server/compliance-write-contract.js:346-356 | the rules' flags and places mean the same as numbers and as their printed texts |
| `PlanDocument.FlagsEnable` | server/compliance-write-contract.js:346-356 | `true` enables like 1 and `false` does not |
| `PlanDocument.SelectionRead` | server/compliance-write-contract.js:375-381 | of each warning field exactly what the document selects under the field's code is read |
| `PlanReading.DocumentRead` | server/compliance-write-executor.js:67-114 | a document that shows plans property by property, in any key order, is read as exactly these plans, and looking at it does not throw |
| `PlannedRequests.ShownPlansCompile` | server/compliance-write-executor.js:67-161 | so it is compiled to the requests and issues of these plans |
| `NumberTexts.NumberOfIff` | server/compliance-write-contract.js:346-356 | `Number` reads exactly the texts that, trimmed, spell a decimal, a hexadecimal, octal or binary number, or nothing, and reads them as that |
| `JsStrings.HasTextIff` | server/compliance-write-contract.js:39-41 | a text counts if and only if it has a character that is no white space |
| `JsStrings.LowerExact` | server/compliance-workflow.js:94-118 | capitals become the small letters at their place in the alphabet, and nothing else changes |
| `WriteExecutor.ConfirmedWritesAreSent` | server/compliance-write-executor.js:221-238 | the writes a token lets out are those compiled from the document it was made for |
| `WriteExecutor.Executor.SendAll` | server/compliance-write-executor.js:239-268 | requests are sent in order up to the first failure |
| `WriteExecutor.FirstFailure` | server/compliance-write-executor.js:49-65 | the sending stops at the first write that throws or is a warning update with failed SKCs |
| `WriteExecutor.Executor.Execute` | server/compliance-write-executor.js:187-295 | nothing is sent unless execution was asked for and enabled, no null plan or action of a ready plan makes the compilation throw, the plan is executable and the token matches; what was sent is an in-order prefix; `executed` means that all were sent once |
| `ComplianceSync.MergeTwice` | server/index.js:141-150 | merging twice is merging once with both lists |
| `ComplianceSync.MergeAgain` | server/index.js:141-150 | merging rows that were merged already is a no-op that keeps the order, and no SKC is doubled |
| `ComplianceSync.ChunksFlatten` | server/shein-compliance.js:32-38 | the batches together are the names, in order; each holds 20 names but for the last, which holds 1 to 20 |
| `ComplianceSync.UniqueNamesNormal` | server/shein-compliance.js:40-48 | the names asked for are trimmed, not blank and distinct |
| `ComplianceJobRows.UniqueNamesExact` | server/shein-compliance.js:40-48 | they are exactly the non-blank names of the request, trimmed, each where it first stands |
| `ComplianceSync.BatchNormal` | server/shein-compliance.js:32-48 | so are those of each batch |
| `ComplianceSync.ComplianceStore.OnBatch` | server/index.js:379-424 | the callback merges the batch's rows and moves the counters |
| `ComplianceSync.ComplianceStore.SyncBatches` | server/shein-compliance.js:268-335 | after the loop rows and failures are the specified ones, and so are answers and successes unless a null row was among them; every name was counted once as success or failure |
| `ComplianceSync.ComplianceStore.RunComplianceJob` | server/index.js:355-460 | the record after a job is the specified one, also when a null row makes the sync throw at its end; `processed` is `success + failed` is the number of names |
| `ComplianceRuns.FinalRowsAreBatchRows` | server/shein-compliance.js:311-349 | when each reply names only SKCs of its own batch, the returned rows are the rows of the batches one after the other |
| `ComplianceRuns.CachedIsOneMerge` | server/index.js:385-424 | the cached rows after the callbacks equal one merge with the rows of all batches |
| `ComplianceRuns.IncrementalIsOneShot` | server/index.js:426-432 | in a selected or retry job the cached rows equal one merge of the earlier rows with the returned ones, and the closing merge changes nothing |
| `ComplianceRuns.OutcomesNormal` | server/shein-compliance.js:268-335 | every name either succeeds or fails, once |
| `ComplianceRuns.JobOutcome` | server/index.js:355-460 | who has a row and who is listed as failed after a job whose replies can be read |
| `ComplianceRuns.AbortedJob` | server/index.js:461-480 | with a null row in a reply the job keeps the rows of its batches and leaves the failure list as it was |
| `ComplianceJobRows.AnsweredRow` | server/index.js:355-460 | after a job that stores its result, an SKC of an answered batch has exactly one row, built from the last entries for it in the two answers to its own batch |
| `ComplianceJobRows.OtherRow` | server/index.js:355-460 | any other SKC keeps exactly the row it had, or loses it if the job replaces rows |
| `ComplianceRuns.HandleSync` | server/index.js:1208-1305 | a job starts from the record that the request had read before its body, which is written back; refusals leave the record alone |
| `ComplianceRuns.FullSyncPartitions` | server/index.js:1219-1305 | after a full sync with a usable name and readable replies, rows and failures split its SKCs, each listed once |
| `ComplianceRuns.FullSyncPartitionsIff` | server/shein-compliance.js:311-349 | whatever was cached before: if and only if no reply has a null row |
| `ComplianceRuns.NullRowSyncLosesSkc` | server/shein-compliance.js:311-349 | a full sync with a null row after which the SKC has no row and is not listed |
| `ComplianceRuns.RetryOutcome` | server/index.js:1219-1305 | in a retry nobody loses a row, nobody newly fails and nobody is lost, with null rows too |
| `ComplianceRuns.RetryKeepsPartitionIff` | server/index.js:385-460 | a retry keeps the split if and only if it is refused, or no reply has a null row, or no batch is answered |
| `ComplianceRuns.NullRowRetryKeepsListing` | server/index.js:385-480 | a retry with a null row in its second batch after which twenty SKCs have a row and are still listed |
| `ComplianceRuns.RowsAndFailuresPartition` | server/index.js:385-460 | after a full sync with readable replies rows and failures split its SKCs, and after each of any retries that follow if and only if each retry keeps them apart; the failure list only shrinks and nobody is lost in any case |
| `ComplianceRuns.SelectedKeepsPartitionIff` | server/index.js:1227-1239 | whatever the platform answers, null rows apart, a job on selected SKCs keeps the split if and only if it covers every SKC that had failed and none that has a row |
| `ComplianceRuns.SelectedJobLosesFailure` | server/index.js:441-451 | a job on "b" alone loses the failed "a", whatever the platform answers |
| `ComplianceJobs.ClosedJob` | server/index.js:426-460 | a job that ends leaves what the sync of the record its request had read leaves |
| `ComplianceJobs.StepInvIff` | server/index.js:1212-1305 | a step keeps the runs serial if and only if it writes back no old record |
| `ComplianceJobs.JobsAreSerialIff` | server/index.js:1212-1305 | every moment of a run is that of the finished jobs one after another and of the running job started after them, if and only if every record that a request writes back is the record as it is then |
| `ComplianceJobs.JobsAreSerial` | server/index.js:1212-1305 | between jobs the record is then that of the finished jobs |
| `ComplianceJobs.OldRecordComesBack` | server/index.js:1212-1298 | a run in which a retry writes back the record from before another one: a row is lost and its SKC listed as failed again |
| `ComplianceRetries.NobodyNewFails` | server/index.js:385-460 | whatever is retried, restored and answered, the failure list never gains a name |
| `ComplianceRetries.EveryMomentCovers` | server/index.js:757-780 | with retries and product syncs that keep the cover, every SKC has a row or is listed as failed at every moment, also while batches arrive and whatever old record is written back |
| `ComplianceRetries.EveryMomentCoversIff` | server/index.js:757-780 | every SKC does so at every moment, and will when the running retry ends, if and only if each product sync that ends during a retry writes back a record that misses only rows the retry works on |
| `ComplianceRetries.RestoreCoversIff` | server/index.js:757-780 | a product sync that ends during a retry: whoever comes and whatever the platform answers until the retry ends, the record then covers the SKCs if and only if the record written back misses only rows the retry works on, or a null row keeps the result from being stored |
| `ComplianceRetries.RestoreLosesSkcs` | server/index.js:757-780 | a run with 21 failed SKCs, two retries and a product sync after which 20 of them have no row and are not listed |
| `ComplianceRetries.EveryMomentSplitIff` | server/index.js:757-780 | rows and failures are apart between jobs, and rows and what a running retry may still list, if and only if each start, product sync and aborted end keeps that |
| `ComplianceRetries.RestoreSplitsIff` | server/index.js:757-780 | a product sync that ends during a retry: whatever follows, rows and failures are apart when the retry ends if and only if nobody has a row in the record written back who did not succeed so far |
| `ComplianceRetries.BetweenJobsSplit` | server/index.js:1212-1305 | with retries and product syncs that keep both, rows and failures split the SKCs whenever no job runs |
| `ComplianceRetries.CurrentRetriesSplit` | server/index.js:1212-1305 | in particular if no old record is written back, unless a retry with a null row ends after a batch was answered |
| `ComplianceRetries.RetrySplitsIff` | server/index.js:426-460 | whatever the platform answers, null rows apart, rows and failures are apart after a retry if and only if they were apart in the record its request had read |
| `ConcurrentMap.StartInv` | server/store-data-sync.js:57-69 | the workers as they were created satisfy the invariant |
| `ConcurrentMap.ResumeInv` | server/store-data-sync.js:62-68 | each index below the cursor was taken once and is either with one worker or answered: every step of every worker keeps this |
| `ConcurrentMap.TakenOnce` | server/store-data-sync.js:57-69 | at any moment of any schedule no index was taken twice and at most `min(max(1, limit), n)` calls are in flight, all on different indices |
| `ConcurrentMap.ScheduleIndependent` | server/store-data-sync.js:57-72 | with a mapper that succeeds, every complete schedule takes each index exactly once and gives the sequential map |
| `ConcurrentMap.SettledResult` | server/store-data-sync.js:70-71 | with a mapper that can fail, the result is the sequential map if and only if nothing failed, else an error of the mapper |
| `ConcurrentMap.ResumeProgress` | server/store-data-sync.js:63-67 | every answer brings the pool nearer to its end |
| `ConcurrentMap.WorkerPool.Continue` | server/store-data-sync.js:63-67 | a worker that goes on changes cursor, array and itself as specified |
| `ConcurrentMap.MapConcurrent` | server/store-data-sync.js:57-72 | whichever worker goes on next, the outcome is that of the sequential map |
| `RateLimiter.OneAtATime` | server/store-data-sync.js:27-46 | over every run no request starts while another one is out |
| `RateLimiter.FirstAttemptsInOrder` | server/store-data-sync.js:28-31 | first attempts come in submission order, and the j-th at least `150*(j-i)` ms after the i-th, retries or not |
| `RateLimiter.BoundedRetries` | server/store-data-sync.js:33-42 | a task is tried at most 4 times and sleeps at most 10500 ms for it; it fails by the platform's limit only after 4 attempts |
| `RateLimiter.NextTaskStarts` | server/store-data-sync.js:44-44 | however the platform answers, at most four rounds bring the next first attempt: a failing task never blocks the next |
| `RateLimiter.LastAnswerSettles` | server/store-data-sync.js:33-42 | over every run a task settles with the platform's last answer to it, all earlier ones being refusals by the platform's own limit: a success or another error is final, such a refusal only as the fourth answer |
| `RequestGaps.ConsecutiveRequests` | server/store-data-sync.js:28-41 | in every run each request is the next attempt of the same task after its pause or the first attempt of the next task, at least 150 ms after the one before unless that was a retry and this is a first attempt |
| `RequestGaps.IntervalHoldsIff` | server/store-data-sync.js:28-41 | the interval between consecutive requests of two kinds holds in all runs if and only if they are not a retry and then a first attempt |
| `RequestGaps.RetryAndNextCanCoincide` | server/store-data-sync.js:39-40 | a run in which a retry and the next task's first attempt are sent at the same time |
| `RateLimiter.Limiter.Begin` | server/store-data-sync.js:28-31 | the head of the chain requests or waits as specified |
| `RateLimiter.Limiter.Wake` | server/store-data-sync.js:30-40 | after a sleep the attempt starts, and the next allowed time is set |
| `RateLimiter.Limiter.Answer` | server/store-data-sync.js:34-41 | an answer settles the task or puts it to sleep for its next attempt |
| `Authorization.Authorizer.PurgeExpiredStates` | server/store-registry.js:100-105 | the loop removes exactly the expired states |
| `Authorization.Authorizer.CreateAuthorizationState` | server/store-registry.js:25-30 | a new state expires ten minutes later |
| `Authorization.Authorizer.ConsumeAuthorizationState` | server/store-registry.js:32-37 | a state is good if it is there and not expired, and gone afterwards either way |
| `Authorization.Authorizer.ExchangeLocalAuthorization` | server/index.js:288-336 | refuse, join or start, with the state that follows |
| `Authorization.Authorizer.FinishExchange` | server/index.js:337-352 | success schedules the eviction, failure removes the entry |
| `Authorization.ExchangedAtMostOnce` | server/index.js:288-353 | over every interleaving, also after failure, success or eviction, a state is exchanged with the platform at most once, and only if it was issued |
| `Authorization.SpentStateIsRefused` | server/index.js:304-308 | a state whose exchange is gone is refused |
| `Authorization.SharersSuppliedOneToken` | server/index.js:294-303 | callbacks that share a result supplied the same token |
| `Authorization.FirstCallbackIff` | server/store-registry.js:32-37 | the first configured callback starts the exchange if and only if the state was issued at most ten minutes before its expiry is checked |
| `Authorization.ExchangeEnds` | server/index.js:337-352 | a success is kept for ten minutes from when it ended, a failure is forgotten at once |
| `Authorization.ResultIsShared` | server/index.js:294-347 | for ten minutes after a success, whatever else happens, a callback that repeats the token shares the result and any other is refused |
| `Authorization.EntryDecides` | server/index.js:294-303 | so it is while the exchange is under way |
| `Authorization.EvictionEnds` | server/index.js:339-342 | from then on the eviction forgets it, and not before |
| `FaultGates.SimulateReadbackFault` | server/ci/erp03-fault-gates.js:54-91 | the loop computes the fold |
| `FaultGates.CurrentIsHighest` | server/ci/erp03-fault-gates.js:63-71 | with one known code per id, `currentCode` is the highest-ranked code received, or unknown without any |
| `FaultGates.ReadbackIsJoin` | server/ci/erp03-fault-gates.js:54-91 | two event lists with the same receipts, in any order and number of copies, give the same count and the same code |
| `FaultGates.CountDependsOnIds` | server/ci/erp03-fault-gates.js:64-66 | the count depends on the ids alone, without any hypothesis |
| `FaultGates.OrderIrrelevantIff` | server/ci/erp03-fault-gates.js:54-91 | for any event list: all lists with the same receipts give the same code if and only if there are none, or some id carries only the highest-ranked code received, or no received code has a rank and all are the same |
| `FaultGates.FixedCodesDecide` | server/ci/erp03-fault-gates.js:54-91 | one known code per id is a case of that |
| `FaultGates.SwapIff` | server/ci/erp03-fault-gates.js:63-71 | for two receipts: they swap without effect if and only if their codes are equal, or ids and ranks both differ |
| `FaultGates.ChangedCodeDependsOnOrder` | server/ci/erp03-fault-gates.js:64-66 | with two codes for one id the order decides |
| `FaultGates.MarksExact` | server/ci/erp03-fault-gates.js:54-91 | attempt, projection and snapshot are marked if and only if their event is among the events |
| `FaultGates.SourceExact` | server/ci/erp03-fault-gates.js:54-91 | health and staleness are those that the last event about the source leaves, healthy and fresh without any |
| `Revalidation.BuildComplianceRevalidation` | server/cloud/compliance-revalidation-projections.js:173-330 | the loops compute the specified blockers, and `completionEligible` holds exactly when it should |
| `Revalidation.CompletionEligibleIff` | server/cloud/compliance-revalidation-projections.js:262-298 | no blocker if and only if something was read back, every SKC of it passes, and the SKCs expected, if any, are the ones read back |
| `Revalidation.SkcIff` | server/cloud/compliance-revalidation-projections.js:189-260 | an SKC brings no blocker if and only if it is named, its last row is complete, its snapshot is valid, its report is ready and both capabilities pass |
| `Revalidation.CapabilityIff` | server/cloud/compliance-revalidation-projections.js:61-80 | a capability passes if and only if the first requirement of its kind is not required or passed |
| `Revalidation.ReportIff` | server/cloud/compliance-revalidation-projections.js:128-135 | the report is ready if and only if at most one type is asked for and its material is there |
| `Revalidation.CoverageIff` | server/cloud/compliance-revalidation-projections.js:274-291 | coverage brings no blocker if and only if nothing was expected or the two sets of SKCs are equal |
| `Revalidation.ConcernsIff` | server/cloud/compliance-revalidation-projections.js:20-47 | a requirement is of a capability's kind if and only if one of its three texts names it, or its id is 844 |
| `Revalidation.ReportTypeIff` | server/cloud/compliance-revalidation-projections.js:112-119 | the report type it asks for, by number in one of its texts or else by name |
| `Revalidation.MaterialIff` | server/cloud/compliance-revalidation-projections.js:83-101 | the material is there if and only if the template that counts has a certificate of the type with a pool number or a file |
| `Revalidation.RowIssuesExact` | server/cloud/compliance-revalidation-projections.js:189-215 | the issues of an SKC about its row, each if and only if |
| `Revalidation.SnapshotIssuesExact` | server/cloud/compliance-revalidation-projections.js:149-171 | about its snapshot |
| `Revalidation.ReportIssuesExact` | server/cloud/compliance-revalidation-projections.js:128-260 | about its report |
| `Revalidation.CapabilityIssuesExact` | server/cloud/compliance-revalidation-projections.js:137-260 | and about the two capabilities |
| `Revalidation.CoverageExact` | server/cloud/compliance-revalidation-projections.js:274-291 | which SKCs are missing and which are unexpected |

## Left out

- Execute: dates and diagnostics of results are left out.
- ReadPlans: a missing or non-numeric `fieldSort` is read as 0, where the code compares with NaN; the text "Infinity" is no number; a null mapping path is read as an empty one, where the code throws if it gets there; a list as agency id is read as its text; objects with their own `toString` are left out. Surrogates are kept as private-use characters.
- BuildWarningUpdateBody: its body keeps ids as texts; `OfficialIds.SentBody` turns them into what is sent.
- EveryMomentCovers: the read-back after a write, which replaces the failure list too, is not among the actions.
- RequestFits: bodies of certificate creation, certificate upload and photo binding are not modelled, only their kind, key and SKC; agency, certificate-binding and warning bodies are.
- BuildSkcCompliancePreflight: the merge of template defaults with explicit inputs comes before it; messages, details of issues and the list of warnings are left out, as are requirement keys of photos without a label. An absent certificate type id is an empty text.
- BuildComplianceRevalidation: lower-casing covers the letters A to Z; `report`, `summary` and the projections' display fields are left out.
- SyncBatches: product names, images and SPU codes of rows, summaries of rows, diagnostics and trace ids are left out; callbacks do not throw. A null among the items of a row acts like a null row while replies keep to their own batch; other cases of it are left out.
- RunComplianceJob: the job's public view (state, error text, times) is left out; a job without a usable name fails and leaves the record alone.
- Limiter: a sleep is taken to last at least as long as asked for.
- ExchangeLocalAuthorization: the request to the platform, decryption and the stored credentials are left out; issued states are taken to be fresh.
- AcquireAiSlot: rejected and granted promises are the returned grant; diagnostics are left out.
- BeginSuggest: the provider call and prompts are left out; a request is one run that succeeds or fails, and slots and image reads are modelled beside it.
- StoreImageCache: limits are integers.
- Ingest: the list of known event types and the header selection are inputs; the event store inserts if absent and the queue is idempotent in the job id, as the stores promise.
- Adapt: signature comparison, deciphering, parsing and the store lookup are inputs; a store shared by several processes is one store.
- SimulateReadbackFault: codes that name inherited properties of a plain object are left out, as are the publish and media simulators, which only record the last events.
- Rounding of JSON numbers to binary64 and numbers outside its range: numbers are exact decimals.
- The product page loop, the sales and inventory sums and the business warnings of the store data sync: sums and lists without state.
- HTTP routing, request signing, uploads, encryption, file and database storage, the user interface and the release scripts.
