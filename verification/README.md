# Verification of the CitrineOS core

This project models the parts of CitrineOS that carry the most state, and proves properties of the model.

- **The in-memory cache** (`CacheModel`, `CacheInvariants`, `CacheRefinement`, `CacheWaiters`, `CacheProgress`, `MemoryCache`):
  values, expiry timers, a set-if-absent lock and shared "wait for the next change" subscriptions, together with the clock,
  timers and promises of the event loop they run on. Class `MemoryCache.MemoryCache` updates its maps in place and is proved
  against a state machine; the state machine is proved to refine a plain map with deadlines, and every waiter is proved to get
  the first later write or the value current at its own timeout. Entries and waits last for the time asked for, to the
  millisecond, and time can always pass. The Proxy traps of the source never run for `set` and `delete`, because its `get` trap
  hands out methods bound to the raw map, so that the model has no wake-up on removal, although the comments of the source
  (memory.ts:20 and 28) announce one.
- **Request and response correlation** (`CorrelatedCall`, `BaseReport`): subscribe, send, await, in every interleaving with the
  rest of the system; and the wait loop of the base report.
- **The boot protocols** of OCPP 2.0.1 and 1.6 (`BootCache`, `Boot201`, `Boot16`, `Batches`): replies, blacklist, cached
  status and configuration rounds, over every run of boots, round steps, outside changes of the record and foreign cache steps.
- **Certificate replacement** (`CertificateUpdate`): backup, overwrite, TLS switch and rollback, with a fault possible at every
  call.
- **Algorithms**: comparison of object graphs (`DeepEqual`), energy totals (`MeterValues`), money (`Money`), local
  authorization lists (`LocalAuthList`), schema cleaning in place (`SchemaCleaning`), batches (`Batches`).

`dafny verify dfyconfig.toml` checks the project. Nothing was executed.

## What does not hold

Properties that the code does not have are stated as such, with the exact condition under which it does have them.

- A boot reply that cannot be sent leaves the cache consistent exactly if it was an acceptance or a status was cached
  (`Boot201.UnsentReplyIsConsistentIff`, `Boot16.UnsentReplyIsConsistentIff`); otherwise the blacklist outlives even a later
  acceptance (`BootCache.UnsentRejectionOutlivesAcceptance`).
- The stored lookup of a boot record (01_Data/src/layers/sequelize/repository/Base.ts:38-44) does not load the pending
  variables. The reply differs for it exactly if variables are
  pending, no base report is needed and autoAccept is on: the station is accepted with its variables unset
  (`Boot201.LookupIsRightIff`).
- Keys of different namespaces may meet, exactly if one namespace goes on with a colon after the other and what follows stands in
  the key (`CacheModel.KeysMeetIff`).
- Rounds of one station may overlap (`Boot201.OverlapArises`) although they share one base report request. One completion ends
  both their reports exactly if each still waits for an answer when it is written, or has had one
  (`Boot201.CompletionEndsBothIff`).
- A configuration round that fails is never retried. The last open round leaves a pending 2.0.1 station pending for good exactly
  if its base report cannot be sent or ends without completion, a SetVariables call is not answered, or it is completed
  without autoAccept
  (`Boot201.LastRoundIsStuckIff`, `Boot201.FailedRoundIsNeverRetried`), and a 1.6 station exactly if some send fails
  (`Boot16.FailedSendIsStuck`, `Boot16.FailedSendIsNeverRetried`).
- A rollback of replaced files restores them all exactly if their paths do not overlap
  (`CertificateUpdate.RollbackRestoresIff`). The backup that an earlier update left of a file survives a rolled back one
  exactly if that file was not reached (`CertificateUpdate.CertificatesApi.UpdateCertificates`).
- Comparing a shared left object only once gives recursive containment exactly if whatever occurs twice has no keys
  (`DeepEqual.SharingIsHarmlessIff`).
- Amounts of one currency code may be neither less, nor equal, nor greater: exactly when the two currency objects differ, which
  takes one that was constructed by hand (`Money.TrichotomyIff`).
- An entry of a local list that names a group is refused even when it names the right one
  (`LocalAuthList.MatchingListIsCreatedIff`): the identity found for the group is kept in a variable of an inner block
  (01_Data/src/layers/sequelize/repository/LocalAuthList.ts:114), and line 126 reads the outer one, which is never assigned.
- With several local lists outstanding, some answers and version reports exceed the limit exactly if the union of the committed
  or a full list with all differential ones does (`LocalAuthList.AnswersMayExceedIff`), although each list has passed the check
  (`LocalAuthList.CheckedListsMayExceed`). Some answers commit versions out of order exactly if two of the lists can be
  committed that way (`LocalAuthList.AnswersMayDisorderIff`).
- The stored repository departs from its interface: it commits lists without their entries
  (`LocalAuthList.StoredCommitIsRightIff`). For that reason it does not reach its replacement of single entries, which would be
  right only by chance (`LocalAuthList.StoredPutIsRightIff`).
- With a batch size that is not positive, batching a list that is not empty never ends (`Batches.EndsIff`), and the SetVariables
  loop ends exactly if some answer fails (`Batches.SendingEndsIff`).

## Model

| member | source | states |
|---|---|---|
| MemoryCache.MemoryCache.Exists | 02_Util/src/cache/memory.ts:53-57 | answers whether the namespaced key is present |
| MemoryCache.MemoryCache.Remove | 02_Util/src/cache/memory.ts:59-63 | deletes the entry, leaves its timer armed and wakes nobody; says whether there was an entry |
| MemoryCache.MemoryCache.Get | 02_Util/src/cache/memory.ts:113-128 | the value, an empty one counting as absent |
| MemoryCache.MemoryCache.OnChange | 02_Util/src/cache/memory.ts:65-111 | a race between the key's shared promise, created if need be, and a timer of its own |
| MemoryCache.MemoryCache.Set | 02_Util/src/cache/memory.ts:130-152 | the new entry, the old expiry timer disarmed, a new one armed if asked for, all open races on the key ended; the invariant is kept |
| MemoryCache.MemoryCache.SetIfNotExist | 02_Util/src/cache/memory.ts:154-179 | writes like `set` if the key is absent, and otherwise changes nothing; says which |
| MemoryCache.MemoryCache.ResolveOnChange | 02_Util/src/cache/memory.ts:181-186 | settles the promise of the key and drops its subscription from both maps |
| MemoryCache.MemoryCache.RunTimer | 02_Util/src/cache/memory.ts:105-109 | a waiter's timer re-reads the key, an expiry timer deletes it |
| CacheModel.KeysMeetIff | 02_Util/src/cache/memory.ts:130-137 | keys of two namespaces are one exactly if one name goes on with a colon after the other and what follows stands in the key; an absent namespace is 'default' |
| CacheModel.NamespacesAreApart | 02_Util/src/cache/memory.ts:130-137 | namespaces without a colon keep their keys apart |
| CacheInvariants.RunKeepsInv | 02_Util/src/cache/memory.ts:65-186 | over every run: no timer is overdue, an armed expiry timer is the one that the next write clears, the two subscription maps agree and hold only unresolved promises, open races have their timer |
| CacheInvariants.SetKeepsInv | 02_Util/src/cache/memory.ts:130-152 | a write keeps that invariant |
| CacheInvariants.OnChangeKeepsInv | 02_Util/src/cache/memory.ts:65-111 | a subscription keeps it |
| CacheInvariants.FireKeepsInv | 02_Util/src/cache/memory.ts:105-151 | a firing timer keeps it |
| CacheRefinement.CacheRefinesLedger | 02_Util/src/cache/memory.ts:53-179 | over every run `exists` and `get` answer like a plain map of values and deadlines |
| CacheRefinement.StepMatches | 02_Util/src/cache/memory.ts:53-179 | every step keeps the cache in agreement with that map |
| CacheRefinement.FireMatches | 02_Util/src/cache/memory.ts:145-147 | a timer left behind by `remove` never deletes a later value |
| CacheRefinement.LockIsExclusive | 02_Util/src/cache/memory.ts:154-179 | a taken lock is free again only after its expiry |
| CacheRefinement.EntryLivesItsTime | 02_Util/src/cache/memory.ts:130-179 | an entry left alone is there for exactly 1000 milliseconds for each second of its expiry, for good without one, and for one millisecond if no timer can hold the expiry |
| CacheWaiters.WaiterGetsExpected | 02_Util/src/cache/memory.ts:93-111 | every waiter gets the first value written after its call or the value read at its own timeout, whichever comes first |
| CacheWaiters.WriteWakesEveryWaiter | 02_Util/src/cache/memory.ts:181-186 | a write ends exactly the open races on its key, with the value written |
| CacheWaiters.WaitersOfOneKeyAgree | 02_Util/src/cache/memory.ts:74-91 | all callers waiting at a write get the same value |
| CacheWaiters.WaiterNeverGetsStaleValue | 02_Util/src/cache/memory.ts:93-111 | a waiter gets the first write of its wait, or the entry that is live at its own timeout with nothing written before; nothing overwritten, removed or expired |
| CacheWaiters.WaiterEndsInTime | 02_Util/src/cache/memory.ts:105-109 | once the clock has passed a waiter's deadline its race is over |
| CacheWaiters.SubscriptionsOverEveryRun | 02_Util/src/cache/memory.ts:77-91 | both subscription maps have the same keys, promises in them are unresolved, open waiters listen on them |
| CacheWaiters.OnChangeReturns | 02_Util/src/cache/memory.ts:65-111 | the outcome of a call made anywhere in any run |
| CacheWaiters.WaiterWaitsItsTime | 02_Util/src/cache/memory.ts:105-109 | a wait on a key that is not written lasts exactly 1000 milliseconds for each second asked for, or one millisecond if no timer can hold it |
| CacheProgress.TimeAlwaysPasses | 02_Util/src/cache/memory.ts:105-151 | after any run, timers alone can fire until any later time is reached, so that what is said of later times is never said of nothing |
| CorrelatedCall.Handle | 00_Base/src/interfaces/modules/AbstractModule.ts:103-115 | a response is written under its correlation id, a request writes nothing |
| CorrelatedCall.SendCall | 00_Base/src/interfaces/modules/AbstractModule.ts:220-288 | a callback URL given is readable under its own key; the request is handed over exactly if a connection with the right protocol is stored |
| CorrelatedCall.CallbackKeyIsAnother | 00_Base/src/interfaces/modules/AbstractModule.ts:220-288 | the callback URL is never mistaken for the response |
| CorrelatedCall.UpdatePasswordOnStation | 03_Modules/Configuration/src/module/DataApi.ts:202-249 | sent exactly if the station is connected and the broker accepts; then Updated exactly if the race gave a text that is accepted, Refused if one that is not, NoAnswer if nothing or an empty text |
| CorrelatedCall.NoLostResponse | 02_Util/src/cache/memory.ts:65-111 | a response handled before the deadline is what the caller gets, even if it came before the await |
| CorrelatedCall.PasswordResponseIsReceived | 03_Modules/Configuration/src/module/DataApi.ts:208-237 | the same from the subscription of `updatePasswordOnStation` to its outcome |
| CorrelatedCall.SilenceIsNoAnswer | 03_Modules/Configuration/src/module/DataApi.ts:208-237 | without a response a fresh correlation id yields nothing |
| CorrelatedCall.SilentStationIsNoAnswer | 03_Modules/Configuration/src/module/DataApi.ts:208-239 | from the subscription of `updatePasswordOnStation` to its outcome: with no response written by the end of the caching time, it is NoAnswer |
| BaseReport.CreateGetBaseReportRequest | 03_Modules/Configuration/src/module/BootNotificationService.ts:162-176 | request "0" is 'ongoing' with an expiry no longer than the caching time |
| BaseReport.ConfirmGetBaseReportSuccess | 03_Modules/Configuration/src/module/BootNotificationService.ts:187-221 | re-subscribes while 'ongoing' is reported and ends as the interleaving decides |
| BaseReport.ProgressKeepsWaiting | 03_Modules/Configuration/src/module/BootNotificationService.ts:193-217 | after any progress, a write of 'ongoing' leaves the loop waiting with a deadline a whole caching time away, 'complete' ends it normally and any other text does not |
| BaseReport.ConfirmTerminates | 03_Modules/Configuration/src/module/BootNotificationService.ts:162-211 | from the marking of the request on, whatever happens while it is sent and after any progress whose writes expire, silence ends the loop within the caching time of its last subscription |
| BaseReport.TimeoutDoesNotReadOngoing | 02_Util/src/cache/memory.ts:105-151 | at the waiter's timeout 'ongoing' has expired, equal deadlines included |
| BaseReport.LoopStaysBounded | 03_Modules/Configuration/src/module/BootNotificationService.ts:199-211 | under any interleaving the loop has ended or its current deadline is within the caching time |
| BaseReport.SuccessNeedsCompletion | 03_Modules/Configuration/src/module/BootNotificationService.ts:162-217 | from the marking of the request on, without a write of 'complete' the loop never returns normally, whatever was on record before |
| BaseReport.CompletionSucceeds | 03_Modules/Reporting/src/module/module.ts:233-251 | a write of 'complete' while the loop waits, after any progress, ends it normally at once |
| BaseReport.EarlyCompletionSucceeds | 03_Modules/Reporting/src/module/module.ts:233-240 | 'complete' written before the loop subscribes, and left alone, ends it normally within the caching time |
| BootCache.PermissionService.CacheChargerActionsPermissions | 03_Modules/Configuration/src/module/BootNotificationService.ts:128-160 | blocks or unblocks the actions in place, as a function of the cached status and the reply |
| BootCache.PermissionService.CacheBootStatus | 03_Modules/Configuration/src/module/module.ts:244-250 | caches a reply that is not an acceptance and differs |
| BootCache.PermissionsEffect | 03_Modules/Configuration/src/module/BootNotificationService.ts:128-160 | entry by entry, what a reply does to the cache of the station |
| BootCache.ReplyKeepsConsistent | 03_Modules/Configuration/src/module/module.ts:213-250 | after a sent reply the cached status is the reply, absent if Accepted, and the blacklist goes with it |
| BootCache.ForeignKeepsConsistent | 02_Util/src/cache/memory.ts:105-179 | nothing else that happens to the cache, no timer either, disturbs that |
| Boot201.ConfigurationModule.HandleBootNotification | 03_Modules/Configuration/src/module/module.ts:202-266 | cache, record, reply and start of a round after a boot, sent or not; no other record changes |
| Boot201.ConfigurationModule.FinishRound | 03_Modules/Configuration/src/module/module.ts:302-399 | for all answers the round ends as in the state machine: what is sent, when the record is rejected or accepted, when a reset is due |
| Boot201.UnknownIsTreatedAsConfigured | 03_Modules/Configuration/src/module/BootNotificationService.ts:42-116 | an unknown station is answered exactly like one on record with the configured status and nothing else, and gets a record with the status answered |
| Boot201.UnknownStaysAsConfigured | 03_Modules/Configuration/src/module/BootNotificationService.ts:42-116 | over every run from an unknown station: with unknown stations rejected every reply is Rejected, with unknown stations accepted every reply is Accepted, until the record is changed from outside |
| Boot201.KnownStationIsAnswered | 03_Modules/Configuration/src/module/BootNotificationService.ts:42-67 | the stored status, but a pending station is accepted exactly with autoAccept, no variable pending and no report needed by the record or else the configuration; the record stays |
| Boot201.RoundTakesItsSteps | 03_Modules/Configuration/src/module/module.ts:268-310 | a round requests its report exactly if the record it started with, or else the configuration, asks for it; one without variables cannot fail on them |
| Boot201.RejectedVariablesDecide | 03_Modules/Configuration/src/module/module.ts:368-386 | rejected variables that the record, or else the configuration, does not let pass leave a rejected station, answered so until another round ends; otherwise the station is accepted exactly with autoAccept |
| Boot201.CompletedReportIsNotRequestedAgain | 03_Modules/Configuration/src/module/module.ts:270-300 | no round started after a completed report requests one, until the record is changed from outside |
| Boot201.RequestMarksOngoing | 03_Modules/Configuration/src/module/module.ts:274-280 | a request leaves 'ongoing' under name 0 for the caching time, unblocks NotifyReport and changes nothing else |
| Boot201.ReportMayBeNotified | 03_Modules/Configuration/src/module/module.ts:274-300 | from its request on, NotifyReport stays unblocked whatever happens, until a boot is answered Accepted |
| Boot201.RoundWaitsAnew | 03_Modules/Configuration/src/module/BootNotificationService.ts:193-211 | a request sent, and an answer 'ongoing', make the round wait anew for the caching time |
| Boot201.BlacklistFollowsReplies | 03_Modules/Configuration/src/module/module.ts:213-275 | over every run: the cached status is the last reply, absent if Accepted; absent means nothing is blocked, present that all but BootNotification and possibly NotifyReport are; as many rounds as pending episodes |
| Boot201.FinishedRoundLeadsToAcceptance | 03_Modules/Configuration/src/module/module.ts:368-386 | with autoAccept, a round that is not stopped by a rejected variable makes the next boot Accepted, nothing blocked or cached, unless the record is changed from outside or another round is so stopped |
| Boot201.NeverAcceptedByItself | 03_Modules/Configuration/src/module/BootNotificationService.ts:42-116 | without autoAccept a known station stored as not Accepted is never answered Accepted unless the record is changed from outside |
| Boot201.LastRoundIsStuckIff | 03_Modules/Configuration/src/module/module.ts:282-386 | a step of the last open round leaves a pending station stuck exactly if the report cannot be sent or ends without completion, a SetVariables call is not answered, or the round is completed without autoAccept |
| Boot201.ReportNeedsCompletion | 03_Modules/Configuration/src/module/module.ts:268-300 | over every run a round that requests its base report does not get past it before 'complete' is written |
| Boot201.OverlapArises | 03_Modules/Configuration/src/module/module.ts:259-300 | two rounds of one station can wait for their base reports at the same time |
| Boot201.CompletionEndsBothIff | 03_Modules/Configuration/src/module/BootNotificationService.ts:162-217 | one completion ends the reports of two such rounds exactly if each is still waiting or already told |
| Boot201.FailedRoundIsNeverRetried | 03_Modules/Configuration/src/module/module.ts:259-386 | after each of these every later boot is answered Pending and starts no round |
| Boot201.UnsentReplyIsConsistentIff | 03_Modules/Configuration/src/module/module.ts:223-250 | an unsent reply leaves the cache consistent exactly if it was Accepted or a status was cached |
| BootCache.UnsentRejectionOutlivesAcceptance | 03_Modules/Configuration/src/module/BootNotificationService.ts:134-146 | otherwise even a later acceptance leaves every action blocked |
| Boot201.LookupIsRightIff | 03_Modules/Configuration/src/module/BootNotificationService.ts:42-67 | without the pending variables loaded the reply differs exactly if some are pending, no report is needed and autoAccept is on |
| Boot201.ActionsAreProtocolActions | 00_Base/src/index.ts:131-172 | the 2.0.1 schema map meets what the proofs ask of the charger-originated actions |
| Boot16.ConfigurationModule.HandleBootNotification | 03_Modules/Configuration/src/module/module.ts:674-740 | cache, record, reply and start of a round after a 1.6 boot, sent or not; no other record changes |
| Boot16.UnsentReplyIsConsistentIff | 03_Modules/Configuration/src/module/module.ts:683-724 | an unsent 1.6 reply leaves the cache consistent exactly if it was Accepted or a status was cached |
| Boot16.ConfigurationModule.SyncConfigurations | 03_Modules/Configuration/src/module/module.ts:741-806 | one flag tells whether any change could not be sent, the other whether the question could not; the rest of the record is kept |
| Boot16.RoundUnblocks | 03_Modules/Configuration/src/module/module.ts:741-806 | the end of a round unblocks its three calls and changes nothing else in the cache |
| Boot16.UnknownIsTreatedAsConfigured | 03_Modules/Configuration/src/module/BootNotificationService.ts:227-257 | an unknown 1.6 station is answered exactly like one on record with the configured status and nothing else, and gets that record |
| Boot16.UnknownStaysAsConfigured | 03_Modules/Configuration/src/module/BootNotificationService.ts:227-257 | over every run from an unknown 1.6 station: rejected or accepted as configured, every time, until the record is changed from outside |
| Boot16.KnownStationIsAnswered | 03_Modules/Configuration/src/module/BootNotificationService.ts:227-257 | the stored status, but a pending station is accepted exactly if the record wants neither kind of configuration; the reply is stored |
| Boot16.RoundStartsIff | 03_Modules/Configuration/src/module/module.ts:725-740 | a round starts exactly at a Pending reply that does not follow one |
| Boot16.BlacklistIsExact | 03_Modules/Configuration/src/module/BootNotificationService.ts:286-319 | over every run: while a status is cached exactly all actions but BootNotification are blocked, otherwise none |
| Boot16.PendingBootLeadsToAcceptance | 03_Modules/Configuration/src/module/module.ts:674-815 | from a pending boot on, a round whose every send succeeds makes the next boot Accepted with everything unblocked |
| Boot16.SuccessfulRoundLeadsToAcceptance | 03_Modules/Configuration/src/module/BootNotificationService.ts:227-257 | the same from the end of the round, however long the station waits |
| Boot16.StoredStatusIsLastReply | 03_Modules/Configuration/src/module/BootNotificationService.ts:321-357 | the record stores the last reply over every run |
| Boot16.FailedSendIsNeverRetried | 03_Modules/Configuration/src/module/module.ts:732-803 | after a failed send every later boot is answered Pending and starts no round |
| Boot16.FailedSendIsStuck | 03_Modules/Configuration/src/module/module.ts:741-803 | the round leaves the station in that state exactly if some send failed |
| Boot16.ActionsAreProtocolActions | 00_Base/src/index.ts:110-129 | the 1.6 schema map meets what the proofs ask of it |
| Batches.GetBatches | 02_Util/src/util/parser.ts:25-39 | the batches, each at the position of its first element, and nothing else, for exactly the lists and sizes for which the loop ends |
| Batches.ChunksRejoin | 02_Util/src/util/parser.ts:31-36 | nothing is lost, doubled or moved |
| Batches.ChunkAt | 02_Util/src/util/parser.ts:31-36 | batch i is the slice from i * size, the last one perhaps short |
| Batches.NumberOfChunks | 02_Util/src/util/parser.ts:31-36 | the least number of batches that hold the list |
| Batches.SlicesMakeUpList | 03_Modules/Configuration/src/module/module.ts:336-342 | the two slices of a message and of what remains make up the list for any size; a negative one keeps that many for later |
| Batches.EndsIff | 02_Util/src/util/parser.ts:31-36 | the loop ends exactly if the list is empty or the size positive |
| Batches.SendSetVariables | 03_Modules/Configuration/src/module/module.ts:302-366 | sends what is cut off, for a positive size every variable once, in order, in those batches; the flags say what was reported over all responses despite the early `continue`; throws at the first answer that fails; for exactly the inputs for which the loop ends; no message is empty or longer than a positive size reported, and without one there is one message |
| Batches.SendingEndsIff | 03_Modules/Configuration/src/module/module.ts:321-366 | the loop ends exactly if there is nothing to send, the size is positive or some answer fails |
| CertificateUpdate.CertificatesApi.ReplaceFile | 03_Modules/Certificates/src/module/DataApi.ts:350-365 | whatever fails, every original is in its backup or untouched, and the rollback list names exactly the backups made |
| CertificateUpdate.CertificatesApi.UpdateCertificates | 03_Modules/Certificates/src/module/DataApi.ts:367-431 | unless paths overlap, all-or-nothing for every point of failure: on a normal exit each configured file holds its own new content (key, chain, sub CA key and root CA, the last two exactly if path and content are given), its backup the old one, and nothing else has changed; when rolled back every file but the backups is as before, and so are the context and the signing keys; without faults, and for any paths, what the rollback of the whole plan leaves |
| CertificateUpdate.CertificatesApi.UpdateSecurityCertChainKeyMap | 02_Util/src/certificate/client/acme.ts:161-172 | replaces the signing keys of a server that has some, and cannot fail |
| CertificateUpdate.CertificatesApi.RollBack | 03_Modules/Certificates/src/module/DataApi.ts:419-429 | restores the backups in order, or says how many it restored |
| CertificateUpdate.RollbackRestores | 03_Modules/Certificates/src/module/DataApi.ts:419-429 | a completed rollback leaves every file as it was |
| CertificateUpdate.RecoverableIsKept | 03_Modules/Certificates/src/module/DataApi.ts:350-429 | every original is in its file or its backup at all times |
| CertificateUpdate.OverwriteKeepsRecoverable | 03_Modules/Certificates/src/module/DataApi.ts:350-365 | a write after the backup loses nothing, a partial one included |
| CertificateUpdate.RollbackRestoresIff | 03_Modules/Certificates/src/module/DataApi.ts:350-429 | for a plan of any length whose contents can be told apart, the rollback restores every file exactly if no two paths overlap |
| DeepEqual.DeepDirectionalEqual | 00_Base/src/assertion/assertion.ts:36-61 | answer and seen-set as specified; ends on every finite graph, cyclic or not |
| DeepEqual.SimulationImpliesEqual | 00_Base/src/assertion/assertion.ts:36-61 | true whenever a simulation relates left and right |
| DeepEqual.EqualMeansMatched | 00_Base/src/assertion/assertion.ts:36-61 | after true every left object met has one right partner with all of its keys |
| DeepEqual.TreeComparisonIsContainment | 00_Base/src/assertion/assertion.ts:36-61 | on a tree-shaped left object, true exactly if the right one contains it recursively |
| DeepEqual.HarmlessComparison | 00_Base/src/assertion/assertion.ts:36-61 | the answer is recursive containment when only objects without keys are shared or have been seen |
| DeepEqual.SpoilSecond | 00_Base/src/assertion/assertion.ts:43-49 | for an object with keys that occurs twice there is a right value taken for equal that does not contain the left |
| DeepEqual.SharingIsHarmlessIff | 00_Base/src/assertion/assertion.ts:36-61 | against all right values the answer is recursive containment exactly if whatever occurs twice in the left has no keys |
| MeterValues.GetTotalKwh | 00_Base/src/util/MeterValueUtils.ts:19-44 | the total of the specification: registers, else intervals, else the latest net value; the lemmas below say what it is |
| MeterValues.GetValuesMap | 00_Base/src/util/MeterValueUtils.ts:66-138 | the map from timestamps to readings of a measurand, or the exception |
| MeterValues.SumPhasedValues | 00_Base/src/util/MeterValueUtils.ts:168-218 | the sum over the phases, else over the phases to neutral |
| MeterValues.MapTabulates | 00_Base/src/util/MeterValueUtils.ts:66-138 | with distinct timestamps the map holds exactly the readings |
| MeterValues.SortedByTime | 00_Base/src/util/MeterValueUtils.ts:252-256 | every reading stands after as many as have earlier timestamps |
| MeterValues.SortedEnds | 00_Base/src/util/MeterValueUtils.ts:252-268 | first and last are the readings at the least and greatest timestamp |
| MeterValues.TotalIsOrderIndependent | 00_Base/src/util/MeterValueUtils.ts:19-44 | any permutation of meter values with distinct timestamps gives the same total or exception |
| MeterValues.RegisterTotal | 00_Base/src/util/MeterValueUtils.ts:19-88 | with register readings, the latest minus the earliest |
| MeterValues.CutTotalsAddUp | 00_Base/src/util/MeterValueUtils.ts:263-268 | cutting at a register reading gives totals that add up |
| MeterValues.IntermediateReadingIsIrrelevant | 00_Base/src/util/MeterValueUtils.ts:263-268 | a reading strictly in between changes nothing |
| MeterValues.MonotoneRegistersGiveNonNegativeTotal | 00_Base/src/util/MeterValueUtils.ts:263-268 | registers that never run backwards give no negative total |
| MeterValues.IntervalTotal | 00_Base/src/util/MeterValueUtils.ts:31-35 | without registers the total is the sum of the interval readings in the list |
| MeterValues.SingleIntervalTotal | 00_Base/src/util/MeterValueUtils.ts:31-35 | a single interval is its own total |
| MeterValues.DividedIntervalTotalsAddUp | 00_Base/src/util/MeterValueUtils.ts:31-35 | however a series without registers is divided in two, the totals of the parts add up |
| MeterValues.NetTotal | 00_Base/src/util/MeterValueUtils.ts:37-41 | with net values only, the total is the one with the greatest timestamp |
| MeterValues.NothingReadIsZero | 00_Base/src/util/MeterValueUtils.ts:21-43 | without any reading the total is zero |
| MeterValues.UnknownUnitIff | 00_Base/src/util/MeterValueUtils.ts:19-44 | the total throws exactly if a unit is unknown among the values consulted: registers, then intervals if there are none, then net values |
| MeterValues.OtherContextIsIgnored | 00_Base/src/util/MeterValueUtils.ts:51-59 | a meter value taken in another context changes nothing, wherever it stands |
| MeterValues.LastReadingCounts | 00_Base/src/util/MeterValueUtils.ts:66-138 | of several readings with one timestamp the last counts |
| MeterValues.FirstUnphasedIsRead | 00_Base/src/util/MeterValueUtils.ts:147-160 | the first value of the measurand without a phase is read, one without a measurand being a register |
| MeterValues.PhasesAddUp | 00_Base/src/util/MeterValueUtils.ts:168-218 | without one, registers and intervals are the sum over L1 to L3, or else over these to neutral; net values are absent |
| MeterValues.UnitsOfEnergy | 00_Base/src/util/MeterValueUtils.ts:225-245 | Wh unless another unit is named, a kWh being a thousand; a multiplier one higher makes ten times as much |
| MeterValues.UnknownUnitThrowsIff | 00_Base/src/util/MeterValueUtils.ts:225-245 | a unit is known exactly if it is one of six, in whatever case |
| MeterValues.TotalIgnoresUnits | 00_Base/src/util/MeterValueUtils.ts:95-245 | only the readings in kWh matter, through all fallbacks and phase sums |
| MeterValues.RewritingInKwhKeepsTotal | 00_Base/src/util/MeterValueUtils.ts:225-245 | Wh rewritten as kWh with a multiplier three less gives the same total |
| Money.RoundingTruncates | 00_Base/src/money/Money.ts:52-58 | toward zero, by less than a minor unit, to whole minor units |
| Money.RoundingIsIdempotent | 00_Base/src/money/Money.ts:52-58 | rounding twice is rounding once |
| Money.RoundingIsMonotone | 00_Base/src/money/Money.ts:52-58 | rounding keeps the order |
| Money.RoundingTheSumGainsLittle | 00_Base/src/money/Money.ts:52-67 | rounding the sum of n amounts exceeds the sum of the rounded by 0 to n - 1 minor units |
| Money.MismatchIff | 00_Base/src/money/Money.ts:64-91 | amounts compare and add up exactly if their currencies have one code |
| Money.AddingMovesUp | 00_Base/src/money/Money.ts:64-91 | adding makes an amount greater, less or neither exactly as what is added is positive, negative or zero |
| Money.AddingKeepsOrder | 00_Base/src/money/Money.ts:64-91 | adding the same to two amounts keeps their order |
| Money.TrichotomyIff | 00_Base/src/money/Money.ts:74-91 | in two currency objects of one code all amounts are exactly one of less, equal and greater exactly if it is one object, as it is for all that come from the table |
| LocalAuthList.LocalAuthListService.PersistSendLocalList | 03_Modules/EVDriver/src/module/LocalAuthListService.ts:36-129 | every check in order; what is accepted is within the limits; a list refused for its entries or its size stays on record with the rows made so far |
| LocalAuthList.CreateRefusesIff | 03_Modules/EVDriver/src/module/LocalAuthListService.ts:89-129 | a list is created exactly if its version is positive and higher than the current one, no token occurs twice and no entry is refused; otherwise the first of these says why; the rows follow the entries |
| LocalAuthList.PersistAcceptsIff | 03_Modules/EVDriver/src/module/LocalAuthListService.ts:36-87 | a list created is sent exactly if there is a limit, the updated list is within it, and the list is no longer than a message holds, if that is limited; otherwise the first of these says why |
| LocalAuthList.RowsOfRefused | 01_Data/src/layers/sequelize/repository/LocalAuthList.ts:59-153 | a refused list is recorded with a row for each entry before the first one refused |
| LocalAuthList.CommitStores | 01_Data/src/interfaces/repositories.ts:191-202 | an acceptance commits the version sent with the rows sent, or with those of other authorizations kept; a differential one without a list fails |
| LocalAuthList.LocalAuthListService.HandleSendLocalList | 03_Modules/EVDriver/src/module/module.ts:642-707 | an acceptance commits the list sent, nothing else does; the station goes on as in the runs |
| LocalAuthList.LocalAuthListService.HandleGetLocalListVersion | 03_Modules/EVDriver/src/module/module.ts:709-721 | a reported version that is not the stored one replaces it by an unknown list |
| LocalAuthList.LocalAuthListRepository.CreateSendLocalListFromRequestData | 01_Data/src/layers/sequelize/repository/LocalAuthList.ts:59-153 | a row for every entry, or the rows before the first entry that has no authorization or names a group |
| LocalAuthList.LocalAuthListRepository.GroupMatches | 01_Data/src/layers/sequelize/repository/LocalAuthList.ts:98-131 | the group check passes only for an entry without group |
| LocalAuthList.MatchingListIsCreatedIff | 01_Data/src/layers/sequelize/repository/LocalAuthList.ts:98-131 | a list whose entries all match is created exactly if none of them names a group |
| LocalAuthList.LocalAuthListRepository.CreateOrUpdateLocalListVersion | 01_Data/src/interfaces/repositories.ts:191-202 | as the interface has it, an acceptance replaces or merges the committed list |
| LocalAuthList.LocalAuthListRepository.ValidateOrReplaceLocalListVersion | 01_Data/src/layers/sequelize/repository/LocalAuthList.ts:155-186 | keeps the list of the reported version, empties any other |
| LocalAuthList.CountIsCommittedSize | 03_Modules/EVDriver/src/module/LocalAuthListService.ts:131-150 | the count before sending is the size of what an acceptance commits |
| LocalAuthList.MergeIsUnion | 03_Modules/EVDriver/src/module/LocalAuthListService.ts:138-146 | merging commits the union that is counted before sending, one row for each authorization |
| LocalAuthList.ListNeverTooLong | 03_Modules/EVDriver/src/module/LocalAuthListService.ts:36-87 | with one list outstanding at a time, no run commits more than the maximum |
| LocalAuthList.GuardedRunStaysWithin | 03_Modules/EVDriver/src/module/LocalAuthListService.ts:36-87 | nor does a run with any number outstanding, each sent only if everything together fits |
| LocalAuthList.AnswersMayExceedIff | 03_Modules/EVDriver/src/module/LocalAuthListService.ts:131-150 | some answers and version reports exceed the limit exactly if the committed or a full list with all differential ones does |
| LocalAuthList.CheckedListsMayExceed | 03_Modules/EVDriver/src/module/LocalAuthListService.ts:36-87 | two lists that each pass the check reach a station of which this holds |
| LocalAuthList.TwoDifferentialListsFitIff | 03_Modules/EVDriver/src/module/LocalAuthListService.ts:131-150 | two accepted differential lists fit exactly if the union of both with the committed one does |
| LocalAuthList.VersionsIncrease | 03_Modules/EVDriver/src/module/LocalAuthListService.ts:89-129 | with one list outstanding at a time, committed versions strictly increase between reports of the station |
| LocalAuthList.AnswersMayDisorderIff | 03_Modules/EVDriver/src/module/LocalAuthListService.ts:89-129 | some answers commit versions that do not increase exactly if two outstanding lists may be committed in the wrong order; given a committed list, exactly if two are outstanding |
| LocalAuthList.JoinedIsInjective | 03_Modules/EVDriver/src/module/LocalAuthListService.ts:108-119 | token and type can be told from the two run together |
| LocalAuthList.DuplicatesAreRefusedIff | 03_Modules/EVDriver/src/module/LocalAuthListService.ts:89-129 | once the version is in order, a list is refused as a duplicate exactly if some token occurs twice |
| LocalAuthList.StoredCommitIsRightIff | 01_Data/src/layers/sequelize/repository/LocalAuthList.ts:188-268 | the stored repository commits the right list exactly if nothing was sent or nothing could be updated |
| LocalAuthList.StoredPutIsRightIff | 01_Data/src/layers/sequelize/repository/LocalAuthList.ts:304-314 | given entries, which its only caller does not pass, it would replace the stale row exactly if row and authorization share their identity |
| SchemaCleaning.RemoveUnknownKeys | 00_Base/src/interfaces/api/AbstractModuleApi.ts:420-456 | the schema passed in is unchanged in memory; the copy ends as the cleaned schema |
| SchemaCleaning.CleanSchema | 00_Base/src/interfaces/api/AbstractModuleApi.ts:424-450 | cleans the tree where it stands and changes nothing else |
| SchemaCleaning.DeleteKeys | 00_Base/src/interfaces/api/AbstractModuleApi.ts:427-442 | at one object exactly the unwanted keys go |
| SchemaCleaning.CleanIsTidy | 00_Base/src/interfaces/api/AbstractModuleApi.ts:424-450 | no forbidden or stray key is left at any depth |
| SchemaCleaning.CleanKeepsSurvivors | 00_Base/src/interfaces/api/AbstractModuleApi.ts:424-450 | a path leads somewhere exactly if it did before and none of its keys had to go |
| SchemaCleaning.KeyIsGoneIff | 00_Base/src/interfaces/api/AbstractModuleApi.ts:427-442 | a key of an object that is still there is gone exactly if it is comment, javaType or tsEnumNames, additionalItems beside items that are no array, or additionalProperties of an object whose type is not "object" |
| SchemaCleaning.CleaningIsIdempotent | 00_Base/src/interfaces/api/AbstractModuleApi.ts:424-450 | cleaning twice is cleaning once |
| SchemaCleaning.CleaningIgnoresIdentity | 00_Base/src/interfaces/api/AbstractModuleApi.ts:420-456 | the result does not depend on where objects lie in memory |

## Left out

- The order of microtasks within one turn of the event loop: a race resolves, and the code awaiting it resumes, in the turn of
  the write or timer that decides it.
- Conversion of cached values by `classConstructor` and JSON parsing: the parsers are parameters or the values are given parsed.
- Fractions of a second and the exact time at which a due timer fires: due timers fire in any order, except that of two armed
  with the same delay the older fires first.
- Redis, message brokers, web sockets, HTTP, Sequelize as such, and all other I/O: repositories are maps with the contract of
  their interfaces; what brokers and file systems answer is a parameter.
- Cryptography, certificates' contents, passwords and access control.
- The router's use of the blacklist: it looks actions up under an identifier that contains the tenant
  (03_Modules/OcppRouter/src/module/router.ts:690), the model speaks of the entries that the boot service writes.
- Boot replies' intervals, times and status infos, the device model and location records, `variablesRejectedOnLastBoot`,
  which nothing here reads.
- Concurrent boots of one station within the handler's prefix: up to the start of a round a boot is one step; everything after
  that interleaves freely.
- Stations that switch protocol between boots.
- Boot201.ConfigurationModule.HandleBootNotification: the pending variables are part of the record, as the repository interface
  has it; what changes when they are not loaded is stated by `Boot201.LookupIsRightIff`.
- Boot201.BlacklistFollowsReplies: boots whose reply is sent; the others are treated by the lemmas on unsent replies. The same
  holds of `Boot16.BlacklistIsExact`.
- Boot201.ReportNeedsCompletion: a round may resume at any time after its wait is over, not only at once.
- Boot16.ConfigurationModule.SyncConfigurations: the subscriptions and waits between the sends are not interleaved with other
  steps, because their outcome is not looked at; the state machine interleaves whole rounds.
- CorrelatedCall.UpdatePasswordOnStation: the attributes written after an accepted answer.
- BaseReport.ConfirmGetBaseReportSuccess: logging and the texts of the exceptions.
- Batches.GetBatches: the insertion order of the map, which is that of its keys; runs that do not end.
- Batches.SendSetVariables: runs that do not end, which `Batches.SendingEndsIff` tells apart.
- CertificateUpdate.CertificatesApi.UpdateCertificates: what faults do to files whose paths overlap; file permissions and links;
  how the server takes its new context, beyond that it takes it or throws.
- CertificateUpdate.RollbackRestoresIff: contents that are equal, so that a file may be right by chance.
- DeepEqual.DeepDirectionalEqual: NaN, getters, prototypes and symbols; a primitive is known by its identity.
- MeterValues.GetTotalKwh: floating-point rounding, the parsing of timestamps, the text of the exception, letters outside ASCII
  in units.
- Money.RoundingTruncates: parsing of amounts and currencies with a scale other than two, which the currency table does not have.
- Money's `multiply` and `subtract`: they are single expressions.
- LocalAuthList.ListNeverTooLong: the maximum stays the same over a run, no two tokens share an authorization, and the
  repository keeps its interface; how the stored one does not is stated by the two lemmas on it.
- DeepEqual.SharingIsHarmlessIff: cyclic left objects, which have no recursive containment to compare with; on them a
  simulation still forces the answer (`DeepEqual.SimulationImpliesEqual`).
- SchemaCleaning.CleanSchema: schemas are trees, as JSON is; properties inherited from prototypes.
- SchemaCleaning.RemoveUnknownKeys: structuredClone itself; its result is a parameter.
- The circuit breaker, reconnection, the connection registry, EVSE selection, environment configuration, and data transfer
  objects: easy members, or no property to prove.
