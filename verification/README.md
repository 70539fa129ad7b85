# What a change run may rely on

MasterVault admits new evidence into a reviewed corpus by long, resumable *change runs*.  A run calls a
provider that costs money, writes evidence that is never overwritten, and may be killed between any two
writes.  This project models the code that makes this safe and the code that accounts for the corpus behind
it, and proves what each promises, over every input, run and history of kills.

* **At-most-once calls** (`CreateOnlyFiles`, `ProviderCalls`, `ProviderProtocol`, `ProviderJournal`,
  `ProviderRefinement`, `ExtractionCalls`, `ExtractionHistory`, `OneShotRegister`).  The provider journal is a
  state machine of single file effects: any number of callers interleave, the lock is taken and lost, and any
  of them is killed at any point.  The journal's methods are proved to be the uninterrupted sessions of that
  machine.  The extraction journal is a second implementation; both refine one register that goes from empty
  to claimed to done.
* **Starting a run** (`StartCommand`, `StartOwnership`, `RunLock`, `LifecycleIndex`).  The operation row pins
  the start time, the two command indexes are claimed with it, and the run lock is bound to a recorded inode
  identity.
* **The start saga** (`StartSaga`, `SagaAttempts`, `SagaRecovery`, `SagaRecords`, `SagaRefusals`,
  `SagaReplays`, `StartNavigation`, `SagaNavigation`).  The saga is a chain of durable records in a fixed
  order, with two repair paths that jump into the middle, and with checks that may refuse to go on.  Any history
  of killed attempts leaves the beginning of a crash-free run, a retry ends exactly as that run ends, every link
  names the record it is for, and the links are exactly those the read model can present.
* **Replay, corpus and review** (`TupleOrder`, `Utf8`, `ReplayPairing`, `GenerationCorpus`,
  `ReviewCitations`).  Sorted and distinct tuples, in the order Python gives them.
* **Reading and accounting** (`SourceText`, `LineRuns`, `MarkdownBlocks`, `MarkdownRoundTrip`,
  `MarkdownDocuments`, `MarkdownAnchors`, `CorpusLedger`, `ClaimEvidence`, `PriceHistory`,
  `InvoiceArithmetic`).  A rendered document is read back as the parts it was written from, and a ledger is told
  from the notes and records alone.

A process that may be killed is given a *life*: the number of durable effects it still performs.  A kill
between linking a file and unlinking its pending name leaves an inode with two names, which every reader
refuses; the model keeps that residue, and it decides several results below.

## Where the code does less than it seems to

Each of these is a proved statement with a concrete case or an exact condition.

* Retrying a start can fail although no provider call is indeterminate.  The lifecycle index cleans no
  residue, so a kill between its link and its unlink is permanent (`SagaReplays.KilledIndexWriteWedges`,
  `LifecycleIndex.KilledBetweenLinkAndUnlinkWedges`).  `SagaRefusals.RetryCompletesExactlyWhen` is the exact
  condition.
* Several checks come after durable evidence, so what they refuse can never be finished or corrected, although
  no residue is left and every call is answered: a replayed bundle or stage that differs, no predecessor-bound
  support, a support rationale that is too long (`SagaRefusals.OwnFailureIsForever`).  A source that is
  admitted without exactly one current predecessor of its family is classified first and refused then
  (`SagaReplays.NoPredecessorIsRefused`, `SagaReplays.NoPredecessorNeverFinishes`).
* The shape check accepts a review request whose proposal is missing; no saga leaves such links
  (`StartNavigation.ShapeAdmitsReviewWithoutProposal`, `SagaNavigation.ReachableLinks`).
* A run whose start has not finished cannot be presented once a later generation is active
  (`SagaNavigation.ReachableStatusIsValidExactlyWhen`, `SagaNavigation.UnfinishedStartCannotBePresented`).
* A start killed inside its first index write refuses every retry of its own until another start cleans up
  (`StartOwnership.ResidueWaitsForAnotherStart`).
* Anybody who gives the lock file a second name makes its holder's exit fail, though exclusion holds
  (`RunLock.SecondNameSpoilsExit`).
* The lock's record is of an inode number: once a run is over, another file that gets the same number is taken
  for the lock file (`RunLock.ReusedNumberIsAccepted`).
* Positional pairing of shards with recordings is right exactly for sorted workloads
  (`ReplayPairing.PositionalPairingExactlyWhenSorted`, `ReplayPairing.TwoShardsSwapped`).
* Explicit binding compares the reopened shards with the references as a whole only: two references whose
  receipts reopen to each other's shards are accepted (`ReplayPairing.CrossedReceiptsAreAccepted`, with the
  exact condition in `ReplayPairing.OwnDigestsExactlyWhenSorted`).
* A stored citation may be too long for the public packet, or its artifact's path may not be allowed there
  (`ReviewCitations.LongQuoteCannotBeReviewed`, `ReviewCitations.UnderscoreCannotBeReviewed`).
* Block anchors do not hash the block type (`MarkdownAnchors.SharedAnchors`).
* In the corpus ledger an observation outranks an exclusion of the same file, and the exclusion is reported
  nowhere (`CorpusLedger.HistoryHidesExclusion`).
* A summary of five label lines with a repeated label lacks another, and the check then ends with an error
  (`InvoiceArithmetic.CheckInvoice`).

## Model

| member | source | states |
|---|---|---|
| CreateOnlyFiles.CreateOnlyIsWriteOnce | src/mastervault/change_control/inference_repository.py:624-685 | a create-only write never changes or removes a file wherever the process dies; a reported success leaves exactly its content, readable |
| ProviderProtocol.AtMostOnce | src/mastervault/change_control/application_provider_calls.py:324-379 | in every interleaving of any number of callers, killed anywhere, at most one provider call is ever made per owner, run and request digest |
| ProviderProtocol.OnlyTheClaimantCalls | src/mastervault/change_control/application_provider_bridge.py:60-117 | the call is made for the claim that is durable under its key, and that claim is never replaced |
| ProviderProtocol.BeginIsExact | src/mastervault/change_control/application_provider_calls.py:292-379 | in a reachable state `begin` answers COMPLETED exactly when a readable pointer exists, FRESH exactly when there is no claim, INDETERMINATE for its own claim without a pointer, a conflict for another's; a claim is its own whatever its time |
| ProviderProtocol.CompletionIsForever | src/mastervault/change_control/application_provider_calls.py:292-322 | once a readable pointer exists, every later `begin` with the same inputs, whatever its clock, returns that one result, whatever happens in between, and the provider really returned it to that claim |
| ProviderProtocol.OrphanStaysHidden | src/mastervault/change_control/application_provider_calls.py:292-379 | once a claimant is gone without its pointer, no continuation ever returns a result for its key, whatever result file it left, and the provider is never called for it again: `begin` is INDETERMINATE, a conflict, or refuses residue |
| ProviderProtocol.KillAbandons | src/mastervault/change_control/application_provider_bridge.py:60-117 | a claimant killed anywhere before its pointer is linked, also after its result file is, leaves its key in that state |
| ProviderProtocol.RunGrows | src/mastervault/change_control/application_provider_calls.py:381-441 | claims, results and pointers are only ever added |
| ProviderProtocol.RunInv | src/mastervault/change_control/application_provider_calls.py:324-441 | what every step keeps: every pointer names a stored result of the stored claim and of a call that was made; unclaimed keys were never called; the lock has one holder |
| ProviderCalls.ClaimsAgreeExactlyWhen | src/mastervault/change_control/application_provider_calls.py:145-150 | claims have equal semantic keys exactly when they differ in nothing but the claim time, and equal call keys exactly for one owner, run and request digest |
| ProviderCalls.ReadsExactly | src/mastervault/change_control/application_provider_calls.py:281-322 | a completion is read exactly if the pointer and the file it names are readable and belong to the key |
| ProviderJournal.ProviderCallJournal.Begin | src/mastervault/change_control/application_provider_calls.py:324-379 | one `begin` on the durable store, for a process that lives for any number of effects: its reply and the whole new store |
| ProviderJournal.ProviderCallJournal.Complete | src/mastervault/change_control/application_provider_calls.py:381-441 | one `complete`: result file, then pointer, then the reopened pair; its reply and the whole new store |
| ProviderJournal.RecordedProvider.Complete | src/mastervault/change_control/application_provider_bridge.py:60-117 | claim, call, verify the answer, complete: the reply, the whole new store and the calls made, for a process killed anywhere and for rejected answers too |
| ProviderJournal.ReturnedIsRecorded | src/mastervault/change_control/application_provider_bridge.py:60-117 | the provider is asked exactly where no claim was; its answer is refused exactly for another model or provider or an empty id; a returned value is the recorded one, or the answer to the one call, readable from then on with every field of its claim |
| ProviderJournal.CompleteIsExact | src/mastervault/change_control/application_provider_calls.py:381-441 | completing changes nothing unless exactly this claim is readable and has no pointer, and returns a recorded answer only to the very same completion |
| ProviderJournal.FirstAnswerIsReturned | src/mastervault/change_control/application_provider_bridge.py:60-117 | a first answer that keeps the contract, to a process that lives, is recorded and returned, and to every retry with another clock too |
| ProviderRefinement.BeginSession | src/mastervault/change_control/application_provider_calls.py:324-379 | the fine-grained steps of one caller's `begin`, uninterrupted up to any kill, are the journal method's effect |
| ProviderRefinement.CompleteSession | src/mastervault/change_control/application_provider_calls.py:381-441 | the same for `complete`, over its two write sessions |
| ProviderRefinement.BridgeSession | src/mastervault/change_control/application_provider_bridge.py:60-117 | the whole use of the bridge on a free key, step by step: one call, then the recorded answer or the contract error, as the bridge method has it |
| ProviderRefinement.RunLeadsRegister | src/mastervault/change_control/application_provider_calls.py:226-441 | every run of the protocol moves the register of each key only from empty to claimed to done |
| ProviderRefinement.BeginReadsRegister | src/mastervault/change_control/application_provider_calls.py:324-379 | in a reachable state every `begin` answers as the one-shot register says, ignoring claim time |
| ExtractionCalls.RequestsAgreeExactlyWhen | src/mastervault/change_control/application_extraction_calls.py:144-148 | requests agree exactly when they differ in nothing but the claim time, and share a key exactly for one start and request digest |
| ExtractionCalls.ReadsExactly | src/mastervault/change_control/application_extraction_calls.py:317-341 | a result is read exactly if pointer, file and claim are readable and the file answers that claim |
| ExtractionCalls.ExtractionRepository.Begin | src/mastervault/change_control/application_extraction_calls.py:343-386 | one `begin` of the second journal: outcome and whole new store, for a process killed anywhere |
| ExtractionCalls.ExtractionRepository.CompleteLive | src/mastervault/change_control/application_extraction_calls.py:400-462 | one `complete_live`: checks against the claim, result file, pointer; outcome and whole new store |
| ExtractionCalls.LiveExtraction.Execute | src/mastervault/change_control/application_generic_extraction.py:87-183 | claim, call, ground, complete: outcome, whole new store and calls made, for a process killed anywhere and for rejected answers too |
| ExtractionCalls.ReturnedIsGrounded | src/mastervault/change_control/application_generic_extraction.py:87-183 | the provider is asked exactly where no claim was and refused exactly for a parsed, misnamed, unnamed or ungrounded answer; a recorded result escapes only if it still grounds to its recorded claims, a fresh one only once it is durable, and it is the grounded answer to exactly this request |
| ExtractionCalls.CompleteIsExact | src/mastervault/change_control/application_extraction_calls.py:400-462 | completing changes nothing unless the result answers exactly this request, which is readable and has no pointer |
| ExtractionCalls.FirstAnswerIsReturned | src/mastervault/change_control/application_generic_extraction.py:87-183 | a first grounded answer, to a process that lives, is recorded and returned, and to every retry with another clock too |
| ExtractionHistory.OperationRefinesRegister | src/mastervault/change_control/application_extraction_calls.py:317-462 | every operation, killed anywhere, moves the register of each retry key by at most one legal step |
| ExtractionHistory.HistoryLeads | src/mastervault/change_control/application_extraction_calls.py:317-462 | so does every history |
| ExtractionHistory.BeginReadsRegister | src/mastervault/change_control/application_extraction_calls.py:343-386 | after any history `begin` answers as the same one-shot register that the provider journal refines |
| ExtractionHistory.AtMostOneFreshLease | src/mastervault/change_control/application_extraction_calls.py:343-386 | no retry key is ever given a second fresh lease |
| ExtractionHistory.ResultIsForever | src/mastervault/change_control/application_extraction_calls.py:317-341 | once a result is durable, every later `begin` with the same inputs, whatever its clock, returns it, and one with other inputs is a conflict |
| StartCommand.StartCommandRepository.Claim | src/mastervault/change_control/application_start_command.py:405-436 | one claim over both indexes, killed anywhere: outcome and whole new state |
| StartCommand.ClaimSucceedsExactlyWhen | src/mastervault/change_control/application_start_command.py:405-436 | how a claim that lives ends: a failure for an unreadable index, a conflict for an owner that differs in more than the time, and success exactly if both owners are then the same |
| StartCommand.UnpinnedRetryWedges | src/mastervault/change_control/application_start_command.py:405-436 | concrete failure: without a pinned time, a claim killed between its two writes can never be completed by a retry with a later clock |
| StartOwnership.StartFacade.StartChange | src/mastervault/change_control/application.py:1896-1957 | the operation row pins the first start time and every retry claims with it: outcome and whole new state |
| StartOwnership.OneToOneForever | src/mastervault/change_control/application_start_command.py:405-436 | in any history of attempts killed anywhere, completed pairs are one-to-one and permanent |
| StartOwnership.RetryFinishesExactlyWhen | src/mastervault/change_control/application.py:1904-1957 | with the pin, what an attempt that lives returns after any history: it finishes with equal bytes in both indexes unless another operation has taken the run, the operation is rebound, or a file carries residue |
| StartOwnership.ResidueWaitsForAnotherStart | src/mastervault/change_control/application_start_command.py:405-436 | the residue case at one input: a start killed just after linking its operation index refuses every retry until the claim of another start cleans the directory |
| StartOwnership.AfterKeeps | src/mastervault/change_control/managed_store.py:496-554 | the pinned row never changes and no index file is ever replaced, over every history |
| RunLock.GetsReadyExactlyWhen | src/mastervault/change_control/application_start_command.py:221-268 | a process reports the number of the one file that the path names or that it creates there, and goes on exactly if the record is, or becomes, that number |
| RunLock.EntersExactlyWhen | src/mastervault/change_control/application_start_command.py:283-321 | after any history: the first check passes exactly for the recorded number under its one visible name, the lock is taken exactly when nobody holds it, and the second check lets the process in exactly when the path still names the locked file alone |
| RunLock.FirstStartEnters | src/mastervault/change_control/application_start_command.py:221-321 | a first start that nobody disturbs gets inside and records the number of the file it created |
| RunLock.LaterStartEnters | src/mastervault/change_control/application_start_command.py:269-321 | so does a later one whenever the path names one file with the recorded number, whose lock is free |
| RunLock.KilledHolderIsReplaced | src/mastervault/change_control/application_start_command.py:269-351 | a holder that is killed gives up the lock, and the next start enters in its place |
| RunLock.MutualExclusion | src/mastervault/change_control/application_start_command.py:269-351 | at most one process is inside the lifecycle section, under any kills, unlinks, renames, hard links and reuse of inode numbers, and it holds the lock of a file with the recorded number |
| RunLock.AuthorityIsForever | src/mastervault/change_control/managed_store.py:607-675 | the recorded lock identity never changes |
| RunLock.CleanExitExactlyWhen | src/mastervault/change_control/application_start_command.py:171-219 | a holder leaves cleanly exactly when the visible path names the very file whose lock it holds and that file has no other name |
| RunLock.SecondNameSpoilsExit | src/mastervault/change_control/application_start_command.py:320-337 | a second name for the lock file, given by anybody, turns a clean exit into a failure without touching the lock path |
| RunLock.ReusedNumberIsAccepted | src/mastervault/change_control/application_start_command.py:283-321 | at one input: after the run is over, another file that got the same inode number is accepted as the lock file |
| RunLock.RunInv | src/mastervault/change_control/application_start_command.py:221-351 | what every step keeps: living files have different numbers, every checked process holds a file of the recorded number, no two hold one lock |
| LifecycleIndex.FilesystemLifecycleIndex.Persist | src/mastervault/change_control/application_lifecycle_evidence.py:433-490 | one `persist`, killed anywhere: outcome and whole new index |
| LifecycleIndex.ReopenExactlyWhen | src/mastervault/change_control/application_lifecycle_evidence.py:339-431 | after any history, reopening returns a record exactly if one `persist` linked it first and lived to unlink its pending name, nothing exactly if none linked one, a failure exactly if the first to link one was killed there |
| LifecycleIndex.OneRecordForever | src/mastervault/change_control/application_lifecycle_evidence.py:339-490 | once an operation has returned a record, every later one on that run and stage returns the same record, or a conflict for another semantic key |
| LifecycleIndex.KilledBetweenLinkAndUnlinkWedges | src/mastervault/change_control/application_lifecycle_evidence.py:455-490 | a kill between link and unlink leaves the slot unreadable for every later operation: the index has no cleanup |
| LifecycleIndex.EveryRecordWasPersisted | src/mastervault/change_control/application_lifecycle_evidence.py:433-490 | a record is exactly what one operation persisted in full, and a slot is unreadable exactly when its first write was killed between link and unlink: no partial record is ever seen |
| StartSaga.AdvanceDescends | src/mastervault/change_control/application_start_lifecycle.py:486-1237 | every stage of the saga comes strictly later in one fixed order, so an attempt terminates |
| SagaAttempts.StartLifecycle.Run | src/mastervault/change_control/application_start_lifecycle.py:309-1237 | one start attempt, with both repair paths, killed after any durable effect, refused by any of its checks or stopped by a rejected answer: outcome and whole new store |
| SagaRecords.RecordsComeInOrder | src/mastervault/change_control/application_start_lifecycle.py:486-1237 | after any history the durable records, calls apart, are the first ones of one of two written-out runs |
| SagaRecords.CompletedHasAll | src/mastervault/change_control/application_start_lifecycle.py:486-1237 | an attempt that completes leaves a whole run |
| SagaRecords.CallsComeInTurn | src/mastervault/change_control/application_start_lifecycle.py:486-1237 | a stage's evidence comes right after all its calls, each claimed and answered before the next is claimed |
| SagaRecords.LinksNameTheirRecords | src/mastervault/change_control/application_start_lifecycle.py:636-1236 | after any history every durable link, index and review request names the record it is for, as that record is stored: incoming link the incoming receipt, suite link the suite receipt, and so on for twelve of them |
| SagaRecords.RecordsPassedTheirChecks | src/mastervault/change_control/application_start_lifecycle.py:586-1097 | every durable record passed the checks before it and every recorded answer was accepted |
| SagaRecords.StagesAreEnteredExact | src/mastervault/change_control/application_start_lifecycle.py:563-570 | a stage is entered only with an exact replay |
| SagaRecords.ClassificationDecides | src/mastervault/change_control/application_start_lifecycle.py:910-930 | behind the classification comes the no-change receipt exactly if nothing is superseded, and neither ending without exactly one predecessor |
| SagaRecords.ResidueIsOfOneFile | src/mastervault/change_control/inference_repository.py:624-685 | residue is only ever of one record, and that one is a file, not a row |
| SagaRecords.EveryFileCanBeTorn | src/mastervault/change_control/inference_repository.py:624-685 | and of every one of those files: some killed start leaves it |
| SagaRecords.OthersCleanExactly | src/mastervault/change_control/inference_repository.py:624-685 | which residue other runs clean and which they do not, slot by slot |
| SagaRecovery.MechanicalRepair | src/mastervault/change_control/application_start_lifecycle.py:414-483 | repairing the lost terminal link leaves a prefix of the records that the ordinary path writes |
| SagaRecovery.TemporalRepair | src/mastervault/change_control/application_start_lifecycle.py:309-411 | repairing proposal link, review row and review link from the durable commit does too, from every point at which it can find the store |
| SagaRecovery.AttemptContinues | src/mastervault/change_control/application_start_lifecycle.py:309-1237 | one attempt over any reachable store extends the chain of records; what stands in its way is read off the records, and a refusal or a rejection it reports is that of the check or the answer which the extended chain comes to next |
| SagaRecovery.HistoryIsCrashFreePrefix | src/mastervault/change_control/application_start_lifecycle.py:486-1237 | after any history of killed attempts the durable records are the first records of some crash-free run |
| SagaRecovery.EveryPrefixIsReachable | src/mastervault/change_control/application_start_lifecycle.py:486-1237 | conversely, every beginning of a crash-free run is what some killed start leaves |
| SagaRecovery.NeverRebound | src/mastervault/change_control/application_start_lifecycle.py:189-226 | no stage owner and no link target is ever rebound, over every continuation |
| SagaRecovery.CrashEquivalence | src/mastervault/change_control/application_start_lifecycle.py:486-1237 | an attempt that comes to an end of its own after any history, completed, refused or with a rejected answer, leaves exactly the store and reports exactly the outcome of one crash-free attempt with the same captured times and answers |
| SagaRecovery.RetryEndsExactlyAs | src/mastervault/change_control/application_start_lifecycle.py:309-1237 | a retry that is not killed fails on residue it must read, else on an indeterminate provider claim, else ends exactly as the crash-free attempt with the captured inputs; never in a conflict or a stale analysis |
| SagaRefusals.CrashFreeEndsExactlyWhen | src/mastervault/change_control/application_start_lifecycle.py:486-1237 | a crash-free attempt is refused for a reason exactly when its run comes to a check with that objection, has an answer rejected exactly when it comes to such a call, and completes exactly when it comes to neither |
| SagaRefusals.RetryCompletesExactlyWhen | src/mastervault/change_control/application_start_lifecycle.py:309-1237 | a retry that is not killed completes exactly when no record it must read carries residue, no provider claim is indeterminate, and the run with the captured inputs comes to no objection and no rejected answer |
| SagaRefusals.OwnFailureIsForever | src/mastervault/change_control/application_start_lifecycle.py:486-1237 | a refusal is permanent: every later attempt, whatever its clock and answers, is refused for the same reason and nothing changes; behind a rejected answer every later attempt is indeterminate |
| SagaReplays.ReplayedStartEnds | src/mastervault/change_control/application_start_lifecycle.py:553-1097 | how a replayed start ends, as one decision over its checks in their order: mismatch, predecessor, support, rationale over 4000 characters, or completion with or without dependencies |
| SagaReplays.NoPredecessorIsRefused | src/mastervault/change_control/application_start_lifecycle.py:910-925 | an admitted source without one current same-family predecessor: the start stops behind its classification index, with no residue and no open claim, for good |
| SagaReplays.NoPredecessorNeverFinishes | src/mastervault/change_control/application_start_lifecycle.py:910-925 | no history of kills and retries completes such a start, and which failure each retry reports |
| SagaRecovery.WedgedForever | src/mastervault/change_control/application_lifecycle_evidence.py:339-490 | residue in a directory that no run cleans for another is permanent: nothing later changes the store |
| SagaReplays.KilledWriteWedges | src/mastervault/change_control/application_lifecycle_evidence.py:455-490 | wherever a run stands, a kill inside the next write that nobody cleans for it leaves a store that never changes and no retry that gets past it |
| SagaReplays.KilledIndexWriteWedges | src/mastervault/change_control/application_start_lifecycle.py:211-226 | concrete counterexample to "a retry fails only when indeterminate": a replayed start, without any provider call, killed while indexing its first evidence |
| SagaRecovery.CommitIsOfTheIndex | src/mastervault/change_control/application_start_lifecycle.py:309-345 | the durable temporal commit is always the commit of the indexed evidence |
| StartNavigation.RequireShape | src/mastervault/change_control/application_read_models.py:310-375 | the growing allowed set and the gap flag accept exactly the closed-form shape, and each rejection is reported in its order of precedence |
| StartNavigation.ShapeAdmitsReviewWithoutProposal | src/mastervault/change_control/application_read_models.py:310-375 | a review request without its proposal passes the shape check: the ordered check does not reach it |
| StartNavigation.ShapeExactlyWhen | src/mastervault/change_control/application_read_models.py:310-375 | the accepted shape, written out link by link |
| StartNavigation.LinksByPhase | src/mastervault/change_control/application_read_models.py:60-105 | the same table read the other way: the phases in which a run may have each link |
| StartNavigation.ProjectedStatusIsValidExactlyWhen | src/mastervault/change_control/change_application_contracts.py:413-496 | for any links, phase and evidence: exactly when the projected status satisfies the public validator |
| StartNavigation.ValidatorDemands | src/mastervault/change_control/change_application_contracts.py:405-440 | any valid status names the action and the outcome of its phase, and flags and counts that its evidence has |
| StartNavigation.OperatorIsTold | src/mastervault/change_control/managed_store.py:2722-2815 | what the operator is told to do next, and how the run is said to have ended, exactly as its links and review records have it |
| SagaNavigation.ChainLinks | src/mastervault/change_control/application_start_lifecycle.py:926-1236 | which links are durable at each point of the saga |
| SagaNavigation.ReachableLinks | src/mastervault/change_control/application_start_lifecycle.py:926-1236 | after any history the links are one of seven sets, gap-free, never both endings |
| SagaNavigation.ReachableLinksAreAccepted | src/mastervault/change_control/application_read_models.py:310-401 | the read model derives one phase from each reachable set, leaves it alone and accepts its shape |
| SagaNavigation.ReachableStatusIsValidExactlyWhen | src/mastervault/change_control/change_application_contracts.py:413-496 | the projected status satisfies the public validator exactly when the baseline covers the admitted suite, an open review is undecided, and a merely bootstrapped run serves generation zero |
| SagaNavigation.UnfinishedStartCannotBePresented | src/mastervault/change_control/change_application_contracts.py:413-496 | at one input: a replayed start killed right after its first link cannot be presented once generation one is active |
| ReplayPairing.RequireExactStage | src/mastervault/change_control/application_replay.py:195-209 | the stage is accepted exactly when its request digests are the distinct workload digests in increasing order |
| ReplayPairing.PositionalPairingExactlyWhenSorted | src/mastervault/change_control/application_start_lifecycle.py:844-864 | after acceptance, zipping by position pairs equal digests everywhere exactly when the workload lists its shards in increasing order |
| ReplayPairing.UnsortedWorkloadIsMispaired | src/mastervault/change_control/application_start_lifecycle.py:1013-1032 | any other order is accepted all the same and then mispairs some shard |
| ReplayPairing.TwoShardsSwapped | src/mastervault/change_control/application_start_lifecycle.py:844-864 | at one input: two shards listed in decreasing order |
| ReplayPairing.SourceOrderIs | src/mastervault/change_control/application_downstream.py:895-904 | sources are ordered by shard identifier, then by shard digest |
| ReplayPairing.ReplaySources | src/mastervault/change_control/application_downstream.py:875-904 | explicit binding gives each receipt the shard it reopened to, strictly ordered, whatever order the shards come in, and succeeds exactly when the stage is exact as a whole; each result pairs a reference with the shard of its own request digest exactly when the reopened digests come in order |
| ReplayPairing.OwnDigestsExactlyWhenSorted | src/mastervault/change_control/application_downstream.py:875-894 | every accepted reference names the digest of the shard its receipt reopens to exactly when the reopened digests, in the order of the references, are increasing |
| ReplayPairing.CrossedReceiptsAreAccepted | src/mastervault/change_control/application_downstream.py:885-894 | at one input: two references whose receipts reopen to each other's shards are accepted |
| GenerationCorpus.Complete | src/mastervault/change_control/generation_corpus.py:170-279 | a returned corpus is strictly ordered by path and holds exactly the untouched base notes and the current entries; it is returned exactly under the listed conditions |
| GenerationCorpus.CorpusIs | src/mastervault/change_control/generation_corpus.py:216-262 | a note is in the corpus exactly if it is a base note at a path that is not projected, or the note of a served entry: its path and content, with the support files and workspace of the base note there if that has support files |
| GenerationCorpus.ReconstructedIsPrepared | src/mastervault/change_control/generation_corpus.py:206-279 | the served entries are those of the projection in its order, each can be prepared by itself and all together, and the documents are at exactly the paths of the corpus |
| GenerationCorpus.NoPredecessorSurvives | src/mastervault/change_control/generation_corpus.py:216-262 | a note at a projected path has the content of a current entry |
| ReviewCitations.Project | src/mastervault/change_control/application_read_models.py:656-710 | succeeds exactly when every citation is in order by itself; then what is listed is exactly, once each and strictly ordered, the path of its input with the citation's own digest, span and quote; otherwise the first fault is reported and it is never a conflict |
| ReviewCitations.FaultIs | src/mastervault/change_control/application_read_models.py:661-691 | a citation has no fault exactly when it names the last input of its identifier with that digest, the input reopens exactly, the span holds the quote and all fits the packet; otherwise its fault is the first of these that fails |
| ReviewCitations.SafeLocatorExactlyWhen | src/mastervault/change_control/change_application_contracts.py:157-170 | a safe path is made of components of letters, digits, dots, dashes and underscores, none empty or hidden |
| ReviewCitations.SpanOrderIs | src/mastervault/change_control/application_read_models.py:698-709 | the packet is ordered by path, start, end and digest, in this order |
| ReviewCitations.SpanDeterminesQuote | src/mastervault/change_control/application_read_models.py:691-709 | equal locator, digest and span force equal quotes |
| TupleOrder.LessExactlyWhen | src/mastervault/change_control/application_read_models.py:698-709 | tuples compare at the first component where they differ, and a proper beginning is less |
| TupleOrder.BelowExactlyWhen | src/mastervault/change_control/application_read_models.py:698-709 | so do texts, by code points |
| Utf8.EncodeInjective | src/mastervault/change_control/application_read_models.py:687-691 | UTF-8 is injective |
| ReviewCitations.AcceptedExactlyWhenStrictlyOrdered | src/mastervault/change_control/change_application_contracts.py:613-621 | the subject's validator accepts exactly strictly ordered lists |
| ReviewCitations.PacketIgnoresOrder | src/mastervault/change_control/application_read_models.py:656-710 | the packet does not depend on the order or repetition of a plan's citations |
| ReviewCitations.StoreCountsBytes | src/mastervault/change_control/managed_review.py:840-870 | the store takes 8192 characters of one byte and refuses 4097 of two |
| ReviewCitations.LongQuoteCannotBeReviewed | src/mastervault/change_control/change_application_contracts.py:540-563 | a citation that the store accepts can be too long for the packet: the stored limit is 8192 bytes, the public one 4000 characters |
| ReviewCitations.UnderscoreCannotBeReviewed | src/mastervault/change_control/change_application_contracts.py:157-170 | an artifact path that starts with an underscore, which the store takes, can never be cited in a packet |
| MarkdownBlocks.Parse | datasets/larkstead/qa/generate_pdf_fixtures.py:619-694 | every non-blank line lands in exactly one block, ranges ordered, each block is what its lines say; failure exactly for an empty first line or a body table that is not a rectangle |
| MarkdownBlocks.ReadingUnique | datasets/larkstead/qa/generate_pdf_fixtures.py:619-694 | there is only one such reading |
| MarkdownBlocks.KindsAt | datasets/larkstead/qa/generate_pdf_fixtures.py:651-691 | each line is classified by itself |
| MarkdownBlocks.TablesAreRectangles | datasets/larkstead/qa/generate_pdf_fixtures.py:605-616 | every table of a parsed document has a header and rows of equal width |
| MarkdownDocuments.RenderedIsRead | datasets/larkstead/qa/generate_pdf_fixtures.py:607-694 | reading a document that was written from a title, metadata, headings, list items, paragraphs and tables, with blank lines only where one would run on into the next, gives back exactly these, in every reading of it |
| MarkdownDocuments.BodyStartExactlyWhen | datasets/larkstead/qa/generate_pdf_fixtures.py:630-637 | the metadata ends before the first line that is blank or has no colon |
| MarkdownRoundTrip.ElementReads | datasets/larkstead/qa/generate_pdf_fixtures.py:646-694 | each element is written on lines of its kind and read as its block |
| MarkdownRoundTrip.TableReads | datasets/larkstead/qa/generate_pdf_fixtures.py:596-616 | a table gives its cells row by row, without the rule under its header, if there is one |
| MarkdownRoundTrip.RulesAre | datasets/larkstead/qa/generate_pdf_fixtures.py:596-600 | a rule is three dashes or more, with or without a colon at each end |
| MarkdownRoundTrip.PlainHeadingsAre | datasets/larkstead/qa/generate_pdf_fixtures.py:413-431 | the plain headings are seventeen fixed lines and examples |
| LineRuns.CutUnique | datasets/larkstead/qa/generate_pdf_fixtures.py:646-694 | line kinds and the start of the body leave one way to cut a document |
| MarkdownAnchors.Annotate | datasets/larkstead/qa/generate_pdf_fixtures.py:696-735 | one pass with a counting dictionary: block i keeps type, text, level and table, is numbered i + 1, is anchored by its own occurrence in the whole list, and its cells tile its table |
| MarkdownAnchors.ParseSemanticSource | datasets/larkstead/qa/generate_pdf_fixtures.py:619-735 | of the whole reader: it returns exactly for a document with a first line and rectangular tables; ranges partition the non-blank lines, reading order is 1..n, cells tile rectangles, no cell anchor repeats |
| MarkdownAnchors.AnchorIs | datasets/larkstead/qa/generate_pdf_fixtures.py:514-518 | an anchor written out: the digest of document, kind and the normalised text with the number of earlier blocks of its type and text |
| MarkdownAnchors.AnchorsAcrossDocuments | datasets/larkstead/qa/generate_pdf_fixtures.py:514-518 | anchors of any two documents and kinds agree exactly when document, kind, text and occurrence do |
| MarkdownAnchors.SharedAnchors | datasets/larkstead/qa/generate_pdf_fixtures.py:514-518 | two blocks share an anchor exactly when they differ in type and agree in normalised text and per-type occurrence |
| MarkdownAnchors.KeyInjective | datasets/larkstead/qa/generate_pdf_fixtures.py:707-707 | the NUL-separated key determines text and occurrence, even if the text contains NUL |
| MarkdownAnchors.NormalizedTextIsStable | datasets/larkstead/qa/generate_pdf_fixtures.py:509-511 | normalising the key a second time, as the anchor does, changes nothing |
| MarkdownAnchors.CellsInOrder | datasets/larkstead/qa/generate_pdf_fixtures.py:713-722 | the cells are the table's texts in row-major order, no position twice |
| MarkdownAnchors.CellPresent | datasets/larkstead/qa/generate_pdf_fixtures.py:713-722 | every position of the table has its cell |
| MarkdownAnchors.CellAnchorsDistinct | datasets/larkstead/qa/generate_pdf_fixtures.py:713-722 | no cell anchor is given out twice in a document |
| MarkdownAnchors.TitleSharesItsAnchor | datasets/larkstead/qa/generate_pdf_fixtures.py:707-708 | concrete collision: a title repeated as a paragraph |
| CorpusLedger.BuildLedger | src/mastervault/corpus_ledger.py:80-246 | both trees are listed by path components; raw files = entries + files reported without one; each entry has the state that notes and records give its path, in file order; each report about a path has its exact condition; each count is the number of entries in its state; nothing is reported exactly for a clean corpus, and then the entries are the raw paths in that order, each once |
| CorpusLedger.Account | src/mastervault/corpus_ledger.py:155-246 | the same for any list of files |
| CorpusLedger.StatusIsState | src/mastervault/corpus_ledger.py:161-219 | a path is processed exactly if a note and no exclusion names it, with the first such note and the last observation; historical exactly if it was observed and no note names it; excluded exactly if only an exclusion does |
| CorpusLedger.NotesCleanExactlyWhen | src/mastervault/corpus_ledger.py:41-70 | notes are clean exactly if each names a source with a digest and no two the same |
| CorpusLedger.HistoryCleanExactlyWhen | src/mastervault/corpus_ledger.py:16-125 | the history is clean exactly if its version and form are right, paths and identifiers are distinct, and each row is the one observation that may be made |
| CorpusLedger.ExclusionsCleanExactlyWhen | src/mastervault/corpus_ledger.py:127-150 | exclusions are clean exactly if version and form are right, paths are distinct, and reason and code are not blank |
| CorpusLedger.PathOrderIsNotTextOrder | src/mastervault/corpus_ledger.py:154-154 | the order is of components, not of the printed text: a/b.md comes before a-b.md |
| CorpusLedger.PrintedInjective | src/mastervault/corpus_ledger.py:37-38 | different paths print differently |
| CorpusLedger.ProcessedByProvenance | src/mastervault/corpus_ledger.py:41-70 | every note is indexed or reported, the first note for a source wins |
| CorpusLedger.ReadHistory | src/mastervault/corpus_ledger.py:91-125 | the last observation of a path is kept; nothing is reported exactly for a clean record |
| CorpusLedger.ReadExclusions | src/mastervault/corpus_ledger.py:127-150 | the same for exclusions |
| CorpusLedger.Conservation | src/mastervault/corpus_ledger.py:155-219 | each raw file has an entry or is reported as multiply classified or unclassified |
| CorpusLedger.NoIssues | src/mastervault/corpus_ledger.py:155-219 | no file is reported exactly when each has a state that matches its digest |
| CorpusLedger.StatesSum | src/mastervault/corpus_ledger.py:229-237 | the three status counts sum to the entries |
| CorpusLedger.ReportDangling | src/mastervault/corpus_ledger.py:221-227 | exactly the names without a raw file are reported, once each, in the order of their text |
| CorpusLedger.HistoryHidesExclusion | src/mastervault/corpus_ledger.py:189-202 | a corpus about which nothing is reported although its file is both observed and excluded, and the exclusion has another digest |
| ClaimEvidence.EvidenceByClaim | src/mastervault/evidence.py:94-142 | the batch fails exactly when some claim fails alone, with the first one's fault, and otherwise answers every claim as alone |
| ClaimEvidence.EvidenceExactlyWhen | src/mastervault/evidence.py:68-142 | evidence comes back exactly if the document is a source, its place and note are in order, its first key claim of that name carries it, the asset is intact there and the parse supports it |
| ClaimEvidence.FaultExactlyWhen | src/mastervault/evidence.py:58-142 | each fault is reported exactly if that is the first thing missing or stale |
| ClaimEvidence.ResolveCached | src/mastervault/evidence.py:112-141 | whatever the caches hold, the outcome is the uncached one, and the caches stay coherent |
| ClaimEvidence.OrderDoesNotMatter | src/mastervault/evidence.py:94-142 | with distinct identifiers the answer is the map of single resolutions, for any order of claims and documents |
| ClaimEvidence.InspectionAgrees | src/mastervault/evidence.py:145-186 | the inspection command returns the batch's evidence or fault for source documents, and reports a claim without evidence where the batch answers nothing |
| ClaimEvidence.InspectionSeesOtherDocuments | src/mastervault/evidence.py:145-186 | for other documents they part: the batch answers nothing |
| PriceHistory.PriceAt | datasets/larkstead/qa/mechanical_check.py:123-140 | the last listed entry among those with the greatest effective date not after the query; else the first listed with the earliest date; always one of the known prices |
| PriceHistory.InEffectExactlyWhen | datasets/larkstead/qa/mechanical_check.py:134-139 | an entry is in effect on its own date and after it |
| PriceHistory.SortedLast | datasets/larkstead/qa/mechanical_check.py:127-140 | stable sort and early exit find that entry |
| PriceHistory.LatestUnique | datasets/larkstead/qa/mechanical_check.py:123-140 | there is at most one such entry |
| InvoiceArithmetic.CheckInvoice | datasets/larkstead/qa/mechanical_check.py:369-400 | exactly the lines off by 0.02 or more are reported, then the subtotal if the line totals are off by as much, then the total if subtotal less discount plus shipping and tax is; none exactly when everything adds up; a label missing from the summary ends the check with an error |
| InvoiceArithmetic.LineFindingsAre | datasets/larkstead/qa/mechanical_check.py:376-384 | the reported lines are those that do not fit, each once, in their order |
| InvoiceArithmetic.ParseSummary | datasets/larkstead/qa/mechanical_check.py:349-366 | a summary is read exactly when there are five label lines and each block has an amount; each label has the last amount of its last block |
| InvoiceArithmetic.CleanTotal | datasets/larkstead/qa/mechanical_check.py:369-400 | a clean invoice of n lines: printed total within 0.02(n+2) of quantities times unit prices, less discount, plus shipping and tax |
| InvoiceArithmetic.CleanTotalIsTight | datasets/larkstead/qa/mechanical_check.py:369-400 | every smaller difference occurs, for every n and any discount, shipping and tax |

## Left out

- SHA-256 is an injective function, or a constructor holding what was hashed; the shortened anchor digest is taken to be injective too.
- Clocks, provider answers, and the parsing and grounding of responses are parameters of the operations.
- Canonical JSON, regular-expression field patterns and schema versions: values are typed instead.
- Path preflight, symlinks, permissions, owners, `fsync` and partial reads and writes: an effect happens whole or not at all.
- Pending files: at most one residue per directory, its cleanup is one effect, and the bound on the number of pending files is not modelled.
- ProviderProtocol.AtMostOnce: a read is fused with the effect that follows it under the same lock.
- LifecycleIndex.FilesystemLifecycleIndex.Persist: the FileExistsError branch, which the repository lock rules out, is not modelled; nor is the same branch of `_create_only`.
- Operation identities in the managed store belong to start attempts only; other kinds of writes that could own one are not modelled.
- SagaAttempts.StartLifecycle.Run: the members of one evidence batch are one record, a provider result and its pointer are one answer, and every recorded call is read again where the code may jump to a later receipt; the algorithms that decide how many calls a stage makes and what follows are a parameter, and so are the checks, of which only the replay, predecessor, support and rationale checks have a name of their own. Everything read besides the records (settings, notes, index of the served generation, replay bundle) is the same in every attempt of a run, a provider error is a rejected answer, and what is checked again while only navigation is repaired does not fail.
- SagaReplays.ReplayedStartEnds: only for starts without provider calls in which the checks without a name of their own do not object.
- Other runs cleaning shared directories appear as one event, for the directories of the extraction, classification and dependency journals and of the evidence batches. Residue that other runs leave there, which can stop this run's writes until it is cleaned, is not modelled.
- RunLock.MutualExclusion: device, owner and mode of the lock file do not change, and opening and statting a path is one step.
- The phases after the temporal review, replay bundle ownership (the same write-once claim once more) and activation.
- MarkdownBlocks.Parse: lines are given, not split from the text, and the digits of list markers are ASCII.
- MarkdownDocuments.RenderedIsRead: an element has at most one blank line before it, a paragraph line starts with a letter, and cells, titles and values carry no white space at their ends; other documents are covered by MarkdownBlocks.Parse alone.
- MarkdownAnchors.SharedAnchors: compatibility normalisation is any function that leaves normalised keys alone, and anchors are kept as their parts, not rendered to text.
- ReviewCitations.Project: text holds no lone surrogates.
- CorpusLedger.BuildLedger: the wording of messages is not modelled, and issues about notes and record rows are exact as to whether there are any.
- ClaimEvidence.EvidenceByClaim: files and index do not change during a call.
- PriceHistory.PriceAt: the lookup of an unknown SKU, which raises, is outside.
- InvoiceArithmetic.CheckInvoice: regular expressions over invoice text are not modelled: a line is its label and its trailing amount, a row its three numbers; arithmetic is over exact reals.
- Malformed JSON in ledger records and unreadable files, which raise before any accounting.
- PDF rendering, embeddings, query generation, listing, printing.
