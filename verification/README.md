# SoHoLINK in Dafny

SoHoLINK places jobs on machines that members contribute, meters and pays for them, and lets
outside operators act through transmissions signed by two of seven keys.  This project models
the stateful core of that system and proves what its actors keep together, over whole runs.

| file | what it models |
|---|---|
| `ReplayWindow.dfy` | the 256-bit sliding replay window and the unbounded set it stands for |
| `KeyRing.dfy`, `SuiteC.dfy`, `KeysetHash.dfy`, `ByteOrder.dfy` | usage counting, lazy key expiry, rotation, the conformance drill, the hash of a key set |
| `Onboarding.dfy`, `EmailCode.dfy` | registration, conformance, activation, revocation; email codes |
| `OperatorAuth.dfy` | the authentication of one transmission, with faults, over all operators |
| `JobRow.dfy`, `Orchestrator.dfy`, `JobProtocol.dfy` | one job's row, the worker that moves it, and all its actors interleaved |
| `Metering.dfy`, `Payouts.dfy` | what a job costs, how it is split, and how it is paid out once |
| `Placement.dfy`, `Capacity.dfy` | hard filters, scoring, top-N; the supply fold |
| `RateLimit.dfy`, `Sink.dfy`, `Fees.dfy` | the 401 budget, the lossy telemetry sink, fee declarations |
| `Sequences.dfy`, `Wrappers.dfy` | facts about sequences and multisets; the optional value |

A database statement or transaction is one atomic step, times are numbers on one clock that
does not run backwards, and SHA-256 is an injective constructor.  Signature verification is a
predicate on the signing indices and the key map.  A run is a sequence of states and a sequence
of events; theorems about runs hold for every run.  Methods do in place what the source does in
place and are proved against functions; lemmas are about those functions.

## Where code and documentation differ

The models follow the code.  Where a promise does not hold, a lemma shows a case and another
says exactly when it does hold.

- Activation is documented as bound to the tested keys; finalize binds whatever keys are active then (`Onboarding.UntestedKeysCanActivate`, `Onboarding.ActivatedKeysWereTestedExactlyWhen`).
- A node's decline is two statements; a reroute between them can return the job to the decliner (`JobProtocol.DeclineMayBeOvertaken`, `JobProtocol.NeverBoundToDeclinerExactlyWhen`).
- A completion is stamped before its UPDATE and may precede the start, whoever recorded it (`JobProtocol.CompletionMayPrecedeStart`, `JobProtocol.ReportMayFollowCompletion`, `JobProtocol.EndsAfterStartExactlyWhen`).
- The dispatch UPDATE checks the status and not the node, so a job rebound after the listing is claimed by the old node (`JobProtocol.ClaimedForAnother`, `JobProtocol.ClaimedForSelfExactlyWhen`).
- The dispatch flip is documented as the agent's claim; a poll also returns a job that its UPDATE did not claim (`JobProtocol.HandedOutTwice`, `JobProtocol.HandOutIsClaimExactlyWhen`).
- Payouts are documented as held back by an open dispute; a dispute opened after the listing is not seen.  The one statement here that opens a dispute does so on failed no-shows only (`JobProtocol.DisputesAreNoShows`), so such a dispute on a paid job is entered by other means (`Payouts.DisputeAfterListingIsTooLate`, `Payouts.PaidUnderDisputeExactlyWhen`).
- The idempotency key is documented as closing the double payment; it is sent on behalf of the connected account, and provider onboarding (internal/portal/server.go:1529-1535) replaces that account (`Payouts.ReplacedAccountIsPaidAgain`, `Payouts.PaidOnceExactlyWhen`, `Payouts.PaidTwiceOnlyIf`).
- "Never a lockout" needs a burst of at least one (`RateLimit.SmallBurstLocksOut`, `RateLimit.RecoversExactlyWhen`).
- "A same-region node beats any out-of-region node of any class" holds exactly below a lead in load terms of the node's own class score, less three points against a node of the requester's country (`Placement.CountryMayBeatRegion`, `Placement.RegionMayLose`, `Placement.RegionWinsExactlyWhen`).
- Idleness is documented as never overturning the certified terms; it overturns leads below two points (`Placement.IdlenessOverturnsLess`, `Placement.CertifiedLeadHoldsExactlyWhen`).
- "Terms never change for already-offered work" holds exactly for effective times in the future (`Fees.BackdatedPublish`, `Fees.PastUntouchedExactlyWhen`).
- The current row is documented as the one presently in force; it need not be yet (`Fees.CurrentNotYetInForce`, `Fees.CurrentIsInForceExactlyWhen`).
- The suggested fee number is not storable after 2^63 - 1 (`Fees.NumbersRunOut`, `Fees.NextNumberPasses`).

The nonce table's primary key is the nonce alone, so `OperatorAuth.NonceConsumedOnce` holds across all operators and
scopes, which is more than a nonce per operator and scope.

## Model

| member | source | states |
|---|---|---|
| `ReplayWindow.SetBit` | internal/operator/repository.go:877-884 | changes exactly the one bit asked for, and nothing when the position is beyond the bytes |
| `ReplayWindow.ShiftRight` | internal/operator/repository.go:889-901 | a fresh array holding the bits moved n places towards higher positions, zeros moved in, the overflow lost, for every n |
| `ReplayWindow.AdvanceWindow` | internal/operator/repository.go:815-864 | the byte-level window step decides and updates exactly as the bit-list step does, including malformed rows and first use |
| `ReplayWindow.AdvanceRefinesSet` | internal/operator/repository.go:815-864 | the bounded bitmap stands for the unbounded set of accepted numbers: it accepts exactly the numbers neither in the set nor 256 or more below its highest, and then stands for the set with the number added |
| `ReplayWindow.BitsReadFromTheTop` | internal/operator/repository.go:866-884 | bit pos of the row is in byte pos / 8, counted there from the highest bit |
| `ReplayWindow.WindowHoldsSeen` | internal/operator/repository.go:815-901 | in every run from the zero row, bit i is set exactly when high minus i was accepted |
| `ReplayWindow.RefusedExactlyWhenSeenOrStale` | internal/operator/repository.go:815-864 | in every run, a number is refused if and only if it was accepted before or an accepted number is 256 or more above it |
| `ReplayWindow.NeverAcceptedTwice` | internal/operator/repository.go:815-864 | in every run two accepted numbers differ |
| `KeyRing.UseOneEffect` | internal/operator/repository.go:521-554 | one use adds one to one active row, expires it exactly when it reaches its threshold above the floor, asks for a swap exactly on a crossing, and keeps the cached active count equal to a recount |
| `KeyRing.RecordUsageEffect` | internal/operator/repository.go:504-560 | a transmission's two uses add one to total usage for each signer with an active row, never take the active keys below the floor, expire no key below its threshold and keep one active key per index |
| `KeyRing.RotateEffect` | internal/operator/repository.go:578-629 | a verified rotation retires the old key of its index and adds the new one with zero usage; the number of active keys, total usage, all other rows and the one algorithm are kept |
| `KeyRing.AtMostSeven` | internal/operator/repository.go:504-629 | one active key per index bounds the active keys by seven |
| `KeyRing.RotatesExactlyWhen` | internal/operator/repository.go:578-629 | a rotation is accepted if and only if it is signed, its threshold is positive, its index one of 0 to 6, its two signers different indexes with an active key of its algorithm, and its new key not yet active |
| `KeyRing.KeyMapOfOneAlgo` | internal/operator/repository.go:97-146 | with one algorithm the key map holds exactly the active rows, and is refused exactly when there is none |
| `KeyRing.KeyMapPinsAlgoExactlyWhen` | internal/operator/repository.go:97-146 | of every key map that is returned, all keys name one algorithm if and only if all of the names are empty or none is |
| `KeyRing.KeyTable.RecordUsageAndExpire` | internal/operator/repository.go:504-560 | the in-place loop leaves the rows and the swap flag of the usage specification |
| `KeyRing.KeyTable.RegisterReplacementKey` | internal/operator/repository.go:578-629 | the transaction commits exactly the verified rotations and otherwise changes nothing |
| `KeyRing.KeyTable.GetActiveKeyMap` | internal/operator/repository.go:97-146 | the scan returns the specified key map for an active operator and nothing for any other |
| `SuiteC.RecordOneIsProduction` | internal/operator/conformance.go:583-682 | the drill's step on one mock key is the production step with floor 2 |
| `SuiteC.RecordIsProduction` | internal/operator/conformance.go:583-682 | the drill's step on two keys is production usage recording with floor 2, rows and swap flag alike |
| `SuiteC.RecordInPlace` | internal/operator/conformance.go:583-682 | the in-place step on the mock array is that step |
| `SuiteC.DrivePhase` | internal/operator/conformance.go:583-682 | driving one key to its threshold succeeds exactly when the partner key does not cross too early |
| `SuiteC.RunSuiteCScratch` | internal/operator/conformance.go:583-682 | for all five positive thresholds, the drill passes if and only if the last is at least the sum of the first four, or one less when the fourth is 1 |
| `SuiteC.GradeShippedDrill` | internal/operator/conformance.go:54-60 | the shipped thresholds 3, 6, 9, 12, 365 pass |
| `ByteOrder.CompareBytes` | internal/operator/repository.go:266-286 | the byte loop computes the lexicographic order |
| `ByteOrder.LeqTotal` | internal/operator/repository.go:266-286 | the order is total and antisymmetric |
| `ByteOrder.LeqTransitive` | internal/operator/repository.go:266-286 | the order is transitive |
| `KeysetHash.SortUnique` | internal/operator/repository.go:253-262 | two sorted lists of the same keys are the same list, so any sort gives the hashed order |
| `KeysetHash.HashSortedPubkeys` | internal/operator/repository.go:253-262 | the digest is that of the sorted keys back to back |
| `KeysetHash.DigestIdentifiesKeyset` | internal/operator/repository.go:253-262 | for keys of one length, digests are equal if and only if the key multisets are, whatever the order |
| `KeysetHash.MixedLengthsCollide` | internal/operator/repository.go:253-262 | why the lengths must be equal: keys of mixed lengths, which registration does not admit, could share a digest |
| `Onboarding.RunKeepsInv` | internal/operator/repository.go:345-714 | every onboarding run keeps the operator's invariant: index uniqueness, one algorithm, 3 to 7 active keys while in force, a pass bound to finished suites |
| `Onboarding.NoRunMixesAlgos` | internal/api/operator_onboarding.go:193-239 | in every run all active keys, and all keys of a returned key map, name the one supported algorithm |
| `Onboarding.KeyMapExactlyWhenInForce` | internal/operator/repository.go:97-146 | in every run a key map is returned if and only if the operator was activated and never revoked; then email is verified, a full pass is recorded, and 3 to 7 keys are active |
| `Onboarding.RevocationAbsorbs` | internal/operator/repository.go:671-714 | after a revocation or disconnect no later event brings the key map back |
| `Onboarding.UsageIsTwicePerTransmission` | internal/operator/repository.go:504-560 | in every run total usage over all rows, of any state, is twice the counted transmissions |
| `Onboarding.ActivationMatchesPass` | internal/operator/repository.go:345-409 | at the step that activates, the seven active keys are as a multiset the keys the pass was bound to |
| `Onboarding.ActivatedKeysAreBoundKeys` | internal/operator/conformance.go:692-788 | in every run those keys were the active keys at an earlier successful finalize of that run |
| `Onboarding.KeysAreLastRegistered` | internal/operator/repository.go:426-486 | in every run the active keys of a pending, unrevoked operator are those of the last accepted registration |
| `Onboarding.RegistersExactlyWhen` | internal/api/operator_onboarding.go:193-239 | a registration is accepted if and only if it names ed25519 or nothing, has seven keys of 32 bytes and seven positive thresholds, and the operator is not yet activated |
| `Onboarding.KeysAreFiled` | internal/operator/repository.go:426-486 | in every run a pending, unrevoked operator has for each index 0 to 6 one active row, with the key and threshold the last accepted registration gave at that place |
| `Onboarding.ActivationOpensRegisteredKeys` | internal/operator/repository.go:345-409 | in every run the key map that an activation opens holds under each index the key the last accepted registration gave at that place |
| `Onboarding.VerdictsAreGradings` | internal/operator/conformance.go:384-482 | in every run a suite stands as passed in a run if and only if the first grading of that suite after the run's start was a pass |
| `Onboarding.FinalizesExactlyWhen` | internal/operator/conformance.go:692-788 | in every run, while pending and unrevoked, finalizing succeeds if and only if all three suites were graded as passed in that run |
| `Onboarding.NotReadyExactlyWhen` | internal/operator/conformance.go:692-788 | finalizing is refused as not ready if and only if a suite has not passed; the run's row is then failed and finished once A and B are graded, and running before, with its hash kept |
| `Onboarding.PassExactlyWhen` | internal/operator/conformance.go:692-788 | in every run a pending, unrevoked operator has a pass if and only if a successful finalize came after the last accepted registration, and the pass is the digest of the active keys |
| `Onboarding.ActivatesExactlyWhen` | internal/operator/repository.go:345-409 | in every run an activation of a pending operator succeeds if and only if there was no revocation, the email was verified, and a successful finalize came after the last accepted registration |
| `Onboarding.ActivatedKeysWereTestedExactlyWhen` | internal/operator/conformance.go:692-788 | in every run the activated keys are the keys both signed suites were graded under if and only if the last accepted registrations before the two gradings of the bound run and before the activation carry the same keys, in any order |
| `Onboarding.UnchangedKeysWereTested` | internal/operator/conformance.go:692-788 | in particular if no registration is accepted between the first grading and the activation |
| `Onboarding.UntestedKeysCanActivate` | internal/operator/conformance.go:692-788 | a run in which keys are replaced after grading, finalize binds the new ones, and untested keys become active |
| `Onboarding.OperatorStore.RegisterKeys` | internal/operator/repository.go:426-486 | the handler's checks of algorithm, count and length, then the transaction: replaces the keys and clears the pass, or changes nothing |
| `Onboarding.OperatorStore.Finalize` | internal/operator/conformance.go:692-788 | binds the pass to the current keys exactly when all suites passed and seven keys are active; the run's own row becomes passed with the hash, failed when both issued challenges are consumed, or running |
| `Onboarding.OperatorStore.Activate` | internal/operator/repository.go:345-409 | activates exactly under its gates and otherwise changes nothing |
| `Onboarding.OperatorStore.Disconnect` | internal/operator/repository.go:690-714 | revokes the operator and every active key, and nothing else |
| `EmailCode.Verifier.IssueEmailCode` | internal/operator/verification.go:107-195 | issues, or refuses in the order session, other session's live code, cooldown, leaving the row alone |
| `EmailCode.Verifier.CheckEmailCode` | internal/operator/verification.go:213-292 | verifies and deletes, or refuses; only a wrong guess counts and only expiry deletes |
| `EmailCode.FiveGuessesPerCode` | internal/operator/verification.go:213-292 | in every run at most five wrong guesses count against an issued code, and after five even the right code is refused |
| `EmailCode.OtherSessionsHarmless` | internal/operator/verification.go:107-292 | in every run calls by other sessions leave a live code untouched |
| `EmailCode.CodeVerifiesOnce` | internal/operator/verification.go:213-292 | between two successful checks there is a new issue |
| `EmailCode.IssuesAreSpaced` | internal/operator/verification.go:107-195 | two issues with no success between them are at least 30 seconds apart, whichever sessions ask |
| `EmailCode.VerifiedExactlyWhen` | internal/operator/verification.go:213-292 | in every run a check verifies if and only if it comes from the session and with the code of the last issue, no later than ten minutes after it, with fewer than five other codes tried by that session since |
| `EmailCode.IssuedExactlyWhen` | internal/operator/verification.go:107-195 | in every run a code is issued if and only if the session is named and no live issue blocks it: another session's for ten minutes, the same session's for 30 seconds |
| `EmailCode.RefusedBecause` | internal/operator/verification.go:107-292 | in every run, while the last issued code is live, the answer to each call: which refusal, in which order, or success |
| `OperatorAuth.FreshTimestampIsExact` | internal/api/operator_auth.go:101-131 | the int64 difference with wrap-around accepts exactly the timestamps within five minutes either side |
| `OperatorAuth.RefusalLeavesStateAlone` | internal/api/operator_auth.go:86-159 | a request refused as a replay, or as unauthorized with no commit of unknown outcome, changes nothing |
| `OperatorAuth.SeqConsumedOnce` | internal/operator/repository.go:735-795 | in every run no sequence number is consumed twice per operator and coordinator |
| `OperatorAuth.RefusedExactlyWhenSeenOrStale` | internal/api/operator_auth.go:86-159 | an otherwise good request with a new nonce is answered as a replay if and only if its number was consumed before or is 256 or more below a consumed one |
| `OperatorAuth.NonceConsumedOnce` | internal/api/operator_auth.go:26-34 | a nonce is consumed again only after its row was swept, and then under a later signed timestamp |
| `OperatorAuth.TransmissionConsumedOnce` | internal/api/operator_auth.go:26-34 | in every run with sweeps strictly after expiry, no signed transmission is consumed twice |
| `OperatorAuth.UsageIsTwiceCounted` | internal/api/operator_auth.go:86-159 | in every run an operator's total usage is twice the transmissions whose usage was recorded |
| `OperatorAuth.ServedIsCounted` | internal/api/operator_auth.go:86-159 | a served request was consumed and counted; without faults consumed, counted and served are the same requests |
| `OperatorAuth.ServedOnlyInForce` | internal/api/operator_auth.go:86-159 | in every run a request is served only for an activated, verified, never revoked operator with 3 to 7 active keys |
| `OperatorAuth.AnsweredExactlyWhen` | internal/api/operator_auth.go:86-159 | in every run a request is served, answered as a replay, or failed exactly as follows: 401 unless it is timely and signed by two different active keys of an activated, unrevoked operator; a replay answer unless its number and nonce are unused; then served unless a fault strikes |
| `OperatorAuth.UnusedExactlyWhen` | internal/operator/repository.go:735-795 | in every run the replay check passes if and only if the nonce is not stored, and the number was not consumed nor is 256 or more below a consumed one |
| `OperatorAuth.ServedCountsItsSigners` | internal/operator/repository.go:504-560 | in every run a served request adds one use to each signer's active key and to no other, and asks for a swap if and only if one of the two reached its threshold |
| `OperatorAuth.NonceKeptTenMinutes` | internal/api/operator_auth.go:26-34 | in every run a used nonce is stored with its expiry ten minutes after the request, and stays until a sweep after that |
| `OperatorAuth.AuthStore.CheckAndAdvanceRows` | internal/operator/repository.go:735-795 | the packed replay row and nonce table move exactly as the abstract check-and-advance |
| `OperatorAuth.AuthStore.HandleRequest` | internal/api/operator_auth.go:86-159 | the ordered steps on the stored rows give the specified outcome and state |
| `JobRow.TerminalRowsAreFrozen` | internal/store/dispatch.go:95-156 | no guarded update of any actor touches a completed, failed or delivered row |
| `JobRow.StartFixesNode` | internal/orchestrator/orchestrator.go:402-648 | once a start is recorded no update changes it or the node |
| `JobRow.OnlyTheLoopRebinds` | internal/orchestrator/orchestrator.go:402-648 | only the two loop commits change the node of a row |
| `JobRow.MovesAsTabled` | internal/orchestrator/orchestrator.go:402-877 | every guarded update moves the status exactly as one table of statuses, times and numbers (120 and 604800 seconds) says, and writes the times that go with the move |
| `JobRow.JobsTable.ExpireDispatchedJob` | internal/orchestrator/orchestrator.go:795-809 | reverts exactly a job dispatched more than the timeout ago, and says whether it did |
| `JobRow.JobsTable.ExpireConfirmationOf` | internal/orchestrator/orchestrator.go:728-743 | declines exactly a job whose confirmation deadline has passed |
| `JobRow.JobsTable.MarkReportedRunning` | internal/protocoladapter/adapter.go:397-460 | a report flips only the reporter's dispatched job, with the start clamped between dispatch and now |
| `JobRow.JobsTable.CompleteJob` | internal/store/dispatch.go:95-156 | refuses an unknown job; derives the outcome from the exit code, writes only a running row, and asks for metering exactly for a completed non-print job |
| `JobRow.JobsTable.DeclineFromPortal` | internal/portal/server.go:1229-1317 | status and decline row change together or not at all; an existing row makes it fail |
| `JobRow.JobsTable.DispatchListed` | internal/store/dispatch.go:36-82 | claims each listed, unblocked, still scheduled job and no other row, without looking at the node again |
| `Orchestrator.Worker.BestNode` | internal/orchestrator/orchestrator.go:402-546 | the highest-scoring node that passes every filter and is not excluded; none exactly when there is no such node |
| `Orchestrator.Worker.RerouteDeclinedJob` | internal/orchestrator/orchestrator.go:402-546 | a declined job goes to a matching node outside its decline rows, fails exactly when there is none, and any other status is left alone |
| `Orchestrator.Worker.RescheduleStaleJob` | internal/orchestrator/orchestrator.go:558-648 | a scheduled non-print job leaves its node for a matching one outside its decline rows; with none it stays scheduled |
| `JobProtocol.TerminalForever` | internal/store/dispatch.go:95-156 | under every interleaving a completed, failed or delivered row never changes in any column |
| `JobProtocol.NodeFixedFromStart` | internal/orchestrator/orchestrator.go:402-877 | under every interleaving the node and the start of a job are fixed from running onward |
| `JobProtocol.LifecycleStep` | internal/orchestrator/orchestrator.go:402-877 | every step of every actor moves the status as that table says, and otherwise leaves the row alone but for the loop's rebinding of a scheduled job |
| `JobProtocol.SubmittedAs` | internal/orchestrator/orchestrator.go:164-337 | a job starts awaiting confirmation, with a deadline, exactly if it is a print job and confirmation is on, and scheduled otherwise |
| `JobProtocol.DispatchTimesOutExactlyWhen` | internal/orchestrator/orchestrator.go:795-809 | in every run the timeout pass returns a job to scheduled if and only if it is dispatched and its last claim is more than 120 seconds old |
| `JobProtocol.ConfirmationExpiresExactlyWhen` | internal/orchestrator/orchestrator.go:728-743 | in every run the pass declines a job if and only if it awaits confirmation and the deadline last set for it has passed |
| `JobProtocol.NoShowExactlyWhen` | internal/portal/server.go:2205-2262 | in every run a no-show fails the job if and only if it awaits pick-up and was completed more than 604800 seconds before |
| `JobProtocol.PickedUpExpiresExactlyWhen` | internal/orchestrator/orchestrator.go:861-877 | in every run the pass delivers a job if and only if it was picked up more than 604800 seconds before |
| `JobProtocol.ContestedExactlyWhen` | internal/portal/server.go:2278-2364 | a dispute is opened if and only if the job is a no-show recorded less than 604800 seconds before, and stays open |
| `JobProtocol.MeteredOnce` | internal/store/metering.go:101-110 | under every interleaving a metering row never changes and exists only for a completed non-print job with exit code 0, with its times |
| `JobProtocol.TimesInOrder` | internal/protocoladapter/adapter.go:440-448 | under every interleaving and whatever a node reports: a dispatched row's update time is its dispatch, the start lies between dispatch and now, and the end follows the start for delivered jobs, no-shows and jobs completed or failed by a call begun while running |
| `JobProtocol.MeteredDurationBounded` | internal/store/metering.go:54-61 | a metered duration is at most completion minus dispatch, and not negative if and only if the completing call came after the start in the sense of the next row |
| `JobProtocol.EndsAfterStartExactlyWhen` | internal/store/dispatch.go:123-142 | of every job a completion ended, completed or failed, started by the agent's call or a report: start <= end if and only if the completing call began while the job ran, or was stamped at the flip to running, or no earlier than a reported start clamped to the dispatch |
| `JobProtocol.CompletionMayPrecedeStart` | internal/store/dispatch.go:123-142 | a run in which a completion stamped before the start commits after it: the job ends before it starts and is metered |
| `JobProtocol.ReportMayFollowCompletion` | internal/protocoladapter/adapter.go:440-448 | the same with a reported start, for every exit code: completed and metered, or failed, with the end before the start |
| `JobProtocol.ClaimedForSelfExactlyWhen` | internal/store/dispatch.go:36-82 | in every run, a poll's UPDATE that claims the job finds it bound to the polling node if and only if the loop commits since the poll's listing leave it there |
| `JobProtocol.ClaimedForAnother` | internal/store/dispatch.go:36-82 | a run in which the job is rebound between listing and UPDATE, so that the old node claims a job bound to the new one |
| `JobProtocol.HandOutIsClaimExactlyWhen` | internal/store/dispatch.go:53-81 | in every run, a poll that returns the job claimed it if and only if since its listing the row was not taken out of scheduled, or was made scheduled again after the last time it was |
| `JobProtocol.HandedOutTwice` | internal/store/dispatch.go:53-81 | a run in which two polls return the job and only the first claimed it |
| `JobProtocol.DisputesAreNoShows` | internal/portal/server.go:2278-2364 | in every run a dispute the portal opens is on a failed, unmetered no-show |
| `JobProtocol.NeverBoundToDeclinerExactlyWhen` | internal/orchestrator/orchestrator.go:402-648 | a run never binds the job to a node that declined it if and only if the worker never commits a node whose decline was half done when it read the decline rows |
| `JobProtocol.AtomicDeclinesNeverRebindBlindly` | internal/protocoladapter/adapter.go:343-392 | if no decline is half done at such a read, that never happens |
| `JobProtocol.DeclinesAreBounded` | internal/portal/server.go:1277-1313 | then the portal's decline insert never collides, every node declines at most once, and declines are bounded by the nodes the job was actually bound to |
| `JobProtocol.DeclineMayBeOvertaken` | internal/protocoladapter/adapter.go:356-391 | a run in which the worker rebinds between a decline's two statements: the job is back at the decliner and the portal's decline fails |
| `JobProtocol.ExpiryMayCycle` | internal/orchestrator/orchestrator.go:728-743 | an expired confirmation records no decline, so four steps can return the job to the same node with a new deadline |
| `Metering.RoundIsNearest` | internal/store/metering.go:93-99 | rounding gives the nearest cent and sends ties away from zero |
| `Metering.FetchRates` | internal/store/metering.go:74-88 | the loop keeps the newest rate of every resource and the share of the newest processor rate, or 0.65 |
| `Metering.CostIsProportional` | internal/store/metering.go:54-95 | the cost is an hourly cost times the hours, never negative per hour under the schema's limits |
| `Metering.ChargedAsWritten` | internal/store/metering.go:54-99 | the charge of every job, to half a cent, is the written-out sum of cores, gigabytes of memory share and storage months at the first price of each resource, for seconds out of 3600 and times the multiplier, with and without a profile; the share of the first processor row, to half a cent, is earned and the rest is the fee |
| `Metering.SettleSplits` | internal/store/metering.go:97-99 | paid = earned + fee, each within half a cent of its exact value, and earned between nothing and paid on the side the amount is on |
| `Metering.EarnedWithinPaidExactlyWhen` | internal/store/metering.go:97-99 | for every cost and share, earned <= paid if and only if the cost is above minus half a cent or the share of the negative amount is within half a cent of all of it |
| `Metering.MeteringConserves` | internal/store/metering.go:54-99 | 0 <= earned <= paid whenever the job ended no earlier than it started; with reversed times nobody earns |
| `Metering.LongerNeverCheaper` | internal/store/metering.go:54-99 | a longer run of the same job never costs or earns less |
| `Metering.MeteringTable.ComputeMetering` | internal/store/metering.go:54-110 | writes the specified amounts once; a missing time or an existing row leaves the table alone |
| `Payouts.PaidOncePerAccount` | internal/store/payout_runner.go:15-57 | across any ticks, lost replies, failed marks and row changes, a job has at most one payout per account, of exactly what it earned, more than 24 hours after completion |
| `Payouts.PaidAtMostOnce` | internal/store/payout_runner.go:15-57 | in every run a job whose account is not replaced once set has at most one payout |
| `Payouts.PaidOnceExactlyWhen` | internal/payment/payout.go:17-45 | in every run a job has at most one payout if and only if the calls for it that reach the service are all on one account |
| `Payouts.PaidTwiceOnlyIf` | internal/payment/payout.go:17-45 | in every run a second payout of a job means that its account was replaced after it was listed for a payout that was then not marked, and that it was listed again |
| `Payouts.ReplacedAccountIsPaidAgain` | internal/payment/payout.go:17-45 | a run that pays a job twice: payout, failed mark, new account, payout |
| `Payouts.ReleasedOnlyIfPaid` | internal/store/payout_runner.go:15-57 | a row is marked released only if its payout exists |
| `Payouts.LedgerMatchesRows` | internal/store/payout_runner.go:15-57 | the money that left is the sum of what the jobs earned, each as often as it was paid |
| `Payouts.NeverPaysMoreThanCharged` | internal/store/payout_runner.go:15-57 | in every run no more leaves than the consumers were charged for the paid jobs, each as often as it was paid, whatever the jobs' times |
| `Payouts.TotalsInOrder` | internal/store/metering.go:93-110 | in every run without replaced accounts, released <= earned <= charged in total, whatever the jobs' times (amounts below zero count as nothing) |
| `Payouts.PaidUnderDisputeExactlyWhen` | internal/store/payouts.go:15-45 | in every run a job that is paid was listed while undisputed, and is paid under an open dispute if and only if it was amended after that listing and the last amendment opened the dispute |
| `Payouts.DisputeAfterListingIsTooLate` | internal/store/payouts.go:15-45 | such a run: listed, then disputed, then paid |
| `Payouts.ListedExactlyWhen` | internal/store/payouts.go:15-45 | a job is listed if and only if it is completed for more than 86400 seconds, paid for, undisputed, earned on, unreleased and has an account; it is listed with its own account and amount |
| `Payouts.CallCreatesExactlyWhen` | internal/payment/payout.go:17-45 | a call adds one payout of the amount to the account under the job's key if and only if amount and id are sound, the service is reached, and the account has none under that key |
| `Payouts.MarksExactlyWhen` | internal/store/payout_runner.go:24-55 | a payment marks its own row and no other, if and only if the call was sound and answered and the mark was written |
| `Payouts.Releaser.EligiblePayouts` | internal/store/payouts.go:15-45 | lists exactly the eligible jobs, each once, with account and earned amount |
| `Payouts.Releaser.TriggerPayout` | internal/payment/payout.go:17-45 | refuses a non-positive amount or empty key; a key repeated on the same account creates nothing new |
| `Payouts.Releaser.Tick` | internal/store/payout_runner.go:24-55 | one candidate's failure skips no other: every listed job whose call answers is paid, and marked when the mark succeeds |
| `Placement.FiltersWrittenOut` | internal/orchestrator/registry.go:210-278 | a node passes if and only if it is online, not excluded, not the consumer's own, in the country, with the graphics card, cores, memory and storage asked for, and serves the workload's category by its opt-outs |
| `Placement.ClassesAreOrdered` | internal/scheduler/scheduler.go:21-34 | each class is worth one point more than the next worse one, and no class is worth none |
| `Placement.SilenceCosts` | internal/scheduler/scheduler.go:39-47 | an older heartbeat never raises a score: it costs one point over 1800 seconds, evenly, and no more after that |
| `Placement.PlacementCosts` | internal/scheduler/scheduler.go:147-158 | each placement in flight lowers the score by half a point |
| `Placement.LoadCosts` | internal/scheduler/scheduler.go:98-114 | a percent of reported use lowers the score by two hundredths of a point, between 0 and 100 percent, if and only if the report is at most 180 seconds old and the owner away |
| `Placement.BusyAsSilent` | internal/scheduler/scheduler.go:87-114 | a node that reports full use scores as one without a report |
| `Placement.LocalityPoints` | internal/scheduler/scheduler.go:77-86 | beside certified and load terms a score has six points for the requester's region, else three for the country, else none |
| `Placement.CoresCount` | internal/scheduler/scheduler.go:140-158 | cores change the score in proportion to the largest of the pool |
| `Placement.NodeRegistry.FindMatch` | internal/orchestrator/registry.go:210-278 | returns exactly the nodes that pass every filter, each once, and an error exactly when none does |
| `Placement.NodeRegistry.AddInFlight` | internal/orchestrator/registry.go:167-179 | changes one node's counter by the amount, never below zero; a missing node changes nothing |
| `Placement.NodeRegistry.EvictStale` | internal/orchestrator/registry.go:331-340 | removes exactly the nodes whose heartbeat is older than the limit |
| `Placement.PrefixIsTop` | internal/scheduler/scheduler.go:160-168 | the front of any descending reordering of the scored pool, however ties fall, is a top of the pool |
| `Placement.Schedule` | internal/scheduler/scheduler.go:135-169 | refuses exactly too small a pool; otherwise returns the tier's number of nodes, in descending score, none left out scoring higher |
| `Placement.NodeRegistry.Place` | internal/scheduler/scheduler.go:135-169 | filter and rank together: the tier's number of different nodes, all passing every filter, no passing node left out that scores higher |
| `Placement.RegionWins` | internal/scheduler/scheduler.go:51-86 | a same-region node of any class outscores every other node, whatever the locality and class of that one, whose load terms lead by less than the winner's class score less ten times the other's locality |
| `Placement.RegionWinsExactlyWhen` | internal/scheduler/scheduler.go:51-86 | a same-region node beats a node of any class, whatever their heartbeats and cores, if and only if the lead is below that bound |
| `Placement.RegionMayLose` | internal/scheduler/scheduler.go:51-86 | for every class of the same-region node, for nodes in and outside the requester's country, and for every lead from the bound on, there are nodes for which the region does not win |
| `Placement.CountryMayBeatRegion` | internal/scheduler/scheduler.go:51-86 | a fresh class A node elsewhere in the country scores 9 and a stale class D node of the region 7, with equal load terms |
| `Placement.IdlenessIsBounded` | internal/scheduler/scheduler.go:58-61 | idleness never makes up a certified lead of more than two points |
| `Placement.IdlenessOverturnsLess` | internal/scheduler/scheduler.go:58-61 | an idle node outscores a busy one exactly when its certified deficit is below two points |
| `Placement.CertifiedLeadHoldsExactlyWhen` | internal/scheduler/scheduler.go:58-61 | a certified lead holds against every load report of the two nodes if and only if it is more than two points |
| `Capacity.ContributesExactlyWhen` | internal/sounding/capacity.go:50-80 | a node counts for a group if and only if it is of its operator, or of unknown without one, of its class, and not opted out of its category; for print with an enabled printer |
| `Capacity.TotalsAreColumnSums` | internal/sounding/capacity.go:50-80 | each column of a snapshot is its sum over the contributing nodes, with one unit of throughput for each printing node |
| `Capacity.TotalIgnoresOrder` | internal/sounding/capacity.go:50-80 | a group's sums do not depend on the order of the nodes |
| `Capacity.CountedAsMatched` | internal/sounding/capacity.go:37-43 | a node counts for a category exactly when a bare request of that category would match it |
| `Capacity.AscendingIsUnique` | internal/sounding/capacity.go:86-94 | two ascending lists of the same snapshots are equal |
| `Capacity.AggregateIgnoresOrder` | internal/sounding/capacity.go:44-96 | two inputs with the same nodes in any order give the same output |
| `Capacity.AddInput` | internal/sounding/capacity.go:50-80 | one node is added to exactly the groups it serves |
| `Capacity.AggregateCapacity` | internal/sounding/capacity.go:44-96 | one row per supplied group, strictly ascending by operator, class and workload, each the sum over the contributing nodes |
| `RateLimit.RunKeepsBuckets` | internal/api/ip_ratelimit.go:102-119 | in every run all token counts stay between zero and burst |
| `RateLimit.FailuresAreBounded` | internal/api/ip_ratelimit.go:72-146 | in every run, over any span and whatever other addresses do, an address with at most k requests in the handler has at most burst + (k - 1) + k * refill * span failures; for one request at a time, the advertised budget |
| `RateLimit.OverlappingRequestsOverspend` | internal/api/ip_ratelimit.go:126-146 | the bound is attained: two overlapping requests of one address both fail on a single token |
| `RateLimit.RecoversExactlyWhen` | internal/api/ip_ratelimit.go:72-86 | a refused address that waits the advertised time without another failure is let through if and only if burst is at least one |
| `RateLimit.SmallBurstLocksOut` | internal/api/ip_ratelimit.go:48-65 | a positive burst below one lets no request through, ever |
| `RateLimit.FirstRequestExactlyWhen` | internal/api/ip_ratelimit.go:48-65 | in every run an address not seen before has a full bucket and is let through if and only if the burst holds a token |
| `RateLimit.RetryAfterIsLeast` | internal/api/ip_ratelimit.go:72-86 | the advertised wait is the least whole number of seconds that exceeds the time a whole token takes |
| `RateLimit.AuthFailureLimiter.Allow` | internal/api/ip_ratelimit.go:72-86 | refills, admits exactly with a whole token, and otherwise advertises the wait |
| `RateLimit.AuthFailureLimiter.Penalize` | internal/api/ip_ratelimit.go:90-98 | refills and takes one token, not below zero |
| `RateLimit.AuthFailureLimiter.Wrap` | internal/api/ip_ratelimit.go:126-146 | answers 429 exactly without a whole token, charges only a 401, and leaves every other address's bucket alone |
| `Sink.RunKeepsInv` | internal/sounding/sink.go:166-269 | at every point of every run the accepted events are, in order, those handed over, then the batch, then the queue; the batch stays below its limit |
| `Sink.OfferedIsAccountedFor` | internal/sounding/sink.go:166-228 | offered = dropped + queued + in batch + handed over, at every point of every run |
| `Sink.DroppedExactlyWhenFull` | internal/sounding/sink.go:166-175 | in every run an offered event is dropped if and only if the channel holds its capacity, and otherwise queued last; nothing else changes |
| `Sink.HandedOverExactlyWhen` | internal/sounding/sink.go:195-228 | in every run a batch is handed over if and only if it is full, or a tick or the end of the drain finds it not empty, and is then all that was gathered |
| `Sink.OfCounts` | internal/sounding/sink.go:234-249 | what a writer is given of a batch is every event of its kind, each as often as it occurs, and no other |
| `Sink.KindOrderKept` | internal/sounding/sink.go:234-269 | each writer has seen its kind's accepted events in order, up to those still buffered |
| `Sink.FinishHandsOverEverything` | internal/sounding/sink.go:203-218 | when the drain ends everything accepted has been handed over |
| `Sink.NothingHandedAfterStop` | internal/sounding/sink.go:203-218 | events accepted after that stay in the queue and are never handed over |
| `Sink.TelemetrySink.Group` | internal/sounding/sink.go:234-249 | splits a batch by kind, keeping order |
| `Sink.TelemetrySink.Offered` | internal/sounding/sink.go:166-175 | accepts while there is room, else counts a drop, and never waits |
| `Sink.TelemetrySink.ReceiveOne` | internal/sounding/sink.go:219-223 | takes the oldest event and hands over a full batch |
| `Sink.TelemetrySink.DrainAndStop` | internal/sounding/sink.go:205-218 | ends with every accepted event given to its kind's writer, in order |
| `Fees.RunKeepsInv` | internal/operator/governance.go:57-120 | after every sequence of publishes each coordinator's history increases strictly in number and effective time |
| `Fees.PublishedExactlyWhen` | internal/operator/governance.go:57-120 | the verdict on a declaration from all rows of its coordinator, in order: unsigned, number not above all, time not after all, not storable below 2^63 or with a negative share, else published |
| `Fees.PublishIsNotRetroactive` | internal/operator/governance.go:57-120 | an accepted declaration changes what is in force at no instant before its effective time, and is in force from then on |
| `Fees.InForceIsSettled` | internal/operator/governance.go:57-120 | whatever is published later, what is in force up to a declaration's effective time never changes |
| `Fees.PastUntouchedExactlyWhen` | internal/operator/governance.go:43-56 | publishing leaves everything in force up to the moment of publishing alone if and only if the effective time is later than that moment |
| `Fees.BackdatedPublish` | internal/operator/governance.go:43-56 | two declarations for which publishing changes terms already in force |
| `Fees.InForceIsPlaced` | internal/operator/governance.go:43-56 | in an increasing history the declaration in force is the one at or after whose effective time, and before whose successor's, the instant falls |
| `Fees.CurrentIsInForceExactlyWhen` | internal/operator/readmodel.go:503-556 | in every run the row shown as current is in force if and only if its effective time has come; otherwise the newest older row whose time has come is, or none |
| `Fees.CurrentNotYetInForce` | internal/operator/readmodel.go:503-556 | two accepted declarations of which the second is shown as current while the first is in force |
| `Fees.NextNumberIsLeast` | internal/operator/readmodel.go:563-575 | the suggested number is the least above all of the coordinator's rows, zero without any |
| `Fees.NextNumberPasses` | internal/operator/readmodel.go:563-575 | the suggested number always passes the order check, and the declaration is storable if and only if the last number is below 2^63 - 1 |
| `Fees.NumbersRunOut` | internal/operator/readmodel.go:563-575 | after the number 2^63 - 1 the suggested number is refused by the table |
| `Fees.FeeTable.PublishFeeDeclaration` | internal/operator/governance.go:57-120 | accepts exactly a signed, higher, later, storable declaration, and refuses in the stated order without a change |
| `Fees.FeeTable.CurrentFeeDeclaration` | internal/operator/governance.go:126-156 | the row with the highest number, which is the one published last |
| `Fees.FeeTable.FeeHistory` | internal/operator/readmodel.go:520-556 | the history newest first, descending in number, with exactly the first row current |
| `Fees.FeeTable.NextSeq` | internal/operator/readmodel.go:563-575 | one above every published number, or zero |

## Left out

- HTTP handlers, templates and JSON beyond the state step each performs; agent profiles, job tokens, printers' hashes, messaging.
- Ed25519, HMAC, base64 and the protocol's canonical bytes; the verification predicate keeps distinct indices in range, both keys present and one algorithm.
- The SQL engine: isolation anomalies inside one statement or transaction, including two fee publishes or two authentications of one operator that overlap; each is one step.
- Floating point: amounts, scores and tokens are reals, so rounding error of float64 is not modelled.
- Metering.Settle: cents are unbounded, so an amount beyond 64 bits does not wrap.
- JobRow.Apply: confirm, pick-up, delivery, no-show, start, node decline and picked-up expiry are update values of the row and steps of the protocol, not methods on the table, because each is one guarded assignment.
- JobProtocol.Next: one job and one loop worker; a second worker, and the choice of target by score, are not part of the interleaving (the choice is in Orchestrator and Placement).
- Disputes are a flag on the job; how they are resolved is not modelled.
- Payouts.Create: the payment service is assumed to answer a key repeated on one account with the first payout for good.
- Placement.NodeRegistry.AddInFlight: the counter is advisory in the source and may be decremented twice, so no exact count is claimed.
- The sink's writers' failures after the hand-over, timeouts, the nil sink and the capacity sampler's ticker.
- SubmitJob's reservation, spec hash and token columns; the orchestrator's tick order, since the protocol allows its passes in any order.
- Opt-out columns of the portal and how they reach the registry's flags.
