# HEC custody: a verified model

A HEC is a certificate for one hour of validated solar generation. This project models the life of HECs
and the machinery around it, and proves what the code relies on but nowhere checks.

**The custody ledger** is a state machine over nine tables and a chain that no database rollback reaches.
A reading is validated and certified, a certificate is anchored on chain by one of several writers, put into
a lot, bought, and burned out of a buyer's position. Each step updates counters in several places; that they
agree is one inductive invariant (`CustodyInvariant.Inv`), kept by every step, committed or aborted
(`CustodySteps`, `TradeSteps`, `BurnSteps`, `BurnAllocation`). `CustodyRuns` draws the results for every
reachable state, `BurnComposition`, `BurnSequences`, `RetirementRecords` and `Purchases` what several burns and
purchases amount to, `BurnCertificates` whose certificates burns write, and `Endpoints` takes the endpoints apart
into steps of a run. `CustodyEffects` says of each operation when it succeeds, what exactly it writes and what its
refusals mean, in any state.
The services exist twice: as functions on tables (`CustodyModel`), about which the lemmas
are proved, and as a session whose tables are changed in place by loops (`CustodySession`), each method
proved to do exactly what its function says. `MockChain` does the same for the in-memory provider.

The ledger results assume **one provider shared by every process**, as a real chain would be. The in-memory
provider is an object of one process (app/blockchain.py:416) and app/launcher.py:50-53 starts the mint worker
as another. `WorkerRegistry` says what becomes of certificates in lots when that worker asks a registry of its own,
and `TwoRegistries` what of the ledger results then remains: all that do not ask the registry, as long as passes are
over present rows (`TwoRegistries.LedgerHoldsOnTwoRegistries`).

**The contracts** `HEC1155Registry` and `HECRetirementReceipt` are modelled call by call (`TokenContract`),
as objects (`TokenObjects`), over all interleavings (`TokenSupply`), in what each call changes for the calls after it
(`TokenEffects`), and against the provider that stands in for them (`ChainSimulation`).

**Around the ledger** are the anti-replay nonces as interleaved steps (`Nonces`, `NonceReuse`, `NonceCleanup`) and in front of
the telemetry pipeline (`Telemetry`), the confidence score (`Confidence`), the neighbours' consensus
(`Consensus`), and the consumer's rewards, streak, tiers and monthly footprint (`ConsumerRewards`, `BurnStreak`, `DnftTiers`, `Footprint`,
and `RewardEffects` for what each request leaves in the rows).

Units: energy is counted in ten-thousandths of a kWh, money in centavos, prices per kWh in ten-thousandths
of a BRL, times in seconds for periods and microseconds for clocks. Rows are listed in creation order, so
"oldest first" is "smallest index first". Hashes are numbers, 0 standing for the zero digest.

## Where the code does not do what one would like

* **Aborted burns.** Burning retires units on chain inside the loop. If the transaction then rolls back, the
  chain keeps the retirement, and the same burn is refused from then on (`AbortedBurn.AbortBlocksTheBurn`).
  `CustodyRuns.BurnGoesThroughExactly` gives the exact condition, and shows that it always holds while no
  burn has been aborted. `RetirementRecords.ExcessIsUnnamed` says by how much the chain is ahead.
* **A worker with its own registry.** A worker that took its snapshot while a certificate was pending, and whose
  registry lacks the digest, moves the certificate out of its lot's custody, back to registered
  (`WorkerRegistry.StaleWorkerMovesBack`). `WorkerRegistry.PassKeepsLottedExactly` gives the exact condition on
  snapshot and registry; over present rows no pass can do it (`WorkerRegistry.FreshPassesNeverBackwards`).
* **Nonces.** A request delayed between taking its time stamp and inserting its row can be accepted together
  with a second one (`Nonces.DelayedInsertDefeatsTheWindow`). What always holds is that a later insertion is more
  than 60 s past an earlier stamp. Between insertions the 60 s hold exactly for requests inserted at their stamp
  (`NonceReuse.EarlyReuseExactly`); between acceptances exactly for requests also committed at it
  (`NonceReuse.EarlyAcceptanceExactly`), so that two requests that stamp and insert at once can be accepted a second
  apart (`NonceReuse.PromptAcceptancesCanBeClose`). In general two acceptances are apart by 60 s less what the
  earlier one took from stamp to commit (`Nonces.NonceReuseIsLate`).
* **Checked and refused.** The check looks at one plant and at recent rows, the primary key at neither, so a checked
  request can still be refused (`Nonces.CheckedRequestIsRefused` has one), exactly when some plant's row holds the
  nonce (`Nonces.CheckedInsertSucceedsExactly`).
* **Clean-ups.** For the same reason a clean-up can change what a later check answers: it frees a key, a request
  that would have been refused is accepted, and the check sees its row (`NonceCleanup.CleanupChangesALaterAnswer`).
  Every later answer about a nonce is as if there had been no clean-up exactly when its row is not swept
  (`NonceCleanup.CleanupHarmlessExactly`); for given steps see the lemmas beside it.
* **The provider and the contract.** The contract also wants non-empty version strings, 64-bit periods and a
  256-bit total (`ChainSimulation.ProviderAcceptsTooMuch` has a call for each).
  `ChainSimulation.ProviderStandsInForContract` says that the two answer alike exactly until the provider
  accepts a call that fails one of these.
* **Consensus.** The deviation is rounded to two places before it is compared with 30 %, so 30.005 % still
  passes (`Consensus.DecisionExact`, with numbers in `Consensus.RoundingLetsMoreThrough`); app/consensus.py:14
  states the threshold without the rounding.
* **Confidence.** app/confidence.py:22 lists a clock failure among the light failures that lead to review;
  the weights make it eighty points and a rejection, as the examples below it say (`Confidence.ClockFailureIsRejected`).
* **Burn certificate.** app/burn_service.py:422-436 passes names that lines 58-72 do not accept, and line 505
  leaves out a field that line 41 requires, so a burn as written raises an error after the loop. The model takes
  the intended effect: the certificate step either succeeds or aborts the transaction.
* **Vocabulary.** tests/test_marketplace.py:351 expects a sold-out lot to be "sold"; app/marketplace.py:97 makes
  it "closed", and so does the model.

## Model

| member | source | states |
|---|---|---|
| `CustodyRuns.ReachableInvariant` | app/burn_service.py:286-505 | over every interleaving of registration, telemetry, issue, manual registration, mint worker, lots, purchases and burns, with commits and aborts, all tables agree with each other and with the chain |
| `CustodyRuns.EnergyConservation` | app/burn_service.py:358-379 | the energy of all certificates in lots equals that of those still custodied, plus what positions still hold, plus what burn certificates state, exactly, in every reachable state |
| `CustodyRuns.ProRataDrift` | app/burn_service.py:358-380 | after m partial burns a position is within m/2 units of its pro-rata energy; when exhausted, its draws add up to its whole energy, for every split |
| `CustodyRuns.Partition` | app/burn_service.py:350-414 | a certificate in a lot is custodied and listed nowhere, or allocated and listed once in one position, or retired and listed once in one event; others are listed nowhere |
| `CustodyRuns.NoDoubleRetirement` | app/burn_service.py:382-414 | the ids of any two retirement events together have no repetition |
| `CustodyRuns.PurchaseIdsAccountedFor` | app/burn_service.py:350-378 | a purchase's ids are, in order, those burned from its position and then those still in it |
| `CustodyRuns.CertificationGate` | app/api/telemetry.py:136-151 | every certificate that exists rests on one reading of its own that no layer objected to, with its energy, within both maxima |
| `CustodyRuns.LottedIsAnchored` | app/lot_service.py:40-56 | the digest of every certificate in a lot is on chain under the certificate's content id |
| `CustodyRuns.StatusNeverBackwards` | app/workers/blockchain_mint_worker.py:10-35 | with one registry for all, no certificate's status moves back along pending, registered, custodied, allocated, retired, whichever writers interleave, and lot, energy and validation stay |
| `CustodyRuns.CountersReconcile` | app/marketplace.py:91-131 | wallet balances are the sums over positions, quantity is available plus retired, the id list is as long as what is available, a lot is open exactly while certificates are custodied in it |
| `CustodyRuns.BurnCertificatesAddUp` | app/burn_service.py:452-477 | each burn certificate's ids, quantity and energy are those of its own retirement events |
| `BurnCertificates.CertificatesAreOwned` | app/burn_service.py:449-503 | in every reachable state each retirement event belongs to the user of its burn certificate, each certificate's digest is registered, and no two certificates share one |
| `BurnCertificates.BurnKeepsOwned` | app/burn_service.py:449-503 | a burn of anybody, in any state with full positions, keeps that, whether it goes through or not |
| `CustodyRuns.PurchasesArePaid` | app/auth.py:137 | balance plus all the wallet's purchase prices is the initial balance, never negative, and each price is within half a centavo of exact |
| `CustodyEffects.RegistrationOpensWallet` | app/auth.py:118-142 | a new user is active and starts with 10 000 BRL and nothing else; a known one and all others are left alone |
| `CustodyRuns.ChainAndLedgerAgree` | app/blockchain.py:274-314 | a lot's batch holds 1000 units a certificate; retired units equal the chain's records and are at least what positions retired, exactly that while no burn was aborted |
| `RetirementRecords.ExcessIsUnnamed` | app/burn_service.py:366-373 | in every reachable state a batch's retired units are a thousand for each certificate its lot's positions retired, plus exactly the records that no retirement event names; there are none while no burn was aborted |
| `CustodyRuns.EventsHaveRecords` | app/burn_service.py:480-503 | every retirement event has an on-chain record of its own, for its batch and amount |
| `CustodyRuns.PurchaseSucceedsExactly` | app/marketplace.py:38-89 | in a reachable state a purchase goes through exactly when buyer, quantity, price and money allow; the other guards never fire |
| `CustodyRuns.BurnGoesThroughExactly` | app/burn_service.py:296-349 | in a reachable state a burn is committed exactly when the balance covers it, the chain has the units and the certificate registers; the units are there while no burn was aborted; the other guards never fire |
| `Endpoints.EndpointRunsAreRuns` | app/api/telemetry.py:305-318 | every state that calls of the endpoints and batches of the worker lead to, in any order, is reached by a run of the steps above, and so satisfies the invariant |
| `Endpoints.IssueIsAStep` | app/api/hec.py:67-116 | a request to issue is one step of a run, but for a validation that is certified already: then nothing happens, also on chain |
| `Endpoints.TelemetryIsSteps` | app/api/telemetry.py:245-318 | telemetry is a stored reading and, when it is approved, an issue for that reading that is committed |
| `Endpoints.BatchIsSteps` | app/workers/blockchain_mint_worker.py:22-46 | a pass of the worker is one committed step for each row of its snapshot, in order |
| `AbortedBurn.AbortBlocksTheBurn` | app/burn_service.py:366-373 | a concrete run in which a rolled-back burn makes the same burn impossible although the balance shows the certificate |
| `BurnAllocation.BurnKeepsInvariant` | app/burn_service.py:338-503 | a burn keeps the invariant whether it is committed or aborted; only an abort can leave the chain ahead |
| `BurnAllocation.StepReady` | app/burn_service.py:342-356 | inside the loop no position lacks a batch or source ids, so only the chain can refuse |
| `BurnAllocation.ConsideredOk` | app/burn_service.py:312-321 | the considered positions are the user's active ones with something left, all of them, each once, oldest first |
| `BurnAllocation.RollbackKeepsInvariant` | app/burn_service.py:366-373 | tables put back over a chain that has only retired more still satisfy the invariant |
| `BurnSteps.DrawKeepsInvariant` | app/burn_service.py:375-416 | taking certificates out of one position keeps the invariant, with the burn in progress accounted for |
| `BurnSteps.DriftOfConsume` | app/burn_service.py:358-363 | one more partial draw moves a position at most half a unit further from its share |
| `BurnOrder.LoopAllocates` | app/burn_service.py:332-416 | the loop makes exactly the greedy oldest-first allocation, and marks exactly its ids retired |
| `BurnOrder.OldestFirst` | app/burn_service.py:338-380 | when a position is touched, every older considered one is exhausted: a used-up prefix, at most one partial position, an untouched rest |
| `BurnComposition.BurnIsOldestFirst` | app/burn_service.py:312-380 | of the positions a committed burn considered, a prefix is exhausted, the next still holds something and the rest is untouched, as are all others |
| `BurnOrder.AllocateComposes` | app/burn_service.py:346-380 | allocating a and then b takes the same ids in the same order and leaves the same positions, energy apart, as allocating a + b |
| `BurnOrder.BurnAllocates` | app/burn_service.py:418-478 | a committed burn retires the allocation of its quantity and takes it from the user's wallet, which keeps its money; it writes one certificate, for that user, under the given digest, of exactly those ids, that quantity and a thousand units each; every other wallet and table stays |
| `BurnOrder.BurnsCompose` | app/burn_service.py:286-505 | burning a and then b retires the same certificates in the same order as burning a + b, and leaves the same rows and certificate balance |
| `BurnSequences.ManyBurnsAreOne` | app/burn_service.py:286-505 | m burns one after the other all go through exactly when the burn of their sum does, each takes something and their digests are new and distinct; then they retire the same certificates in the same order, leave the same rows, positions, balance and units on chain, and the energy left in a position differs by at most (m + 1) / 2 units |
| `BurnSequences.TwoBurnsAreOne` | app/burn_service.py:286-505 | two burns go through one after the other exactly when the one does, both take something and their digests are new and distinct; the outcome is the same |
| `BurnSequences.BurnAllExactly` | app/burn_service.py:286-447 | for a valid reason and a user with a wallet: the exact condition for any number of burns to go through, and what they leave of tables and chain |
| `BurnComposition.BurnRetiresNeed` | app/blockchain.py:274-314 | a committed burn retires on chain, of every lot, a thousand units for each certificate it needed of it |
| `BurnProgress.LoopSucceedsExactly` | app/blockchain.py:283-289 | the loop gets to its end exactly when the chain has the units, and insufficient units is the only refusal |
| `BurnProgress.LoopLeavesNothing` | app/burn_service.py:418-419 | a loop that ends over positions that hold enough leaves nothing unallocated |
| `BurnProgress.RefusalIsBalance` | app/burn_service.py:304-326 | the balance never promises more than the positions hold, so the inventory guard never fires |
| `BurnProgress.BurnSucceedsExactly` | app/burn_service.py:286-447 | the exact condition for a burn to be committed, in any state that satisfies the invariant |
| `CustodyEffects.BurnRefusalIsTrue` | app/burn_service.py:296-447 | what a refused burn says is so: which guards can fire at all, that only the chain's refusals come after anything was retired, and when the units do not suffice or the certificate cannot be registered |
| `BurnProgress.CleanUnitsSuffice` | app/blockchain.py:288-289 | without aborted burns the chain always has the units a burn needs |
| `Purchases.ManyPurchasesAreOne` | app/marketplace.py:32-131 | if m purchases of a lot go through, the single purchase of their sum is refused for lack of money only; otherwise it takes the same certificates in order, leaves the same rows, lot and balances, and the money differs by at most (m + 1) / 2 centavos |
| `Purchases.SplittingChangesLittle` | app/marketplace.py:80-85 | the prices of the parts of an id list differ from the price of the whole by at most (m + 1) / 2 centavos |
| `Purchases.PartsNearExact` | app/marketplace.py:80-85 | the price of m parts is within m/2 centavos of exact |
| `Purchases.SelectionComposes` | app/marketplace.py:65-74 | selecting a, allocating them and selecting b yields the first a + b certificates, in order |
| `Purchases.PurchasesCompose` | app/marketplace.py:65-131 | the case of two: the one purchase can only fail for lack of money, and otherwise differs in price by at most one centavo |
| `CustodyEffects.PurchaseIs` | app/marketplace.py:65-131 | a purchase takes the first custodied certificates of the lot, costs the lot's price for their energy to within half a centavo, and writes exactly these rows: wallet, lot, certificates, transaction and position of the buyer who asked |
| `CustodyEffects.HalfUpPrice` | app/marketplace.py:80-85 | a price is the nearest centavo, ties upwards |
| `CustodyEffects.PurchaseExactly` | app/marketplace.py:38-89 | in any state, reachable or not, a purchase goes through exactly when the lot is open, issued and priced, it and its certificates suffice, and an active buyer has the money |
| `CustodyEffects.PurchaseRefusalIsTrue` | app/marketplace.py:38-89 | what a refused purchase says is so, for every error it can report |
| `TradeSteps.BuyKeepsInvariant` | app/marketplace.py:32-131 | a purchase keeps the invariant |
| `CustodyInvariant.FirstCustodiedOk` | app/marketplace.py:65-78 | the selection lists custodied certificates of the lot, each once, as many as asked for or as there are |
| `CustodyInvariant.FirstCustodiedOldest` | app/marketplace.py:71 | a custodied certificate is never passed over in favour of a younger one |
| `CustodyInvariant.DedupOk` | app/lot_service.py:141-146 | repetitions are removed and nothing else |
| `CustodySteps.CreateLotAccepts` | app/lot_service.py:138-164 | a lot is created exactly when the list is not empty, every requested certificate is there, registered or minted, with a transaction and a content id and in no lot, and the manifest has a content id and a new digest |
| `CustodySteps.CreatedLot` | app/lot_service.py:166-221 | what the new lot offers; that its batch begins with the start of one of its certificates and ends with the end of one, containing them all, with digest, manifest, version strings and 1000 units a certificate; that exactly the requested certificates are custodied in it, and every other row stays |
| `CustodySteps.OneBatchMore` | app/lot_service.py:183-194 | a new lot has the chain's next batch; every other batch, the registry and the retirements stay |
| `CustodySteps.PeriodOrdered` | app/lot_service.py:69-83 | a lot's period is the hull of its certificates' periods |
| `CustodySteps.PeriodIsAnHour` | app/lot_service.py:69-83 | a certificate's period is the hour from its reading's start |
| `CustodyEffects.LotRefusalIsTrue` | app/lot_service.py:138-194 | what a refused lot says is so, and the chain has heard nothing of it |
| `CustodySteps.CreateLotKeepsInvariant` | app/lot_service.py:131-221 | lot creation keeps the invariant, also when it is rolled back after the batch was issued |
| `CustodySteps.IssueKeepsInvariant` | app/hec_generator.py:400-455 | issue keeps the invariant, also when only the chain got to record it |
| `CustodyEffects.IssueExactly` | app/hec_generator.py:400-455 | an issue goes through exactly for an approved validation without a certificate and an unused digest that the chain takes; then exactly one row is added, for the validation asked for, with its reading's energy, the given digest and content id, and registered exactly when anchored; a digest whose row is refused stays on chain |
| `CustodyEffects.IssueRefusalIsTrue` | app/hec_generator.py:400-455 | what a refused issue says is so |
| `CustodyEffects.IssueOnRequestExactly` | app/api/hec.py:67-116 | the endpoint succeeds exactly when the issue does, and a second request for a certified validation leaves the chain alone |
| `CustodyEffects.TelemetryExactly` | app/api/telemetry.py:245-318 | a reading is always stored with its verdict, and a certificate for that very reading is added exactly when no layer objected, its digest is new and the chain takes it |
| `CustodySteps.AnchorRowOnlyPending` | app/workers/blockchain_mint_worker.py:11-35 | on the registry shared with the API, a row that can still be anchored is pending and in no lot, although the worker also selects custodied and allocated ones |
| `CustodySteps.AnchorKeepsInvariant` | app/api/hec.py:157-195 | anchoring by the worker or by hand keeps the invariant |
| `CustodyEffects.RegisterExactly` | app/api/hec.py:157-195 | when a manual registration goes through, what it then writes to its one row and to the chain, and that a refusal is true and changes nothing |
| `CustodyEffects.AnchorExactly` | app/workers/blockchain_mint_worker.py:24-46 | the worker's update of a row goes through exactly when the row has a content id and the registry takes its digest, and writes transaction and status of that row only |
| `CustodySession.Session.IssueHec` | app/hec_generator.py:400-455 | the session's tables and the chain end up as the issue function says, or unchanged tables with the error |
| `CustodySession.Session.IssueEndpoint` | app/api/hec.py:67-116 | as above, with the look for an earlier certificate first |
| `CustodySession.Session.RegisterEndpoint` | app/api/hec.py:157-195 | manual registration does what the function says, and reports the row's transaction |
| `Telemetry.Intake.Ingest` | app/api/telemetry.py:113-318 | a reading gets in exactly when no row holds its nonce; then the nonce, the raw row, its validation and, if approved, its certificate are stored; otherwise nothing is, and a replay is told from a taken key; raw rows and validations stay in pairs |
| `CustodySession.Session.IngestTelemetry` | app/api/telemetry.py:245-318 | the verdict is that of the reading, which is stored; an approved one is certified, and a failed issue costs only that |
| `CustodySession.Session.RemoveRepetitions` | app/lot_service.py:141-146 | the loop with its set computes the list without repetitions |
| `CustodySession.Session.PeriodBounds` | app/lot_service.py:69-83 | earliest start and latest end, or the current time twice without certificates |
| `CustodySession.Session.ValidateRequest` | app/lot_service.py:148-164 | a missing row is reported before any unbacked one; success means all rows are there and backed |
| `CustodySession.Session.AddLot` | app/lot_service.py:196-221 | the lot row, and each certificate custodied in it |
| `CustodySession.Session.CreateLot` | app/lot_service.py:131-221 | all or nothing: the new tables, or unchanged tables with the error |
| `CustodySession.Session.SelectCustodied` | app/marketplace.py:65-74 | the first custodied certificates of the lot |
| `CustodySession.Session.BuyFromLot` | app/marketplace.py:32-131 | the purchase function's tables, or its error and no change |
| `CustodySession.Session.SettlePurchase` | app/marketplace.py:91-131 | wallet, lot, certificates, transaction and position after a purchase |
| `CustodySession.Session.SelectPositions` | app/burn_service.py:312-321 | the considered positions, oldest first |
| `CustodySession.Session.EnergyToConsume` | app/burn_service.py:358-363 | all of the energy with the last certificates, otherwise the rounded share |
| `CustodySession.Session.ConsumePosition` | app/burn_service.py:342-416 | one turn of the loop is one step of the burn function, chain included |
| `CustodySession.Session.AllocateBurn` | app/burn_service.py:332-416 | the loop leaves the session and the chain as the burn function says, or stops with its error |
| `CustodySession.Session.RecordBurn` | app/burn_service.py:449-503 | wallet, certificate and events after the loop, as the burn function has them; `BurnOrder.BurnAllocates` says what that is |
| `CustodySession.Session.ExecuteBurn` | app/burn_service.py:286-505 | the whole service against the burn function |
| `CustodySession.Session.BurnEndpoint` | app/api/burn.py:79-100 | commit or rollback: on an error the tables are as before and the chain is not; the invariant holds either way |
| `CustodySession.Session.SelectPending` | app/workers/blockchain_mint_worker.py:11-21 | the oldest unanchored rows, up to the batch size |
| `CustodySession.Session.AnchorPending` | app/workers/blockchain_mint_worker.py:24-46 | one row anchored and committed, or left alone |
| `CustodySession.Session.ProcessPending` | app/workers/blockchain_mint_worker.py:10-47 | the pass anchors each selected row in turn and counts those that succeed |
| `MintWorker.FirstUnanchoredOk` | app/workers/blockchain_mint_worker.py:11-21 | the selection is in order, lists only rows without a transaction, with a content id and one of the four statuses, and passes such a row over only when it is full of older ones |
| `MintWorker.MintAllKeeps` | app/workers/blockchain_mint_worker.py:22-46 | a pass on the API's registry keeps the invariant and every certificate in a lot, however stale its rows |
| `MintWorker.PassCounts` | app/workers/blockchain_mint_worker.py:22-47 | the number a pass reports is that of the certificates that have got a transaction by it |
| `WorkerRegistry.StepMovesBackExactly` | app/workers/blockchain_mint_worker.py:24-35 | on any registry, a worker moves a certificate in a lot back to registered exactly when that registry lacks its digest |
| `WorkerRegistry.PassKeepsLottedExactly` | app/workers/blockchain_mint_worker.py:10-47 | on any registry, a pass over any snapshot keeps all certificates in lots exactly when the registry knows those it comes to |
| `WorkerRegistry.FreshPassKeepsLotted` | app/workers/blockchain_mint_worker.py:10-47 | a pass over the present rows keeps all certificates in lots and moves no status back, whatever the registry |
| `WorkerRegistry.FreshPassesNeverBackwards` | app/launcher.py:50-53 | over any run of API operations on one registry and such passes on another, no status moves back |
| `WorkerRegistry.StaleWorkerMovesBack` | app/blockchain.py:416 | a concrete run in which a stale pass on another registry takes a lot's certificate back, and one on the shared registry does not |
| `TwoRegistries.LedgerHoldsOnTwoRegistries` | app/launcher.py:50-53 | over any run of API operations on one registry and passes over present rows on another: energy is conserved, certificates are partitioned, counters reconcile, drift is bounded, nothing is retired twice, burn certificates add up, and batches agree with positions |
| `TwoRegistries.ActsKeepLedger` | app/launcher.py:50-53 | over the same runs, the whole invariant but for its registry clause |
| `TwoRegistries.LottedIsAnchoredSomewhere` | app/lot_service.py:40-56 | over the same runs, one of the two registries has the digest of every certificate in a lot, under its content id |
| `MockChain.RegisterThenVerify` | app/blockchain.py:153-210 | registration succeeds exactly for a new non-zero digest with a content id, under the next block's transaction; afterwards a lookup finds it, and every other answer and table is as before |
| `MockChain.IssueBatchExactly` | app/blockchain.py:214-272 | when a batch is issued, and that it then stands under the next id, with every argument in its place and nothing retired, found by its digest, all else unchanged |
| `MockChain.RetireBatchExactly` | app/blockchain.py:274-314 | when units are retired, and that the batch's count, the next record and its receipt then say so, all else unchanged |
| `MockChain.IssueKeepsChain` | app/blockchain.py:214-255 | ids stay dense, the hash index exact and totals equal to the records |
| `MockChain.RetireKeepsChain` | app/blockchain.py:274-314 | the same for a retirement, which never exceeds the batch |
| `MockChain.MockBlockchainProvider.RegisterCertificate` | app/blockchain.py:153-187 | the provider's dictionaries end up as the function says, or unchanged with the error |
| `MockChain.MockBlockchainProvider.Verify` | app/blockchain.py:189-212 | the content id under a digest, or none |
| `MockChain.MockBlockchainProvider.IssueInventoryBatch` | app/blockchain.py:214-272 | the provider's state after an issue, its id, and the invariant |
| `MockChain.MockBlockchainProvider.RetireInventoryBatch` | app/blockchain.py:274-331 | the provider's state after a retirement, its id, and the invariant |
| `TokenSupply.SupplyConservation` | contracts/HEC1155Registry.sol:137-259 | over any interleaving of calls, all balances of an id add up to issued minus retired, which is the circulating supply; retired is the sum of the records; hashes and ids are inverse |
| `TokenSupply.EveryRunKeepsToken` | contracts/HEC1155Registry.sol:127-288 | the contract invariant holds after any sequence of calls by anybody; what each call does is said by the rows of `TokenEffects` |
| `TokenSupply.FrozenBalances` | contracts/HEC1155Registry.sol:269-288 | no call moves a balance of an id that is not active, or any balance while paused |
| `TokenEffects.StatusAcceptsExactly` | contracts/HEC1155Registry.sol:237-253 | a status call is accepted exactly from a manager, not paused, for a known id, with a reason and a status |
| `TokenEffects.StatusIsSet` | contracts/HEC1155Registry.sol:237-253 | the batch then has that status and reason; every other batch and all else is unchanged |
| `TokenEffects.StatusRevertIsTrue` | contracts/HEC1155Registry.sol:237-253 | what a reverted status call says is so |
| `TokenEffects.SuspensionStops` | contracts/HEC1155Registry.sol:187-288 | after a status other than active no transfer that lists the id and no retirement from it is accepted, whoever calls, until a manager sets it active again, which finds all balances as they were |
| `TokenEffects.PauseExactly` | contracts/HEC1155Registry.sol:261-267 | a pauser stops a running contract and starts a stopped one, nobody else does either, and nothing else changes |
| `TokenEffects.PauseStops` | contracts/HEC1155Registry.sol:261-288 | while paused, no issue, retirement, transfer or status call changes anything, whoever calls |
| `TokenEffects.PauseRoundTrip` | contracts/HEC1155Registry.sol:261-267 | pausing and unpausing again leaves everything as it was |
| `TokenEffects.IssueAcceptsExactly` | contracts/HEC1155Registry.sol:137-165 | when an issue is accepted; the addition to the treasury's balance never overflows |
| `TokenEffects.IssueIs` | contracts/HEC1155Registry.sol:137-176 | an issue writes the batch under a new id, active, and credits all its units to the treasury; no other balance of any id moves |
| `TokenEffects.IssueRevertIsTrue` | contracts/HEC1155Registry.sol:137-176 | what a reverted issue says is so, and which errors it can have |
| `TokenEffects.RetireAcceptsExactly` | contracts/HEC1155Registry.sol:187-220 | a retirement is accepted exactly from a holder of the amount, of an active batch, while not paused, and while the contract may mint if receipts are attached |
| `TokenEffects.RetireIs` | contracts/HEC1155Registry.sol:187-235 | a retirement takes the amount from the caller, counts it, records it under a new id with its receipt, and changes nothing else |
| `TokenEffects.RetireRevertIsTrue` | contracts/HEC1155Registry.sol:187-220 | what a reverted retirement says is so, and which errors it can have |
| `TokenEffects.NextIssueGoesToTreasury` | contracts/HEC1155Registry.sol:127-130 | who may set which treasury, that nothing else changes, and that the next issue is credited to it |
| `TokenEffects.NextRetirementIsReceipted` | contracts/HEC1155Registry.sol:132-235 | who may attach the receipt contract, that nothing else changes, and that the next retirement gets a receipt for its batch and amount, owned by who retired |
| `TokenEffects.ApprovalTakesEffect` | contracts/HEC1155Registry.sol:269-288 | setting an approval decides for this holder and operator only |
| `TokenEffects.DeploymentIs` | contracts/HEC1155Registry.sol:108-125 | a deployed contract runs, holds nothing, and satisfies the contract invariant |
| `TokenEffects.RevokedOperatorIsRefused` | contracts/HEC1155Registry.sol:269-288 | an operator whose approval has been taken back moves nothing of the holder |
| `TokenSupply.TransferAcceptsExactly` | contracts/HEC1155Registry.sol:269-288 | when a single transfer is accepted; additions never overflow |
| `TokenSupply.BatchTransferMoves` | contracts/HEC1155Registry.sol:269-288 | a batch transfer moves exactly the listed totals, id by id, repeated ids and transfers to oneself included |
| `TokenSupply.BatchTransferAcceptsExactly` | contracts/HEC1155Registry.sol:269-288 | a batch is accepted exactly when the caller may, all ids are active, nothing is paused and the sender holds the total of every id, or, to oneself, each entry alone |
| `TokenSupply.RetirementIsReceipted` | contracts/HEC1155Registry.sol:187-235 | with receipts attached, every retirement has a new receipt for its batch and amount, owned by who retired, whose balance drops by the amount |
| `TokenSupply.ReceiptsAreSoulbound` | contracts/HECRetirementReceipt.sol:36-67 | once minted, a receipt keeps owner and contents over any sequence of calls |
| `TokenSupply.TransferReceiptRefused` | contracts/HECRetirementReceipt.sol:58-67 | every transfer of a receipt is refused, a minted one as non-transferable |
| `TokenSupply.MintReceiptGrows` | contracts/HECRetirementReceipt.sol:36-56 | who may mint, and that minting only adds a receipt |
| `TokenEffects.ReceiptHookExactly` | contracts/HECRetirementReceipt.sol:58-67 | an unowned receipt may be given and an owned one only taken out, by its owner or unasked; its owner is then the recipient, and all other owners are as before |
| `TokenObjects.HEC1155Registry.UpdateHook` | contracts/HEC1155Registry.sol:269-288 | the loops over ids do the update function, and a failing one is undone as a whole |
| `TokenObjects.HEC1155Registry.Issue` | contracts/HEC1155Registry.sol:137-185 | an issue keeps supply and balances in agreement in storage, and a revert undoes what came before it |
| `TokenObjects.HEC1155Registry.RetireUnits` | contracts/HEC1155Registry.sol:187-235 | a retirement across both contracts keeps supplies, records and receipts in agreement; a refused receipt undoes the burn |
| `TokenObjects.HEC1155Registry.SafeBatchTransferFrom` | contracts/HEC1155Registry.sol:269-288 | a transfer by holder or operator keeps supplies, and moves what the transfer function says |
| `TokenObjects.HECRetirementReceipt.Mint` | contracts/HECRetirementReceipt.sol:36-56 | minting only adds a receipt, with an owner, to those there are |
| `TokenObjects.HECRetirementReceipt.TransferFrom` | contracts/HECRetirementReceipt.sol:58-67 | nothing changes, whoever calls |
| `TokenObjects.PrefixFails` | contracts/HEC1155Registry.sol:269-288 | an update that fails on a prefix of its ids fails as a whole, for the same reason |
| `ChainSimulation.StepSimulated` | app/blockchain.py:214-314 | provider and contract answer a call alike exactly when the provider refuses it or it has version strings, 64-bit periods and a 256-bit total; then they stay related |
| `ChainSimulation.RunSimulated` | app/blockchain.py:214-314 | all answers of a run agree exactly when no accepted call fails those checks |
| `ChainSimulation.ProviderAcceptsTooMuch` | contracts/HEC1155Registry.sol:137-152 | for each missing check, a first call that the provider accepts and no contract does |
| `ChainSimulation.ProviderStandsInForContract` | contracts/HEC1155Registry.sol:137-235 | from deployment with the treasury as sole caller: same answers, ids, batches and records, and the provider's retired units are issued minus treasury balance |
| `Nonces.NonceReuseIsLate` | app/security.py:94-131 | for any interleaving of requests and clean-ups, of two accepted requests with one nonce the later inserts more than 60 s after the earlier one's stamp; between insertions, and between acceptances, more than 60 s less the time that the earlier one took to it |
| `Nonces.PromptRequestsAreApart` | app/security.py:116-120 | requests that stamp and insert at once are more than 60 s apart by stamp and by insertion |
| `Nonces.ReuseExactlyAfterWindow` | app/models/models.py:81-86 | after a clean-up a fresh request gets a used nonce exactly when the stamp is more than 60 s past |
| `Nonces.WindowIsSixtySeconds` | app/security.py:91-131 | exactly 60 s after a stamp the check still reports a replay and a clean-up keeps the row; a microsecond later neither does |
| `NonceReuse.EarlyAcceptanceExactly` | app/api/telemetry.py:305-308 | while the 60 s after an acceptance are not over, some continuation accepts the nonce again within them exactly when the request was committed later than stamped |
| `NonceReuse.EarlyReuseExactly` | app/security.py:116-120 | while the 60 s after an insertion are not over, some continuation reuses the nonce within them exactly when the row was inserted later than stamped |
| `NonceReuse.PromptAcceptancesCanBeClose` | app/api/telemetry.py:305-308 | a concrete run in which two requests, each stamped and inserted in one instant, are accepted with one nonce about a second apart |
| `NonceReuse.RunKeepsRows` | app/models/models.py:81-86 | in any run a committed row belongs to the latest request accepted with its nonce, and an open one to a request that can still be committed |
| `Nonces.DelayedInsertDefeatsTheWindow` | app/security.py:116-120 | a concrete interleaving in which two requests with one nonce and plant are accepted in the same instant |
| `NonceCleanup.CleanupHarmlessExactly` | app/security.py:123-131 | every later check of a nonce, after whatever steps, answers as without the clean-up exactly when its row is not swept |
| `NonceCleanup.CleanupNoticedExactly` | app/security.py:94-131 | when the row is swept and the other clean-ups spare it, a check answers differently exactly when the cleaned run has accepted a matching request in between |
| `NonceCleanup.FreshAnswersAgreeExactly` | app/security.py:94-131 | for all steps, the check after them answers alike with and without the clean-up exactly when its row was there from the start or both or neither run accepted a matching request |
| `NonceCleanup.CleanupInvisible` | app/security.py:100-131 | the answers agree after all steps in which no request for a swept nonce gets to its insert, and always for a nonce that is not swept |
| `NonceCleanup.FreshAnswerIsInLog` | app/security.py:94-113 | after any steps, a check reports a replay exactly for a recent row there from the start or a recent request accepted since |
| `NonceCleanup.CleanupChangesALaterAnswer` | app/security.py:123-131 | a concrete run in which a check answers otherwise because of a clean-up before it |
| `Nonces.CheckedInsertSucceedsExactly` | app/models/models.py:84 | a request that passed the check inserts exactly when no plant's row holds the nonce |
| `Nonces.CheckedRequestIsRefused` | app/models/models.py:84 | a concrete request that passes the check and is refused at its insert, because another plant has used the nonce |
| `Nonces.RunKeepsNonces` | app/api/telemetry.py:113-118 | the protocol invariant: an accepted nonce is still in the table or its window is over |
| `Nonces.NonceStore.CheckNonceReplay` | app/security.py:94-113 | replay means a row of this plant stamped at most 60 s ago |
| `Nonces.NonceStore.RegisterNonce` | app/security.py:116-120 | succeeds exactly when the key is free; afterwards checks report a replay for exactly 60 s |
| `Nonces.NonceStore.CleanupExpiredNonces` | app/security.py:123-131 | removes exactly the rows stamped more than 60 s ago, and says how many |
| `Confidence.VerdictMeaning` | app/confidence.py:122-145 | approved means no layer failed; review means exactly one of satellite and consensus failed and nothing else |
| `Confidence.ApprovedExactlyWhenNoLayerFailed` | app/confidence.py:122-145 | the score reaches 95 exactly when drift, both maxima and consensus are all right |
| `Confidence.ClockFailureIsRejected` | app/confidence.py:122-145 | a reading that fails on the clock alone gets 80 points and is rejected; so is one a microsecond too late |
| `Confidence.ScoreIs` | app/confidence.py:122-140 | a hundred points, less 20 for signature or clock, 30 for physics and 15 for satellite or consensus |
| `Confidence.VerdictBounds` | app/confidence.py:138-145 | approved from 95 on, up for review from 85 on |
| `Consensus.MedianOfPermutation` | app/consensus.py:250-259 | the median does not depend on the order of the values |
| `Consensus.MedianIsRobust` | app/consensus.py:250-259 | if more than half of the values lie in [lo, hi], so does the median, for odd and even lengths |
| `Consensus.HalfIsNotEnough` | app/consensus.py:257-258 | for every even number of values, half of them in a range do not keep the median near it |
| `Consensus.DecisionExact` | app/consensus.py:312-352 | inconclusive below two readings; otherwise the plant passes exactly within 30.005 per cent of the median, or at zero when the median is zero |
| `Consensus.RoundingLetsMoreThrough` | app/consensus.py:349-352 | 30.005 per cent above two neighbours passes, 30.006 per cent does not |
| `Consensus.DecisionIgnoresOrder` | app/consensus.py:333-352 | the decision depends on the ratios as a multiset |
| `Consensus.MinorityCannotFlip` | app/consensus.py:333-352 | with a majority in [lo, hi], a plant that agrees with both ends passes and one that disagrees with the whole range fails |
| `Consensus.FindNeighbors` | app/consensus.py:171-189 | exactly the other active plants within five kilometres, each once for each of its rows, ordered by distance, which is shown to within half of the fourth decimal |
| `Consensus.GetNeighborReadings` | app/consensus.py:196-243 | each neighbour with capacity and a row within thirty minutes yields exactly one reading, in order, that of a newest such row; its ratio times the capacity is the row's energy to within half a millionth of the capacity; there are no other readings |
| `Consensus.PlantRatioIs` | app/consensus.py:301-308 | the plant's own ratio times its capacity is its energy, and zero without capacity |
| `Consensus.Latest` | app/consensus.py:219-226 | the newest row of a plant in the window, or none when there is none |
| `Consensus.ValidateConsensus` | app/consensus.py:266-352 | from plants and rows to the answer: none with fewer than two readings, otherwise a pass exactly when the plant's own energy per capacity is within 30.005 per cent of the median of the readings' ratios |
| `ConsumerRewards.LedgerAgrees` | app/api/consumer_pf.py:476-565 | over any sequence of syncs and simulated retirements, points equal the ledger's sum, unlocked achievements are exactly the rewarded ones, each once, the tier log replays and monthly shares lie in [0, 100] |
| `ConsumerRewards.UnlockedForGood` | app/api/consumer_pf.py:519-522 | an unlocked achievement stays unlocked and the ledger only grows, whatever the metrics do |
| `ConsumerRewards.UnlockedExactly` | app/api/consumer_pf.py:500-521 | after a pass an achievement is unlocked if it was, or if it is listed and its metric is met |
| `ConsumerRewards.ProgressIsCurrent` | app/api/consumer_pf.py:501-517 | after a pass every listed achievement's row shows its metric's current value |
| `ConsumerRewards.PassGains` | app/api/consumer_pf.py:519-546 | a pass adds one entry for each achievement newly met, in catalogue order, with their points; the guard against a second reward never fires |
| `RewardEffects.PassShows` | app/api/consumer_pf.py:460-546 | after a pass each listed achievement shows what its metric reads off the profile, and is unlocked if it was or if that has reached its target |
| `RewardEffects.PassRewards` | app/api/consumer_pf.py:524-565 | a pass appends one entry with its points for each achievement newly met, adds their points, and changes nothing else |
| `ConsumerRewards.MonthsPartition` | app/api/consumer_pf.py:250-260 | the monthly totals of dated burns add up to the total |
| `ConsumerRewards.SyncShowsHistory` | app/api/consumer_pf.py:264-302 | after a sync the row of every burn month shows what was burned in it |
| `ConsumerRewards.FootprintAddsUp` | app/api/consumer_pf.py:250-302 | such rows add up to the total of the burns when every burn is dated |
| `RewardEffects.MhecIsNearest` | app/api/consumer_pf.py:253-254 | a burn counts as the nearest whole kWh, ties to even, and never as less than zero |
| `RewardEffects.BurnSyncIs` | app/api/consumer_pf.py:235-302 | a sync replaces total and streak by those of the burn rows and touches no row of a month without a burn; without burns it does nothing |
| `Footprint.PercentMeaning` | app/api/consumer_pf.py:295-301 | the compensated share lies in [0, 100], and is 100 exactly when at least 99.995 per cent of the consumption is retired |
| `Footprint.PercentIs` | app/api/consumer_pf.py:295-301 | below full compensation the share is a hundred times retired by consumed, to within half of the second decimal |
| `ConsumerRewards.Consumer.SyncAchievementRows` | app/api/consumer_pf.py:476-565 | the loop does what the pass function says, and keeps ledger and points in agreement |
| `ConsumerRewards.Consumer.SyncDnftState` | app/api/consumer_pf.py:410-457 | the stored level, next level, target, share and total, and the log, after a sync |
| `ConsumerRewards.Consumer.BurnTotals` | app/api/consumer_pf.py:248-260 | one loop yields the total of all burns, the days with a burn and, for exactly the months with one, the total of each |
| `ConsumerRewards.Consumer.SyncProfileFromBurnHistory` | app/api/consumer_pf.py:235-302 | total and streak are overwritten and the rows of exactly the burn months refreshed; nothing happens without burns |
| `BurnStreak.StreakMeaning` | app/api/consumer_pf.py:218-232 | the streak is zero exactly without a burn today or yesterday; otherwise it counts back from the later of them to the first day without one |
| `BurnStreak.BurningToday` | app/api/consumer_pf.py:218-232 | the first burn of a day makes the streak one longer, further ones leave it |
| `BurnStreak.ComputeStreakFromBurnDays` | app/api/consumer_pf.py:218-232 | the backward loop computes the streak |
| `ConsumerRewards.Consumer.SimulateRetirement` | app/api/consumer_pf.py:893-972 | a tenth of the amount in points, its entry and the month's row, then both syncs; the reported difference is that of the points |
| `RewardEffects.SimulationIs` | app/api/consumer_pf.py:893-972 | the amount goes on the total, a day on the streak, a tenth rounded down into points with an entry of its own, the amount on the month's row and on no other; the tier shown is that of the new total |
| `DnftTiers.ScanIsExact` | app/api/consumer_pf.py:373-379 | on sorted tiers the early exit loses nothing |
| `DnftTiers.LevelIsGreatestMet` | app/api/consumer_pf.py:372-381 | the level shown is that of the greatest tier whose threshold is met |
| `DnftTiers.TierIsMonotone` | app/api/consumer_pf.py:372-379 | a larger total never shows a lower tier, nor a lower level where levels rise with thresholds, as in the seeded tiers |
| `DnftTiers.ProgressMeaning` | app/api/consumer_pf.py:384-407 | progress lies in [0, 100]; below the top tier the total and what is missing make the target |
| `DnftTiers.ProgressOnTheWay` | app/api/consumer_pf.py:384-407 | with some tiers met and some not: the way from the greatest one met to the least one that is not, the share of it to within half of the second decimal, and what is missing |
| `DnftTiers.ProgressAtTheTop` | app/api/consumer_pf.py:384-393 | with all tiers met the greatest is shown as reached, and nothing is left |
| `DnftTiers.DnftProgressFromTotal` | app/api/consumer_pf.py:359-407 | the loop with its break computes the progress function |
| `DnftTiers.SyncKeepsLog` | app/api/consumer_pf.py:436-455 | a sync logs exactly a change of level, and the log stays replayable from the same first level |
| `DnftTiers.LogReplays` | app/api/consumer_pf.py:416-457 | over any sequence of syncs the events lead from the first stored level to the current one |
| `Rounding.RoundHalfUpNearest` | app/burn_service.py:54-55 | quantisation yields the only integer within half a unit, ties upwards |
| `Rounding.DriftStep` | app/burn_service.py:361-363 | the arithmetic of one pro-rata step and its drift |

## Left out

- Retirement events carry two columns of the model's own, the position drawn from and the energy taken; the table has neither, and they only serve the statements.
- Digests are numbers chosen by the caller, not SHA-256 values; a repeated digest is refused where the code refuses it, and transaction hashes are block numbers.
- The certificate, PDF, manifest and IPFS steps are one content id, whose absence stands for their failure; JSON layout and PDF drawing are not modelled.
- Claimant wallets, references, beneficiaries, purposes, names and descriptions are not modelled; no branch of the modelled code depends on them beyond what is stated.
- Floating-point noise in sums and ratios, and the 28-digit precision of decimal division, are not modelled: amounts are exact, and every explicit rounding is written out.
- Purchases and burns are serial transactions: the code takes no locks, and interleaved purchases or burns of the same rows are not modelled. Only the nonce protocol is interleaved.
- Creation order is strict: rows created at the same instant, which the code orders by identifier or not at all, are not modelled.
- Deactivating users, suspending a lot's inventory and repricing a lot have no operation in the modelled services; the guards for them are kept.
- CustodySteps.CreateLotAccepts: validation periods are one hour long, as telemetry makes them; the fallback to the current time for rows without a period is not modelled.
- The energy of a partial burn is a share of the position's energy; that it equals the energies of the retired certificates is not stated, because it does not hold.
- The provider's `clear` and `reset`, the unfinished Polygon provider, and the worker's retry loop are not modelled.
- Granting and revoking roles, a replaced receipt contract, and ERC-721 approvals are not modelled; the receipt hook lets nobody but a burner be authorised, and nothing burns receipts.
- Receiver callbacks of ERC-1155 and ERC-721 are not modelled: every external call is atomic.
- contracts/hec/src holds a different, newer variant of the contracts, which is not modelled; nor are contracts/HECRegistry.sol and its improved version.
- Nonces.ReuseExactlyAfterWindow: insertion of a key held by an open transaction waits; deadlocks and lock time-outs are not modelled.
- ECDSA verification, the solar and satellite computations and great-circle distances are given values: a valid signature, two maxima and a distance.
- Consensus.FindNeighbors: only the fallback search is modelled, not the PostGIS query.
- That a user's tier never drops is not stated: a sync overwrites the total with the burn history, which leaves simulated retirements out.
- Leaderboards, identities, sign-in, request and response schemas, migrations and integrations are not modelled.
- CustodyRuns.StatusNeverBackwards: assumes one registry for API and worker, as all of `CustodyRuns` does; `WorkerRegistry` and `TwoRegistries` have what holds without it.
- CustodySteps.AnchorRowOnlyPending: assumes the same.
- MintWorker.MintAllKeeps: assumes the same.
- A provider that is lost when its process restarts, and services in separate processes other than the mint worker, are not modelled.
- Telemetry.Intake.Ingest: of the raw row the measured voltages, hashes and flags are left out; the check and the stamp happen at one instant here, at different ones in `Nonces`.
- CustodySession.Session.IngestTelemetry: the raw row is stored by `Telemetry.Intake.Ingest`, which calls it.
- ConsumerRewards.Consumer.SyncProfileFromBurnHistory: CO2 and tree figures, fixed multiples of the total, are left out; today is an argument.
- ConsumerRewards.Consumer.SimulateRetirement: CO2 and tree figures are left out.
- ConsumerRewards.LedgerAgrees: referrals and carbon-zero months are arguments; the latter are counted over the six latest rows already written to the database, which the account does not tell from pending ones.
- Issuers, issue and status times of token batches are not kept.
