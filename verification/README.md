# Marketing Center: a verified model

Marketing Center is a set of Odoo add-ons that keep an append-only ledger of revenue events, feed
it from accounting documents, attribute the events to marketing touchpoints, and synchronize
external catalogs and metrics. This project models the parts of it where state, arithmetic and
ordering meet, and proves what they promise. `dafny verify dfyconfig.toml` checks all of it.

## Components

**Revenue ledger** (`BusinessEventDto`, `Ledger`, `LedgerTheorems`, `EventService`). Events are
values in a growing sequence, identified by their natural key. `Admit` is the guard on reversals
and credits, `Ingest` one delivery. The class `EventLedger` does the same in place.

**Accounting adapter** (`Accounting*`). A `Book` holds native documents, the ledger, the typed
links from events to documents, and the known currencies. Posting, unposting and backfilling are
functions from books to books; the class `Adapter` performs them in place and rolls back on errors.
`Consistent` is what every history keeps: it ties documents, events and links together, and lets no
credit be counted twice. `CountedOnce` says the same of invoices, which only ordered batches keep.

**Concurrency** (`AccountingFrames`, `AccountingReplay`, `AccountingSerial`, `Concurrency`,
`UnfencedCredits`, `AdvisoryLocks`). A transaction reads the snapshot it began with. What orders the
accounting operations is the no-op update of document rows: a row may be updated only if nobody
committed a newer version of it and nobody else holds it. The proof goes through a frame argument:
what an operation reads and writes is determined by the rows it updates, so a committed transaction
could as well have run at its commit. Advisory locks play no part in it. `OverdrawnWithoutFence`
shows what the row update prevents. `AdvisoryLocks` looks at deliveries that hold nothing but the
ledger's own advisory locks, and says when budgets survive them.

**Attribution calculation** (`StableSort`, `Allocation`, `Attribution*`). Candidates are sorted,
classified, deduplicated and weighted, and a signed amount is allocated exactly.

**Synchronization** (`RevisionLedger`, `Sync*`). Runs, compare-and-swap cursors, configuration
fences, cancellation and the watchdog as one state machine; entities and metrics with their
revision logs.

**Migrations** (`Migration*`). One configuration type serves the CRM integration and the web ingress
migrations; tables are maps from id to row.

**Scheduler** (`Scheduler`). A wrapping cursor over sorted ids.

**Touchpoints** (`Touchpoints`). Revisions, evidence, the effective revision and erasure.

**Outcomes** (`LedgerOutcomes`, `AccountingOutcomes`, `ConcurrencyOutcomes`, `AdvisoryOutcomes`,
`AttributionOutcomes`, `RevisionOutcomes`, `SyncOutcomes`, `MigrationOutcomes`, `TouchpointOutcomes`).
The modules above prove what operations keep. These say what each operation does: when it is refused and
why, and every row and field it writes. They are stated on constructors, fields and constants, with
quantifiers in place of the searches, sorts and sums of the operations, so that they can be read without
the functions that the operations are specified by.

## Modelling choices

- Hashes are injective, so contents are compared directly. Keys built from several parts are kept as
  structured values, which makes the injectivity of their formatting visible.
- Amounts are integers in micros. Times are integers in seconds.
- An error that is raised inside a transaction or a savepoint leaves the state as it was.
- In the concurrent model the native posting of a batch updates the row of every document of the
  batch, as the native application does for documents it posts or schedules.
- Digests drawn at random never collide.
- The order of events in the concurrent model is the order of commits. Only the relative order of
  events about the same documents is ever read, and the row fence makes both orders agree there.

## Findings

- **A credit posted before its own invoice in one batch counts the invoice twice.** The credit first
  records the posting its invoice lacks, and the invoice then records its own. The documentation
  speaks of currently effective postings (`marketing_center_account/README.rst:66-73`) without this
  case; the model follows the code. `BatchPosting` gives the exact condition on one batch,
  `NeverDoubledIffOrdered` on a whole history, and `CreditFirstDoublesInvoice` an example. Budgets,
  links, keys and the counting of credits do not depend on it (`HistoryConsistent`).
- **The ledger's advisory locks alone do not keep its budgets.** A lock that is free says nothing about
  what was committed after the snapshot was taken. `StaleCreditsOverdraw` and `ShopInvoiceOverdrawn`
  give a schedule in which two credits are charged to one posting beyond its amount;
  `BudgetsHoldIffFitting` says exactly when budgets hold, and `FreshDeliveriesKeepBudgets` that fresh
  snapshots suffice. Accounting is not affected, as its row updates order its credits.
- **Candidates with equal sort keys make a calculation depend on their order.** Only identical
  payloads are refused, so two candidates may share touchpoint, basis and reference and differ in the
  rest. `OrderMattersOnlyOnTies` shows that this is the only way the order can matter, and
  `TieDecidesOutcome` that it can decide between a credit and a refusal.
- **The integration migration may fail after its first write.** Duplicates among dependencies are
  checked before the consumer's dependency is renamed. `PreparedIff` and `IntegrationPreparesIff` give
  the condition; `TwiceDependentFails` turns every graph that could be migrated into one that passes
  all checks and cannot be prepared. The ingress migration checks the exact dependency set and has no
  such case.
- **A cursor's sequence is not always the number of applied pages.** Restarting a used cursor moves it
  on without a page. `CursorCountsPagesIff` says that this is the only exception, and
  `RestartedCursorIsAhead` gives a sequence of actions in which it happens.

## Model

| member | source | states |
|---|---|---|
| EventService.EventLedger.IngestEvent | marketing_center_base/models/business_event_service.py:21-122 | The tables after one payload are exactly the specified ones: an unseen admissible payload is appended with its root and first observation, a known key only gains an observation, a refusal changes nothing; the ledger stays well formed and within budget |
| EventService.EventLedger.RecordObservation | marketing_center_base/models/business_event_service.py:273-303 | An observation is stored once per event, evidence reference and content |
| LedgerTheorems.LedgerSafety | marketing_center_base/models/business_event_service.py:163-232 | After every sequence of deliveries, accepted or refused, events are unique, each reversal edge is a permitted one, each event is cancelled at most once, and uncancelled credits never exceed their invoice posting |
| LedgerTheorems.IngestKeeps | marketing_center_base/models/business_event_service.py:75-121 | One ingestion keeps the ledger well formed and every invoice posting within its amount, and only ever appends |
| LedgerTheorems.BudgetKept | marketing_center_base/models/business_event_service.py:205-215 | Whatever the guard admits, an invoice posting's uncancelled credits stay within its amount, for the posting it is charged to and for all others |
| LedgerTheorems.Conservation | marketing_center_base/models/business_event_service.py:198-201 | For every selection that takes originals and their counterevents together, the flow of both equals the balance of the originals nobody cancelled |
| LedgerTheorems.ActiveIffUncancelled | marketing_center_base/models/business_event_service.py:235-255 | A posting is active exactly when no event of the whole ledger negates it |
| LedgerTheorems.ActiveCreditIsFlow | marketing_center_base/models/business_event_service.py:258-270 | The budget used on an invoice posting, a projection over active credits, equals the net flow of the credit events rooted in it |
| LedgerTheorems.CancellationReleases | marketing_center_base/models/business_event_service.py:216-270 | Cancelling a credit makes it inactive and releases exactly its share, on the invoice posting it was charged to and on no other |
| LedgerTheorems.BudgetUnderOneLock | marketing_center_base/models/business_event_service.py:139-160 | Every admitted event that changes the credit against an invoice posting, a credit or the counterevent of one, contends for the lock key of that very posting |
| LedgerTheorems.ChainShape | marketing_center_base/models/business_event.py:198-221 | Reversal chains end after at most two edges, and the stored root is always the end of the chain |
| LedgerTheorems.PeriodsMatchBalance | marketing_center_account/README.rst:66-73 | Per company and currency, the flows of any set of periods that covers all events add up to the currently active postings |
| LedgerTheorems.ObservationsAlwaysTruthful | marketing_center_base/models/business_event_service.py:68-73 | In every reachable ledger each event keeps the accepted observation of its own content, and an observation is marked a conflict exactly when its content differs from the stored one |
| LedgerTheorems.KeysAreFinal | marketing_center_base/models/business_event_service.py:60-73 | Once a key is stored, a later delivery under it adds no event, whatever was delivered in between: equal content is a duplicate, different content a conflict |
| LedgerOutcomes.ValidIffLegible | marketing_center_base/services/business_event_dto.py:85-196 | Which payloads are legible, type by type: class, currency, sign and range of the amount, and whether an event must, may or must not be named |
| LedgerOutcomes.CountereventOutcome | marketing_center_base/models/business_event_service.py:163-204 | An unseen counterevent in a known currency is accepted if and only if its company and system hold the event it names, that event is of the one type it may undo, agrees in currency, model and document, is exactly negated, and nothing has undone it; the stored row names it and its root |
| LedgerOutcomes.CreditOutcome | marketing_center_base/models/business_event_service.py:185-232 | An unseen credit that names an event is accepted if and only if that is an invoice posting of its company, system, model and currency that nothing has undone, and it fits the amount beside the credits of it that nothing has undone |
| LedgerOutcomes.OriginalOutcome | marketing_center_base/models/business_event_service.py:75-121 | An unseen payload that names no event is accepted whenever its currency is known, and stored as it is |
| LedgerOutcomes.RefusalsTell | marketing_center_base/models/business_event_service.py:163-232 | Each refusal is true of the payload, the ledger and the event named |
| LedgerOutcomes.StoredReversalsTyped | marketing_center_base/services/business_event_dto.py:73-85 | Over every sequence of deliveries, a stored order cancellation undoes an order confirmation, a payment reversal a payment allocation, and each posting counterevent a posting of its kind, all exactly negated; only credits are linked to invoice postings beside |
| LedgerOutcomes.LockOutcome | marketing_center_base/models/business_event_service.py:139-160 | A reversal locks the event it names, and the counterevent of a charged credit the posting that is charged |
| LedgerOutcomes.ObservationOutcome | marketing_center_base/models/business_event_service.py:273-303 | Whatever the disposition, the payload is on record as observed afterwards, and the record keeps all it had |
| LedgerOutcomes.StoredOutcome | marketing_center_base/models/business_event_service.py:60-73 | A payload under a stored key is a duplicate if it equals what is stored and a conflict otherwise, and changes no event |
| AccountingService.Adapter.Record | marketing_center_account/models/service.py:401-410 | Ingests one payload and links its event to the given documents in their roles; a refusal leaves the book as it was |
| AccountingService.Adapter.EmitMoveEvent | marketing_center_account/models/service.py:320-410 | Emission in place agrees with its specification, which the acceptance results below are about |
| AccountingService.Adapter.CreditReversalTarget | marketing_center_account/models/service.py:413-453 | The search for a credit's target agrees with its specification, including the postings it records on the way |
| AccountingService.Adapter.EnsureMoveEvent | marketing_center_account/models/service.py:521-549 | The active posting of a document, recorded now if there is none, as specified; on the way every event of the document is linked to it |
| AccountingService.Adapter.EmitPostingReversal | marketing_center_account/models/service.py:456-518 | The counterevent of a posting with the links of the posting in all their roles and its extensions brought up to date, as specified |
| AccountingService.Adapter.Post | marketing_center_account/models/account_move.py:138-167 | One batch posting as a transaction: it ends in the specified book, or rolls back completely |
| AccountingService.Adapter.Unpost | marketing_center_account/models/account_move.py:117-136 | One move to draft or cancelled as a transaction: postings are secured before the native change and reversed after it, or everything rolls back |
| AccountingPosting.LinkedDominates | marketing_center_account/models/service.py:433-451 | The adapter's aggregate over all postings of a native invoice is at least the per-posting aggregate the ledger checks |
| AccountingPosting.LinkedIsAccepted | marketing_center_account/models/service.py:401-453 | The adapter reports a target as linked exactly when it returns one, and the ledger accepts that very credit |
| AccountingPosting.EmitOk | marketing_center_account/models/service.py:320-410 | Emitting a posting under an unused key succeeds unless a credit reverses another company's document; it appends an active posting of the document, beside at most the one its invoice lacked, and counts nothing twice that had no such posting |
| AccountingPosting.EnsureOk | marketing_center_account/models/service.py:521-549 | Ensuring a posting fails exactly for a posted credit of another company's document without an active posting; otherwise a posted document ends up with an active posting of its type and nothing more is counted twice than before |
| AccountingPosting.ActiveIsFound | marketing_center_account/models/service.py:526-536 | The adapter's search by type finds a posting exactly when the document has an active one of that type |
| AccountingPosting.SourcesLinked | marketing_center_account/models/service.py:276-294 | In every consistent book all events of a document are linked to it already, so the links that each search adds change nothing |
| AccountingPosting.NextSequenceSound | marketing_center_account/models/account_move.py:194-213 | The key of the next transition number is unused, and advancing the number keeps the book sound |
| AccountingUnposting.PostingReversalOk | marketing_center_account/models/service.py:456-518 | The ledger always accepts the counterevent of an active posting, also of one of several; afterwards exactly that posting is no longer active, links are copied, and the book stays sound |
| AccountingOperations.BatchPosting | marketing_center_account/models/account_move.py:138-167 | A batch posts unless a newly posted credit reverses another company's document; in any order the book stays consistent, and if each document was counted once it still is if and only if no credit precedes its own invoice in the batch |
| AccountingOperations.CreditFirstDoublesInvoice | marketing_center_account/models/account_move.py:155-166 | A concrete batch: posting a credit before its invoice leaves the invoice with two active postings, the other order does not |
| AccountingOperations.Unposting | marketing_center_account/models/account_move.py:117-136 | Unposting succeeds exactly when no departing document is blocked by another company; it cancels exactly one found posting of each departed document, and leaves none if each document was counted once |
| AccountingOperations.Backfilling | marketing_center_account/models/account_move.py:238-249 | A backfill succeeds exactly when the document is not blocked, keeps the book consistent, and then a posted outgoing document has an active posting, and no other one if each was counted once |
| AccountingOperations.HistoryConsistent | marketing_center_account/models/account_move.py:117-167 | Over every history of batches in any order, unpostings, backfills, edits, creations and other producers' deliveries, credits stay within their invoice postings, no credit is counted twice or while unposted, links are true, and the next key of every document is unused |
| AccountingOperations.NeverDoubledIffOrdered | marketing_center_account/models/account_move.py:155-166 | Throughout a history no document has two active postings if and only if every accepted batch lists no credit before its own invoice; then none is counted unless posted |
| AccountingOperations.DocumentBalance | marketing_center_account/README.rst:66-73 | Where documents are counted once, all events of a document sum to its active posting, or to zero when it has none |
| AccountingOperations.TotalIsActive | marketing_center_account/README.rst:66-73 | In every consistent book the events of a document, postings and counterevents, sum to its active postings, however many there are |
| AccountingOutcomes.FoundIsLast | marketing_center_account/models/service.py:276-294 | The posting found for a document is the one of its type that no event undoes and that occurred last, the one stored last among several at that time |
| AccountingOutcomes.CreditTargetOutcome | marketing_center_account/models/service.py:413-453 | In every sound book a credit is linked if and only if its document is a posted customer invoice in its company and currency, and it fits the invoice's last open posting beside all credits linked to the invoice that no event of the ledger undoes; each other reason is given exactly in its own case |
| AccountingOutcomes.BatchOutcome | marketing_center_account/models/account_move.py:138-167 | A batch fails exactly when it posts a credit of another company's document; otherwise every listed document that is not deferred is posted, and then each that was not posted before gets one posting event in the order of the list, given field by field with its links and its observation |
| AccountingOutcomes.UnpostOutcome | marketing_center_account/models/account_move.py:117-136 | Unposting fails exactly when a posting cannot be secured; otherwise the departing documents' postings are secured, the documents change, and each posting gets its counterevent, given field by field with the destination and the copied links |
| AccountingOutcomes.BackfillOutcome | marketing_center_account/models/account_move.py:238-249 | A backfill secures the last open posting of its document, or imports it under the document's date and next sequence, and does nothing else |
| AccountingOutcomes.CountereventRefusal | marketing_center_account/models/service.py:456-482 | A counterevent is refused for anything but a posting of that very document and for a document that stays posted, and a posting that has one gets no other |
| AccountingOutcomes.UnpostingReleases | marketing_center_account/models/service.py:433-450 | The counterevent of a credit lowers the native budget of the invoice it is linked to by exactly that credit, and leaves every other invoice's alone |
| AccountingOutcomes.CreditUnposted | marketing_center_account/models/account_move.py:117-136 | So does the whole operation: after a posted credit leaves the posted state, the budget of its invoice is what it was without the posting |
| AccountingOutcomes.ReplayOutcome | marketing_center_account/models/service.py:343-366 | A credit emitted again under its key adds no event and is observed with the relation and the reason that are stored, as a duplicate exactly if the document is still the same |
| AccountingOutcomes.EditOutcome | marketing_center_account/models/account_move.py:74-136 | Edits and creations change one document and write no event |
| AccountingFrames.LinkedCreditAgrees | marketing_center_account/models/service.py:433-450 | Two sound books that agree on the rows of a document compute the same native aggregate for it |
| AccountingFrames.FoundPostingAgrees | marketing_center_account/models/service.py:525-536 | Two sound books that agree on the rows of a document find the same active posting for it |
| AccountingSerial.OperationRepeats | marketing_center_account/models/account_move.py:169-192 | An operation that succeeds on one book repeats itself, event by event and row by row, on every consistent book that agrees on the rows the operation updates, unordered batches and doubled invoices included |
| Concurrency.MergeIsReplay | marketing_center_account/models/account_move.py:173-184 | Publishing a transaction's updated rows and inserted records gives the book its operations give when they run on the committed book itself |
| Concurrency.RunRepeats | marketing_center_account/models/account_move.py:169-192 | A whole run of operations repeats itself on every consistent book that agrees on its rows |
| Concurrency.InterleavingsSerialize | marketing_center_account/models/account_move.py:169-192 | Under snapshot isolation with first updater wins, every interleaving commits exactly the serial outcome of the committed operations in commit order, without relying on advisory locks; so credits stay within their invoice postings, no credit is counted twice, links are true and keys unused, in whatever order batches list their documents |
| Concurrency.InterleavingsCountOnce | marketing_center_account/models/account_move.py:138-192 | The committed operations of a schedule never double an invoice if and only if their batches are ordered when run serially, which holds if each batch was ordered in the view it was posted in |
| ConcurrencyOutcomes.RowsOutcome | marketing_center_account/models/account_move.py:169-192 | The rows an operation updates are its documents and what those among them that may need an event reverse |
| ConcurrencyOutcomes.ExecuteOutcome | marketing_center_account/models/account_move.py:169-192 | An operation goes ahead exactly when it succeeds on what its transaction sees, nobody has committed one of its rows since the transaction began, and nobody else holds one |
| ConcurrencyOutcomes.LostUpdateRefused | marketing_center_account/models/account_move.py:169-184 | In every reachable state, once another transaction has committed a row, one that began before cannot update it |
| ConcurrencyOutcomes.AloneCommits | marketing_center_account/models/account_move.py:169-192 | In every reachable state without open transactions, a transaction whose operations succeed one after the other commits all of them with their serial result |
| UnfencedCredits.OverdrawnWithoutFence | marketing_center_account/models/account_move.py:169-184 | Two credits that each fit an invoice posting but not together: if two transactions on one snapshot could both post and commit, as without the row update, the merged ledger would exceed the posting |
| AdvisoryLocks.BudgetsHoldIffFitting | marketing_center_base/models/business_event_service.py:43-53 | For all schedules of transactions that hold only the ledger's advisory locks: every invoice posting stays within its amount throughout if and only if each delivered credit also fits what is committed when it is delivered |
| AdvisoryLocks.FreshDeliveriesKeepBudgets | marketing_center_base/services/serialization.py:25-37 | If each credit's transaction began after the last commit that charged its posting, the ledger stays well formed and within budget, whatever is interleaved |
| AdvisoryLocks.StaleCreditsOverdraw | marketing_center_base/models/business_event_service.py:205-215 | Any two credits that each fit a posting but not together overdraw it when both transactions began before either committed, although each holds the posting's lock |
| AdvisoryLocks.ActKeepsGood | marketing_center_base/models/business_event.py:125-182 | The unique indexes keep the committed ledger, and every transaction's rows behind it, well formed under every interleaving |
| AdvisoryOutcomes.DeliverOutcome | marketing_center_base/models/business_event_service.py:43-121 | A delivery inserts exactly when the ledger accepts it on its snapshot and own rows, nobody else holds the lock of its event or target, and no row, committed or not, has its key or undoes its target |
| Allocation.AllocateAmounts | marketing_center_base/models/attribution_calculation_service.py:409-420 | The in-place distribution, remainder round by round, yields the specified shares for all amounts and weights |
| Allocation.SharesAddUp | marketing_center_base/models/attribution_calculation_service.py:417-420 | The shares add up to the signed amount exactly, for all nonempty weights |
| Allocation.RemainderSmall | marketing_center_base/models/attribution_calculation_service.py:417-419 | With weights totalling a million micros the remainder has the amount's sign and the loop runs fewer times than there are weights |
| Allocation.SharesProportional | marketing_center_base/models/attribution_calculation_service.py:412-420 | Each share is within one micro of its exact proportion and never has the opposite sign |
| Allocation.NegationSymmetric | marketing_center_base/models/attribution_calculation_service.py:412-420 | Negating the amount negates every share |
| AttributionService.PrepareCandidates | marketing_center_base/models/attribution_calculation_service.py:264-344 | Sorting, classification and the marking of repeated touchpoints give the specified items or the specified refusal |
| AttributionService.SettleWeights | marketing_center_base/models/attribution_calculation_service.py:167-174 | Each candidate ends with its weight and final state |
| AttributionService.CreateContributions | marketing_center_base/models/attribution_calculation_service.py:458-494 | One contribution per credited candidate, in order, citing the record of that candidate |
| AttributionService.CalculationStore.Calculate | marketing_center_base/models/attribution_calculation_service.py:98-261 | Calculates once per reference: an identical input returns the stored run, another input under the reference is refused, a refusal stores nothing |
| AttributionService.CalculationsKeepRuns | marketing_center_base/models/attribution_calculation_service.py:140-156 | A request never changes a stored run, and a run it adds meets the table constraints |
| AttributionTheorems.CalculationMeetsTables | marketing_center_base/models/attribution_calculation.py:295-330 | Every calculation that returns meets all constraints: candidate payloads unique and numbered in order, counts nested, total weight zero or a million, credited and unattributed shapes, ordered window, and contributions that cite their own candidates, credit no touchpoint twice and sum to the attributed amount |
| AttributionTheorems.WeightsTotal | marketing_center_base/models/attribution_calculation_service.py:370-406 | The weights total exactly a million micros whenever some candidate is eligible, and only eligible candidates carry any |
| AttributionTheorems.EndTouchSelected | marketing_center_base/models/attribution_calculation_service.py:382-385 | First and last touch credit one candidate with the whole weight, and no eligible candidate is earlier, or later |
| AttributionTheorems.LinearFair | marketing_center_base/models/attribution_calculation_service.py:386-391 | Linear weights of any two eligible candidates differ by at most one micro and favour the earlier one, also with more than a million candidates |
| AttributionTheorems.OrderMattersOnlyOnTies | marketing_center_base/models/attribution_calculation_service.py:273-280 | For all worlds the hashed input, the stored rows and the refusals are the same for every order of the candidates if and only if their sort keys are pairwise distinct |
| AttributionService.TieDecidesOutcome | marketing_center_base/services/attribution_calculation_dto.py:289-294 | Two candidates with one sort key and reported weights of a million and of zero: one order is credited, the other is refused |
| AttributionOutcomes.RequestOutcome | marketing_center_base/models/attribution_calculation_service.py:98-156 | Legibility, scope and window are checked first; a stored reference returns its row if and only if model, event, time, window, producer and listed candidates are those it was calculated from, and only a new reference is calculated |
| AttributionOutcomes.ComputedRefusal | marketing_center_base/models/attribution_calculation_service.py:264-345 | A calculation fails exactly for a missing touchpoint, for one of another company, and for provider weights of the counting candidates that do not total a million |
| AttributionOutcomes.RowOutcome | marketing_center_base/models/attribution_calculation_service.py:158-261 | The stored candidates are the submitted ones by touchpoint, basis and evidence; contributions, counters, window, reason and amounts follow from them, each share being its proportion rounded towards zero with the rest on the first ones |
| AttributionOutcomes.ClassifiedIs | marketing_center_base/models/attribution_calculation_service.py:326-367 | A candidate counts if and only if the model allows its basis and that is no correlation, its touchpoint is effective, lies in the window and not after the subject, and no earlier such candidate names it; every other one is excluded for the first reason that holds |
| AttributionOutcomes.WeightOutcome | marketing_center_base/models/attribution_calculation_service.py:370-406 | The weight of a counting candidate is that of its rank in time among them, strategy by strategy, and any other weight is zero |
| AttributionOutcomes.OrderedIsList | marketing_center_base/models/attribution_calculation_service.py:273-280 | Candidates are listed by the first difference of touchpoint, basis and evidence, and those that agree stay as submitted |
| StableSort.OrderIrrelevant | marketing_center_base/services/attribution_calculation_dto.py:339-346 | Without ties, sorting gives one result for all orders of the input |
| StableSort.OrderRelevant | marketing_center_base/services/attribution_calculation_dto.py:339-346 | With a tie between different elements, some order of the input sorts differently |
| SyncService.Service.PlanRun | marketing_center_base/models/sync_service.py:134-309 | Plans a run, returns the run of a repeated occurrence, or refuses, as specified |
| SyncService.Service.ApplyPage | marketing_center_base/models/sync_service.py:332-415 | One page changes run, cursor and facts together as specified; every refusal leaves all of them as they were |
| SyncService.Service.UpsertItems | marketing_center_base/models/sync_service.py:467-472 | Items are recorded one by one, and a metric out of scope undoes those before it |
| SyncService.Service.CancelRun | marketing_center_base/models/sync_service.py:39-58 | Cancels an active run and leaves a terminal one alone |
| SyncService.Service.RecoverStuckRuns | marketing_center_base/models/sync_service.py:61-131 | The watchdog's loop releases the specified runs |
| SyncService.Service.RestartCursor | marketing_center_google/models/sync_common.py:178-210 | Clears a used cursor of a planned run and moves its sequence on |
| SyncService.Service.FinishFailure | marketing_center_google/models/sync_common.py:459-479 | Ends a failed run as partial if it stored pages and as failed otherwise, or as stale when its fence is lost |
| SyncTheorems.RunsEvolve | marketing_center_base/models/sync_service.py:22-31 | Over every interleaving a run keeps what it was planned with, and a terminal run never changes again |
| SyncTheorems.StepEvolves | marketing_center_base/models/sync_service.py:652-674 | Every state change of every action, the direct write at page end included, is an allowed edge or the start of a run followed by one |
| SyncTheorems.AlwaysUnique | marketing_center_base/models/sync.py:202-207 | At most one run per source, kind and scope is active, and each occurrence has at most one run |
| SyncTheorems.CursorCountsPagesIff | marketing_center_base/models/sync_service.py:383-412 | Over every interleaving a cursor's sequence stays the number of pages applied by all runs sharing its key if and only if no action restarted it while used, and otherwise exceeds it by the number of such restarts |
| SyncTheorems.RestartedCursorIsAhead | marketing_center_google/models/sync_common.py:178-210 | From a configured system, planning, one page, a cancellation, a new plan and a restart leave a sequence of two with one page applied |
| SyncTheorems.ExpectedOnce | marketing_center_base/models/sync_service.py:378-380 | Two applications that expect the same sequence of one cursor never both take effect, whatever happens in between |
| SyncTheorems.ApplyCounts | marketing_center_base/models/sync_service.py:640-659 | Received, applied, duplicate and error counts after a page; the page ends the run exactly when it is the last one, as partial if and only if errors were reported |
| SyncTheorems.CountersAlwaysFit | marketing_center_base/models/sync_service.py:383-393 | Applied plus duplicate never exceeds received, equals it when pages of pending jobs carry no items, and a succeeded run has seen no error |
| SyncTheorems.ReplayedPageDuplicates | marketing_center_base/models/catalog_service.py:57-72 | A page delivered again under the next expected sequence counts only duplicates and writes no revision |
| SyncTheorems.FactsAlwaysAgree | marketing_center_base/models/sync_service.py:395-400 | Whatever is interleaved, every stored row agrees with its revisions |
| SyncOutcomes.IneffectivePage | marketing_center_base/models/sync_service.py:418-456 | Each refusal of a page in its order, a page for a run that ended meanwhile, and one for a run whose configuration moved on, which becomes stale |
| SyncOutcomes.PendingOutcome | marketing_center_base/models/sync_service.py:383-393 | A page whose provider job is pending leaves the cursor naming that job under the next sequence, keeps its value and last run, replaces the watermark only by one it has, and records no fact |
| SyncOutcomes.CompletedOutcome | marketing_center_base/models/sync_service.py:395-415 | Any other effective page records its items one by one, replaces value, job and watermark by its own, counts each item as applied or repeated, and ends the run with the last page |
| SyncOutcomes.CursorKept | marketing_center_base/models/sync_service.py:559-621 | Over every interleaving a cursor, the job on it included, stays as it is unless a page is applied to it or a restart empties it |
| SyncOutcomes.PlanOutcome | marketing_center_base/models/sync_service.py:134-309 | Every refusal of a plan in its order; a repeated occurrence returns its run if planned alike and is a conflict otherwise; a new one is refused while its scope has a live run, and else stored with the revisions of the moment |
| SyncOutcomes.LegalMoves | marketing_center_base/models/sync_service.py:22-31 | Nothing leaves a terminal state or returns to being planned; only planned runs are queued, only running ones succeed, and planned ones do not fail |
| SyncOutcomes.RestartOutcome | marketing_center_google/models/sync_common.py:178-210 | A restart empties a cursor that holds anything and moves its sequence on, for a planned run whose configuration is current |
| SyncOutcomes.FailureOutcome | marketing_center_google/models/sync_common.py:459-479 | A failed provider call ends the run partially once a page was stored, as failed before, and as stale when its configuration moved on |
| SyncOutcomes.CancelOutcome | marketing_center_base/models/sync_service.py:39-58 | Cancelling ends a live run, changes nothing else of it, and leaves any other alone |
| SyncFencing.FenceIsRevisions | marketing_center_base/models/sync_service.py:531-543 | Equal revisions imply every other condition of the fence |
| SyncFencing.RevisionsCountWrites | marketing_center_base/models/configuration.py:680-692 | A configuration revision counts the writes to its revision-bearing fields |
| SyncFencing.FenceIffUnwritten | marketing_center_base/models/sync_service.py:527-556 | A run's fence holds exactly while no revision-bearing field of its source or connection was written since it was planned; only then can a page take effect |
| SyncFencing.WatchdogReleases | marketing_center_base/models/sync_service.py:77-129 | The watchdog ends only runs without progress since the clamped cutoffs, and passes over a stuck unlocked one only when its limit went to runs created no later |
| SyncOutcomes.WatchdogOutcome | marketing_center_base/models/sync_service.py:77-129 | The watchdog ends a run if and only if it was idle for the clamped minutes or hours, nobody has it locked, and fewer such runs than the clamped limit were created before it; a planned one is cancelled and another one fails |
| SyncOutcomes.SourceWriteOutcome | marketing_center_base/models/configuration.py:680-700 | A write changes the fields it gives and raises the revision by one unless it gives no revision-bearing field |
| SyncOutcomes.ConnectionWriteOutcome | marketing_center_base/models/configuration.py:963-988 | The same for the fields of a connection |
| RevisionLedger.FactTable.Upsert | marketing_center_base/models/catalog_service.py:48-105 | The tables after one observation of an entity are the specified ones, and rows keep agreeing with their logs |
| RevisionLedger.UpsertAgrees | marketing_center_base/models/performance_service.py:48-95 | One observation of a metric or an entity keeps numbering, differing neighbours and the row's agreement with its last revision; times never go back and other keys are untouched |
| RevisionLedger.HistoryAgrees | marketing_center_base/models/catalog_service.py:57-105 | For every history of observations by any runs, revisions are numbered from one without a gap, neighbours differ, the current row shows the last one, logs only grow, and last-observed times never decrease |
| RevisionLedger.ReplayOnlyDuplicates | marketing_center_base/models/catalog_service.py:57-72 | Replaying a page of distinct items reports only duplicates and writes no revision |
| RevisionOutcomes.ObservationOutcome | marketing_center_base/models/catalog_service.py:48-105 | One observation column by column: a repetition moves times and links only; new content appends the next revision and rewrites every column from it; other keys stay |
| RevisionOutcomes.PageOutcome | marketing_center_base/models/sync_service.py:395-400 | A page leaves what its items leave, observed one after the other |
| MigrationTheorems.PreparedIff | marketing_center_base/integration_migration.py:282-416 | After a validated preparation the closing check passes if and only if the consumer did not already depend on the add-on its dependency is renamed to |
| MigrationTheorems.InverseRestores | marketing_center_base/integration_migration.py:529-563 | On the receipt of a preparation without an intervening change the inverse is allowed and restores every row of every table, so its final comparison holds |
| MigrationPlans.IntegrationPreparesIff | marketing_center_base/integration_migration.py:345-409 | For the CRM integrations the closing check passes if and only if the WhatsApp add-on did not already depend on the website add-on |
| MigrationPlans.TwiceDependentFails | marketing_center_base/integration_migration.py:345-388 | For all catalogs and every graph that passes the checks without WhatsApp naming the website: with that one dependency added it still passes every check made before the first write, although no preparation of it passes the closing check |
| MigrationPlans.IngressAlwaysPrepares | marketing_center_website/ingress_migration.py:213-346 | For the web ingress, validation implies the closing check, so nothing fails after the first write |
| MigrationPlans.IntegrationValid | marketing_center_base/integration_migration.py:16-100 | The constants of the CRM integration migration satisfy what the general results ask of a configuration |
| MigrationPlans.IngressValid | marketing_center_website/ingress_migration.py:16-31 | The constants of the web ingress migration satisfy it too, with exact dependencies |
| MigrationTheorems.AdoptedCanonical | marketing_center_base/integration_migration.py:369-382 | After adoption every retired identifier has exactly one successor row, with the same target |
| MigrationService.Registry.AdoptIdentifiers | marketing_center_base/integration_migration.py:369-382 | The adoption loop creates one row for every unadopted identifier and freezes the retired rows |
| MigrationService.Registry.AddDependencies | marketing_center_base/integration_migration.py:389-403 | The loops add every missing dependency of every owner once and nothing else |
| MigrationService.Registry.Prepare | marketing_center_base/integration_migration.py:363-416 | Succeeds exactly on validated tables whose consumer does not yet name the rename's target, with the receipt of exactly these writes; otherwise every table is as before |
| MigrationService.Registry.Inverse | marketing_center_base/integration_migration.py:529-563 | Restores the recorded metadata, or refuses and leaves every table alone |
| MigrationService.Registry.PrepareThenInverse | marketing_center_website/ingress_migration.py:413-447 | A preparation followed by its inverse always leads back to the original rows |
| MigrationOutcomes.ChecksOutcome | marketing_center_base/integration_migration.py:282-360 | Exactly which tables a preparation starts on: versions and states of all modules, the identifiers of the catalog with at most one successor each, cataloged schema rows, one dependent, and the dependencies of the successors |
| MigrationOutcomes.WritesOutcome | marketing_center_base/integration_migration.py:363-416 | Every row a preparation writes, creates or leaves alone, and what its receipt records |
| MigrationOutcomes.ClosingOutcome | marketing_center_base/integration_migration.py:419-526 | Exactly which tables pass the closing check, with and without retired add-ons |
| MigrationOutcomes.InverseAllowedOutcome | marketing_center_base/integration_migration.py:529-540 | The inverse is allowed if and only if nothing is committed or pending and the tables are as the receipt recorded them |
| MigrationOutcomes.ChangedIsRefused | marketing_center_base/integration_migration.py:529-540 | Any change of a module, a retired identifier, a schema row involved or a successor's dependency since the preparation, and any commit, makes the inverse refuse |
| MigrationOutcomes.InvertedOutcome | marketing_center_base/integration_migration.py:541-562 | Every row the inverse deletes, restores or leaves alone |
| MigrationOutcomes.IntegrationOwners | marketing_center_base/integration_migration.py:16-22 | Which add-on takes over from which in the CRM integration migration, and which dependency is renamed |
| MigrationOutcomes.IntegrationNeeds | marketing_center_base/integration_migration.py:71-100 | What each add-on depends on after it |
| Scheduler.Lane.FairBatch | marketing_center_base/services/scheduler.py:10-59 | Refuses limits out of range; otherwise selects as many ids as limit and lane allow, each the least above the one before it or the least of all, starting above the stored number, or from the first id if nothing readable is stored, and stores its last id |
| Scheduler.BatchIsWalk | marketing_center_base/services/scheduler.py:40-55 | A batch is the next stretch of the circle of sorted ids, as long as the limit and the lane allow |
| Scheduler.CallsWalk | marketing_center_base/services/scheduler.py:40-59 | Successive batches walk the sorted ids in a circle from wherever the cursor stands |
| Scheduler.BatchDistinct | marketing_center_base/services/scheduler.py:47-55 | A batch repeats no id |
| Scheduler.EveryIdCovered | marketing_center_base/services/scheduler.py:40-59 | Every id is selected within any ceil(N/L) consecutive calls |
| Scheduler.FairCounts | marketing_center_base/services/scheduler.py:40-59 | Over any number of calls the selection counts of two ids differ by at most one |
| Scheduler.Lane.FairBatches | marketing_center_base/services/scheduler.py:34-59 | Any number of calls on one lane, from whatever its parameter holds, walk the sorted ids in a circle from the first id above the stored number, select any two ids equally often up to one, and reach all of them within ceil(N/L) calls |
| Scheduler.CircularIsFair | marketing_center_base/services/scheduler.py:40-59 | Every selection in which each id is the least above the one before it, or the least of all, selects any two ids equally often up to one |
| Touchpoints.TouchpointLedger.IngestTouchpoint | marketing_center_base/models/attribution_service.py:54-84 | An erased key stays closed, a repeat of the latest revision only adds evidence, anything else is a new revision |
| Touchpoints.TouchpointLedger.ErasePrivateValues | marketing_center_base/models/attribution.py:183-216 | The loops blank every revision and identifier of the given keys under fresh digests, keep what was blank already and touch no other key |
| Touchpoints.TouchpointLedger.EraseOneIdentifier | marketing_center_base/models/attribution.py:260-274 | Blanks one identifier under a fresh digest and leaves its revision otherwise as it was |
| Touchpoints.GoneSound | marketing_center_base/models/attribution.py:246-274 | Erasing a single identifier keeps the log sound, no identifier occurs twice, the effective revision stays, and an erased key is not touched |
| Touchpoints.AlwaysSound | marketing_center_base/models/attribution_service.py:54-97 | For every history of ingestions and erasures of keys or single identifiers, revisions are numbered 1..n, neighbours differ, evidence tells truthfully which revisions count, identifiers stay distinct, and a key is erased completely or not at all |
| Touchpoints.EffectiveIsLastSelecting | marketing_center_base/models/effective_touchpoint.py:85-145 | The effective revision is the last one that is a first non-conflict, a correction or an enrichment |
| Touchpoints.ObservationNeverDisplaces | marketing_center_base/models/attribution_service.py:87-97 | A differing plain observation is stored as a conflict and never displaces the effective revision |
| Touchpoints.ErasureIsFinal | marketing_center_base/models/attribution.py:200-215 | After an erasure all revisions of the key stay blank and no new one ever appears |
| TouchpointOutcomes.IngestionOutcome | marketing_center_base/models/attribution_service.py:54-97 | One ingestion field by field: an erased key takes nothing, a repetition adds evidence once, other content is the next revision with its first evidence and disposition |
| TouchpointOutcomes.ErasureOutcome | marketing_center_base/models/attribution.py:183-216 | One erasure field by field: private text and identifier values go, identifiers keep place and kind, hashes, numbers, evidence and other keys stay |
| TouchpointOutcomes.IdentifierOutcome | marketing_center_base/models/attribution.py:260-274 | Erasing one identifier forgets its value only |
| TouchpointOutcomes.EffectiveOutcome | marketing_center_base/models/effective_touchpoint.py:85-145 | Readers see the last revision that some observation accepted, enriched or revised |

## Left out

- Concurrency.InterleavingsSerialize: covers transactions of native document operations; deliveries under advisory locks alone are the subject of `AdvisoryLocks`, and the record of observations is not compared.
- AdvisoryLocks.BudgetsHoldIffFitting: repeated deliveries of a stored key, which insert no event, are not part of the schedules.
- AccountingOperations.HistoryConsistent: capture is enabled throughout, and other producers do not write events of the accounting adapter.
- AccountingService.Adapter.EmitMoveEvent: a document's name, type, journal, partner and totals are one text that the event copies; the transition number appears in the key only.
- SyncService.Service.PlanRun: text normalization, the contract keys of a reporting context and the alignment of metric windows to local days are taken as given.
- Touchpoints.TouchpointLedger.ErasePrivateValues: the deadlines that select identifiers and touchpoints for erasure are not modelled.
- RevisionLedger.FactTable.Upsert: entities and metrics share one table type, in which an observation of a metric carries no provider update time.
- MigrationTheorems.PreparedIff: the branch of the closing check for an owner that already depends on `web` is not modelled; it cannot be taken by a preparation.
- Access rights, company visibility, tokens, translations and notifications: the services are taken as the only writers.
- Advisory locks of the other services: their steps are taken as atomic.
- Payment allocations as an adapter: the ledger's rules for them are modelled, their native reconciliation is not.
- Deleting documents, changing their company, and switching capture off or on.
- The wider use of runs by lead and observability synchronization, queue jobs, HTTP transport and credentials.
- The registration of attribution models, the display of results, and dashboards.
- `remove_owner_aliases`, checkpoints and the hashes of migration targets, which neither a preparation nor its inverse writes.
- The at-least-once repetition of a scheduler batch after a rollback.
