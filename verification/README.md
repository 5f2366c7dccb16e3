# WareHub: a verified model of its state machines and text formats

WareHub manages a furniture warehouse. This project models the parts of it in which a mistake
would be silent: who owns a warehouse slot, which answer a repeated request gets, what a sync with
the Afterbuy marketplace overwrites, how many uploads may run at once, and the small parsers and
printers that have to agree with each other. Each part is written twice: as functions on values,
which say what a step does, and, where the program changes things step by step, as classes and
loops that are proved to do exactly what those functions say. The theorems are about the functions.

`dafny verify dfyconfig.toml` checks the project. Any theorem below holds for all inputs, states
and runs that its lemma quantifies over.

## The parts

**Warehouse slots** (Rust). `IntakeText` holds the text formats (locations, order ids, the internal
index), `LocationTexts` says which texts are read as which place, `IntakeStore` the database of intake rows and per-section slot mappings with every service
call as one atomic step, `IntakeService` the same calls as methods that update the two tables.
`PoolSafety` proves the safety invariant over every run of creations, both kinds of deletion and
purges; a ghost reservation number on rows placed by `pool_auto` says which reservation a row came
from. `PoolLeaks` proves when mapped slots stay occupied, `PoolLeakWitness` gives a family of runs
that leaks, `LocationDrain` the first-in-first-out draining of a location, `PlacementOrder` the
automatic placement rule. `CreationOutcomes`, `UnitNumbers` and `SeatChoice` say in the fields of
requests and rows when a creation succeeds, what it writes and where; `UnitRuns` follows the units
of one series, `Retention` the rows that were softly deleted. `PoolLock` breaks a reservation into lock, read, stage and commit over a
fixed set of section rows and proves that every interleaving is serial and never deadlocks.

**Idempotency keys** (Python). `Idempotency` is the record table with claim, replay and the two
finalizers; `IdempotencyRuns` interleaves any number of clients with the clock; `ClaimLifetimes` says
what a record answers and until when, `LateFinishers` what finalizers do that come too late.

**Afterbuy orders and memos** (Python). `OrderTable` is the upsert that reconciles legacy
comma-separated ids, `OrderSync` what two and three syncs achieve, `OneSync` when one is enough,
`MemoSync` the push of a locally edited memo and whole runs of edits, pushes and syncs. `OrderAddress`
says to which order a push goes, `MemoOutcomes` what its answers make of the row; `MemoRaces` takes
pushes of one row apart into reading, calls and marking, with edits in between.

**Upload admission** (Python). `FtpAdmission`: leased slots in Redis, a bounded semaphore in each
process, bounded retries, as steps of any number of workers. `FtpTurns`: one worker's waiting and
retrying; `FtpLeases`: what a release frees; `FtpOverruns`: how many uploads there can be when some
outlive their lease. The Redis lock is taken as given: non-blocking acquire, expiry, token-checked
release.

**Parsers and printers.** `Cookies` (header merge and the federation URL search), `HtmlEntities`,
`EntityTexts`, `HiddenReferences`, `HtmlAttributes` and `AttributeTexts` (entity decoding, when a
reference is missed, attribute extraction), `EnvLayers`, `EnvFiles` and `EnvRoundTrip` (runtime env files), `UploadPaths`, `UploadUrls`, `UploadNames`, `UploadPlaces`, `UploadCleanup` and `UploadRoundTrip`
(the names and directories of an upload, its URL, and back to the path that is deleted), `ColumnRefs` (spreadsheet columns).

**Loops and single flights.** `TokenRefresh` and `TokenAttempts` (the browser's access token),
`ImageFiles` and `ImageNames` (naming the extracted images), `PageWalk` (following `next_offset`).

`Text` and `Wrappers` hold trimming, splitting, joining, decimal text and the usual option and
result types.

## What turned out false, and when it holds

- Deleting by location can leave a slot mapped with nobody in it: two QR codes with one order id
  produce one internal index at two slots (`PoolLeakWitness`). It does so exactly when the oldest box
  at the location has an index that every active box of some other mapped place carries
  (`PoolLeaks.DeletedOldestLeaksExactly`), and a run stays free of leaks exactly when none of its
  deletions by location meets that (`PoolLeaks.RunsLeakExactly`).
- A finalizer that outlives its claim makes a later request replay an answer its own request never
  produced (`LateFinishers.LateFinalizerPoisonsReplay`). Over every run, answers stay honest exactly
  when each success is stored on a record with the finisher's own hash, or repeats an answer that
  hash already has (`LateFinishers.RunsAreHonestExactly`). A late error lets the next request execute
  again (`LateErrorRepeatsASuccess`); that overtakes a success exactly when one is alive, and makes
  two executors exactly when the finisher was not alone (`LateErrorExactly`).
- One sync of an order does not always clear its legacy rows; one upsert does exactly when the
  canonical row was there or at most one row listed the id (`OrderSync.OneUpsertClearsExactly`), and
  one sync of a whole result, no two ids of which share a row, settles it exactly when every id meets
  that or comes twice (`OneSync.OneSyncSettlesExactly`).
- A memo edited while it is being pushed is marked as synced without having been sent
  (`MemoRaces.EditDuringAPushIsLost`); rows stay honest over a run exactly when every successful push
  finds, on marking, a memo that was delivered (`MemoRaces.RunsAreHonestExactly`).
- Uploads can exceed the slots: with k overdue uploads exactly the numbers from k to slots + k can be
  under way (`FtpOverruns.UploadsUnderWayExactly`), since a worker gets a slot exactly when all who
  hold it are overdue and its key is not an abandoned one (`FtpOverruns.SlotIsTakenExactly`).
- The federation URL search gives up at the first piece of a raw header that is no pair
  (`Cookies.SearchSucceedsExactly`); on merged headers that cannot happen.
- A bare `&` shortly before a reference keeps that reference from being decoded
  (`HiddenReferences.BareAmpersandHidesTheNextReference`). A reference decodes exactly when no `&` of
  the text before it, with no semicolon after it, is near enough for one window to hold both
  (`HiddenReferences.ReferenceDecodesExactly`).
- Env keys that begin with `#` or `export ` do not survive being written and read
  (`EnvRoundTrip.RoundTripExactly`); building in two stages agrees with building in one, for every
  environment file, exactly when the first stage has no such key (`EnvRoundTrip.StagesAgreeExactly`).
- A deletion by upload URL misses the file exactly when the storage root and the public base
  disagree on including the environment (`UploadRoundTrip.RemoteDeleteAddressesTheUploadExactly`).
- An upload whose last error message is empty is reported as stored (`UploadUrls.AttemptUpload`).
- A request that waited for a failed token refresh clears a token that a login saved in between
  (`TokenRefresh.LateJoinerClearsANewLogin`). A saved token can be lost like that, with no logout and
  no further failure, exactly when some request still waits to learn of an earlier failed refresh
  (`TokenRefresh.LoginCanBeLostExactly`); over a run it stays exactly when no step is a logout, a
  failing refresh or such a resumption (`TokenRefresh.TokenStaysExactly`).
- A page walk that does not start at a page start re-reads rows and may miss the last page
  (`PageWalk.WalkFromAnyOffset`); without an upstream count it stops after one page.

## Model

| member | source | states |
|---|---|---|
| PoolSafety.NoSlotIsSharedInAnyRun | apps/backend/src/intakes_placement.rs:183-273 | over every run of creations, deletions and purges from the empty database: section mappings are disjoint, every active pooled row's slot is mapped in its own section, and two active pooled rows share a slot number, in any sections, iff they come from one reservation |
| PoolSafety.StepKeepsInv | apps/backend/src/intakes_delete_by_location_service.rs:168-206 | every service call, failed or not, keeps the ownership invariant behind that theorem |
| PoolSafety.SlotNumberIdentifiesReservation | apps/backend/src/intakes_placement.rs:200-257 | in any state with the invariant, equal slot numbers of active pooled rows mean the same reservation and conversely |
| PoolSafety.ReserveTakesLowestFree | apps/backend/src/intakes_placement.rs:259-273 | a reservation takes the lowest number no section maps and adds exactly that mapping to its own section |
| PoolSafety.ReserveFailsOnlyWhenFull | apps/backend/src/intakes_placement.rs:271-273 | it fails iff all of 1..10000 are mapped, which takes at least 10000 mappings |
| PoolSafety.CommittedKeepsInv | apps/backend/src/intakes_create_service.rs:88-170 | a committed creation, whatever its strategy and number of boxes, keeps the invariant |
| CreationOutcomes.CreationSucceedsExactly | apps/backend/src/intakes_create_service.rs:26-196 | a creation succeeds iff its texts fit their limits, its strategy has a section with room or a readable place, no active row is the same box of the same unit and label, the ids are new and the database does not fail; otherwise only the purge has happened |
| UnitNumbers.CreationAddsTheNextUnit | apps/backend/src/intakes_placement.rs:138-181 | every box of a creation carries the request's fields, its box number and one unit number: 1 if no active row has that product key (without one, that label), else one more than such a row's and more than all of them; active rows stay |
| UnitNumbers.IndexReads | apps/backend/src/intakes_create_service.rs:47-85 | the internal index of a prefixed kid number and a labelled order reads unit, number and order id with hyphens between |
| UnitNumbers.IndexTellsUnitsApart | apps/backend/src/intakes_create_service.rs:80-85 | with one label, indexes are equal iff the unit numbers are |
| UnitRuns.UnitsCountUp | apps/backend/src/intakes_create_service.rs:56-170 | n creations of one series from the empty warehouse, with fresh ids, no fault and room in the pool, all succeed, and the k-th carries unit k in all its boxes |
| UnitRuns.DeletionTakesOneUnit | apps/backend/src/intakes_delete_by_location_service.rs:35-112 | from any number of units of one label a deletion by location takes exactly the boxes of one unit, the oldest one's, wherever they stand |
| SeatChoice.CreationPlacesAsAsked | apps/backend/src/intakes_placement.rs:72-116 | by the strategy's text every box stands in the asked section at the lowest number mapped nowhere, at the place the request names, at the fullest place of its product, or where the scan suggests |
| SeatChoice.ExistingSeatIsFullest | apps/backend/src/intakes_placement_repository.rs:6-27 | a product is found where most of its different active units stand, the lowest slot among equals, and nowhere iff no active row has it |
| Retention.DeletionByIdExactly | apps/backend/src/intakes_query_service.rs:123-199 | without a mode, with a blank one or "soft" the row stays and is marked removed at that time; with "hard" and permission it is gone; no other row changes; every error changes nothing |
| Retention.SoftlyDeletedRowsStayExactly | apps/backend/src/intakes_enrichment.rs:198-210 | over every run a softly deleted row stays as it was marked, at every point, iff there is no purge or creation thirty days later and no permitted hard deletion of it |
| PoolLeaks.RunsLeakExactly | apps/backend/src/intakes_delete_by_location_service.rs:35-112 | from a leak-free state, every point of a run is leak-free iff no deletion by location in it finds an oldest row whose index every active row of some other mapped place carries |
| PoolLeaks.CoherentRunsNeverLeak | apps/backend/src/intakes_create_service.rs:51-85 | over every run in which rows with equal internal index sit at one place, every mapped slot has an active row at every point |
| PoolLeaks.DeletedOldestLeaksExactly | apps/backend/src/intakes_delete_by_location_service.rs:65-112 | a deletion by location from a leak-free state leaks iff, before it, the oldest row there has a non-blank index and some other mapped place holds only active rows with that index |
| PoolLeaks.DeletedByIdKeepsNoLeak | apps/backend/src/intakes_query_service.rs:157-199 | deleting one row by id, soft or hard, never leaks |
| PoolLeaks.CreatedKeepsNoLeak | apps/backend/src/intakes_create_service.rs:26-170 | creating never leaks, even when it rolls back |
| PoolLeaks.CoherentNeverStrands | apps/backend/src/intakes_delete_by_location_repository.rs:58-125 | where equal indexes share a place, the index of an oldest row never fills another place |
| PoolLeakWitness.TwoCodesOfOneOrderLeak | apps/backend/src/intakes_enrichment.rs:23-35 | two creations with different QR codes of one order and one deletion leak a slot, for every such pair of requests, from the empty database |
| LocationDrain.DeletionTakesOldestUnit | apps/backend/src/intakes_delete_by_location_repository.rs:28-125 | a deletion succeeds iff the place holds an active row; it removes the whole group of the oldest one, that row included, and nothing else; otherwise it answers not found and changes nothing |
| LocationDrain.DeletionMarksExactly | apps/backend/src/intakes_delete_by_location_repository.rs:58-125 | row by row: the active rows of the oldest row's unit, by its index or else by place and labels, are marked removed at that time, all others stay as they are |
| LocationDrain.DeletionShrinksSeat | apps/backend/src/intakes_delete_by_location_service.rs:35-112 | the active rows of the place become a proper subset |
| LocationDrain.DrainEmptiesAndUnmaps | apps/backend/src/intakes_delete_by_location_service.rs:35-112 | repeating until not found empties the place and drops its mapping |
| LocationDrain.LastDeletionUnmaps | apps/backend/src/intakes_delete_by_location_service.rs:168-206 | the deletion that takes the last active row of a place removes its key from the section's mapping |
| LocationDrain.SeedsComeInAgeOrder | apps/backend/src/intakes_delete_by_location_repository.rs:28-57 | successive deletions take seeds in order of creation time, box number and id |
| PlacementOrder.SuggestionIsFreeExactly | apps/backend/src/intakes_placement.rs:275-314 | the suggested place is free iff some section's highest slot is below i32::MAX - 1, or the first section's below i32::MAX |
| PlacementOrder.ScanFindsFirstSmallest | apps/backend/src/intakes_placement.rs:275-314 | the scan returns the first section in priority order with the smallest next slot |
| PlacementOrder.RoundRobin | apps/backend/src/intakes_placement.rs:81-116 | from the empty warehouse the k-th always-new creation lands in section k mod 11 of the priority list at slot k div 11 + 1 |
| PlacementOrder.HeightsStayEven | apps/backend/src/intakes_placement_repository.rs:117-130 | over such runs no two section heights differ by more than one |
| PoolLock.StepRefines | apps/backend/src/intakes_placement_repository.rs:82-115 | each step of a locked transaction keeps the lock invariant; the step that finishes it changes the committed rows as the whole transaction does alone, with the same result; no other step changes them |
| PoolLock.InterleavingsAreSerial | apps/backend/src/intakes_placement.rs:183-257 | every interleaving equals running the transactions in the order they finish |
| PoolLock.SomeoneCanStep | apps/backend/src/intakes_placement_repository.rs:82-95 | while a transaction is unfinished some transaction can step: locking all rows in one order never deadlocks |
| IntakeText.LocationRoundTrip | apps/backend/src/intakes_placement.rs:316-408 | every location the allocator prints for an allowed section and a positive 32-bit slot is parsed back to that section and slot |
| LocationTexts.LocationIsReadExactly | apps/backend/src/intakes_placement.rs:320-408 | a text is read as a place iff, trimmed and in capitals, it is a section letter, perhaps blanks, digits whose number is positive and fits 32 bits, and letters; the section, that number and the text without the blanks are the place |
| IntakeText.InternalIndex | apps/backend/src/intakes_create_service.rs:80-85 | the internal index is never empty and has no outer white space, so the trim of a deletion leaves it alone |
| IntakeService.Warehouse.Create | apps/backend/src/intakes_create_service.rs:26-170 | the method on the two tables does exactly what the creation function says, rollback included |
| IntakeService.Warehouse.Delete | apps/backend/src/intakes_query_service.rs:123-199 | the same for deletion by id, with its mode and permission errors |
| IntakeService.Warehouse.DeleteOldestByLocation | apps/backend/src/intakes_delete_by_location_service.rs:15-112 | the same for deletion of the oldest unit at a location |
| IntakeService.Warehouse.ReservePoolSlot | apps/backend/src/intakes_placement.rs:183-257 | the reservation loop over the locked rows equals the reservation function |
| IntakeService.SuggestNewLocation | apps/backend/src/intakes_placement.rs:275-314 | the scan loop equals the placement function |
| Idempotency.RecordTable.ClaimOrReplay | services/database-service/database/idempotency.py:42-104 | insert, conflict, replay, still processing, expired or failed re-claim: the outcome and the new record as a function of the old record, the hash and the time |
| ClaimLifetimes.ExpiredRecordIsReclaimed | services/database-service/database/idempotency.py:72-91 | a request that finds a record run out, of any state and hash, executes; the record is then processing under its hash, with nothing stored, for the wished time or thirty seconds |
| ClaimLifetimes.LiveRecordAnswersExactly | services/database-service/database/idempotency.py:93-104 | a live record answers conflict iff the hash differs, replay iff it is completed, in progress iff it is processing, and is claimed again iff it has failed |
| ClaimLifetimes.NoAnswerOutlivesItsClaim | services/database-service/database/idempotency.py:42-104 | over every run, late finishers included, a replay or "in progress" comes from a claim of the same request, a conflict from one of another, that was alive when the client looked at its clock |
| ClaimLifetimes.FinalizersStoreTheirAnswer | services/database-service/database/idempotency.py:107-120 | a finalizer stores its own state, status and payload and keeps hash and expiry; an error code is cut at 128 characters and never empty |
| IdempotencyRuns.TimelyRunsAreSafe | services/database-service/database/idempotency.py:42-112 | in every interleaving in which no execution outlives its claim: at most one client executes, every replay was produced by an execution of the same request, and no claim is granted between a success and its expiry |
| IdempotencyRuns.ReplayIsTheLatestSuccess | services/database-service/database/idempotency.py:96-97 | a replay returns exactly status and payload of the latest claim's success, for the same hash |
| LateFinishers.RunsAreHonestExactly | services/database-service/database/idempotency.py:42-120 | over every run, with no bound on how late anybody finishes: all answers handed out, and the one on offer, come from an execution of the request they answer iff every success was stored on a record with the finisher's hash or repeated an answer that hash already had |
| LateFinishers.LateSuccessAnswersExactly | services/database-service/database/idempotency.py:93-112 | the next live request with the record's hash is answered what the finisher stored; an execution of its own request produced it iff that same condition held |
| LateFinishers.LateErrorExactly | services/database-service/database/idempotency.py:101-120 | after a stored error the next live request with the record's hash executes; one client executes then iff the finisher was the only one, and no success is overtaken iff none was alive |
| LateFinishers.LateFinalizerPoisonsReplay | services/database-service/database/idempotency.py:107-112 | from the start, for all hashes and answers: a run with one overdue success replays honestly iff the two requests have the same hash |
| LateFinishers.LateErrorRepeatsASuccess | services/database-service/database/idempotency.py:115-120 | from the start, for all hashes and answers: a run with one overdue error executes a request again while its success is alive |
| OrderTable.OrderStore.UpsertOrder | services/database-service/afterbuy_service/sync.py:125-159 | the method on the table equals the upsert function and says whether a row was created |
| OrderTable.OrderStore.SyncLookupResult | services/database-service/afterbuy_service/sync.py:44-78 | a lookup result is upserted order by order; created and updated count the orders, created the new keys; the constraints survive |
| OrderTable.UpsertKeepsValid | services/database-service/afterbuy_service/sync.py:125-159 | order ids and primary keys stay unique |
| OrderTable.ListedIdsExactly | services/database-service/afterbuy_service/sync.py:173-174 | an id column lists an id iff some comma-separated part of it, wherever it stands, is that id once trimmed |
| OrderSync.UpsertIsCanonical | services/database-service/afterbuy_service/sync.py:125-159 | after an upsert exactly one row carries the remote id |
| OrderSync.OneUpsertClearsExactly | services/database-service/afterbuy_service/sync.py:128-157 | no other row lists the id afterwards iff the canonical row existed or at most one row listed it |
| OrderSync.TwoSyncsSettle | services/database-service/afterbuy_service/sync.py:44-78 | after two syncs of one result, from any table, every remote order has its row and no other row's list contains its id |
| OneSync.OneSyncSettlesExactly | services/database-service/afterbuy_service/sync.py:44-78 | one sync of a whole result does that iff each of its ids had its own row, or was listed by at most one row, or comes twice in the result, if no row lists two of them |
| OrderSync.OneSyncLeavesTheSecondLegacyRow | services/database-service/afterbuy_service/sync.py:136-144 | of any two legacy rows that start with an id, one sync leaves one behind |
| OrderSync.ThirdSyncChangesOnlyStamps | services/database-service/afterbuy_service/sync.py:97-122 | a third sync changes the sync time of synced rows of the result and nothing else |
| OrderSync.SyncShowsEveryOrder | services/database-service/afterbuy_service/sync.py:97-122 | after a sync every remote order has a row that shows the last order with its id: profile, marketplace, buyer, first title, invoice number, paid status, and the memo where it is synced |
| OrderSync.SyncKeepsUnsyncedMemo | services/database-service/afterbuy_service/sync.py:136-170 | a row whose memo is not synced keeps all five memo columns through any sync it survives |
| OrderSync.UpsertDeletesExactly | services/database-service/afterbuy_service/sync.py:146-151 | an upsert deletes a row iff that row lists the id and another row already has it |
| OrderSync.MergedItemsAreKept | services/database-service/afterbuy_service/sync.py:147-151 | absorbing legacy rows keeps the survivor's additional items, or the items of one of them, if anybody had any |
| MemoSync.Pusher.SyncOrder | services/database-service/afterbuy_service/memo_sync.py:30-69 | without an identity the row is marked failed and no call is made; otherwise the calls follow the retry rule to its end, the row is what their verdict makes of it, and the remote memos are those the calls left |
| MemoSync.RetryRuleFixesTheCalls | services/database-service/afterbuy_service/memo_sync.py:41-67 | at most two calls, each but the last answered by a retryable error, complete: these rules leave one possible sequence of calls |
| MemoSync.PushPromises | services/database-service/afterbuy_service/memo_sync.py:85-132 | a push never changes the memo, ends synced or failed, and synced iff the last call was accepted, when the remote order holds this memo |
| MemoSync.NoRunLosesAnEdit | services/database-service/afterbuy_service/memo_sync.py:30-132 | over every run of edits of other rows, pushes, syncs and remote edits, a surviving row with an unsynced memo still has it unsynced, or an accepted call has delivered it |
| MemoRaces.RunsAreHonestExactly | services/database-service/afterbuy_service/memo_sync.py:40-132 | with edits and any number of pushes of one row interleaved statement by statement, a synced row always has its memo delivered iff every successful mark finds the memo it sent or another delivered one |
| MemoRaces.MarkIsRightExactly | services/database-service/afterbuy_service/memo_sync.py:40-67 | whatever happens in between, a push's mark says synced of the memo it sent iff the row's memo reads as it did when the push began |
| MemoRaces.EditDuringAPushIsLost | services/database-service/afterbuy_service/memo_sync.py:98-114 | for every row whose order is found and every new text: an edit between the accepted call and the mark leaves the row synced with a text that no call has sent |
| MemoRaces.UndisturbedPushIsOneStep | services/database-service/afterbuy_service/memo_sync.py:30-69 | left alone, the statements of a push have the effect of the one step of the other runs |
| OrderAddress.FirstAddresseeIsFound | services/database-service/afterbuy_service/service.py:38-97 | the search returns the first order, profiles in order, with a positive decimal number that carries the trimmed external id itself, as alternative id, or in an item |
| OrderAddress.PushGoesToTheAddressee | services/database-service/afterbuy_service/memo_sync.py:30-83 | every call of a push goes to that order with the row's memo, and there is no call iff all kids are blank, the external id is blank or no such order exists |
| MemoOutcomes.PushShowsTheLastReply | services/database-service/afterbuy_service/memo_sync.py:41-132 | a push asks twice iff the first answer is a retryable refusal of a selectable order; the row shows the last answer in status, error text of at most a thousand characters, error type and time |
| MemoOutcomes.LastStoredMemoStays | services/database-service/afterbuy_service/memo_sync.py:43-47 | a remote memo is that of the last call that stored one there, accepted or not |
| OrderAddress.NothingIsFoundExactly | services/database-service/afterbuy_service/service.py:48-71 | no identity is found iff the external id is blank or no profile returns such an order |
| MemoSync.ResolveInternalOrderId | services/database-service/afterbuy_service/service.py:38-71 | the nested search loops equal that first-match function |
| FtpAdmission.NoProcessExceedsItsPermits | services/database-service/database/ftp_upload.py:155-166 | in every interleaving at most the permitted number of uploads is under way in one process |
| FtpAdmission.UploadsExceedSlotsOnlyByOverdueOnes | services/database-service/database/ftp_upload.py:108-152 | with Redis, uploads over all processes exceed the slots at most by those whose lease ran out; with none overdue they fit |
| FtpOverruns.UploadsUnderWayExactly | services/database-service/database/ftp_upload.py:108-166 | for every configuration with Redis and all numbers: some run has that many uploads under way, of which k are overdue, iff the number is between k and slots + k |
| FtpOverruns.SlotIsTakenExactly | services/database-service/database/ftp_upload.py:128-136 | a worker gets the slot it tries iff everybody who holds it is overdue and its key is not alive without an owner |
| FtpLeases.ReleaseFreesTheSlot | services/database-service/database/ftp_upload.py:144-152 | an answered release of a lease that has not run out leaves its slot without a key and every other key as it was |
| FtpLeases.KeysAreExactlyTheSlotsInUse | services/database-service/database/ftp_upload.py:108-152 | over every run without lost answers and overdue uploads, the keys alive are exactly the slots of the workers between scan and release, and a worker is admitted iff nobody has the slot it tries |
| FtpAdmission.LateReleaseHarmsNobody | services/database-service/database/ftp_upload.py:144-152 | a release, however late, leaves every other worker's lease as it is |
| FtpTurns.NobodyGivesUpEarly | services/database-service/database/ftp_upload.py:125-139 | over every run a worker that is never let in keeps its deadline and gives up only once the waiting time has passed since it arrived |
| FtpTurns.WithoutRedisNobodyWaits | services/database-service/database/ftp_upload.py:108-112 | without Redis no run has a lease or a scan |
| FtpTurns.AttemptGoesOnExactly | services/database-service/database/ftp_upload.py:155-166 | an upload tries again, keeping lease and permit and waiting attempt times the delay, iff it met a connection limit before its last attempt; otherwise it ends and returns its permit |
| FtpAdmission.LockServer.ScanSlots | services/database-service/database/ftp_upload.py:128-136 | one pass over the slots leases the first free one, or finds every slot taken and changes nothing |
| FtpAdmission.OnlyPermitsBlock | services/database-service/database/ftp_upload.py:155-166 | every unfinished worker can move, or waits for a permit that a worker able to move holds |
| FtpAdmission.OwnStepsAreBounded | services/database-service/database/ftp_upload.py:155-166 | past the scan every own step brings a worker closer to its end and no other step changes it |
| FtpAdmission.RunUpload | services/database-service/database/ftp_upload.py:155-166 | the retry loop answers with the first outcome that is no connection limit or with the last allowed one, and sleeps in total at most delay * R * (R - 1) / 2 |
| Cookies.MergeIsAFold | apps/backend/src/afterbuy_support.rs:79-109 | merging two lists of Set-Cookie values one after the other equals merging their concatenation, for every header |
| Cookies.PrintedParsesBack | apps/backend/src/afterbuy_support.rs:84-92 | parsing a printed map gives the same map |
| Cookies.SetCookiesKeepCanonical | apps/backend/src/afterbuy_support.rs:94-109 | names stay ascending, unique and clean |
| Cookies.LastSetCookieWins | apps/backend/src/afterbuy_support.rs:94-103 | the last Set-Cookie value that names a cookie decides its value |
| Cookies.SetCookieFollowsTheRfc | apps/backend/src/afterbuy_support.rs:95-101 | name and value of a readable Set-Cookie value are those of section 5.2 of RFC 6265, which is written out independently |
| Cookies.SearchSucceedsExactly | apps/backend/src/afterbuy_support.rs:46-61 | on any header the search succeeds iff a matching value comes before every piece that is neither blank nor a pair |
| Cookies.MergedUrlIsFound | apps/backend/src/afterbuy_support.rs:46-61 | on a merged header it succeeds iff any cookie has a matching value |
| Cookies.MergedUrlIsTheFirst | apps/backend/src/afterbuy_support.rs:46-61 | what the search returns on a merged header is the matching value of the first cookie by name |
| Cookies.MergeCookieHeaders | apps/backend/src/afterbuy_support.rs:79-109 | the two loops compute the merge function |
| HtmlEntities.DecodeHtmlEntities | apps/backend/src/afterbuy_html.rs:233-276 | the windowed index loop equals the one-pass recursive decoder |
| HtmlEntities.EscapeRoundTrip | apps/backend/src/afterbuy_html.rs:213-276 | decoding undoes five-character escaping of every text |
| HtmlEntities.NumericReferencesDecode | apps/backend/src/afterbuy_html.rs:254-261 | decimal and hexadecimal references of every Unicode scalar value decode to it, in front of any text |
| EntityTexts.DecimalReferencesExactly | apps/backend/src/afterbuy_html.rs:248-258 | a decimal number stands for the character of that code point, a surrogate or a number beyond the last one for nothing |
| EntityTexts.NumbersNeedDigits | apps/backend/src/afterbuy_html.rs:255-256 | a numeric reference without digits, or with anything else behind an optional plus sign, stands for nothing |
| EntityTexts.HexadecimalIgnoresCase | apps/backend/src/afterbuy_html.rs:250-254 | hexadecimal references mean the same in either case |
| HtmlEntities.DecodeIsTheIdentityWithoutAmpersands | apps/backend/src/afterbuy_html.rs:236-241 | text without an ampersand stays as it is |
| HiddenReferences.ReferenceDecodesExactly | apps/backend/src/afterbuy_html.rs:243-272 | between any two texts a reference decodes, and the texts decode on their own, iff no ampersand before it is free of semicolons up to it and within a window of its end |
| HiddenReferences.BareAmpersandHidesTheNextReference | apps/backend/src/afterbuy_html.rs:243-272 | an ampersand before a reference, inside the window, makes both stay undecoded |
| HtmlEntities.UmlautsLoseTheirDots | apps/backend/src/afterbuy_html.rs:214-231 | every umlaut reference decodes to the plain letter it is named after |
| HtmlEntities.DecodingNeverGrows | apps/backend/src/afterbuy_html.rs:213-276 | the result is never longer than the text |
| HtmlAttributes.ExtractAttr | apps/backend/src/afterbuy_html.rs:150-211 | the cursor loops equal the extraction function |
| HtmlAttributes.AttributeReadsBack | apps/backend/src/afterbuy_html.rs:150-211 | a quoted, escaped value written as the first assignment of an attribute is read back, in any spelling of the name and with any spaces around the equals sign |
| AttributeTexts.FirstValueIsFound | apps/backend/src/afterbuy_html.rs:150-211 | position by position: the value is the decoded text behind the first equals sign that follows the name in any case, not within a longer name, up to the closing quote, or to a blank, ">" or "/" |
| AttributeTexts.NothingIsFoundExactly | apps/backend/src/afterbuy_html.rs:150-211 | nothing is found iff the attribute is assigned at no position |
| EnvRoundTrip.RoundTripExactly | infra/scripts/build-runtime-env.py:9-33 | a written dictionary parses to itself, order included, iff no key begins with `#` or `export ` |
| EnvRoundTrip.PlainFilesReadBack | infra/scripts/build-runtime-env.py:9-33 | any list of entries with different keys of letters, digits and underscores, and values of visible ASCII without a blank at the end, reads back as it was written |
| EnvLayers.LayeringIsAssociative | infra/scripts/build-runtime-env.py:36-41 | layering three dictionaries gives the same ordered dictionary in either grouping |
| EnvLayers.OverrideWins | infra/scripts/build-runtime-env.py:38-40 | the override's value wins, all other keys keep theirs |
| EnvRoundTrip.ConcatenationIsLayering | infra/scripts/build-runtime-env.py:9-28 | one file after the other parses to one layered over the other |
| EnvRoundTrip.StagesAgreeExactly | infra/scripts/build-runtime-env.py:36-41 | building with shared values and then with environment values writes the same file as building once with both, for every environment file, iff the first stage has no key that begins with `#` or `export ` |
| EnvFiles.ParsedFilesAreClean | infra/scripts/build-runtime-env.py:14-28 | whatever a file parses to has unique, non-empty, trimmed keys without an equals sign, and one-line values without trailing white space |
| EnvFiles.BuildRuntimeEnv | infra/scripts/build-runtime-env.py:36-41 | the parse and override loops compute the build function, errors with their line numbers included |
| EnvFiles.ErrorsNameTheFirstBadLine | infra/scripts/build-runtime-env.py:14-26 | reading fails iff some line lacks an equals sign or a key, and the error gives the kind and number of the first such line |
| UploadRoundTrip.RemoteDeleteAddressesTheUploadExactly | apps/backend/src/system_uploads_cleanup.rs:72-153 | for the public-base and the ftp:// form, deleting by the returned URL addresses the written components iff the two "includes the environment" flags agree |
| UploadRoundTrip.LocalDeleteAddressesTheUpload | apps/backend/src/system_uploads.rs:511-532 | deleting by a local upload URL addresses exactly the written path |
| UploadRoundTrip.SanitizingIsAFixpoint | apps/backend/src/system_uploads_cleanup.rs:110-123 | sanitized paths are fixpoints with no empty, "." or ".." part |
| UploadPlaces.UploadLiesInItsEnvironment | apps/backend/src/system_uploads.rs:341-412 | an upload is written below the root, in the directory prod, dev or stage of its environment unless the root's last directory is that one, then in its avatar directory and folder, under its name |
| UploadPlaces.EnvironmentsStayApart | apps/backend/src/system_uploads.rs:341-412 | below a root of no environment two environments write to one path iff they have the same directory |
| UploadPlaces.UrlNamesTheUpload | apps/backend/src/system_uploads.rs:534-634 | the returned URL names the same directories and the file behind the public base or the FTP root, without a doubled slash |
| UploadNames.OneCharacterBetween | apps/backend/src/system_uploads.rs:449-467 | between two proper names a separator becomes an underscore, letters, digits, hyphens and underscores stay, every other character goes |
| UploadNames.NothingIsLeftExactly | apps/backend/src/system_uploads.rs:449-467 | a wished name is dropped iff it has no letter, digit or hyphen |
| UploadNames.ProperFoldersStay | apps/backend/src/system_uploads.rs:469-486 | a folder path of proper names stays as it is, cut after 160 characters |
| UploadRoundTrip.NormalizedFoldersAreFolders | apps/backend/src/system_uploads.rs:449-486 | a normalized folder is never empty, holds only safe characters and slashes, and fits its limit |
| UploadUrls.UploadFilename | apps/backend/src/system_uploads.rs:642-660 | file names hold safe characters and dots and are safe at both ends; a product image takes the wished name or the generated one |
| UploadUrls.AttemptUpload | apps/backend/src/system_uploads.rs:552-607 | attempts stop at the first stored or refused one or at the limit; success is reported iff the last one stored or its error message was empty |
| UploadCleanup.SanitizeRelativePath | apps/backend/src/system_uploads_cleanup.rs:110-123 | the loop computes the sanitizing function |
| TokenRefresh.OneRefreshAtATime | apps/frontend/app/client-api-shared.ts:121-151 | in every interleaving at most one started refresh is without an answer |
| TokenRefresh.AnswersNeverChange | apps/frontend/app/client-api-shared.ts:121-151 | everybody who joined a refresh sees the same answer, whenever they look |
| TokenRefresh.AtMostTwoAttempts | apps/frontend/app/client-api-shared.ts:161-203 | no request goes out more than twice |
| TokenRefresh.RetriesUseALaterRefresh | apps/frontend/app/client-api-shared.ts:191-203 | a second attempt carries the token of a refresh that ended after the 401 and before it |
| TokenAttempts.FirstAttemptsTakeATokenAtHand | apps/frontend/app/client-api-shared.ts:183-189 | a request goes out with the token in memory, or the one it is given, or waits for the one refresh under way or started for it |
| TokenAttempts.RefusalsLeadToARefreshExactly | apps/frontend/app/client-api-shared.ts:191-200 | a response leads to a refresh iff it is a 401 to a first attempt that may retry; every other one ends the request |
| TokenAttempts.NoRunSendsABlankToken | apps/frontend/app/client-api-shared.ts:97-203 | over every run memory holds no blank token and no request goes out with one |
| TokenRefresh.TokenStaysExactly | apps/frontend/app/client-api-shared.ts:97-200 | a token stays in memory at every point of a run iff no step is a logout, a failing refresh or a request resuming from a refresh without a token |
| TokenRefresh.LoginCanBeLostExactly | apps/frontend/app/client-api-shared.ts:191-203 | a saved token can be lost by a run with no logout and no failing refresh iff some request still waits to learn of an earlier failed refresh |
| TokenRefresh.LateJoinerClearsANewLogin | apps/frontend/app/client-api-shared.ts:196-200 | from the beginning, for every token: a run in which a request that waited for a failed refresh clears a token saved since |
| TokenRefresh.AuthModule.RefreshAuthSession | apps/frontend/app/client-api-shared.ts:121-126 | joins the refresh under way or starts the only one |
| ImageFiles.ImageDirectory.ExtractUsedImages | services/managment/parser_exl.py:380-425 | every wanted pair of kid and image, and no other, has one file with its own image; no two pairs share a file; every entry names its own pair's file or nothing |
| ImageFiles.ImageDirectory.ExtractOne | services/managment/parser_exl.py:390-423 | one entry adds at most its own pair, keeps every earlier file, never writes where a file or directory is, and names a new file after the kid, its counter and the image's extension |
| ImageFiles.FreshIndex | services/managment/parser_exl.py:406-417 | the renaming loop ends at the first free number for any finite directory |
| ImageFiles.FilesIdentifyPairs | services/managment/parser_exl.py:400-422 | two entries name one file iff they ask for the same image of the same kid |
| ImageNames.WantedPairsExactly | services/managment/parser_exl.py:389-397 | a pair is wanted iff an entry gives its trimmed kid, which is not blank, and its image, which is named and in the archive |
| ImageNames.ExtensionIsWhatFollowsTheLastDot | services/managment/parser_exl.py:403 | a file keeps what follows the last dot of the image's name, in lower case |
| ColumnRefs.ReferencesNameTheirColumn | services/managment/parser_exl.py:242-251 | the reference of column n and any row is read as n |
| ColumnRefs.NameOfNumber | services/managment/parser_exl.py:247-251 | every letter sequence is the name of its own number, so letters and numbers correspond one to one |
| PageWalk.WalkVisitsEveryRowOnce | apps/backend/src/database_inventory.rs:331-380 | from offset 0 with any limit, following the offsets visits every row once, in order, in as many pages as the rows fill, at least one, each starting at a multiple of the clamped limit |
| PageWalk.WalkFromAnyOffset | apps/backend/src/database_inventory.rs:748-757 | from r rows into a page the walk starts at that page's first row and misses the last page iff that page has at most r rows, unless it began there |
| PageWalk.WalkIsExactForPageStarts | apps/backend/src/database_inventory.rs:754-757 | with distinct rows, exactly the page starts lead to exactly the rows from there on |
| PageWalk.WithoutACountOnePageIsAll | apps/backend/src/database_inventory.rs:366-371 | without an upstream count the walk from any offset inside the rows is the one page it falls into, and complete iff the rows fit the first page |
| PageWalk.PageSizesExactly | apps/backend/src/database_inventory.rs:331-380 | a page has the wished limit between 1 and 100, 20 without one, a negative offset counts as 0, and the count is the upstream's or else the page's own |

## Left out

- HTTP handlers, authentication, logging, broadcasts, background work and the user interface: plumbing without a property of its own.
- Read-committed races of the database: each warehouse call is one atomic step, except in `PoolLock`, where reservations and releases interleave over a fixed set of section rows; two concurrent deletions that each still see the other's box, and two first insertions of the same section row, are outside.
- Photos, categories, product snapshots, enrichment after creation, notifications and the photo clean-up queue: columns and effects no modelled decision depends on.
- Order of query results where the SQL leaves it open: ties between equally good existing locations go to the lowest row id, and legacy order rows come in table order.
- IntakeStore: ids, timestamps and database failures are parameters of a creation; at most twenty boxes, as the service checks.
- IntakeService.Warehouse.ReservePoolSlot: slot mappings are maps, not the JSON text they are stored as.
- Case mapping and the letters of normalized texts are ASCII.
- Idempotency: request hashes are opaque strings compared for equality, and response payloads are the text they encode to; hashing and encoding JSON are not modelled.
- IdempotencyRuns.TimelyRunsAreSafe: has the hypothesis that no execution outlives its claim, because the finalizers do not check ownership; `LateFinishers` proves what holds without it.
- OrderTable: of the columns a sync always overwrites five stand for all; client rows and order items, which a sync writes beside the order and a deletion takes along, are not modelled.
- OneSync.OneSyncSettlesExactly: for tables in which no row lists two ids of the result; where rows do, which of them is adopted for which id decides, and one sync can settle more than the condition says (`SharedListingsSettle`).
- MemoSync: the four columns of an identity that only reach the log are dropped, the fixed error texts are names instead of strings, and lookups and update calls are answers given from outside.
- MemoRaces: the row itself is not synced or deleted while pushes of it run.
- MemoSync.NoRunLosesAnEdit: a push is one step of its runs (`MemoRaces` takes it apart); speaks of rows that survive; an unsynced legacy row that an upsert absorbs is deleted with its memo, exactly when UpsertDeletesExactly says so.
- FtpAdmission: which FTP error is a connection limit is an outcome given from outside; lock names, TLS and the upload itself are not modelled; fairness between waiting workers is not claimed.
- Cookies: a Set-Cookie value that is not readable text is an absent value; attributes after the first semicolon are ignored, as in the program.
- HtmlAttributes: bytes and characters coincide, as in ASCII text.
- EnvFiles: texts are taken after the newline translation of reading a text file; file names and permissions are not modelled.
- UploadRoundTrip.RemoteDeleteAddressesTheUploadExactly: asks for an avatar directory without white space around its parts or dot names, a host without a slash and a public base outside the local URL space; paths are compared as the components they name.
- UploadRoundTrip.LocalDeleteAddressesTheUpload: also asks for an avatar directory without a backslash, which the URL would turn into a slash.
- UploadUrls: product images go through another service, whose URL is not built here; the target rules are modelled for both kinds.
- TokenRefresh: tokens are taken as already trimmed, the stored user and storage events are dropped, and every stretch between two awaits is one step.
- ImageFiles: kids and file names hold no path separator; the archive is a map from paths to contents; which image a row refers to is an input.
- PageWalk: the mapping of rows to mobile rows and the filters are not modelled; the upstream serves exact pages of a fixed list.
- Afterbuy login, scraping of order pages, price tiers, settings validation, locale maps and mail configuration: keyword heuristics and single-branch rules.
