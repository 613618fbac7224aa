# Verified model of the booking platform

The platform is a set of services around hotels: BookingService sells rooms, HotelService keeps hotels, rooms and
the search index, ReviewService folds reviews into hotel ratings, AuthServiceInGo keeps users and roles. This
project models the parts of it that are protocols or algorithms and proves what they guarantee.

| part | files |
|---|---|
| room table, room generation, availability scheduler | `Rooms`, `RoomGeneration`, `RoomScheduler` |
| booking protocol between BookingService and the room table | `BookingProtocol`, `BookingConfirmation`, `RoomHandoff`, `RoomHolds`, `HotelLock`, `StayCoverage`, `BookingService`, `BookingExamples` |
| rating aggregation | `RatingAverage`, `RatingProtocol`, `RatingLedger`, `RatingLoss`, `ReviewBatchProcessor` |
| search index kept in step with the hotel table, and search | `HotelDocument`, `HotelIndex`, `HotelService`, `RatingIndex`, `Search` |
| role check and role assignment | `UserRoles` |

`dafny verify dfyconfig.toml` checks everything.

## How it is built

Each concurrent part has a state machine (`State`, `Event`, `Enabled`, `Next`, `IsRun`) in which a call is cut at
its awaits, so that the steps of any number of calls interleave freely. Any step can fail; a request that takes
effect and then reports failure is its step followed by the failure step, or its step alone if it is the last of its
call (in the rating job, of its hotel), since the tables do not show what the caller was told. The safety results
quantify over every run. The services themselves are classes whose methods follow the code statement by statement
with the outcome of every request as a parameter; their contracts say what they do to the tables and that each call
is a run of the state machine (`Ran`, `Reaches`, `Reached`), so that what is proved of runs applies to them.

Times are integers in milliseconds, UTC; the rating job's clock is in seconds. A row's id is its position in the
table, except for hotels and users.

## Where the code and its documentation or comments disagree

The model follows the code. Each point names a run in which a promise fails and, where the promise can hold, the
exact condition under which it does.

* The documentation of BookingService promises that the hotel lock prevents double booking. Availability is read
  before the lock and the stamp is unconditional, so it does not: `DoubleBookingHappens`. A stamp takes a room from
  another booking exactly when it was read before a stamp that still stands: `TakesIffReadBeforeStandingStamp`. The
  documentation also shows the lock being released; the code never releases it.
* The availability check counts rows over a range that includes the check-out date, so a stay can be sold with a
  night missing: `SuccessCanMissANight`. Every night is covered exactly when the check-out date was not counted or
  nothing is missing: `NightsCoveredIff`, `NightsHeldIff`.
* Confirming does not look at the status, so a CANCELLED booking can become CONFIRMED without getting its rooms
  back: `CancelledThenConfirmedHappens`. It can exactly as long as an open key names it or its create has still to
  insert one: `ConfirmableIffOpenKey`.
* A cancel that overlaps its own create can leave a CANCELLED booking holding rooms: `CancelLeakHappens`. A cancel
  can end so exactly when its booking was still being created: `CancelCanLeakIffBeingCreated`; a booking does hold a
  room exactly while its stamp stands: `HoldsIffStampStands`.
* The scheduler says it extends availability by one day. Its job covers two dates, because the batch loop includes
  its end: `JobCoversTwoDates`. Its jobs can extend a category exactly while the day after its last date is not past:
  `SchedulerExtendsIffNotBehind`. After that only a job posted to the generation endpoint creates rooms, from today
  on, and the days missed stay missing: `PostedJobLeavesGap`, `PastDatesStay`. A generation run can be cut off after
  any of its batches; wherever it is, it leaves no gap exactly when its first batch joins the dates already there:
  `EveryCutKeepsIntervalIffJoins`.
* The request schema admits a batch size between 0 and 1, with which the batch loop never advances:
  `FractionalBatchStalls`; `BatchProgress` gives the exact condition.
* A review can be marked as counted without having been counted: `TieHappens`. It is exactly when it was inserted
  after the fetch and before the mark of its hotel, no later than the cutoff second: `ReviewLostIffLateInsert`.
* The comments say that failed index jobs are retried and that the next queue call picks up one that could not be
  queued. The queue sets no attempts and keeps no record, so either is gone, and its change lost unless a later job of
  that hotel follows (`HandleJob`, `ScheduleIndex`). A hotel whose delete job is lost stays in the index, and nothing
  but another change to it takes it out: `LostDeleteHappens`. A settled hotel can be put right without one exactly
  when it is active or not in the index: `RepairableIffActiveOrAbsent`; an active one only by a restart and its
  startup sync: `OnlyRestartRepairs`.
* A deleted hotel that is updated comes back into the search index: `DeletedHotelComesBack`. A settled hotel agrees
  with the table exactly when it was not updated after its deletion: `SettledHotelAgrees`. The rating job is such an
  update for a hotel with a pending review: `RatingJobRevivesDeleted`, `RevivedInAnyRun`.
* A user can come to hold two roles if one is assigned between the two inserts of its signup: `TwoRolesReached`. It
  does exactly when the default role is inserted beside a different one: `TwoRolesIffDefaultBesideAnother`. If the
  signup finishes, its own assignment deletes both and the role assigned in between is lost:
  `EarlyAssignGivesTwoRoles`.

## Model

| member | source | states |
|---|---|---|
| Rooms.Available | HotelService/src/repositories/room.repository.ts:61-71 | the range query returns exactly the ids of the category's unbooked rows in the closed date range, in row order |
| Rooms.AvailableAreFree | HotelService/src/repositories/room.repository.ts:61-71 | the query lists each free row of the range once, so its length is the number of free rows |
| Rooms.ReleaseUndoesStamp | HotelService/src/repositories/room.repository.ts:73-95 | releasing a booking after stamping free rooms gives back the table from before the stamp |
| Rooms.BookingKeepsDates | HotelService/src/repositories/room.repository.ts:73-95 | stamping and releasing change no category's rows on any date |
| Rooms.LatestDatesAreLatest | HotelService/src/repositories/room.repository.ts:42-59 | the MAX query lists a category exactly when it has a live row, with a date that has a row and that no live row exceeds |
| Rooms.HasRoomIffLiveId | HotelService/src/repositories/room.repository.ts:12-23 | the exact-date lookup finds something exactly when the category has a live row on that date |
| Rooms.RoomRepository.FindByRoomCategoryIdAndDate | HotelService/src/repositories/room.repository.ts:12-23 | a row is returned iff there is a live one for the category and date, and it is one |
| Rooms.RoomRepository.FindByRoomCategoryIdAndDateRange | HotelService/src/repositories/room.repository.ts:61-71 | an id is listed iff its row is of the category, unbooked and dated in the closed range, soft-deleted rows included; in row order |
| Rooms.RoomRepository.FindLatestDatesForAllCategories | HotelService/src/repositories/room.repository.ts:42-59 | a category is listed iff it has a live row, with a date that has a live row and that none exceeds |
| Rooms.RoomRepository.BulkCreate | HotelService/src/repositories/room.repository.ts:25-27 | every old row keeps its id and contents, the new rows follow in order, and a category has a room on a date iff it had one or a new row gives it one |
| Rooms.RoomRepository.UpdateBookingIdToRooms | HotelService/src/repositories/room.repository.ts:73-84 | every listed row is held by the booking, whoever held it; nothing else of it and no other row changes |
| Rooms.RoomRepository.DeleteBookingIdFromRooms | HotelService/src/repositories/room.repository.ts:86-95 | exactly the rows the booking held are freed and nothing else of them changes, so it holds nothing and every other booking holds what it held |
| RoomGeneration.MissingContents | HotelService/src/services/roomGeneration.service.ts:86-110 | a pass finds exactly the dates without a live row, in increasing order |
| RoomGeneration.FilledHasRoom | HotelService/src/services/roomGeneration.service.ts:86-118 | after a pass the dates with a room are the old ones plus the dates of the pass, for its category only |
| RoomGeneration.FilledOncePerDate | HotelService/src/services/roomGeneration.service.ts:86-118 | a pass leaves old rows alone, gives every missing date exactly one row, and no other date or category a new one |
| RoomGeneration.FilledAppends | HotelService/src/services/roomGeneration.service.ts:86-118 | a pass appends rooms of the category at the right price, in date order, on exactly the dates of the pass that had none |
| RoomGeneration.BatchStartIs | HotelService/src/services/roomGeneration.service.ts:49-64 | after j batches the loop is j batch lengths past the start date, or at the end if they reach it |
| RoomGeneration.FilledTwice | HotelService/src/services/roomGeneration.service.ts:86-118 | a pass that begins inside or right after an earlier one amounts to one longer pass |
| RoomGeneration.BatchesAreOnePass | HotelService/src/services/roomGeneration.service.ts:47-64 | the overlapping batches leave the same rows as one unbatched pass over the dates they cover |
| RoomGeneration.RestartEqualsOneRun | HotelService/src/services/roomGeneration.service.ts:49-118 | a run cut off after any number of batches and run again as far as any number, with any batch size, leaves the rows of one run over the dates covered; over covered dates a rerun creates nothing |
| RoomGeneration.RerunAfterCrash | HotelService/src/services/roomGeneration.service.ts:30-64 | a completed rerun of a cut-off job leaves the rows of one full run and a further rerun creates nothing; once the start date is past the rerun is refused and the rows stay as they were cut off, which after the last batch are those of the full run |
| RoomGeneration.BatchProgress | HotelService/src/services/roomGeneration.service.ts:49-64 | the batch loop advances iff the batch size is at least one whole day |
| RoomGeneration.FractionalBatchStalls | HotelService/src/services/roomGeneration.service.ts:45-63 | a batch size strictly between 0 and 1 leaves the loop where it is |
| RoomGeneration.RoomGenerationService.ProcessDateBatch | HotelService/src/services/roomGeneration.service.ts:75-124 | one batch is one pass over its closed date range: every row it appends is an unbooked, live row of the category at the override price if there is one other than 0 and else at the category's; its two counters are the rows added and the dates visited |
| RoomGeneration.RoomGenerationService.GenerateRooms | HotelService/src/services/roomGeneration.service.ts:13-73 | a completed run appends, at the right price, one room on each date start, start + 1 day, ... up to the end that had none, and no other row, and reports the rows added and floor(D) + ceil(D / batchSize) dates, the size being 100 by default; a refused job changes nothing; a cut-off run leaves the finished batches; the run fails to return iff it is accepted, not cut off and has a batch size below one day |
| RoomGeneration.RoomGenerationService.RunBatches | HotelService/src/services/roomGeneration.service.ts:47-70 | the batch loop terminates and its overlapping batches amount to one pass, counted exactly |
| RoomGeneration.RoomGenerationService.RunStalled | HotelService/src/services/roomGeneration.service.ts:49-64 | with a batch size below one day the first round fills the first date, no later round changes anything, and only a crash ends it |
| RoomScheduler.LatestOfInterval | HotelService/src/scheduler/roomScheduler.ts:67-68 | on a gap-free interval the MAX query returns its last date |
| RoomScheduler.JobCoversTwoDates | HotelService/src/scheduler/roomScheduler.ts:113-123 | the scheduler's one-day job visits exactly two dates |
| RoomScheduler.CheckReadiesJob | HotelService/src/scheduler/roomScheduler.ts:91-126 | the check of one category readies a job iff the category exists and has no room on the next date; its fields are those the code sets |
| RoomScheduler.QueueHoldsOneDayJobs | HotelService/src/scheduler/roomScheduler.ts:113-126 | in every run without posted jobs every job queued or about to be is a one-day job in batches of one day |
| RoomScheduler.WorkExtendsInterval | HotelService/src/services/roomGeneration.service.ts:86-118 | a pass that begins no later than the day after a category's dates, on their grid, and reaches them leaves a gap-free interval |
| RoomScheduler.StaysIntervalIffJoins | HotelService/src/services/roomGeneration.service.ts:86-118 | exactly such passes leave an interval: any other leaves a gap or rows on two grids |
| RoomScheduler.StepKeepsInv | HotelService/src/scheduler/roomScheduler.ts:65-134 | no event of ticks, workers (cut off or not), queue, bookings or joining posted jobs breaks the interval or makes a pending job leave a gap |
| RoomScheduler.EveryCutKeepsIntervalIffJoins | HotelService/src/services/roomGeneration.service.ts:49-64 | cut off after any number of its batches, an accepted job leaves an interval, iff its first batch joins the interval there was |
| RoomScheduler.DatesStayAnInterval | HotelService/src/scheduler/roomScheduler.ts:65-134 | in every run, with jobs delayed, duplicated, lost, redelivered, cut off after any batch, or posted with a first batch that joins the category's dates, those dates stay a gap-free interval with one row each that only grows |
| RoomScheduler.SchedulerJobMovesAtMostTwoDays | HotelService/src/services/roomGeneration.service.ts:86-110 | a worker step on a scheduler job, cut off or not, moves the last date by at most two days, never back |
| RoomScheduler.JobAddsAtMostTwoRows | HotelService/src/services/roomGeneration.service.ts:86-110 | one worker step on a scheduler job, cut off or not, appends at most two rows |
| RoomScheduler.SchedulerAloneMovesAtMostTwoDays | HotelService/src/scheduler/roomScheduler.ts:65-134 | in every run without posted jobs no event moves a category's last date back or by more than two days, or adds more than two rows |
| RoomScheduler.SchedulerExtendsIffNotBehind | HotelService/src/scheduler/roomScheduler.ts:91-134 | scheduler jobs can extend a category iff it exists and the day after its last date is not yet past |
| RoomScheduler.TickExtends | HotelService/src/scheduler/roomScheduler.ts:65-126 | for any category with a live row whose next date is not past, a tick and its job create the room on that date |
| RoomScheduler.PastDatesStay | HotelService/src/services/roomGeneration.service.ts:35-38 | a date that has passed without a room never gets one, whatever is scheduled or posted |
| RoomScheduler.StaleCategoryNeverRecovers | HotelService/src/services/roomGeneration.service.ts:35-38 | once the day after its last date is past, neither scheduler jobs nor posted jobs whose first batch joins the dates ever extend the category |
| RoomScheduler.PostedJobLeavesGap | HotelService/src/controllers/roomGeneration.controller.ts:6-15 | a job posted from today on gives such a category rooms and the scheduler goes on after them, but in every later state of every run the missed day has no room between dates that have one |
| RoomScheduler.NothingAfterTheLatest | HotelService/src/scheduler/roomScheduler.ts:106-111 | read at one moment, the existence check after the MAX query never finds a row |
| RoomScheduler.Scheduler.ExtendCategoryAvailability | HotelService/src/scheduler/roomScheduler.ts:91-134 | enqueues a job iff the category exists and has no room on the next date: from that date to the day after it, in batches of one day, at the category's price |
| RoomScheduler.Scheduler.ExtendRoomAvailability | HotelService/src/scheduler/roomScheduler.ts:65-86 | an uninterrupted tick enqueues exactly one job per existing category with a live row: from the day after its latest date to the day after that, in batches of one day, at its price |
| BookingProtocol.StepKeepsInv | BookingService/src/services/booking.service.ts:19-124 | every step of every call keeps keys and bookings one-to-one, the status consistent with the key, stamps pointing at existing bookings and calls apart |
| BookingProtocol.RunKeepsInv | BookingService/src/prisma/schema.prisma:16-39 | in every reachable state CONFIRMED implies a finalized key, finalized implies not PENDING, and keys and bookings are one-to-one |
| BookingConfirmation.FinalizedNeverReverts | BookingService/src/repositories/booking.repository.ts:89-99 | a key never disappears, never changes its booking, and never loses its finalized mark |
| BookingConfirmation.AtMostOneCommit | BookingService/src/services/booking.service.ts:106-124 | of any number of concurrent confirm transactions on one key at most one commits |
| BookingConfirmation.LaterConfirmIsRefused | BookingService/src/services/booking.service.ts:114-116 | a confirm that reads the key after the commit fails as already finalized and changes nothing |
| BookingConfirmation.UncommittedConfirmIsInvisible | BookingService/src/services/booking.service.ts:107-123 | a confirm that is open, refused or rolled back has changed no table |
| BookingConfirmation.OnlyCommitConfirms | BookingService/src/repositories/booking.repository.ts:58-68 | a booking becomes CONFIRMED only by the commit on its own key |
| BookingConfirmation.ConfirmedAtMostOnce | BookingService/src/services/booking.service.ts:106-124 | each booking enters CONFIRMED at most once |
| BookingConfirmation.FinalizedCancelledIsFinal | BookingService/src/services/booking.service.ts:82-124 | once the key is finalized the status can only become CANCELLED, and then stays |
| BookingConfirmation.OpenKeyConfirms | BookingService/src/services/booking.service.ts:107-122 | with an open key that no transaction has locked, four steps confirm a booking of any status, CANCELLED too, and give it no room back |
| BookingConfirmation.ConfirmableIffOpenKey | BookingService/src/services/booking.service.ts:82-124 | an unconfirmed booking, PENDING or CANCELLED, can still become CONFIRMED in some run iff an open key names it, even inside a transaction, or its create has still to insert one |
| RoomHandoff.TakesIffReadBeforeStandingStamp | BookingService/src/services/booking.service.ts:26-59 | a stamp takes a room from another booking iff an earlier stamp of it still stands and the availability read came before that stamp |
| RoomHandoff.HandoffWasReadEarlier | BookingService/src/services/booking.service.ts:26-59 | every handoff names its causes: the holder's stamp and, before it, the read of the call that takes over |
| RoomHandoff.ReadsAfterStampsAreSafe | BookingService/src/services/booking.service.ts:26-59 | if per room every read follows every earlier stamp, no room is ever taken from its holder |
| RoomHandoff.StampsDiffer | BookingService/src/services/booking.service.ts:45-59 | two stamps never carry the same booking |
| RoomHandoff.FinishCreate | BookingService/src/services/booking.service.ts:43-64 | a create that has read its rooms can always finish once it waits out the lock, and then has stamped exactly those rooms |
| RoomHandoff.OverlappingReadsDoubleBook | BookingService/src/services/booking.service.ts:26-59 | from any state with two creates that read the same free room, both can succeed in turn, the second taking the room from the first |
| BookingExamples.DoubleBookingHappens | BookingService/src/services/booking.service.ts:26-59 | a run from one free room sells it twice |
| BookingExamples.CancelLeakHappens | BookingService/src/services/booking.service.ts:45-88 | a run from one free room ends with a CANCELLED booking holding it |
| BookingExamples.CancelledThenConfirmedHappens | BookingService/src/services/booking.service.ts:82-124 | a run from one free room confirms a cancelled booking that holds nothing |
| BookingExamples.CancelledWithoutKeyHappens | BookingService/src/services/booking.service.ts:43-68 | a create that fails before its key leaves a booking that, once cancelled, no run ever confirms |
| RoomHolds.CancelledHoldsNothing | BookingService/src/services/booking.service.ts:82-103 | a booking cancelled only after its create ended holds no room whenever it is CANCELLED |
| RoomHolds.HoldsIffStampStands | BookingService/src/services/booking.service.ts:45-88 | in every reachable state a booking, CANCELLED or not, holds a room iff its create's stamp of the room still stands: not released and not stamped over since |
| RoomHolds.CancelCanLeakIffBeingCreated | BookingService/src/services/booking.service.ts:45-88 | a cancel has a continuation in which it returns and leaves its CANCELLED booking holding a room iff the booking was still being created, anywhere between insert and stamp, when the cancel checked it |
| RoomHolds.CancelDuringCreateLeaks | BookingService/src/services/booking.service.ts:45-88 | the leaking continuation, from either stage of the create |
| HotelLock.AcquisitionsAreSpaced | BookingService/src/services/booking.service.ts:22-44 | two acquisitions of one hotel's lock are at least the time to live apart, in every run |
| HotelLock.AcquisitionsPerWindow | BookingService/src/config/index.ts:21 | a window of length W holds at most floor(W / LOCK_TTL) + 1 acquisitions of one hotel's lock |
| StayCoverage.EnoughIffAtMostOneDateMissing | BookingService/src/services/booking.service.ts:37-41 | the availability check passes iff at most one date of the closed range has no free row |
| StayCoverage.StampCoversStay | BookingService/src/services/booking.service.ts:37-59 | an uninterrupted create ends holding rooms on at least as many dates as nights, all in the stay, so at most one date of the range is not held |
| StayCoverage.NightsCoveredIff | BookingService/src/services/booking.service.ts:37-41 | when the check passes, every night has a free row iff the check-out date has none or every date of the range has one |
| StayCoverage.NightsHeldIff | BookingService/src/services/booking.service.ts:37-59 | an uninterrupted create ends holding a room on every night iff that condition held when it read |
| StayCoverage.MissedNightMeansCheckOutCounted | BookingService/src/services/booking.service.ts:37-41 | when the check passes with a night missing, that night is the only date missing and the check-out date was counted |
| StayCoverage.SuccessCanMissANight | BookingService/src/services/booking.service.ts:37-41 | a two-night stay passes the check with nothing free on its second night |
| BookingService.Service.CreateBooking | BookingService/src/services/booking.service.ts:19-69 | is a run of the protocol; succeeds iff nothing fails, there is at least one free row and one for each day begun between check-in and check-out, the lock is free and the key is new; for lack of rooms it is a bad request; a refused or locked-out call changes nothing, a failed one stamps rooms only if the stamp itself took effect; on success the booking is PENDING with an open key, the hotel is locked for the time to live, exactly the free rows of the stay are stamped with it, and all but one date is covered |
| BookingService.EnoughIsPerDayBegun | BookingService/src/services/booking.service.ts:37-41 | the availability check passes iff there is a row and the rows, at 24 hours each, reach the length of the stay, whatever the times of day |
| BookingService.Service.ReserveRooms | BookingService/src/services/booking.service.ts:43-68 | the guarded part: lock, booking, key and stamp in this order, stopping at the first failure |
| BookingService.Service.CancelBooking | BookingService/src/services/booking.service.ts:82-104 | is a run of the protocol; succeeds iff the booking exists and is not CANCELLED and nothing fails; exactly the rows it held are then free, and no other booking's rooms change in any outcome |
| BookingService.Service.ConfirmBooking | BookingService/src/services/booking.service.ts:106-124 | is a run of the protocol; succeeds iff the key exists and is open and nothing fails, whatever the status; without a commit that took effect every table is as before |
| RatingAverage.FoldedIsMean | ReviewService/services/review_aggregate_rating_service.go:71-74 | folding batch by batch gives the plain mean of everything folded |
| RatingAverage.PartitionsAgree | ReviewService/services/review_aggregate_rating_service.go:71-74 | neither the order of the reviews nor where they are cut into batches matters |
| RatingAverage.RoundingStep | HotelService/src/db/migrations/20250818181221-added-ratings-hotel-table.ts:6-10 | the stored average is the weighted mean rounded to two decimals, halves upwards, which moves the stored total by at most half a hundredth per rating |
| RatingAverage.NewCentsInRange | ReviewService/db/migrations/20260216103732_create_review_table.sql:9 | ratings between 1 and 5 keep the rounded average between 1.00 and 5.00 |
| RatingLedger.DivisorIsPositive | ReviewService/services/review_aggregate_rating_service.go:73-74 | in every reachable state the divisor of the average is positive |
| RatingLedger.StepKeepsInv | ReviewService/services/review_aggregate_rating_service.go:33-97 | every step of the job and of review traffic keeps the books balanced |
| RatingLedger.LedgerBalances | ReviewService/services/review_aggregate_rating_service.go:34-96 | in every run, with failures and ties anywhere, a hotel's count and total are those of its counted reviews plus the batches whose update took effect but were not committed, and each counted review is in exactly one committed batch |
| RatingLoss.CountedIffFetched | ReviewService/services/review_aggregate_rating_service.go:45-91 | in every run a review is counted at a rating iff some commit's run found it unsynced, up to the cutoff and with that rating, when it last fetched |
| RatingLedger.StoredAverageDrift | ReviewService/services/review_aggregate_rating_service.go:71-76 | after k batches the stored average is within 0.005 * k of the true mean of everything counted and within 1.00 and 5.00 |
| RatingLedger.SkewIsBounded | ReviewService/README.md:692-696 | in every run the stored average is within 4u / (n + u) + 0.005 * k of the mean of the n counted reviews, where u ratings are in batches that took effect without being committed and k batches were folded in |
| RatingLoss.CommitLosesCaught | ReviewService/services/review_aggregate_rating_service.go:82-91 | a commit marks a review that was never counted iff the review appeared between the run's fetch and its mark of that hotel, with a creation time up to the cutoff |
| RatingLoss.ReviewLostIffLateInsert | ReviewService/db/repositories/review_aggregate_rating.repository.go:31-71 | in every run a review is marked without having been counted iff some commit has it as a late insert: inserted after the fetch and before the mark of its hotel, no later than the cutoff |
| RatingLoss.NoneLostIffNoLateInsert | ReviewService/db/repositories/review_aggregate_rating.repository.go:31-71 | no review is lost iff no commit has a late insert |
| RatingLoss.NoTiesLoseNothing | ReviewService/services/review_aggregate_rating_service.go:45-48 | in particular none is lost when no review is created in a second that a working run cut off at |
| RatingLoss.TieLosesReview | ReviewService/db/repositories/review_aggregate_rating.repository.go:65-71 | a review inserted in the cutoff second between update and mark is lost |
| RatingLoss.TieHappens | ReviewService/db/repositories/review_aggregate_rating.repository.go:65-71 | a run from an empty table loses a review |
| ReviewBatchProcessor.Processor.FetchUnappliedAggregates | ReviewService/db/repositories/review_aggregate_rating.repository.go:31-63 | exactly one aggregate for each hotel with an unsynced review up to the cutoff, soft-deleted ones included; each covers exactly those reviews at their ratings, with their number and the sum of the ratings |
| RatingProtocol.SumIsPoints | ReviewService/db/repositories/review_aggregate_rating.repository.go:33-36 | the sum of a batch is one for each rating of 1, two for each of 2, up to five for each of 5 |
| ReviewBatchProcessor.Processor.ProcessHotel | ReviewService/services/review_aggregate_rating_service.go:58-94 | for every fault, exactly what it leaves: the count grows by the batch and the average becomes the rounded weighted mean iff no fault comes before the update took effect; the pending reviews of the hotel are marked, and nothing else of them changes, iff none comes before the commit did; nothing else changes |
| ReviewBatchProcessor.Processor.ProcessHotels | ReviewService/services/review_aggregate_rating_service.go:57-95 | the loop does this for every fetched hotel in turn, whatever happened to the others |
| ReviewBatchProcessor.AtHotelsDone | ReviewService/services/review_aggregate_rating_service.go:57-95 | what the loop does, with any faults, is a run of the protocol |
| ReviewBatchProcessor.EachHotelOnce | ReviewService/services/review_aggregate_rating_service.go:57-78 | a faultless run folds each hotel's own pending reviews into its rating once and leaves every other rating alone |
| ReviewBatchProcessor.Processor.ProcessPendingRatings | ReviewService/services/review_aggregate_rating_service.go:33-97 | with the lock busy or a failed fetch nothing changes; otherwise it is a run of the protocol, frees the lock, and without faults marks every unsynced review up to the cutoff as counted at its rating, changes no other review, and folds into each hotel exactly those ratings |
| ReviewBatchProcessor.Processor.CreateReview | ReviewService/db/repositories/reviews.repository.go:30-57 | appends an unsynced review, refusing ratings outside 1 to 5 |
| ReviewBatchProcessor.Processor.UpdateReview | ReviewService/db/repositories/reviews.repository.go:106-127 | changes the rating of a live review and nothing else, and reports an update that changes nothing as not found |
| ReviewBatchProcessor.Processor.DeleteReview | ReviewService/db/repositories/reviews.repository.go:129-149 | a review is soft-deleted once, and stays in the books |
| HotelDocument.DocumentSummarisesCategories | HotelService/src/elasticsearch/hotel.transformer.ts:4-18 | the document takes over id, name, address, location, rating and rating count (0 for null) from the row; its price is the least non-null price of the categories (0 if none) and its room types are theirs, each once, in order of first occurrence |
| HotelIndex.EnqueueKeepsLast | HotelService/src/services/hotel.service.ts:11-21 | enqueueing a hotel's jobs in mutation order keeps which job of each hotel is last |
| HotelIndex.StepKeepsInv | HotelService/src/processors/hotelIndex.processor.ts:13-93 | every event of mutations, enqueues, worker, restarts and startup sync keeps what is known of every hotel |
| HotelIndex.LostIffNoneFollows | HotelService/src/services/hotel.service.ts:11-21 | a dropped job leaves its hotel's change lost iff no later job of the hotel follows |
| HotelIndex.LostOnlyIfDropped | HotelService/src/processors/hotelIndex.processor.ts:50-93 | in every run a hotel counts as lost only if some event dropped its latest job and the hotel was not changed since |
| HotelIndex.SettledHotelAgrees | HotelService/src/processors/hotelIndex.processor.ts:64-89 | in every reachable state a hotel with no job left and none lost is indexed iff active, if and only if it was not updated after its deletion; and a document of it in the index has the fields of its current row |
| HotelIndex.IndexAgreesWithTable | HotelService/src/services/hotel.service.ts:23-47 | without lost jobs and updates of deleted hotels, a settled hotel is in the index iff its row exists and is not deleted, and its document is that of the row, field by field |
| HotelIndex.UpdateRevivesDeleted | HotelService/src/services/hotel.service.ts:37-41 | from any quiet state an update of a deleted hotel puts it back into the index for good |
| HotelIndex.DeletedHotelComesBack | HotelService/src/services/hotel.service.ts:23-47 | a run from an empty system ends with a deleted hotel in the index and nothing left to do |
| HotelIndex.LostDeleteHappens | HotelService/src/services/hotel.service.ts:11-47 | a run from an empty system ends with a deleted hotel in the index, its delete job lost, and no run without another change to it takes it out |
| HotelIndex.RepairableIffActiveOrAbsent | HotelService/src/processors/hotelIndex.processor.ts:27-89 | from any state in which a hotel has no job left, lost or not, some run without a change to it brings the index into agreement with the table iff it is active or not in the index |
| HotelIndex.OnlyRestartRepairs | HotelService/src/processors/hotelIndex.processor.ts:50-93 | while the server runs, a hotel without jobs that nobody changes agrees with the table iff it did before |
| RatingIndex.RevivedInAnyRun | ReviewService/services/review_aggregate_rating_service.go:57-80 | in any run of the index in which a deleted hotel's only changes are the ratings the job stores, it is in the index once settled with no lost job iff the job got as far as updating it, and then with the rating and count the job left it with |
| RatingIndex.RatingJobRevivesDeleted | ReviewService/services/review_aggregate_rating_service.go:57-80 | undisturbed, a run of the rating job puts a deleted hotel back into the index iff it gets as far as updating it; if no fault stops it before, iff the hotel has a pending review |
| RatingIndex.StoredRuns | HotelService/src/services/hotel.service.ts:37-41 | storing the job's ratings one by one is a run of the index protocol |
| RatingIndex.WrittenIff | ReviewService/services/review_aggregate_rating_service.go:57-80 | the job stores a rating for a hotel iff the hotel exists and no fault comes before the update of one of its aggregates |
| RatingIndex.LastWriteStands | ReviewService/services/review_aggregate_rating_service.go:71-76 | the last rating written for a hotel is the one it has after the job; a hotel not written keeps its rating |
| HotelService.HotelService.CreateHotel | HotelService/src/services/hotel.service.ts:23-27 | the new row is active and an index job follows; if the queue is down the row stands and the job is lost |
| HotelService.HotelService.UpdateHotel | HotelService/src/services/hotel.service.ts:37-41 | each given field of the row takes the given value and every other stays, deleted or not, and an index job follows; an unknown hotel changes nothing |
| HotelService.HotelService.SoftDeleteHotel | HotelService/src/repositories/hotel.repository.ts:27-39 | the row stays, marked deleted, and a delete job follows; an unknown hotel is not found |
| HotelService.HotelService.ScheduleIndex | HotelService/src/services/hotel.service.ts:11-21 | the job is queued last, or it is lost and the mutation stands |
| HotelService.HotelService.FindAll | HotelService/src/repositories/hotel.repository.ts:11-25 | the active hotels, each once |
| HotelService.HotelService.HandleJob | HotelService/src/processors/hotelIndex.processor.ts:66-87 | the oldest job takes the document out, or puts in that of the row as it is now, field by field; a failed job changes nothing and is lost unless a later job of the hotel follows |
| HotelService.HotelService.HandleAllJobs | HotelService/src/processors/hotelIndex.processor.ts:64-89 | once the queue is empty every hotel without a lost job agrees with the table iff it was not updated after its deletion |
| HotelService.SyncedContents | HotelService/src/processors/hotelIndex.processor.ts:37-45 | indexing a list of hotels in turn makes exactly the listed ones whose request took effect current |
| HotelService.HotelService.IndexHotelNow | HotelService/src/processors/hotelIndex.processor.ts:13-23 | for a hotel on the list being synced: writes the document of its current row, field by field, deleted since or not, if the request takes effect; one that is gone is skipped without an error |
| HotelService.HotelService.SyncAllHotelsToES | HotelService/src/processors/hotelIndex.processor.ts:27-48 | writes the document of the current row, field by field, for every active hotel whose request takes effect, touches no other document, and counts the successes |
| HotelService.HotelService.SetupHotelIndexWorker | HotelService/src/processors/hotelIndex.processor.ts:50-96 | syncs if the search engine is up and starts the worker in any case |
| Search.BuildQuery | HotelService/src/services/search.service.ts:27-54 | the filters are pushed one by one into the compiled query |
| Search.CompiledSelectsWanted | HotelService/src/services/search.service.ts:27-54 | the compiled query selects exactly the documents that meet every given filter |
| Search.UnnamedSearchIsByRating | HotelService/src/services/search.service.ts:27-53 | without a name the hits come best rated first |
| Search.NamedSearchIsByMatch | HotelService/src/services/search.service.ts:27-53 | with a name the hits come best match first, and best rated first among equal matches |
| Search.PagesConcatenate | HotelService/src/services/search.service.ts:56-59 | pages 1 to k are the first k * size hits in order |
| Search.EveryHitOnOnePage | HotelService/src/services/search.service.ts:56-59 | every hit is on exactly one page |
| Search.SearchHotels | HotelService/src/services/search.service.ts:17-65 | for page and limit of at least 1 the answer is the hits at positions (page - 1) * size to page * size - 1, size being the limit but at most 50, by default page 1 and 10; a limit of 0 gives nothing; a negative offset or size, or an engine that is down, is an error |
| Search.SearchServesTheTable | HotelService/src/services/search.service.ts:27-59 | once every hotel is settled the hits are exactly the documents of the active hotels that meet the filters |
| Search.SearchFindsTheRows | HotelService/src/services/search.service.ts:27-59 | once every hotel is settled a hotel is found iff its row is active and the row and its categories meet the filters (and its text the name), and each hit has the fields of its row |
| UserRoles.CountIsSubsetTest | AuthServiceInGo/db/repositories/user_roles.go:158-180 | the distinct count equals the length of the list iff the list has no duplicates and every name is held |
| UserRoles.UserRoleRepository.HasAllRoles | AuthServiceInGo/db/repositories/user_roles.go:147-181 | true iff the list repeats no name and for each there is a row of the user with a role of that name (so always for the empty list) |
| UserRoles.UserRoleRepository.HasAnyRole | AuthServiceInGo/db/repositories/user_roles.go:183-212 | true iff the list is empty or some row of the user has a role with a listed name |
| UserRoles.AllImpliesAny | AuthServiceInGo/db/repositories/user_roles.go:147-212 | passing the check for all of a nonempty list implies passing it for any |
| UserRoles.UserRoleRepository.AssignRoleToUser | AuthServiceInGo/db/repositories/user_roles.go:59-78 | the user's rows become exactly the assigned one and everybody else's stay as often as they were there, or nothing changes |
| UserRoles.UserRoleRepository.RemoveRoleFromUser | AuthServiceInGo/db/repositories/user_roles.go:80-87 | no row for that user and role is left, however many there were; every other row is there as often as before |
| UserRoles.UserRoleRepository.CreateUser | AuthServiceInGo/db/repositories/user.go:132-172 | inserts the user and a row for the role named "user"; a failure in between leaves a user without a role |
| UserRoles.UserRoleRepository.SignUp | AuthServiceInGo/services/user_service.go:89-107 | an uninterrupted signup that succeeds adds the user and one row, with the role named "user"; one that fails adds that row or none |
| UserRoles.NamesFitRows | AuthServiceInGo/db/repositories/user_roles.go:158-162 | a user holds at most as many names as it has rows |
| UserRoles.AtMostOneRole | AuthServiceInGo/db/repositories/user.go:149-161 | in every run a user has at most two rows, and at most one unless it was assigned a role in the middle of its signup |
| UserRoles.TwoRolesIffDefaultBesideAnother | AuthServiceInGo/db/repositories/user.go:156-161 | a user with no two different roles comes to hold two exactly when its signup inserts the default role while it holds another |
| UserRoles.SecondRowIffDefaultAfterRole | AuthServiceInGo/db/repositories/user.go:156-161 | in rows, of the same role or not: a second row appears exactly when the default role is inserted for a user that has a row |
| UserRoles.RequiredRolesNeverBoth | AuthServiceInGo/db/repositories/user_roles.go:147-181 | two different required roles are never both held without such an assignment, three never |
| UserRoles.EarlyAssignGivesTwoRoles | AuthServiceInGo/services/user_service.go:89-107 | a role assigned between the two inserts of a signup is held beside the default role; if the signup then fails both stay, and if it finishes its own assignment leaves only the default role |
| UserRoles.TwoRolesReached | AuthServiceInGo/db/repositories/user.go:132-161 | a run from an empty table leaves a user with two roles and no signup under way |

## Left out

- RatingIndex.RatingJobRevivesDeleted: each stored rating is indexed before the next is stored, and no other mutation comes in between; `RevivedInAnyRun` is about every other order.
- RoomGeneration.RoomGenerationService.GenerateRooms: dates that do not parse and non-positive batch sizes, which the job schema refuses, are not modelled; the whole days of a fractional batch size are those `setDate` moves by.
- RoomScheduler.DatesStayAnInterval: the worker runs one generation job at a time, its finished batches as one step; two workers checking the same date at once could both create it. The first batch of a posted job is assumed to join the category's dates; any other can leave a gap (`EveryCutKeepsIntervalIffJoins`). Soft-deleting rooms is not part of this model.
- RatingLedger.LedgerBalances: the advisory lock belongs to one session per run; connection pooling around GET_LOCK is not modelled. Ratings written by anything else than the rating job, such as the hotel update endpoint, are not modelled.
- RatingLedger.StoredAverageDrift: arithmetic is exact except for the rounding of the stored column; float64 rounding is not modelled.
- BookingProtocol.StepKeepsInv: the UUID format check of a key and a key collision are not modelled beyond a new key being unused; bookings and rooms are never deleted.
- HotelLock.AcquisitionsPerWindow: the lock is one expiring entry per hotel; Redlock's quorum, clock drift factor and retries are an acquisition that happens late or not at all.
- HotelIndex.IndexAgreesWithTable: a hotel's enqueues reach the queue in mutation order, the queue is first in first out with one worker, and a hotel's categories do not change; the source enqueues nothing when a category changes.
- Search.SearchServesTheTable: how a text matches and scores is a parameter, ties are ordered the same for every page, ratings are exact, and the engine's limit on deep pages is not modelled. NaN and fractional page numbers are not modelled.
- UserRoles.AtMostOneRole: an assignment transaction is one atomic step, and role names are compared exactly (no collation).
- StayCoverage.StampCoversStay: dates are exact UTC midnights and a category has at most one row per date, which room generation keeps; for other check-in times see `EnoughIsPerDayBegun`.
- Starting, stopping and reporting on the cron task, and the manual trigger, which is a tick.
- The e-mail queued by a cancel, NotificationService, and the pending-booking expiry the documentation mentions but the code does not have.
- Routers, controllers, request validation, logging, rate limiting and the gateway.
- Login, tokens, password reset, permissions and the review queries that only read.
- Local time and daylight saving in date arithmetic: every date moves by whole UTC days.
