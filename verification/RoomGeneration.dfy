/** Room generation: nested date loops that fill a category's missing dates batch by batch. */
module RoomGeneration {
  import opened Wrappers
  import opened Rooms

  datatype RoomCategory = RoomCategory(id: nat, hotelId: nat, price: int)

  datatype RoomGenerationJob = RoomGenerationJob(
    roomCategoryId: nat, startDate: int, endDate: int, priceOverride: Option<int>, batchSize: Option<real>)

  const DEFAULT_BATCH_SIZE := 100

  /** The whole days `setDate` moves by: a missing or zero size means the default, a fraction is cut off. */
  function BatchDays(job: RoomGenerationJob): int {
    match job.batchSize
    case None => DEFAULT_BATCH_SIZE
    case Some(size) =>
      if size == 0.0 then DEFAULT_BATCH_SIZE
      else if size > 0.0 then size.Floor
      else -((-size).Floor)
  }

  /** A missing or zero override falls back to the category's price. */
  function PriceOf(category: RoomCategory, priceOverride: Option<int>): int {
    if priceOverride.GetOr(0) != 0 then priceOverride.value else category.price
  }

  /** The number of dates `start, start + 1 day, ...` up to and including `end`. */
  function DatesIn(start: int, end: int): nat
    requires start <= end
  {
    (end - start) / MS_PER_DAY + 1
  }

  // ---------------------------------------------------------------- one unbatched pass

  /** The first `n` dates from `start` on which the category has no live row. */
  function Missing(rows: seq<Room>, category: nat, start: int, n: nat): (dates: seq<int>)
    ensures |dates| <= n
  {
    if n == 0 then []
    else
      var rest := Missing(rows, category, start, n - 1);
      if HasRoom(rows, category, Day(start, n - 1)) then rest else rest + [Day(start, n - 1)]
  }

  /** `date` is one of the `n` dates from `start`. */
  predicate InPass(start: int, n: nat, date: int) {
    exists k :: 0 <= k < n && date == Day(start, k)
  }

  /** Missing lists, in increasing order, exactly the dates of the pass without a live row. */
  lemma {:induction false} MissingContents(rows: seq<Room>, category: nat, start: int, n: nat)
    ensures forall d :: d in Missing(rows, category, start, n) <==> InPass(start, n, d) && !HasRoom(rows, category, d)
    ensures forall i, j :: 0 <= i < j < |Missing(rows, category, start, n)| ==>
              Missing(rows, category, start, n)[i] < Missing(rows, category, start, n)[j]
  {
    if n == 0 {
    } else {
      MissingContents(rows, category, start, n - 1);
      var rest := Missing(rows, category, start, n - 1);
      var last := Day(start, n - 1);
      assert InPass(start, n, last);
      forall d
        ensures InPass(start, n, d) <==> InPass(start, n - 1, d) || d == last
      {
        if InPass(start, n, d) {
          var k :| 0 <= k < n && d == Day(start, k);
        }
        if InPass(start, n - 1, d) {
          var k :| 0 <= k < n - 1 && d == Day(start, k);
        }
      }
      forall i | 0 <= i < |rest|
        ensures rest[i] < last
      {
        assert rest[i] in rest;
      }
    }
  }

  function NewRooms(category: RoomCategory, price: int, dates: seq<int>): (r: seq<Room>)
    ensures |r| == |dates|
  {
    seq(|dates|, i requires 0 <= i < |dates| =>
      Room(category.hotelId, category.id, dates[i], price, None, false))
  }

  /** The table after one pass over `n` dates from `start`: a row is appended for every missing date. */
  function Filled(rows: seq<Room>, category: RoomCategory, price: int, start: int, n: nat): seq<Room> {
    rows + NewRooms(category, price, Missing(rows, category.id, start, n))
  }

  /** After a pass the category has a live row on exactly the old dates and the dates of the pass. */
  lemma FilledHasRoom(rows: seq<Room>, category: RoomCategory, price: int, start: int, n: nat, c: nat, date: int)
    ensures HasRoom(Filled(rows, category, price, start, n), c, date) <==>
            HasRoom(rows, c, date) || (c == category.id && InPass(start, n, date))
  {
    var missing := Missing(rows, category.id, start, n);
    var filled := Filled(rows, category, price, start, n);
    MissingContents(rows, category.id, start, n);
    if HasRoom(filled, c, date) {
      var i :| 0 <= i < |filled| && IsLive(filled[i], c, date);
      if i < |rows| {
        assert IsLive(rows[i], c, date);
      } else {
        assert date == missing[i - |rows|];
      }
    }
    if HasRoom(rows, c, date) {
      var i :| 0 <= i < |rows| && IsLive(rows[i], c, date);
      assert IsLive(filled[i], c, date);
    } else if c == category.id && InPass(start, n, date) {
      var j :| 0 <= j < |missing| && missing[j] == date;
      assert IsLive(filled[|rows| + j], c, date);
    }
  }

  /**
   What a pass means. Old rows are unchanged; a date of the pass that had no live row of the category
   has exactly one; every other date, and every other category, keeps the rows it had.
   */
  lemma FilledOncePerDate(rows: seq<Room>, category: RoomCategory, price: int, start: int, n: nat, c: nat, date: int)
    ensures rows <= Filled(rows, category, price, start, n)
    ensures var filled := Filled(rows, category, price, start, n);
            if c == category.id && InPass(start, n, date) && !HasRoom(rows, c, date)
            then |LiveIds(filled, c, date)| == 1
            else LiveIds(filled, c, date) == LiveIds(rows, c, date)
  {
    var missing := Missing(rows, category.id, start, n);
    var filled := Filled(rows, category, price, start, n);
    MissingContents(rows, category.id, start, n);
    assert forall i :: 0 <= i < |rows| ==> filled[i] == rows[i];
    if c == category.id && InPass(start, n, date) && !HasRoom(rows, c, date) {
      var j :| 0 <= j < |missing| && missing[j] == date;
      assert LiveIds(filled, c, date) == {|rows| + j};
    } else {
      forall i | |rows| <= i < |filled|
        ensures !IsLive(filled[i], c, date)
      {
        assert missing[i - |rows|] in missing;
      }
      assert forall i: nat :: i in LiveIds(filled, c, date) <==> i in LiveIds(rows, c, date);
    }
  }

  /** A new, free row of the category, at the override if there is one other than 0 and else at the category's price. */
  predicate IsNewRoomOf(room: Room, category: RoomCategory, priceOverride: Option<int>) {
    && room.hotelId == category.hotelId && room.roomCategoryId == category.id
    && room.bookingId == None && !room.deleted
    && room.price == if priceOverride.Some? && priceOverride.value != 0 then priceOverride.value else category.price
  }

  /**
   `after` is `before` followed by new rooms of the category, in order of their dates, each on a date that had
   none: a date from `start` on, whole days away from it and not after `end`.
   */
  ghost predicate AppendsRooms(before: seq<Room>, after: seq<Room>, category: RoomCategory, priceOverride: Option<int>,
                               start: int, end: int) {
    && before <= after
    && (forall k :: |before| <= k < |after| ==>
          && IsNewRoomOf(after[k], category, priceOverride)
          && start <= after[k].date <= end && (after[k].date - start) % 86_400_000 == 0
          && !HasRoom(before, category.id, after[k].date))
    && (forall k, l :: |before| <= k < l < |after| ==> after[k].date < after[l].date)
  }

  /** And then every such date has a room. */
  ghost predicate FillsDates(before: seq<Room>, after: seq<Room>, category: RoomCategory, priceOverride: Option<int>,
                             start: int, end: int) {
    && AppendsRooms(before, after, category, priceOverride, start, end)
    && forall date :: start <= date <= end && (date - start) % 86_400_000 == 0 ==> HasRoom(after, category.id, date)
  }

  lemma PassDatesAre(start: int, n: nat, end: int, date: int)
    requires Day(start, n - 1) <= end
    ensures InPass(start, n, date) ==> start <= date <= end && (date - start) % 86_400_000 == 0
    ensures start <= date <= end < Day(start, n) && (date - start) % 86_400_000 == 0 ==> InPass(start, n, date)
  {
    if start <= date <= end < Day(start, n) && (date - start) % 86_400_000 == 0 {
      assert date == Day(start, (date - start) / 86_400_000);
    }
  }

  lemma FilledAppends(rows: seq<Room>, category: RoomCategory, priceOverride: Option<int>, start: int, n: nat, end: int)
    requires Day(start, n - 1) <= end
    ensures var filled := Filled(rows, category, PriceOf(category, priceOverride), start, n);
            && AppendsRooms(rows, filled, category, priceOverride, start, end)
            && (end < Day(start, n) ==> FillsDates(rows, filled, category, priceOverride, start, end))
  {
    var missing, filled := Missing(rows, category.id, start, n), Filled(rows, category, PriceOf(category, priceOverride), start, n);
    MissingContents(rows, category.id, start, n);
    forall k | |rows| <= k < |filled|
      ensures filled[k].date == missing[k - |rows|] && InPass(start, n, filled[k].date)
      ensures start <= filled[k].date <= end && (filled[k].date - start) % 86_400_000 == 0
      ensures !HasRoom(rows, category.id, filled[k].date)
    {
      assert missing[k - |rows|] in missing;
      PassDatesAre(start, n, end, filled[k].date);
    }
    if end < Day(start, n) {
      forall date | start <= date <= end && (date - start) % 86_400_000 == 0
        ensures HasRoom(filled, category.id, date)
      {
        PassDatesAre(start, n, end, date);
        FilledHasRoom(rows, category, PriceOf(category, priceOverride), start, n, category.id, date);
      }
    }
  }

  // ---------------------------------------------------------------- passes compose

  lemma {:induction false} MissingAppend(
      rows: seq<Room>, category: RoomCategory, price: int, start: int, a: nat, b: nat, c: nat)
    requires b <= a
    ensures Missing(rows, category.id, start, if b + c > a then b + c else a)
         == Missing(rows, category.id, start, a)
          + Missing(Filled(rows, category, price, start, a), category.id, Day(start, b), c)
  {
    if c == 0 {
    } else {
      MissingAppend(rows, category, price, start, a, b, c - 1);
      var next := Day(start, b + c - 1);
      assert Day(Day(start, b), c - 1) == next;
      FilledHasRoom(rows, category, price, start, a, category.id, next);
      if InPass(start, a, next) {
        var k :| 0 <= k < a && next == Day(start, k);
        assert k == b + c - 1;
      } else {
        assert !(b + c - 1 < a);
      }
    }
  }

  /** A second pass that begins inside (or right after) the first only adds what the first did not cover. */
  lemma FilledTwice(rows: seq<Room>, category: RoomCategory, price: int, start: int, a: nat, b: nat, c: nat)
    requires b <= a
    ensures Filled(Filled(rows, category, price, start, a), category, price, Day(start, b), c)
         == Filled(rows, category, price, start, if b + c > a then b + c else a)
  {
    MissingAppend(rows, category, price, start, a, b, c);
  }

  /** A pass over dates that are all there creates nothing. */
  lemma FilledAgainCreatesNothing(rows: seq<Room>, category: RoomCategory, price: int, start: int, n: nat, m: nat)
    requires m <= n
    ensures Missing(Filled(rows, category, price, start, n), category.id, start, m) == []
  {
    MissingAppend(rows, category, price, start, n, 0, m);
  }

  // ---------------------------------------------------------------- the batch loop

  /** Where the batch that begins at `current` ends. */
  function BatchEnd(current: int, end: int, days: int): int {
    if Day(current, days) > end then end else Day(current, days)
  }

  /** The batch loop moves forward exactly when the batch size covers a whole day. */
  lemma BatchProgress(current: int, end: int, days: int)
    requires current < end
    ensures BatchEnd(current, end, days) > current <==> days >= 1
  {
  }

  /** A size strictly between 0 and 1, which the request schema lets through, never moves the loop. */
  lemma FractionalBatchStalls(job: RoomGenerationJob, size: real)
    requires job.batchSize == Some(size) && 0.0 < size < 1.0
    requires job.startDate < job.endDate
    ensures BatchEnd(job.startDate, job.endDate, BatchDays(job)) == job.startDate
  {
    assert size.Floor == 0;
  }

  /** The value of `currentDate` after `j` batches. */
  function BatchStart(start: int, end: int, days: int, j: nat): int {
    if j == 0 then start else BatchEnd(BatchStart(start, end, days, j - 1), end, days)
  }

  /** That is `j` batches of whole days from the start, or the end if they reach it. */
  lemma {:induction false} BatchStartIs(start: int, end: int, days: int, j: nat)
    requires start <= end && days >= 1
    ensures BatchStart(start, end, days, j) == var at := start + j * (days * 86_400_000); if at > end then end else at
  {
    if j == 0 {
    } else {
      BatchStartIs(start, end, days, j - 1);
      assert j * (days * 86_400_000) == (j - 1) * (days * 86_400_000) + days * 86_400_000;
    }
  }

  /** The table after `j` batches, the last date of each being the first date of the next. */
  function AfterBatches(rows: seq<Room>, category: RoomCategory, price: int,
                        start: int, end: int, days: int, j: nat): seq<Room>
    requires start <= end && days >= 1
  {
    if j == 0 then rows
    else
      BatchStartBounds(start, end, days, j - 1);
      var from := BatchStart(start, end, days, j - 1);
      var before := AfterBatches(rows, category, price, start, end, days, j - 1);
      if from < end
      then Filled(before, category, price, from, DatesIn(from, BatchEnd(from, end, days)))
      else before
  }

  /** `currentDate` stays on the grid of whole days from the start until it reaches the end. */
  lemma {:induction false} BatchStartBounds(start: int, end: int, days: int, j: nat)
    requires start <= end && days >= 1
    ensures start <= BatchStart(start, end, days, j) <= end
    ensures j > 0 && start < end ==> start < BatchStart(start, end, days, j)
    ensures BatchStart(start, end, days, j) == end || (BatchStart(start, end, days, j) - start) % MS_PER_DAY == 0
  {
    if j == 0 {
    } else {
      BatchStartBounds(start, end, days, j - 1);
    }
  }

  /** Counting the dates of a pass in two parts that meet on its grid. */
  lemma DatesInSplit(start: int, middle: int, end: int)
    requires start <= middle <= end && (middle - start) % MS_PER_DAY == 0
    ensures DatesIn(start, end) == (middle - start) / MS_PER_DAY + DatesIn(middle, end)
    ensures Day(start, (middle - start) / MS_PER_DAY) == middle
  {
  }

  /** How many dates `j` batches have covered. */
  function Covered(start: int, end: int, days: int, j: nat): nat
    requires start < end && days >= 1
  {
    BatchStartBounds(start, end, days, j);
    if j == 0 then 0 else DatesIn(start, BatchStart(start, end, days, j))
  }

  /** One more batch after a pass that reached its first date. */
  lemma NextBatch(rows: seq<Room>, category: RoomCategory, price: int, start: int, covered: nat, from: int, to: int)
    requires start <= from <= to && (from - start) % MS_PER_DAY == 0
    requires covered == if from == start then 0 else DatesIn(start, from)
    ensures Filled(Filled(rows, category, price, start, covered), category, price, from, DatesIn(from, to))
         == Filled(rows, category, price, start, DatesIn(start, to))
  {
    DatesInSplit(start, from, to);
    FilledTwice(rows, category, price, start, covered, (from - start) / MS_PER_DAY, DatesIn(from, to));
  }

  /** Overlapping batches amount to one pass over the dates they cover. */
  lemma {:induction false} BatchesAreOnePass(rows: seq<Room>, category: RoomCategory, price: int,
                                             start: int, end: int, days: int, j: nat)
    requires start < end && days >= 1
    ensures AfterBatches(rows, category, price, start, end, days, j)
         == Filled(rows, category, price, start, Covered(start, end, days, j))
    ensures Covered(start, end, days, j) <= DatesIn(start, end)
  {
    BatchStartBounds(start, end, days, j);
    if j > 0 {
      BatchesAreOnePass(rows, category, price, start, end, days, j - 1);
      BatchStartBounds(start, end, days, j - 1);
      var from := BatchStart(start, end, days, j - 1);
      if from < end {
        NextBatch(rows, category, price, start, Covered(start, end, days, j - 1), from, BatchEnd(from, end, days));
      }
    }
  }

  /** Once the loop has reached the end, its batches have covered every date of the job. */
  lemma CompletedCoversAll(start: int, end: int, days: int, k: nat)
    requires start < end && days >= 1 && BatchStart(start, end, days, k) == end
    ensures Covered(start, end, days, k) == DatesIn(start, end)
  {
  }

  /** Any number of batches but none covers at least the dates of the first, and at most all. */
  lemma {:induction false} CoveredGrows(start: int, end: int, days: int, j: nat)
    requires start < end && days >= 1 && j >= 1
    ensures 1 <= Covered(start, end, days, 1) <= Covered(start, end, days, j) <= DatesIn(start, end)
  {
    BatchStartBounds(start, end, days, 1);
    BatchStartBounds(start, end, days, j);
    if j > 1 {
      CoveredGrows(start, end, days, j - 1);
      BatchStartBounds(start, end, days, j - 1);
    }
  }

  /**
   Restart. A run cut off after any number of batches and then run again, with any batch size and as
   far as `k` batches, leaves the table of a single run that got as far as the longer of the two; once
   the dates are covered a rerun finds nothing to create.
   */
  lemma RestartEqualsOneRun(rows: seq<Room>, category: RoomCategory, price: int,
                            start: int, end: int, days: int, j: nat, again: int, k: nat)
    requires start < end && days >= 1 && again >= 1
    ensures var cut := AfterBatches(rows, category, price, start, end, days, j);
            var a, b := Covered(start, end, days, j), Covered(start, end, again, k);
            && AfterBatches(cut, category, price, start, end, again, k)
               == Filled(rows, category, price, start, if a > b then a else b)
            && (b <= a ==> Missing(cut, category.id, start, b) == [])
  {
    var a, b := Covered(start, end, days, j), Covered(start, end, again, k);
    BatchesAreOnePass(rows, category, price, start, end, days, j);
    var cut := Filled(rows, category, price, start, a);
    BatchesAreOnePass(cut, category, price, start, end, again, k);
    RefilledIsFilled(rows, category, price, start, a, b);
  }

  lemma RefilledIsFilled(rows: seq<Room>, category: RoomCategory, price: int, start: int, a: nat, b: nat)
    ensures var cut := Filled(rows, category, price, start, a);
            && Filled(cut, category, price, start, b) == Filled(rows, category, price, start, if a > b then a else b)
            && (b <= a ==> Missing(cut, category.id, start, b) == [])
  {
    assert Day(start, 0) == start;
    FilledTwice(rows, category, price, start, a, 0, b);
    if b <= a {
      FilledAgainCreatesNothing(rows, category, price, start, a, b);
    }
  }

  // ---------------------------------------------------------------- the service

  datatype Outcome =
    | Done(totalRoomsCreated: nat, totalDatesProcessed: nat)
    | Failed(error: AppError)
    | Interrupted
    | Stalled                           // never returns: the batch loop stays where it is

  /** How many dates a job visits; with a batch size below one day it never gets past the first. */
  function DatesOf(job: RoomGenerationJob): nat
    requires job.startDate < job.endDate
  {
    if BatchDays(job) >= 1 then DatesIn(job.startDate, job.endDate) else 1
  }

  /** The table a run that is not cut off leaves; one that stalls has done its first date. */
  function Generated(rows: seq<Room>, categories: map<nat, RoomCategory>, job: RoomGenerationJob, now: int): seq<Room> {
    if job.roomCategoryId !in categories || job.startDate >= job.endDate || job.startDate < now then rows
    else
      var category := categories[job.roomCategoryId];
      Filled(rows, category, PriceOf(category, job.priceOverride), job.startDate, DatesOf(job))
  }

  /** How many dates the first `j` batches of a job visit. */
  function CutDates(job: RoomGenerationJob, j: nat): nat
    requires job.startDate < job.endDate
  {
    if BatchDays(job) >= 1 then Covered(job.startDate, job.endDate, BatchDays(job), j)
    else if j == 0 then 0
    else 1
  }

  /** The table a run leaves that is cut off after `j` batches. */
  function CutOff(rows: seq<Room>, categories: map<nat, RoomCategory>, job: RoomGenerationJob, now: int, j: nat): seq<Room> {
    if job.roomCategoryId !in categories || job.startDate >= job.endDate || job.startDate < now then rows
    else
      var category := categories[job.roomCategoryId];
      var price := PriceOf(category, job.priceOverride);
      if BatchDays(job) >= 1 then AfterBatches(rows, category, price, job.startDate, job.endDate, BatchDays(job), j)
      else if j == 0 then rows
      else Filled(rows, category, price, job.startDate, 1)
  }

  lemma CutIsPass(rows: seq<Room>, categories: map<nat, RoomCategory>, job: RoomGenerationJob, now: int, j: nat)
    requires job.roomCategoryId in categories && now <= job.startDate < job.endDate
    ensures var category := categories[job.roomCategoryId];
            CutOff(rows, categories, job, now, j) ==
              Filled(rows, category, PriceOf(category, job.priceOverride), job.startDate, CutDates(job, j))
  {
    var category := categories[job.roomCategoryId];
    var price := PriceOf(category, job.priceOverride);
    if BatchDays(job) >= 1 {
      BatchesAreOnePass(rows, category, price, job.startDate, job.endDate, BatchDays(job), j);
    }
  }

  lemma CutDatesGrow(job: RoomGenerationJob, j: nat)
    requires job.startDate < job.endDate && j >= 1
    ensures 1 <= CutDates(job, 1) <= CutDates(job, j) <= DatesOf(job)
  {
    if BatchDays(job) >= 1 {
      CoveredGrows(job.startDate, job.endDate, BatchDays(job), j);
    }
  }

  lemma DatesInReachEnd(start: int, end: int, n: nat)
    requires start <= end && n <= DatesIn(start, end)
    ensures Day(start, n - 1) <= end && (n == DatesIn(start, end) ==> end < Day(start, n))
  {
  }

  lemma GeneratedAppends(rows: seq<Room>, categories: map<nat, RoomCategory>, job: RoomGenerationJob, now: int)
    requires job.roomCategoryId in categories && now <= job.startDate < job.endDate
    ensures var category, after := categories[job.roomCategoryId], Generated(rows, categories, job, now);
            && AppendsRooms(rows, after, category, job.priceOverride, job.startDate, job.endDate)
            && (BatchDays(job) >= 1 ==> FillsDates(rows, after, category, job.priceOverride, job.startDate, job.endDate))
  {
    DatesInReachEnd(job.startDate, job.endDate, DatesOf(job));
    FilledAppends(rows, categories[job.roomCategoryId], job.priceOverride, job.startDate, DatesOf(job), job.endDate);
  }

  lemma CutOffAppends(rows: seq<Room>, categories: map<nat, RoomCategory>, job: RoomGenerationJob, now: int, j: nat)
    requires job.roomCategoryId in categories && now <= job.startDate < job.endDate
    ensures AppendsRooms(rows, CutOff(rows, categories, job, now, j), categories[job.roomCategoryId], job.priceOverride,
                         job.startDate, job.endDate)
  {
    CutIsPass(rows, categories, job, now, j);
    if j > 0 {
      CutDatesGrow(job, j);
    }
    DatesInReachEnd(job.startDate, job.endDate, CutDates(job, j));
    FilledAppends(rows, categories[job.roomCategoryId], job.priceOverride, job.startDate, CutDates(job, j), job.endDate);
  }

  /** The whole days of a batch: 100 if no size is given or it is 0, else what is before the decimal point. */
  lemma BatchDaysAre(job: RoomGenerationJob)
    requires job.batchSize.Some? ==> job.batchSize.value > 0.0
    ensures BatchDays(job) == if job.batchSize == None then 100 else job.batchSize.value.Floor
    ensures BatchDays(job) >= 0
    ensures BatchDays(job) == 0 <==> job.batchSize.Some? && job.batchSize.value < 1.0
  {
  }

  /**
   A completed run reports every whole day between its dates, and one more for each of its batches, since each
   includes the date the next begins with.
   */
  predicate CountsDates(job: RoomGenerationJob, processed: int) {
    var span, days := job.endDate - job.startDate, if job.batchSize == None then 100 else job.batchSize.value.Floor;
    var batches := processed - span / 86_400_000;
    days >= 1 && (batches - 1) * (days * 86_400_000) < span <= batches * (days * 86_400_000)
  }

  /** After `batches` batches of the given length the loop is that far from the start, or at the end. */
  predicate AtBatch(start: int, end: int, length: int, current: int, batches: nat) {
    && start <= current <= end && (batches > 0 ==> start < current)
    && (current < end ==> current - start == batches * length)
    && (current == end ==> (batches - 1) * length < end - start <= batches * length)
  }

  lemma NextAtBatch(start: int, end: int, length: int, current: int, batches: nat, next: int)
    requires AtBatch(start, end, length, current, batches) && current < end && length > 0
    requires next == if current + length > end then end else current + length
    ensures AtBatch(start, end, length, next, batches + 1)
  {
    assert (batches + 1) * length == batches * length + length;
  }

  /** The batch loop has done `batches` batches and stands at `current`. */
  ghost predicate BatchesDone(before: seq<Room>, rows: seq<Room>, category: RoomCategory, price: int,
                              start: int, end: int, days: int, batches: nat, current: int)
    requires start < end && days >= 1
  {
    && current == BatchStart(start, end, days, batches) && AtBatch(start, end, days * MS_PER_DAY, current, batches)
    && rows == AfterBatches(before, category, price, start, end, days, batches)
  }

  lemma BatchDone(before: seq<Room>, category: RoomCategory, price: int,
                  start: int, end: int, days: int, batches: nat, current: int, next: int)
    requires start < end && days >= 1 && current < end && next == BatchEnd(current, end, days)
    requires var rows := AfterBatches(before, category, price, start, end, days, batches);
             BatchesDone(before, rows, category, price, start, end, days, batches, current)
    ensures current < next <= end
    ensures var rows := AfterBatches(before, category, price, start, end, days, batches);
            BatchesDone(before, Filled(rows, category, price, current, DatesIn(current, next)), category, price,
                        start, end, days, batches + 1, next)
    ensures (next - start) / MS_PER_DAY + 1 == (current - start) / MS_PER_DAY + DatesIn(current, next)
  {
    BatchStartBounds(start, end, days, batches);
    NextAtBatch(start, end, days * MS_PER_DAY, current, batches, next);
    DatesInSplit(start, current, next);
  }

  /** Once the loop is at the end, its batches amount to one pass over all the dates. */
  lemma AllBatchesDone(before: seq<Room>, rows: seq<Room>, category: RoomCategory, price: int,
                       start: int, end: int, days: int, batches: nat)
    requires start < end && days >= 1 && BatchesDone(before, rows, category, price, start, end, days, batches, end)
    ensures rows == Filled(before, category, price, start, DatesIn(start, end))
    ensures CeilDiv(end - start, days * MS_PER_DAY) == batches
  {
    BatchesAreOnePass(before, category, price, start, end, days, batches);
    CompletedCoversAll(start, end, days, batches);
    CeilDivIs(end - start, days * MS_PER_DAY, batches);
  }

  lemma CountedDates(job: RoomGenerationJob)
    requires job.startDate < job.endDate && BatchDays(job) >= 1 && (job.batchSize.Some? ==> job.batchSize.value > 0.0)
    ensures CountsDates(job, (job.endDate - job.startDate) / MS_PER_DAY
                             + CeilDiv(job.endDate - job.startDate, BatchDays(job) * MS_PER_DAY))
  {
    BatchDaysAre(job);
    CeilDivAtMost(job.endDate - job.startDate, BatchDays(job) * MS_PER_DAY, 0);
  }

  /**
   A run cut off after `j` batches and then run again later, to its end, leaves the table of one uninterrupted
   run, and a further rerun creates nothing; if it was cut off only after its last batch, it was such a run. But a
   rerun after the start date has passed is refused, and the table stays as it was cut off.
   */
  lemma RerunAfterCrash(rows: seq<Room>, categories: map<nat, RoomCategory>, job: RoomGenerationJob, now: int, later: int, j: nat)
    requires job.roomCategoryId in categories && categories[job.roomCategoryId].id == job.roomCategoryId
    requires now <= job.startDate < job.endDate && BatchDays(job) >= 1
    ensures var category := categories[job.roomCategoryId];
            var cut := AfterBatches(rows, category, PriceOf(category, job.priceOverride),
                                    job.startDate, job.endDate, BatchDays(job), j);
            var full := Generated(rows, categories, job, now);
            && Generated(cut, categories, job, later) == (if job.startDate < later then cut else full)
            && (BatchStart(job.startDate, job.endDate, BatchDays(job), j) == job.endDate ==> cut == full)
            && Generated(full, categories, job, later) == full
  {
    var category := categories[job.roomCategoryId];
    var price := PriceOf(category, job.priceOverride);
    var start, end, days := job.startDate, job.endDate, BatchDays(job);
    BatchesAreOnePass(rows, category, price, start, end, days, j);
    if BatchStart(start, end, days, j) == end && j > 0 {
      CompletedCoversAll(start, end, days, j);
    }
    RefilledIsFilled(rows, category, price, start, Covered(start, end, days, j), DatesIn(start, end));
    RefilledIsFilled(rows, category, price, start, DatesIn(start, end), DatesIn(start, end));
  }

  class RoomGenerationService {
    const roomRepository: RoomRepository
    var categories: map<nat, RoomCategory>

    constructor (roomRepository: RoomRepository, categories: map<nat, RoomCategory>)
      ensures this.roomRepository == roomRepository && this.categories == categories
    {
      this.roomRepository := roomRepository;
      this.categories := categories;
    }

    method ProcessDateBatch(category: RoomCategory, startDate: int, endDate: int, priceOverride: Option<int>)
      returns (roomsCreated: nat, datesProcessed: nat)
      requires startDate <= endDate
      modifies roomRepository
      ensures datesProcessed == DatesIn(startDate, endDate)
      ensures roomRepository.rows
           == Filled(old(roomRepository.rows), category, PriceOf(category, priceOverride), startDate, datesProcessed)
      ensures roomsCreated == |roomRepository.rows| - |old(roomRepository.rows)|
      ensures datesProcessed == (endDate - startDate) / 86_400_000 + 1
      ensures old(roomRepository.rows) <= roomRepository.rows
      ensures forall k :: |old(roomRepository.rows)| <= k < |roomRepository.rows| ==>
                IsNewRoomOf(roomRepository.rows[k], category, priceOverride)
    {
      DatesInReachEnd(startDate, endDate, DatesIn(startDate, endDate));
      FilledAppends(roomRepository.rows, category, priceOverride, startDate, DatesIn(startDate, endDate), endDate);
      roomsCreated, datesProcessed := 0, 0;
      var roomsToCreate: seq<Room> := [];
      var currentDate := startDate;
      var price := PriceOf(category, priceOverride);
      while currentDate <= endDate
        invariant currentDate == Day(startDate, datesProcessed)
        invariant currentDate - MS_PER_DAY <= endDate
        invariant roomRepository.rows == old(roomRepository.rows)
        invariant roomsToCreate
               == NewRooms(category, price, Missing(roomRepository.rows, category.id, startDate, datesProcessed))
        decreases endDate - currentDate
      {
        var existingRoom := roomRepository.FindByRoomCategoryIdAndDate(category.id, currentDate);
        if existingRoom.None? {
          roomsToCreate := roomsToCreate + [Room(category.hotelId, category.id, currentDate, price, None, false)];
        }
        currentDate := currentDate + MS_PER_DAY;
        datesProcessed := datesProcessed + 1;
      }
      if |roomsToCreate| > 0 {
        roomRepository.BulkCreate(roomsToCreate);
        roomsCreated := roomsCreated + |roomsToCreate|;
      }
    }

    /**
     `crashAfter` is the number of batches after which the process dies, if it does. A completed run
     leaves the table of one unbatched pass and reports exact counters; a cut-off run leaves the table
     of the batches it finished; a refused job changes nothing. The run never returns exactly when the batch
     size is below one day. The request schema admits only positive sizes.
     */
    method GenerateRooms(job: RoomGenerationJob, now: int, crashAfter: Option<nat>) returns (outcome: Outcome)
      requires job.batchSize.Some? ==> job.batchSize.value > 0.0
      requires forall c :: c in categories ==> categories[c].id == c
      modifies roomRepository
      ensures job.roomCategoryId !in categories ==> outcome == Failed(NotFound)
      ensures job.roomCategoryId in categories && (job.startDate >= job.endDate || job.startDate < now) ==>
                outcome == Failed(BadRequest)
      ensures outcome.Failed? ==>
                && roomRepository.rows == old(roomRepository.rows)
                && (job.roomCategoryId !in categories || job.startDate >= job.endDate || job.startDate < now)
      ensures crashAfter == None ==>
                && !outcome.Interrupted?
                && roomRepository.rows == Generated(old(roomRepository.rows), categories, job, now)
      ensures outcome.Stalled? <==>
                && crashAfter == None && job.roomCategoryId in categories && now <= job.startDate < job.endDate
                && job.batchSize.Some? && job.batchSize.value < 1.0
      ensures job.roomCategoryId in categories ==>
                AppendsRooms(old(roomRepository.rows), roomRepository.rows, categories[job.roomCategoryId],
                             job.priceOverride, job.startDate, job.endDate)
      ensures outcome.Done? ==>
                && FillsDates(old(roomRepository.rows), roomRepository.rows, categories[job.roomCategoryId],
                              job.priceOverride, job.startDate, job.endDate)
                && outcome.totalRoomsCreated == |roomRepository.rows| - |old(roomRepository.rows)|
                && CountsDates(job, outcome.totalDatesProcessed)
      ensures outcome.Interrupted? ==>
                && crashAfter.Some? && job.roomCategoryId in categories && job.startDate < job.endDate
                && (BatchDays(job) == 0 ==>
                      roomRepository.rows == if crashAfter == Some(0) then old(roomRepository.rows)
                                             else Generated(old(roomRepository.rows), categories, job, now))
                && (BatchDays(job) >= 1 ==>
                      roomRepository.rows
                      == AfterBatches(old(roomRepository.rows), categories[job.roomCategoryId],
                                      PriceOf(categories[job.roomCategoryId], job.priceOverride),
                                      job.startDate, job.endDate, BatchDays(job), crashAfter.value))
    {
      BatchDaysAre(job);
      if job.roomCategoryId !in categories {
        return Failed(NotFound);
      }
      var category := categories[job.roomCategoryId];
      var startDate, endDate := job.startDate, job.endDate;
      if startDate >= endDate {
        return Failed(BadRequest);
      }
      if startDate < now {
        return Failed(BadRequest);
      }
      var batchSize := BatchDays(job);
      if batchSize < 1 {
        outcome := RunStalled(category, startDate, job.priceOverride, crashAfter);
        GeneratedAppends(old(roomRepository.rows), categories, job, now);
        return;
      }
      outcome := RunBatches(category, startDate, endDate, batchSize, job.priceOverride, crashAfter);
      if outcome.Done? {
        GeneratedAppends(old(roomRepository.rows), categories, job, now);
        CountedDates(job);
      } else {
        CutOffAppends(old(roomRepository.rows), categories, job, now, crashAfter.value);
      }
    }

    /**
     The batch loop with a size below one day: every round processes the first date again, and the first
     round has already created its room, so the loop goes on for ever without changing anything.
     */
    method RunStalled(category: RoomCategory, startDate: int, priceOverride: Option<int>, crashAfter: Option<nat>)
      returns (outcome: Outcome)
      modifies roomRepository
      ensures outcome == if crashAfter.Some? then Interrupted else Stalled
      ensures var before, price := old(roomRepository.rows), PriceOf(category, priceOverride);
              && (crashAfter == Some(0) ==> roomRepository.rows == before)
              && (crashAfter != Some(0) ==>
                    && roomRepository.rows == Filled(before, category, price, startDate, 1)
                    && Filled(roomRepository.rows, category, price, startDate, 1) == roomRepository.rows)
    {
      if crashAfter == Some(0) {
        return Interrupted;
      }
      var _, _ := ProcessDateBatch(category, startDate, startDate, priceOverride);
      FilledAgainCreatesNothing(old(roomRepository.rows), category, PriceOf(category, priceOverride), startDate, 1, 1);
      return if crashAfter.Some? then Interrupted else Stalled;
    }

    method RunBatches(category: RoomCategory, startDate: int, endDate: int, batchSize: int,
                      priceOverride: Option<int>, crashAfter: Option<nat>)
      returns (outcome: Outcome)
      requires startDate < endDate && batchSize >= 1
      modifies roomRepository
      ensures outcome.Done? || (outcome.Interrupted? && crashAfter.Some?)
      ensures outcome.Done? ==>
                && roomRepository.rows
                   == Filled(old(roomRepository.rows), category, PriceOf(category, priceOverride), startDate,
                             DatesIn(startDate, endDate))
                && outcome.totalRoomsCreated
                   == |Missing(old(roomRepository.rows), category.id, startDate, DatesIn(startDate, endDate))|
                && outcome.totalDatesProcessed
                   == (endDate - startDate) / MS_PER_DAY + CeilDiv(endDate - startDate, batchSize * MS_PER_DAY)
      ensures outcome.Interrupted? ==>
                roomRepository.rows
                == AfterBatches(old(roomRepository.rows), category, PriceOf(category, priceOverride),
                                startDate, endDate, batchSize, crashAfter.value)
    {
      var totalRoomsCreated: nat, totalDatesProcessed: nat := 0, 0;
      var currentDate := startDate;
      ghost var before := roomRepository.rows;
      ghost var price := PriceOf(category, priceOverride);
      var batches: nat := 0;
      while currentDate < endDate
        invariant BatchesDone(before, roomRepository.rows, category, price, startDate, endDate, batchSize, batches, currentDate)
        invariant totalRoomsCreated == |roomRepository.rows| - |before|
        invariant totalDatesProcessed == (currentDate - startDate) / MS_PER_DAY + batches
        invariant crashAfter.Some? ==> batches <= crashAfter.value
        decreases endDate - currentDate
      {
        if crashAfter == Some(batches) {
          return Interrupted;
        }
        var batchEndDate := currentDate + batchSize * MS_PER_DAY;
        if batchEndDate > endDate {
          batchEndDate := endDate;
        }
        var roomsCreated, datesProcessed := ProcessDateBatch(category, currentDate, batchEndDate, priceOverride);
        BatchDone(before, category, price, startDate, endDate, batchSize, batches, currentDate, batchEndDate);
        totalRoomsCreated := totalRoomsCreated + roomsCreated;
        totalDatesProcessed := totalDatesProcessed + datesProcessed;
        currentDate := batchEndDate;
        batches := batches + 1;
      }
      AllBatchesDone(before, roomRepository.rows, category, price, startDate, endDate, batchSize, batches);
      return Done(totalRoomsCreated, totalDatesProcessed);
    }
  }
}
