/**
 The availability scheduler and the worker it feeds. A tick reads the latest date of every category and
 then, category by category, checks and enqueues a one-day job; jobs run later, possibly late, twice or
 never, and a run can be cut off after any number of batches. Ticks overlap each other and the worker; the
 worker runs one job at a time.
 */
module RoomScheduler {
  import opened Wrappers
  import opened Rooms
  import opened RoomGeneration

  /** One running tick: categories still to visit with the latest date it read, and a job it is about to enqueue. */
  datatype Tick = Tick(todo: map<nat, int>, ready: Option<RoomGenerationJob>)

  datatype State = State(rows: seq<Room>, categories: map<nat, RoomCategory>,
                         queue: multiset<RoomGenerationJob>, ticks: map<nat, Tick>, now: int)

  datatype Event =
    | TickStart(tick: nat)
    | TickCheck(tick: nat, category: nat)
    | TickEnqueue(tick: nat)
    | TickDrop(tick: nat)               // the enqueue fails; the error is logged
    | TickEnd(tick: nat)                // done, or died
    | Post(job: RoomGenerationJob)      // a job posted to the generation endpoint joins the same queue
    | Work(job: RoomGenerationJob, acknowledged: bool)
    | Cut(job: RoomGenerationJob, batches: nat, again: bool)   // the worker dies or fails after some batches
    | Duplicate(job: RoomGenerationJob)
    | Lose(job: RoomGenerationJob)
    | Pass(millis: nat)
    | SetCategories(categories: map<nat, RoomCategory>)
    | StampRooms(ids: seq<nat>, booking: nat)
    | ReleaseRooms(booking: nat)

  function NextDate(latest: int): int {
    Day(latest, 1)
  }

  /** The one-day job for the date after `latest`. */
  function JobAfter(category: RoomCategory, latest: int): RoomGenerationJob {
    RoomGenerationJob(category.id, NextDate(latest), Day(NextDate(latest), 1), Some(category.price), Some(1.0))
  }

  ghost predicate CategoriesOk(categories: map<nat, RoomCategory>) {
    forall c :: c in categories ==> categories[c].id == c
  }

  ghost predicate Enabled(s: State, e: Event) {
    match e
    case TickStart(t) => t !in s.ticks
    case TickCheck(t, c) => t in s.ticks && s.ticks[t].ready == None && c in s.ticks[t].todo
    case TickEnqueue(t) => t in s.ticks && s.ticks[t].ready.Some?
    case TickDrop(t) => t in s.ticks
    case TickEnd(t) => t in s.ticks
    case Post(job) => job.batchSize.Some? ==> job.batchSize.value > 0.0
    case Work(job, _) => job in s.queue
    case Cut(job, _, _) => job in s.queue
    case Duplicate(job) => job in s.queue
    case Lose(job) => job in s.queue
    case Pass(_) => true
    case SetCategories(categories) => CategoriesOk(categories)
    case StampRooms(_, _) => true
    case ReleaseRooms(_) => true
  }

  ghost function Next(s: State, e: Event): State
    requires Enabled(s, e)
  {
    match e
    case TickStart(t) => s.(ticks := s.ticks[t := Tick(LatestDates(s.rows), None)])
    case TickCheck(t, c) =>
      var latest := s.ticks[t].todo[c];
      var wanted := c in s.categories && !HasRoom(s.rows, c, NextDate(latest));
      var ready := if wanted then Some(JobAfter(s.categories[c], latest)) else None;
      s.(ticks := s.ticks[t := Tick(s.ticks[t].todo - {c}, ready)])
    case TickEnqueue(t) =>
      s.(queue := s.queue + multiset{s.ticks[t].ready.value}, ticks := s.ticks[t := s.ticks[t].(ready := None)])
    case TickDrop(t) => s.(ticks := s.ticks[t := s.ticks[t].(ready := None)])
    case TickEnd(t) => s.(ticks := s.ticks - {t})
    case Post(job) => s.(queue := s.queue + multiset{job})
    case Work(job, acknowledged) =>
      s.(rows := Generated(s.rows, s.categories, job, s.now),
         queue := if acknowledged then s.queue - multiset{job} else s.queue)
    case Cut(job, batches, again) =>
      s.(rows := CutOff(s.rows, s.categories, job, s.now, batches),
         queue := if again then s.queue else s.queue - multiset{job})
    case Duplicate(job) => s.(queue := s.queue + multiset{job})
    case Lose(job) => s.(queue := s.queue - multiset{job})
    case Pass(millis) => s.(now := s.now + millis)
    case SetCategories(categories) => s.(categories := categories)
    case StampRooms(ids, booking) => s.(rows := Stamped(s.rows, ids, booking))
    case ReleaseRooms(booking) => s.(rows := Released(s.rows, booking))
  }

  /** A run: the state after each event. */
  ghost predicate IsRun(events: seq<Event>, states: seq<State>) {
    && |states| == |events| + 1
    && forall i :: 0 <= i < |events| ==> Enabled(states[i], events[i]) && states[i + 1] == Next(states[i], events[i])
  }

  // ---------------------------------------------------------------- the invariant of one category

  /** The first and the last date of a category. */
  datatype Span = Span(first: int, last: int)

  /** `date` is a whole number of days away from `first`. */
  predicate OnGrid(first: int, date: int) {
    (date - first) % MS_PER_DAY == 0
  }

  predicate InSpan(span: Span, date: int) {
    span.first <= date <= span.last && OnGrid(span.first, date)
  }

  /** The category has exactly one live row on each of first, first + 1 day, ..., last, and no other live row. */
  ghost predicate IsInterval(rows: seq<Room>, c: nat, span: Span) {
    && InSpan(span, span.last)
    && forall date :: |LiveIds(rows, c, date)| == if InSpan(span, date) then 1 else 0
  }

  /** Running over `n` dates from `start` leaves no gap next to the span. */
  predicate Joins(start: int, n: nat, span: Span) {
    OnGrid(span.first, start) && start <= Day(span.last, 1) && Day(start, n - 1) >= Day(span.first, -1)
  }

  function Joined(start: int, n: nat, span: Span): Span {
    Span(if start < span.first then start else span.first,
         if Day(start, n - 1) > span.last then Day(start, n - 1) else span.last)
  }

  /** The job is refused for its dates, or its first batch already joins the span. */
  predicate JobJoins(job: RoomGenerationJob, span: Span) {
    job.startDate < job.endDate ==> Joins(job.startDate, CutDates(job, 1), span)
  }

  ghost predicate QueueOk(queue: multiset<RoomGenerationJob>, c: nat, span: Span) {
    forall job :: job in queue && job.roomCategoryId == c ==> JobJoins(job, span)
  }

  /** A tick has read a date of the span, and any job it is about to enqueue joins it. */
  ghost predicate TickOk(tick: Tick, c: nat, span: Span) {
    && (c in tick.todo ==> InSpan(span, tick.todo[c]))
    && (tick.ready.Some? && tick.ready.value.roomCategoryId == c ==> JobJoins(tick.ready.value, span))
  }

  ghost predicate Inv(s: State, c: nat, span: Span) {
    && IsInterval(s.rows, c, span)
    && CategoriesOk(s.categories)
    && QueueOk(s.queue, c, span)
    && (forall t :: t in s.ticks ==> TickOk(s.ticks[t], c, span))
  }

  /** On an interval, the MAX query returns its last date. */
  lemma LatestOfInterval(rows: seq<Room>, c: nat, span: Span)
    requires IsInterval(rows, c, span)
    ensures c in LatestDates(rows) && LatestDates(rows)[c] == span.last
  {
    assert |LiveIds(rows, c, span.last)| == 1;
    var i :| i in LiveIds(rows, c, span.last);
    LatestDatesAreLatest(rows, c);
    var latest := LatestDates(rows)[c];
    HasRoomIffLiveId(rows, c, latest);
    assert |LiveIds(rows, c, latest)| == 1;
  }

  lemma IntervalHasRoom(rows: seq<Room>, c: nat, span: Span, date: int)
    requires IsInterval(rows, c, span)
    ensures HasRoom(rows, c, date) <==> InSpan(span, date)
  {
    HasRoomIffLiveId(rows, c, date);
    assert |LiveIds(rows, c, date)| == if InSpan(span, date) then 1 else 0;
  }

  // ---------------------------------------------------------------- a pass next to an interval

  /** The dates of a pass are those on its grid from its first to its last. */
  lemma PassDates(start: int, n: nat, date: int)
    ensures InPass(start, n, date) <==> start <= date <= Day(start, n - 1) && OnGrid(start, date)
  {
    if InPass(start, n, date) {
      var k :| 0 <= k < n && date == Day(start, k);
    }
    if start <= date <= Day(start, n - 1) && OnGrid(start, date) {
      assert date == Day(start, (date - start) / MS_PER_DAY);
    }
  }

  /** Dates on a common grid are a whole day apart or equal. */
  lemma WholeDays(a: int, b: int)
    requires OnGrid(a, b) && a < b
    ensures Day(a, 1) <= b
  {
  }

  lemma SameGrid(a: int, b: int, c: int)
    requires OnGrid(a, b)
    ensures OnGrid(a, c) <==> OnGrid(b, c)
  {
    assert c - a == (c - b) + (b - a);
  }

  lemma JoinedDates(start: int, n: nat, span: Span, date: int)
    requires n >= 1 && Joins(start, n, span) && InSpan(span, span.last)
    ensures InSpan(Joined(start, n, span), date) <==> InSpan(span, date) || InPass(start, n, date)
  {
    PassDates(start, n, date);
    SameGrid(span.first, start, date);
    SameGrid(span.first, span.last, date);
    if OnGrid(span.first, date) {
      if date < span.first {
        SameGrid(span.first, date, span.first);
        WholeDays(date, span.first);
      } else if date > span.last {
        WholeDays(span.last, date);
      }
    }
  }

  lemma GridOfJoined(start: int, n: nat, span: Span)
    requires n >= 1 && Joins(start, n, span) && InSpan(span, span.last)
    ensures InSpan(Joined(start, n, span), Joined(start, n, span).last)
    ensures forall date :: OnGrid(Joined(start, n, span).first, date) <==> OnGrid(span.first, date)
  {
    JoinedDates(start, n, span, span.last);
    PassDates(start, n, Day(start, n - 1));
    assert InPass(start, n, Day(start, n - 1));
    JoinedDates(start, n, span, Day(start, n - 1));
    forall date {
      SameGrid(span.first, start, date);
    }
  }

  /** A pass that joins an interval leaves one. */
  lemma WorkExtendsInterval(rows: seq<Room>, category: RoomCategory, price: int, start: int, n: nat, span: Span)
    requires IsInterval(rows, category.id, span) && n >= 1 && Joins(start, n, span)
    ensures IsInterval(Filled(rows, category, price, start, n), category.id, Joined(start, n, span))
  {
    var c, filled := category.id, Filled(rows, category, price, start, n);
    GridOfJoined(start, n, span);
    forall date
      ensures |LiveIds(filled, c, date)| == if InSpan(Joined(start, n, span), date) then 1 else 0
    {
      FilledOncePerDate(rows, category, price, start, n, c, date);
      IntervalHasRoom(rows, c, span, date);
      JoinedDates(start, n, span, date);
      assert |LiveIds(rows, c, date)| == if InSpan(span, date) then 1 else 0;
    }
  }

  /** A pass that does not join leaves a date without a room between the two, or rows on two grids. */
  lemma WorkBreaksInterval(rows: seq<Room>, category: RoomCategory, price: int, start: int, n: nat, span: Span, after: Span)
    requires IsInterval(rows, category.id, span) && n >= 1
    requires IsInterval(Filled(rows, category, price, start, n), category.id, after)
    ensures Joins(start, n, span)
  {
    var c, filled := category.id, Filled(rows, category, price, start, n);
    forall date
      ensures InSpan(after, date) <==> InSpan(span, date) || InPass(start, n, date)
    {
      FilledHasRoom(rows, category, price, start, n, c, date);
      IntervalHasRoom(rows, c, span, date);
      IntervalHasRoom(filled, c, after, date);
    }
    assert InSpan(span, span.first) && InSpan(after, span.first) && InSpan(after, span.last);
    assert Day(start, 0) == start && InPass(start, n, start) && InPass(start, n, Day(start, n - 1));
    assert InSpan(after, start) && InSpan(after, Day(start, n - 1));
    SameGrid(after.first, span.first, start);
    if start > Day(span.last, 1) {
      var gap := Day(span.last, 1);
      SameGrid(after.first, span.last, gap);
      assert InSpan(after, gap);
      PassDates(start, n, gap);
    }
    if Day(start, n - 1) < Day(span.first, -1) {
      var gap := Day(span.first, -1);
      SameGrid(after.first, span.first, gap);
      assert InSpan(after, gap);
      PassDates(start, n, gap);
    }
  }

  /** Exactly which passes keep a category's dates a gap-free interval. */
  lemma StaysIntervalIffJoins(rows: seq<Room>, category: RoomCategory, price: int, start: int, n: nat, span: Span)
    requires IsInterval(rows, category.id, span) && n >= 1
    ensures (exists after :: IsInterval(Filled(rows, category, price, start, n), category.id, after)) <==> Joins(start, n, span)
  {
    if after :| IsInterval(Filled(rows, category, price, start, n), category.id, after) {
      WorkBreaksInterval(rows, category, price, start, n, span, after);
    }
    if Joins(start, n, span) {
      WorkExtendsInterval(rows, category, price, start, n, span);
    }
  }

  /** Work on another category does not change this one's dates. */
  lemma FilledElsewhere(rows: seq<Room>, category: RoomCategory, price: int, start: int, n: nat, c: nat, span: Span)
    requires IsInterval(rows, c, span) && category.id != c
    ensures IsInterval(Filled(rows, category, price, start, n), c, span)
  {
    forall date
      ensures |LiveIds(Filled(rows, category, price, start, n), c, date)| == |LiveIds(rows, c, date)|
    {
      FilledOncePerDate(rows, category, price, start, n, c, date);
    }
  }

  // ---------------------------------------------------------------- the scheduler's jobs

  /** A one-day job, in batches of one day. */
  predicate IsSchedulerJob(job: RoomGenerationJob) {
    job.batchSize == Some(1.0) && job.endDate == job.startDate + 86_400_000
  }

  /** The job for the day after `latest`, one day long and at the category's price. */
  predicate IsJobFor(job: RoomGenerationJob, category: RoomCategory, latest: int) {
    && job.roomCategoryId == category.id
    && job.startDate == latest + 86_400_000 && job.endDate == latest + 2 * 86_400_000
    && job.batchSize == Some(1.0) && job.priceOverride == Some(category.price)
  }

  /** A check of the tick readies that job exactly if the category exists and has no room on that day. */
  lemma CheckReadiesJob(s: State, t: nat, c: nat)
    requires Enabled(s, TickCheck(t, c))
    ensures var latest, ready := s.ticks[t].todo[c], Next(s, TickCheck(t, c)).ticks[t].ready;
            && (ready.Some? <==> c in s.categories && !HasRoom(s.rows, c, latest + 86_400_000))
            && (ready.Some? ==> IsJobFor(ready.value, s.categories[c], latest))
  {
  }

  /** A scheduler job runs over exactly two dates, because the batch loop includes its end. */
  lemma JobCoversTwoDates(job: RoomGenerationJob)
    requires IsSchedulerJob(job)
    ensures job.startDate < job.endDate && DatesOf(job) == 2 && CutDates(job, 1) == 2
    ensures forall date :: InPass(job.startDate, DatesOf(job), date) <==> date == job.startDate || date == job.endDate
  {
    assert (1.0 as real).Floor == 1;
    assert BatchStart(job.startDate, job.endDate, 1, 0) == job.startDate;
    assert BatchStart(job.startDate, job.endDate, 1, 1) == job.endDate;
    assert Day(job.startDate, 0) == job.startDate;
    forall date
      ensures InPass(job.startDate, 2, date) <==> date == job.startDate || date == job.endDate
    {
      if InPass(job.startDate, 2, date) {
        var k :| 0 <= k < 2 && date == Day(job.startDate, k);
      }
    }
  }

  /** A job for the day after any date of the span joins it. */
  lemma SchedulerJobJoins(category: RoomCategory, latest: int, span: Span)
    requires InSpan(span, latest)
    ensures JobJoins(JobAfter(category, latest), span)
  {
    var job := JobAfter(category, latest);
    JobCoversTwoDates(job);
    SameGrid(span.first, latest, job.startDate);
  }

  /** The span only grows, on one grid. */
  predicate Grows(span: Span, after: Span) {
    after.first <= span.first && span.last <= after.last && OnGrid(after.first, span.first)
  }

  lemma GrownKeeps(span: Span, after: Span, start: int, n: nat, date: int)
    requires Grows(span, after)
    ensures Joins(start, n, span) ==> Joins(start, n, after)
    ensures InSpan(span, date) ==> InSpan(after, date)
  {
    SameGrid(after.first, span.first, start);
    SameGrid(after.first, span.first, date);
  }

  // ---------------------------------------------------------------- every event keeps the invariant

  /** The worker takes up the job: its category exists and its dates are in order and not past. */
  predicate Accepted(s: State, job: RoomGenerationJob) {
    job.roomCategoryId in s.categories && s.now <= job.startDate < job.endDate
  }

  predicate IsWorkerStep(e: Event) {
    e.Work? || e.Cut?
  }

  /** How many dates a worker step visits. */
  function DatesRun(e: Event): nat
    requires IsWorkerStep(e) && e.job.startDate < e.job.endDate
  {
    if e.Work? then DatesOf(e.job) else CutDates(e.job, e.batches)
  }

  /** A worker step, cut off or not, is one pass over the dates it visits. */
  lemma WorkerStepIsPass(s: State, e: Event)
    requires Enabled(s, e) && IsWorkerStep(e)
    ensures Next(s, e).categories == s.categories && Next(s, e).now == s.now
    ensures !Accepted(s, e.job) ==> Next(s, e).rows == s.rows
    ensures Accepted(s, e.job) ==>
              var category := s.categories[e.job.roomCategoryId];
              Next(s, e).rows ==
                Filled(s.rows, category, PriceOf(category, e.job.priceOverride), e.job.startDate, DatesRun(e))
  {
    if e.Cut? && Accepted(s, e.job) {
      CutIsPass(s.rows, s.categories, e.job, s.now, e.batches);
    }
  }

  /** A longer pass joins if a shorter one from the same date does. */
  lemma LongerJoins(start: int, m: nat, n: nat, span: Span)
    requires Joins(start, m, span) && m <= n
    ensures Joins(start, n, span)
  {
  }

  /** Whatever a worker step gets done of a joining job joins, unless it is nothing. */
  lemma WorkerStepJoins(e: Event, span: Span)
    requires IsWorkerStep(e) && e.job.startDate < e.job.endDate && JobJoins(e.job, span)
    ensures DatesRun(e) >= 1 ==> Joins(e.job.startDate, DatesRun(e), span)
  {
    CutDatesGrow(e.job, 1);
    if e.Cut? && e.batches >= 1 {
      CutDatesGrow(e.job, e.batches);
    }
    if DatesRun(e) >= 1 {
      LongerJoins(e.job.startDate, CutDates(e.job, 1), DatesRun(e), span);
    }
  }

  /** The span after one event. */
  ghost function SpanAfter(s: State, e: Event, c: nat, span: Span): Span
    requires Enabled(s, e)
  {
    if IsWorkerStep(e) && e.job.roomCategoryId == c && Accepted(s, e.job) && DatesRun(e) >= 1
    then Joined(e.job.startDate, DatesRun(e), span) else span
  }

  lemma SpanGrows(s: State, e: Event, c: nat, span: Span)
    requires Inv(s, c, span) && Enabled(s, e)
    ensures Grows(span, SpanAfter(s, e, c, span))
  {
    if SpanAfter(s, e, c, span) != span {
      assert JobJoins(e.job, span);
      WorkerStepJoins(e, span);
      GridOfJoined(e.job.startDate, DatesRun(e), span);
      assert OnGrid(span.first, span.first);
    }
  }

  /** The effect of a worker step on the category's own interval. */
  lemma WorkKeepsInterval(s: State, e: Event, c: nat, span: Span)
    requires Inv(s, c, span) && Enabled(s, e) && IsWorkerStep(e)
    ensures IsInterval(Next(s, e).rows, c, SpanAfter(s, e, c, span))
  {
    var job := e.job;
    WorkerStepIsPass(s, e);
    if Accepted(s, job) {
      var category := s.categories[job.roomCategoryId];
      var price := PriceOf(category, job.priceOverride);
      if job.roomCategoryId != c {
        FilledElsewhere(s.rows, category, price, job.startDate, DatesRun(e), c, span);
      } else if DatesRun(e) >= 1 {
        assert JobJoins(job, span);
        WorkerStepJoins(e, span);
        WorkExtendsInterval(s.rows, category, price, job.startDate, DatesRun(e), span);
      } else {
        assert Next(s, e).rows == s.rows;
      }
    }
  }

  lemma BookingKeepsInterval(rows: seq<Room>, ids: seq<nat>, booking: nat, c: nat, span: Span)
    requires IsInterval(rows, c, span)
    ensures IsInterval(Stamped(rows, ids, booking), c, span)
    ensures IsInterval(Released(rows, booking), c, span)
  {
    forall date {
      BookingKeepsDates(rows, ids, booking, c, date);
    }
  }

  lemma StepKeepsInterval(s: State, e: Event, c: nat, span: Span)
    requires Inv(s, c, span) && Enabled(s, e)
    ensures IsInterval(Next(s, e).rows, c, SpanAfter(s, e, c, span))
  {
    match e
    case Work(_, _) => WorkKeepsInterval(s, e, c, span);
    case Cut(_, _, _) => WorkKeepsInterval(s, e, c, span);
    case StampRooms(ids, booking) => BookingKeepsInterval(s.rows, ids, booking, c, span);
    case ReleaseRooms(booking) => BookingKeepsInterval(s.rows, [], booking, c, span);
    case _ =>
  }

  /** A job posted for the category joins its span. */
  predicate PostJoins(e: Event, c: nat, span: Span) {
    e.Post? && e.job.roomCategoryId == c ==> JobJoins(e.job, span)
  }

  lemma StepKeepsQueue(s: State, e: Event, c: nat, span: Span)
    requires Inv(s, c, span) && Enabled(s, e) && PostJoins(e, c, span)
    ensures QueueOk(Next(s, e).queue, c, span) && CategoriesOk(Next(s, e).categories)
  {
    if e.TickEnqueue? {
      assert TickOk(s.ticks[e.tick], c, span);
    }
  }

  lemma StepKeepsTick(s: State, e: Event, c: nat, span: Span, t: nat)
    requires Inv(s, c, span) && Enabled(s, e) && t in Next(s, e).ticks
    ensures TickOk(Next(s, e).ticks[t], c, span)
  {
    if t in s.ticks {
      assert TickOk(s.ticks[t], c, span);
    }
    if e.TickStart? {
      LatestOfInterval(s.rows, c, span);
    } else if e.TickCheck? && e.category == c && c in s.categories && e.tick == t {
      SchedulerJobJoins(s.categories[c], s.ticks[t].todo[c], span);
    }
  }

  /** Every event keeps the invariant, as long as posted jobs join. */
  lemma StepKeepsInv(s: State, e: Event, c: nat, span: Span)
    requires Inv(s, c, span) && Enabled(s, e) && PostJoins(e, c, span)
    ensures Inv(Next(s, e), c, SpanAfter(s, e, c, span))
  {
    var after := SpanAfter(s, e, c, span);
    StepKeepsInterval(s, e, c, span);
    StepKeepsQueue(s, e, c, span);
    SpanGrows(s, e, c, span);
    QueueOkLater(Next(s, e).queue, c, span, after);
    forall t | t in Next(s, e).ticks
      ensures TickOk(Next(s, e).ticks[t], c, after)
    {
      StepKeepsTick(s, e, c, span, t);
      TickOkLater(Next(s, e).ticks[t], c, span, after);
    }
  }

  /** What was valid for a span stays valid when it grows. */
  lemma QueueOkLater(queue: multiset<RoomGenerationJob>, c: nat, span: Span, after: Span)
    requires QueueOk(queue, c, span) && Grows(span, after)
    ensures QueueOk(queue, c, after)
  {
    forall job | job in queue && job.roomCategoryId == c && job.startDate < job.endDate
      ensures JobJoins(job, after)
    {
      GrownKeeps(span, after, job.startDate, CutDates(job, 1), 0);
    }
  }

  lemma TickOkLater(tick: Tick, c: nat, span: Span, after: Span)
    requires TickOk(tick, c, span) && Grows(span, after)
    ensures TickOk(tick, c, after)
  {
    if c in tick.todo {
      GrownKeeps(span, after, 0, 0, tick.todo[c]);
    }
    if tick.ready.Some? && tick.ready.value.startDate < tick.ready.value.endDate {
      GrownKeeps(span, after, tick.ready.value.startDate, CutDates(tick.ready.value, 1), 0);
    }
  }

  // ---------------------------------------------------------------- whole runs

  /** The span of the category in each state of a run. */
  ghost function SpanAt(events: seq<Event>, states: seq<State>, c: nat, span: Span, i: nat): Span
    requires IsRun(events, states) && i <= |events|
  {
    if i == 0 then span
    else SpanAfter(states[i - 1], events[i - 1], c, SpanAt(events, states, c, span, i - 1))
  }

  /** If event `i` posts a job for the category, the job joins the dates the category has then. */
  ghost predicate PostJoinsAt(events: seq<Event>, states: seq<State>, c: nat, span: Span, i: nat)
    requires IsRun(events, states) && i < |events|
  {
    PostJoins(events[i], c, SpanAt(events, states, c, span, i))
  }

  ghost predicate PostsJoin(events: seq<Event>, states: seq<State>, c: nat, span: Span)
    requires IsRun(events, states)
  {
    forall i: nat :: i < |events| ==> PostJoinsAt(events, states, c, span, i)
  }

  /**
   Whatever the interleaving, the live dates of the category stay one gap-free interval with one row per date
   that only grows, and every pending job joins it.
   */
  lemma {:induction false} DatesStayAnInterval(
      events: seq<Event>, states: seq<State>, c: nat, span: Span, i: nat)
    requires IsRun(events, states) && i <= |events|
    requires Inv(states[0], c, span) && PostsJoin(events, states, c, span)
    ensures Inv(states[i], c, SpanAt(events, states, c, span, i))
    ensures i > 0 ==> Grows(SpanAt(events, states, c, span, i - 1), SpanAt(events, states, c, span, i))
  {
    if i == 0 {
    } else {
      var before := SpanAt(events, states, c, span, i - 1);
      DatesStayAnInterval(events, states, c, span, i - 1);
      assert PostJoinsAt(events, states, c, span, i - 1);
      assert Enabled(states[i - 1], events[i - 1]) && states[i] == Next(states[i - 1], events[i - 1]);
      StepKeepsInv(states[i - 1], events[i - 1], c, before);
      SpanGrows(states[i - 1], events[i - 1], c, before);
    }
  }

  /** One worker step on a scheduler job, cut off or not, moves the last date by at most two days. */
  lemma SchedulerJobMovesAtMostTwoDays(s: State, e: Event, c: nat, span: Span)
    requires Inv(s, c, span) && Enabled(s, e) && (IsWorkerStep(e) ==> IsSchedulerJob(e.job))
    ensures span.last <= SpanAfter(s, e, c, span).last <= Day(span.last, 2)
  {
    if SpanAfter(s, e, c, span) != span {
      SchedulerStepDates(e);
      assert JobJoins(e.job, span);
    }
  }

  lemma SchedulerStepDates(e: Event)
    requires IsWorkerStep(e) && IsSchedulerJob(e.job)
    ensures e.job.startDate < e.job.endDate && DatesRun(e) <= 2
  {
    JobCoversTwoDates(e.job);
    if e.Cut? && e.batches >= 1 {
      CutDatesGrow(e.job, e.batches);
    }
  }

  /** One worker step on a scheduler job appends at most two rows. */
  lemma JobAddsAtMostTwoRows(s: State, e: Event)
    requires Enabled(s, e) && IsWorkerStep(e) && IsSchedulerJob(e.job)
    ensures |s.rows| <= |Next(s, e).rows| <= |s.rows| + 2
  {
    SchedulerStepDates(e);
    WorkerStepIsPass(s, e);
  }

  predicate NothingPosted(events: seq<Event>) {
    forall i :: 0 <= i < |events| ==> !events[i].Post?
  }

  /** Every job queued or about to be is a one-day job. */
  ghost predicate OneDayJobs(s: State) {
    && (forall job :: job in s.queue ==> IsSchedulerJob(job))
    && (forall t :: t in s.ticks && s.ticks[t].ready.Some? ==> IsSchedulerJob(s.ticks[t].ready.value))
  }

  lemma OneDayStep(s: State, e: Event)
    requires Enabled(s, e) && !e.Post? && OneDayJobs(s)
    ensures OneDayJobs(Next(s, e))
  {
    if e.TickEnqueue? {
      assert IsSchedulerJob(s.ticks[e.tick].ready.value);
    }
  }

  /** As long as nothing is posted, the queue only ever holds one-day jobs. */
  lemma {:induction false} QueueHoldsOneDayJobs(events: seq<Event>, states: seq<State>, i: nat)
    requires IsRun(events, states) && i <= |events| && NothingPosted(events)
    requires states[0].queue == multiset{} && states[0].ticks == map[]
    ensures OneDayJobs(states[i])
  {
    if i == 0 {
    } else {
      QueueHoldsOneDayJobs(events, states, i - 1);
      assert Enabled(states[i - 1], events[i - 1]) && states[i] == Next(states[i - 1], events[i - 1]);
      OneDayStep(states[i - 1], events[i - 1]);
    }
  }

  /**
   So in every run without posted jobs, whatever is delayed, duplicated, lost, redelivered or cut off, each event
   moves a category's last date by at most two days and adds at most two rows to the table.
   */
  lemma SchedulerAloneMovesAtMostTwoDays(events: seq<Event>, states: seq<State>, c: nat, span: Span, i: nat)
    requires IsRun(events, states) && i < |events| && NothingPosted(events) && Inv(states[0], c, span)
    requires states[0].queue == multiset{} && states[0].ticks == map[]
    ensures var before, after := SpanAt(events, states, c, span, i), SpanAt(events, states, c, span, i + 1);
            before.last <= after.last <= before.last + 2 * 86_400_000
    ensures |states[i].rows| <= |states[i + 1].rows| <= |states[i].rows| + 2
  {
    var s, e := states[i], events[i];
    assert Enabled(s, e) && states[i + 1] == Next(s, e);
    QueueHoldsOneDayJobs(events, states, i);
    assert forall k: nat :: k < |events| ==> PostJoinsAt(events, states, c, span, k);
    DatesStayAnInterval(events, states, c, span, i);
    SchedulerJobMovesAtMostTwoDays(s, e, c, SpanAt(events, states, c, span, i));
    if IsWorkerStep(e) {
      JobAddsAtMostTwoRows(s, e);
    }
  }

  /** Cut off after `j` batches, the job leaves the dates of its category an interval. */
  ghost predicate CutKeepsInterval(s: State, job: RoomGenerationJob, j: nat) {
    exists after :: IsInterval(CutOff(s.rows, s.categories, job, s.now, j), job.roomCategoryId, after)
  }

  /**
   Exactly which jobs the worker can run safely. Wherever it is cut off, an accepted job leaves the category's
   dates a gap-free interval if and only if its first batch already joins them; covering them in the end is not
   enough.
   */
  lemma EveryCutKeepsIntervalIffJoins(s: State, job: RoomGenerationJob, span: Span)
    requires IsInterval(s.rows, job.roomCategoryId, span) && Accepted(s, job) && CategoriesOk(s.categories)
    ensures (forall j: nat :: CutKeepsInterval(s, job, j)) <==> JobJoins(job, span)
  {
    var c, category := job.roomCategoryId, s.categories[job.roomCategoryId];
    var price := PriceOf(category, job.priceOverride);
    CutDatesGrow(job, 1);
    CutIsPass(s.rows, s.categories, job, s.now, 1);
    StaysIntervalIffJoins(s.rows, category, price, job.startDate, CutDates(job, 1), span);
    if JobJoins(job, span) {
      forall j: nat
        ensures CutKeepsInterval(s, job, j)
      {
        CutIsPass(s.rows, s.categories, job, s.now, j);
        if j == 0 {
          assert CutOff(s.rows, s.categories, job, s.now, j) == s.rows;
        } else {
          CutDatesGrow(job, j);
          LongerJoins(job.startDate, CutDates(job, 1), CutDates(job, j), span);
          WorkExtendsInterval(s.rows, category, price, job.startDate, CutDates(job, j), span);
        }
      }
    } else {
      assert !CutKeepsInterval(s, job, 1);
    }
  }

  // ---------------------------------------------------------------- a category that falls behind

  /** A worker step creates rooms only for an accepted job, of its own category and from its start date on. */
  lemma WorkerStepDates(s: State, e: Event, c: nat, date: int)
    requires Enabled(s, e) && IsWorkerStep(e)
    ensures Next(s, e).categories == s.categories && Next(s, e).now == s.now
    ensures HasRoom(s.rows, c, date) ==> HasRoom(Next(s, e).rows, c, date)
    ensures HasRoom(Next(s, e).rows, c, date) && !HasRoom(s.rows, c, date) ==>
              Accepted(s, e.job) && c == s.categories[e.job.roomCategoryId].id && e.job.startDate <= date
  {
    WorkerStepIsPass(s, e);
    if Accepted(s, e.job) {
      var category := s.categories[e.job.roomCategoryId];
      FilledHasRoom(s.rows, category, PriceOf(category, e.job.priceOverride), e.job.startDate, DatesRun(e), c, date);
      if DatesRun(e) >= 1 {
        PassDates(e.job.startDate, DatesRun(e), date);
      }
    }
  }

  /** Work creates rooms from today on only. */
  lemma PastStep(s: State, e: Event, c: nat, date: int)
    requires Enabled(s, e) && date < s.now
    ensures Next(s, e).now >= s.now
    ensures HasRoom(Next(s, e).rows, c, date) <==> HasRoom(s.rows, c, date)
  {
    match e
    case Work(_, _) => WorkerStepDates(s, e, c, date);
    case Cut(_, _, _) => WorkerStepDates(s, e, c, date);
    case StampRooms(ids, booking) => BookingKeepsRoom(s.rows, ids, booking, c, date);
    case ReleaseRooms(booking) => BookingKeepsRoom(s.rows, [], booking, c, date);
    case _ =>
  }

  lemma BookingKeepsRoom(rows: seq<Room>, ids: seq<nat>, booking: nat, c: nat, date: int)
    ensures HasRoom(Stamped(rows, ids, booking), c, date) <==> HasRoom(rows, c, date)
    ensures HasRoom(Released(rows, booking), c, date) <==> HasRoom(rows, c, date)
  {
    BookingKeepsDates(rows, ids, booking, c, date);
    HasRoomIffLiveId(rows, c, date);
    HasRoomIffLiveId(Stamped(rows, ids, booking), c, date);
    HasRoomIffLiveId(Released(rows, booking), c, date);
  }

  /** A date that has passed without a room never gets one, whatever is scheduled or posted. */
  lemma {:induction false} PastDatesStay(events: seq<Event>, states: seq<State>, c: nat, date: int, i: nat, j: nat)
    requires IsRun(events, states) && i <= j <= |events| && date < states[i].now
    ensures states[j].now >= states[i].now
    ensures HasRoom(states[j].rows, c, date) <==> HasRoom(states[i].rows, c, date)
  {
    if i == j {
    } else {
      PastDatesStay(events, states, c, date, i, j - 1);
      assert Enabled(states[j - 1], events[j - 1]) && states[j] == Next(states[j - 1], events[j - 1]);
      PastStep(states[j - 1], events[j - 1], c, date);
    }
  }

  /** Nothing is posted and no category is changed. */
  predicate SchedulerOnly(events: seq<Event>) {
    forall i :: 0 <= i < |events| ==> !events[i].Post? && !events[i].SetCategories?
  }

  lemma {:induction false} NoCategoryNoRooms(events: seq<Event>, states: seq<State>, c: nat, date: int, i: nat)
    requires IsRun(events, states) && i <= |events| && SchedulerOnly(events) && CategoriesOk(states[0].categories)
    requires c !in states[0].categories
    ensures states[i].categories == states[0].categories
    ensures HasRoom(states[i].rows, c, date) <==> HasRoom(states[0].rows, c, date)
  {
    if i == 0 {
    } else {
      NoCategoryNoRooms(events, states, c, date, i - 1);
      assert Enabled(states[i - 1], events[i - 1]) && states[i] == Next(states[i - 1], events[i - 1]);
      NoCategoryStep(states[i - 1], events[i - 1], c, date);
    }
  }

  lemma NoCategoryStep(s: State, e: Event, c: nat, date: int)
    requires Enabled(s, e) && !e.SetCategories? && c !in s.categories && CategoriesOk(s.categories)
    ensures Next(s, e).categories == s.categories
    ensures HasRoom(Next(s, e).rows, c, date) <==> HasRoom(s.rows, c, date)
  {
    match e
    case Work(_, _) => WorkerStepDates(s, e, c, date);
    case Cut(_, _, _) => WorkerStepDates(s, e, c, date);
    case StampRooms(ids, booking) => BookingKeepsRoom(s.rows, ids, booking, c, date);
    case ReleaseRooms(booking) => BookingKeepsRoom(s.rows, [], booking, c, date);
    case _ =>
  }

  /** A tick and its job give a category that exists a room on the day after its latest date, unless that is past. */
  lemma TickExtends(s: State, c: nat) returns (es: seq<Event>, ss: seq<State>)
    requires CategoriesOk(s.categories) && c in s.categories && c in LatestDates(s.rows)
    requires NextDate(LatestDates(s.rows)[c]) >= s.now
    ensures IsRun(es, ss) && ss[0] == s && SchedulerOnly(es)
    ensures HasRoom(ss[|es|].rows, c, NextDate(LatestDates(s.rows)[c]))
  {
    var latest := LatestDates(s.rows)[c];
    var job := JobAfter(s.categories[c], latest);
    var t := FreshId(s.ticks.Keys);
    NothingAfterTheLatest(s.rows, c);
    var s1 := Next(s, TickStart(t));
    var s2 := Next(s1, TickCheck(t, c));
    assert s2.ticks[t].ready == Some(job);
    var s3 := Next(s2, TickEnqueue(t));
    assert job in s3.queue;
    var s4 := Next(s3, Work(job, true));
    JobRuns(s3, job);
    es, ss := [TickStart(t), TickCheck(t, c), TickEnqueue(t), Work(job, true)], [s, s1, s2, s3, s4];
  }

  /** A job that is not refused leaves rooms on its dates. */
  lemma JobRuns(s: State, job: RoomGenerationJob)
    requires job in s.queue && CategoriesOk(s.categories) && job.roomCategoryId in s.categories
    requires s.now <= job.startDate < job.endDate
    ensures forall date :: HasRoom(Next(s, Work(job, true)).rows, job.roomCategoryId, date) <==>
              HasRoom(s.rows, job.roomCategoryId, date) || InPass(job.startDate, DatesOf(job), date)
    ensures HasRoom(Next(s, Work(job, true)).rows, job.roomCategoryId, job.startDate)
  {
    var category := s.categories[job.roomCategoryId];
    forall date {
      FilledHasRoom(s.rows, category, PriceOf(category, job.priceOverride), job.startDate, DatesOf(job),
                    job.roomCategoryId, date);
    }
    assert Day(job.startDate, 0) == job.startDate && InPass(job.startDate, DatesOf(job), job.startDate);
  }

  /**
   Exactly when scheduler jobs can extend a category: it exists, and the day after its last date is not yet past.
   */
  lemma SchedulerExtendsIffNotBehind(s: State, c: nat, span: Span)
    requires Inv(s, c, span)
    ensures (exists es: seq<Event>, ss: seq<State> :: IsRun(es, ss) && ss[0] == s && SchedulerOnly(es)
                              && HasRoom(ss[|es|].rows, c, NextDate(span.last)))
       <==> c in s.categories && NextDate(span.last) >= s.now
  {
    LatestOfInterval(s.rows, c, span);
    IntervalHasRoom(s.rows, c, span, NextDate(span.last));
    if es: seq<Event>, ss: seq<State> :| IsRun(es, ss) && ss[0] == s && SchedulerOnly(es) && HasRoom(ss[|es|].rows, c, NextDate(span.last)) {
      if NextDate(span.last) < s.now {
        PastDatesStay(es, ss, c, NextDate(span.last), 0, |es|);
      }
      if c !in s.categories {
        NoCategoryNoRooms(es, ss, c, NextDate(span.last), |es|);
      }
    }
    if c in s.categories && NextDate(span.last) >= s.now {
      var es, ss := TickExtends(s, c);
    }
  }

  lemma StaleOneMore(events: seq<Event>, states: seq<State>, c: nat, span: Span, k: nat)
    requires IsRun(events, states) && k < |events|
    requires Inv(states[0], c, span) && PostsJoin(events, states, c, span)
    requires NextDate(SpanAt(events, states, c, span, k).last) < states[k].now
    ensures SpanAt(events, states, c, span, k + 1) == SpanAt(events, states, c, span, k)
    ensures states[k + 1].now >= states[k].now
  {
    DatesStayAnInterval(events, states, c, span, k);
    assert Enabled(states[k], events[k]) && states[k + 1] == Next(states[k], events[k]);
    StaleStep(states[k], events[k], c, SpanAt(events, states, c, span, k));
  }

  lemma StaleStep(s: State, e: Event, c: nat, span: Span)
    requires Inv(s, c, span) && Enabled(s, e) && NextDate(span.last) < s.now
    ensures SpanAfter(s, e, c, span) == span && Next(s, e).now >= s.now
  {
    if IsWorkerStep(e) && e.job.roomCategoryId == c {
      assert JobJoins(e.job, span);
    }
  }

  /** A span whose next date is past does not move at step `k`. */
  predicate StaleKeeps(spans: seq<Span>, nows: seq<int>, k: nat)
    requires |spans| == |nows|
  {
    k + 1 < |spans| && NextDate(spans[k].last) < nows[k] ==> spans[k + 1] == spans[k] && nows[k + 1] >= nows[k]
  }

  lemma {:induction false} StaleStays(spans: seq<Span>, nows: seq<int>, i: nat, j: nat)
    requires i <= j < |spans| == |nows| && NextDate(spans[i].last) < nows[i]
    requires forall k: nat :: StaleKeeps(spans, nows, k)
    ensures spans[j] == spans[i] && nows[j] >= nows[i]
  {
    if i == j {
    } else {
      StaleStays(spans, nows, i, j - 1);
      assert StaleKeeps(spans, nows, j - 1);
    }
  }

  /**
   Once the day after its last date is past, neither scheduler jobs nor posted jobs that join its dates ever
   extend the category again: all of them are refused for starting in the past.
   */
  lemma StaleCategoryNeverRecovers(events: seq<Event>, states: seq<State>, c: nat, span: Span, i: nat, j: nat)
    requires IsRun(events, states) && i <= j <= |events|
    requires Inv(states[0], c, span) && PostsJoin(events, states, c, span)
    requires NextDate(SpanAt(events, states, c, span, i).last) < states[i].now
    ensures SpanAt(events, states, c, span, j) == SpanAt(events, states, c, span, i)
  {
    forall k: nat
      ensures StaleKeeps(SpansTo(events, states, c, span, j), NowsTo(states, j), k)
    {
      StaleKeepsAt(events, states, c, span, j, k);
    }
    StaleStays(SpansTo(events, states, c, span, j), NowsTo(states, j), i, j);
  }

  ghost function SpansTo(events: seq<Event>, states: seq<State>, c: nat, span: Span, j: nat): seq<Span>
    requires IsRun(events, states) && j <= |events|
  {
    seq(j + 1, k requires 0 <= k <= j => SpanAt(events, states, c, span, k))
  }

  ghost function NowsTo(states: seq<State>, j: nat): seq<int>
    requires j < |states|
  {
    seq(j + 1, k requires 0 <= k <= j => states[k].now)
  }

  lemma StaleKeepsAt(events: seq<Event>, states: seq<State>, c: nat, span: Span, j: nat, k: nat)
    requires IsRun(events, states) && j <= |events|
    requires Inv(states[0], c, span) && PostsJoin(events, states, c, span)
    ensures StaleKeeps(SpansTo(events, states, c, span, j), NowsTo(states, j), k)
  {
    if k < j && NextDate(SpanAt(events, states, c, span, k).last) < states[k].now {
      StaleOneMore(events, states, c, span, k);
    }
  }

  /** The last date of a category after a pass that goes beyond its span. */
  lemma LatestAfterPass(rows: seq<Room>, rows': seq<Room>, c: nat, span: Span, start: int, n: nat)
    requires IsInterval(rows, c, span) && n >= 1 && start > span.last
    requires forall date :: HasRoom(rows', c, date) <==> HasRoom(rows, c, date) || InPass(start, n, date)
    ensures c in LatestDates(rows') && LatestDates(rows')[c] == Day(start, n - 1)
  {
    var last := Day(start, n - 1);
    assert InPass(start, n, last) && HasRoom(rows', c, last);
    LatestDatesAreLatest(rows', c);
    var i :| 0 <= i < |rows'| && IsLive(rows'[i], c, last);
    var latest := LatestDates(rows')[c];
    assert HasRoom(rows', c, latest);
    IntervalHasRoom(rows, c, span, latest);
    PassDates(start, n, latest);
  }

  /** Rooms are never removed. */
  lemma {:induction false} RoomsStay(events: seq<Event>, states: seq<State>, c: nat, date: int, i: nat)
    requires IsRun(events, states) && i <= |events| && HasRoom(states[0].rows, c, date)
    ensures HasRoom(states[i].rows, c, date)
  {
    if i == 0 {
    } else {
      RoomsStay(events, states, c, date, i - 1);
      assert Enabled(states[i - 1], events[i - 1]) && states[i] == Next(states[i - 1], events[i - 1]);
      RoomStays(states[i - 1], events[i - 1], c, date);
    }
  }

  lemma RoomStays(s: State, e: Event, c: nat, date: int)
    requires Enabled(s, e) && HasRoom(s.rows, c, date)
    ensures HasRoom(Next(s, e).rows, c, date)
  {
    match e
    case Work(_, _) => WorkerStepDates(s, e, c, date);
    case Cut(_, _, _) => WorkerStepDates(s, e, c, date);
    case StampRooms(ids, booking) => BookingKeepsRoom(s.rows, ids, booking, c, date);
    case ReleaseRooms(booking) => BookingKeepsRoom(s.rows, [], booking, c, date);
    case _ =>
  }

  /** Rooms on both sides of a date without one, on its grid, make no interval. */
  lemma GapIsNoInterval(rows: seq<Room>, c: nat, before: int, gap: int, later: int, after: Span)
    requires HasRoom(rows, c, before) && HasRoom(rows, c, later) && !HasRoom(rows, c, gap)
    requires before < gap < later && OnGrid(before, gap)
    ensures !IsInterval(rows, c, after)
  {
    if IsInterval(rows, c, after) {
      IntervalHasRoom(rows, c, after, before);
      IntervalHasRoom(rows, c, after, later);
      IntervalHasRoom(rows, c, after, gap);
      SameGrid(after.first, before, gap);
    }
  }

  /** The category has no room on the date, and its dates are no interval. */
  ghost predicate HasGap(rows: seq<Room>, c: nat, gap: int) {
    !HasRoom(rows, c, gap) && forall after :: !IsInterval(rows, c, after)
  }

  /** A date that has passed without a room, with rooms before and after it, is a gap in every later state. */
  lemma GapForGood(events: seq<Event>, states: seq<State>, c: nat, before: int, gap: int, later: int)
    requires IsRun(events, states) && gap < states[0].now && before < gap < later && OnGrid(before, gap)
    requires HasRoom(states[0].rows, c, before) && HasRoom(states[0].rows, c, later) && !HasRoom(states[0].rows, c, gap)
    ensures HasGap(states[|events|].rows, c, gap)
  {
    PastDatesStay(events, states, c, gap, 0, |events|);
    RoomsStay(events, states, c, before, |events|);
    RoomsStay(events, states, c, later, |events|);
    forall after {
      GapIsNoInterval(states[|events|].rows, c, before, gap, later, after);
    }
  }

  /**
   What a job posted from today on does to such a category: it gets rooms on the posted dates and the scheduler
   goes on from there, but the day after its old last date gets no room in any later state, whatever is
   scheduled or posted, so its dates have a gap for good.
   */
  lemma PostedJobLeavesGap(s: State, c: nat, span: Span, job: RoomGenerationJob) returns (s': State)
    requires Inv(s, c, span) && c in s.categories && NextDate(span.last) < s.now
    requires Enabled(s, Post(job)) && job.roomCategoryId == c && s.now <= job.startDate < job.endDate
    ensures var posted := Next(s, Post(job)); Enabled(posted, Work(job, true)) && s' == Next(posted, Work(job, true))
    ensures HasRoom(s'.rows, c, job.startDate)
    ensures forall es: seq<Event>, ss: seq<State> :: IsRun(es, ss) && ss[0] == s' ==>
              HasGap(ss[|es|].rows, c, NextDate(span.last))
    ensures c in LatestDates(s'.rows) && LatestDates(s'.rows)[c] >= job.startDate
    ensures exists es: seq<Event>, ss: seq<State> :: IsRun(es, ss) && ss[0] == s' && SchedulerOnly(es)
              && HasRoom(ss[|es|].rows, c, NextDate(LatestDates(s'.rows)[c]))
  {
    var posted := Next(s, Post(job));
    s' := Next(posted, Work(job, true));
    var n, gap := DatesOf(job), NextDate(span.last);
    CutDatesGrow(job, 1);
    JobRuns(posted, job);
    LatestAfterPass(s.rows, s'.rows, c, span, job.startDate, n);
    IntervalHasRoom(s.rows, c, span, gap);
    IntervalHasRoom(s.rows, c, span, span.last);
    PassDates(job.startDate, n, gap);
    forall es: seq<Event>, ss: seq<State> | IsRun(es, ss) && ss[0] == s'
      ensures HasGap(ss[|es|].rows, c, gap)
    {
      GapForGood(es, ss, c, span.last, gap, job.startDate);
    }
    var es, ss := TickExtends(s', c);
  }

  // ---------------------------------------------------------------- the scheduler itself

  /** The jobs are one for each listed category that still exists and is not in `todo`, for the day after its listed date. */
  ghost predicate JobEachBut(added: seq<RoomGenerationJob>, latest: map<nat, int>, categories: map<nat, RoomCategory>, todo: set<nat>) {
    && (forall j :: 0 <= j < |added| ==>
          var c := added[j].roomCategoryId;
          c in latest && c in categories && c !in todo && IsJobFor(added[j], categories[c], latest[c]))
    && (forall c :: c in latest && c in categories && c !in todo ==> exists j :: 0 <= j < |added| && added[j].roomCategoryId == c)
    && (forall i, j :: 0 <= i < j < |added| ==> added[i].roomCategoryId != added[j].roomCategoryId)
  }

  ghost predicate OneJobEach(added: seq<RoomGenerationJob>, latest: map<nat, int>, categories: map<nat, RoomCategory>) {
    JobEachBut(added, latest, categories, {})
  }

  lemma JobForOneMore(added: seq<RoomGenerationJob>, more: seq<RoomGenerationJob>, latest: map<nat, int>,
                      categories: map<nat, RoomCategory>, todo: set<nat>, c: nat)
    requires JobEachBut(added, latest, categories, todo) && CategoriesOk(categories) && c in todo && c in latest
    requires if c in categories then |more| == 1 && IsJobFor(more[0], categories[c], latest[c]) else more == []
    ensures JobEachBut(added + more, latest, categories, todo - {c})
  {
    forall d | d in latest && d in categories && d !in todo - {c}
      ensures exists j :: 0 <= j < |added + more| && (added + more)[j].roomCategoryId == d
    {
      if d == c {
        assert (added + more)[|added|].roomCategoryId == d;
      } else {
        var j :| 0 <= j < |added| && added[j].roomCategoryId == d;
        assert (added + more)[j].roomCategoryId == d;
      }
    }
  }

  class Scheduler {
    const roomRepository: RoomRepository
    var categories: map<nat, RoomCategory>
    var queue: seq<RoomGenerationJob>

    constructor (roomRepository: RoomRepository, categories: map<nat, RoomCategory>)
      ensures this.roomRepository == roomRepository && this.categories == categories && queue == []
    {
      this.roomRepository := roomRepository;
      this.categories := categories;
      this.queue := [];
    }

    method ExtendCategoryAvailability(category: nat, latestDate: int)
      modifies this`queue
      ensures category in categories && !HasRoom(roomRepository.rows, category, latestDate + 86_400_000) ==>
                && |queue| == |old(queue)| + 1 && queue[..|old(queue)|] == old(queue)
                && IsJobFor(queue[|old(queue)|], categories[category], latestDate)
      ensures category !in categories || HasRoom(roomRepository.rows, category, latestDate + 86_400_000) ==> queue == old(queue)
    {
      var nextDate := latestDate + MS_PER_DAY;
      if category !in categories {
        return;
      }
      var roomCategory := categories[category];
      var existingRoom := roomRepository.FindByRoomCategoryIdAndDate(category, nextDate);
      if existingRoom.Some? {
        return;
      }
      var endDate := nextDate + MS_PER_DAY;
      queue := queue + [RoomGenerationJob(roomCategory.id, nextDate, endDate, Some(roomCategory.price), Some(1.0))];
    }

    /**
     A tick that nothing interrupts enqueues exactly one job for every category that has a live row and
     still exists, starting the day after its latest date: the existence check never suppresses one.
     */
    method ExtendRoomAvailability()
      requires CategoriesOk(categories)
      modifies this`queue
      ensures |queue| >= |old(queue)| && queue[..|old(queue)|] == old(queue)
      ensures OneJobEach(queue[|old(queue)|..], LatestDates(roomRepository.rows), categories)
    {
      var latest := roomRepository.FindLatestDatesForAllCategories();
      if |latest| == 0 {
        return;
      }
      ExtendCategories(latest);
    }

    /** The loop over the categories that the query listed. */
    method ExtendCategories(latest: map<nat, int>)
      requires CategoriesOk(categories) && latest == LatestDates(roomRepository.rows)
      modifies this`queue
      ensures |queue| >= |old(queue)| && queue[..|old(queue)|] == old(queue)
      ensures OneJobEach(queue[|old(queue)|..], latest, categories)
    {
      var todo := latest.Keys;
      ghost var first := |queue|;
      while todo != {}
        invariant todo <= latest.Keys
        invariant first <= |queue| && queue[..first] == old(queue)
        invariant JobEachBut(queue[first..], latest, categories, todo)
        decreases todo
      {
        var c :| c in todo;
        NothingAfterTheLatest(roomRepository.rows, c);
        ghost var before := queue;
        ExtendCategoryAvailability(c, latest[c]);
        JobForOneMore(before[first..], queue[|before|..], latest, categories, todo, c);
        assert queue[first..] == before[first..] + queue[|before|..];
        todo := todo - {c};
      }
    }
  }

  /** No category has a live row on the day after its latest date. */
  lemma NothingAfterTheLatest(rows: seq<Room>, c: nat)
    requires c in LatestDates(rows)
    ensures !HasRoom(rows, c, NextDate(LatestDates(rows)[c]))
  {
    LatestDatesAreLatest(rows, c);
  }
}
