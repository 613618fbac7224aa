/**
 The batch job as its code runs when nothing interleaves, with the outcome of every request as a
 parameter. Each call is a run of the rating protocol.
 */
module ReviewBatchProcessor {
  import opened Wrappers
  import opened RatingAverage
  import opened RatingProtocol

  /** How the work on one hotel goes wrong, if it does; an operation may take effect and still report failure. */
  datatype HotelFault =
    | NoFault
    | BeginFails
    | RatingFails
    | UpdateFails(tookEffect: bool)
    | MarkFails
    | CommitFails(tookEffect: bool)

  /** The hotel's new rating is stored. */
  predicate Updates(fault: HotelFault) {
    !fault.BeginFails? && !fault.RatingFails? && fault != UpdateFails(false)
  }

  /** The hotel's reviews are marked for good. */
  predicate Marks(fault: HotelFault) {
    fault.NoFault? || fault == CommitFails(true)
  }

  // ---------------------------------------------------------------- the ratings a faultless run leaves

  /** The hotels after the aggregates have been folded in, one by one. */
  function ReratedAll(hotels: map<nat, Hotel>, aggs: seq<Aggregate>): map<nat, Hotel> {
    if aggs == [] then hotels
    else
      var rest, a := ReratedAll(hotels, aggs[..|aggs| - 1]), aggs[|aggs| - 1];
      if a.hotelId in rest && a.count > 0 then rest[a.hotelId := Rerated(rest[a.hotelId], a.sum, a.count)] else rest
  }

  lemma ReratedOneMore(hotels: map<nat, Hotel>, aggs: seq<Aggregate>, a: Aggregate)
    requires a.hotelId in ReratedAll(hotels, aggs) && a.count > 0
    ensures ReratedAll(hotels, aggs + [a])
         == ReratedAll(hotels, aggs)[a.hotelId := Rerated(ReratedAll(hotels, aggs)[a.hotelId], a.sum, a.count)]
  {
    assert (aggs + [a])[..|aggs|] == aggs;
  }

  /** Each hotel with something pending is folded once, with its own reviews; the others keep their rating. */
  lemma {:induction false} EachHotelOnce(hotels: map<nat, Hotel>, reviews: seq<Review>, cutoff: int, order: seq<nat>, h: nat)
    requires h in hotels
    requires forall i, j :: 0 <= i < j < |order| ==> order[i] != order[j]
    requires forall i :: 0 <= i < |order| ==> Pending(reviews, order[i], cutoff).Keys != {}
    ensures var after, a := ReratedAll(hotels, Aggregates(reviews, cutoff, order)), AggregateOf(reviews, h, cutoff);
            && after.Keys == hotels.Keys
            && (h in order ==> a.count > 0 && after[h] == Rerated(hotels[h], a.sum, a.count))
            && (h !in order ==> after[h] == hotels[h])
  {
    if order == [] {
    } else {
      var front, last := order[..|order| - 1], order[|order| - 1];
      EachHotelOnce(hotels, reviews, cutoff, front, h);
      assert Aggregates(reviews, cutoff, order)[..|order| - 1] == Aggregates(reviews, cutoff, front);
      assert order == front + [last];
    }
  }

  // ---------------------------------------------------------------- runs of the protocol

  /** The three tables the job writes. */
  datatype Books = Books(reviews: seq<Review>, hotels: map<nat, Hotel>, ledger: seq<Entry>)

  /** The state in which `self` holds the lock and is the only run. */
  function Here(b: Books, self: nat, r: Run, now: int): State {
    State(b.reviews, b.hotels, Some(self), map[self := r], now, b.ledger)
  }

  ghost predicate At(start: State, b: Books, self: nat, r: Run) {
    Reaches(start, Here(b, self, r, start.now))
  }

  /** One step of the only run. */
  lemma Advance(start: State, b: Books, self: nat, r: Run, e: Event, b': Books, r': Run)
    requires At(start, b, self, r) && Enabled(Here(b, self, r, start.now), e)
    requires Next(Here(b, self, r, start.now), e) == Here(b', self, r', start.now)
    ensures At(start, b', self, r')
  {
    Step(start, Here(b, self, r, start.now), e);
  }

  lemma AtFetched(start: State, self: nat, order: seq<nat>)
    requires start.runs == map[] && start.lock == None && IsGrouping(start.reviews, start.now, order)
    ensures var b := Books(start.reviews, start.hotels, start.ledger);
            At(start, b, self, Working(start.now, Aggregates(start.reviews, start.now, order), Idle))
  {
    var b := Books(start.reviews, start.hotels, start.ledger);
    ReachesItself(start);
    Step(start, start, GetLock(self));
    assert Next(start, GetLock(self)) == Here(b, self, Locked, start.now);
    Advance(start, b, self, Locked, TakeCutoff(self), b, Cut(start.now));
    Advance(start, b, self, Cut(start.now), Fetch(self, order),
            b, Working(start.now, Aggregates(start.reviews, start.now, order), Idle));
  }

  lemma AtRated(start: State, b: Books, self: nat, cutoff: int, todo: seq<Aggregate>)
    requires |todo| > 0 && At(start, b, self, Working(cutoff, todo, Idle))
    ensures At(start, b, self, Working(cutoff, todo, RatingOf(b.hotels, todo[0].hotelId)))
  {
    Advance(start, b, self, Working(cutoff, todo, Idle), BeginTx(self), b, Working(cutoff, todo, InTx));
    Advance(start, b, self, Working(cutoff, todo, InTx), ReadRating(self),
            b, Working(cutoff, todo, RatingOf(b.hotels, todo[0].hotelId)));
  }

  function UpdatedBooks(b: Books, a: Aggregate): Books
    requires a.hotelId in b.hotels && a.count > 0
  {
    b.(hotels := b.hotels[a.hotelId := Rerated(b.hotels[a.hotelId], a.sum, a.count)],
       ledger := b.ledger + [Entry(a.hotelId, a.sum, a.count, a.members, false)])
  }

  lemma AtUpdated(start: State, b: Books, self: nat, cutoff: int, todo: seq<Aggregate>)
    requires |todo| > 0 && todo[0].hotelId in b.hotels && todo[0].count > 0
    requires At(start, b, self, Working(cutoff, todo, RatingOf(b.hotels, todo[0].hotelId)))
    ensures At(start, UpdatedBooks(b, todo[0]), self, Working(cutoff, todo, Updated(|b.ledger|)))
  {
    Advance(start, b, self, Working(cutoff, todo, RatingOf(b.hotels, todo[0].hotelId)), UpdateRating(self),
            UpdatedBooks(b, todo[0]), Working(cutoff, todo, Updated(|b.ledger|)));
  }

  function CommittedBooks(b: Books, a: Aggregate, cutoff: int, entry: nat): Books
    requires entry < |b.ledger|
  {
    b.(reviews := MarkSynced(b.reviews, Pending(b.reviews, a.hotelId, cutoff).Keys, a.members),
       ledger := b.ledger[entry := b.ledger[entry].(committed := true)])
  }

  lemma AtMarked(start: State, b: Books, self: nat, cutoff: int, todo: seq<Aggregate>, entry: nat)
    requires |todo| > 0 && At(start, b, self, Working(cutoff, todo, Updated(entry)))
    ensures At(start, b, self, Working(cutoff, todo, Marked(entry, Pending(b.reviews, todo[0].hotelId, cutoff).Keys)))
  {
    Advance(start, b, self, Working(cutoff, todo, Updated(entry)), Mark(self),
            b, Working(cutoff, todo, Marked(entry, Pending(b.reviews, todo[0].hotelId, cutoff).Keys)));
  }

  lemma AtCommitted(start: State, b: Books, self: nat, cutoff: int, todo: seq<Aggregate>, entry: nat)
    requires |todo| > 0 && entry < |b.ledger| && At(start, b, self, Working(cutoff, todo, Updated(entry)))
    ensures At(start, CommittedBooks(b, todo[0], cutoff, entry), self, Working(cutoff, todo[1..], Idle))
  {
    AtMarked(start, b, self, cutoff, todo, entry);
    Advance(start, b, self, Working(cutoff, todo, Marked(entry, Pending(b.reviews, todo[0].hotelId, cutoff).Keys)),
            Commit(self), CommittedBooks(b, todo[0], cutoff, entry), Working(cutoff, todo[1..], Idle));
  }

  lemma AtSkipped(start: State, b: Books, self: nat, cutoff: int, todo: seq<Aggregate>, phase: Phase)
    requires |todo| > 0 && At(start, b, self, Working(cutoff, todo, phase))
    ensures At(start, b, self, Working(cutoff, todo[1..], Idle))
  {
    Advance(start, b, self, Working(cutoff, todo, phase), SkipHotel(self), b, Working(cutoff, todo[1..], Idle));
  }

  /** The tables after the work on one hotel. */
  function AfterHotel(b: Books, a: Aggregate, cutoff: int, fault: HotelFault): Books
    requires a.count > 0
  {
    if !Updates(fault) || a.hotelId !in b.hotels then b
    else if Marks(fault) then CommittedBooks(UpdatedBooks(b, a), a, cutoff, |b.ledger|)
    else UpdatedBooks(b, a)
  }

  lemma AtHotelDone(start: State, b: Books, self: nat, cutoff: int, todo: seq<Aggregate>, fault: HotelFault)
    requires |todo| > 0 && todo[0].count > 0 && At(start, b, self, Working(cutoff, todo, Idle))
    ensures At(start, AfterHotel(b, todo[0], cutoff, fault), self, Working(cutoff, todo[1..], Idle))
  {
    var a := todo[0];
    if !Updates(fault) || a.hotelId !in b.hotels {
      AtSkipped(start, b, self, cutoff, todo, Idle);
    } else {
      AtRated(start, b, self, cutoff, todo);
      AtUpdated(start, b, self, cutoff, todo);
      if Marks(fault) {
        AtCommitted(start, UpdatedBooks(b, a), self, cutoff, todo, |b.ledger|);
      } else {
        AtSkipped(start, UpdatedBooks(b, a), self, cutoff, todo, Updated(|b.ledger|));
      }
    }
  }

  /** The tables after the work on the hotels of a list, in turn. */
  function AfterHotels(b: Books, aggs: seq<Aggregate>, cutoff: int, faults: seq<HotelFault>): Books
    requires |faults| == |aggs| && forall i :: 0 <= i < |aggs| ==> aggs[i].count > 0
  {
    if aggs == [] then b
    else
      var n := |aggs| - 1;
      AfterHotel(AfterHotels(b, aggs[..n], cutoff, faults[..n]), aggs[n], cutoff, faults[n])
  }

  lemma OneMoreHotel(b: Books, aggs: seq<Aggregate>, cutoff: int, faults: seq<HotelFault>, i: nat)
    requires |faults| == |aggs| && i < |aggs| && forall j :: 0 <= j < |aggs| ==> aggs[j].count > 0
    ensures AfterHotels(b, aggs[..i + 1], cutoff, faults[..i + 1])
         == AfterHotel(AfterHotels(b, aggs[..i], cutoff, faults[..i]), aggs[i], cutoff, faults[i])
  {
    assert aggs[..i + 1][..i] == aggs[..i] && faults[..i + 1][..i] == faults[..i];
  }

  /** The loop over the hotels is a run of the protocol. */
  lemma {:induction false} AtHotelsDone(start: State, b: Books, self: nat, cutoff: int, aggs: seq<Aggregate>,
                                        faults: seq<HotelFault>, i: nat)
    requires |faults| == |aggs| && i <= |aggs| && forall j :: 0 <= j < |aggs| ==> aggs[j].count > 0
    requires At(start, b, self, Working(cutoff, aggs, Idle))
    ensures At(start, AfterHotels(b, aggs[..i], cutoff, faults[..i]), self, Working(cutoff, aggs[i..], Idle))
  {
    if i == 0 {
      assert aggs[0..] == aggs;
    } else {
      AtHotelsDone(start, b, self, cutoff, aggs, faults, i - 1);
      OneMoreHotel(b, aggs, cutoff, faults, i - 1);
      AtHotelDone(start, AfterHotels(b, aggs[..i - 1], cutoff, faults[..i - 1]), self, cutoff, aggs[i - 1..], faults[i - 1]);
      assert aggs[i - 1..][1..] == aggs[i..];
    }
  }

  lemma AtEnd(start: State, b: Books, self: nat, r: Run)
    requires At(start, b, self, r)
    ensures Reaches(start, State(b.reviews, b.hotels, None, map[], start.now, b.ledger))
  {
    Step(start, Here(b, self, r, start.now), EndRun(self));
    assert Next(Here(b, self, r, start.now), EndRun(self))
        == State(b.reviews, b.hotels, None, map[], start.now, b.ledger);
  }

  // ---------------------------------------------------------------- the processor

  class Processor {
    var reviews: seq<Review>
    var hotels: map<nat, Hotel>          // HotelService, reached over HTTP
    var lock: Option<nat>                // the MySQL advisory lock
    ghost var ledger: seq<Entry>

    constructor (hotels: map<nat, Hotel>)
      ensures reviews == [] && this.hotels == hotels && lock == None && ledger == []
    {
      reviews, this.hotels, lock, ledger := [], hotels, None, [];
    }

    ghost function Contents(): Books
      reads this
    {
      Books(reviews, hotels, ledger)
    }

    /** No job is running. */
    ghost function Quiet(now: int): State
      reads this
    {
      State(reviews, hotels, lock, map[], now, ledger)
    }

    // -------------------------------------------------------------- the review table

    /** A new review is unsynced; the table refuses a rating outside 1..5. */
    method CreateReview(hotelId: nat, rating: int, now: int) returns (r: Result<nat>)
      modifies this`reviews
      ensures r == if 1 <= rating <= 5 then Ok(|old(reviews)|) else Err(InternalServer)
      ensures reviews == if r.Ok? then old(reviews) + [Review(hotelId, rating, now, false, false, None)] else old(reviews)
      ensures Reaches(old(Quiet(now)), Quiet(now))
    {
      ReachesItself(Quiet(now));
      if rating < 1 || rating > 5 {
        return Err(InternalServer);
      }
      Step(Quiet(now), Quiet(now), Insert(hotelId, rating));
      r := Ok(|reviews|);
      reviews := reviews + [Review(hotelId, rating, now, false, false, None)];
    }

    /** An update that changes nothing is reported like one of a missing review; a synced review stays synced. */
    method UpdateReview(id: nat, rating: int, sameComment: bool, now: int) returns (r: Result<nat>)
      modifies this`reviews
      ensures r.Ok? <==>
                && id < |old(reviews)| && !old(reviews)[id].deleted && 1 <= rating <= 5
                && !(sameComment && rating == old(reviews)[id].rating)
      ensures reviews == if r.Ok? then old(reviews)[id := old(reviews)[id].(rating := rating)] else old(reviews)
      ensures Reaches(old(Quiet(now)), Quiet(now))
    {
      ReachesItself(Quiet(now));
      if id >= |reviews| || reviews[id].deleted {
        return Err(NotFound);
      }
      if rating < 1 || rating > 5 {
        return Err(InternalServer);
      }
      if sameComment && rating == reviews[id].rating {
        return Err(NotFound);
      }
      Step(Quiet(now), Quiet(now), Edit(id, rating));
      reviews := reviews[id := reviews[id].(rating := rating)];
      return Ok(id);
    }

    /** A review is deleted once, and softly: whether it is synced does not change. */
    method DeleteReview(id: nat, now: int) returns (r: Result<nat>)
      modifies this`reviews
      ensures r == if id < |old(reviews)| && !old(reviews)[id].deleted then Ok(id) else Err(NotFound)
      ensures reviews == if r.Ok? then old(reviews)[id := old(reviews)[id].(deleted := true)] else old(reviews)
      ensures Reaches(old(Quiet(now)), Quiet(now))
    {
      ReachesItself(Quiet(now));
      if id >= |reviews| || reviews[id].deleted {
        return Err(NotFound);
      }
      Step(Quiet(now), Quiet(now), SoftDelete(id));
      reviews := reviews[id := reviews[id].(deleted := true)];
      return Ok(id);
    }

    // -------------------------------------------------------------- the batch job

    /** One aggregate for each hotel with something pending, in the order the database groups them. */
    method FetchUnappliedAggregates(cutoff: int, order: seq<nat>) returns (results: seq<Aggregate>)
      requires IsGrouping(reviews, cutoff, order)
      ensures results == Aggregates(reviews, cutoff, order)
      ensures forall k :: 0 <= k < |reviews| && !reviews[k].synced && reviews[k].createdAt <= cutoff ==>
                exists i :: 0 <= i < |results| && results[i].hotelId == reviews[k].hotelId
      ensures forall i, j :: 0 <= i < j < |results| ==> results[i].hotelId != results[j].hotelId
      ensures forall i :: 0 <= i < |results| ==> results[i].count > 0
      ensures forall i :: 0 <= i < |results| ==> SumsUp(results[i], reviews, cutoff)
    {
      results := [];
      for i := 0 to |order|
        invariant results == Aggregates(reviews, cutoff, order[..i])
      {
        results := results + [AggregateOf(reviews, order[i], cutoff)];
      }
      assert order[..|order|] == order;
      forall k | 0 <= k < |reviews| && !reviews[k].synced && reviews[k].createdAt <= cutoff {
        FetchedEveryHotel(reviews, cutoff, order, k);
      }
      forall i | 0 <= i < |order| {
        FetchedSumUp(reviews, cutoff, order, i);
      }
    }

    /**
     The loop body for one hotel: its rating is updated unless a fault comes before the update took effect, and
     its reviews are marked unless a fault comes before the commit took effect.
     */
    method ProcessHotel(a: Aggregate, cutoff: int, fault: HotelFault)
      requires a.count > 0
      modifies this`reviews, this`hotels, this`ledger
      ensures Contents() == AfterHotel(old(Contents()), a, cutoff, fault)
      ensures hotels.Keys == old(hotels).Keys && |reviews| == |old(reviews)|
      ensures var updated := a.hotelId in hotels && fault !in {BeginFails, RatingFails, UpdateFails(false)};
              && (updated ==> IsFold(old(hotels)[a.hotelId], a.sum, a.count, hotels[a.hotelId]))
              && forall h :: h in hotels && !(updated && h == a.hotelId) ==> hotels[h] == old(hotels)[h]
      ensures var marked := a.hotelId in hotels && fault in {NoFault, CommitFails(true)};
              forall k :: 0 <= k < |reviews| ==>
                var was := old(reviews)[k];
                reviews[k] ==
                  if marked && was.hotelId == a.hotelId && !was.synced && was.createdAt <= cutoff
                  then was.(synced := true, countedAs := if k in a.members then Some(a.members[k]) else None)
                  else was
    {
      if a.hotelId in hotels {
        ReratedIsFold(hotels[a.hotelId], a.sum, a.count);
      }
      if fault.BeginFails? || fault.RatingFails? {
        return;
      }
      var hotelData := RatingOf(hotels, a.hotelId);
      var oldAvg := hotelData.cents as real / 100.0;
      var oldCnt := hotelData.count;
      var newCount := oldCnt + a.count;
      var newAvg := NewAverage(oldAvg, oldCnt, a.sum, a.count);

      if a.hotelId !in hotels || fault == UpdateFails(false) {
        return;
      }
      ghost var before := Contents();
      var newRating := Hotel(Some(Cents(newAvg)), Some(newCount));
      assert newRating == Rerated(hotels[a.hotelId], a.sum, a.count);
      hotels := hotels[a.hotelId := newRating];
      ghost var entry := |ledger|;
      ledger := ledger + [Entry(a.hotelId, a.sum, a.count, a.members, false)];
      ghost var updated := Contents();
      assert updated == UpdatedBooks(before, a);
      if fault.UpdateFails? || fault.MarkFails? || fault == CommitFails(false) {
        return;
      }
      reviews := MarkSynced(reviews, Pending(reviews, a.hotelId, cutoff).Keys, a.members);
      ledger := ledger[entry := ledger[entry].(committed := true)];
      assert Contents() == CommittedBooks(updated, a, cutoff, entry);
    }

    /**
     `order` is the order of the fetched groups and `faults` says what happens to each. With a busy lock or a
     failed fetch nothing changes. Otherwise the lock is free again at the end, and if nothing failed every review
     created up to now is marked and each hotel's pending reviews have been folded into its rating.
     */
    method ProcessPendingRatings(self: nat, now: int, fetchFails: bool, order: seq<nat>, faults: seq<HotelFault>)
      returns (ran: bool)
      requires IsGrouping(reviews, now, order) && |faults| == |order|
      modifies this
      ensures ran <==> old(lock) == None && !fetchFails
      ensures !ran ==> Contents() == old(Contents()) && lock == old(lock)
      ensures ran ==> lock == None
      ensures Reaches(old(Quiet(now)), Quiet(now))
      ensures ran && AllFine(old(hotels), order, faults) ==>
                && MarkedAll(old(reviews), reviews, now)
                && FoldsAll(old(hotels), hotels, old(reviews), now)
    {
      if lock != None {
        ReachesItself(Quiet(now));
        return false;
      }
      lock := Some(self);
      var cutoff := now;
      if fetchFails {
        lock := None;
        ReachesItself(Quiet(now));
        return false;
      }
      var aggs := FetchUnappliedAggregates(cutoff, order);
      FetchedNonEmpty(reviews, cutoff, order);
      if |aggs| != 0 {
        ProcessHotels(aggs, cutoff, faults);
      }
      lock := None;
      JobRuns(old(Quiet(now)), self, order, faults);
      FaultlessJob(old(Contents()), cutoff, order, faults);
      FoldedAll(old(Contents()), cutoff, order);
      return true;
    }

    /** The loop over the fetched groups goes on whatever happens to one of them. */
    method ProcessHotels(aggs: seq<Aggregate>, cutoff: int, faults: seq<HotelFault>)
      requires |faults| == |aggs| && forall i :: 0 <= i < |aggs| ==> aggs[i].count > 0
      modifies this`reviews, this`hotels, this`ledger
      ensures Contents() == AfterHotels(old(Contents()), aggs, cutoff, faults)
    {
      for i := 0 to |aggs|
        invariant Contents() == AfterHotels(old(Contents()), aggs[..i], cutoff, faults[..i])
      {
        ProcessHotel(aggs[i], cutoff, faults[i]);
        OneMoreHotel(old(Contents()), aggs, cutoff, faults, i);
      }
      assert aggs[..|aggs|] == aggs && faults[..|aggs|] == faults;
    }
  }

  lemma JobRuns(start: State, self: nat, order: seq<nat>, faults: seq<HotelFault>)
    requires start.runs == map[] && start.lock == None
    requires IsGrouping(start.reviews, start.now, order) && |faults| == |order|
    requires forall i :: 0 <= i < |order| ==> AggregateOf(start.reviews, order[i], start.now).count > 0
    ensures var b := Books(start.reviews, start.hotels, start.ledger);
            var after := AfterHotels(b, Aggregates(start.reviews, start.now, order), start.now, faults);
            Reaches(start, State(after.reviews, after.hotels, None, map[], start.now, after.ledger))
  {
    var b, aggs := Books(start.reviews, start.hotels, start.ledger), Aggregates(start.reviews, start.now, order);
    AtFetched(start, self, order);
    AtHotelsDone(start, b, self, start.now, aggs, faults, |aggs|);
    assert aggs[..|aggs|] == aggs && faults[..|aggs|] == faults && aggs[|aggs|..] == [];
    AtEnd(start, AfterHotels(b, aggs, start.now, faults), self, Working(start.now, [], Idle));
  }

  // ---------------------------------------------------------------- a job without faults

  /** Exactly the listed groups have been folded in and marked. */
  ghost predicate Done(b: Books, after: Books, cutoff: int, order: seq<nat>) {
    && after.hotels.Keys == b.hotels.Keys
    && after.hotels == ReratedAll(b.hotels, Aggregates(b.reviews, cutoff, order))
    && MarkedIn(b.reviews, after.reviews, cutoff, order)
  }

  lemma DoneOneMore(b: Books, after: Books, cutoff: int, order: seq<nat>, h: nat)
    requires Done(b, after, cutoff, order) && h !in order && h in b.hotels
    requires AggregateOf(b.reviews, h, cutoff).count > 0
    ensures Done(b, AfterHotel(after, AggregateOf(b.reviews, h, cutoff), cutoff, NoFault), cutoff, order + [h])
  {
    var a := AggregateOf(b.reviews, h, cutoff);
    FaultlessHotel(after, a, cutoff);
    assert Aggregates(b.reviews, cutoff, order + [h]) == Aggregates(b.reviews, cutoff, order) + [a];
    ReratedOneMore(b.hotels, Aggregates(b.reviews, cutoff, order), a);
    MarkedOneMore(b.reviews, after.reviews, cutoff, order, h);
  }

  lemma FaultlessHotel(b: Books, a: Aggregate, cutoff: int)
    requires a.count > 0 && a.hotelId in b.hotels
    ensures var after := AfterHotel(b, a, cutoff, NoFault);
            && after.hotels == b.hotels[a.hotelId := Rerated(b.hotels[a.hotelId], a.sum, a.count)]
            && after.reviews == MarkSynced(b.reviews, Pending(b.reviews, a.hotelId, cutoff).Keys, a.members)
  {
  }

  /** The groups are fetched ones, all different, and nothing goes wrong with any of them. */
  ghost predicate Faultless(b: Books, cutoff: int, order: seq<nat>, faults: seq<HotelFault>) {
    && |faults| == |order|
    && (forall i :: 0 <= i < |order| ==> order[i] !in order[..i])
    && (forall i :: 0 <= i < |order| ==> faults[i] == NoFault && order[i] in b.hotels)
    && (forall i :: 0 <= i < |order| ==> AggregateOf(b.reviews, order[i], cutoff).count > 0)
  }

  lemma FaultlessFront(b: Books, cutoff: int, order: seq<nat>, faults: seq<HotelFault>)
    requires order != [] && Faultless(b, cutoff, order, faults)
    ensures Faultless(b, cutoff, order[..|order| - 1], faults[..|order| - 1])
  {
    var front := order[..|order| - 1];
    forall i | 0 <= i < |front|
      ensures front[i] !in front[..i]
    {
      assert front[..i] == order[..i];
    }
  }

  lemma FaultlessCounts(b: Books, cutoff: int, order: seq<nat>, faults: seq<HotelFault>)
    requires Faultless(b, cutoff, order, faults)
    ensures var aggs := Aggregates(b.reviews, cutoff, order);
            |faults| == |aggs| && forall i :: 0 <= i < |aggs| ==> aggs[i].count > 0
  {
  }

  lemma {:induction false} FaultlessIsDone(b: Books, cutoff: int, order: seq<nat>, faults: seq<HotelFault>)
    requires Faultless(b, cutoff, order, faults)
    ensures var aggs := Aggregates(b.reviews, cutoff, order);
            && (|faults| == |aggs| && forall i :: 0 <= i < |aggs| ==> aggs[i].count > 0)
            && Done(b, AfterHotels(b, aggs, cutoff, faults), cutoff, order)
  {
    FaultlessCounts(b, cutoff, order, faults);
    if order == [] {
    } else {
      var n := |order| - 1;
      var aggs := Aggregates(b.reviews, cutoff, order);
      FaultlessFront(b, cutoff, order, faults);
      FaultlessIsDone(b, cutoff, order[..n], faults[..n]);
      assert aggs[..n] == Aggregates(b.reviews, cutoff, order[..n]);
      DoneOneMore(b, AfterHotels(b, aggs[..n], cutoff, faults[..n]), cutoff, order[..n], order[n]);
      assert order == order[..n] + [order[n]];
    }
  }

  lemma FaultlessJob(b: Books, cutoff: int, order: seq<nat>, faults: seq<HotelFault>)
    requires IsGrouping(b.reviews, cutoff, order) && |faults| == |order|
    requires forall j :: 0 <= j < |order| ==> AggregateOf(b.reviews, order[j], cutoff).count > 0
    ensures AllFine(b.hotels, order, faults) ==>
              var aggs := Aggregates(b.reviews, cutoff, order);
              var after := AfterHotels(b, aggs, cutoff, faults);
              && MarkedAll(b.reviews, after.reviews, cutoff)
              && after.hotels.Keys == b.hotels.Keys && after.hotels == ReratedAll(b.hotels, aggs)
  {
    if AllFine(b.hotels, order, faults) {
      assert Faultless(b, cutoff, order, faults);
      FaultlessIsDone(b, cutoff, order, faults);
      MarkedWholly(b.reviews, AfterHotels(b, Aggregates(b.reviews, cutoff, order), cutoff, faults).reviews, cutoff, order);
    }
  }

  /** Nothing goes wrong with any of the hotels. */
  ghost predicate AllFine(hotels: map<nat, Hotel>, order: seq<nat>, faults: seq<HotelFault>)
    requires |faults| == |order|
  {
    forall i :: 0 <= i < |order| ==> faults[i] == NoFault && order[i] in hotels
  }

  /** Exactly the reviews of the listed hotels that were pending are marked, each counted at the rating it had. */
  ghost predicate MarkedIn(before: seq<Review>, after: seq<Review>, cutoff: int, listed: seq<nat>) {
    && |after| == |before|
    && forall k :: 0 <= k < |before| ==>
         after[k] ==
           if before[k].hotelId in listed && !before[k].synced && before[k].createdAt <= cutoff
           then before[k].(synced := true, countedAs := Some(before[k].rating)) else before[k]
  }

  /** Every unsynced review up to the cutoff is marked, counted at the rating it had; the others are as they were. */
  ghost predicate MarkedAll(before: seq<Review>, after: seq<Review>, cutoff: int) {
    && |after| == |before|
    && forall k :: 0 <= k < |before| ==>
         after[k] ==
           if !before[k].synced && before[k].createdAt <= cutoff
           then before[k].(synced := true, countedAs := Some(before[k].rating)) else before[k]
  }

  /** The hotel has the unsynced ratings of its reviews up to the cutoff folded in, or its old rating if there are none. */
  ghost predicate FoldsPending(before: Hotel, after: Hotel, reviews: seq<Review>, h: nat, cutoff: int) {
    exists a: Aggregate :: a.hotelId == h && SumsUp(a, reviews, cutoff)
      && if a.count == 0 then after == before else IsFold(before, a.sum, a.count, after)
  }

  ghost predicate FoldsAll(before: map<nat, Hotel>, after: map<nat, Hotel>, reviews: seq<Review>, cutoff: int) {
    after.Keys == before.Keys && forall h :: h in before ==> FoldsPending(before[h], after[h], reviews, h, cutoff)
  }

  lemma FoldedAll(b: Books, cutoff: int, order: seq<nat>)
    requires IsGrouping(b.reviews, cutoff, order)
    ensures FoldsAll(b.hotels, ReratedAll(b.hotels, Aggregates(b.reviews, cutoff, order)), b.reviews, cutoff)
  {
    forall h | h in b.hotels {
      FoldedOnce(b, cutoff, order, h);
    }
    RatedKeys(b.hotels, Aggregates(b.reviews, cutoff, order));
  }

  lemma {:induction false} RatedKeys(hotels: map<nat, Hotel>, aggs: seq<Aggregate>)
    ensures ReratedAll(hotels, aggs).Keys == hotels.Keys
  {
    if aggs == [] {
    } else {
      RatedKeys(hotels, aggs[..|aggs| - 1]);
    }
  }

  lemma MarkedWholly(before: seq<Review>, after: seq<Review>, cutoff: int, order: seq<nat>)
    requires IsGrouping(before, cutoff, order) && MarkedIn(before, after, cutoff, order)
    ensures MarkedAll(before, after, cutoff)
  {
    forall k | 0 <= k < |before| && !before[k].synced && before[k].createdAt <= cutoff
      ensures before[k].hotelId in order
    {
      assert k in Pending(before, before[k].hotelId, cutoff).Keys;
    }
  }

  lemma FoldedOnce(b: Books, cutoff: int, order: seq<nat>, h: nat)
    requires IsGrouping(b.reviews, cutoff, order) && h in b.hotels
    ensures var after := ReratedAll(b.hotels, Aggregates(b.reviews, cutoff, order));
            h in after && FoldsPending(b.hotels[h], after[h], b.reviews, h, cutoff)
  {
    var a := AggregateOf(b.reviews, h, cutoff);
    EachHotelOnce(b.hotels, b.reviews, cutoff, order, h);
    AggregateSumsUp(b.reviews, h, cutoff);
    if h in order {
      ReratedIsFold(b.hotels[h], a.sum, a.count);
    } else {
      assert Pending(b.reviews, h, cutoff).Keys == {};
    }
  }

  lemma FetchedNonEmpty(reviews: seq<Review>, cutoff: int, order: seq<nat>)
    requires IsGrouping(reviews, cutoff, order)
    ensures forall i :: 0 <= i < |order| ==> AggregateOf(reviews, order[i], cutoff).count > 0
  {
    forall i | 0 <= i < |order|
      ensures AggregateOf(reviews, order[i], cutoff).count > 0
    {
      assert Pending(reviews, order[i], cutoff).Keys != {};
    }
  }

  /** Every pending review is in a group of its hotel. */
  lemma FetchedEveryHotel(reviews: seq<Review>, cutoff: int, order: seq<nat>, k: nat)
    requires IsGrouping(reviews, cutoff, order)
    requires k < |reviews| && !reviews[k].synced && reviews[k].createdAt <= cutoff
    ensures exists i :: 0 <= i < |order| && Aggregates(reviews, cutoff, order)[i].hotelId == reviews[k].hotelId
  {
    var h := reviews[k].hotelId;
    assert k in Pending(reviews, h, cutoff).Keys;
    var i :| 0 <= i < |order| && order[i] == h;
    assert Aggregates(reviews, cutoff, order)[i].hotelId == h;
  }

  /** Each group sums up its hotel's pending reviews. */
  lemma FetchedSumUp(reviews: seq<Review>, cutoff: int, order: seq<nat>, i: nat)
    requires IsGrouping(reviews, cutoff, order) && i < |order|
    ensures Aggregates(reviews, cutoff, order)[i].count > 0
    ensures SumsUp(Aggregates(reviews, cutoff, order)[i], reviews, cutoff)
  {
    FetchedNonEmpty(reviews, cutoff, order);
    AggregateSumsUp(reviews, order[i], cutoff);
  }

  /** Marking what is pending for one more hotel marks its reviews and no others. */
  lemma MarkedOneMore(before: seq<Review>, reviews: seq<Review>, cutoff: int, listed: seq<nat>, h: nat)
    requires h !in listed && MarkedIn(before, reviews, cutoff, listed)
    ensures MarkedIn(before, MarkSynced(reviews, Pending(reviews, h, cutoff).Keys, Pending(before, h, cutoff)), cutoff, listed + [h])
  {
    var ids, members := Pending(reviews, h, cutoff).Keys, Pending(before, h, cutoff);
    forall k: nat | k < |reviews|
      ensures k in ids <==> k in members
      ensures k in members <==> before[k].hotelId == h && !before[k].synced && before[k].createdAt <= cutoff
    {
    }
  }
}
