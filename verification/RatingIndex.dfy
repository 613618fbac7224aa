/**
 The rating job stores a hotel's new rating through the hotel service, which queues an index job for it like for
 any other update. What that does to the search index.
 */
module RatingIndex {
  import opened Wrappers
  import HotelDocument
  import Index = HotelIndex
  import opened RatingProtocol
  import opened ReviewBatchProcessor

  /** A rating stored for a hotel. */
  datatype RatingWrite = RatingWrite(hotelId: nat, cents: int, count: int)

  /** The ratings a run of the job stores: one for each hotel it gets as far as updating. */
  function WritesOf(b: Books, aggs: seq<Aggregate>, cutoff: int, faults: seq<HotelFault>): seq<RatingWrite>
    requires |faults| == |aggs| && forall i :: 0 <= i < |aggs| ==> aggs[i].count > 0
  {
    if aggs == [] then []
    else
      var n := |aggs| - 1;
      var before, a := AfterHotels(b, aggs[..n], cutoff, faults[..n]), aggs[n];
      var rest := WritesOf(b, aggs[..n], cutoff, faults[..n]);
      if !Updates(faults[n]) || a.hotelId !in before.hotels then rest
      else
        var hotel := Rerated(before.hotels[a.hotelId], a.sum, a.count);
        rest + [RatingWrite(a.hotelId, hotel.cents.GetOr(0), hotel.ratingCount.GetOr(0))]
  }

  lemma {:induction false} SameHotels(b: Books, aggs: seq<Aggregate>, cutoff: int, faults: seq<HotelFault>)
    requires |faults| == |aggs| && forall i :: 0 <= i < |aggs| ==> aggs[i].count > 0
    ensures AfterHotels(b, aggs, cutoff, faults).hotels.Keys == b.hotels.Keys
  {
    if aggs == [] {
    } else {
      SameHotels(b, aggs[..|aggs| - 1], cutoff, faults[..|aggs| - 1]);
    }
  }

  /** A hotel is written iff it exists and some aggregate of it is not stopped before the update. */
  lemma {:induction false} WrittenIff(b: Books, aggs: seq<Aggregate>, cutoff: int, faults: seq<HotelFault>, h: nat)
    requires |faults| == |aggs| && forall i :: 0 <= i < |aggs| ==> aggs[i].count > 0
    ensures (exists w :: w in WritesOf(b, aggs, cutoff, faults) && w.hotelId == h)
       <==> h in b.hotels && exists i :: 0 <= i < |aggs| && aggs[i].hotelId == h && Updates(faults[i])
    ensures forall w :: w in WritesOf(b, aggs, cutoff, faults) ==> w.hotelId in b.hotels
  {
    if aggs == [] {
    } else {
      var n := |aggs| - 1;
      WrittenIff(b, aggs[..n], cutoff, faults[..n], h);
      SameHotels(b, aggs[..n], cutoff, faults[..n]);
      var rest, writes := WritesOf(b, aggs[..n], cutoff, faults[..n]), WritesOf(b, aggs, cutoff, faults);
      if w :| w in rest && w.hotelId == h {
        assert w in writes;
      }
      if i :| 0 <= i < n && aggs[i].hotelId == h && Updates(faults[i]) {
        assert aggs[..n][i] == aggs[i] && faults[..n][i] == faults[i];
      }
      if aggs[n].hotelId == h && Updates(faults[n]) && h in b.hotels {
        assert writes[|writes| - 1].hotelId == h && writes[|writes| - 1] in writes;
      }
    }
  }

  /** The ratings stored for one hotel. */
  function WritesFor(writes: seq<RatingWrite>, h: nat): seq<RatingWrite> {
    if writes == [] then []
    else
      var front, last := WritesFor(writes[..|writes| - 1], h), writes[|writes| - 1];
      if last.hotelId == h then front + [last] else front
  }

  lemma WritesForOneMore(writes: seq<RatingWrite>, w: RatingWrite, h: nat)
    ensures WritesFor(writes + [w], h) == if w.hotelId == h then WritesFor(writes, h) + [w] else WritesFor(writes, h)
  {
    assert (writes + [w])[..|writes|] == writes;
  }

  /** The hotels after the work on one of them. */
  lemma HotelsAfterOne(b: Books, a: Aggregate, cutoff: int, fault: HotelFault)
    requires a.count > 0
    ensures AfterHotel(b, a, cutoff, fault).hotels
         == if !Updates(fault) || a.hotelId !in b.hotels then b.hotels
            else b.hotels[a.hotelId := Rerated(b.hotels[a.hotelId], a.sum, a.count)]
  {
  }

  /** These ratings, the hotel having had `before` so far, leave it with `after`. */
  predicate LeavesRating(before: map<nat, Hotel>, after: map<nat, Hotel>, h: nat, stored: seq<RatingWrite>) {
    if stored == [] then h in before ==> h in after && after[h] == before[h]
    else
      && h in after
      && after[h].cents == Some(stored[|stored| - 1].cents) && after[h].ratingCount == Some(stored[|stored| - 1].count)
  }

  lemma RatingOneMore(before: map<nat, Hotel>, after: map<nat, Hotel>, h: nat, stored: seq<RatingWrite>, w: RatingWrite, hotel: Hotel)
    requires LeavesRating(before, after, h, stored)
    requires w.hotelId in after && hotel.cents == Some(w.cents) && hotel.ratingCount == Some(w.count)
    ensures LeavesRating(before, after[w.hotelId := hotel], h, if w.hotelId == h then stored + [w] else stored)
  {
  }

  /** The last rating written for a hotel is the one the job leaves it with. */
  lemma {:induction false} LastWriteStands(b: Books, aggs: seq<Aggregate>, cutoff: int, faults: seq<HotelFault>, h: nat)
    requires |faults| == |aggs| && forall i :: 0 <= i < |aggs| ==> aggs[i].count > 0
    ensures LeavesRating(b.hotels, AfterHotels(b, aggs, cutoff, faults).hotels, h,
                         WritesFor(WritesOf(b, aggs, cutoff, faults), h))
  {
    if aggs == [] {
    } else {
      var n := |aggs| - 1;
      LastWriteStands(b, aggs[..n], cutoff, faults[..n], h);
      var before, a, rest := AfterHotels(b, aggs[..n], cutoff, faults[..n]), aggs[n], WritesOf(b, aggs[..n], cutoff, faults[..n]);
      HotelsAfterOne(before, a, cutoff, faults[n]);
      if Updates(faults[n]) && a.hotelId in before.hotels {
        var hotel := Rerated(before.hotels[a.hotelId], a.sum, a.count);
        var w := RatingWrite(a.hotelId, hotel.cents.GetOr(0), hotel.ratingCount.GetOr(0));
        WritesForOneMore(rest, w, h);
        RatingOneMore(b.hotels, before.hotels, h, WritesFor(rest, h), w, hotel);
      }
    }
  }

  // ---------------------------------------------------------------- the writes arrive at the hotel service

  function RatedRow(row: HotelDocument.Hotel, w: RatingWrite): HotelDocument.Hotel {
    row.(rating := Some(w.cents), ratingCount := Some(w.count))
  }

  /** The hotel service and its index once every write has been indexed. */
  function Stored(s: Index.State, writes: seq<RatingWrite>): Index.State {
    if writes == [] then s
    else
      var before, w := Stored(s, writes[..|writes| - 1]), writes[|writes| - 1];
      if w.hotelId !in before.hotels then before
      else Index.WrittenAndIndexed(before, w.hotelId, RatedRow(before.hotels[w.hotelId], w))
  }

  /** Storing the ratings one by one, each indexed undisturbed, is a run of the index protocol. */
  lemma {:induction false} StoredRuns(start: Index.State, s: Index.State, writes: seq<RatingWrite>)
    requires Index.Reaches(start, s) && Index.Quiet(s)
    ensures Index.Reaches(start, Stored(s, writes)) && Index.Quiet(Stored(s, writes))
  {
    if writes == [] {
    } else {
      StoredRuns(start, s, writes[..|writes| - 1]);
      var before, w := Stored(s, writes[..|writes| - 1]), writes[|writes| - 1];
      if w.hotelId in before.hotels {
        Index.UpdateRuns(start, before, w.hotelId, RatedRow(before.hotels[w.hotelId], w));
      }
    }
  }

  /** Storing a rating deletes and revives no row, and puts the hotel into the index whether or not it is deleted. */
  lemma {:induction false} StoredHotels(s: Index.State, writes: seq<RatingWrite>, h: nat)
    requires h in s.hotels
    ensures h in Stored(s, writes).hotels && Stored(s, writes).hotels[h].deleted == s.hotels[h].deleted
    ensures h in Stored(s, writes).index <==> h in s.index || exists w :: w in writes && w.hotelId == h
  {
    if writes == [] {
    } else {
      var front, last := writes[..|writes| - 1], writes[|writes| - 1];
      StoredHotels(s, front, h);
      assert writes == front + [last];
    }
  }

  /**
   A run of the rating job puts a deleted hotel back into the search index exactly when it gets as far as
   updating it; without faults, exactly when the hotel has a pending review.
   */
  lemma RatingJobRevivesDeleted(s: Index.State, b: Books, cutoff: int, order: seq<nat>, faults: seq<HotelFault>, h: nat)
    requires Index.Quiet(s) && s.hotels.Keys == b.hotels.Keys
    requires IsGrouping(b.reviews, cutoff, order) && |faults| == |order|
    requires forall i :: 0 <= i < |order| ==> AggregateOf(b.reviews, order[i], cutoff).count > 0
    requires h in s.hotels && s.hotels[h].deleted && h !in s.index
    ensures var after := Stored(s, WritesOf(b, Aggregates(b.reviews, cutoff, order), cutoff, faults));
            && Index.Reaches(s, after) && Index.Quiet(after) && !Index.Active(after, h)
            && (h in after.index <==> exists i :: 0 <= i < |order| && order[i] == h && Updates(faults[i]))
            && ((forall i :: 0 <= i < |order| ==> Updates(faults[i])) ==>
                  (h in after.index <==> Pending(b.reviews, h, cutoff).Keys != {}))
  {
    var aggs := Aggregates(b.reviews, cutoff, order);
    var writes := WritesOf(b, aggs, cutoff, faults);
    Index.ReachesItself(s);
    StoredRuns(s, s, writes);
    StoredHotels(s, writes, h);
    WrittenIff(b, aggs, cutoff, faults, h);
    assert forall i :: 0 <= i < |order| ==> aggs[i].hotelId == order[i];
  }

  // ---------------------------------------------------------------- the job among everything else that happens

  lemma {:induction false} WritesForIff(writes: seq<RatingWrite>, h: nat)
    ensures WritesFor(writes, h) != [] <==> exists w :: w in writes && w.hotelId == h
    ensures forall w :: w in WritesFor(writes, h) ==> w in writes && w.hotelId == h
  {
    if writes == [] {
    } else {
      var front, last := writes[..|writes| - 1], writes[|writes| - 1];
      WritesForIff(front, h);
      assert writes == front + [last];
    }
  }

  /** From state `i` to state `n` of the run, the changes to `h` are these ratings being stored, in this order. */
  ghost predicate ChangedOnlyBy(es: seq<Index.Event>, ss: seq<Index.State>, i: nat, n: nat, h: nat, writes: seq<RatingWrite>)
    requires Index.IsRun(es, ss) && i <= n <= |es|
    decreases n
  {
    if n == i then writes == []
    else if Index.Mutates(es[n - 1], h) then
      && writes != [] && h in ss[n - 1].hotels
      && es[n - 1] == Index.Update(h, RatedRow(ss[n - 1].hotels[h], writes[|writes| - 1]))
      && ChangedOnlyBy(es, ss, i, n - 1, h, writes[..|writes| - 1])
    else ChangedOnlyBy(es, ss, i, n - 1, h, writes)
  }

  /** The hotel is deleted, and has the last of the ratings stored since then, if any were. */
  predicate DeletedThenRated(s: Index.State, h: nat, writes: seq<RatingWrite>) {
    && h in s.hotels && s.hotels[h].deleted && h in s.lastAction
    && (Index.LastWasIndex(s, h) <==> writes != [])
    && (writes != [] ==> s.hotels[h] == RatedRow(s.hotels[h], writes[|writes| - 1]))
  }

  lemma UntouchedStep(s: Index.State, e: Index.Event, h: nat, writes: seq<RatingWrite>)
    requires Index.Enabled(s, e) && DeletedThenRated(s, h, writes) && !Index.Mutates(e, h)
    ensures DeletedThenRated(Index.Next(s, e), h, writes)
  {
  }

  lemma {:induction false} StoringKeepsDeleted(es: seq<Index.Event>, ss: seq<Index.State>, i: nat, n: nat, h: nat, writes: seq<RatingWrite>)
    requires Index.IsRun(es, ss) && i <= n <= |es| && ChangedOnlyBy(es, ss, i, n, h, writes)
    requires DeletedThenRated(ss[i], h, [])
    ensures DeletedThenRated(ss[n], h, writes)
    decreases n
  {
    if n == i {
    } else {
      var e := es[n - 1];
      assert Index.Enabled(ss[n - 1], e) && ss[n] == Index.Next(ss[n - 1], e);
      if Index.Mutates(e, h) {
        StoringKeepsDeleted(es, ss, i, n - 1, h, writes[..|writes| - 1]);
      } else {
        StoringKeepsDeleted(es, ss, i, n - 1, h, writes);
        UntouchedStep(ss[n - 1], e, h, writes);
      }
    }
  }

  /** The index serves `h` with the last of these ratings. */
  ghost predicate ServesRating(s: Index.State, h: nat, stored: seq<RatingWrite>) {
    && h in s.index && stored != []
    && s.index[h].rating == stored[|stored| - 1].cents && s.index[h].ratingCount == stored[|stored| - 1].count
  }

  /** The index serves `h` with the rating and the number of ratings it has in this table. */
  predicate ServesHotel(s: Index.State, h: nat, hotels: map<nat, Hotel>) {
    && h in s.index && h in hotels
    && Some(s.index[h].rating) == hotels[h].cents && Some(s.index[h].ratingCount) == hotels[h].ratingCount
  }

  /** Ratings stored for a deleted hotel, in any run. */
  lemma StoringRevives(es: seq<Index.Event>, ss: seq<Index.State>, i: nat, n: nat, h: nat, writes: seq<RatingWrite>)
    requires Index.IsRun(es, ss) && Index.IsStart(ss[0]) && i <= n <= |es|
    requires DeletedThenRated(ss[i], h, []) && ChangedOnlyBy(es, ss, i, n, h, WritesFor(writes, h))
    requires Index.Settled(ss[n], h) && h !in ss[n].lost
    ensures !Index.Active(ss[n], h)
    ensures h in ss[n].index <==> exists w :: w in writes && w.hotelId == h
    ensures h in ss[n].index ==> ServesRating(ss[n], h, WritesFor(writes, h))
  {
    var stored := WritesFor(writes, h);
    StoringKeepsDeleted(es, ss, i, n, h, stored);
    WritesForIff(writes, h);
    Index.SettledHotelAgrees(es, ss, n, h);
  }

  /**
   The same whatever else happens meanwhile. Take any run of the index protocol in which, after `h` was deleted,
   the only changes to it are the ratings the job stores for it, at any distance from each other and from the
   worker, restarts and changes to other hotels. Once `h` is settled, with its last job not lost, it is in the
   index exactly if the job got as far as updating it, and then with the rating and count the job left it with.
   */
  lemma RevivedInAnyRun(es: seq<Index.Event>, ss: seq<Index.State>, i: nat, n: nat, h: nat,
                        b: Books, cutoff: int, order: seq<nat>, faults: seq<HotelFault>)
    requires Index.IsRun(es, ss) && Index.IsStart(ss[0]) && i <= n <= |es|
    requires IsGrouping(b.reviews, cutoff, order) && |faults| == |order|
    requires forall k :: 0 <= k < |order| ==> AggregateOf(b.reviews, order[k], cutoff).count > 0
    requires h in b.hotels && DeletedThenRated(ss[i], h, [])
    requires ChangedOnlyBy(es, ss, i, n, h, WritesFor(WritesOf(b, Aggregates(b.reviews, cutoff, order), cutoff, faults), h))
    requires Index.Settled(ss[n], h) && h !in ss[n].lost
    ensures !Index.Active(ss[n], h)
    ensures h in ss[n].index <==> exists k :: 0 <= k < |order| && order[k] == h && Updates(faults[k])
    ensures (forall k :: 0 <= k < |order| ==> Updates(faults[k])) ==>
              (h in ss[n].index <==> Pending(b.reviews, h, cutoff).Keys != {})
    ensures h in ss[n].index ==>
              ServesHotel(ss[n], h, AfterHotels(b, Aggregates(b.reviews, cutoff, order), cutoff, faults).hotels)
  {
    var aggs := Aggregates(b.reviews, cutoff, order);
    LastWriteStands(b, aggs, cutoff, faults, h);
    StoringRevives(es, ss, i, n, h, WritesOf(b, aggs, cutoff, faults));
    WrittenIff(b, aggs, cutoff, faults, h);
    assert forall k :: 0 <= k < |order| ==> aggs[k].hotelId == order[k];
  }
}
