/** What the availability check of a create guarantees about the dates of the stay. */
module StayCoverage {
  import opened Wrappers
  import opened Rooms
  import opened BookingProtocol

  /** Every date of the closed range from check-in to check-out, which is what the range query asks for. */
  ghost function StayDates(request: BookingRequest): set<int> {
    DaysUpTo(request.checkIn, TotalNights(request))
  }

  ghost function DaysUpTo(start: int, n: int): set<int> {
    set k: nat | k <= n :: Day(start, k)
  }

  ghost function DatesOf(rooms: seq<Room>, ids: seq<nat>): set<int>
    requires forall id :: id in ids ==> id < |rooms|
  {
    set id | id in ids :: rooms[id].date
  }

  /** The dates on which booking `b` holds a room. */
  ghost function HeldDates(rooms: seq<Room>, b: nat): set<int> {
    set id: nat | id < |rooms| && Holds(rooms, b, id) :: rooms[id].date
  }

  /** At most one row per date, all dates at midnight. */
  ghost predicate OneRowPerMidnight(rooms: seq<Room>, category: nat) {
    && (forall i, j :: 0 <= i < j < |rooms| && rooms[i].roomCategoryId == category == rooms[j].roomCategoryId ==>
          rooms[i].date != rooms[j].date)
    && (forall i :: 0 <= i < |rooms| && rooms[i].roomCategoryId == category ==> rooms[i].date % MS_PER_DAY == 0)
  }

  /** The stay is at least one night and begins and ends at midnight. */
  predicate MidnightStay(request: BookingRequest) {
    request.checkIn % MS_PER_DAY == 0 && request.checkOut % MS_PER_DAY == 0 && request.checkIn < request.checkOut
  }

  lemma {:induction false} DaysUpToCount(start: int, n: int)
    requires n >= -1
    ensures |DaysUpTo(start, n)| == n + 1
  {
    if n == -1 {
      assert DaysUpTo(start, n) == {};
    } else {
      DaysUpToCount(start, n - 1);
      assert DaysUpTo(start, n) == DaysUpTo(start, n - 1) + {Day(start, n)};
    }
  }

  lemma {:induction false} DatesOfCount(rooms: seq<Room>, ids: seq<nat>)
    requires forall i :: 0 <= i < |ids| ==> ids[i] < |rooms|
    requires forall i, j :: 0 <= i < j < |ids| ==> rooms[ids[i]].date != rooms[ids[j]].date
    ensures |DatesOf(rooms, ids)| == |ids|
  {
    if ids == [] {
      assert DatesOf(rooms, ids) == {};
    } else {
      var rest, last := ids[..|ids| - 1], ids[|ids| - 1];
      DatesOfCount(rooms, rest);
      assert ids == rest + [last];
      assert DatesOf(rooms, ids) == DatesOf(rooms, rest) + {rooms[last].date};
      assert forall i :: 0 <= i < |rest| ==> rest[i] == ids[i];
    }
  }

  /** The free rows lie on dates of the stay, one row to a date. */
  lemma FreeDatesAreStayDates(rooms: seq<Room>, request: BookingRequest)
    requires OneRowPerMidnight(rooms, request.roomCategoryId) && MidnightStay(request)
    ensures var ids := Available(rooms, request.roomCategoryId, request.checkIn, request.checkOut);
            && DatesOf(rooms, ids) <= StayDates(request)
            && |DatesOf(rooms, ids)| == |ids|
            && |StayDates(request)| == TotalNights(request) + 1
            && Day(request.checkIn, TotalNights(request)) == request.checkOut
  {
    var ids := Available(rooms, request.roomCategoryId, request.checkIn, request.checkOut);
    var nights := TotalNights(request);
    assert nights == (request.checkOut - request.checkIn) / MS_PER_DAY;
    forall i | 0 <= i < |ids|
      ensures ids[i] < |rooms| && IsFree(rooms[ids[i]], request.roomCategoryId, request.checkIn, request.checkOut)
    {
      assert ids[i] in ids;
    }
    forall i, j | 0 <= i < j < |ids|
      ensures rooms[ids[i]].date != rooms[ids[j]].date
    {
      assert ids[i] < ids[j];
    }
    DatesOfCount(rooms, ids);
    DaysUpToCount(request.checkIn, nights);
    forall date | date in DatesOf(rooms, ids)
      ensures date in StayDates(request)
    {
      var k := (date - request.checkIn) / MS_PER_DAY;
      assert date == Day(request.checkIn, k) && 0 <= k <= nights;
    }
  }

  /**
   The exact meaning of the availability check. It compares the number of free rows in the closed range
   with the number of nights, so it passes if and only if at most one date of the range has no free row.
   */
  lemma EnoughIffAtMostOneDateMissing(rooms: seq<Room>, request: BookingRequest)
    requires OneRowPerMidnight(rooms, request.roomCategoryId) && MidnightStay(request)
    ensures var ids := Available(rooms, request.roomCategoryId, request.checkIn, request.checkOut);
            Enough(ids, request) <==> |StayDates(request) - DatesOf(rooms, ids)| <= 1
  {
    FreeDatesAreStayDates(rooms, request);
    var dates := DatesOf(rooms, Available(rooms, request.roomCategoryId, request.checkIn, request.checkOut));
    assert StayDates(request) == dates + (StayDates(request) - dates);
  }

  /**
   A create whose check passes and whose read and stamp nothing separates leaves its booking holding rooms
   on at least as many dates as nights, all within the stay: at most one date of the range is not held.
   */
  lemma StampCoversStay(rooms: seq<Room>, request: BookingRequest, b: nat)
    requires OneRowPerMidnight(rooms, request.roomCategoryId) && MidnightStay(request)
    requires Enough(Available(rooms, request.roomCategoryId, request.checkIn, request.checkOut), request)
    requires forall id :: !Holds(rooms, b, id)
    ensures var held := HeldDates(Stamped(rooms,
                          Available(rooms, request.roomCategoryId, request.checkIn, request.checkOut), b), b);
            && held <= StayDates(request)
            && |held| >= TotalNights(request)
            && |StayDates(request) - held| <= 1
  {
    FreeDatesAreStayDates(rooms, request);
    EnoughIffAtMostOneDateMissing(rooms, request);
    StampedDates(rooms, Available(rooms, request.roomCategoryId, request.checkIn, request.checkOut), b);
  }

  /** A booking that held nothing holds, after a stamp, exactly the stamped dates. */
  lemma StampedDates(rooms: seq<Room>, ids: seq<nat>, b: nat)
    requires forall id :: id in ids ==> id < |rooms|
    requires forall id :: !Holds(rooms, b, id)
    ensures HeldDates(Stamped(rooms, ids, b), b) == DatesOf(rooms, ids)
  {
    var stamped := Stamped(rooms, ids, b);
    forall id: nat
      ensures Holds(stamped, b, id) <==> id in ids
      ensures id < |rooms| ==> stamped[id].date == rooms[id].date
    {
      assert !Holds(rooms, b, id);
    }
    forall date | date in DatesOf(rooms, ids)
      ensures date in HeldDates(stamped, b)
    {
      var id :| id in ids && rooms[id].date == date;
      assert Holds(stamped, b, id) && stamped[id].date == date;
    }
  }

  /**
   The one date that may be missing can be a night. Whenever a night has no free row and the check still
   passes, it is because the row of the check-out date was counted in its place.
   */
  lemma MissedNightMeansCheckOutCounted(rooms: seq<Room>, request: BookingRequest, k: nat)
    requires OneRowPerMidnight(rooms, request.roomCategoryId) && MidnightStay(request)
    requires var ids := Available(rooms, request.roomCategoryId, request.checkIn, request.checkOut);
             Enough(ids, request) && k < TotalNights(request) && Day(request.checkIn, k) !in DatesOf(rooms, ids)
    ensures var ids := Available(rooms, request.roomCategoryId, request.checkIn, request.checkOut);
            StayDates(request) - DatesOf(rooms, ids) == {Day(request.checkIn, k)} && request.checkOut in DatesOf(rooms, ids)
  {
    FreeDatesAreStayDates(rooms, request);
    EnoughIffAtMostOneDateMissing(rooms, request);
    var nights := TotalNights(request);
    assert Day(request.checkIn, k) in StayDates(request) && Day(request.checkIn, nights) in StayDates(request);
    OnlyMissing(StayDates(request),
                DatesOf(rooms, Available(rooms, request.roomCategoryId, request.checkIn, request.checkOut)),
                Day(request.checkIn, k), Day(request.checkIn, nights));
  }

  lemma OnlyMissing(all: set<int>, present: set<int>, x: int, y: int)
    requires |all - present| <= 1 && x in all - present && y in all && y != x
    ensures all - present == {x} && y in present
  {
    assert |all - present - {x}| == 0;
    assert y !in all - present - {x};
  }

  /** Every night of the stay is among the dates. */
  ghost predicate EveryNight(dates: set<int>, request: BookingRequest) {
    forall k: nat :: k < TotalNights(request) ==> Day(request.checkIn, k) in dates
  }

  lemma EveryNightIff(dates: set<int>, request: BookingRequest)
    requires MidnightStay(request) && dates <= StayDates(request) && |dates| >= TotalNights(request)
    requires |StayDates(request)| == TotalNights(request) + 1
    requires Day(request.checkIn, TotalNights(request)) == request.checkOut
    ensures EveryNight(dates, request) <==> request.checkOut !in dates || |dates| == TotalNights(request) + 1
  {
    var all, nights := StayDates(request), TotalNights(request);
    assert all == dates + (all - dates);
    assert Day(request.checkIn, nights) in all;
    if EveryNight(dates, request) && request.checkOut in dates {
      assert all <= dates;
    }
    if request.checkOut !in dates || |dates| == nights + 1 {
      forall k: nat | k < nights
        ensures Day(request.checkIn, k) in dates
      {
        var night := Day(request.checkIn, k);
        assert night in all;
        if night !in dates {
          OnlyMissing(all, dates, night, request.checkOut);
        }
      }
    }
  }

  /**
   The exact condition under which a stay that passes the check has a free row on every night: the check-out
   date has none, or every date of the range has one.
   */
  lemma NightsCoveredIff(rooms: seq<Room>, request: BookingRequest)
    requires OneRowPerMidnight(rooms, request.roomCategoryId) && MidnightStay(request)
    requires Enough(Available(rooms, request.roomCategoryId, request.checkIn, request.checkOut), request)
    ensures var ids := Available(rooms, request.roomCategoryId, request.checkIn, request.checkOut);
            EveryNight(DatesOf(rooms, ids), request) <==>
              request.checkOut !in DatesOf(rooms, ids) || |ids| == TotalNights(request) + 1
  {
    FreeDatesAreStayDates(rooms, request);
    EveryNightIff(DatesOf(rooms, Available(rooms, request.roomCategoryId, request.checkIn, request.checkOut)), request);
  }

  /** The same for what the booking holds once an uninterrupted create has stamped the rooms it read. */
  lemma NightsHeldIff(rooms: seq<Room>, request: BookingRequest, b: nat)
    requires OneRowPerMidnight(rooms, request.roomCategoryId) && MidnightStay(request)
    requires Enough(Available(rooms, request.roomCategoryId, request.checkIn, request.checkOut), request)
    requires forall id :: !Holds(rooms, b, id)
    ensures var ids := Available(rooms, request.roomCategoryId, request.checkIn, request.checkOut);
            EveryNight(HeldDates(Stamped(rooms, ids, b), b), request) <==>
              request.checkOut !in DatesOf(rooms, ids) || |ids| == TotalNights(request) + 1
  {
    StampedDates(rooms, Available(rooms, request.roomCategoryId, request.checkIn, request.checkOut), b);
    NightsCoveredIff(rooms, request);
  }

  /** It happens: a two-night stay is sold with nothing free on its second night. */
  lemma SuccessCanMissANight() returns (rooms: seq<Room>, request: BookingRequest)
    ensures OneRowPerMidnight(rooms, request.roomCategoryId) && MidnightStay(request) && TotalNights(request) == 2
    ensures Enough(Available(rooms, request.roomCategoryId, request.checkIn, request.checkOut), request)
    ensures !HasRoom(rooms, request.roomCategoryId, Day(request.checkIn, 1))
  {
    rooms := [Room(1, 1, 0, 100, None, false), Room(1, 1, 2 * MS_PER_DAY, 100, None, false)];
    request := BookingRequest(1, 1, 1, 0, 2 * MS_PER_DAY, 1, 200);
    var ids := Available(rooms, 1, 0, 2 * MS_PER_DAY);
    assert IsFree(rooms[0], 1, 0, 2 * MS_PER_DAY) && IsFree(rooms[1], 1, 0, 2 * MS_PER_DAY);
    assert 0 in ids && 1 in ids;
    assert |ids| >= 2;
  }
}
