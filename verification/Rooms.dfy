/**
 The `rooms` table of HotelService and the statements of its repository. Times are integers in
 milliseconds since the epoch (UTC). A row's id is its position: ids are handed out in insertion
 order and nothing modelled here removes a row.
 */
module Rooms {
  import opened Wrappers

  const MS_PER_DAY := 86_400_000

  datatype Room = Room(hotelId: nat, roomCategoryId: nat, date: int, price: int,
                       bookingId: Option<nat>, deleted: bool)

  /** The midnight `k` days after `start`. */
  function Day(start: int, k: int): int {
    start + k * MS_PER_DAY
  }

  /** Division rounded up, `Math.ceil(x / y)`. */
  function CeilDiv(x: int, y: int): int
    requires y > 0
  {
    (x + y - 1) / y
  }

  lemma CeilDivIs(x: int, y: int, q: int)
    requires y > 0 && (q - 1) * y < x <= q * y
    ensures CeilDiv(x, y) == q
  {
    var z := x + y - 1;
    var d := z / y;
    assert z == d * y + z % y;
    assert q * y <= z < (q + 1) * y;
    if d < q {
      MulMono(d + 1, q, y);
    } else if d > q {
      MulMono(q + 1, d, y);
    }
  }

  /** Rounding up, said without division. */
  lemma CeilDivAtMost(x: int, y: int, n: int)
    requires y > 0
    ensures CeilDiv(x, y) <= n <==> x <= n * y
    ensures (CeilDiv(x, y) - 1) * y < x <= CeilDiv(x, y) * y
  {
    var z, q := x + y - 1, CeilDiv(x, y);
    assert z == q * y + z % y;
    assert (q - 1) * y == q * y - y;
    if q <= n {
      MulMono(q, n, y);
    } else {
      MulMono(n, q - 1, y);
    }
  }

  lemma MulMono(a: int, b: int, y: int)
    requires a <= b && y >= 0
    ensures a * y <= b * y
  {
  }

  // ---------------------------------------------------------------- dates of a category

  predicate IsLive(room: Room, category: nat, date: int) {
    room.roomCategoryId == category && room.date == date && !room.deleted
  }

  predicate HasRoom(rows: seq<Room>, category: nat, date: int) {
    exists i :: 0 <= i < |rows| && IsLive(rows[i], category, date)
  }

  /** The ids of the live rows of a category on a date. */
  ghost function LiveIds(rows: seq<Room>, category: nat, date: int): set<nat> {
    set i: nat | i < |rows| && IsLive(rows[i], category, date)
  }

  lemma HasRoomIffLiveId(rows: seq<Room>, category: nat, date: int)
    ensures HasRoom(rows, category, date) <==> |LiveIds(rows, category, date)| > 0
  {
    if HasRoom(rows, category, date) {
      var i :| 0 <= i < |rows| && IsLive(rows[i], category, date);
      assert i in LiveIds(rows, category, date);
    } else {
      assert LiveIds(rows, category, date) == {};
    }
  }

  lemma HasRoomAppend(a: seq<Room>, b: seq<Room>, category: nat, date: int)
    ensures HasRoom(a + b, category, date) <==> HasRoom(a, category, date) || HasRoom(b, category, date)
  {
    if i :| 0 <= i < |a| && IsLive(a[i], category, date) {
      assert IsLive((a + b)[i], category, date);
    }
    if i :| 0 <= i < |b| && IsLive(b[i], category, date) {
      assert IsLive((a + b)[|a| + i], category, date);
    }
    if i :| 0 <= i < |a + b| && IsLive((a + b)[i], category, date) {
      assert if i < |a| then IsLive(a[i], category, date) else IsLive(b[i - |a|], category, date);
    }
  }

  // ---------------------------------------------------------------- free rows, stamping, release

  /** What the range query selects: free rows of the category, soft-deleted ones included. */
  predicate IsFree(room: Room, category: nat, from: int, to: int) {
    && room.roomCategoryId == category
    && room.bookingId == None
    && from <= room.date <= to
  }

  /** The ids of the free rows in the closed range [from, to], in row order. */
  function Available(rows: seq<Room>, category: nat, from: int, to: int): (ids: seq<nat>)
    ensures forall id: nat :: id in ids <==> id < |rows| && IsFree(rows[id], category, from, to)
    ensures forall i, j :: 0 <= i < j < |ids| ==> ids[i] < ids[j]
  {
    if rows == [] then []
    else
      var last := |rows| - 1;
      var rest := Available(rows[..last], category, from, to);
      assert forall j :: 0 <= j < |rest| ==> rest[j] in rest;
      if IsFree(rows[last], category, from, to) then rest + [last] else rest
  }

  /** The ids of the free rows of the category dated in the closed range [from, to]. */
  ghost function FreeIds(rows: seq<Room>, category: nat, from: int, to: int): set<nat> {
    set id: nat | id < |rows| && rows[id].roomCategoryId == category && rows[id].bookingId == None && from <= rows[id].date <= to
  }

  lemma {:induction false} SetOfIncreasing(ids: seq<nat>, all: set<nat>)
    requires forall i, j :: 0 <= i < j < |ids| ==> ids[i] < ids[j]
    requires forall id :: id in all <==> id in ids
    ensures |all| == |ids|
  {
    if ids == [] {
      assert all == {};
    } else {
      var rest, last := ids[..|ids| - 1], ids[|ids| - 1];
      assert ids == rest + [last];
      SetOfIncreasing(rest, all - {last});
    }
  }

  /** The range query lists each free row once. */
  lemma AvailableAreFree(rows: seq<Room>, category: nat, from: int, to: int)
    ensures var ids, free := Available(rows, category, from, to), FreeIds(rows, category, from, to);
            |ids| == |free| && forall id :: id in free <==> id in ids
  {
    SetOfIncreasing(Available(rows, category, from, to), FreeIds(rows, category, from, to));
  }

  /** Writes `booking` into the listed rows, whatever they held before. */
  function Stamped(rows: seq<Room>, ids: seq<nat>, booking: nat): (r: seq<Room>)
    ensures |r| == |rows|
  {
    seq(|rows|, i requires 0 <= i < |rows| =>
      if i in ids then rows[i].(bookingId := Some(booking)) else rows[i])
  }

  /** Frees every row held by `booking`. */
  function Released(rows: seq<Room>, booking: nat): (r: seq<Room>)
    ensures |r| == |rows|
  {
    seq(|rows|, i requires 0 <= i < |rows| =>
      if rows[i].bookingId == Some(booking) then rows[i].(bookingId := None) else rows[i])
  }

  predicate Holds(rows: seq<Room>, booking: nat, id: nat) {
    id < |rows| && rows[id].bookingId == Some(booking)
  }

  /** Stamping and releasing never touch a row's category, date or deletion mark. */
  lemma BookingKeepsDates(rows: seq<Room>, ids: seq<nat>, booking: nat, category: nat, date: int)
    ensures LiveIds(Stamped(rows, ids, booking), category, date) == LiveIds(rows, category, date)
    ensures LiveIds(Released(rows, booking), category, date) == LiveIds(rows, category, date)
  {
    var stamped, released := Stamped(rows, ids, booking), Released(rows, booking);
    assert forall i: nat | i < |rows| :: IsLive(stamped[i], category, date) == IsLive(rows[i], category, date);
    assert forall i: nat | i < |rows| :: IsLive(released[i], category, date) == IsLive(rows[i], category, date);
  }

  /**
   Releasing a booking undoes its own stamp on rows that were free: the table is the one before the
   stamp, provided the booking held nothing else.
   */
  lemma ReleaseUndoesStamp(rows: seq<Room>, category: nat, from: int, to: int, booking: nat)
    requires forall id :: !Holds(rows, booking, id)
    ensures Released(Stamped(rows, Available(rows, category, from, to), booking), booking) == rows
  {
    var ids := Available(rows, category, from, to);
    var back := Released(Stamped(rows, ids, booking), booking);
    forall i: nat | i < |rows|
      ensures back[i] == rows[i]
    {
      assert !Holds(rows, booking, i);
      if i in ids {
        assert IsFree(rows[i], category, from, to);
      }
    }
  }

  // ---------------------------------------------------------------- the latest date of a category

  /** `date` is the latest live date of the category. */
  ghost predicate IsLatest(rows: seq<Room>, category: nat, date: int) {
    && HasRoom(rows, category, date)
    && forall i :: 0 <= i < |rows| && rows[i].roomCategoryId == category && !rows[i].deleted ==> rows[i].date <= date
  }

  /** The map from each category with a live row to its latest live date. */
  function LatestDates(rows: seq<Room>): map<nat, int> {
    if rows == [] then map[]
    else
      var room := rows[|rows| - 1];
      var rest := LatestDates(rows[..|rows| - 1]);
      if room.deleted || (room.roomCategoryId in rest && room.date <= rest[room.roomCategoryId]) then rest
      else rest[room.roomCategoryId := room.date]
  }

  /** LatestDates knows a category exactly when it has a live row, and then maps it to its latest date. */
  lemma {:induction false} LatestDatesAreLatest(rows: seq<Room>, category: nat)
    ensures category in LatestDates(rows) <==> exists i :: 0 <= i < |rows| && rows[i].roomCategoryId == category && !rows[i].deleted
    ensures category in LatestDates(rows) ==> IsLatest(rows, category, LatestDates(rows)[category])
  {
    if rows == [] {
    } else {
      var n := |rows| - 1;
      var rest := LatestDates(rows[..n]);
      LatestDatesAreLatest(rows[..n], category);
      if category in rest {
        var i :| 0 <= i < n && IsLive(rows[..n][i], category, rest[category]);
        assert IsLive(rows[i], category, rest[category]);
      }
      if category in LatestDates(rows) && rows[n].roomCategoryId == category && !rows[n].deleted {
        assert IsLive(rows[n], category, rows[n].date);
      }
    }
  }

  // ---------------------------------------------------------------- the repository

  class RoomRepository {
    var rows: seq<Room>

    constructor ()
      ensures rows == []
    {
      rows := [];
    }

    method FindByRoomCategoryIdAndDate(category: nat, date: int) returns (room: Option<Room>)
      ensures room.Some? <==> HasRoom(rows, category, date)
      ensures room.Some? ==>
                && room.value in rows && room.value.roomCategoryId == category && room.value.date == date
                && !room.value.deleted
      ensures room.None? ==>
                forall i :: 0 <= i < |rows| && rows[i].roomCategoryId == category && rows[i].date == date ==> rows[i].deleted
    {
      if i :| 0 <= i < |rows| && IsLive(rows[i], category, date) {
        room := Some(rows[i]);
      } else {
        room := None;
        assert forall i :: 0 <= i < |rows| ==> !IsLive(rows[i], category, date);
      }
    }

    /** Every old row keeps its id and its contents; a category gains exactly the dates of its new live rows. */
    method BulkCreate(rooms: seq<Room>)
      modifies this
      ensures |rows| == |old(rows)| + |rooms|
      ensures forall id :: 0 <= id < |old(rows)| ==> rows[id] == old(rows)[id]
      ensures forall i :: 0 <= i < |rooms| ==> rows[|old(rows)| + i] == rooms[i]
      ensures forall c, date :: HasRoom(rows, c, date) <==> HasRoom(old(rows), c, date) || HasRoom(rooms, c, date)
    {
      ghost var before := rows;
      rows := rows + rooms;
      forall c, date
        ensures HasRoom(rows, c, date) <==> HasRoom(before, c, date) || HasRoom(rooms, c, date)
      {
        HasRoomAppend(before, rooms, c, date);
      }
    }

    /** Each category with a live row is listed once, with the latest date of any of its live rows. */
    method FindLatestDatesForAllCategories() returns (latest: map<nat, int>)
      ensures forall c :: c in latest <==> exists i :: 0 <= i < |rows| && rows[i].roomCategoryId == c && !rows[i].deleted
      ensures forall c :: c in latest ==> IsLatest(rows, c, latest[c])
      ensures latest == LatestDates(rows)
    {
      latest := map[];
      for n := 0 to |rows|
        invariant latest == LatestDates(rows[..n])
      {
        assert rows[..n + 1][..n] == rows[..n];
        var room := rows[n];
        if !room.deleted && (room.roomCategoryId in latest ==> latest[room.roomCategoryId] < room.date) {
          latest := latest[room.roomCategoryId := room.date];
        }
      }
      assert rows[..|rows|] == rows;
      forall c {
        LatestDatesAreLatest(rows, c);
      }
    }

    /** Exactly the unbooked rows of the category with a date in the closed range, in row order. */
    method FindByRoomCategoryIdAndDateRange(category: nat, checkIn: int, checkOut: int) returns (ids: seq<nat>)
      ensures forall id: nat :: id in ids <==>
                && id < |rows| && rows[id].roomCategoryId == category && rows[id].bookingId == None
                && checkIn <= rows[id].date <= checkOut
      ensures forall i, j :: 0 <= i < j < |ids| ==> ids[i] < ids[j]
      ensures ids == Available(rows, category, checkIn, checkOut)
    {
      ids := [];
      for n := 0 to |rows|
        invariant ids == Available(rows[..n], category, checkIn, checkOut)
      {
        assert rows[..n + 1][..n] == rows[..n];
        if IsFree(rows[n], category, checkIn, checkOut) {
          ids := ids + [n];
        }
      }
      assert rows[..|rows|] == rows;
    }

    /** The listed rows are held by the booking, whoever held them; nothing else of any row changes. */
    method UpdateBookingIdToRooms(ids: seq<nat>, booking: nat)
      modifies this
      ensures |rows| == |old(rows)|
      ensures forall id: nat :: id < |rows| && id in ids ==>
                Holds(rows, booking, id) && rows[id] == old(rows)[id].(bookingId := Some(booking))
      ensures forall id: nat :: id < |rows| && id !in ids ==> rows[id] == old(rows)[id]
      ensures rows == Stamped(old(rows), ids, booking)
    {
      rows := Stamped(rows, ids, booking);
    }

    method DeleteBookingIdFromRooms(booking: nat)
      modifies this
      ensures rows == Released(old(rows), booking)
      ensures |rows| == |old(rows)|
      ensures forall id: nat :: id < |rows| ==>
                rows[id] == if old(rows)[id].bookingId == Some(booking) then old(rows)[id].(bookingId := None) else old(rows)[id]
      ensures forall id :: !Holds(rows, booking, id)
      ensures forall id, other :: other != booking ==> (Holds(rows, other, id) <==> old(Holds(rows, other, id)))
    {
      rows := Released(rows, booking);
    }
  }
}
