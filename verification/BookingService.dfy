/**
 BookingService as its code runs when nothing interleaves: one method per service function, with the
 outcome of every request to another service or database as a parameter. Each call is a run of the protocol.
 */
module BookingService {
  import opened Wrappers
  import opened Rooms
  import opened BookingProtocol
  import opened StayCoverage

  /** The awaited operations of the three services. */
  datatype Operation = READ | INSERT_BOOKING | INSERT_KEY | STAMP | CHECK | RELEASE | WRITE_STATUS | FINALIZE | COMMIT

  /** An operation reports failure, having taken effect or not. */
  datatype Fault = Fault(operation: Operation, tookEffect: bool)

  predicate Fails(fault: Option<Fault>, operation: Operation) {
    fault.Some? && fault.value.operation == operation
  }

  predicate TakesEffect(fault: Option<Fault>, operation: Operation) {
    Fails(fault, operation) ==> fault.value.tookEffect
  }

  /**
   The tables after a successful create: the booking is PENDING, its key is open, the lock is taken until
   `until`, and the rooms that were read carry the booking.
   */
  function Reserved(t: Tables, request: BookingRequest, ids: seq<nat>, key: string, until: int): Tables {
    var booking := |t.bookings|;
    Tables(Stamped(t.rooms, ids, booking),
           t.bookings + [Booking(request, PENDING)],
           t.keys[key := IdempotencyKey(booking, false)],
           t.locks[request.hotelId := until])
  }

  /** The availability check in terms of the stay's length: as many free rows as days begun, and at least one. */
  lemma EnoughIsPerDayBegun(ids: seq<nat>, request: BookingRequest)
    ensures Enough(ids, request) <==> |ids| > 0 && request.checkOut - request.checkIn <= |ids| * 86_400_000
  {
    CeilDivAtMost(request.checkOut - request.checkIn, MS_PER_DAY, |ids|);
  }

  /** The free rows of the stay: unbooked, of the category, dated from check-in to check-out. */
  ghost function Free(t: Tables, request: BookingRequest): set<nat> {
    FreeIds(t.rooms, request.roomCategoryId, request.checkIn, request.checkOut)
  }

  /** There is a free row, and one for each day begun between check-in and check-out. */
  ghost predicate OffersStay(t: Tables, request: BookingRequest) {
    Free(t, request) != {} && request.checkOut - request.checkIn <= |Free(t, request)| * 86_400_000
  }

  /** Every free row of the stay and no other is taken by a new PENDING booking with an open key; the hotel is locked. */
  ghost predicate TakesFreeRows(t: Tables, t': Tables, request: BookingRequest, key: string, until: int) {
    && t'.bookings == t.bookings + [Booking(request, PENDING)]
    && t'.keys == t.keys[key := IdempotencyKey(|t.bookings|, false)]
    && t'.locks == t.locks[request.hotelId := until]
    && |t'.rooms| == |t.rooms|
    && forall id: nat :: id < |t.rooms| ==>
         t'.rooms[id] == if id in Free(t, request) then t.rooms[id].(bookingId := Some(|t.bookings|)) else t.rooms[id]
  }

  lemma CreateMeans(t: Tables, request: BookingRequest, key: string, until: int)
    ensures Enough(FreeRooms(t, request), request) <==> OffersStay(t, request)
    ensures TakesFreeRows(t, Reserved(t, request, FreeRooms(t, request), key, until), request, key, until)
  {
    EnoughIsPerDayBegun(FreeRooms(t, request), request);
    AvailableAreFree(t.rooms, request.roomCategoryId, request.checkIn, request.checkOut);
    assert |FreeRooms(t, request)| > 0 <==> Free(t, request) != {};
  }

  /** The stamp of a successful create leaves at most one date of the stay without a room. */
  lemma CoverageOf(t: Tables, request: BookingRequest)
    requires Enough(FreeRooms(t, request), request)
    ensures OneRowPerMidnight(t.rooms, request.roomCategoryId) && MidnightStay(request) && HoldersExist(t) ==>
              |StayDates(request) - HeldDates(Stamped(t.rooms, FreeRooms(t, request), |t.bookings|), |t.bookings|)| <= 1
  {
    if OneRowPerMidnight(t.rooms, request.roomCategoryId) && MidnightStay(request) && HoldersExist(t) {
      assert forall id :: !Holds(t.rooms, |t.bookings|, id);
      StampCoversStay(t.rooms, request, |t.bookings|);
    }
  }

  // ---------------------------------------------------------------- a call on its own, as a run of the protocol

  /** A run of the protocol leads from `start` to tables `t` with a single call, at `c`. */
  ghost predicate At(start: State, t: Tables, c: Call) {
    Reaches(start, State(t, map[0 := c], start.now, start.ttl))
  }

  /** A run of the protocol leads from `start` to tables `t`. */
  ghost predicate Ran(start: State, t: Tables) {
    t == start.t || exists c :: At(start, t, c)
  }

  lemma Advance(start: State, t: Tables, c: Call, e: Event, t': Tables, c': Call)
    requires At(start, t, c)
    requires var s := State(t, map[0 := c], start.now, start.ttl);
             Enabled(s, e) && Next(s, e) == State(t', map[0 := c'], start.now, start.ttl)
    ensures At(start, t', c')
  {
    var s' := Step(start, State(t, map[0 := c], start.now, start.ttl), e);
  }

  lemma Begin(start: State, e: Event, c: Call)
    requires start.calls == map[] && Enabled(start, e)
    requires Next(start, e) == State(start.t, map[0 := c], start.now, start.ttl)
    ensures At(start, start.t, c)
  {
    ReachesItself(start);
    var s' := Step(start, start, e);
  }

  lemma AtRead(start: State, request: BookingRequest)
    requires start.calls == map[] && Enough(FreeRooms(start.t, request), request)
    ensures At(start, start.t, CreateRead(request, FreeRooms(start.t, request)))
  {
    Begin(start, ReadRooms(0, request), CreateRead(request, FreeRooms(start.t, request)));
  }

  lemma AtLocked(start: State, t: Tables, request: BookingRequest, ids: seq<nat>)
    requires At(start, t, CreateRead(request, ids)) && LockFree(t, request.hotelId, start.now)
    ensures At(start, t.(locks := t.locks[request.hotelId := start.now + start.ttl]), CreateLocked(request, ids))
  {
    Advance(start, t, CreateRead(request, ids), AcquireLock(0),
            t.(locks := t.locks[request.hotelId := start.now + start.ttl]), CreateLocked(request, ids));
  }

  lemma AtInserted(start: State, t: Tables, request: BookingRequest, ids: seq<nat>)
    requires At(start, t, CreateLocked(request, ids))
    ensures At(start, t.(bookings := t.bookings + [Booking(request, PENDING)]), CreateInserted(ids, |t.bookings|))
  {
    Advance(start, t, CreateLocked(request, ids), InsertBooking(0),
            t.(bookings := t.bookings + [Booking(request, PENDING)]), CreateInserted(ids, |t.bookings|));
  }

  lemma AtKeyed(start: State, t: Tables, ids: seq<nat>, booking: nat, key: string)
    requires At(start, t, CreateInserted(ids, booking)) && key !in t.keys
    ensures At(start, t.(keys := t.keys[key := IdempotencyKey(booking, false)]), CreateKeyed(ids, booking, key))
  {
    Advance(start, t, CreateInserted(ids, booking), InsertKey(0, key),
            t.(keys := t.keys[key := IdempotencyKey(booking, false)]), CreateKeyed(ids, booking, key));
  }

  lemma AtStamped(start: State, t: Tables, ids: seq<nat>, booking: nat, key: string)
    requires At(start, t, CreateKeyed(ids, booking, key))
    ensures At(start, t.(rooms := Stamped(t.rooms, ids, booking)), Created(booking, key))
  {
    Advance(start, t, CreateKeyed(ids, booking, key), StampRooms(0),
            t.(rooms := Stamped(t.rooms, ids, booking)), Created(booking, key));
  }

  lemma AtReleased(start: State, booking: nat)
    requires start.calls == map[] && booking < |start.t.bookings| && start.t.bookings[booking].status != CANCELLED
    ensures At(start, start.t, CancelChecked(booking))
    ensures At(start, start.t.(rooms := Released(start.t.rooms, booking)), CancelReleased(booking))
  {
    Begin(start, CheckBooking(0, booking), CancelChecked(booking));
    Advance(start, start.t, CancelChecked(booking), ReleaseRooms(0),
            start.t.(rooms := Released(start.t.rooms, booking)), CancelReleased(booking));
  }

  lemma AtCancelled(start: State, t: Tables, booking: nat)
    requires At(start, t, CancelReleased(booking)) && booking < |t.bookings|
    ensures At(start, WithStatus(t, booking, BookingStatus.CANCELLED), Cancelled(booking))
  {
    Advance(start, t, CancelReleased(booking), WriteCancelled(0),
            WithStatus(t, booking, BookingStatus.CANCELLED), Cancelled(booking));
  }

  lemma AtCommitted(start: State, key: string, booking: nat)
    requires start.calls == map[] && key in start.t.keys && start.t.keys[key] == IdempotencyKey(booking, false)
    requires booking < |start.t.bookings|
    ensures var t := WithStatus(start.t, booking, BookingStatus.CONFIRMED);
            At(start, t.(keys := t.keys[key := IdempotencyKey(booking, true)]), Confirmed(booking))
  {
    var t := WithStatus(start.t, booking, BookingStatus.CONFIRMED);
    Begin(start, LockKey(0, key), ConfirmLocked(key, booking));
    Advance(start, start.t, ConfirmLocked(key, booking), UpdateBooking(0), start.t, ConfirmUpdated(key, booking));
    Advance(start, start.t, ConfirmUpdated(key, booking), FinalizeKey(0), start.t, ConfirmFinalized(key, booking));
    Advance(start, start.t, ConfirmFinalized(key, booking), Commit(0),
            t.(keys := t.keys[key := IdempotencyKey(booking, true)]), Confirmed(booking));
  }

  // ---------------------------------------------------------------- the service

  class Service {
    const roomRepository: RoomRepository   // HotelService, reached over HTTP
    const ttl: nat
    var bookings: seq<Booking>
    var keys: map<string, IdempotencyKey>
    var locks: map<nat, int>

    constructor (roomRepository: RoomRepository, ttl: nat)
      ensures this.roomRepository == roomRepository && this.ttl == ttl
      ensures bookings == [] && keys == map[] && locks == map[]
    {
      this.roomRepository := roomRepository;
      this.ttl := ttl;
      bookings, keys, locks := [], map[], map[];
    }

    ghost function Contents(): Tables
      reads this, roomRepository
    {
      Tables(roomRepository.rows, bookings, keys, locks)
    }

    /** No other call is under way. */
    ghost function Alone(now: int): State
      reads this, roomRepository
    {
      State(Contents(), map[], now, ttl)
    }

    /**
     Succeeds exactly when nothing fails, the availability check passes, the lock is free and the key is new.
     A refusal for lack of rooms changes nothing.
     */
    method CreateBooking(request: BookingRequest, now: int, key: string, fault: Option<Fault>)
      returns (result: Result<nat>)
      modifies this, roomRepository
      ensures Ran(old(Alone(now)), Contents())
      ensures !Fails(fault, READ) && !OffersStay(old(Contents()), request) ==>
                result == Err(BadRequest) && Contents() == old(Contents())
      ensures fault == None ==>
                (result.Ok? <==> && OffersStay(old(Contents()), request)
                                 && (request.hotelId in old(locks) ==> old(locks)[request.hotelId] <= now)
                                 && key !in old(keys))
      ensures result.Ok? ==>
                && OffersStay(old(Contents()), request) && result.value == |old(bookings)|
                && TakesFreeRows(old(Contents()), Contents(), request, key, now + ttl)
                && Contents() == Reserved(old(Contents()), request, FreeRooms(old(Contents()), request), key, now + ttl)
      ensures !LockFree(old(Contents()), request.hotelId, now) ==> result.Err? && Contents() == old(Contents())
      ensures result.Err? ==>
                || roomRepository.rows == old(roomRepository.rows)
                || (fault == Some(Fault(STAMP, true))
                    && roomRepository.rows == Stamped(old(roomRepository.rows), FreeRooms(old(Contents()), request), |old(bookings)|))
      ensures result.Ok? && OneRowPerMidnight(old(roomRepository.rows), request.roomCategoryId) && MidnightStay(request)
              && HoldersExist(old(Contents())) ==>
                |StayDates(request) - HeldDates(roomRepository.rows, result.value)| <= 1
    {
      ghost var start := Alone(now);
      CreateMeans(start.t, request, key, now + ttl);
      if Fails(fault, READ) {
        return Err(InternalServer);
      }
      var availableRooms := roomRepository.FindByRoomCategoryIdAndDateRange(
        request.roomCategoryId, request.checkIn, request.checkOut);
      var totalNights := CeilDiv(request.checkOut - request.checkIn, MS_PER_DAY);
      if |availableRooms| == 0 || |availableRooms| < totalNights {
        return Err(BadRequest);
      }

      AtRead(start, request);
      result := ReserveRooms(request, availableRooms, now, key, fault, start);
      CoverageOf(start.t, request);
    }

    /** The guarded part of a create: lock, insert the booking and its key, stamp the rooms that were read. */
    method ReserveRooms(request: BookingRequest, availableRooms: seq<nat>, now: int, key: string, fault: Option<Fault>,
                        ghost start: State)
      returns (result: Result<nat>)
      requires start.now == now && start.ttl == ttl && At(start, Contents(), CreateRead(request, availableRooms))
      modifies this, roomRepository
      ensures Ran(start, Contents())
      ensures fault == None ==> (result.Ok? <==> LockFree(old(Contents()), request.hotelId, now) && key !in old(keys))
      ensures !LockFree(old(Contents()), request.hotelId, now) ==> result.Err? && Contents() == old(Contents())
      ensures result.Err? ==>
                || roomRepository.rows == old(roomRepository.rows)
                || (fault == Some(Fault(STAMP, true))
                    && roomRepository.rows == Stamped(old(roomRepository.rows), availableRooms, |old(bookings)|))
      ensures result.Ok? ==>
                && result.value == |old(bookings)|
                && Contents() == Reserved(old(Contents()), request, availableRooms, key, now + ttl)
    {
      if request.hotelId in locks && locks[request.hotelId] > now {
        return Err(InternalServer);
      }
      locks := locks[request.hotelId := now + ttl];
      AtLocked(start, old(Contents()), request, availableRooms);
      ghost var locked := Contents();

      var booking := |bookings|;
      if TakesEffect(fault, INSERT_BOOKING) {
        bookings := bookings + [Booking(request, PENDING)];
        AtInserted(start, locked, request, availableRooms);
      }
      ghost var inserted := Contents();
      if Fails(fault, INSERT_BOOKING) {
        return Err(BadRequest);
      }

      if key in keys {
        return Err(InternalServer);
      }
      if TakesEffect(fault, INSERT_KEY) {
        keys := keys[key := IdempotencyKey(booking, false)];
        AtKeyed(start, inserted, availableRooms, booking, key);
      }
      ghost var keyed := Contents();
      if Fails(fault, INSERT_KEY) {
        return Err(InternalServer);
      }

      if TakesEffect(fault, STAMP) {
        roomRepository.UpdateBookingIdToRooms(availableRooms, booking);
        AtStamped(start, keyed, availableRooms, booking, key);
      }
      if Fails(fault, STAMP) {
        return Err(InternalServer);
      }
      return Ok(booking);
    }

    /**
     Succeeds exactly when the booking exists, is not CANCELLED already and nothing fails; it then holds no
     room and every other booking keeps its rooms. A refused cancel changes nothing; one that fails half-way
     may have freed the rooms of a booking whose status is unchanged.
     */
    method CancelBooking(booking: nat, now: int, fault: Option<Fault>)
      returns (result: Result<nat>)
      modifies this, roomRepository
      ensures Ran(old(Alone(now)), Contents())
      ensures keys == old(keys) && locks == old(locks)
      ensures booking >= |old(bookings)| && !Fails(fault, CHECK) ==> result == Err(NotFound)
      ensures booking >= |old(bookings)| || old(bookings)[booking].status == CANCELLED ==>
                result.Err? && Contents() == old(Contents())
      ensures fault == None ==>
                (result.Ok? <==> booking < |old(bookings)| && old(bookings)[booking].status != CANCELLED)
      ensures result.Err? && !(fault.Some? && fault.value.operation in {RELEASE, WRITE_STATUS}) ==>
                Contents() == old(Contents())
      ensures result.Ok? ==>
                && booking < |old(bookings)|
                && bookings == old(bookings)[booking := old(bookings)[booking].(status := BookingStatus.CANCELLED)]
                && (forall id :: !Holds(roomRepository.rows, booking, id))
                && |roomRepository.rows| == |old(roomRepository.rows)|
                && forall id: nat :: id < |roomRepository.rows| ==>
                     var was := old(roomRepository.rows)[id];
                     roomRepository.rows[id] == if was.bookingId == Some(booking) then was.(bookingId := None) else was
      ensures forall id, other :: other != booking ==>
                (Holds(roomRepository.rows, other, id) <==> old(Holds(roomRepository.rows, other, id)))
    {
      ghost var start := Alone(now);
      if Fails(fault, CHECK) {
        return Err(InternalServer);
      }
      if booking >= |bookings| {
        return Err(NotFound);
      }
      if bookings[booking].status == CANCELLED {
        return Err(BadRequest);
      }
      if TakesEffect(fault, RELEASE) {
        roomRepository.DeleteBookingIdFromRooms(booking);
        AtReleased(start, booking);
      }
      ghost var released := Contents();
      if Fails(fault, RELEASE) {
        return Err(InternalServer);
      }
      if TakesEffect(fault, WRITE_STATUS) {
        bookings := bookings[booking := bookings[booking].(status := BookingStatus.CANCELLED)];
        AtCancelled(start, released, booking);
      }
      if Fails(fault, WRITE_STATUS) {
        return Err(InternalServer);
      }
      return Ok(booking);
    }

    /**
     One transaction. It succeeds exactly when the key exists, is open and nothing fails, whatever the
     booking's status was; a call that fails before its commit took effect leaves every table as it was.
     */
    method ConfirmBooking(key: string, now: int, fault: Option<Fault>)
      returns (result: Result<nat>)
      requires KeysOneToOne(Contents())
      modifies this
      ensures Ran(old(Alone(now)), Contents())
      ensures key !in old(keys) && !Fails(fault, READ) ==> result == Err(NotFound)
      ensures key in old(keys) && old(keys)[key].finalized && !Fails(fault, READ) ==> result == Err(BadRequest)
      ensures fault == None ==> (result.Ok? <==> key in old(keys) && !old(keys)[key].finalized)
      ensures result.Ok? ==>
                && key in old(keys) && result.value == old(keys)[key].bookingId < |old(bookings)|
                && bookings == old(bookings)[result.value := old(bookings)[result.value].(status := BookingStatus.CONFIRMED)]
                && keys == old(keys)[key := IdempotencyKey(result.value, true)]
      ensures result.Err? && !(fault == Some(Fault(COMMIT, true))) ==> Contents() == old(Contents())
      ensures roomRepository.rows == old(roomRepository.rows) && locks == old(locks)
    {
      ghost var start := Alone(now);
      if Fails(fault, READ) {
        return Err(InternalServer);
      }
      if key !in keys {
        return Err(NotFound);
      }
      var idempotencyKeyData := keys[key];
      if idempotencyKeyData.finalized {
        return Err(BadRequest);
      }
      var booking := idempotencyKeyData.bookingId;
      if Fails(fault, WRITE_STATUS) {
        return Err(InternalServer);
      }
      var newBookings := bookings[booking := bookings[booking].(status := BookingStatus.CONFIRMED)];
      if Fails(fault, FINALIZE) {
        return Err(InternalServer);
      }
      var newKeys := keys[key := idempotencyKeyData.(finalized := true)];
      if TakesEffect(fault, COMMIT) {
        bookings, keys := newBookings, newKeys;
        AtCommitted(start, key, booking);
      }
      if Fails(fault, COMMIT) {
        return Err(InternalServer);
      }
      return Ok(booking);
    }
  }
}
