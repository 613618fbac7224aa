/**
 The booking protocol across BookingService and HotelService. A call is split at its awaits: each event
 is one statement on a table, one Redis command or one HTTP request, and the events of different calls
 interleave freely. A step that takes effect and then reports failure is that step followed by Abort; for the
 last step of a call (StampRooms, WriteCancelled, Commit) it is that step alone, since the tables do not show
 what the caller was told. What a confirm writes inside its open transaction is not in the tables until Commit.
 */
module BookingProtocol {
  import opened Wrappers
  import opened Rooms

  datatype BookingStatus = PENDING | CONFIRMED | CANCELLED

  datatype BookingRequest = BookingRequest(
    userId: nat, hotelId: nat, roomCategoryId: nat, checkIn: int, checkOut: int, totalGuests: int, bookingAmount: int)

  datatype Booking = Booking(request: BookingRequest, status: BookingStatus)

  datatype IdempotencyKey = IdempotencyKey(bookingId: nat, finalized: bool)

  /** The room table, the booking tables (a booking's id is its position) and the expiry time of each hotel's lock. */
  datatype Tables = Tables(
    rooms: seq<Room>, bookings: seq<Booking>, keys: map<string, IdempotencyKey>, locks: map<nat, int>)

  /** Where a call has got to; the values are its local variables. */
  datatype Call =
    | CreateRead(request: BookingRequest, ids: seq<nat>)
    | CreateLocked(request: BookingRequest, ids: seq<nat>)
    | CreateInserted(ids: seq<nat>, booking: nat)
    | CreateKeyed(ids: seq<nat>, booking: nat, key: string)
    | Created(booking: nat, key: string)
    | CancelChecked(booking: nat)
    | CancelReleased(booking: nat)
    | Cancelled(booking: nat)
    | ConfirmLocked(key: string, booking: nat)
    | ConfirmUpdated(key: string, booking: nat)
    | ConfirmFinalized(key: string, booking: nat)
    | Confirmed(booking: nat)
    | Failed(error: AppError)
  {
    predicate Over() {
      Created? || Cancelled? || Confirmed? || Failed?
    }

    /** Holds the row lock on an idempotency key. */
    predicate InTransaction() {
      ConfirmLocked? || ConfirmUpdated? || ConfirmFinalized?
    }

    /** Has written, in an open transaction, to a booking row, and so holds its row lock. */
    predicate LocksBookingRow(b: nat) {
      (ConfirmUpdated? || ConfirmFinalized?) && booking == b
    }

    /** A create that has inserted its booking and not returned. */
    predicate Creating(b: nat) {
      (CreateInserted? || CreateKeyed?) && booking == b
    }
  }

  datatype State = State(t: Tables, calls: map<nat, Call>, now: int, ttl: int)

  datatype Event =
    | ReadRooms(call: nat, request: BookingRequest)
    | AcquireLock(call: nat)
    | InsertBooking(call: nat)
    | InsertKey(call: nat, key: string)
    | StampRooms(call: nat)
    | CheckBooking(call: nat, booking: nat)
    | ReleaseRooms(call: nat)
    | WriteCancelled(call: nat)
    | LockKey(call: nat, key: string)
    | UpdateBooking(call: nat)
    | FinalizeKey(call: nat)
    | Commit(call: nat)
    | Abort(call: nat)                  // an error, a crash or an exhausted retry; a transaction rolls back
    | Pass(millis: nat)
    | AddRooms(rooms: seq<Room>)

  function TotalNights(request: BookingRequest): int {
    CeilDiv(request.checkOut - request.checkIn, MS_PER_DAY)
  }

  /** What the availability check accepts. */
  predicate Enough(ids: seq<nat>, request: BookingRequest) {
    |ids| != 0 && |ids| >= TotalNights(request)
  }

  function FreeRooms(t: Tables, request: BookingRequest): seq<nat> {
    Available(t.rooms, request.roomCategoryId, request.checkIn, request.checkOut)
  }

  predicate LockFree(t: Tables, hotel: nat, now: int) {
    hotel in t.locks ==> t.locks[hotel] <= now
  }

  function WithStatus(t: Tables, booking: nat, status: BookingStatus): Tables
    requires booking < |t.bookings|
  {
    t.(bookings := t.bookings[booking := t.bookings[booking].(status := status)])
  }

  ghost predicate Enabled(s: State, e: Event) {
    match e
    case ReadRooms(p, _) => p !in s.calls
    case AcquireLock(p) => p in s.calls && s.calls[p].CreateRead? && LockFree(s.t, s.calls[p].request.hotelId, s.now)
    case InsertBooking(p) => p in s.calls && s.calls[p].CreateLocked?
    case InsertKey(p, key) => p in s.calls && s.calls[p].CreateInserted? && key !in s.t.keys
    case StampRooms(p) => p in s.calls && s.calls[p].CreateKeyed?
    case CheckBooking(p, _) => p !in s.calls
    case ReleaseRooms(p) => p in s.calls && s.calls[p].CancelChecked?
    case WriteCancelled(p) =>
      && p in s.calls && s.calls[p].CancelReleased?
      && s.calls[p].booking < |s.t.bookings|
      && forall q :: q in s.calls ==> !s.calls[q].LocksBookingRow(s.calls[p].booking)
    case LockKey(p, key) =>
      && p !in s.calls
      && forall q :: q in s.calls && s.calls[q].InTransaction() ==> s.calls[q].key != key
    case UpdateBooking(p) =>
      && p in s.calls && s.calls[p].ConfirmLocked?
      && forall q :: q in s.calls ==> !s.calls[q].LocksBookingRow(s.calls[p].booking)
    case FinalizeKey(p) => p in s.calls && s.calls[p].ConfirmUpdated?
    case Commit(p) =>
      && p in s.calls && s.calls[p].ConfirmFinalized?
      && s.calls[p].booking < |s.t.bookings| && s.calls[p].key in s.t.keys
    case Abort(p) => p in s.calls && !s.calls[p].Over()
    case Pass(_) => true
    case AddRooms(rooms) => forall r :: r in rooms ==> r.bookingId == None
  }

  ghost function Next(s: State, e: Event): State
    requires Enabled(s, e)
  {
    match e
    case ReadRooms(p, request) =>
      var ids := FreeRooms(s.t, request);
      s.(calls := s.calls[p := if Enough(ids, request) then CreateRead(request, ids) else Failed(BadRequest)])
    case AcquireLock(p) =>
      var c := s.calls[p];
      s.(t := s.t.(locks := s.t.locks[c.request.hotelId := s.now + s.ttl]),
         calls := s.calls[p := CreateLocked(c.request, c.ids)])
    case InsertBooking(p) =>
      var c := s.calls[p];
      s.(t := s.t.(bookings := s.t.bookings + [Booking(c.request, PENDING)]),
         calls := s.calls[p := CreateInserted(c.ids, |s.t.bookings|)])
    case InsertKey(p, key) =>
      var c := s.calls[p];
      s.(t := s.t.(keys := s.t.keys[key := IdempotencyKey(c.booking, false)]),
         calls := s.calls[p := CreateKeyed(c.ids, c.booking, key)])
    case StampRooms(p) =>
      var c := s.calls[p];
      s.(t := s.t.(rooms := Stamped(s.t.rooms, c.ids, c.booking)),
         calls := s.calls[p := Created(c.booking, c.key)])
    case CheckBooking(p, b) =>
      s.(calls := s.calls[p :=
        if b >= |s.t.bookings| then Failed(NotFound)
        else if s.t.bookings[b].status == CANCELLED then Failed(BadRequest)
        else CancelChecked(b)])
    case ReleaseRooms(p) =>
      s.(t := s.t.(rooms := Released(s.t.rooms, s.calls[p].booking)),
         calls := s.calls[p := CancelReleased(s.calls[p].booking)])
    case WriteCancelled(p) =>
      s.(t := WithStatus(s.t, s.calls[p].booking, BookingStatus.CANCELLED),
         calls := s.calls[p := Cancelled(s.calls[p].booking)])
    case LockKey(p, key) =>
      s.(calls := s.calls[p :=
        if key !in s.t.keys then Failed(NotFound)
        else if s.t.keys[key].finalized then Failed(BadRequest)
        else ConfirmLocked(key, s.t.keys[key].bookingId)])
    case UpdateBooking(p) => s.(calls := s.calls[p := ConfirmUpdated(s.calls[p].key, s.calls[p].booking)])
    case FinalizeKey(p) => s.(calls := s.calls[p := ConfirmFinalized(s.calls[p].key, s.calls[p].booking)])
    case Commit(p) =>
      var c := s.calls[p];
      var t := WithStatus(s.t, c.booking, BookingStatus.CONFIRMED);
      s.(t := t.(keys := t.keys[c.key := t.keys[c.key].(finalized := true)]),
         calls := s.calls[p := Confirmed(c.booking)])
    case Abort(p) => s.(calls := s.calls[p := Failed(InternalServer)])
    case Pass(millis) => s.(now := s.now + millis)
    case AddRooms(rooms) => s.(t := s.t.(rooms := s.t.rooms + rooms))
  }

  /** A run: the state before and after each event. */
  ghost predicate IsRun(es: seq<Event>, ss: seq<State>) {
    && |ss| == |es| + 1
    && forall i :: 0 <= i < |es| ==> Enabled(ss[i], es[i]) && ss[i + 1] == Next(ss[i], es[i])
  }

  /** No call has started and no room is held. */
  ghost predicate IsStart(s: State) {
    && s.calls == map[] && s.t.bookings == [] && s.t.keys == map[]
    && forall r :: r in s.t.rooms ==> r.bookingId == None
  }

  /** A run from the start. */
  ghost predicate IsHistory(es: seq<Event>, ss: seq<State>) {
    IsRun(es, ss) && IsStart(ss[0])
  }

  /** A run can be continued by any enabled event. */
  lemma Append(es: seq<Event>, ss: seq<State>, e: Event) returns (es': seq<Event>, ss': seq<State>)
    requires IsRun(es, ss) && Enabled(ss[|es|], e)
    ensures IsRun(es', ss') && |es'| == |es| + 1
    ensures es <= es' && es'[|es|] == e
    ensures ss <= ss' && ss'[|es'|] == Next(ss[|es|], e)
  {
    es', ss' := es + [e], ss + [Next(ss[|es|], e)];
    forall i | 0 <= i < |es'|
      ensures Enabled(ss'[i], es'[i]) && ss'[i + 1] == Next(ss'[i], es'[i])
    {
      if i < |es| {
        assert Enabled(ss[i], es[i]) && ss[i + 1] == Next(ss[i], es[i]);
      }
    }
  }

  /** Some run leads from `s` to `s'`. */
  ghost predicate Reaches(s: State, s': State) {
    exists es, ss :: IsRun(es, ss) && ss[0] == s && ss[|es|] == s'
  }

  lemma ReachesItself(s: State)
    ensures Reaches(s, s)
  {
    assert IsRun([], [s]);
  }

  /** One more step of a run. */
  lemma Step(s: State, s': State, e: Event) returns (s'': State)
    requires Reaches(s, s') && Enabled(s', e)
    ensures s'' == Next(s', e) && Reaches(s, s'')
  {
    var es, ss :| IsRun(es, ss) && ss[0] == s && ss[|es|] == s';
    var es', ss' := Append(es, ss, e);
    s'' := Next(s', e);
    assert ss'[0] == s && ss'[|es'|] == s'';
  }

  lemma {:induction false} Extended(es: seq<Event>, ss: seq<State>, more: seq<Event>, next: seq<State>, n: nat)
    requires IsRun(es, ss) && IsRun(more, next) && ss[|es|] == next[0] && n <= |more|
    ensures IsRun(es + more[..n], ss + next[1..n + 1]) && (ss + next[1..n + 1])[|es| + n] == next[n]
  {
    if n == 0 {
      assert es + more[..0] == es && ss + next[1..1] == ss;
    } else {
      Extended(es, ss, more, next, n - 1);
      assert Enabled(next[n - 1], more[n - 1]) && next[n] == Next(next[n - 1], more[n - 1]);
      var es', ss' := Append(es + more[..n - 1], ss + next[1..n], more[n - 1]);
      assert es + more[..n] == es' && ss + next[1..n + 1] == ss';
    }
  }

  lemma ReachesOnwards(s: State, middle: State, s': State)
    requires Reaches(s, middle) && Reaches(middle, s')
    ensures Reaches(s, s')
  {
    var es, ss :| IsRun(es, ss) && ss[0] == s && ss[|es|] == middle;
    var more, next :| IsRun(more, next) && next[0] == middle && next[|more|] == s';
    Extended(es, ss, more, next, |more|);
    var es', ss' := es + more[..|more|], ss + next[1..|more| + 1];
    assert IsRun(es', ss') && ss'[0] == s && ss'[|es'|] == s';
  }

  // ---------------------------------------------------------------- what every step keeps

  /** Every key names an existing booking and no two keys name the same one. */
  ghost predicate KeysOneToOne(t: Tables) {
    && (forall k :: k in t.keys ==> t.keys[k].bookingId < |t.bookings|)
    && (forall k, l :: k in t.keys && l in t.keys && t.keys[k].bookingId == t.keys[l].bookingId ==> k == l)
  }

  /** The booking has a finalized key. */
  ghost predicate Finalized(t: Tables, b: nat) {
    exists k :: k in t.keys && t.keys[k] == IdempotencyKey(b, true)
  }

  ghost predicate ConfirmedIsFinalized(t: Tables) {
    forall b: nat :: b < |t.bookings| && t.bookings[b].status == CONFIRMED ==> Finalized(t, b)
  }

  ghost predicate FinalizedIsNotPending(t: Tables) {
    forall k :: k in t.keys && t.keys[k].finalized ==>
      t.keys[k].bookingId < |t.bookings| && t.bookings[t.keys[k].bookingId].status != PENDING
  }

  /** CONFIRMED implies finalized, and finalized implies no longer PENDING. */
  ghost predicate StatusFollowsKey(t: Tables) {
    ConfirmedIsFinalized(t) && FinalizedIsNotPending(t)
  }

  /** Every stamped room names an existing booking. */
  ghost predicate HoldersExist(t: Tables) {
    forall r :: 0 <= r < |t.rooms| && t.rooms[r].bookingId.Some? ==> t.rooms[r].bookingId.value < |t.bookings|
  }

  /** What a call's local variables say about the tables. */
  ghost predicate CallOk(t: Tables, c: Call) {
    match c
    case CreateInserted(_, b) => b < |t.bookings| && forall k :: k in t.keys ==> t.keys[k].bookingId != b
    case CreateKeyed(_, b, key) => b < |t.bookings| && key in t.keys && t.keys[key].bookingId == b
    case Created(b, key) => b < |t.bookings| && key in t.keys && t.keys[key].bookingId == b
    case CancelChecked(b) => b < |t.bookings|
    case CancelReleased(b) => b < |t.bookings|
    case ConfirmLocked(key, b) => key in t.keys && t.keys[key] == IdempotencyKey(b, false)
    case ConfirmUpdated(key, b) => key in t.keys && t.keys[key] == IdempotencyKey(b, false)
    case ConfirmFinalized(key, b) => key in t.keys && t.keys[key] == IdempotencyKey(b, false)
    case _ => true
  }

  /** The booking a create has inserted. */
  function Own(c: Call): Option<nat> {
    if c.CreateInserted? || c.CreateKeyed? || c.Created? then Some(c.booking) else None
  }

  /** Two creates never share a booking. */
  ghost predicate BookingsApart(calls: map<nat, Call>) {
    forall p, q :: p in calls && q in calls && Own(calls[p]).Some? && p != q ==> Own(calls[p]) != Own(calls[q])
  }

  /** Two open transactions never share a key. */
  ghost predicate TransactionsApart(calls: map<nat, Call>) {
    forall p, q :: p in calls && q in calls && calls[p].InTransaction() && calls[q].InTransaction() && p != q ==>
      calls[p].key != calls[q].key
  }

  ghost predicate Inv(s: State) {
    && KeysOneToOne(s.t)
    && StatusFollowsKey(s.t)
    && HoldersExist(s.t)
    && (forall p :: p in s.calls ==> CallOk(s.t, s.calls[p]))
    && BookingsApart(s.calls)
    && TransactionsApart(s.calls)
  }

  lemma StepKeepsKeys(s: State, e: Event)
    requires Inv(s) && Enabled(s, e)
    ensures KeysOneToOne(Next(s, e).t)
  {
    if e.InsertKey? {
      assert CallOk(s.t, s.calls[e.call]);
    }
  }

  lemma StepKeepsConfirmed(s: State, e: Event)
    requires Inv(s) && Enabled(s, e)
    ensures ConfirmedIsFinalized(Next(s, e).t)
  {
    var t, t' := s.t, Next(s, e).t;
    if e.Commit? {
      assert CallOk(t, s.calls[e.call]);
    }
    forall b: nat | b < |t'.bookings| && t'.bookings[b].status == CONFIRMED
      ensures Finalized(t', b)
    {
      if e.Commit? && b == s.calls[e.call].booking {
        assert t'.keys[s.calls[e.call].key] == IdempotencyKey(b, true);
      } else {
        assert Finalized(t, b);
        var k :| k in t.keys && t.keys[k] == IdempotencyKey(b, true);
        assert t'.keys[k] == IdempotencyKey(b, true);
      }
    }
  }

  lemma StepKeepsNotPending(s: State, e: Event)
    requires Inv(s) && Enabled(s, e)
    ensures FinalizedIsNotPending(Next(s, e).t)
  {
    if e.Commit? {
      assert CallOk(s.t, s.calls[e.call]);
    }
  }

  lemma StepKeepsHolders(s: State, e: Event)
    requires Inv(s) && Enabled(s, e)
    ensures HoldersExist(Next(s, e).t)
  {
    if e.StampRooms? {
      assert CallOk(s.t, s.calls[e.call]);
    }
  }

  lemma StepKeepsCalls(s: State, e: Event)
    requires Inv(s) && Enabled(s, e)
    ensures forall p :: p in Next(s, e).calls ==> CallOk(Next(s, e).t, Next(s, e).calls[p])
  {
    forall p | p in Next(s, e).calls
      ensures CallOk(Next(s, e).t, Next(s, e).calls[p])
    {
      if p in s.calls {
        assert CallOk(s.t, s.calls[p]);
        OneCallKept(s, e, p);
      }
    }
  }

  lemma OneCallKept(s: State, e: Event, p: nat)
    requires Inv(s) && Enabled(s, e) && p in s.calls && CallOk(s.t, s.calls[p])
    ensures CallOk(Next(s, e).t, Next(s, e).calls[p])
  {
    if e.InsertKey? {
      assert CallOk(s.t, s.calls[e.call]);
    } else if e.Commit? {
      assert p != e.call && s.calls[p].InTransaction() ==> s.calls[p].key != s.calls[e.call].key;
    }
  }

  lemma StepKeepsBookingsApart(s: State, e: Event)
    requires Inv(s) && Enabled(s, e)
    ensures BookingsApart(Next(s, e).calls)
  {
    if e.InsertBooking? {
      forall p | p in s.calls && Own(s.calls[p]).Some?
        ensures Own(s.calls[p]).value < |s.t.bookings|
      {
        assert CallOk(s.t, s.calls[p]);
      }
    }
  }

  lemma StepKeepsTransactionsApart(s: State, e: Event)
    requires Inv(s) && Enabled(s, e)
    ensures TransactionsApart(Next(s, e).calls)
  {
  }

  lemma StepKeepsInv(s: State, e: Event)
    requires Inv(s) && Enabled(s, e)
    ensures Inv(Next(s, e))
  {
    StepKeepsKeys(s, e);
    StepKeepsConfirmed(s, e);
    StepKeepsNotPending(s, e);
    StepKeepsHolders(s, e);
    StepKeepsCalls(s, e);
    StepKeepsBookingsApart(s, e);
    StepKeepsTransactionsApart(s, e);
  }

  /** In every reachable state keys and bookings are one-to-one and the status follows the key. */
  lemma {:induction false} RunKeepsInv(es: seq<Event>, ss: seq<State>, i: nat)
    requires IsRun(es, ss) && Inv(ss[0]) && i <= |es|
    ensures Inv(ss[i])
  {
    if i == 0 {
    } else {
      RunKeepsInv(es, ss, i - 1);
      StepKeepsInv(ss[i - 1], es[i - 1]);
    }
  }

  /** Two transactions on keys of one booking are the same call. */
  lemma OneTransaction(s: State, p: nat, q: nat)
    requires Inv(s) && p in s.calls && q in s.calls && s.calls[p].InTransaction() && s.calls[q].InTransaction()
    requires s.calls[p].booking == s.calls[q].booking
    ensures p == q
  {
    assert CallOk(s.t, s.calls[p]);
    assert CallOk(s.t, s.calls[q]);
  }

  /** Rolling back the transaction on the key of `b`, if there is one, leaves none and touches no table. */
  lemma RollBack(s: State, b: nat) returns (s': State)
    requires Inv(s)
    ensures Reaches(s, s') && Inv(s') && s'.t == s.t && s'.calls.Keys == s.calls.Keys
    ensures forall p :: p in s.calls && !s.calls[p].InTransaction() ==> s'.calls[p] == s.calls[p]
    ensures forall p :: p in s'.calls && s'.calls[p].InTransaction() ==> s'.calls[p].booking != b
  {
    ReachesItself(s);
    if p :| p in s.calls && s.calls[p].InTransaction() && s.calls[p].booking == b {
      forall q | q in s.calls && s.calls[q].InTransaction() && s.calls[q].booking == b
        ensures q == p
      {
        OneTransaction(s, p, q);
      }
      StepKeepsInv(s, Abort(p));
      s' := Step(s, s, Abort(p));
    } else {
      s' := s;
    }
  }
}
