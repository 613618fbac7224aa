/** The runs in which the booking protocol does what it should not, each from a start with one free room. */
module BookingExamples {
  import opened Wrappers
  import opened Rooms
  import opened BookingProtocol
  import opened BookingConfirmation
  import opened RoomHandoff
  import opened RoomHolds

  /** One night in the only category. */
  const REQUEST := BookingRequest(1, 1, 1, 0, MS_PER_DAY, 1, 100)

  ghost function Start(): State {
    State(Tables([Room(1, 1, 0, 100, None, false)], [], map[], map[]), map[], 0, 5000)
  }

  lemma OneFreeRoom()
    ensures IsStart(Start()) && FreeRooms(Start().t, REQUEST) == [0] && Enough([0], REQUEST)
  {
    var rooms := Start().t.rooms;
    assert IsFree(rooms[0], 1, 0, MS_PER_DAY);
    assert rooms[..0] == [];
    assert Available(rooms[..0], 1, 0, MS_PER_DAY) == [];
  }

  lemma OneRead() returns (es: seq<Event>, ss: seq<State>)
    ensures IsHistory(es, ss) && |es| == 1 && ss[0] == Start()
    ensures ss[1] == Start().(calls := map[0 := CreateRead(REQUEST, [0])])
  {
    OneFreeRoom();
    es, ss := [ReadRooms(0, REQUEST)], [Start(), Start().(calls := map[0 := CreateRead(REQUEST, [0])])];
  }

  /** Two customers read the same free room, and both are sold it. */
  lemma DoubleBookingHappens() returns (es: seq<Event>, ss: seq<State>)
    ensures IsHistory(es, ss) && |es| > 0 && TakesFromHolder(es, ss, |es| - 1, 0)
  {
    var es1, ss1 := OneRead();
    OneFreeRoom();
    var es2, ss2 := Append(es1, ss1, ReadRooms(1, REQUEST));
    es, ss := OverlappingReadsDoubleBook(es2, ss2, 0, 1, 0, "p", "q");
  }

  lemma OneInserted() returns (es: seq<Event>, ss: seq<State>)
    ensures IsHistory(es, ss) && ss[0] == Start() && ss[|es|].calls == map[0 := CreateInserted([0], 0)]
    ensures ss[|es|].t.bookings == [Booking(REQUEST, PENDING)] && ss[|es|].t.keys == map[]
  {
    es, ss := OneRead();
    es, ss := Append(es, ss, AcquireLock(0));
    es, ss := Append(es, ss, InsertBooking(0));
  }

  /** A booking is cancelled while it is being created, and ends CANCELLED holding the room. */
  lemma CancelLeakHappens() returns (s: State)
    ensures Reaches(Start(), s) && IsStart(Start()) && Leaked(s, 1, 0)
  {
    var es, ss := OneInserted();
    assert ss[|es|].calls[0].Creating(0);
    s := CancelDuringCreateLeaks(es, ss, 1, 0);
    var es', ss' := Append(es, ss, CheckBooking(1, 0));
    assert Reaches(Start(), ss'[|es'|]);
    ReachesOnwards(Start(), ss'[|es'|], s);
  }

  /** A cancel that nothing interrupts. */
  lemma CancelRuns(start: State, s: State, q: nat, b: nat) returns (s': State)
    requires Reaches(start, s) && q !in s.calls && b < |s.t.bookings| && s.t.bookings[b].status != CANCELLED
    requires forall p :: p in s.calls ==> !s.calls[p].InTransaction()
    ensures Reaches(start, s') && s'.calls == s.calls[q := Cancelled(b)] && s'.t.keys == s.t.keys
    ensures IsCancelled(s', b) && HoldsNothing(s', b)
  {
    var checked := Step(start, s, CheckBooking(q, b));
    s' := CancelFinishes(start, checked, q, b);
  }

  /** A booking is created, cancelled and confirmed, and ends CONFIRMED without a room. */
  lemma CancelledThenConfirmedHappens() returns (cancelled: State, s: State)
    ensures IsStart(Start()) && Reaches(Start(), cancelled) && IsCancelled(cancelled, 0)
    ensures Reaches(cancelled, s) && IsConfirmed(s, 0) && HoldsNothing(s, 0)
  {
    OneFreeRoom();
    var es, ss := OneRead();
    es, ss := FinishCreate(es, ss, 0, "k");
    HistoryHasInv(es, ss, |es|);
    assert Reaches(Start(), ss[|es|]);
    cancelled := CancelRuns(Start(), ss[|es|], 1, 0);
    ReachedHasInv(cancelled);
    s := OpenKeyReachesConfirmed(cancelled, "k");
    assert s.t.rooms == cancelled.t.rooms;
    forall id: nat
      ensures !Holds(s.t.rooms, 0, id)
    {
      assert !Holds(cancelled.t.rooms, 0, id);
    }
  }

  lemma ReachedHasInv(s: State)
    requires IsStart(Start()) && Reaches(Start(), s)
    ensures Inv(s)
  {
    var es, ss :| IsRun(es, ss) && ss[0] == Start() && ss[|es|] == s;
    HistoryHasInv(es, ss, |es|);
  }

  /** A create fails before it has a key, and its booking is cancelled: no run ever confirms it. */
  lemma CancelledWithoutKeyHappens() returns (s: State)
    ensures IsStart(Start()) && Reaches(Start(), s) && IsCancelled(s, 0)
    ensures forall s' :: Reaches(s, s') ==> !IsConfirmed(s', 0)
  {
    var es, ss := OneInserted();
    assert Reaches(Start(), ss[|es|]);
    var failed := Step(Start(), ss[|es|], Abort(0));
    s := CancelRuns(Start(), failed, 1, 0);
    ReachedHasInv(s);
    ConfirmableIffOpenKey(s, 0);
  }
}
