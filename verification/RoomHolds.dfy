/** Cancelled bookings and the rooms they hold. */
module RoomHolds {
  import opened Wrappers
  import opened Rooms
  import opened BookingProtocol
  import opened RoomHandoff

  ghost predicate HoldsNothing(s: State, b: nat) {
    forall id: nat :: !Holds(s.t.rooms, b, id)
  }

  ghost predicate IsCancelled(s: State, b: nat) {
    b < |s.t.bookings| && s.t.bookings[b].status == CANCELLED
  }

  /** Some call is between inserting booking `b` and returning. */
  ghost predicate BeingCreated(s: State, b: nat) {
    exists q :: q in s.calls && s.calls[q].Creating(b)
  }

  /** No cancel of booking `b` starts while `b` is still being created. */
  ghost predicate CancelsAfterCreate(es: seq<Event>, ss: seq<State>, b: nat)
    requires |ss| == |es| + 1
  {
    forall j :: 0 <= j < |es| && es[j].CheckBooking? && es[j].booking == b ==> !BeingCreated(ss[j], b)
  }

  /** Once a cancel of `b` is past its check, `b` is no longer being created; once past its release, it holds nothing. */
  ghost predicate CancelOk(s: State, p: nat, b: nat) {
    p in s.calls && (s.calls[p].CancelChecked? || s.calls[p].CancelReleased?) && s.calls[p].booking == b ==>
      !BeingCreated(s, b) && (s.calls[p].CancelReleased? ==> HoldsNothing(s, b))
  }

  ghost predicate CancelInv(s: State, b: nat) {
    && (forall p :: CancelOk(s, p, b))
    && (IsCancelled(s, b) ==> !BeingCreated(s, b) && HoldsNothing(s, b))
  }

  /** Which bookings are being created changes only by inserting a fresh booking. */
  lemma BeingCreatedStep(s: State, e: Event, b: nat)
    requires Inv(s) && Enabled(s, e) && BeingCreated(Next(s, e), b)
    ensures BeingCreated(s, b) || (e.InsertBooking? && b == |s.t.bookings|)
  {
    var s' := Next(s, e);
    var q :| q in s'.calls && s'.calls[q].Creating(b);
    if q in s.calls && s.calls[q].Creating(b) {
      assert BeingCreated(s, b);
    }
  }

  /** Only a stamp by a create of `b` makes `b` hold a room. */
  lemma HoldsNothingStep(s: State, e: Event, b: nat)
    requires Inv(s) && Enabled(s, e) && HoldsNothing(s, b)
    requires e.StampRooms? ==> s.calls[e.call].booking != b
    ensures HoldsNothing(Next(s, e), b)
  {
    var s' := Next(s, e);
    forall id: nat
      ensures !Holds(s'.t.rooms, b, id)
    {
      assert !Holds(s.t.rooms, b, id);
      if e.AddRooms? && |s.t.rooms| <= id < |s'.t.rooms| {
        assert s'.t.rooms[id] == e.rooms[id - |s.t.rooms|];
      }
    }
  }

  /** Once no create of `b` is under way and `b` exists, none ever is again. */
  lemma StaysCreated(s: State, e: Event, b: nat)
    requires Inv(s) && Enabled(s, e) && !BeingCreated(s, b) && b < |s.t.bookings|
    ensures !BeingCreated(Next(s, e), b)
    ensures HoldsNothing(s, b) ==> HoldsNothing(Next(s, e), b)
  {
    if BeingCreated(Next(s, e), b) {
      BeingCreatedStep(s, e, b);
    }
    if HoldsNothing(s, b) {
      assert e.StampRooms? && s.calls[e.call].booking == b ==> BeingCreated(s, b);
      HoldsNothingStep(s, e, b);
    }
  }

  /** A release leaves its booking holding nothing. */
  lemma ReleaseEmpties(s: State, e: Event)
    requires Enabled(s, e) && e.ReleaseRooms?
    ensures HoldsNothing(Next(s, e), s.calls[e.call].booking)
  {
  }

  lemma CancelOkStep(s: State, e: Event, p: nat, b: nat)
    requires Inv(s) && Enabled(s, e) && CancelOk(s, p, b)
    requires e.CheckBooking? && e.booking == b ==> !BeingCreated(s, b)
    ensures CancelOk(Next(s, e), p, b)
  {
    var s' := Next(s, e);
    if p in s'.calls && (s'.calls[p].CancelChecked? || s'.calls[p].CancelReleased?) && s'.calls[p].booking == b {
      assert p in s.calls ==> CallOk(s.t, s.calls[p]);
      StaysCreated(s, e, b);
      if e.ReleaseRooms? && e.call == p {
        ReleaseEmpties(s, e);
      }
    }
  }

  lemma CancelledStep(s: State, e: Event, b: nat)
    requires Inv(s) && Enabled(s, e) && CancelInv(s, b) && IsCancelled(Next(s, e), b)
    ensures !BeingCreated(Next(s, e), b) && HoldsNothing(Next(s, e), b)
  {
    if !IsCancelled(s, b) {
      assert e.WriteCancelled? && CancelOk(s, e.call, b);
    }
    StaysCreated(s, e, b);
  }

  lemma CancelInvStep(s: State, e: Event, b: nat)
    requires Inv(s) && Enabled(s, e) && CancelInv(s, b)
    requires e.CheckBooking? && e.booking == b ==> !BeingCreated(s, b)
    ensures CancelInv(Next(s, e), b)
  {
    forall p: nat
      ensures CancelOk(Next(s, e), p, b)
    {
      CancelOkStep(s, e, p, b);
    }
    if IsCancelled(Next(s, e), b) {
      CancelledStep(s, e, b);
    }
  }

  /**
   A booking whose cancels all start after its create has returned (or failed) holds no room whenever it is
   CANCELLED. Read backwards: a CANCELLED booking that holds a room was cancelled while being created.
   */
  lemma {:induction false} CancelledHoldsNothing(es: seq<Event>, ss: seq<State>, i: nat, b: nat)
    requires IsHistory(es, ss) && i <= |es| && CancelsAfterCreate(es, ss, b)
    ensures CancelInv(ss[i], b)
    ensures IsCancelled(ss[i], b) ==> HoldsNothing(ss[i], b)
  {
    if i == 0 {
    } else {
      CancelledHoldsNothing(es, ss, i - 1, b);
      HistoryHasInv(es, ss, i - 1);
      CancelInvStep(ss[i - 1], es[i - 1], b);
    }
  }

  /**
   Exactly when a booking, CANCELLED or not, holds a room: its create's stamp of the room still stands, that is,
   the room was neither released from it nor stamped again since.
   */
  lemma HoldsIffStampStands(es: seq<Event>, ss: seq<State>, i: nat, b: nat, r: nat)
    requires IsHistory(es, ss) && i <= |es|
    ensures Holds(ss[i].t.rooms, b, r) <==> exists k: nat :: LastStamp(es, ss, k, i, r) && StampedWith(es, ss, k) == b
  {
    if Holds(ss[i].t.rooms, b, r) {
      var k := HolderWasStamped(es, ss, i, r, b);
    }
    if k: nat :| LastStamp(es, ss, k, i, r) && StampedWith(es, ss, k) == b {
      LastStampHolds(es, ss, k, i, r);
    }
  }

  // ---------------------------------------------------------------- which cancels can leave rooms held

  /** The cancel `q` of `b` has returned, and `b` is CANCELLED but holds a room. */
  ghost predicate Leaked(s: State, q: nat, b: nat) {
    q in s.calls && s.calls[q] == Cancelled(b) && IsCancelled(s, b) && !HoldsNothing(s, b)
  }

  /** A cancel past its check can finish when no transaction is open on its booking; other calls stay put. */
  lemma CancelFinishes(start: State, s: State, q: nat, b: nat) returns (s': State)
    requires Reaches(start, s) && q in s.calls && s.calls[q] == CancelChecked(b) && b < |s.t.bookings|
    requires forall p :: p in s.calls && s.calls[p].InTransaction() ==> s.calls[p].booking != b
    ensures Reaches(start, s') && s'.calls == s.calls[q := Cancelled(b)] && s'.t.keys == s.t.keys
    ensures IsCancelled(s', b) && HoldsNothing(s', b) && |s'.t.rooms| == |s.t.rooms|
  {
    var released := Step(start, s, ReleaseRooms(q));
    s' := Step(start, released, WriteCancelled(q));
  }

  /** The cancel releases the rooms and writes the status while `p` is still creating the booking. */
  lemma CancelPasses(s: State, p: nat, q: nat, b: nat) returns (s': State)
    requires Inv(s) && p in s.calls && s.calls[p].Creating(b) && q !in s.calls
    requires b < |s.t.bookings| && s.t.bookings[b].status != CANCELLED
    ensures Reaches(Next(s, CheckBooking(q, b)), s')
    ensures p in s'.calls && s'.calls[p] == s.calls[p] && q in s'.calls && s'.calls[q] == Cancelled(b)
    ensures IsCancelled(s', b) && |s'.t.rooms| == |s.t.rooms|
  {
    var start := Next(s, CheckBooking(q, b));
    StepKeepsInv(s, CheckBooking(q, b));
    var clear := RollBack(start, b);
    assert !start.calls[p].InTransaction() && !start.calls[q].InTransaction();
    s' := CancelFinishes(start, clear, q, b);
  }

  /** From there the create goes on to stamp the rooms it read, whether or not it has inserted its key yet. */
  lemma CreateGoesOn(start: State, s: State, p: nat, q: nat, b: nat, r: nat) returns (s': State)
    requires Reaches(start, s) && p in s.calls && s.calls[p].Creating(b) && r in s.calls[p].ids && r < |s.t.rooms|
    requires q in s.calls && s.calls[q] == Cancelled(b) && IsCancelled(s, b)
    ensures Reaches(start, s') && Leaked(s', q, b)
  {
    var keyed := s;
    if s.calls[p].CreateInserted? {
      var key := FreshKey(s.t.keys.Keys);
      keyed := Step(start, s, InsertKey(p, key));
    }
    s' := Step(start, keyed, StampRooms(p));
    assert Holds(s'.t.rooms, b, r);
  }

  /** A create under way carries a room that exists. */
  lemma CreateCarriesRoom(es: seq<Event>, ss: seq<State>, p: nat) returns (r: nat)
    requires IsHistory(es, ss) && p in ss[|es|].calls
    requires ss[|es|].calls[p].CreateInserted? || ss[|es|].calls[p].CreateKeyed?
    ensures r in ss[|es|].calls[p].ids && r < |ss[|es|].t.rooms|
  {
    var i := ReadFoundFree(es, ss, |es|, p);
    r := ss[|es|].calls[p].ids[0];
    RoomsStay(es, ss, i, |es|);
  }

  lemma {:induction false} RoomsStay(es: seq<Event>, ss: seq<State>, i: nat, j: nat)
    requires IsRun(es, ss) && i <= j <= |es|
    ensures |ss[i].t.rooms| <= |ss[j].t.rooms|
  {
    if i == j {
    } else {
      RoomsStay(es, ss, i, j - 1);
      assert Enabled(ss[j - 1], es[j - 1]) && ss[j] == Next(ss[j - 1], es[j - 1]);
    }
  }

  /** A cancel that starts once its create is over keeps `b` empty from its release on. */
  ghost predicate CleanCancel(s: State, q: nat, b: nat) {
    && b < |s.t.bookings| && !BeingCreated(s, b)
    && q in s.calls && (s.calls[q] == CancelChecked(b) || s.calls[q] == CancelReleased(b) || s.calls[q].Over())
    && (s.calls[q] == CancelReleased(b) || s.calls[q] == Cancelled(b) ==> HoldsNothing(s, b))
  }

  lemma CleanCancelStep(s: State, e: Event, q: nat, b: nat)
    requires Inv(s) && Enabled(s, e) && CleanCancel(s, q, b)
    ensures CleanCancel(Next(s, e), q, b)
  {
    StaysCreated(s, e, b);
    if e.ReleaseRooms? && e.call == q {
      ReleaseEmpties(s, e);
    }
  }

  lemma {:induction false} CleanCancelStays(es: seq<Event>, ss: seq<State>, i: nat, q: nat, b: nat)
    requires IsRun(es, ss) && Inv(ss[0]) && i <= |es| && CleanCancel(ss[0], q, b)
    ensures CleanCancel(ss[i], q, b)
  {
    if i == 0 {
    } else {
      CleanCancelStays(es, ss, i - 1, q, b);
      RunKeepsInv(es, ss, i - 1);
      CleanCancelStep(ss[i - 1], es[i - 1], q, b);
    }
  }

  lemma CleanCancelNeverLeaks(s: State, s': State, q: nat, b: nat)
    requires Inv(s) && CleanCancel(s, q, b) && Reaches(s, s')
    ensures !Leaked(s', q, b)
  {
    var es, ss :| IsRun(es, ss) && ss[0] == s && ss[|es|] == s';
    CleanCancelStays(es, ss, |es|, q, b);
  }

  lemma CancelDuringCreateLeaks(es: seq<Event>, ss: seq<State>, q: nat, b: nat) returns (s': State)
    requires IsHistory(es, ss) && q !in ss[|es|].calls && BeingCreated(ss[|es|], b)
    requires b < |ss[|es|].t.bookings| && !IsCancelled(ss[|es|], b)
    ensures Reaches(Next(ss[|es|], CheckBooking(q, b)), s') && Leaked(s', q, b)
  {
    var s := ss[|es|];
    HistoryHasInv(es, ss, |es|);
    var p :| p in s.calls && s.calls[p].Creating(b);
    var r := CreateCarriesRoom(es, ss, p);
    var passed := CancelPasses(s, p, q, b);
    s' := CreateGoesOn(Next(s, CheckBooking(q, b)), passed, p, q, b, r);
  }

  /**
   Exactly which cancels can leave rooms held. A cancel that passes its check has a continuation in which it
   returns and leaves its CANCELLED booking holding a room if and only if the booking was still being created,
   anywhere between the insert and the stamp, when it was checked.
   */
  lemma CancelCanLeakIffBeingCreated(es: seq<Event>, ss: seq<State>, q: nat, b: nat)
    requires IsHistory(es, ss) && q !in ss[|es|].calls
    requires b < |ss[|es|].t.bookings| && !IsCancelled(ss[|es|], b)
    ensures (exists s' :: Reaches(Next(ss[|es|], CheckBooking(q, b)), s') && Leaked(s', q, b))
       <==> BeingCreated(ss[|es|], b)
  {
    var s := ss[|es|];
    HistoryHasInv(es, ss, |es|);
    if BeingCreated(s, b) {
      var s' := CancelDuringCreateLeaks(es, ss, q, b);
    } else {
      var start := Next(s, CheckBooking(q, b));
      StepKeepsInv(s, CheckBooking(q, b));
      StaysCreated(s, CheckBooking(q, b), b);
      forall s' | Reaches(start, s')
        ensures !Leaked(s', q, b)
      {
        CleanCancelNeverLeaks(start, s', q, b);
      }
    }
  }
}
