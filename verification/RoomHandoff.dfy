/**
 Who holds a room. A create reads the free rooms before it takes the hotel lock and stamps them without
 looking again, so the lock does not keep two bookings apart; what does is stated here exactly.
 */
module RoomHandoff {
  import opened Wrappers
  import opened Rooms
  import opened BookingProtocol

  /** Event `j` stamps room `r`. */
  ghost predicate Stamps(es: seq<Event>, ss: seq<State>, j: nat, r: nat)
    requires IsRun(es, ss)
  {
    && j < |es| && es[j].StampRooms?
    && r < |ss[j].t.rooms|
    && assert Enabled(ss[j], es[j]); r in ss[j].calls[es[j].call].ids
  }

  /** The booking that event `j` stamps rooms with. */
  ghost function StampedWith(es: seq<Event>, ss: seq<State>, j: nat): nat
    requires IsRun(es, ss) && j < |es| && es[j].StampRooms?
  {
    assert Enabled(ss[j], es[j]);
    ss[j].calls[es[j].call].booking
  }

  /** Event `m` releases the rooms of booking `b`. */
  ghost predicate Releases(es: seq<Event>, ss: seq<State>, m: nat, b: nat)
    requires IsRun(es, ss)
  {
    && m < |es| && es[m].ReleaseRooms?
    && assert Enabled(ss[m], es[m]); ss[m].calls[es[m].call].booking == b
  }

  /** Room `r`, stamped at `k`, was neither stamped again nor released before `j`. */
  ghost predicate LastStamp(es: seq<Event>, ss: seq<State>, k: nat, j: nat, r: nat)
    requires IsRun(es, ss)
  {
    && k < j <= |es| && Stamps(es, ss, k, r)
    && forall m :: k < m < j ==> !Stamps(es, ss, m, r) && !Releases(es, ss, m, StampedWith(es, ss, k))
  }

  /** Event `j` takes room `r` from a different booking that holds it. */
  ghost predicate TakesFromHolder(es: seq<Event>, ss: seq<State>, j: nat, r: nat)
    requires IsRun(es, ss)
  {
    && Stamps(es, ss, j, r)
    && ss[j].t.rooms[r].bookingId.Some?
    && ss[j].t.rooms[r].bookingId.value != StampedWith(es, ss, j)
  }

  /** The availability read of the create that stamps at `j` happened before event `k`. */
  ghost predicate ReadBefore(es: seq<Event>, ss: seq<State>, j: nat, k: nat)
    requires IsRun(es, ss) && j < |es| && es[j].StampRooms?
  {
    exists i :: 0 <= i < k && i < |es| && es[i].ReadRooms? && es[i].call == es[j].call
  }

  // ---------------------------------------------------------------- holding follows the last stamp

  lemma StampStep(es: seq<Event>, ss: seq<State>, k: nat, r: nat)
    requires IsRun(es, ss) && Stamps(es, ss, k, r)
    ensures r < |ss[k + 1].t.rooms|
    ensures ss[k + 1].t.rooms[r].bookingId == Some(StampedWith(es, ss, k))
  {
    assert ss[k + 1] == Next(ss[k], es[k]);
  }

  /** Rooms only change hands by being stamped or released. */
  lemma OtherStep(es: seq<Event>, ss: seq<State>, m: nat, r: nat)
    requires IsRun(es, ss) && m < |es| && r < |ss[m].t.rooms| && !Stamps(es, ss, m, r)
    ensures r < |ss[m + 1].t.rooms|
    ensures ss[m + 1].t.rooms[r].bookingId ==
              if ss[m].t.rooms[r].bookingId.Some? && Releases(es, ss, m, ss[m].t.rooms[r].bookingId.value)
              then None else ss[m].t.rooms[r].bookingId
  {
    assert Enabled(ss[m], es[m]) && ss[m + 1] == Next(ss[m], es[m]);
  }

  lemma {:induction false} LastStampHolds(es: seq<Event>, ss: seq<State>, k: nat, j: nat, r: nat)
    requires IsRun(es, ss) && LastStamp(es, ss, k, j, r)
    ensures r < |ss[j].t.rooms| && ss[j].t.rooms[r].bookingId == Some(StampedWith(es, ss, k))
  {
    if j == k + 1 {
      StampStep(es, ss, k, r);
    } else {
      LastStampHolds(es, ss, k, j - 1, r);
      OtherStep(es, ss, j - 1, r);
    }
  }

  /** No room is held at the start, and added rooms arrive free. */
  lemma NewRoomsAreFree(es: seq<Event>, ss: seq<State>, j: nat, r: nat)
    requires IsHistory(es, ss) && j <= |es| && r < |ss[j].t.rooms|
    requires j > 0 ==> r >= |ss[j - 1].t.rooms|
    ensures ss[j].t.rooms[r].bookingId == None
  {
    if j == 0 {
      assert ss[0].t.rooms[r] in ss[0].t.rooms;
    } else {
      assert Enabled(ss[j - 1], es[j - 1]) && ss[j] == Next(ss[j - 1], es[j - 1]);
      assert ss[j].t.rooms[r] == es[j - 1].rooms[r - |ss[j - 1].t.rooms|];
    }
  }

  lemma JustStamped(es: seq<Event>, ss: seq<State>, k: nat, r: nat)
    requires IsRun(es, ss) && Stamps(es, ss, k, r)
    ensures LastStamp(es, ss, k, k + 1, r)
  {
  }

  /** A step that neither stamps the room nor releases its holder leaves the last stamp standing. */
  lemma LastStampStands(es: seq<Event>, ss: seq<State>, k: nat, j: nat, r: nat)
    requires IsRun(es, ss) && j < |es| && LastStamp(es, ss, k, j, r)
    requires !Stamps(es, ss, j, r) && !Releases(es, ss, j, StampedWith(es, ss, k))
    ensures LastStamp(es, ss, k, j + 1, r)
  {
  }

  /** A booking that holds a room held it before, unless the last step stamped it. */
  lemma HeldBefore(es: seq<Event>, ss: seq<State>, m: nat, r: nat, b: nat)
    requires IsHistory(es, ss) && m < |es| && !Stamps(es, ss, m, r)
    requires r < |ss[m + 1].t.rooms| && ss[m + 1].t.rooms[r].bookingId == Some(b)
    ensures r < |ss[m].t.rooms| && ss[m].t.rooms[r].bookingId == Some(b) && !Releases(es, ss, m, b)
  {
    if r >= |ss[m].t.rooms| {
      NewRoomsAreFree(es, ss, m + 1, r);
    }
    OtherStep(es, ss, m, r);
  }

  lemma {:induction false} HolderWasStamped(es: seq<Event>, ss: seq<State>, j: nat, r: nat, b: nat) returns (k: nat)
    requires IsHistory(es, ss) && j <= |es|
    requires r < |ss[j].t.rooms| && ss[j].t.rooms[r].bookingId == Some(b)
    ensures LastStamp(es, ss, k, j, r) && StampedWith(es, ss, k) == b
  {
    if j == 0 {
      NewRoomsAreFree(es, ss, j, r);
      assert false;
    } else if Stamps(es, ss, j - 1, r) {
      StampStep(es, ss, j - 1, r);
      JustStamped(es, ss, j - 1, r);
      k := j - 1;
    } else {
      HeldBefore(es, ss, j - 1, r, b);
      k := HolderWasStamped(es, ss, j - 1, r, b);
      LastStampStands(es, ss, k, j - 1, r);
    }
  }

  /** A create still under way carries the rooms its read found free. */
  lemma {:induction false} ReadFoundFree(es: seq<Event>, ss: seq<State>, j: nat, p: nat) returns (i: nat)
    requires IsHistory(es, ss) && j <= |es| && p in ss[j].calls
    requires var c := ss[j].calls[p]; c.CreateRead? || c.CreateLocked? || c.CreateInserted? || c.CreateKeyed?
    ensures i < j && es[i].ReadRooms? && es[i].call == p
    ensures ss[j].calls[p].ids == FreeRooms(ss[i].t, es[i].request) && ss[j].calls[p].ids != []
  {
    assert j > 0;
    assert Enabled(ss[j - 1], es[j - 1]) && ss[j] == Next(ss[j - 1], es[j - 1]);
    if es[j - 1].ReadRooms? && es[j - 1].call == p {
      i := j - 1;
    } else {
      i := ReadFoundFree(es, ss, j - 1, p);
    }
  }

  /** A call that is over stays as it is. */
  lemma OverStays(s: State, e: Event, p: nat)
    requires Enabled(s, e) && p in s.calls && s.calls[p].Over()
    ensures p in Next(s, e).calls && Next(s, e).calls[p] == s.calls[p]
  {
  }

  lemma OverStaysAt(es: seq<Event>, ss: seq<State>, i: nat, p: nat)
    requires IsRun(es, ss) && i < |es| && p in ss[i].calls && ss[i].calls[p].Over()
    ensures p in ss[i + 1].calls && ss[i + 1].calls[p] == ss[i].calls[p]
  {
    assert Enabled(ss[i], es[i]) && ss[i + 1] == Next(ss[i], es[i]);
    OverStays(ss[i], es[i], p);
  }

  /** From then on a call that is over stays as it is. */
  lemma {:induction false} OverForGood(es: seq<Event>, ss: seq<State>, i: nat, j: nat, p: nat)
    requires IsRun(es, ss) && i <= j <= |es| && p in ss[i].calls && ss[i].calls[p].Over()
    ensures p in ss[j].calls && ss[j].calls[p] == ss[i].calls[p]
    decreases j
  {
    if i == j {
    } else {
      OverForGood(es, ss, i, j - 1, p);
      OverStaysAt(es, ss, j - 1, p);
    }
  }

  /** Once a create has stamped, its call keeps its booking for good. */
  lemma CreatedStays(es: seq<Event>, ss: seq<State>, k: nat, j: nat)
    requires IsRun(es, ss) && k < j <= |es| && es[k].StampRooms?
    ensures es[k].call in ss[j].calls && ss[j].calls[es[k].call].Created?
    ensures ss[j].calls[es[k].call].booking == StampedWith(es, ss, k)
  {
    assert Enabled(ss[k], es[k]) && ss[k + 1] == Next(ss[k], es[k]);
    StampReturns(ss[k], es[k]);
    OverForGood(es, ss, k + 1, j, es[k].call);
  }

  lemma StampReturns(s: State, e: Event)
    requires Enabled(s, e) && e.StampRooms?
    ensures e.call in Next(s, e).calls && Next(s, e).calls[e.call] == Created(s.calls[e.call].booking, s.calls[e.call].key)
  {
  }

  lemma HistoryHasInv(es: seq<Event>, ss: seq<State>, i: nat)
    requires IsHistory(es, ss) && i <= |es|
    ensures Inv(ss[i])
  {
    forall r | 0 <= r < |ss[0].t.rooms|
      ensures ss[0].t.rooms[r].bookingId == None
    {
      assert ss[0].t.rooms[r] in ss[0].t.rooms;
    }
    assert Inv(ss[0]);
    RunKeepsInv(es, ss, i);
  }

  /** Different stamp events carry different bookings. */
  lemma StampsDiffer(es: seq<Event>, ss: seq<State>, k: nat, j: nat)
    requires IsHistory(es, ss) && k < j < |es| && es[k].StampRooms? && es[j].StampRooms?
    ensures StampedWith(es, ss, k) != StampedWith(es, ss, j)
    ensures es[k].call != es[j].call
  {
    CreatedStays(es, ss, k, j);
    HistoryHasInv(es, ss, j);
    assert Enabled(ss[j], es[j]);
    assert Own(ss[j].calls[es[k].call]).Some?;
  }

  // ---------------------------------------------------------------- the theorem

  /**
   Exactly when a stamp takes a room from the booking that holds it: some earlier stamp of the room still
   stands, and the availability read came before that stamp.
   */
  lemma TakesIffReadBeforeStandingStamp(es: seq<Event>, ss: seq<State>, j: nat, r: nat)
    requires IsHistory(es, ss) && Stamps(es, ss, j, r)
    ensures TakesFromHolder(es, ss, j, r) <==>
            exists k: nat :: LastStamp(es, ss, k, j, r) && ReadBefore(es, ss, j, k)
  {
    if TakesFromHolder(es, ss, j, r) {
      var k := HolderWasStamped(es, ss, j, r, ss[j].t.rooms[r].bookingId.value);
      assert Enabled(ss[j], es[j]);
      var i := ReadFoundFree(es, ss, j, es[j].call);
      assert r < |ss[i].t.rooms| && ss[i].t.rooms[r].bookingId == None;
      if k < i {
        assert LastStamp(es, ss, k, i, r);
        LastStampHolds(es, ss, k, i, r);
      }
      assert k != i;
      assert ReadBefore(es, ss, j, k);
    }
    if k: nat :| LastStamp(es, ss, k, j, r) && ReadBefore(es, ss, j, k) {
      LastStampHolds(es, ss, k, j, r);
      StampsDiffer(es, ss, k, j);
    }
  }

  /** The handoff names its causes: the holder's stamp, and before it the read of the call that takes over. */
  lemma HandoffWasReadEarlier(es: seq<Event>, ss: seq<State>, j: nat, r: nat) returns (i: nat, k: nat)
    requires IsHistory(es, ss) && TakesFromHolder(es, ss, j, r)
    ensures i < k < j
    ensures es[i].ReadRooms? && es[i].call == es[j].call
    ensures Stamps(es, ss, k, r) && ss[j].t.rooms[r].bookingId == Some(StampedWith(es, ss, k))
  {
    TakesIffReadBeforeStandingStamp(es, ss, j, r);
    k :| LastStamp(es, ss, k, j, r) && ReadBefore(es, ss, j, k);
    i :| 0 <= i < k && i < |es| && es[i].ReadRooms? && es[i].call == es[j].call;
    LastStampHolds(es, ss, k, j, r);
  }

  /** If, room by room, every create reads after every earlier stamp, no room is ever taken from its holder. */
  lemma ReadsAfterStampsAreSafe(es: seq<Event>, ss: seq<State>)
    requires IsHistory(es, ss)
    requires forall k: nat, j: nat, r: nat :: k < j && Stamps(es, ss, k, r) && Stamps(es, ss, j, r) ==> !ReadBefore(es, ss, j, k)
    ensures forall j: nat, r: nat :: !TakesFromHolder(es, ss, j, r)
  {
    forall j: nat, r: nat
      ensures !TakesFromHolder(es, ss, j, r)
    {
      if TakesFromHolder(es, ss, j, r) {
        TakesIffReadBeforeStandingStamp(es, ss, j, r);
      }
    }
  }

  // ---------------------------------------------------------------- the lock does not prevent it

  /** How long a create has to wait for the hotel lock. */
  function LockWait(s: State, hotel: nat): nat {
    if LockFree(s.t, hotel, s.now) then 0 else s.t.locks[hotel] - s.now
  }

  /** A create that has read its rooms can always run to its end, once it waits out the hotel lock. */
  lemma FinishCreate(es: seq<Event>, ss: seq<State>, p: nat, key: string) returns (es': seq<Event>, ss': seq<State>)
    requires IsRun(es, ss)
    requires p in ss[|es|].calls && ss[|es|].calls[p].CreateRead? && key !in ss[|es|].t.keys
    ensures IsRun(es', ss') && |es'| == |es| + 5 && es <= es' && ss <= ss'
    ensures es'[|es| + 4] == StampRooms(p)
    ensures var s, stamping, s' := ss[|es|], ss'[|es| + 4], ss'[|es| + 5];
            var b := |s.t.bookings|;
            && stamping.t.rooms == s.t.rooms
            && stamping.calls == s.calls[p := CreateKeyed(s.calls[p].ids, b, key)]
            && s'.t.rooms == Stamped(s.t.rooms, s.calls[p].ids, b)
            && s'.t.bookings == s.t.bookings + [Booking(s.calls[p].request, PENDING)]
            && s'.t.keys == s.t.keys[key := IdempotencyKey(b, false)]
            && s'.calls == s.calls[p := Created(b, key)]
  {
    var s := ss[|es|];
    var wait := LockWait(s, s.calls[p].request.hotelId);
    var s1, s2, s3, s4 := CreateSteps(s, p, key, wait);
    es', ss' := Append(es, ss, Pass(wait));
    es', ss' := Append(es', ss', AcquireLock(p));
    es', ss' := Append(es', ss', InsertBooking(p));
    es', ss' := Append(es', ss', InsertKey(p, key));
    es', ss' := Append(es', ss', StampRooms(p));
  }

  /** The states a waiting create goes through on its own. */
  lemma CreateSteps(s: State, p: nat, key: string, wait: nat) returns (s1: State, s2: State, s3: State, s4: State)
    requires p in s.calls && s.calls[p].CreateRead? && key !in s.t.keys
    requires wait == LockWait(s, s.calls[p].request.hotelId)
    ensures Enabled(s, Pass(wait)) && s1 == Next(s, Pass(wait))
    ensures Enabled(s1, AcquireLock(p)) && s2 == Next(s1, AcquireLock(p))
    ensures Enabled(s2, InsertBooking(p)) && s3 == Next(s2, InsertBooking(p))
    ensures Enabled(s3, InsertKey(p, key)) && s4 == Next(s3, InsertKey(p, key))
    ensures s4.t.rooms == s.t.rooms && s4.t.bookings == s.t.bookings + [Booking(s.calls[p].request, PENDING)]
    ensures s4.t.keys == s.t.keys[key := IdempotencyKey(|s.t.bookings|, false)]
    ensures s4.calls == s.calls[p := CreateKeyed(s.calls[p].ids, |s.t.bookings|, key)]
  {
    s1 := Next(s, Pass(wait));
    s2 := Next(s1, AcquireLock(p));
    s3 := Next(s2, InsertBooking(p));
    s4 := Next(s3, InsertKey(p, key));
  }

  /**
   So the hotel lock does not prevent double booking. From any state in which two creates have both read a
   room as free, there is a run in which each waits for the lock, both succeed, and the second takes the
   room from the first, whose booking stays PENDING.
   */
  lemma OverlappingReadsDoubleBook(es: seq<Event>, ss: seq<State>, p: nat, q: nat, r: nat, keyP: string, keyQ: string)
    returns (es': seq<Event>, ss': seq<State>)
    requires IsRun(es, ss)
    requires var s := ss[|es|];
             && p != q && p in s.calls && q in s.calls && s.calls[p].CreateRead? && s.calls[q].CreateRead?
             && r < |s.t.rooms| && r in s.calls[p].ids && r in s.calls[q].ids
             && keyP != keyQ && keyP !in s.t.keys && keyQ !in s.t.keys
    ensures IsRun(es', ss') && es < es' && ss < ss'
    ensures TakesFromHolder(es', ss', |es'| - 1, r)
    ensures var s' := ss'[|es'|];
            && p in s'.calls && s'.calls[p].Created? && q in s'.calls && s'.calls[q].Created?
            && s'.calls[p].booking < |s'.t.bookings| && s'.t.bookings[s'.calls[p].booking].status == PENDING
            && s'.calls[q].booking < |s'.t.bookings| && s'.t.bookings[s'.calls[q].booking].status == PENDING
            && r < |s'.t.rooms| && s'.t.rooms[r].bookingId == Some(s'.calls[q].booking)
            && s'.calls[p].booking != s'.calls[q].booking
  {
    es', ss' := FinishCreate(es, ss, p, keyP);
    es', ss' := FinishCreate(es', ss', q, keyQ);
  }
}
