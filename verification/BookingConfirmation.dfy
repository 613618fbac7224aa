/** Exactly-once confirmation and the booking state machine, over every run of the protocol. */
module BookingConfirmation {
  import opened Wrappers
  import opened Rooms
  import opened BookingProtocol

  /** Event `i` commits the confirm transaction on `key`. */
  ghost predicate Commits(es: seq<Event>, ss: seq<State>, i: nat, key: string)
    requires IsRun(es, ss)
  {
    && i < |es| && es[i].Commit?
    && assert Enabled(ss[i], es[i]); ss[i].calls[es[i].call].key == key
  }

  // ---------------------------------------------------------------- keys and bookings only move forward

  /** No step removes a key, moves it to another booking or takes its finalized mark back. */
  lemma StepKeepsFinalized(s: State, e: Event, key: string)
    requires Inv(s) && Enabled(s, e) && key in s.t.keys
    ensures var t' := Next(s, e).t;
            && key in t'.keys && t'.keys[key].bookingId == s.t.keys[key].bookingId
            && (s.t.keys[key].finalized ==> t'.keys[key].finalized)
  {
  }

  lemma {:induction false} FinalizedNeverReverts(es: seq<Event>, ss: seq<State>, i: nat, j: nat, key: string)
    requires IsRun(es, ss) && Inv(ss[0]) && i <= j <= |es|
    requires key in ss[i].t.keys
    ensures key in ss[j].t.keys && ss[j].t.keys[key].bookingId == ss[i].t.keys[key].bookingId
    ensures ss[i].t.keys[key].finalized ==> ss[j].t.keys[key].finalized
  {
    if i == j {
    } else {
      FinalizedNeverReverts(es, ss, i, j - 1, key);
      RunKeepsInv(es, ss, j - 1);
      StepKeepsFinalized(ss[j - 1], es[j - 1], key);
    }
  }

  /** A commit finds its key open and leaves it finalized. */
  lemma CommitFinalizes(es: seq<Event>, ss: seq<State>, i: nat, key: string)
    requires IsRun(es, ss) && Inv(ss[0]) && Commits(es, ss, i, key)
    ensures key in ss[i].t.keys && !ss[i].t.keys[key].finalized
    ensures key in ss[i + 1].t.keys && ss[i + 1].t.keys[key].finalized
    ensures ss[i].t.keys[key].bookingId == ss[i].calls[es[i].call].booking
  {
    RunKeepsInv(es, ss, i);
    assert Enabled(ss[i], es[i]) && ss[i + 1] == Next(ss[i], es[i]);
    assert CallOk(ss[i].t, ss[i].calls[es[i].call]);
  }

  /** At most one confirm transaction on a key ever commits. */
  lemma AtMostOneCommit(es: seq<Event>, ss: seq<State>, i: nat, j: nat, key: string)
    requires IsRun(es, ss) && Inv(ss[0])
    requires Commits(es, ss, i, key) && Commits(es, ss, j, key)
    ensures i == j
  {
    CommitFinalizes(es, ss, i, key);
    CommitFinalizes(es, ss, j, key);
    if i < j {
      FinalizedNeverReverts(es, ss, i + 1, j, key);
    } else if j < i {
      FinalizedNeverReverts(es, ss, j + 1, i, key);
    }
  }

  /** Every confirm that reads the key after the commit is refused. */
  lemma LaterConfirmIsRefused(es: seq<Event>, ss: seq<State>, i: nat, j: nat, key: string)
    requires IsRun(es, ss) && Inv(ss[0]) && Commits(es, ss, i, key)
    requires i < j < |es| && es[j].LockKey? && es[j].key == key
    ensures ss[j + 1].calls[es[j].call] == Failed(BadRequest)
    ensures ss[j + 1].t == ss[j].t
  {
    CommitFinalizes(es, ss, i, key);
    FinalizedNeverReverts(es, ss, i + 1, j, key);
    assert Enabled(ss[j], es[j]) && ss[j + 1] == Next(ss[j], es[j]);
  }

  /** The call an event belongs to. */
  function CallOf(e: Event): Option<nat> {
    if e.Pass? || e.AddRooms? then None else Some(e.call)
  }

  /**
   A confirm that has not committed, whether still open, refused or rolled back, has changed no table. The model
   takes transactions at their word: an update inside one is held back until its commit.
   */
  lemma UncommittedConfirmIsInvisible(es: seq<Event>, ss: seq<State>, start: nat, i: nat)
    requires IsRun(es, ss) && start <= i < |es|
    requires es[start].LockKey? && CallOf(es[i]) == Some(es[start].call) && !es[i].Commit?
    ensures ss[i + 1].t == ss[i].t
  {
    ConfirmStaysConfirm(es, ss, start, i);
    assert Enabled(ss[i], es[i]) && ss[i + 1] == Next(ss[i], es[i]);
  }

  ghost predicate IsConfirm(c: Call) {
    c.InTransaction() || c.Confirmed? || c.Failed?
  }

  lemma {:induction false} ConfirmStaysConfirm(es: seq<Event>, ss: seq<State>, start: nat, i: nat)
    requires IsRun(es, ss) && start <= i < |es| && es[start].LockKey?
    ensures i > start ==> es[start].call in ss[i].calls && IsConfirm(ss[i].calls[es[start].call])
  {
    if i == start {
    } else {
      ConfirmStaysConfirm(es, ss, start, i - 1);
      assert Enabled(ss[i - 1], es[i - 1]) && ss[i] == Next(ss[i - 1], es[i - 1]);
      ConfirmStep(ss[i - 1], es[i - 1], es[start].call);
    }
  }

  lemma ConfirmStep(s: State, e: Event, p: nat)
    requires Enabled(s, e) && ((e.LockKey? && e.call == p) || (p in s.calls && IsConfirm(s.calls[p])))
    ensures p in Next(s, e).calls && IsConfirm(Next(s, e).calls[p])
  {
  }

  // ---------------------------------------------------------------- the status of a booking

  ghost predicate Exists(s: State, b: nat) {
    b < |s.t.bookings|
  }

  /** Event `i` moves booking `b` into CONFIRMED. */
  ghost predicate EntersConfirmed(es: seq<Event>, ss: seq<State>, i: nat, b: nat)
    requires IsRun(es, ss)
  {
    && i < |es| && Exists(ss[i + 1], b) && ss[i + 1].t.bookings[b].status == CONFIRMED
    && !(Exists(ss[i], b) && ss[i].t.bookings[b].status == CONFIRMED)
  }

  /** A booking enters CONFIRMED only by the commit on its key. */
  lemma OnlyCommitConfirms(es: seq<Event>, ss: seq<State>, i: nat, b: nat) returns (key: string)
    requires IsRun(es, ss) && Inv(ss[0]) && EntersConfirmed(es, ss, i, b)
    ensures Commits(es, ss, i, key) && key in ss[i].t.keys && ss[i].t.keys[key].bookingId == b
  {
    assert Enabled(ss[i], es[i]) && ss[i + 1] == Next(ss[i], es[i]);
    key := ss[i].calls[es[i].call].key;
    CommitFinalizes(es, ss, i, key);
  }

  /** Each booking enters CONFIRMED at most once in its life. */
  lemma ConfirmedAtMostOnce(es: seq<Event>, ss: seq<State>, i: nat, j: nat, b: nat)
    requires IsRun(es, ss) && Inv(ss[0])
    requires EntersConfirmed(es, ss, i, b) && EntersConfirmed(es, ss, j, b)
    ensures i == j
  {
    var k := OnlyCommitConfirms(es, ss, i, b);
    var l := OnlyCommitConfirms(es, ss, j, b);
    RunKeepsInv(es, ss, i);
    RunKeepsInv(es, ss, j);
    if i <= j {
      FinalizedNeverReverts(es, ss, i, j, k);
    } else {
      FinalizedNeverReverts(es, ss, j, i, l);
    }
    assert k == l;
    AtMostOneCommit(es, ss, i, j, k);
  }

  /** A step can change the status of a booking whose key is finalized only to CANCELLED. */
  lemma FinalizedStatusStep(s: State, e: Event, b: nat)
    requires Inv(s) && Enabled(s, e) && Exists(s, b) && Finalized(s.t, b)
    ensures Exists(Next(s, e), b) && Finalized(Next(s, e).t, b)
    ensures Next(s, e).t.bookings[b].status in {s.t.bookings[b].status, BookingStatus.CANCELLED}
  {
    var k :| k in s.t.keys && s.t.keys[k] == IdempotencyKey(b, true);
    StepKeepsFinalized(s, e, k);
    assert Next(s, e).t.keys[k] == IdempotencyKey(b, true);
    if e.Commit? {
      assert CallOk(s.t, s.calls[e.call]);
    }
  }

  /** Once finalized, a booking's status never changes except to CANCELLED, and CANCELLED is then final. */
  lemma {:induction false} FinalizedCancelledIsFinal(es: seq<Event>, ss: seq<State>, i: nat, j: nat, b: nat)
    requires IsRun(es, ss) && Inv(ss[0]) && i <= j <= |es|
    requires Exists(ss[i], b) && Finalized(ss[i].t, b)
    ensures Exists(ss[j], b) && Finalized(ss[j].t, b)
    ensures ss[j].t.bookings[b].status in {ss[i].t.bookings[b].status, BookingStatus.CANCELLED}
  {
    if i == j {
    } else {
      FinalizedCancelledIsFinal(es, ss, i, j - 1, b);
      RunKeepsInv(es, ss, j - 1);
      FinalizedStatusStep(ss[j - 1], es[j - 1], b);
    }
  }

  // ---------------------------------------------------------------- which bookings can still be confirmed

  ghost predicate IsConfirmed(s: State, b: nat) {
    Exists(s, b) && s.t.bookings[b].status == CONFIRMED
  }

  /** An open key names the booking, or its create has still to insert one. */
  ghost predicate HasOpenKey(s: State, b: nat) {
    || (exists k :: k in s.t.keys && s.t.keys[k] == IdempotencyKey(b, false))
    || (exists p :: p in s.calls && s.calls[p].CreateInserted? && s.calls[p].booking == b)
  }

  /** Confirm does not look at the status: with an open key that no transaction has locked, four steps confirm. */
  lemma OpenKeyConfirms(s: State, p: nat, key: string) returns (es: seq<Event>, ss: seq<State>)
    requires Inv(s) && p !in s.calls && key in s.t.keys && !s.t.keys[key].finalized
    requires forall q :: q in s.calls ==> !s.calls[q].InTransaction() || s.calls[q].key != key
    ensures IsRun(es, ss) && ss[0] == s && |es| == 4
    ensures IsConfirmed(ss[4], s.t.keys[key].bookingId)
    ensures ss[4].t.rooms == s.t.rooms
  {
    var b := s.t.keys[key].bookingId;
    forall q | q in s.calls
      ensures !s.calls[q].LocksBookingRow(b)
    {
      assert CallOk(s.t, s.calls[q]);
    }
    es, ss := [], [s];
    es, ss := Append(es, ss, LockKey(p, key));
    es, ss := Append(es, ss, UpdateBooking(p));
    es, ss := Append(es, ss, FinalizeKey(p));
    es, ss := Append(es, ss, Commit(p));
  }

  /** With an open key in any state, even inside a transaction, some run confirms; the rooms stay as they are. */
  lemma OpenKeyReachesConfirmed(s: State, key: string) returns (s': State)
    requires Inv(s) && key in s.t.keys && !s.t.keys[key].finalized
    ensures Reaches(s, s') && IsConfirmed(s', s.t.keys[key].bookingId) && s'.t.rooms == s.t.rooms
  {
    var clear := RollBack(s, s.t.keys[key].bookingId);
    KeyIsClear(clear, key);
    var p := FreshId(clear.calls.Keys);
    var es, ss := OpenKeyConfirms(clear, p, key);
    s' := ss[4];
    assert Reaches(clear, s');
    ReachesOnwards(s, clear, s');
  }

  lemma KeyIsClear(s: State, key: string)
    requires Inv(s) && key in s.t.keys
    requires forall q :: q in s.calls && s.calls[q].InTransaction() ==> s.calls[q].booking != s.t.keys[key].bookingId
    ensures forall q :: q in s.calls ==> !s.calls[q].InTransaction() || s.calls[q].key != key
  {
    forall q | q in s.calls && s.calls[q].InTransaction()
      ensures s.calls[q].key != key
    {
      assert CallOk(s.t, s.calls[q]);
    }
  }

  /** No step gives an existing booking a new way to an open key. */
  lemma OpenKeyBefore(s: State, e: Event, b: nat)
    requires Inv(s) && Enabled(s, e) && Exists(s, b) && HasOpenKey(Next(s, e), b)
    ensures HasOpenKey(s, b)
  {
    var s' := Next(s, e);
    if k :| k in s'.t.keys && s'.t.keys[k] == IdempotencyKey(b, false) {
      if k !in s.t.keys {
        assert s.calls[e.call].CreateInserted? && s.calls[e.call].booking == b;
      }
    } else {
      var p :| p in s'.calls && s'.calls[p].CreateInserted? && s'.calls[p].booking == b;
      assert p in s.calls && s.calls[p] == s'.calls[p];
    }
  }

  /** Only a booking with an open key becomes CONFIRMED. */
  lemma ConfirmedHadOpenKey(s: State, e: Event, b: nat)
    requires Inv(s) && Enabled(s, e) && Exists(s, b) && !IsConfirmed(s, b) && IsConfirmed(Next(s, e), b)
    ensures HasOpenKey(s, b)
  {
    assert CallOk(s.t, s.calls[e.call]);
  }

  lemma {:induction false} ClosedForGood(es: seq<Event>, ss: seq<State>, i: nat, b: nat)
    requires IsRun(es, ss) && Inv(ss[0]) && i <= |es|
    requires Exists(ss[0], b) && !IsConfirmed(ss[0], b) && !HasOpenKey(ss[0], b)
    ensures Exists(ss[i], b) && !IsConfirmed(ss[i], b) && !HasOpenKey(ss[i], b)
  {
    if i == 0 {
    } else {
      ClosedForGood(es, ss, i - 1, b);
      RunKeepsInv(es, ss, i - 1);
      assert Enabled(ss[i - 1], es[i - 1]) && ss[i] == Next(ss[i - 1], es[i - 1]);
      if HasOpenKey(ss[i], b) {
        OpenKeyBefore(ss[i - 1], es[i - 1], b);
      }
      if IsConfirmed(ss[i], b) {
        ConfirmedHadOpenKey(ss[i - 1], es[i - 1], b);
      }
    }
  }

  /**
   A booking that is not confirmed, PENDING or CANCELLED alike, can still become CONFIRMED in some run exactly
   when an open key names it or its create has still to insert one. A CANCELLED booking is therefore final once
   its key is finalized, and also if its create failed before it had a key.
   */
  lemma ConfirmableIffOpenKey(s: State, b: nat)
    requires Inv(s) && Exists(s, b) && !IsConfirmed(s, b)
    ensures (exists s' :: Reaches(s, s') && IsConfirmed(s', b)) <==> HasOpenKey(s, b)
  {
    if s' :| Reaches(s, s') && IsConfirmed(s', b) {
      var es, ss :| IsRun(es, ss) && ss[0] == s && ss[|es|] == s';
      if !HasOpenKey(s, b) {
        ClosedForGood(es, ss, |es|, b);
      }
    }
    if k :| k in s.t.keys && s.t.keys[k] == IdempotencyKey(b, false) {
      var s' := OpenKeyReachesConfirmed(s, k);
    } else if p :| p in s.calls && s.calls[p].CreateInserted? && s.calls[p].booking == b {
      var key := FreshKey(s.t.keys.Keys);
      ReachesItself(s);
      var keyed := Step(s, s, InsertKey(p, key));
      StepKeepsInv(s, InsertKey(p, key));
      var s' := OpenKeyReachesConfirmed(keyed, key);
      ReachesOnwards(s, keyed, s');
    }
  }
}
