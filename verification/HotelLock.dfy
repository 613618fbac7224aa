/** The hotel lock: acquired with a time to live and never released, it only expires. */
module HotelLock {
  import opened Rooms
  import opened BookingProtocol

  /** Event `i` acquires the lock of `hotel`. */
  ghost predicate Acquires(es: seq<Event>, ss: seq<State>, i: nat, hotel: nat)
    requires IsRun(es, ss)
  {
    && i < |es| && es[i].AcquireLock?
    && assert Enabled(ss[i], es[i]); ss[i].calls[es[i].call].request.hotelId == hotel
  }

  /** How many of the first `n` events acquire the lock of `hotel` at a time within [from, to]. */
  ghost function AcquiredIn(es: seq<Event>, ss: seq<State>, n: nat, hotel: nat, from: int, to: int): nat
    requires IsRun(es, ss) && n <= |es|
  {
    if n == 0 then 0
    else
      var before := AcquiredIn(es, ss, n - 1, hotel, from, to);
      if Acquires(es, ss, n - 1, hotel) && from <= ss[n - 1].now <= to then before + 1 else before
  }

  /** A step never shortens a lock, never turns time back, and an acquisition needs the old lock to have expired. */
  lemma LockStep(s: State, e: Event, hotel: nat)
    requires Enabled(s, e) && s.ttl >= 0
    ensures Next(s, e).ttl == s.ttl && Next(s, e).now >= s.now
    ensures hotel in s.t.locks ==> hotel in Next(s, e).t.locks && Next(s, e).t.locks[hotel] >= s.t.locks[hotel]
    ensures e.AcquireLock? && s.calls[e.call].request.hotelId == hotel ==>
              && (hotel in s.t.locks ==> s.t.locks[hotel] <= s.now)
              && hotel in Next(s, e).t.locks && Next(s, e).t.locks[hotel] == s.now + s.ttl
  {
  }

  /** After `count` acquisitions within the window, the lock is held until `count` TTLs past the window's start. */
  lemma {:induction false} LockOutlastsAcquisitions(
      es: seq<Event>, ss: seq<State>, n: nat, hotel: nat, from: int, to: int)
    requires IsRun(es, ss) && n <= |es| && ss[0].ttl > 0 && from <= to
    ensures ss[n].ttl == ss[0].ttl
    ensures var count := AcquiredIn(es, ss, n, hotel, from, to);
            count > 0 ==>
              && hotel in ss[n].t.locks && ss[n].t.locks[hotel] >= from + count * ss[0].ttl
              && (count - 1) * ss[0].ttl <= to - from
  {
    if n == 0 {
    } else {
      LockOutlastsAcquisitions(es, ss, n - 1, hotel, from, to);
      var s, e, ttl := ss[n - 1], es[n - 1], ss[0].ttl;
      assert Enabled(s, e) && ss[n] == Next(s, e);
      LockStep(s, e, hotel);
      var before, count := AcquiredIn(es, ss, n - 1, hotel, from, to), AcquiredIn(es, ss, n, hotel, from, to);
      if count == before + 1 {
        LockedOnceMore(before, ttl, from, to, s.now, if hotel in s.t.locks then s.t.locks[hotel] else s.now);
      }
    }
  }

  /** An acquisition within the window once the lock of the ones before has expired. */
  lemma LockedOnceMore(before: nat, ttl: int, from: int, to: int, now: int, expiry: int)
    requires from <= now <= to && expiry <= now && (before > 0 ==> expiry >= from + before * ttl)
    ensures now + ttl >= from + (before + 1) * ttl && before * ttl <= to - from
  {
    assert (before + 1) * ttl == before * ttl + ttl;
  }

  /** Two acquisitions of one hotel's lock are at least the time to live apart. */
  lemma {:induction false} AcquisitionsAreSpaced(es: seq<Event>, ss: seq<State>, i: nat, j: nat, hotel: nat)
    requires IsRun(es, ss) && ss[0].ttl > 0
    requires i < j && Acquires(es, ss, i, hotel) && Acquires(es, ss, j, hotel)
    ensures ss[j].now >= ss[i].now + ss[0].ttl
  {
    LockKept(es, ss, i, j, hotel);
    assert Enabled(ss[j], es[j]);
  }

  lemma {:induction false} LockKept(es: seq<Event>, ss: seq<State>, i: nat, j: nat, hotel: nat)
    requires IsRun(es, ss) && ss[0].ttl > 0 && i < j <= |es| && Acquires(es, ss, i, hotel)
    ensures hotel in ss[j].t.locks && ss[j].t.locks[hotel] >= ss[i].now + ss[0].ttl
    ensures ss[j].ttl == ss[0].ttl
  {
    LockOutlastsAcquisitions(es, ss, j - 1, hotel, 0, 0);
    assert Enabled(ss[j - 1], es[j - 1]) && ss[j] == Next(ss[j - 1], es[j - 1]);
    LockStep(ss[j - 1], es[j - 1], hotel);
    if i < j - 1 {
      LockKept(es, ss, i, j - 1, hotel);
    }
  }

  /** A window of length `to - from` contains at most floor((to - from) / ttl) + 1 acquisitions of one hotel's lock. */
  lemma AcquisitionsPerWindow(es: seq<Event>, ss: seq<State>, hotel: nat, from: int, to: int)
    requires IsRun(es, ss) && ss[0].ttl > 0 && from <= to
    ensures AcquiredIn(es, ss, |es|, hotel, from, to) <= (to - from) / ss[0].ttl + 1
  {
    LockOutlastsAcquisitions(es, ss, |es|, hotel, from, to);
    var count, ttl := AcquiredIn(es, ss, |es|, hotel, from, to), ss[0].ttl;
    if count > 0 {
      DivAtLeast(to - from, ttl, count - 1);
    }
  }

  lemma DivAtLeast(x: int, y: int, q: int)
    requires y > 0 && q * y <= x
    ensures q <= x / y
  {
    if x / y < q {
      assert x == (x / y) * y + x % y;
      MulMono(x / y + 1, q, y);
    }
  }
}
