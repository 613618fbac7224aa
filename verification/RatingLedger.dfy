/** Conservation of ratings over every run of the batch job. */
module RatingLedger {
  import opened Wrappers
  import opened RatingAverage
  import opened RatingProtocol

  // ---------------------------------------------------------------- what the ledger adds up to

  /** The number of ratings in the entries of a hotel with the given committed mark. */
  function CountWhere(ledger: seq<Entry>, h: nat, committed: bool): nat {
    if ledger == [] then 0
    else
      var last := ledger[|ledger| - 1];
      var rest := CountWhere(ledger[..|ledger| - 1], h, committed);
      if last.hotelId == h && last.committed == committed then rest + last.count else rest
  }

  /** The sum of the ratings in the entries of a hotel with the given committed mark. */
  function SumWhere(ledger: seq<Entry>, h: nat, committed: bool): int {
    if ledger == [] then 0
    else
      var last := ledger[|ledger| - 1];
      var rest := SumWhere(ledger[..|ledger| - 1], h, committed);
      if last.hotelId == h && last.committed == committed then rest + last.sum else rest
  }

  /** Everything ever added to a hotel's rating. */
  function Counted(ledger: seq<Entry>, h: nat): nat {
    CountWhere(ledger, h, true) + CountWhere(ledger, h, false)
  }

  function Total(ledger: seq<Entry>, h: nat): int {
    SumWhere(ledger, h, true) + SumWhere(ledger, h, false)
  }

  /** The reviews of a hotel that were counted, each at the rating it was counted as. */
  function CountedOf(reviews: seq<Review>, h: nat): map<nat, int> {
    map i: nat | i < |reviews| && reviews[i].hotelId == h && reviews[i].synced && reviews[i].countedAs.Some?
      :: reviews[i].countedAs.value
  }

  lemma {:induction false} CommitEntry(ledger: seq<Entry>, k: nat, h: nat)
    requires k < |ledger| && !ledger[k].committed
    ensures var after := ledger[k := ledger[k].(committed := true)];
            var n, x := if ledger[k].hotelId == h then ledger[k].count else 0, if ledger[k].hotelId == h then ledger[k].sum else 0;
            && CountWhere(after, h, true) == CountWhere(ledger, h, true) + n
            && CountWhere(after, h, false) == CountWhere(ledger, h, false) - n
            && SumWhere(after, h, true) == SumWhere(ledger, h, true) + x
            && SumWhere(after, h, false) == SumWhere(ledger, h, false) - x
  {
    var after := ledger[k := ledger[k].(committed := true)];
    var last := |ledger| - 1;
    if k == last {
      assert after[..last] == ledger[..last];
    } else {
      CommitEntry(ledger[..last], k, h);
      assert after[..last] == ledger[..last][k := ledger[k].(committed := true)];
    }
  }

  lemma AddEntry(ledger: seq<Entry>, e: Entry, h: nat, committed: bool)
    ensures CountWhere(ledger + [e], h, committed)
         == CountWhere(ledger, h, committed) + if e.hotelId == h && e.committed == committed then e.count else 0
    ensures SumWhere(ledger + [e], h, committed)
         == SumWhere(ledger, h, committed) + if e.hotelId == h && e.committed == committed then e.sum else 0
  {
    assert (ledger + [e])[..|ledger|] == ledger;
  }

  lemma {:induction false} SumBelowDisjoint(a: map<nat, int>, b: map<nat, int>, n: nat)
    requires a.Keys !! b.Keys
    ensures SumBelow(a + b, n) == SumBelow(a, n) + SumBelow(b, n)
  {
    if n == 0 {
    } else {
      SumBelowDisjoint(a, b, n - 1);
    }
  }

  lemma {:induction false} SumBelowBeyond(m: map<nat, int>, n: nat, n': nat)
    requires n <= n' && forall i :: i in m ==> i < n
    ensures SumBelow(m, n') == SumBelow(m, n)
  {
    if n == n' {
    } else {
      SumBelowBeyond(m, n, n' - 1);
    }
  }

  // ---------------------------------------------------------------- the invariant

  /** The advisory lock lets only its holder have a run. */
  ghost predicate Mutex(s: State) {
    forall p :: p in s.runs ==> s.lock == Some(p)
  }

  /** Every hotel's rating count is what the ledger says was added. */
  ghost predicate CountsMatch(hotels: map<nat, Hotel>, ledger: seq<Entry>) {
    forall h :: h in hotels ==> hotels[h].ratingCount.GetOr(0) == Counted(ledger, h)
  }

  /** The committed entries add up to the counted reviews, each at the rating it was counted as. */
  ghost predicate CountedMatch(reviews: seq<Review>, ledger: seq<Entry>) {
    && (forall h :: CountWhere(ledger, h, true) == |CountedOf(reviews, h).Keys|)
    && (forall h :: SumWhere(ledger, h, true) == SumBelow(CountedOf(reviews, h), |reviews|))
  }

  /** Review `i` is marked as counted but never was: no later batch will pick it up. */
  ghost predicate Lost(reviews: seq<Review>, i: nat) {
    i < |reviews| && reviews[i].synced && reviews[i].countedAs == None
  }

  ghost predicate NoneLost(reviews: seq<Review>) {
    forall i: nat :: !Lost(reviews, i)
  }

  ghost predicate InRange(reviews: seq<Review>) {
    forall i :: 0 <= i < |reviews| ==> 1 <= reviews[i].rating <= 5
  }

  /** Review `i` is in the committed entry `k`. */
  ghost predicate CommittedIn(ledger: seq<Entry>, k: nat, i: nat) {
    k < |ledger| && ledger[k].committed && i in ledger[k].members
  }

  ghost predicate IsCounted(reviews: seq<Review>, i: nat) {
    i < |reviews| && reviews[i].synced && reviews[i].countedAs.Some?
  }

  /** The committed entries hold exactly the counted reviews, each in one entry. */
  ghost predicate InOneEntry(reviews: seq<Review>, ledger: seq<Entry>) {
    && (forall k: nat, i: nat :: CommittedIn(ledger, k, i) ==> IsCounted(reviews, i))
    && (forall k: nat, l: nat, i: nat :: CommittedIn(ledger, k, i) && CommittedIn(ledger, l, i) ==> k == l)
    && (forall i: nat :: IsCounted(reviews, i) ==> exists k: nat :: CommittedIn(ledger, k, i))
  }

  /** What a fetched aggregate sums up is still pending; reviews inserted since may be pending too. */
  ghost predicate AggregateOk(reviews: seq<Review>, a: Aggregate, cutoff: int) {
    && a.members.Keys <= Pending(reviews, a.hotelId, cutoff).Keys
    && a.count == |a.members.Keys| > 0
    && a.sum == SumBelow(a.members, |reviews|)
    && a.count <= a.sum <= 5 * a.count
  }

  /** The reviews about to be marked are pending, and those that were counted are among them. */
  ghost predicate IdsOk(reviews: seq<Review>, a: Aggregate, cutoff: int, ids: set<nat>) {
    a.members.Keys <= ids && ids <= Pending(reviews, a.hotelId, cutoff).Keys
  }

  /** The aggregates still to do: all valid, one per hotel; and what a mark has listed. */
  ghost predicate TodoOk(reviews: seq<Review>, r: Run) {
    r.Working? ==>
      && (forall i :: 0 <= i < |r.todo| ==> AggregateOk(reviews, r.todo[i], r.cutoff))
      && (forall i, j :: 0 <= i < j < |r.todo| ==> r.todo[i].hotelId != r.todo[j].hotelId)
      && (r.phase.Marked? ==> |r.todo| > 0 && IdsOk(reviews, r.todo[0], r.cutoff, r.phase.ids))
  }

  ghost predicate IsEntryOf(ledger: seq<Entry>, k: nat, a: Aggregate) {
    k < |ledger| && ledger[k] == Entry(a.hotelId, a.sum, a.count, a.members, false)
  }

  /** The run's view of the current hotel is current, and its ledger entry is its own. */
  ghost predicate PhaseOk(hotels: map<nat, Hotel>, ledger: seq<Entry>, r: Run) {
    r.Working? ==>
      match r.phase
      case Idle => true
      case InTx => |r.todo| > 0
      case Rated(_, _) => |r.todo| > 0 && r.phase == RatingOf(hotels, r.todo[0].hotelId)
      case Updated(k) => |r.todo| > 0 && IsEntryOf(ledger, k, r.todo[0])
      case Marked(k, _) => |r.todo| > 0 && IsEntryOf(ledger, k, r.todo[0])
  }

  ghost predicate Inv(s: State) {
    && Mutex(s)
    && CountsMatch(s.hotels, s.ledger)
    && CountedMatch(s.reviews, s.ledger)
    && InRange(s.reviews)
    && InOneEntry(s.reviews, s.ledger)
    && (forall p :: p in s.runs ==> TodoOk(s.reviews, s.runs[p]))
    && (forall p :: p in s.runs ==> PhaseOk(s.hotels, s.ledger, s.runs[p]))
  }

  // ---------------------------------------------------------------- fetching

  /** Ratings lie between 1 and 5, so a sum lies between the count and five times the count. */
  lemma {:induction false} SumBounds(m: map<nat, int>, n: nat)
    requires forall i :: i in m ==> 1 <= m[i] <= 5
    ensures var k := |set i | i in m && i < n|; k <= SumBelow(m, n) <= 5 * k
  {
    if n == 0 {
      assert (set i | i in m && i < n) == {};
    } else {
      SumBounds(m, n - 1);
      var before, now := set i | i in m && i < n - 1, set i | i in m && i < n;
      assert now == if n - 1 in m then before + {n - 1} else before;
    }
  }

  lemma FetchedOk(reviews: seq<Review>, h: nat, cutoff: int)
    requires InRange(reviews) && Pending(reviews, h, cutoff).Keys != {}
    ensures AggregateOk(reviews, AggregateOf(reviews, h, cutoff), cutoff)
  {
    var m := Pending(reviews, h, cutoff);
    SumBounds(m, |reviews|);
    assert (set i | i in m && i < |reviews|) == m.Keys;
  }

  // ---------------------------------------------------------------- steps that leave reviews, hotels and ledger alone

  predicate IsQuiet(e: Event) {
    !(e.UpdateRating? || e.Commit? || e.Insert? || e.Edit? || e.SoftDelete?)
  }

  lemma QuietTodo(s: State, e: Event, p: nat)
    requires Inv(s) && Enabled(s, e) && IsQuiet(e) && p in Next(s, e).runs
    ensures TodoOk(s.reviews, Next(s, e).runs[p])
  {
    if p in s.runs {
      assert TodoOk(s.reviews, s.runs[p]);
    }
    if e.Fetch? && e.run == p {
      forall i | 0 <= i < |e.order|
        ensures AggregateOk(s.reviews, AggregateOf(s.reviews, e.order[i], s.runs[p].cutoff), s.runs[p].cutoff)
      {
        FetchedOk(s.reviews, e.order[i], s.runs[p].cutoff);
      }
    }
    if e.Mark? && e.run == p {
      assert AggregateOk(s.reviews, s.runs[p].todo[0], s.runs[p].cutoff);
    }
  }

  lemma QuietPhase(s: State, e: Event, p: nat)
    requires Inv(s) && Enabled(s, e) && IsQuiet(e) && p in Next(s, e).runs
    ensures PhaseOk(s.hotels, s.ledger, Next(s, e).runs[p])
  {
    if p in s.runs {
      assert PhaseOk(s.hotels, s.ledger, s.runs[p]);
      assert TodoOk(s.reviews, s.runs[p]);
    }
  }

  lemma QuietStep(s: State, e: Event)
    requires Inv(s) && Enabled(s, e) && IsQuiet(e)
    ensures Inv(Next(s, e))
  {
    var s' := Next(s, e);
    assert s'.reviews == s.reviews && s'.hotels == s.hotels && s'.ledger == s.ledger;
    forall p | p in s'.runs
      ensures TodoOk(s'.reviews, s'.runs[p]) && PhaseOk(s'.hotels, s'.ledger, s'.runs[p])
    {
      QuietTodo(s, e, p);
      QuietPhase(s, e, p);
    }
  }

  // ---------------------------------------------------------------- review traffic

  lemma InsertKeepsAggregate(reviews: seq<Review>, r: Review, a: Aggregate, cutoff: int)
    requires AggregateOk(reviews, a, cutoff)
    ensures AggregateOk(reviews + [r], a, cutoff)
  {
    assert Pending(reviews, a.hotelId, cutoff).Keys <= Pending(reviews + [r], a.hotelId, cutoff).Keys;
    SumBelowBeyond(a.members, |reviews|, |reviews| + 1);
  }

  lemma InsertKeepsCounted(reviews: seq<Review>, r: Review, ledger: seq<Entry>)
    requires CountedMatch(reviews, ledger) && !r.synced
    ensures CountedMatch(reviews + [r], ledger)
  {
    forall h
      ensures CountWhere(ledger, h, true) == |CountedOf(reviews + [r], h).Keys|
      ensures SumWhere(ledger, h, true) == SumBelow(CountedOf(reviews + [r], h), |reviews + [r]|)
    {
      assert CountedOf(reviews + [r], h) == CountedOf(reviews, h);
      SumBelowBeyond(CountedOf(reviews, h), |reviews|, |reviews| + 1);
    }
  }

  /** Entries are about the synced reviews only. */
  lemma SameCountedSameEntries(reviews: seq<Review>, reviews': seq<Review>, ledger: seq<Entry>)
    requires InOneEntry(reviews, ledger)
    requires forall i: nat :: IsCounted(reviews, i) <==> IsCounted(reviews', i)
    ensures InOneEntry(reviews', ledger)
  {
  }

  lemma InsertStep(s: State, e: Event)
    requires Inv(s) && Enabled(s, e) && e.Insert?
    ensures Inv(Next(s, e))
  {
    var s' := Next(s, e);
    var r := Review(e.hotel, e.rating, s.now, false, false, None);
    InsertKeepsCounted(s.reviews, r, s.ledger);
    SameCountedSameEntries(s.reviews, s.reviews + [r], s.ledger);
    forall p | p in s.runs
      ensures TodoOk(s'.reviews, s.runs[p])
    {
      InsertKeepsTodo(s.reviews, r, s.runs[p]);
    }
  }

  lemma InsertKeepsTodo(reviews: seq<Review>, r: Review, run: Run)
    requires TodoOk(reviews, run)
    ensures TodoOk(reviews + [r], run)
  {
    if run.Working? {
      forall i | 0 <= i < |run.todo|
        ensures AggregateOk(reviews + [r], run.todo[i], run.cutoff)
      {
        InsertKeepsAggregate(reviews, r, run.todo[i], run.cutoff);
      }
      if run.phase.Marked? {
        var h := run.todo[0].hotelId;
        assert Pending(reviews, h, run.cutoff).Keys <= Pending(reviews + [r], h, run.cutoff).Keys;
      }
    }
  }

  /** Two review tables that differ only in current ratings and deletion marks. */
  ghost predicate SameBooks(reviews: seq<Review>, reviews': seq<Review>) {
    && |reviews| == |reviews'|
    && forall i :: 0 <= i < |reviews| ==>
         reviews'[i] == reviews[i].(rating := reviews'[i].rating, deleted := reviews'[i].deleted)
  }

  lemma SameBooksSameMaps(reviews: seq<Review>, reviews': seq<Review>, h: nat, cutoff: int)
    requires SameBooks(reviews, reviews')
    ensures CountedOf(reviews', h) == CountedOf(reviews, h)
    ensures Pending(reviews', h, cutoff).Keys == Pending(reviews, h, cutoff).Keys
  {
  }

  lemma SameBooksKeepTodo(reviews: seq<Review>, reviews': seq<Review>, run: Run)
    requires SameBooks(reviews, reviews') && TodoOk(reviews, run)
    ensures TodoOk(reviews', run)
  {
    if run.Working? {
      forall i | 0 <= i < |run.todo|
        ensures AggregateOk(reviews', run.todo[i], run.cutoff)
      {
        SameBooksSameMaps(reviews, reviews', run.todo[i].hotelId, run.cutoff);
      }
      if run.phase.Marked? {
        SameBooksSameMaps(reviews, reviews', run.todo[0].hotelId, run.cutoff);
      }
    }
  }

  /** Editing or soft-deleting a review changes neither what is pending nor what was counted. */
  lemma EditStep(s: State, e: Event)
    requires Inv(s) && Enabled(s, e) && (e.Edit? || e.SoftDelete?)
    ensures Inv(Next(s, e))
  {
    var s' := Next(s, e);
    assert SameBooks(s.reviews, s'.reviews);
    forall h { SameBooksSameMaps(s.reviews, s'.reviews, h, 0); }
    SameCountedSameEntries(s.reviews, s'.reviews, s.ledger);
    forall p | p in s.runs
      ensures TodoOk(s'.reviews, s.runs[p])
    {
      SameBooksKeepTodo(s.reviews, s'.reviews, s.runs[p]);
    }
  }

  // ---------------------------------------------------------------- the hotel update

  /** The divisor of the new average is never zero. */
  lemma DivisorIsPositive(s: State, p: nat)
    requires Inv(s) && Within(s, p) && s.runs[p].phase.Rated?
    ensures s.runs[p].phase.count + s.runs[p].todo[0].count > 0
  {
    assert TodoOk(s.reviews, s.runs[p]);
    assert AggregateOk(s.reviews, s.runs[p].todo[0], s.runs[p].cutoff);
  }

  lemma UpdateStep(s: State, e: Event)
    requires Inv(s) && Enabled(s, e) && e.UpdateRating?
    ensures Inv(Next(s, e))
  {
    var s', p := Next(s, e), e.run;
    var a := s.runs[p].todo[0];
    var entry := Entry(a.hotelId, a.sum, a.count, a.members, false);
    UpdateKeepsCounts(s, e);
    OpenEntryKeeps(s.reviews, s.ledger, entry);
    assert s'.ledger == s.ledger + [entry];
    forall q | q in s'.runs
      ensures TodoOk(s'.reviews, s'.runs[q]) && PhaseOk(s'.hotels, s'.ledger, s'.runs[q])
    {
      assert q in s.runs && q == p;
      assert TodoOk(s.reviews, s.runs[p]);
    }
  }

  lemma UpdateKeepsCounts(s: State, e: Event)
    requires Inv(s) && Enabled(s, e) && e.UpdateRating?
    ensures CountsMatch(Next(s, e).hotels, Next(s, e).ledger)
  {
    var a := s.runs[e.run].todo[0];
    var entry := Entry(a.hotelId, a.sum, a.count, a.members, false);
    assert PhaseOk(s.hotels, s.ledger, s.runs[e.run]);
    assert Next(s, e).ledger == s.ledger + [entry];
    forall h, committed { AddEntry(s.ledger, entry, h, committed); }
  }

  /** An entry that is not committed yet changes nothing about the committed ones. */
  lemma OpenEntryKeeps(reviews: seq<Review>, ledger: seq<Entry>, entry: Entry)
    requires CountedMatch(reviews, ledger) && InOneEntry(reviews, ledger) && !entry.committed
    ensures CountedMatch(reviews, ledger + [entry]) && InOneEntry(reviews, ledger + [entry])
  {
    forall h { AddEntry(ledger, entry, h, true); }
    assert forall k: nat, i: nat :: CommittedIn(ledger + [entry], k, i) <==> CommittedIn(ledger, k, i);
    forall i: nat | IsCounted(reviews, i)
      ensures exists k: nat :: CommittedIn(ledger + [entry], k, i)
    {
      var k: nat :| CommittedIn(ledger, k, i);
      assert CommittedIn(ledger + [entry], k, i);
    }
  }

  // ---------------------------------------------------------------- the commit

  function Committed(ledger: seq<Entry>, k: nat): seq<Entry>
    requires k < |ledger|
  {
    ledger[k := ledger[k].(committed := true)]
  }

  lemma MarkedMap(reviews: seq<Review>, ids: set<nat>, members: map<nat, int>, hotel: nat, h: nat)
    requires forall i :: i in ids ==> i < |reviews| && reviews[i].hotelId == hotel && !reviews[i].synced
    requires forall i :: i in members ==> i in ids
    ensures CountedOf(MarkSynced(reviews, ids, members), h)
         == if h == hotel then CountedOf(reviews, h) + members else CountedOf(reviews, h)
  {
  }

  /** Marking a batch adds exactly its members to the counted reviews of its hotel, and to no other hotel. */
  lemma MarkedCounted(reviews: seq<Review>, ids: set<nat>, a: Aggregate, cutoff: int, h: nat)
    requires AggregateOk(reviews, a, cutoff) && IdsOk(reviews, a, cutoff, ids)
    ensures CountedOf(MarkSynced(reviews, ids, a.members), h)
         == if h == a.hotelId then CountedOf(reviews, h) + a.members else CountedOf(reviews, h)
    ensures CountedOf(reviews, a.hotelId).Keys !! a.members.Keys
  {
    IdsArePending(reviews, ids, a, cutoff);
    MarkedMap(reviews, ids, a.members, a.hotelId, h);
  }

  lemma IdsArePending(reviews: seq<Review>, ids: set<nat>, a: Aggregate, cutoff: int)
    requires AggregateOk(reviews, a, cutoff) && IdsOk(reviews, a, cutoff, ids)
    ensures forall i :: i in ids ==> i < |reviews| && IsPending(reviews[i], a.hotelId, cutoff)
    ensures forall i :: i in a.members ==> i in ids
  {
    forall i | i in ids
      ensures i < |reviews| && IsPending(reviews[i], a.hotelId, cutoff)
    {
      assert i in Pending(reviews, a.hotelId, cutoff).Keys;
    }
    forall i | i in a.members
      ensures i in ids
    {
      assert i in a.members.Keys;
    }
  }

  /** Marking one hotel's batch leaves what is pending for another hotel. */
  lemma MarkedElsewhere(reviews: seq<Review>, ids: set<nat>, a: Aggregate, b: Aggregate, cutoff: int)
    requires AggregateOk(reviews, a, cutoff) && IdsOk(reviews, a, cutoff, ids)
    requires AggregateOk(reviews, b, cutoff) && a.hotelId != b.hotelId
    ensures AggregateOk(MarkSynced(reviews, ids, a.members), b, cutoff)
  {
    IdsArePending(reviews, ids, a, cutoff);
    assert Pending(MarkSynced(reviews, ids, a.members), b.hotelId, cutoff).Keys
        == Pending(reviews, b.hotelId, cutoff).Keys;
  }

  lemma CommitTotals(reviews: seq<Review>, ids: set<nat>, ledger: seq<Entry>, a: Aggregate, cutoff: int, k: nat)
    requires AggregateOk(reviews, a, cutoff) && IdsOk(reviews, a, cutoff, ids)
    requires IsEntryOf(ledger, k, a) && CountedMatch(reviews, ledger)
    ensures CountedMatch(MarkSynced(reviews, ids, a.members), Committed(ledger, k))
  {
    var reviews' := MarkSynced(reviews, ids, a.members);
    forall h
      ensures CountWhere(Committed(ledger, k), h, true) == |CountedOf(reviews', h).Keys|
      ensures SumWhere(Committed(ledger, k), h, true) == SumBelow(CountedOf(reviews', h), |reviews'|)
    {
      CommitEntry(ledger, k, h);
      MarkedCounted(reviews, ids, a, cutoff, h);
      var before := CountedOf(reviews, h);
      if h == a.hotelId {
        assert (before + a.members).Keys == before.Keys + a.members.Keys;
        SumBelowDisjoint(before, a.members, |reviews|);
      }
    }
  }

  lemma CommitEntries(reviews: seq<Review>, ids: set<nat>, ledger: seq<Entry>, a: Aggregate, cutoff: int, k: nat)
    requires AggregateOk(reviews, a, cutoff) && IdsOk(reviews, a, cutoff, ids)
    requires IsEntryOf(ledger, k, a) && InOneEntry(reviews, ledger)
    ensures InOneEntry(MarkSynced(reviews, ids, a.members), Committed(ledger, k))
  {
    var reviews', ledger' := MarkSynced(reviews, ids, a.members), Committed(ledger, k);
    IdsArePending(reviews, ids, a, cutoff);
    assert forall l: nat, i: nat :: CommittedIn(ledger', l, i) <==> CommittedIn(ledger, l, i) || (l == k && i in a.members);
    assert forall i: nat :: IsCounted(reviews', i) <==> IsCounted(reviews, i) || i in a.members;
    forall i: nat | IsCounted(reviews', i)
      ensures exists l: nat :: CommittedIn(ledger', l, i)
    {
      if i in a.members {
        assert CommittedIn(ledger', k, i);
      } else {
        var l: nat :| CommittedIn(ledger, l, i);
        assert CommittedIn(ledger', l, i);
      }
    }
  }

  lemma CommitRest(reviews: seq<Review>, ids: set<nat>, r: Run)
    requires r.Working? && |r.todo| > 0 && TodoOk(reviews, r) && IdsOk(reviews, r.todo[0], r.cutoff, ids)
    ensures TodoOk(MarkSynced(reviews, ids, r.todo[0].members), Working(r.cutoff, r.todo[1..], Idle))
  {
    var reviews' := MarkSynced(reviews, ids, r.todo[0].members);
    forall i | 1 <= i < |r.todo|
      ensures AggregateOk(reviews', r.todo[i], r.cutoff)
    {
      MarkedElsewhere(reviews, ids, r.todo[0], r.todo[i], r.cutoff);
    }
  }

  lemma CommitKeepsCounts(hotels: map<nat, Hotel>, ledger: seq<Entry>, k: nat)
    requires CountsMatch(hotels, ledger) && k < |ledger| && !ledger[k].committed
    ensures CountsMatch(hotels, Committed(ledger, k))
  {
    forall h { CommitEntry(ledger, k, h); }
  }

  lemma CommitStep(s: State, e: Event)
    requires Inv(s) && Enabled(s, e) && e.Commit?
    ensures Inv(Next(s, e))
  {
    var s', p := Next(s, e), e.run;
    var r := s.runs[p];
    var a, k, ids := r.todo[0], r.phase.entry, r.phase.ids;
    assert TodoOk(s.reviews, r) && PhaseOk(s.hotels, s.ledger, r);
    assert AggregateOk(s.reviews, a, r.cutoff);
    CommitTotals(s.reviews, ids, s.ledger, a, r.cutoff, k);
    CommitEntries(s.reviews, ids, s.ledger, a, r.cutoff, k);
    CommitKeepsCounts(s.hotels, s.ledger, k);
    CommitRest(s.reviews, ids, r);
    assert s.runs.Keys == {p} by {
      assert forall q :: q in s.runs ==> q == p;
    }
    assert s' == s.(reviews := MarkSynced(s.reviews, ids, a.members), ledger := Committed(s.ledger, k),
                    runs := s.runs[p := Working(r.cutoff, r.todo[1..], Idle)]);
  }

  // ---------------------------------------------------------------- whole runs

  lemma StepKeepsInv(s: State, e: Event)
    requires Inv(s) && Enabled(s, e)
    ensures Inv(Next(s, e))
  {
    if IsQuiet(e) {
      QuietStep(s, e);
    } else if e.Insert? {
      InsertStep(s, e);
    } else if e.UpdateRating? {
      UpdateStep(s, e);
    } else if e.Commit? {
      CommitStep(s, e);
    } else {
      EditStep(s, e);
    }
  }

  lemma StartHasInv(s: State)
    requires IsStart(s)
    ensures Inv(s)
  {
    forall h
      ensures CountedOf(s.reviews, h) == map[]
    {
    }
  }

  lemma {:induction false} RunKeepsInv(es: seq<Event>, ss: seq<State>, i: nat)
    requires IsRun(es, ss) && IsStart(ss[0]) && i <= |es|
    ensures Inv(ss[i])
  {
    if i == 0 {
      StartHasInv(ss[0]);
    } else {
      RunKeepsInv(es, ss, i - 1);
      StepKeepsInv(ss[i - 1], es[i - 1]);
    }
  }

  /**
   Conservation. In every reachable state a hotel's rating count, and the exact total behind its average,
   are those of its counted reviews, each at the rating it was counted as, plus the batches whose hotel
   update took effect but whose mark was never committed; and each counted review is in exactly one committed
   batch. A review marked without being counted is in none: ReviewLostIffLateInsert says which those are.
   */
  lemma LedgerBalances(es: seq<Event>, ss: seq<State>, i: nat, h: nat)
    requires IsRun(es, ss) && IsStart(ss[0]) && i <= |es|
    ensures var s := ss[i];
            && (h in s.hotels ==>
                  s.hotels[h].ratingCount.GetOr(0) == |CountedOf(s.reviews, h).Keys| + CountWhere(s.ledger, h, false))
            && Total(s.ledger, h) == SumBelow(CountedOf(s.reviews, h), |s.reviews|) + SumWhere(s.ledger, h, false)
            && InOneEntry(s.reviews, s.ledger)
  {
    RunKeepsInv(es, ss, i);
  }

  // ---------------------------------------------------------------- drift of the stored average

  /** The number of batches folded into a hotel. */
  function Batches(ledger: seq<Entry>, h: nat): nat {
    if ledger == [] then 0
    else
      var rest := Batches(ledger[..|ledger| - 1], h);
      if ledger[|ledger| - 1].hotelId == h then rest + 1 else rest
  }

  /** After k batches, `cents * n` and `100 * total` are at most `k * n / 2` apart. */
  predicate Close(cents: int, n: nat, total: int, k: nat) {
    2 * (cents * n - 100 * total) <= k * n && 2 * (100 * total - cents * n) <= k * n
  }

  ghost predicate DriftOk(hotels: map<nat, Hotel>, ledger: seq<Entry>, h: nat) {
    h in hotels ==>
      var cents, n := hotels[h].cents.GetOr(0), hotels[h].ratingCount.GetOr(0);
      && Close(cents, n, Total(ledger, h), Batches(ledger, h))
      && (n > 0 ==> 100 <= cents <= 500)
  }

  lemma CloseStep(cents: int, n: nat, total: int, k: nat, sum: int, added: nat)
    requires added > 0 && Close(cents, n, total, k)
    ensures Close(NewCents(cents, n, sum, added), n + added, total + sum, k + 1)
  {
    RoundingStep(cents, n, sum, added);
    var n' := n + added;
    assert (k + 1) * n' == k * n + k * added + n';
    IntMul(0, k, added);
  }

  lemma {:induction false} BatchesCommitted(ledger: seq<Entry>, k: nat, h: nat)
    requires k < |ledger|
    ensures Batches(Committed(ledger, k), h) == Batches(ledger, h)
  {
    var last := |ledger| - 1;
    if k == last {
      assert Committed(ledger, k)[..last] == ledger[..last];
    } else {
      BatchesCommitted(ledger[..last], k, h);
      assert Committed(ledger, k)[..last] == Committed(ledger[..last], k);
    }
  }

  lemma DriftAdd(hotels: map<nat, Hotel>, ledger: seq<Entry>, entry: Entry, h: nat)
    requires entry.hotelId in hotels && DriftOk(hotels, ledger, h)
    requires 0 < entry.count <= entry.sum <= 5 * entry.count && !entry.committed
    ensures var old_ := hotels[entry.hotelId];
            var cents, n := old_.cents.GetOr(0), old_.ratingCount.GetOr(0);
            DriftOk(hotels[entry.hotelId := Hotel(Some(NewCents(cents, n, entry.sum, entry.count)), Some(n + entry.count))],
                    ledger + [entry], h)
  {
    AddEntry(ledger, entry, h, true);
    AddEntry(ledger, entry, h, false);
    assert (ledger + [entry])[..|ledger|] == ledger;
    if h == entry.hotelId {
      var cents, n := hotels[h].cents.GetOr(0), hotels[h].ratingCount.GetOr(0);
      CloseStep(cents, n, Total(ledger, h), Batches(ledger, h), entry.sum, entry.count);
      NewCentsInRange(cents, n, entry.sum, entry.count);
    }
  }

  /** An update step by a run whose view of the hotel is current folds its aggregate into that hotel. */
  lemma UpdateFolds(s: State, e: Event)
    requires Enabled(s, e) && e.UpdateRating? && PhaseOk(s.hotels, s.ledger, s.runs[e.run])
    requires s.runs[e.run].todo[0].count > 0
    ensures var a := s.runs[e.run].todo[0];
            FoldedInto(s.hotels, Next(s, e).hotels, a.hotelId, a.sum, a.count)
            && Next(s, e).ledger == s.ledger + [Entry(a.hotelId, a.sum, a.count, a.members, false)]
  {
  }

  predicate FoldedInto(hotels: map<nat, Hotel>, hotels': map<nat, Hotel>, h: nat, sum: int, count: nat) {
    h in hotels && count > 0 && hotels' == hotels[h := Rerated(hotels[h], sum, count)]
  }

  lemma DriftFold(hotels: map<nat, Hotel>, hotels': map<nat, Hotel>, ledger: seq<Entry>, ledger': seq<Entry>,
                  entry: Entry, h: nat)
    requires FoldedInto(hotels, hotels', entry.hotelId, entry.sum, entry.count) && ledger' == ledger + [entry]
    requires 0 < entry.count <= entry.sum <= 5 * entry.count && !entry.committed
    requires DriftOk(hotels, ledger, h)
    ensures DriftOk(hotels', ledger', h)
  {
    DriftAdd(hotels, ledger, entry, h);
  }

  lemma DriftUpdate(s: State, e: Event, h: nat)
    requires Inv(s) && Enabled(s, e) && e.UpdateRating? && DriftOk(s.hotels, s.ledger, h)
    ensures DriftOk(Next(s, e).hotels, Next(s, e).ledger, h)
  {
    var r := s.runs[e.run];
    var a := r.todo[0];
    assert PhaseOk(s.hotels, s.ledger, r);
    assert TodoOk(s.reviews, r);
    assert AggregateOk(s.reviews, a, r.cutoff);
    UpdateFolds(s, e);
    DriftFold(s.hotels, Next(s, e).hotels, s.ledger, Next(s, e).ledger,
              Entry(a.hotelId, a.sum, a.count, a.members, false), h);
  }

  lemma DriftCommit(hotels: map<nat, Hotel>, ledger: seq<Entry>, k: nat, h: nat)
    requires k < |ledger| && !ledger[k].committed && DriftOk(hotels, ledger, h)
    ensures DriftOk(hotels, Committed(ledger, k), h)
  {
    CommitEntry(ledger, k, h);
    BatchesCommitted(ledger, k, h);
  }

  lemma DriftStep(s: State, e: Event, h: nat)
    requires Inv(s) && Enabled(s, e) && DriftOk(s.hotels, s.ledger, h)
    ensures DriftOk(Next(s, e).hotels, Next(s, e).ledger, h)
  {
    if e.UpdateRating? {
      DriftUpdate(s, e, h);
    } else if e.Commit? {
      assert PhaseOk(s.hotels, s.ledger, s.runs[e.run]);
      DriftCommit(s.hotels, s.ledger, s.runs[e.run].phase.entry, h);
    }
  }

  lemma {:induction false} RunKeepsDrift(es: seq<Event>, ss: seq<State>, i: nat, h: nat)
    requires IsRun(es, ss) && IsStart(ss[0]) && i <= |es|
    ensures DriftOk(ss[i].hotels, ss[i].ledger, h)
  {
    if i == 0 {
    } else {
      RunKeepsDrift(es, ss, i - 1, h);
      RunKeepsInv(es, ss, i - 1);
      DriftStep(ss[i - 1], es[i - 1], h);
    }
  }

  lemma MulPositive(x: real, m: real)
    requires x > 0.0 && m > 0.0
    ensures x * m > 0.0
  {
  }

  lemma RealCancel(a: real, b: real, m: real)
    requires m > 0.0 && a * m <= b * m
    ensures a <= b
  {
    if a > b {
      MulPositive(a - b, m);
    }
  }

  lemma Distribute(c: real, q: real, m: real)
    ensures (c - 100.0 * q) * m == c * m - 100.0 * (q * m)
    ensures (100.0 * q - c) * m == 100.0 * (q * m) - c * m
  {
  }

  lemma Half(k: real, m: real)
    ensures 0.5 * k * m == 0.5 * (k * m)
  {
  }

  /** With `q` the mean, a gap of at most half a batch per rating is a gap of at most half a hundredth per batch. */
  lemma GapPerBatch(c: real, q: real, k: real, m: real, total: real)
    requires m > 0.0 && q * m == total
    requires c * m - 100.0 * total <= 0.5 * (k * m) && 100.0 * total - c * m <= 0.5 * (k * m)
    ensures -0.5 * k <= c - 100.0 * q <= 0.5 * k
  {
    Distribute(c, q, m);
    Half(k, m);
    RealCancel(c - 100.0 * q, 0.5 * k, m);
    RealCancel(100.0 * q - c, 0.5 * k, m);
  }

  lemma CloseMeansNear(cents: int, n: nat, total: int, k: nat)
    requires n > 0 && Close(cents, n, total, k)
    ensures -0.005 * k as real <= cents as real / 100.0 - total as real / n as real <= 0.005 * k as real
  {
    var mean := total as real / n as real;
    Quotient(total as real, n as real);
    CloseAsReal(cents, n, total, k);
    GapPerBatch(cents as real, mean, k as real, n as real, total as real);
  }

  lemma CloseAsReal(cents: int, n: nat, total: int, k: nat)
    requires Close(cents, n, total, k)
    ensures cents as real * n as real - 100.0 * total as real <= 0.5 * (k as real * n as real)
    ensures 100.0 * total as real - cents as real * n as real <= 0.5 * (k as real * n as real)
  {
    MulAsReal(cents, n);
    MulAsReal(k, n);
  }

  /**
   Drift. After k batches folded into a hotel that had no ratings, the stored average differs from the true
   mean of everything counted by at most 0.005 * k, and lies between 1.00 and 5.00.
   */
  lemma StoredAverageDrift(es: seq<Event>, ss: seq<State>, i: nat, h: nat)
    requires IsRun(es, ss) && IsStart(ss[0]) && i <= |es|
    requires h in ss[i].hotels && Counted(ss[i].ledger, h) > 0
    ensures var s := ss[i];
            var stored, mean := s.hotels[h].cents.GetOr(0) as real / 100.0, Total(s.ledger, h) as real / Counted(s.ledger, h) as real;
            && -0.005 * Batches(s.ledger, h) as real <= stored - mean <= 0.005 * Batches(s.ledger, h) as real
            && 1.0 <= stored <= 5.0
  {
    RunKeepsInv(es, ss, i);
    RunKeepsDrift(es, ss, i, h);
    var s := ss[i];
    CloseMeansNear(s.hotels[h].cents.GetOr(0), Counted(s.ledger, h), Total(s.ledger, h), Batches(s.ledger, h));
  }

  // ---------------------------------------------------------------- skew by batches counted more than once

  /** Every entry sums up ratings between 1 and 5. */
  predicate EntriesOk(ledger: seq<Entry>) {
    forall k :: 0 <= k < |ledger| ==> 0 < ledger[k].count <= ledger[k].sum <= 5 * ledger[k].count
  }

  /** The batch an update folds in has ratings between 1 and 5. */
  lemma FoldedBatchOk(s: State, e: Event)
    requires Inv(s) && Enabled(s, e) && e.UpdateRating?
    ensures PhaseOk(s.hotels, s.ledger, s.runs[e.run])
    ensures var a := s.runs[e.run].todo[0]; 0 < a.count <= a.sum <= 5 * a.count
  {
    var r := s.runs[e.run];
    assert TodoOk(s.reviews, r);
    assert AggregateOk(s.reviews, r.todo[0], r.cutoff);
  }

  lemma EntriesStep(s: State, e: Event)
    requires Inv(s) && Enabled(s, e) && EntriesOk(s.ledger)
    ensures EntriesOk(Next(s, e).ledger)
  {
    if e.UpdateRating? {
      FoldedBatchOk(s, e);
      UpdateFolds(s, e);
    } else if e.Commit? {
      assert PhaseOk(s.hotels, s.ledger, s.runs[e.run]);
    }
  }

  lemma {:induction false} RunKeepsEntries(es: seq<Event>, ss: seq<State>, i: nat)
    requires IsRun(es, ss) && IsStart(ss[0]) && i <= |es|
    ensures EntriesOk(ss[i].ledger)
  {
    if i == 0 {
    } else {
      RunKeepsEntries(es, ss, i - 1);
      RunKeepsInv(es, ss, i - 1);
      EntriesStep(ss[i - 1], es[i - 1]);
    }
  }

  lemma RunBalances(es: seq<Event>, ss: seq<State>, i: nat)
    requires IsRun(es, ss) && IsStart(ss[0]) && i <= |es|
    ensures CountedMatch(ss[i].reviews, ss[i].ledger) && EntriesOk(ss[i].ledger)
  {
    RunKeepsInv(es, ss, i);
    RunKeepsEntries(es, ss, i);
  }

  lemma {:induction false} EntriesBoundSums(ledger: seq<Entry>, h: nat, committed: bool)
    requires EntriesOk(ledger)
    ensures CountWhere(ledger, h, committed) <= SumWhere(ledger, h, committed) <= 5 * CountWhere(ledger, h, committed)
  {
    if ledger == [] {
    } else {
      EntriesBoundSums(ledger[..|ledger| - 1], h, committed);
    }
  }

  predicate Near(x: real, y: real, bound: real) {
    -bound <= x - y <= bound
  }

  lemma NearByNear(x: real, y: real, z: real, a: real, b: real)
    requires Near(x, y, a) && Near(y, z, b)
    ensures Near(x, z, b + a)
  {
  }

  /** `u` more ratings summing to `x` move the mean of `n` ratings by at most 4 * u / (n + u). */
  lemma SkewOfMeans(n: nat, total: int, u: nat, x: int)
    requires n > 0 && n <= total <= 5 * n && u <= x <= 5 * u
    ensures Near((total + x) as real / (n + u) as real, total as real / n as real, 4.0 * u as real / (n + u) as real)
  {
    var all, m, q := (n + u) as real, total as real / n as real, (total + x) as real / (n + u) as real;
    Quotient(total as real, n as real);
    Quotient((total + x) as real, all);
    SkewOfReals(n as real, total as real, u as real, x as real, all, m, q, q - m);
    BoundedQuotient(q - m, all, 4.0 * u as real);
  }

  lemma SkewOfReals(n: real, total: real, u: real, x: real, all: real, m: real, q: real, d: real)
    requires n > 0.0 && u >= 0.0 && all == n + u && d == q - m && m * n == total && q * all == total + x
    requires n <= total <= 5.0 * n && u <= x <= 5.0 * u
    ensures -(4.0 * u) <= d * all <= 4.0 * u
  {
    MeanInRange(n, total, m);
    Spread(m, u);
    SkewTimesAll(q, m, n, u, all, d);
  }

  lemma MeanInRange(n: real, total: real, m: real)
    requires n > 0.0 && n <= total <= 5.0 * n && m * n == total
    ensures 1.0 <= m <= 5.0
  {
    if m < 1.0 {
      MulPositive(1.0 - m, n);
    }
    if m > 5.0 {
      MulPositive(m - 5.0, n);
    }
  }

  lemma BoundedQuotient(d: real, m: real, b: real)
    requires m > 0.0 && -b <= d * m <= b
    ensures Near(d, 0.0, b / m)
  {
    Quotient(b, m);
    Negate(b / m, m);
    RealCancel(d, b / m, m);
    RealCancel(-(b / m), d, m);
  }

  lemma Spread(m: real, u: real)
    requires 1.0 <= m <= 5.0 && u >= 0.0
    ensures u <= m * u <= 5.0 * u
  {
    if u > 0.0 {
      NonNegative(m - 1.0, u);
      NonNegative(5.0 - m, u);
    }
  }

  lemma NonNegative(a: real, b: real)
    requires a >= 0.0 && b >= 0.0
    ensures a * b >= 0.0
  {
  }

  lemma SkewTimesAll(q: real, m: real, n: real, u: real, all: real, d: real)
    requires all == n + u && d == q - m
    ensures d * all == q * all - m * n - m * u
  {
  }

  lemma Negate(a: real, b: real)
    ensures -a * b == -(a * b)
  {
  }

  /** The mean of the counted reviews of a hotel, each at the rating it was counted as. */
  function MeanOfCounted(reviews: seq<Review>, h: nat): real
    requires CountedOf(reviews, h).Keys != {}
  {
    SumBelow(CountedOf(reviews, h), |reviews|) as real / |CountedOf(reviews, h).Keys| as real
  }

  /** The mean of everything ever added to the hotel's rating. */
  function MeanOfAdded(ledger: seq<Entry>, h: nat): real
    requires Counted(ledger, h) > 0
  {
    Total(ledger, h) as real / Counted(ledger, h) as real
  }

  /** The uncommitted entries of the ledger move the mean of everything added away from that of the counted reviews. */
  lemma LedgerSkew(reviews: seq<Review>, ledger: seq<Entry>, h: nat)
    requires EntriesOk(ledger) && CountedMatch(reviews, ledger) && CountedOf(reviews, h).Keys != {}
    ensures Counted(ledger, h) > 0
    ensures var u := CountWhere(ledger, h, false);
            Near(MeanOfAdded(ledger, h), MeanOfCounted(reviews, h), 4.0 * u as real / Counted(ledger, h) as real)
  {
    EntriesBoundSums(ledger, h, true);
    EntriesBoundSums(ledger, h, false);
    SkewOfMeans(CountWhere(ledger, h, true), SumWhere(ledger, h, true),
                CountWhere(ledger, h, false), SumWhere(ledger, h, false));
  }

  /** The stored average. */
  function Stored(hotel: Hotel): real {
    hotel.cents.GetOr(0) as real / 100.0
  }

  lemma DriftIsNear(es: seq<Event>, ss: seq<State>, i: nat, h: nat)
    requires IsRun(es, ss) && IsStart(ss[0]) && i <= |es|
    requires h in ss[i].hotels && Counted(ss[i].ledger, h) > 0
    ensures Near(Stored(ss[i].hotels[h]), MeanOfAdded(ss[i].ledger, h), 0.005 * Batches(ss[i].ledger, h) as real)
  {
    StoredAverageDrift(es, ss, i, h);
  }

  /** How far the stored average of a hotel may be from the mean of its counted reviews. */
  function SkewBound(ledger: seq<Entry>, h: nat): real
    requires Counted(ledger, h) > 0
  {
    4.0 * CountWhere(ledger, h, false) as real / Counted(ledger, h) as real + 0.005 * Batches(ledger, h) as real
  }

  /**
   A batch whose hotel update took effect but whose mark was never committed is counted again later. In every
   run the stored average is within 4 * u / (n + u) + 0.005 * k of the mean of the counted reviews, where n is
   the number of those, u that of the ratings in such batches, and k the number of batches.
   */
  lemma SkewIsBounded(es: seq<Event>, ss: seq<State>, i: nat, h: nat)
    requires IsRun(es, ss) && IsStart(ss[0]) && i <= |es|
    requires h in ss[i].hotels && CountedOf(ss[i].reviews, h).Keys != {}
    ensures Counted(ss[i].ledger, h) == |CountedOf(ss[i].reviews, h).Keys| + CountWhere(ss[i].ledger, h, false)
    ensures var s := ss[i];
            Near(Stored(s.hotels[h]), MeanOfCounted(s.reviews, h), SkewBound(s.ledger, h))
  {
    var s := ss[i];
    RunBalances(es, ss, i);
    LedgerSkew(s.reviews, s.ledger, h);
    DriftIsNear(es, ss, i, h);
    NearByNear(Stored(s.hotels[h]), MeanOfAdded(s.ledger, h), MeanOfCounted(s.reviews, h),
               0.005 * Batches(s.ledger, h) as real, 4.0 * CountWhere(s.ledger, h, false) as real / Counted(s.ledger, h) as real);
  }
}
