/**
 The batch job that folds unsynced reviews into hotel ratings, as steps that interleave with review
 traffic. A run holds the advisory lock; any step may fail, skip the hotel, or be the last one before a
 crash. A step that takes effect and then reports failure is that step followed by SkipHotel; a Commit that does
 so is Commit alone, since the run goes on to the next hotel either way.
 */
module RatingProtocol {
  import opened Wrappers
  import opened RatingAverage

  /** A row of `reviews`; its id is its position. `countedAs` records at which rating it was counted when marked. */
  datatype Review = Review(hotelId: nat, rating: int, createdAt: int, deleted: bool, synced: bool, countedAs: Option<int>)

  /** The rating columns of a hotel: the average in hundredths and the number of ratings. */
  datatype Hotel = Hotel(cents: Option<int>, ratingCount: Option<nat>)

  /** One row of the GROUP BY query; `members` is what it summed up: each review id with its rating. */
  datatype Aggregate = Aggregate(hotelId: nat, sum: int, count: nat, members: map<nat, int>)

  datatype Phase =
    | Idle
    | InTx
    | Rated(cents: int, count: nat)
    | Updated(entry: nat)
    | Marked(entry: nat, ids: set<nat>)

  datatype Run =
    | Locked
    | Cut(cutoff: int)
    | Working(cutoff: int, todo: seq<Aggregate>, phase: Phase)

  /** History: an update of a hotel's rating that took effect, and whether its reviews were marked and committed. */
  datatype Entry = Entry(hotelId: nat, sum: int, count: nat, members: map<nat, int>, committed: bool)

  datatype State = State(reviews: seq<Review>, hotels: map<nat, Hotel>, lock: Option<nat>, runs: map<nat, Run>,
                         now: int, ledger: seq<Entry>)

  datatype Event =
    | GetLock(run: nat)
    | TakeCutoff(run: nat)
    | Fetch(run: nat, order: seq<nat>)
    | BeginTx(run: nat)
    | ReadRating(run: nat)
    | UpdateRating(run: nat)
    | Mark(run: nat)
    | Commit(run: nat)
    | SkipHotel(run: nat)               // any failure within a hotel: roll back and continue
    | EndRun(run: nat)                  // the list is done, a fetch failed, or the process died
    | Insert(hotel: nat, rating: int)
    | Edit(review: nat, rating: int)
    | SoftDelete(review: nat)
    | Pass(seconds: nat)

  // ---------------------------------------------------------------- the fetched aggregates

  /** The WHERE clause shared by the fetch and the mark; soft-deleted reviews are included. */
  predicate IsPending(r: Review, hotel: nat, cutoff: int) {
    r.hotelId == hotel && !r.synced && r.createdAt <= cutoff
  }

  function Pending(reviews: seq<Review>, hotel: nat, cutoff: int): map<nat, int> {
    map i: nat | i < |reviews| && IsPending(reviews[i], hotel, cutoff) :: reviews[i].rating
  }

  /** The sum of the values of `m` at the ids below `n`. */
  function SumBelow(m: map<nat, int>, n: nat): int {
    if n == 0 then 0 else SumBelow(m, n - 1) + if n - 1 in m then m[n - 1] else 0
  }

  /** The ids below `n` with the given rating. */
  ghost function RatedAt(m: map<nat, int>, n: nat, rating: int): set<nat> {
    set i | i in m && i < n && m[i] == rating
  }

  lemma RatedOneMore(m: map<nat, int>, n: nat, rating: int)
    ensures |RatedAt(m, n + 1, rating)| == |RatedAt(m, n, rating)| + if n in m && m[n] == rating then 1 else 0
  {
    if n in m && m[n] == rating {
      assert RatedAt(m, n + 1, rating) == RatedAt(m, n, rating) + {n};
    } else {
      assert RatedAt(m, n + 1, rating) == RatedAt(m, n, rating);
    }
  }

  /** One point for each rating of 1, two for each rating of 2, and so on. */
  ghost function Points(m: map<nat, int>, n: nat): int {
    |RatedAt(m, n, 1)| + 2 * |RatedAt(m, n, 2)| + 3 * |RatedAt(m, n, 3)| + 4 * |RatedAt(m, n, 4)| + 5 * |RatedAt(m, n, 5)|
  }

  lemma {:induction false} SumIsPoints(m: map<nat, int>, n: nat)
    requires forall i :: i in m ==> 1 <= m[i] <= 5
    ensures SumBelow(m, n) == Points(m, n)
  {
    if n == 0 {
      assert forall rating :: RatedAt(m, 0, rating) == {};
    } else {
      SumIsPoints(m, n - 1);
      RatedOneMore(m, n - 1, 1);
      RatedOneMore(m, n - 1, 2);
      RatedOneMore(m, n - 1, 3);
      RatedOneMore(m, n - 1, 4);
      RatedOneMore(m, n - 1, 5);
    }
  }

  /** The aggregate covers exactly the hotel's unsynced reviews up to the cutoff, each at the rating it has. */
  ghost predicate SumsUp(a: Aggregate, reviews: seq<Review>, cutoff: int) {
    && (forall i: nat :: i in a.members <==>
          i < |reviews| && reviews[i].hotelId == a.hotelId && !reviews[i].synced && reviews[i].createdAt <= cutoff)
    && (forall i: nat :: i in a.members ==> i < |reviews| && a.members[i] == reviews[i].rating)
    && a.count == |a.members.Keys|
    && ((forall i :: i in a.members ==> 1 <= a.members[i] <= 5) ==> a.sum == Points(a.members, |reviews|))
  }

  lemma AggregateSumsUp(reviews: seq<Review>, hotel: nat, cutoff: int)
    ensures SumsUp(AggregateOf(reviews, hotel, cutoff), reviews, cutoff)
  {
    var m := Pending(reviews, hotel, cutoff);
    if forall i :: i in m ==> 1 <= m[i] <= 5 {
      SumIsPoints(m, |reviews|);
    }
  }

  function AggregateOf(reviews: seq<Review>, hotel: nat, cutoff: int): Aggregate {
    var members := Pending(reviews, hotel, cutoff);
    Aggregate(hotel, SumBelow(members, |reviews|), |members.Keys|, members)
  }

  /** `order` lists, once each, the hotels with something pending. */
  ghost predicate IsGrouping(reviews: seq<Review>, cutoff: int, order: seq<nat>) {
    && (forall i, j :: 0 <= i < j < |order| ==> order[i] != order[j])
    && (forall i :: 0 <= i < |order| ==> Pending(reviews, order[i], cutoff).Keys != {})
    && (forall h :: Pending(reviews, h, cutoff).Keys != {} ==> h in order)
  }

  function Aggregates(reviews: seq<Review>, cutoff: int, order: seq<nat>): (r: seq<Aggregate>)
    ensures |r| == |order|
  {
    seq(|order|, i requires 0 <= i < |order| => AggregateOf(reviews, order[i], cutoff))
  }

  // ---------------------------------------------------------------- steps

  function RatingOf(hotels: map<nat, Hotel>, h: nat): Phase {
    if h in hotels then Rated(hotels[h].cents.GetOr(0), hotels[h].ratingCount.GetOr(0)) else Rated(0, 0)
  }

  /** The columns of a hotel after a batch has been folded in. */
  function Rerated(hotel: Hotel, sum: int, count: nat): Hotel
    requires count > 0
  {
    var n := hotel.ratingCount.GetOr(0);
    Hotel(Some(NewCents(hotel.cents.GetOr(0), n, sum, count)), Some(n + count))
  }

  /** `after` is `before` with the batch folded in: the weighted mean, rounded to a hundredth, halves upwards. */
  predicate IsFold(before: Hotel, sum: int, count: nat, after: Hotel) {
    && after.ratingCount == Some(before.ratingCount.GetOr(0) + count)
    && after.cents.Some?
    && var n := before.ratingCount.GetOr(0);
       var off := after.cents.value * (n + count) - (before.cents.GetOr(0) * n + 100 * sum);
       -(n + count) < 2 * off <= n + count
  }

  lemma ReratedIsFold(hotel: Hotel, sum: int, count: nat)
    requires count > 0
    ensures IsFold(hotel, sum, count, Rerated(hotel, sum, count))
  {
    RoundingStep(hotel.cents.GetOr(0), hotel.ratingCount.GetOr(0), sum, count);
  }

  /** Marks the listed reviews; a review that was in the batch was counted at the rating it had there. */
  function MarkSynced(reviews: seq<Review>, ids: set<nat>, members: map<nat, int>): (r: seq<Review>)
    ensures |r| == |reviews|
  {
    seq(|reviews|, i requires 0 <= i < |reviews| =>
      if i in ids
      then reviews[i].(synced := true, countedAs := if i in members then Some(members[i]) else None)
      else reviews[i])
  }

  ghost predicate Within(s: State, p: nat) {
    p in s.runs && s.runs[p].Working? && |s.runs[p].todo| > 0
  }

  ghost predicate Enabled(s: State, e: Event) {
    match e
    case GetLock(p) => p !in s.runs && s.lock == None
    case TakeCutoff(p) => p in s.runs && s.runs[p].Locked?
    case Fetch(p, order) => p in s.runs && s.runs[p].Cut? && IsGrouping(s.reviews, s.runs[p].cutoff, order)
    case BeginTx(p) => Within(s, p) && s.runs[p].phase.Idle?
    case ReadRating(p) => Within(s, p) && s.runs[p].phase.InTx?
    case UpdateRating(p) =>
      && Within(s, p) && s.runs[p].phase.Rated?
      && s.runs[p].todo[0].hotelId in s.hotels
      && s.runs[p].phase.count + s.runs[p].todo[0].count > 0
    case Mark(p) => Within(s, p) && s.runs[p].phase.Updated?
    case Commit(p) => Within(s, p) && s.runs[p].phase.Marked? && s.runs[p].phase.entry < |s.ledger|
    case SkipHotel(p) => Within(s, p)
    case EndRun(p) => p in s.runs
    case Insert(_, rating) => 1 <= rating <= 5
    case Edit(i, rating) => i < |s.reviews| && !s.reviews[i].deleted && 1 <= rating <= 5
    case SoftDelete(i) => i < |s.reviews| && !s.reviews[i].deleted
    case Pass(_) => true
  }

  function WithPhase(s: State, p: nat, phase: Phase): State
    requires p in s.runs && s.runs[p].Working?
  {
    s.(runs := s.runs[p := s.runs[p].(phase := phase)])
  }

  ghost function Next(s: State, e: Event): State
    requires Enabled(s, e)
  {
    match e
    case GetLock(p) => s.(lock := Some(p), runs := s.runs[p := Locked])
    case TakeCutoff(p) => s.(runs := s.runs[p := Cut(s.now)])
    case Fetch(p, order) =>
      var cutoff := s.runs[p].cutoff;
      s.(runs := s.runs[p := Working(cutoff, Aggregates(s.reviews, cutoff, order), Idle)])
    case BeginTx(p) => WithPhase(s, p, InTx)
    case ReadRating(p) => WithPhase(s, p, RatingOf(s.hotels, s.runs[p].todo[0].hotelId))
    case UpdateRating(p) =>
      var a, old_ := s.runs[p].todo[0], s.runs[p].phase;
      var hotel := Hotel(Some(NewCents(old_.cents, old_.count, a.sum, a.count)), Some(old_.count + a.count));
      WithPhase(s.(hotels := s.hotels[a.hotelId := hotel],
                   ledger := s.ledger + [Entry(a.hotelId, a.sum, a.count, a.members, false)]),
                p, Updated(|s.ledger|))
    case Mark(p) =>
      var a := s.runs[p].todo[0];
      WithPhase(s, p, Marked(s.runs[p].phase.entry, Pending(s.reviews, a.hotelId, s.runs[p].cutoff).Keys))
    case Commit(p) =>
      var r := s.runs[p];
      s.(reviews := MarkSynced(s.reviews, r.phase.ids, r.todo[0].members),
         ledger := s.ledger[r.phase.entry := s.ledger[r.phase.entry].(committed := true)],
         runs := s.runs[p := Working(r.cutoff, r.todo[1..], Idle)])
    case SkipHotel(p) =>
      var r := s.runs[p];
      s.(runs := s.runs[p := Working(r.cutoff, r.todo[1..], Idle)])
    case EndRun(p) => s.(runs := s.runs - {p}, lock := if s.lock == Some(p) then None else s.lock)
    case Insert(hotel, rating) => s.(reviews := s.reviews + [Review(hotel, rating, s.now, false, false, None)])
    case Edit(i, rating) => s.(reviews := s.reviews[i := s.reviews[i].(rating := rating)])
    case SoftDelete(i) => s.(reviews := s.reviews[i := s.reviews[i].(deleted := true)])
    case Pass(seconds) => s.(now := s.now + seconds)
  }

  /** A run of the system: the state before and after each event. */
  ghost predicate IsRun(es: seq<Event>, ss: seq<State>) {
    && |ss| == |es| + 1
    && forall i :: 0 <= i < |es| ==> Enabled(ss[i], es[i]) && ss[i + 1] == Next(ss[i], es[i])
  }

  /** Nothing reviewed, nothing counted, no run started. */
  ghost predicate IsStart(s: State) {
    && s.reviews == [] && s.ledger == [] && s.lock == None && s.runs == map[]
    && forall h :: h in s.hotels ==> s.hotels[h].ratingCount.GetOr(0) == 0
  }

  /** No review is created in the second a run cut off at, or earlier, once that run has fetched. */
  ghost predicate InsertsAfterCutoff(s: State, e: Event) {
    e.Insert? ==> forall p :: p in s.runs && s.runs[p].Working? ==> s.runs[p].cutoff < s.now
  }

  ghost predicate NoTies(es: seq<Event>, ss: seq<State>)
    requires |ss| == |es| + 1
  {
    forall j :: 0 <= j < |es| ==> InsertsAfterCutoff(ss[j], es[j])
  }

  /** Some run of the protocol leads from `s` to `s'`. */
  ghost predicate Reaches(s: State, s': State) {
    exists es, ss :: IsRun(es, ss) && ss[0] == s && ss[|es|] == s'
  }

  lemma ReachesItself(s: State)
    ensures Reaches(s, s)
  {
    assert IsRun([], [s]);
  }

  lemma Append(es: seq<Event>, ss: seq<State>, e: Event)
    requires IsRun(es, ss) && Enabled(ss[|es|], e)
    ensures IsRun(es + [e], ss + [Next(ss[|es|], e)])
  {
    var es', ss' := es + [e], ss + [Next(ss[|es|], e)];
    forall i | 0 <= i < |es'|
      ensures Enabled(ss'[i], es'[i]) && ss'[i + 1] == Next(ss'[i], es'[i])
    {
      if i < |es| {
        assert Enabled(ss[i], es[i]) && ss[i + 1] == Next(ss[i], es[i]);
      }
    }
  }

  lemma Step(s: State, s': State, e: Event)
    requires Reaches(s, s') && Enabled(s', e)
    ensures Reaches(s, Next(s', e))
  {
    var es, ss :| IsRun(es, ss) && ss[0] == s && ss[|es|] == s';
    var s'' := Next(s', e);
    Append(es, ss, e);
    assert (ss + [s''])[0] == s && (ss + [s''])[|es + [e]|] == s'';
  }
}
