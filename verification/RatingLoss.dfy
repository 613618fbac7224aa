/**
 Which reviews are marked without ever being counted. Creation times and cutoffs are whole seconds and both
 queries compare with <=, so a review created in the cutoff second after the fetch can be caught by the mark.
 */
module RatingLoss {
  import opened Wrappers
  import opened RatingAverage
  import opened RatingProtocol
  import opened RatingLedger

  /** The last fetch of run `p` among the first `j` events. */
  ghost function LastFetch(es: seq<Event>, j: nat, p: nat): (f: Option<nat>)
    requires j <= |es|
    ensures f.Some? ==> f.value < j && es[f.value].Fetch? && es[f.value].run == p
  {
    if j == 0 then None else if es[j - 1].Fetch? && es[j - 1].run == p then Some(j - 1) else LastFetch(es, j - 1, p)
  }

  /** The last mark of run `p` among the first `j` events. */
  ghost function LastMark(es: seq<Event>, j: nat, p: nat): (m: Option<nat>)
    requires j <= |es|
    ensures m.Some? ==> m.value < j && es[m.value] == Mark(p)
  {
    if j == 0 then None else if es[j - 1] == Mark(p) then Some(j - 1) else LastMark(es, j - 1, p)
  }

  /**
   The commit at `c` has a late insert at `g`: a review of its hotel, created no later than the cutoff, inserted
   after the run's fetch and before its mark of that hotel.
   */
  ghost predicate LateInsert(es: seq<Event>, ss: seq<State>, c: nat, g: nat)
    requires IsRun(es, ss)
  {
    && g < c < |es| && es[c].Commit? && es[g].Insert?
    && LastFetch(es, c, es[c].run).Some? && LastMark(es, c, es[c].run).Some?
    && LastFetch(es, c, es[c].run).value < g < LastMark(es, c, es[c].run).value
    && assert Enabled(ss[c], es[c]);
       var r := ss[c].runs[es[c].run];
       es[g].hotel == r.todo[0].hotelId && ss[g].now <= r.cutoff
  }

  // ---------------------------------------------------------------- what stays of a review

  /** Reviews never go away, and hotel, creation time and mark stay. */
  lemma {:induction false} ReviewStays(es: seq<Event>, ss: seq<State>, i: nat, j: nat, k: nat)
    requires IsRun(es, ss) && i <= j <= |es| && k < |ss[i].reviews|
    ensures k < |ss[j].reviews|
    ensures ss[j].reviews[k].hotelId == ss[i].reviews[k].hotelId && ss[j].reviews[k].createdAt == ss[i].reviews[k].createdAt
    ensures ss[i].reviews[k].synced ==> ss[j].reviews[k].synced
  {
    if i == j {
    } else {
      ReviewStays(es, ss, i, j - 1, k);
      assert Enabled(ss[j - 1], es[j - 1]) && ss[j] == Next(ss[j - 1], es[j - 1]);
    }
  }

  /** A review that appears between two states was inserted in between, at the time it carries. */
  lemma {:induction false} InsertedBetween(es: seq<Event>, ss: seq<State>, i: nat, j: nat, k: nat) returns (g: nat)
    requires IsRun(es, ss) && i <= j <= |es| && |ss[i].reviews| <= k < |ss[j].reviews|
    ensures i <= g < j && es[g].Insert? && |ss[g].reviews| == k
    ensures es[g].hotel == ss[j].reviews[k].hotelId && ss[g].now == ss[j].reviews[k].createdAt
  {
    assert Enabled(ss[j - 1], es[j - 1]) && ss[j] == Next(ss[j - 1], es[j - 1]);
    if k < |ss[j - 1].reviews| {
      g := InsertedBetween(es, ss, i, j - 1, k);
      ReviewStays(es, ss, j - 1, j, k);
    } else {
      g := j - 1;
    }
  }

  // ---------------------------------------------------------------- what a run still to do its hotels knows

  /** The reviews of the hotels still to do that were inserted since the fetch are unmarked. */
  ghost predicate LaterUnmarked(reviews: seq<Review>, fetched: nat, todo: seq<Aggregate>) {
    forall k: nat, t: nat :: fetched <= k < |reviews| && t < |todo| && reviews[k].hotelId == todo[t].hotelId ==>
      !reviews[k].synced
  }

  /** The aggregates still to do are those of the table as it was fetched. */
  ghost predicate FetchedFrom(fetched: seq<Review>, r: Run) {
    r.Working? && forall t :: 0 <= t < |r.todo| ==> r.todo[t] == AggregateOf(fetched, r.todo[t].hotelId, r.cutoff)
  }

  /** A commit marks only reviews of its own hotel. */
  lemma CommitKeepsLaterUnmarked(s: State, e: Event, p: nat, fetched: nat)
    requires Inv(s) && Enabled(s, e) && e.Commit? && p in s.runs && s.runs[p].Working?
    requires LaterUnmarked(s.reviews, fetched, s.runs[p].todo)
    ensures LaterUnmarked(Next(s, e).reviews, fetched, Next(s, e).runs[p].todo)
  {
    assert e.run == p;
    var r := s.runs[p];
    assert TodoOk(s.reviews, r);
    assert IdsOk(s.reviews, r.todo[0], r.cutoff, r.phase.ids);
    IdsArePending(s.reviews, r.phase.ids, r.todo[0], r.cutoff);
  }

  lemma OtherStepKeepsLaterUnmarked(s: State, e: Event, fetched: nat, todo: seq<Aggregate>)
    requires Enabled(s, e) && !e.Commit? && LaterUnmarked(s.reviews, fetched, todo)
    ensures LaterUnmarked(Next(s, e).reviews, fetched, todo)
  {
  }

  lemma FewerLaterUnmarked(reviews: seq<Review>, fetched: nat, todo: seq<Aggregate>)
    requires LaterUnmarked(reviews, fetched, todo) && |todo| > 0
    ensures LaterUnmarked(reviews, fetched, todo[1..])
  {
  }

  /** A run that works on goes on with its list, or with all of it but the first. */
  lemma TodoStep(s: State, e: Event, p: nat, fetched: seq<Review>)
    requires Enabled(s, e) && p in s.runs && p in Next(s, e).runs && s.runs[p].Working?
    requires FetchedFrom(fetched, s.runs[p])
    ensures FetchedFrom(fetched, Next(s, e).runs[p]) && Next(s, e).runs[p].cutoff == s.runs[p].cutoff
    ensures var todo, todo' := s.runs[p].todo, Next(s, e).runs[p].todo;
            todo' == todo || (|todo| > 0 && todo' == todo[1..])
  {
  }

  lemma WorkingStep(s: State, e: Event, p: nat, fetched: seq<Review>)
    requires Inv(s) && Enabled(s, e) && p in s.runs && p in Next(s, e).runs && s.runs[p].Working?
    requires FetchedFrom(fetched, s.runs[p]) && LaterUnmarked(s.reviews, |fetched|, s.runs[p].todo)
    ensures FetchedFrom(fetched, Next(s, e).runs[p]) && Next(s, e).runs[p].cutoff == s.runs[p].cutoff
    ensures LaterUnmarked(Next(s, e).reviews, |fetched|, Next(s, e).runs[p].todo)
  {
    TodoStep(s, e, p, fetched);
    if e.Commit? {
      CommitKeepsLaterUnmarked(s, e, p, |fetched|);
    } else {
      OtherStepKeepsLaterUnmarked(s, e, |fetched|, s.runs[p].todo);
      if |s.runs[p].todo| > 0 {
        FewerLaterUnmarked(Next(s, e).reviews, |fetched|, s.runs[p].todo);
      }
    }
  }

  lemma JustFetched(s: State, e: Event)
    requires Enabled(s, e) && e.Fetch?
    ensures Next(s, e).reviews == s.reviews && FetchedFrom(s.reviews, Next(s, e).runs[e.run])
    ensures s.runs[e.run] == Cut(Next(s, e).runs[e.run].cutoff)
  {
  }

  /** Only a fetch makes a run work on its hotels. */
  lemma WasWorking(s: State, e: Event, p: nat)
    requires Enabled(s, e) && p in Next(s, e).runs && Next(s, e).runs[p].Working?
    requires !(e.Fetch? && e.run == p)
    ensures p in s.runs && s.runs[p].Working? && s.runs[p].cutoff == Next(s, e).runs[p].cutoff
  {
  }

  /** A working run has fetched, and still knows what it fetched. */
  ghost predicate KnowsFetch(es: seq<Event>, ss: seq<State>, j: nat, p: nat)
    requires |ss| == |es| + 1 && j <= |es| && p in ss[j].runs && ss[j].runs[p].Working?
  {
    && LastFetch(es, j, p).Some?
    && var f := LastFetch(es, j, p).value;
       && p in ss[f].runs && ss[f].runs[p] == Cut(ss[j].runs[p].cutoff)
       && FetchedFrom(ss[f].reviews, ss[j].runs[p])
       && LaterUnmarked(ss[j].reviews, |ss[f].reviews|, ss[j].runs[p].todo)
  }

  lemma {:induction false} FetchedAt(es: seq<Event>, ss: seq<State>, j: nat, p: nat)
    requires IsRun(es, ss) && IsStart(ss[0]) && j <= |es| && p in ss[j].runs && ss[j].runs[p].Working?
    ensures KnowsFetch(es, ss, j, p)
  {
    assert j > 0;
    assert Enabled(ss[j - 1], es[j - 1]) && ss[j] == Next(ss[j - 1], es[j - 1]);
    if es[j - 1].Fetch? && es[j - 1].run == p {
      JustFetched(ss[j - 1], es[j - 1]);
    } else {
      WasWorking(ss[j - 1], es[j - 1], p);
      FetchedAt(es, ss, j - 1, p);
      RunKeepsInv(es, ss, j - 1);
      WorkingStep(ss[j - 1], es[j - 1], p, ss[LastFetch(es, j - 1, p).value].reviews);
    }
  }

  /** Since its last fetch the run has been at work, with one cutoff. */
  lemma {:induction false} WorkingSince(es: seq<Event>, ss: seq<State>, x: nat, j: nat, p: nat)
    requires IsRun(es, ss) && x <= j <= |es| && p in ss[j].runs && ss[j].runs[p].Working?
    requires LastFetch(es, j, p).Some? && LastFetch(es, j, p).value < x
    ensures p in ss[x].runs && ss[x].runs[p].Working? && ss[x].runs[p].cutoff == ss[j].runs[p].cutoff
    decreases j
  {
    if x == j {
    } else {
      assert Enabled(ss[j - 1], es[j - 1]) && ss[j] == Next(ss[j - 1], es[j - 1]);
      WasWorking(ss[j - 1], es[j - 1], p);
      WorkingSince(es, ss, x, j - 1, p);
    }
  }

  /** A run about to commit has marked, and lists what was pending then. */
  ghost predicate KnowsMark(es: seq<Event>, ss: seq<State>, j: nat, p: nat)
    requires |ss| == |es| + 1 && j <= |es| && p in ss[j].runs && ss[j].runs[p].Working? && ss[j].runs[p].phase.Marked?
  {
    && LastMark(es, j, p).Some? && |ss[j].runs[p].todo| > 0
    && var m, r := LastMark(es, j, p).value, ss[j].runs[p];
       && p in ss[m].runs && ss[m].runs[p].Working? && ss[m].runs[p].todo == r.todo && ss[m].runs[p].cutoff == r.cutoff
       && r.phase.ids == Pending(ss[m].reviews, r.todo[0].hotelId, r.cutoff).Keys
       && LastFetch(es, j, p) == LastFetch(es, m, p)
  }

  lemma JustMarked(s: State, e: Event)
    requires Enabled(s, e) && e.Mark?
    ensures Next(s, e).reviews == s.reviews && e.run in s.runs && s.runs[e.run].Working?
    ensures var r, r' := s.runs[e.run], Next(s, e).runs[e.run];
            && r'.Working? && r'.phase.Marked? && r'.todo == r.todo && r'.cutoff == r.cutoff && |r.todo| > 0
            && r'.phase.ids == Pending(s.reviews, r.todo[0].hotelId, r.cutoff).Keys
  {
  }

  /** Only a mark lists reviews. */
  lemma WasMarked(s: State, e: Event, p: nat)
    requires Enabled(s, e) && p in Next(s, e).runs && Next(s, e).runs[p].Working? && Next(s, e).runs[p].phase.Marked?
    requires e != Mark(p)
    ensures p in s.runs && s.runs[p] == Next(s, e).runs[p] && !(e.Fetch? && e.run == p)
  {
  }

  lemma {:induction false} MarkedAt(es: seq<Event>, ss: seq<State>, j: nat, p: nat)
    requires IsRun(es, ss) && IsStart(ss[0]) && j <= |es|
    requires p in ss[j].runs && ss[j].runs[p].Working? && ss[j].runs[p].phase.Marked?
    ensures KnowsMark(es, ss, j, p)
  {
    assert j > 0;
    assert Enabled(ss[j - 1], es[j - 1]) && ss[j] == Next(ss[j - 1], es[j - 1]);
    if es[j - 1] == Mark(p) {
      JustMarked(ss[j - 1], es[j - 1]);
    } else {
      WasMarked(ss[j - 1], es[j - 1], p);
      MarkedAt(es, ss, j - 1, p);
    }
  }

  // ---------------------------------------------------------------- what one commit loses

  /** Whatever is pending at the mark and was not in the fetch has been inserted in between. */
  lemma PendingSince(es: seq<Event>, ss: seq<State>, f: nat, m: nat, hotel: nat, cutoff: int, k: nat)
    requires IsRun(es, ss) && f <= m <= |es|
    requires forall x: nat :: |ss[f].reviews| <= x < |ss[m].reviews| && ss[m].reviews[x].hotelId == hotel ==> !ss[m].reviews[x].synced
    ensures k in Pending(ss[m].reviews, hotel, cutoff).Keys && k !in Pending(ss[f].reviews, hotel, cutoff).Keys
       <==> |ss[f].reviews| <= k < |ss[m].reviews| && ss[m].reviews[k].hotelId == hotel && ss[m].reviews[k].createdAt <= cutoff
  {
    if k < |ss[f].reviews| {
      ReviewStays(es, ss, f, m, k);
    }
  }

  /** A commit loses exactly the reviews it marks without having counted them. */
  lemma CommitLoses(s: State, e: Event, k: nat)
    requires Inv(s) && Enabled(s, e) && e.Commit?
    ensures var r := s.runs[e.run];
            Lost(Next(s, e).reviews, k) <==> Lost(s.reviews, k) || (k in r.phase.ids && k !in r.todo[0].members)
  {
    var r := s.runs[e.run];
    assert TodoOk(s.reviews, r);
    IdsArePending(s.reviews, r.phase.ids, r.todo[0], r.cutoff);
  }

  /** Nothing but a commit loses a review, or finds one again. */
  lemma OnlyCommitLoses(s: State, e: Event, k: nat)
    requires Enabled(s, e) && !e.Commit?
    ensures Lost(Next(s, e).reviews, k) <==> Lost(s.reviews, k)
  {
  }

  /** Review `k` appeared between the fetch and the mark of the commit at `c`, for its hotel and up to its cutoff. */
  ghost predicate IsCaught(es: seq<Event>, ss: seq<State>, c: nat, k: nat)
    requires IsRun(es, ss) && c < |es| && es[c].Commit?
  {
    var p, fetch, mark := es[c].run, LastFetch(es, c, es[c].run), LastMark(es, c, es[c].run);
    && fetch.Some? && mark.Some? && fetch.value < mark.value
    && |ss[fetch.value].reviews| <= k < |ss[mark.value].reviews|
    && assert Enabled(ss[c], es[c]);
       var r, review := ss[c].runs[p], ss[mark.value].reviews[k];
       review.hotelId == r.todo[0].hotelId && review.createdAt <= r.cutoff
  }

  /** A commit marks a review that was never counted exactly when it is caught in between. */
  lemma CommitLosesCaught(es: seq<Event>, ss: seq<State>, c: nat, k: nat)
    requires IsRun(es, ss) && IsStart(ss[0]) && c < |es| && es[c].Commit?
    ensures Lost(ss[c + 1].reviews, k) <==> Lost(ss[c].reviews, k) || IsCaught(es, ss, c, k)
  {
    var p := es[c].run;
    assert Enabled(ss[c], es[c]) && ss[c + 1] == Next(ss[c], es[c]);
    RunKeepsInv(es, ss, c);
    CommitLoses(ss[c], es[c], k);
    MarkedAt(es, ss, c, p);
    var m, a := LastMark(es, c, p).value, ss[c].runs[p].todo[0];
    FetchedAt(es, ss, m, p);
    var f := LastFetch(es, m, p).value;
    assert a == AggregateOf(ss[f].reviews, a.hotelId, ss[c].runs[p].cutoff);
    PendingSince(es, ss, f, m, a.hotelId, ss[c].runs[p].cutoff, k);
  }

  // ---------------------------------------------------------------- what a run of the system loses

  /** In terms of events: the reviews caught between fetch and mark are those of the late inserts. */
  lemma LateInsertsAreCaught(es: seq<Event>, ss: seq<State>, c: nat, k: nat)
    requires IsRun(es, ss) && c < |es| && es[c].Commit?
    ensures IsCaught(es, ss, c, k) <==> exists g: nat :: LateInsert(es, ss, c, g) && |ss[g].reviews| == k
  {
    var p := es[c].run;
    assert Enabled(ss[c], es[c]);
    if IsCaught(es, ss, c, k) {
      var g := InsertedBetween(es, ss, LastFetch(es, c, p).value, LastMark(es, c, p).value, k);
      assert LateInsert(es, ss, c, g);
    }
    if g: nat :| LateInsert(es, ss, c, g) && |ss[g].reviews| == k {
      InsertIsThere(es, ss, g, LastMark(es, c, p).value);
      if k < |ss[LastFetch(es, c, p).value].reviews| {
        ReviewStays(es, ss, LastFetch(es, c, p).value, g, k);
      }
    }
  }

  lemma InsertIsThere(es: seq<Event>, ss: seq<State>, g: nat, j: nat)
    requires IsRun(es, ss) && g < j <= |es| && es[g].Insert?
    ensures var k := |ss[g].reviews|;
            k < |ss[j].reviews| && ss[j].reviews[k].hotelId == es[g].hotel && ss[j].reviews[k].createdAt == ss[g].now
  {
    assert Enabled(ss[g], es[g]) && ss[g + 1] == Next(ss[g], es[g]);
    ReviewStays(es, ss, g + 1, j, |ss[g].reviews|);
  }

  /** Review `k` was a late insert of the commit at `c`. */
  ghost predicate CaughtBy(es: seq<Event>, ss: seq<State>, c: nat, k: nat)
    requires IsRun(es, ss)
  {
    exists g: nat :: LateInsert(es, ss, c, g) && |ss[g].reviews| == k
  }

  lemma LostStep(es: seq<Event>, ss: seq<State>, c: nat, k: nat)
    requires IsRun(es, ss) && IsStart(ss[0]) && c < |es|
    ensures Lost(ss[c + 1].reviews, k) <==> Lost(ss[c].reviews, k) || CaughtBy(es, ss, c, k)
  {
    assert Enabled(ss[c], es[c]) && ss[c + 1] == Next(ss[c], es[c]);
    if es[c].Commit? {
      CommitLosesCaught(es, ss, c, k);
      LateInsertsAreCaught(es, ss, c, k);
    } else {
      OnlyCommitLoses(ss[c], es[c], k);
    }
  }

  /** What only ever becomes true is true at the end iff some step made it so. */
  lemma {:induction false} BecomesTrueIffMade(was: seq<bool>, made: seq<bool>, n: nat)
    requires n <= |made| < |was| && !was[0]
    requires forall c :: 0 <= c < n ==> (was[c + 1] <==> was[c] || made[c])
    ensures was[n] <==> exists c :: 0 <= c < n && made[c]
  {
    if n == 0 {
    } else {
      BecomesTrueIffMade(was, made, n - 1);
    }
  }

  /**
   Exactly which reviews are lost, over every run: those of the late inserts of its commits. A review inserted in
   the cutoff second after the mark is not lost, nor is one caught by a batch that then fails.
   */
  lemma ReviewLostIffLateInsert(es: seq<Event>, ss: seq<State>, n: nat, k: nat)
    requires IsRun(es, ss) && IsStart(ss[0]) && n <= |es|
    ensures Lost(ss[n].reviews, k) <==> exists c: nat :: c < n && CaughtBy(es, ss, c, k)
  {
    var was := seq(n + 1, c requires 0 <= c <= n => Lost(ss[c].reviews, k));
    var made := seq(n, c requires 0 <= c < n => CaughtBy(es, ss, c, k));
    forall c | 0 <= c < n
      ensures was[c + 1] <==> was[c] || made[c]
    {
      LostStep(es, ss, c, k);
    }
    BecomesTrueIffMade(was, made, n);
    CaughtSomewhere(es, ss, made, k);
  }

  lemma CaughtSomewhere(es: seq<Event>, ss: seq<State>, made: seq<bool>, k: nat)
    requires IsRun(es, ss) && |made| <= |es| && forall c :: 0 <= c < |made| ==> made[c] == CaughtBy(es, ss, c, k)
    ensures (exists c :: 0 <= c < |made| && made[c]) <==> exists c: nat :: c < |made| && CaughtBy(es, ss, c, k)
  {
    if c: nat :| c < |made| && CaughtBy(es, ss, c, k) {
      assert made[c];
    }
  }

  /** So no review is lost exactly when no commit has a late insert. */
  lemma NoneLostIffNoLateInsert(es: seq<Event>, ss: seq<State>, n: nat)
    requires IsRun(es, ss) && IsStart(ss[0]) && n <= |es|
    ensures NoneLost(ss[n].reviews) <==> forall c: nat, g: nat :: c < n ==> !LateInsert(es, ss, c, g)
  {
    if c: nat, g: nat :| c < n && LateInsert(es, ss, c, g) {
      assert CaughtBy(es, ss, c, |ss[g].reviews|);
      ReviewLostIffLateInsert(es, ss, n, |ss[g].reviews|);
    }
    forall k: nat | forall c: nat, g: nat :: c < n ==> !LateInsert(es, ss, c, g)
      ensures !Lost(ss[n].reviews, k)
    {
      ReviewLostIffLateInsert(es, ss, n, k);
    }
  }

  lemma LateInsertIsTie(es: seq<Event>, ss: seq<State>, c: nat, g: nat)
    requires IsRun(es, ss) && IsStart(ss[0]) && LateInsert(es, ss, c, g)
    ensures !InsertsAfterCutoff(ss[g], es[g])
  {
    assert Enabled(ss[c], es[c]);
    WorkingSince(es, ss, g, c, es[c].run);
  }

  /** In particular when no review is created in a second that a working run cut off at. */
  lemma NoTiesLoseNothing(es: seq<Event>, ss: seq<State>, n: nat)
    requires IsRun(es, ss) && IsStart(ss[0]) && n <= |es| && NoTies(es, ss)
    ensures NoneLost(ss[n].reviews)
  {
    forall c: nat, g: nat | c < n
      ensures !LateInsert(es, ss, c, g)
    {
      if LateInsert(es, ss, c, g) {
        LateInsertIsTie(es, ss, c, g);
      }
    }
    NoneLostIffNoLateInsert(es, ss, n);
  }

  // ---------------------------------------------------------------- what a counted review is counted as

  /** Review `k` is counted, at the rating `v`. */
  predicate CountedAs(reviews: seq<Review>, k: nat, v: int) {
    k < |reviews| && reviews[k].synced && reviews[k].countedAs == Some(v)
  }

  /**
   The commit at `c` is for the hotel of review `k`, which was there and unsynced, created up to the cutoff and
   rated `v`, when that run last fetched.
   */
  ghost predicate CommitsRating(es: seq<Event>, ss: seq<State>, c: nat, k: nat, v: int)
    requires IsRun(es, ss)
  {
    && c < |es| && es[c].Commit? && LastFetch(es, c, es[c].run).Some?
    && assert Enabled(ss[c], es[c]);
       var r, fetched := ss[c].runs[es[c].run], ss[LastFetch(es, c, es[c].run).value].reviews;
       && k < |fetched| && fetched[k].hotelId == r.todo[0].hotelId && !fetched[k].synced
       && fetched[k].createdAt <= r.cutoff && fetched[k].rating == v
  }

  /** A commit counts exactly the members of its aggregate, at the ratings they have there. */
  lemma CommitCounts(s: State, e: Event, k: nat, v: int)
    requires Inv(s) && Enabled(s, e) && e.Commit?
    ensures var a := s.runs[e.run].todo[0];
            CountedAs(Next(s, e).reviews, k, v) <==>
              CountedAs(s.reviews, k, v) || (k in a.members && a.members[k] == v)
  {
    var r := s.runs[e.run];
    assert TodoOk(s.reviews, r);
    IdsArePending(s.reviews, r.phase.ids, r.todo[0], r.cutoff);
  }

  lemma OnlyCommitCounts(s: State, e: Event, k: nat, v: int)
    requires Enabled(s, e) && !e.Commit?
    ensures CountedAs(Next(s, e).reviews, k, v) <==> CountedAs(s.reviews, k, v)
  {
  }

  lemma CountedStep(es: seq<Event>, ss: seq<State>, c: nat, k: nat, v: int)
    requires IsRun(es, ss) && IsStart(ss[0]) && c < |es|
    ensures CountedAs(ss[c + 1].reviews, k, v) <==> CountedAs(ss[c].reviews, k, v) || CommitsRating(es, ss, c, k, v)
  {
    assert Enabled(ss[c], es[c]) && ss[c + 1] == Next(ss[c], es[c]);
    if es[c].Commit? {
      var p := es[c].run;
      RunKeepsInv(es, ss, c);
      CommitCounts(ss[c], es[c], k, v);
      FetchedAt(es, ss, c, p);
      var r, fetched := ss[c].runs[p], ss[LastFetch(es, c, p).value].reviews;
      assert r.todo[0] == AggregateOf(fetched, r.todo[0].hotelId, r.cutoff);
      AggregateSumsUp(fetched, r.todo[0].hotelId, r.cutoff);
    } else {
      OnlyCommitCounts(ss[c], es[c], k, v);
    }
  }

  /**
   Exactly which reviews are counted, and at which rating, over every run: those that some commit's run found
   unsynced when it last fetched, at the rating they had at that moment. A rating edited later does not change it.
   */
  lemma CountedIffFetched(es: seq<Event>, ss: seq<State>, n: nat, k: nat, v: int)
    requires IsRun(es, ss) && IsStart(ss[0]) && n <= |es|
    ensures CountedAs(ss[n].reviews, k, v) <==> exists c: nat :: c < n && CommitsRating(es, ss, c, k, v)
  {
    var was := seq(n + 1, c requires 0 <= c <= n => CountedAs(ss[c].reviews, k, v));
    var made := seq(n, c requires 0 <= c < n => CommitsRating(es, ss, c, k, v));
    forall c | 0 <= c < n
      ensures was[c + 1] <==> was[c] || made[c]
    {
      CountedStep(es, ss, c, k, v);
    }
    BecomesTrueIffMade(was, made, n);
    CommittedSomewhere(es, ss, made, k, v);
  }

  lemma CommittedSomewhere(es: seq<Event>, ss: seq<State>, made: seq<bool>, k: nat, v: int)
    requires IsRun(es, ss) && |made| <= |es| && forall c :: 0 <= c < |made| ==> made[c] == CommitsRating(es, ss, c, k, v)
    ensures (exists c :: 0 <= c < |made| && made[c]) <==> exists c: nat :: c < |made| && CommitsRating(es, ss, c, k, v)
  {
    if c: nat :| c < |made| && CommitsRating(es, ss, c, k, v) {
      assert made[c];
    }
  }

  // ---------------------------------------------------------------- it happens

  /**
   If the clock still shows the cutoff second when a run has updated a hotel, a review inserted then is marked by
   the run without ever having been counted.
   */
  lemma TieLosesReview(s: State, p: nat, rating: int) returns (s1: State, s2: State, s3: State)
    requires Inv(s) && Within(s, p) && s.runs[p].phase.Updated? && s.now == s.runs[p].cutoff && 1 <= rating <= 5
    ensures Enabled(s, Insert(s.runs[p].todo[0].hotelId, rating))
    ensures s1 == Next(s, Insert(s.runs[p].todo[0].hotelId, rating))
    ensures Enabled(s1, Mark(p)) && s2 == Next(s1, Mark(p))
    ensures Enabled(s2, Commit(p)) && s3 == Next(s2, Commit(p))
    ensures Lost(s3.reviews, |s.reviews|)
  {
    var a := s.runs[p].todo[0];
    assert PhaseOk(s.hotels, s.ledger, s.runs[p]) && TodoOk(s.reviews, s.runs[p]);
    assert AggregateOk(s.reviews, a, s.runs[p].cutoff);
    s1 := Next(s, Insert(a.hotelId, rating));
    s2 := Next(s1, Mark(p));
    s3 := Next(s2, Commit(p));
    assert IsPending(s1.reviews[|s.reviews|], a.hotelId, s.runs[p].cutoff);
    assert |s.reviews| in Pending(s1.reviews, a.hotelId, s.runs[p].cutoff).Keys;
    assert |s.reviews| !in a.members.Keys;
  }

  /** One review of hotel 0, fetched by run 0 in the second it was created. */
  ghost function OneReview(): seq<Review> {
    [Review(0, 5, 0, false, false, None)]
  }

  ghost function Empty(): State {
    State([], map[0 := Hotel(None, None)], None, map[], 0, [])
  }

  ghost function FetchedOne(phase: Phase): State {
    State(OneReview(), map[0 := Hotel(None, None)], Some(0),
          map[0 := Working(0, [AggregateOf(OneReview(), 0, 0)], phase)], 0, [])
  }

  ghost function AboutToFetch(): State {
    State(OneReview(), map[0 := Hotel(None, None)], Some(0), map[0 := Cut(0)], 0, [])
  }

  lemma OneReviewInserted()
    ensures IsStart(Empty()) && Reaches(Empty(), AboutToFetch())
  {
    var start := Empty();
    ReachesItself(start);
    Step(start, start, Insert(0, 5));
    var s1 := start.(reviews := OneReview());
    Step(start, s1, GetLock(0));
    var s2 := s1.(lock := Some(0), runs := map[0 := Locked]);
    Step(start, s2, TakeCutoff(0));
    assert Next(s2, TakeCutoff(0)) == AboutToFetch();
  }

  lemma OneReviewFetched()
    ensures IsStart(Empty()) && Reaches(Empty(), FetchedOne(Idle))
  {
    OneReviewInserted();
    OneGroup(OneReview());
    Step(Empty(), AboutToFetch(), Fetch(0, [0]));
    assert Aggregates(OneReview(), 0, [0]) == [AggregateOf(OneReview(), 0, 0)];
    assert Next(AboutToFetch(), Fetch(0, [0])) == FetchedOne(Idle);
  }

  /** The hotel is updated, the clock unmoved. */
  lemma OneReviewUpdated() returns (s: State)
    ensures Reaches(Empty(), s) && Within(s, 0) && s.runs[0].phase.Updated? && s.now == s.runs[0].cutoff
  {
    var start := Empty();
    OneReviewFetched();
    OneGroup(OneReview());
    Step(start, FetchedOne(Idle), BeginTx(0));
    assert Next(FetchedOne(Idle), BeginTx(0)) == FetchedOne(InTx);
    Step(start, FetchedOne(InTx), ReadRating(0));
    assert Next(FetchedOne(InTx), ReadRating(0)) == FetchedOne(Rated(0, 0));
    Step(start, FetchedOne(Rated(0, 0)), UpdateRating(0));
    s := Next(FetchedOne(Rated(0, 0)), UpdateRating(0));
  }

  lemma OneGroup(reviews: seq<Review>)
    requires reviews == [Review(0, 5, 0, false, false, None)]
    ensures IsGrouping(reviews, 0, [0]) && AggregateOf(reviews, 0, 0).count > 0
  {
    assert 0 in Pending(reviews, 0, 0).Keys;
  }

  /** A run from the start loses a review. */
  lemma TieHappens() returns (start: State, s: State)
    ensures IsStart(start) && Reaches(start, s) && !NoneLost(s.reviews)
  {
    start := Empty();
    OneReviewFetched();
    var updated := OneReviewUpdated();
    ReachedHasInv(start, updated);
    var s1, s2, s3 := TieLosesReview(updated, 0, 1);
    Step(start, updated, Insert(updated.runs[0].todo[0].hotelId, 1));
    Step(start, s1, Mark(0));
    Step(start, s2, Commit(0));
    s := s3;
  }

  lemma ReachedHasInv(start: State, s: State)
    requires IsStart(start) && Reaches(start, s)
    ensures Inv(s)
  {
    var es, ss :| IsRun(es, ss) && ss[0] == start && ss[|es|] == s;
    RunKeepsInv(es, ss, |es|);
  }
}
