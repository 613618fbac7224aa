/**
 The search index and the hotel table it mirrors. A mutation changes the table and leaves an enqueue
 pending; the queue feeds one worker, whose row read and document write are separate steps; at startup the
 server indexes every active hotel before the worker starts. Enqueues and jobs can be lost, jobs can be
 redelivered, and the process can restart at any moment.
 */
module HotelIndex {
  import opened Wrappers
  import opened HotelDocument

  datatype Action = INDEX | DELETE

  datatype Job = Job(action: Action, hotelId: nat)

  /** What the server is in the middle of. */
  datatype Hand =
    | Empty
    | Taken(job: Job)
    | HaveDoc(job: Job, doc: HotelDoc)
    | SyncDoc(hotelId: nat, doc: HotelDoc, heals: bool)

  datatype Phase =
    | Booting
    | Syncing(todo: set<nat>)
    | Serving

  /**
   `outbox` holds the enqueues fired but not yet done. Two fields are history: `lastAction` is the kind of
   the last mutation of each hotel, `lost` the hotels whose latest job has been lost.
   */
  datatype State = State(
    hotels: map<nat, Hotel>, categories: map<nat, seq<RoomCategory>>, outbox: seq<Job>, queue: seq<Job>,
    hand: Hand, phase: Phase, index: map<nat, HotelDoc>, lastAction: map<nat, Action>, lost: set<nat>)

  datatype Event =
    | Create(hotelId: nat, row: Hotel)
    | Update(hotelId: nat, row: Hotel)
    | Delete(hotelId: nat)
    | Enqueue(position: nat)
    | EnqueueFails(position: nat)
    | TakeJob
    | ReadRow
    | WriteDoc(acknowledged: bool)
    | DeleteDoc(acknowledged: bool)
    | JobFails(retried: bool)
    | Restart
    | ListActive
    | SyncRead(hotelId: nat)
    | SyncWrite
    | SyncFails
    | StartWorker

  predicate Active(s: State, h: nat) {
    h in s.hotels && !s.hotels[h].deleted
  }

  /** The document of the current row. */
  function DocOf(s: State, h: nat): HotelDoc
    requires h in s.hotels
  {
    TransformHotelToESDoc(h, s.hotels[h], if h in s.categories then s.categories[h] else [])
  }

  /** The action of the last job for `h`, if there is one. */
  function LastFor(jobs: seq<Job>, h: nat): Option<Action> {
    if jobs == [] then None
    else if jobs[|jobs| - 1].hotelId == h then Some(jobs[|jobs| - 1].action)
    else LastFor(jobs[..|jobs| - 1], h)
  }

  /** The jobs behind the one in hand, in the order their hotel will see them. */
  function Waiting(s: State): seq<Job> {
    s.queue + s.outbox
  }

  function InHand(hand: Hand): seq<Job> {
    if hand.Taken? || hand.HaveDoc? then [hand.job] else []
  }

  ghost predicate Enabled(s: State, e: Event) {
    match e
    case Create(h, row) => h !in s.hotels && !row.deleted
    case Update(h, row) => h in s.hotels && row.deleted == s.hotels[h].deleted
    case Delete(h) => h in s.hotels
    case Enqueue(i) => i < |s.outbox| && LastFor(s.outbox[..i], s.outbox[i].hotelId) == None
    case EnqueueFails(i) => i < |s.outbox|
    case TakeJob => s.phase.Serving? && s.hand.Empty? && |s.queue| > 0
    case ReadRow => s.hand.Taken? && s.hand.job.action == INDEX
    case WriteDoc(_) => s.hand.HaveDoc?
    case DeleteDoc(_) => s.hand.Taken? && s.hand.job.action == DELETE
    case JobFails(_) => s.hand.Taken? || s.hand.HaveDoc?
    case Restart => true
    case ListActive => s.phase.Booting?
    case SyncRead(h) => s.phase.Syncing? && s.hand.Empty? && h in s.phase.todo && h in s.hotels
    case SyncWrite => s.hand.SyncDoc?
    case SyncFails => s.hand.SyncDoc?
    case StartWorker => !s.phase.Serving? && s.hand.Empty?
  }

  function Mutated(s: State, h: nat, row: Hotel, action: Action): State {
    s.(hotels := s.hotels[h := row], outbox := s.outbox + [Job(action, h)],
       lastAction := s.lastAction[h := action], lost := s.lost - {h})
  }

  /** Dropping a job loses its hotel's latest job unless a later one follows. */
  function Lose(lost: set<nat>, h: nat, later: seq<Job>): set<nat> {
    if LastFor(later, h) == None then lost + {h} else lost
  }

  /** Writing the document of `h` at startup makes up for its lost job. */
  predicate Heals(s: State, h: nat) {
    h in s.lost && Active(s, h) && LastFor(Waiting(s), h) == None
  }

  function Requeued(s: State, again: bool): seq<Job> {
    if again then InHand(s.hand) + s.queue else s.queue
  }

  ghost function Next(s: State, e: Event): State
    requires Enabled(s, e)
  {
    match e
    case Create(h, row) => Mutated(s, h, row, INDEX)
    case Update(h, row) => Mutated(s, h, row, INDEX)
    case Delete(h) => Mutated(s, h, s.hotels[h].(deleted := true), DELETE)
    case Enqueue(i) => s.(queue := s.queue + [s.outbox[i]], outbox := s.outbox[..i] + s.outbox[i + 1..])
    case EnqueueFails(i) =>
      s.(outbox := s.outbox[..i] + s.outbox[i + 1..], lost := Lose(s.lost, s.outbox[i].hotelId, s.outbox[i + 1..]))
    case TakeJob => s.(hand := Taken(s.queue[0]), queue := s.queue[1..])
    case ReadRow =>
      var h := s.hand.job.hotelId;
      s.(hand := if h in s.hotels then HaveDoc(s.hand.job, DocOf(s, h)) else Empty)
    case WriteDoc(acknowledged) =>
      s.(index := s.index[s.hand.job.hotelId := s.hand.doc], hand := Empty, queue := Requeued(s, !acknowledged))
    case DeleteDoc(acknowledged) =>
      s.(index := s.index - {s.hand.job.hotelId}, hand := Empty, queue := Requeued(s, !acknowledged))
    case JobFails(retried) =>
      s.(hand := Empty, queue := Requeued(s, retried),
         lost := if retried then s.lost else Lose(s.lost, s.hand.job.hotelId, Waiting(s)))
    case Restart =>
      s.(hand := Empty, queue := Requeued(s, true), outbox := [], phase := Booting,
         lost := s.lost + (set job | job in s.outbox :: job.hotelId)
                 + (if s.hand.SyncDoc? && s.hand.heals then {s.hand.hotelId} else {}))
    case ListActive => s.(phase := Syncing(set h | h in s.hotels && !s.hotels[h].deleted))
    case SyncRead(h) =>
      s.(hand := SyncDoc(h, DocOf(s, h), Heals(s, h)), phase := Syncing(s.phase.todo - {h}),
         lost := if Heals(s, h) then s.lost - {h} else s.lost)
    case SyncWrite => s.(index := s.index[s.hand.hotelId := s.hand.doc], hand := Empty)
    case SyncFails => s.(hand := Empty, lost := if s.hand.heals then s.lost + {s.hand.hotelId} else s.lost)
    case StartWorker => s.(phase := Serving)
  }

  ghost predicate IsRun(es: seq<Event>, ss: seq<State>) {
    && |ss| == |es| + 1
    && forall i :: 0 <= i < |es| ==> Enabled(ss[i], es[i]) && ss[i + 1] == Next(ss[i], es[i])
  }

  /** No hotel, no document, no job. */
  ghost predicate IsStart(s: State) {
    && s.hotels == map[] && s.outbox == [] && s.queue == [] && s.hand.Empty? && s.phase.Booting?
    && s.index == map[] && s.lastAction == map[] && s.lost == {}
  }

  // ---------------------------------------------------------------- the order of a hotel's jobs

  lemma {:induction false} LastForAppend(a: seq<Job>, b: seq<Job>, h: nat)
    ensures LastFor(a + b, h) == if LastFor(b, h).Some? then LastFor(b, h) else LastFor(a, h)
  {
    if b == [] {
      assert a + b == a;
    } else {
      assert (a + b)[..|a + b| - 1] == a + b[..|b| - 1];
      LastForAppend(a, b[..|b| - 1], h);
    }
  }

  lemma LastForOne(job: Job, h: nat)
    ensures LastFor([job], h) == if job.hotelId == h then Some(job.action) else None
  {
  }

  /** Taking the job at `i` out of the outbox and putting it at the end of the queue keeps every hotel's last job. */
  lemma EnqueueKeepsLast(queue: seq<Job>, outbox: seq<Job>, i: nat, h: nat)
    requires i < |outbox| && LastFor(outbox[..i], outbox[i].hotelId) == None
    ensures LastFor(queue + [outbox[i]] + (outbox[..i] + outbox[i + 1..]), h) == LastFor(queue + outbox, h)
  {
    var left, job, right := outbox[..i], outbox[i], outbox[i + 1..];
    assert outbox == left + ([job] + right);
    LastForOne(job, h);
    LastForAppend([job], right, h);
    LastForAppend(left, [job] + right, h);
    LastForAppend(left, right, h);
    LastForAppend(queue, outbox, h);
    LastForAppend(queue, [job], h);
    LastForAppend(queue + [job], left + right, h);
  }

  /** Dropping the job at `i` keeps every hotel's last job, except when it was the last of its own hotel. */
  lemma DropKeepsLast(outbox: seq<Job>, i: nat, h: nat)
    requires i < |outbox| && (outbox[i].hotelId != h || LastFor(outbox[i + 1..], h).Some?)
    ensures LastFor(outbox[..i] + outbox[i + 1..], h) == LastFor(outbox, h)
  {
    var left, job, right := outbox[..i], outbox[i], outbox[i + 1..];
    assert outbox == left + ([job] + right);
    LastForOne(job, h);
    LastForAppend([job], right, h);
    LastForAppend(left, [job] + right, h);
    LastForAppend(left, right, h);
  }

  lemma {:induction false} NoJobNoLast(jobs: seq<Job>, h: nat)
    requires LastFor(jobs, h).Some?
    ensures exists job :: job in jobs && job.hotelId == h
  {
    if jobs[|jobs| - 1].hotelId == h {
      assert jobs[|jobs| - 1] in jobs;
    } else {
      NoJobNoLast(jobs[..|jobs| - 1], h);
    }
  }

  // ---------------------------------------------------------------- the invariant of one hotel

  /** The last job of `h` among those in hand, queued or pending, and the last behind the hand. */
  datatype Last = Last(overall: Option<Action>, behind: Option<Action>)

  function LastOf(s: State, h: nat): Last {
    Last(LastFor(InHand(s.hand) + Waiting(s), h), LastFor(Waiting(s), h))
  }

  /** The server is about to write a document of `h`. */
  predicate Writes(hand: Hand, h: nat) {
    (hand.HaveDoc? && hand.job.hotelId == h) || (hand.SyncDoc? && hand.hotelId == h)
  }

  predicate LastWasIndex(s: State, h: nat) {
    h in s.lastAction && s.lastAction[h] == INDEX
  }

  /** The index holds `h` exactly when its last mutation was a create or update, with the document of its row. */
  predicate Mirrors(s: State, h: nat) {
    if LastWasIndex(s, h) then h in s.hotels && h in s.index && s.index[h] == DocOf(s, h) else h !in s.index
  }

  predicate PhaseOk(s: State) {
    && (s.phase.Serving? ==> !s.hand.SyncDoc?)
    && (!s.phase.Serving? ==> !s.hand.Taken? && !s.hand.HaveDoc?)
  }

  predicate RowOk(s: State, h: nat) {
    && (h in s.hotels <==> h in s.lastAction)
    && (Active(s, h) ==> LastWasIndex(s, h))
  }

  /** What holds of a hotel whose latest job is not lost, `last` being its last jobs. */
  predicate HotelInv(s: State, h: nat, last: Last) {
    // the last job is of the kind of the last mutation
    && (last.overall.Some? ==> h in s.lastAction && s.lastAction[h] == last.overall.value)
    // a document about to be written last is current; unless it heals, the index was right before
    && (Writes(s.hand, h) && last.behind == None ==>
          && h in s.hotels && s.hand.doc == DocOf(s, h) && LastWasIndex(s, h)
          && (s.hand.SyncDoc? && !s.hand.heals ==> Mirrors(s, h)))
    // a hotel the startup has still to index is not on its way out
    && (s.phase.Syncing? && h in s.phase.todo && last.behind == None ==> LastWasIndex(s, h))
    // with nothing left to do, the index mirrors the table
    && (last.overall == None && !Writes(s.hand, h) ==> Mirrors(s, h))
  }

  predicate Inv(s: State, h: nat) {
    PhaseOk(s) && RowOk(s, h) && (h !in s.lost ==> HotelInv(s, h, LastOf(s, h)))
  }

  // ---------------------------------------------------------------- how each event moves a hotel's last jobs

  /** The last job overall is the one behind, or else the one in hand. */
  predicate OverHand(s: State, h: nat, last: Last) {
    last.overall ==
      if last.behind.Some? then last.behind
      else if (s.hand.Taken? || s.hand.HaveDoc?) && s.hand.job.hotelId == h then Some(s.hand.job.action)
      else None
  }

  lemma LastOverHand(s: State, h: nat)
    ensures OverHand(s, h, LastOf(s, h))
  {
    if s.hand.Taken? || s.hand.HaveDoc? {
      LastForOne(s.hand.job, h);
    }
    LastForAppend(InHand(s.hand), Waiting(s), h);
  }

  lemma MutationLast(s: State, h0: nat, row: Hotel, action: Action, h: nat)
    ensures LastOf(Mutated(s, h0, row, action), h) == if h == h0 then Last(Some(action), Some(action)) else LastOf(s, h)
  {
    var s', job := Mutated(s, h0, row, action), Job(action, h0);
    LastForOne(job, h);
    assert Waiting(s') == Waiting(s) + [job];
    LastForAppend(Waiting(s), [job], h);
    LastOverHand(s, h);
    LastOverHand(s', h);
  }

  lemma EnqueueLast(s: State, i: nat, h: nat)
    requires Enabled(s, Enqueue(i))
    ensures LastOf(Next(s, Enqueue(i)), h) == LastOf(s, h)
  {
    EnqueueKeepsLast(s.queue, s.outbox, i, h);
    LastOverHand(s, h);
    LastOverHand(Next(s, Enqueue(i)), h);
  }

  lemma EnqueueFailsLast(s: State, i: nat, h: nat)
    requires Enabled(s, EnqueueFails(i)) && h !in Next(s, EnqueueFails(i)).lost
    ensures LastOf(Next(s, EnqueueFails(i)), h) == LastOf(s, h)
  {
    var s' := Next(s, EnqueueFails(i));
    DropKeepsLast(s.outbox, i, h);
    LastForAppend(s.queue, s.outbox, h);
    LastForAppend(s.queue, s'.outbox, h);
    LastOverHand(s, h);
    LastOverHand(s', h);
  }

  lemma TakeLast(s: State, h: nat)
    requires Enabled(s, TakeJob)
    ensures LastOf(Next(s, TakeJob), h).overall == LastOf(s, h).overall
  {
    var s' := Next(s, TakeJob);
    assert InHand(s'.hand) + Waiting(s') == InHand(s.hand) + Waiting(s);
  }

  /** The job in hand leaves it: put back at the head of the queue, or gone. */
  lemma HandOverLast(s: State, s': State, again: bool, h: nat)
    requires s'.hand.Empty? && s'.outbox == s.outbox && s'.queue == Requeued(s, again)
    ensures LastOf(s', h) == if again then Last(LastOf(s, h).overall, LastOf(s, h).overall)
                             else Last(LastOf(s, h).behind, LastOf(s, h).behind)
  {
    assert Waiting(s') == if again then InHand(s.hand) + Waiting(s) else Waiting(s);
    LastOverHand(s', h);
  }

  lemma RestartLast(s: State, h: nat)
    requires h !in Next(s, Restart).lost
    ensures LastOf(Next(s, Restart), h) == Last(LastOf(s, h).overall, LastOf(s, h).overall)
  {
    var s' := Next(s, Restart);
    if LastFor(s.outbox, h).Some? {
      NoJobNoLast(s.outbox, h);
    }
    assert LastFor(s.outbox, h) == None;
    LastForAppend(InHand(s.hand) + s.queue, s.outbox, h);
    assert InHand(s.hand) + Waiting(s) == InHand(s.hand) + s.queue + s.outbox;
    assert Waiting(s') == InHand(s.hand) + s.queue;
    LastOverHand(s', h);
  }

  // ---------------------------------------------------------------- every event keeps the invariant

  /** The effect of an event on the last jobs of `h`, as far as the invariant needs it. */
  predicate Moves(s: State, e: Event, h: nat, last: Last, last': Last) {
    && OverHand(s, h, last)
    && match e
       case Create(h0, _) => last' == if h == h0 then Last(Some(INDEX), Some(INDEX)) else last
       case Update(h0, _) => last' == if h == h0 then Last(Some(INDEX), Some(INDEX)) else last
       case Delete(h0) => last' == if h == h0 then Last(Some(DELETE), Some(DELETE)) else last
       case TakeJob => last'.overall == last.overall
       case ReadRow =>
         if s.hand.Taken? && s.hand.job.hotelId in s.hotels then last' == last else last' == Last(last.behind, last.behind)
       case WriteDoc(acknowledged) => last' == if acknowledged then Last(last.behind, last.behind) else Last(last.overall, last.overall)
       case DeleteDoc(acknowledged) => last' == if acknowledged then Last(last.behind, last.behind) else Last(last.overall, last.overall)
       case JobFails(retried) => last' == if retried then Last(last.overall, last.overall) else Last(last.behind, last.behind)
       case Restart => last' == Last(last.overall, last.overall)
       case _ => last' == last
  }

  lemma EventMoves(s: State, e: Event, h: nat)
    requires Enabled(s, e) && h !in Next(s, e).lost
    ensures Moves(s, e, h, LastOf(s, h), LastOf(Next(s, e), h))
  {
    LastOverHand(s, h);
    match e
    case Create(h0, row) => MutationLast(s, h0, row, INDEX, h);
    case Update(h0, row) => MutationLast(s, h0, row, INDEX, h);
    case Delete(h0) => MutationLast(s, h0, s.hotels[h0].(deleted := true), DELETE, h);
    case Enqueue(i) => EnqueueLast(s, i, h);
    case EnqueueFails(i) => EnqueueFailsLast(s, i, h);
    case TakeJob => TakeLast(s, h);
    case ReadRow =>
      if s.hand.job.hotelId !in s.hotels {
        HandOverLast(s, Next(s, e), false, h);
      }
    case WriteDoc(acknowledged) => HandOverLast(s, Next(s, e), !acknowledged, h);
    case DeleteDoc(acknowledged) => HandOverLast(s, Next(s, e), !acknowledged, h);
    case JobFails(retried) => HandOverLast(s, Next(s, e), retried, h);
    case Restart => RestartLast(s, h);
    case _ => LastOverHand(Next(s, e), h);
  }

  /** What is known of `h` before an event after which its latest job is not lost. */
  ghost predicate Before(s: State, e: Event, h: nat, last: Last, last': Last) {
    && Enabled(s, e) && PhaseOk(s) && RowOk(s, h)
    && (h !in s.lost ==> HotelInv(s, h, last))
    && Moves(s, e, h, last, last') && last.behind == LastFor(Waiting(s), h)
    && h !in Next(s, e).lost
  }

  lemma MutationKeepsHotelInv(s: State, e: Event, h: nat, last: Last, last': Last)
    requires Before(s, e, h, last, last') && (e.Create? || e.Update? || e.Delete?)
    ensures HotelInv(Next(s, e), h, last')
  {
  }

  lemma QueueKeepsHotelInv(s: State, e: Event, h: nat, last: Last, last': Last)
    requires Before(s, e, h, last, last') && (e.Enqueue? || e.EnqueueFails? || e.TakeJob? || e.StartWorker?)
    ensures HotelInv(Next(s, e), h, last')
  {
  }

  lemma WorkerKeepsHotelInv(s: State, e: Event, h: nat, last: Last, last': Last)
    requires Before(s, e, h, last, last') && (e.ReadRow? || e.WriteDoc? || e.DeleteDoc? || e.JobFails?)
    ensures HotelInv(Next(s, e), h, last')
  {
  }

  lemma StartupKeepsHotelInv(s: State, e: Event, h: nat, last: Last, last': Last)
    requires Before(s, e, h, last, last')
    requires e.Restart? || e.ListActive? || e.SyncRead? || e.SyncWrite? || e.SyncFails?
    ensures HotelInv(Next(s, e), h, last')
  {
  }

  /** Given where its last jobs go, every event keeps what holds of a hotel. */
  lemma EventKeepsHotelInv(s: State, e: Event, h: nat, last: Last, last': Last)
    requires Before(s, e, h, last, last')
    ensures HotelInv(Next(s, e), h, last')
  {
    if e.Create? || e.Update? || e.Delete? {
      MutationKeepsHotelInv(s, e, h, last, last');
    } else if e.Enqueue? || e.EnqueueFails? || e.TakeJob? || e.StartWorker? {
      QueueKeepsHotelInv(s, e, h, last, last');
    } else if e.ReadRow? || e.WriteDoc? || e.DeleteDoc? || e.JobFails? {
      WorkerKeepsHotelInv(s, e, h, last, last');
    } else {
      StartupKeepsHotelInv(s, e, h, last, last');
    }
  }

  /** Every event keeps the invariant of every hotel. */
  lemma StepKeepsInv(s: State, e: Event, h: nat)
    requires Inv(s, h) && Enabled(s, e)
    ensures Inv(Next(s, e), h)
  {
    if h !in Next(s, e).lost {
      EventMoves(s, e, h);
      EventKeepsHotelInv(s, e, h, LastOf(s, h), LastOf(Next(s, e), h));
    }
  }

  lemma {:induction false} RunKeepsInv(es: seq<Event>, ss: seq<State>, i: nat, h: nat)
    requires IsRun(es, ss) && IsStart(ss[0]) && i <= |es|
    ensures Inv(ss[i], h)
  {
    if i == 0 {
    } else {
      RunKeepsInv(es, ss, i - 1, h);
      StepKeepsInv(ss[i - 1], es[i - 1], h);
    }
  }

  // ---------------------------------------------------------------- what is lost

  /** The event changes the row of `h`. */
  predicate Mutates(e: Event, h: nat) {
    (e.Create? || e.Update? || e.Delete?) && e.hotelId == h
  }

  predicate NoJobOf(jobs: seq<Job>, h: nat) {
    forall i :: 0 <= i < |jobs| ==> jobs[i].hotelId != h
  }

  lemma {:induction false} NoneMeansNoJob(jobs: seq<Job>, h: nat)
    requires LastFor(jobs, h) == None
    ensures NoJobOf(jobs, h)
  {
    if jobs == [] {
    } else {
      NoneMeansNoJob(jobs[..|jobs| - 1], h);
    }
  }

  /** A dropped job counts as lost exactly if no later job of its hotel follows. */
  lemma LostIffNoneFollows(lost: set<nat>, h: nat, later: seq<Job>, g: nat)
    ensures g in Lose(lost, h, later) <==> g in lost || (g == h && forall i :: 0 <= i < |later| ==> later[i].hotelId != h)
  {
    if LastFor(later, h).Some? {
      NoJobNoLast(later, h);
    } else {
      NoneMeansNoJob(later, h);
    }
  }

  /** The event drops a job of `h`, or the outbox with one of its jobs in it, or fails to write a document that made up for one. */
  predicate Drops(s: State, e: Event, h: nat) {
    match e
    case EnqueueFails(i) => i < |s.outbox| && s.outbox[i].hotelId == h && NoJobOf(s.outbox[i + 1..], h)
    case JobFails(retried) =>
      !retried && (s.hand.Taken? || s.hand.HaveDoc?) && s.hand.job.hotelId == h && NoJobOf(s.queue, h) && NoJobOf(s.outbox, h)
    case Restart => (exists i :: 0 <= i < |s.outbox| && s.outbox[i].hotelId == h) || (s.hand.SyncDoc? && s.hand.hotelId == h)
    case SyncFails => s.hand.SyncDoc? && s.hand.hotelId == h
    case _ => false
  }

  lemma OnlyDropsLose(s: State, e: Event, h: nat)
    requires Enabled(s, e) && h in Next(s, e).lost
    ensures h in s.lost || Drops(s, e, h)
  {
    match e
    case EnqueueFails(i) => LostIffNoneFollows(s.lost, s.outbox[i].hotelId, s.outbox[i + 1..], h);
    case JobFails(retried) =>
      if !retried {
        LostIffNoneFollows(s.lost, s.hand.job.hotelId, Waiting(s), h);
        assert forall i :: 0 <= i < |s.queue| ==> Waiting(s)[i] == s.queue[i];
        assert forall i :: 0 <= i < |s.outbox| ==> Waiting(s)[|s.queue| + i] == s.outbox[i];
      }
    case _ =>
  }

  /** A hotel counts as lost only if some event has dropped its latest job; mutating it again starts afresh. */
  lemma {:induction false} LostOnlyIfDropped(es: seq<Event>, ss: seq<State>, n: nat, h: nat)
    requires IsRun(es, ss) && IsStart(ss[0]) && n <= |es| && h in ss[n].lost
    ensures exists i :: 0 <= i < n && Drops(ss[i], es[i], h) && forall j :: i < j < n ==> !Mutates(es[j], h)
  {
    if n == 0 {
    } else {
      assert Enabled(ss[n - 1], es[n - 1]) && ss[n] == Next(ss[n - 1], es[n - 1]);
      assert !Mutates(es[n - 1], h);
      OnlyDropsLose(ss[n - 1], es[n - 1], h);
      if !Drops(ss[n - 1], es[n - 1], h) {
        LostOnlyIfDropped(es, ss, n - 1, h);
      }
    }
  }

  // ---------------------------------------------------------------- agreement

  /** No job of `h` is pending, queued or in hand. */
  predicate Settled(s: State, h: nat) {
    LastOf(s, h).overall == None && !Writes(s.hand, h)
  }

  /** The index agrees with the table about `h`: it holds `h` iff `h` is active, with the document of its row. */
  predicate Agrees(s: State, h: nat) {
    && (h in s.index <==> Active(s, h))
    && (Active(s, h) ==> s.index[h] == DocOf(s, h))
  }

  /**
   In every reachable state, a hotel with no pending, queued or in-hand job whose latest job was not lost
   agrees with the table if and only if it was not updated after its deletion; and whatever document of it
   the index holds is that of its current row.
   */
  lemma SettledHotelAgrees(es: seq<Event>, ss: seq<State>, i: nat, h: nat)
    requires IsRun(es, ss) && IsStart(ss[0]) && i <= |es|
    requires Settled(ss[i], h) && h !in ss[i].lost
    ensures Agrees(ss[i], h) <==> !(LastWasIndex(ss[i], h) && !Active(ss[i], h))
    ensures h in ss[i].index ==> h in ss[i].hotels && ss[i].index[h] == DocOf(ss[i], h) && IsCurrent(ss[i], h)
  {
    RunKeepsInv(es, ss, i, h);
    if h in ss[i].hotels {
      CurrentDocument(ss[i], h);
    }
  }

  /** The index holds `h` with its row as it is now, field by field, and a summary of its categories. */
  ghost predicate IsCurrent(s: State, h: nat) {
    && h in s.index && h in s.hotels
    && IsDocumentOf(s.index[h], h, s.hotels[h], if h in s.categories then s.categories[h] else [])
  }

  lemma CurrentDocument(s: State, h: nat)
    requires h in s.hotels
    ensures h in s.index && s.index[h] == DocOf(s, h) ==> IsCurrent(s, h)
  {
    DocumentSummarisesCategories(h, s.hotels[h], if h in s.categories then s.categories[h] else []);
  }

  /** No event of the run updates a hotel that is deleted. */
  ghost predicate NoUpdateAfterDelete(es: seq<Event>, ss: seq<State>, h: nat)
    requires |ss| == |es| + 1
  {
    forall j :: 0 <= j < |es| && es[j].Update? && es[j].hotelId == h ==> Active(ss[j], h)
  }

  lemma {:induction false} DeletedStaysDeleted(es: seq<Event>, ss: seq<State>, i: nat, h: nat)
    requires IsRun(es, ss) && IsStart(ss[0]) && i <= |es| && NoUpdateAfterDelete(es, ss, h)
    ensures LastWasIndex(ss[i], h) ==> Active(ss[i], h)
  {
    if i == 0 {
    } else {
      DeletedStaysDeleted(es, ss, i - 1, h);
      RunKeepsInv(es, ss, i - 1, h);
      assert Enabled(ss[i - 1], es[i - 1]) && ss[i] == Next(ss[i - 1], es[i - 1]);
    }
  }

  /** So with no lost latest job and no update after deletion, a settled hotel is indexed iff active, and current. */
  lemma IndexAgreesWithTable(es: seq<Event>, ss: seq<State>, i: nat, h: nat)
    requires IsRun(es, ss) && IsStart(ss[0]) && i <= |es| && NoUpdateAfterDelete(es, ss, h)
    requires Settled(ss[i], h) && h !in ss[i].lost
    ensures Agrees(ss[i], h)
    ensures h in ss[i].index <==> h in ss[i].hotels && !ss[i].hotels[h].deleted
    ensures h in ss[i].index ==> IsCurrent(ss[i], h)
  {
    DeletedStaysDeleted(es, ss, i, h);
    SettledHotelAgrees(es, ss, i, h);
  }

  /** Some run leads from `s` to `s'`. */
  ghost predicate Reaches(s: State, s': State) {
    exists es, ss :: IsRun(es, ss) && ss[0] == s && ss[|es|] == s'
  }

  lemma ReachesItself(s: State)
    ensures Reaches(s, s)
  {
    assert IsRun([], [s]);
  }

  lemma Append(es: seq<Event>, ss: seq<State>, e: Event)
    requires IsRun(es, ss) && Enabled(ss[|es|], e)
    ensures IsRun(es + [e], ss + [Next(ss[|es|], e)])
  {
    var es', ss' := es + [e], ss + [Next(ss[|es|], e)];
    forall i | 0 <= i < |es'|
      ensures Enabled(ss'[i], es'[i]) && ss'[i + 1] == Next(ss'[i], es'[i])
    {
      if i < |es| {
        assert Enabled(ss[i], es[i]) && ss[i + 1] == Next(ss[i], es[i]);
      }
    }
  }

  lemma Step(s: State, s': State, e: Event)
    requires Reaches(s, s') && Enabled(s', e)
    ensures Reaches(s, Next(s', e))
  {
    var es, ss :| IsRun(es, ss) && ss[0] == s && ss[|es|] == s';
    var s'' := Next(s', e);
    Append(es, ss, e);
    assert (ss + [s''])[0] == s && (ss + [s''])[|es + [e]|] == s'';
  }

  // ---------------------------------------------------------------- one mutation and its job, undisturbed

  /** Serving, with nothing queued or under way. */
  predicate Quiet(s: State) {
    s.phase.Serving? && s.hand.Empty? && s.queue == [] && s.outbox == []
  }

  /** The only pending job is enqueued, taken and done. */
  lemma IndexJobRuns(start: State, s: State, h: nat)
    requires Quiet(s.(outbox := [])) && s.outbox == [Job(INDEX, h)] && h in s.hotels && Reaches(start, s)
    ensures Reaches(start, s.(outbox := [], index := s.index[h := DocOf(s, h)]))
  {
    var job := Job(INDEX, h);
    Step(start, s, Enqueue(0));
    assert Next(s, Enqueue(0)) == s.(outbox := [], queue := [job]);
    Step(start, s.(outbox := [], queue := [job]), TakeJob);
    var taken := s.(outbox := [], queue := [], hand := Taken(job));
    assert Next(s.(outbox := [], queue := [job]), TakeJob) == taken;
    Step(start, taken, ReadRow);
    var read := taken.(hand := HaveDoc(job, DocOf(s, h)));
    assert Next(taken, ReadRow) == read;
    Step(start, read, WriteDoc(true));
    assert Next(read, WriteDoc(true)) == s.(outbox := [], index := s.index[h := DocOf(s, h)]);
  }

  lemma DeleteJobRuns(start: State, s: State, h: nat)
    requires Quiet(s.(outbox := [])) && s.outbox == [Job(DELETE, h)] && Reaches(start, s)
    ensures Reaches(start, s.(outbox := [], index := s.index - {h}))
  {
    var job := Job(DELETE, h);
    Step(start, s, Enqueue(0));
    assert Next(s, Enqueue(0)) == s.(outbox := [], queue := [job]);
    Step(start, s.(outbox := [], queue := [job]), TakeJob);
    var taken := s.(outbox := [], queue := [], hand := Taken(job));
    assert Next(s.(outbox := [], queue := [job]), TakeJob) == taken;
    Step(start, taken, DeleteDoc(true));
    assert Next(taken, DeleteDoc(true)) == s.(outbox := [], index := s.index - {h});
  }

  /** Where a quiet serving state goes when `h` is created or updated and its job is done. */
  function WrittenAndIndexed(s: State, h: nat, row: Hotel): State {
    var s' := s.(hotels := s.hotels[h := row]);
    s'.(lastAction := s.lastAction[h := INDEX], lost := s.lost - {h}, index := s.index[h := DocOf(s', h)])
  }

  lemma UpdateRuns(start: State, s: State, h: nat, row: Hotel)
    requires Reaches(start, s) && Quiet(s) && h in s.hotels && row.deleted == s.hotels[h].deleted
    ensures Reaches(start, WrittenAndIndexed(s, h, row))
  {
    Step(start, s, Update(h, row));
    var s' := Next(s, Update(h, row));
    IndexJobRuns(start, s', h);
    assert WrittenAndIndexed(s, h, row) == s'.(outbox := [], index := s'.index[h := DocOf(s', h)]);
  }

  lemma CreateRuns(start: State, s: State, h: nat, row: Hotel)
    requires Reaches(start, s) && Quiet(s) && h !in s.hotels && !row.deleted
    ensures Reaches(start, WrittenAndIndexed(s, h, row))
  {
    Step(start, s, Create(h, row));
    var s' := Next(s, Create(h, row));
    IndexJobRuns(start, s', h);
    assert WrittenAndIndexed(s, h, row) == s'.(outbox := [], index := s'.index[h := DocOf(s', h)]);
  }

  function DeletedAndRemoved(s: State, h: nat): State
    requires h in s.hotels
  {
    s.(hotels := s.hotels[h := s.hotels[h].(deleted := true)], lastAction := s.lastAction[h := DELETE],
       lost := s.lost - {h}, index := s.index - {h})
  }

  lemma DeleteRuns(start: State, s: State, h: nat)
    requires Reaches(start, s) && Quiet(s) && h in s.hotels
    ensures Reaches(start, DeletedAndRemoved(s, h))
  {
    Step(start, s, Delete(h));
    var s' := Next(s, Delete(h));
    DeleteJobRuns(start, s', h);
    assert DeletedAndRemoved(s, h) == s'.(outbox := [], index := s'.index - {h});
  }

  /** `h` is in the index although it is deleted, and nothing is left that would take it out. */
  predicate Revived(s: State, h: nat) {
    Settled(s, h) && h !in s.lost && !Active(s, h) && h in s.index
  }

  /**
   The condition is needed: from any quiet serving state, updating a deleted hotel puts its document back
   into the index for good.
   */
  lemma UpdateRevivesDeleted(s: State, h: nat, row: Hotel)
    requires Quiet(s) && h in s.hotels && s.hotels[h].deleted && row.deleted
    ensures Reaches(s, WrittenAndIndexed(s, h, row)) && Revived(WrittenAndIndexed(s, h, row), h)
  {
    ReachesItself(s);
    UpdateRuns(s, s, h, row);
    var s' := WrittenAndIndexed(s, h, row);
    assert InHand(s'.hand) + Waiting(s') == [];
  }

  /** It happens: a hotel is created, deleted and updated. */
  lemma DeletedHotelComesBack(row: Hotel) returns (start: State, s: State)
    requires !row.deleted
    ensures IsStart(start) && Reaches(start, s) && Revived(s, 0)
  {
    start := State(map[], map[], [], [], Empty, Booting, map[], map[], {});
    ReachesItself(start);
    Step(start, start, StartWorker);
    var s0 := start.(phase := Serving);
    assert Next(start, StartWorker) == s0;
    CreateRuns(start, s0, 0, row);
    var s1 := WrittenAndIndexed(s0, 0, row);
    DeleteRuns(start, s1, 0);
    var s2 := DeletedAndRemoved(s1, 0);
    var row' := row.(deleted := true);
    UpdateRuns(start, s2, 0, row');
    UpdateRevivesDeleted(s2, 0, row');
    s := WrittenAndIndexed(s2, 0, row');
  }

  // ---------------------------------------------------------------- when a lost job is made up for

  predicate LeavesAlone(es: seq<Event>, h: nat) {
    forall i :: 0 <= i < |es| ==> !Mutates(es[i], h)
  }

  predicate NoRestart(es: seq<Event>) {
    forall i :: 0 <= i < |es| ==> !es[i].Restart?
  }

  /** No job of `h` is pending, queued or in hand. */
  predicate Jobless(s: State, h: nat) {
    NoJobOf(s.queue, h) && NoJobOf(s.outbox, h) && (s.hand.Taken? || s.hand.HaveDoc? ==> s.hand.job.hotelId != h)
  }

  lemma SettledIsJobless(s: State, h: nat)
    requires Settled(s, h)
    ensures Jobless(s, h)
  {
    var jobs := InHand(s.hand) + Waiting(s);
    NoneMeansNoJob(jobs, h);
    var a, b := |InHand(s.hand)|, |InHand(s.hand)| + |s.queue|;
    assert s.hand.Taken? || s.hand.HaveDoc? ==> jobs[0] == s.hand.job;
    assert forall i :: 0 <= i < |s.queue| ==> s.queue[i] == jobs[a + i];
    assert forall i :: 0 <= i < |s.outbox| ==> s.outbox[i] == jobs[b + i];
  }

  lemma JoblessStep(s: State, e: Event, h: nat)
    requires Enabled(s, e) && !Mutates(e, h) && Jobless(s, h)
    ensures Jobless(Next(s, e), h)
  {
  }

  /** A deleted hotel that is in the index, with no job that would take it out. */
  predicate Stuck(s: State, h: nat) {
    h in s.hotels && s.hotels[h].deleted && h in s.index && Jobless(s, h)
  }

  lemma StuckStep(s: State, e: Event, h: nat)
    requires Enabled(s, e) && !Mutates(e, h) && Stuck(s, h)
    ensures Stuck(Next(s, e), h)
  {
    JoblessStep(s, e, h);
  }

  lemma {:induction false} StuckForGood(es: seq<Event>, ss: seq<State>, i: nat, h: nat)
    requires IsRun(es, ss) && i <= |es| && LeavesAlone(es, h) && Stuck(ss[0], h)
    ensures Stuck(ss[i], h)
  {
    if i == 0 {
    } else {
      StuckForGood(es, ss, i - 1, h);
      assert Enabled(ss[i - 1], es[i - 1]) && ss[i] == Next(ss[i - 1], es[i - 1]);
      StuckStep(ss[i - 1], es[i - 1], h);
    }
  }

  /** A restart and its startup sync bring an active hotel up to date, and make up for its lost job. */
  lemma SyncRepairs(s: State, h: nat) returns (es: seq<Event>, ss: seq<State>)
    requires Active(s, h)
    ensures IsRun(es, ss) && ss[0] == s && LeavesAlone(es, h) && Agrees(ss[|es|], h)
    ensures Settled(s, h) ==> h !in ss[|es|].lost
  {
    var s1 := Next(s, Restart);
    var s2 := Next(s1, ListActive);
    var s3 := Next(s2, SyncRead(h));
    var s4 := Next(s3, SyncWrite);
    es, ss := [Restart, ListActive, SyncRead(h), SyncWrite], [s, s1, s2, s3, s4];
    if Settled(s, h) {
      SettledIsJobless(s, h);
      if LastFor(Waiting(s2), h).Some? {
        NoJobNoLast(Waiting(s2), h);
      }
    }
  }

  /** Some run without a change to `h` brings index and table into agreement about it. */
  ghost predicate Repairable(s: State, h: nat) {
    exists es: seq<Event>, ss: seq<State> :: IsRun(es, ss) && ss[0] == s && LeavesAlone(es, h) && Agrees(ss[|es|], h)
  }

  /**
   Exactly which hotels can still be put right without another change to them, once no job of theirs is left and
   whatever has been lost: the active ones, and those the index does not hold. A deleted hotel whose delete job
   was lost stays in the index for good.
   */
  lemma RepairableIffActiveOrAbsent(s: State, h: nat)
    requires h in s.hotels && Settled(s, h)
    ensures Repairable(s, h) <==> Active(s, h) || h !in s.index
  {
    if Active(s, h) {
      var es, ss := SyncRepairs(s, h);
    } else if h !in s.index {
      var es: seq<Event>, ss := [], [s];
      assert IsRun(es, ss) && LeavesAlone(es, h) && Agrees(ss[|es|], h);
    } else {
      SettledIsJobless(s, h);
      forall es: seq<Event>, ss: seq<State> | IsRun(es, ss) && ss[0] == s && LeavesAlone(es, h)
        ensures !Agrees(ss[|es|], h)
      {
        StuckForGood(es, ss, |es|, h);
      }
    }
  }

  /** Serving, with nothing about `h` under way. */
  predicate AtRest(s: State, h: nat) {
    s.phase.Serving? && Jobless(s, h) && !Writes(s.hand, h) && !s.hand.SyncDoc?
  }

  lemma RestStep(s: State, e: Event, h: nat)
    requires Enabled(s, e) && !Mutates(e, h) && !e.Restart? && AtRest(s, h)
    ensures AtRest(Next(s, e), h) && (Agrees(Next(s, e), h) <==> Agrees(s, h))
  {
    JoblessStep(s, e, h);
  }

  /**
   Without a restart not even an active hotel is put right: while the server runs, a settled hotel that nobody
   changes keeps the document it has, right or wrong.
   */
  lemma {:induction false} OnlyRestartRepairs(es: seq<Event>, ss: seq<State>, i: nat, h: nat)
    requires IsRun(es, ss) && i <= |es| && LeavesAlone(es, h) && NoRestart(es)
    requires AtRest(ss[0], h)
    ensures AtRest(ss[i], h) && (Agrees(ss[i], h) <==> Agrees(ss[0], h))
  {
    if i == 0 {
    } else {
      OnlyRestartRepairs(es, ss, i - 1, h);
      assert Enabled(ss[i - 1], es[i - 1]) && ss[i] == Next(ss[i - 1], es[i - 1]);
      RestStep(ss[i - 1], es[i - 1], h);
    }
  }

  /** Losing the job of a deletion leaves the hotel in the index, from any quiet state that agrees. */
  lemma LostDeleteLeavesDocument(start: State, s: State, h: nat) returns (s': State)
    requires Reaches(start, s) && Quiet(s) && Active(s, h) && h in s.index
    ensures Reaches(start, s') && Quiet(s') && Settled(s', h) && h in s'.lost
    ensures h in s'.hotels && !Active(s', h) && h in s'.index
  {
    Step(start, s, Delete(h));
    var deleted := Next(s, Delete(h));
    Step(start, deleted, EnqueueFails(0));
    s' := Next(deleted, EnqueueFails(0));
    assert InHand(s'.hand) + Waiting(s') == [];
  }

  /** It happens: a hotel is created, indexed and deleted, the delete job is lost, and no run takes it out again. */
  lemma LostDeleteHappens(row: Hotel) returns (start: State, s: State)
    requires !row.deleted
    ensures IsStart(start) && Reaches(start, s) && Settled(s, 0) && !Active(s, 0) && 0 in s.index
    ensures !Repairable(s, 0)
  {
    start := State(map[], map[], [], [], Empty, Booting, map[], map[], {});
    ReachesItself(start);
    Step(start, start, StartWorker);
    var s0 := start.(phase := Serving);
    assert Next(start, StartWorker) == s0;
    CreateRuns(start, s0, 0, row);
    var s1 := WrittenAndIndexed(s0, 0, row);
    s := LostDeleteLeavesDocument(start, s1, 0);
    RepairableIffActiveOrAbsent(s, 0);
  }
}
