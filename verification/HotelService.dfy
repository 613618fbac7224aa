/**
 The hotel service and its index worker as their code runs when nothing interleaves, with the outcome of
 every request as a parameter. `Reached` ties each call to the runs of the index protocol.
 */
module HotelService {
  import opened Wrappers
  import opened HotelDocument
  import opened HotelIndex

  /** The fields an update may set. */
  datatype HotelUpdate = HotelUpdate(name: Option<string>, address: Option<string>, location: Option<string>,
                                     rating: Option<int>, ratingCount: Option<int>)

  /** How indexing one hotel goes wrong, if it does; a request may take effect and still report failure. */
  datatype IndexFault = NoFault | ReadFails | RequestFails(tookEffect: bool)

  function OrElse<T>(change: Option<T>, current: Option<T>): Option<T> {
    if change.Some? then change else current
  }

  /** The row with the given fields assigned. */
  function Assigned(row: Hotel, data: HotelUpdate): Hotel {
    Hotel(data.name.GetOr(row.name), data.address.GetOr(row.address), data.location.GetOr(row.location),
          OrElse(data.rating, row.rating), OrElse(data.ratingCount, row.ratingCount), row.deleted)
  }

  /** Each field that is given has the given value; every other field is as it was, the deletion mark among them. */
  predicate IsUpdateOf(after: Hotel, before: Hotel, data: HotelUpdate) {
    && after.name == (if data.name.Some? then data.name.value else before.name)
    && after.address == (if data.address.Some? then data.address.value else before.address)
    && after.location == (if data.location.Some? then data.location.value else before.location)
    && after.rating == (if data.rating.Some? then data.rating else before.rating)
    && after.ratingCount == (if data.ratingCount.Some? then data.ratingCount else before.ratingCount)
    && after.deleted == before.deleted
  }

  /** `s` is reachable from an empty system. */
  ghost predicate Reached(s: State) {
    exists start :: IsStart(start) && Reaches(start, s)
  }

  lemma ReachedStep(s: State, e: Event)
    requires Reached(s) && Enabled(s, e)
    ensures Reached(Next(s, e))
  {
    var start :| IsStart(start) && Reaches(start, s);
    Step(start, s, e);
  }

  lemma ReachedInv(s: State, h: nat)
    requires Reached(s)
    ensures Inv(s, h)
  {
    var start :| IsStart(start) && Reaches(start, s);
    var es, ss :| IsRun(es, ss) && ss[0] == start && ss[|es|] == s;
    RunKeepsInv(es, ss, |es|, h);
  }

  /** The request of one job throws before it takes effect, or the row cannot be read. */
  predicate Fails(job: Job, fault: IndexFault, hotels: map<nat, Hotel>) {
    if job.action == DELETE then fault == RequestFails(false)
    else fault.ReadFails? || (fault == RequestFails(false) && job.hotelId in hotels)
  }

  /** Serving, with a job queued and nothing else under way. */
  ghost predicate JobReady(s: State) {
    Reached(s) && s.phase.Serving? && s.hand.Empty? && s.outbox == [] && s.queue != []
  }

  lemma ReachedFailed(s: State)
    requires JobReady(s)
    ensures Reached(s.(queue := s.queue[1..], lost := Lose(s.lost, s.queue[0].hotelId, s.queue[1..])))
  {
    ReachedStep(s, TakeJob);
    var s' := Next(s, TakeJob);
    ReachedStep(s', JobFails(false));
    assert Waiting(s') == s.queue[1..];
    assert Next(s', JobFails(false)) == s.(queue := s.queue[1..], lost := Lose(s.lost, s.queue[0].hotelId, s.queue[1..]));
  }

  lemma ReachedDeleted(s: State)
    requires JobReady(s) && s.queue[0].action == DELETE
    ensures Reached(s.(queue := s.queue[1..], index := s.index - {s.queue[0].hotelId}))
  {
    ReachedStep(s, TakeJob);
    var s' := Next(s, TakeJob);
    ReachedStep(s', DeleteDoc(true));
    assert Next(s', DeleteDoc(true)) == s.(queue := s.queue[1..], index := s.index - {s.queue[0].hotelId});
  }

  lemma ReachedSkipped(s: State)
    requires JobReady(s) && s.queue[0].action == INDEX && s.queue[0].hotelId !in s.hotels
    ensures Reached(s.(queue := s.queue[1..]))
  {
    ReachedStep(s, TakeJob);
    var s' := Next(s, TakeJob);
    ReachedStep(s', ReadRow);
    assert Next(s', ReadRow) == s.(queue := s.queue[1..]);
  }

  lemma ReachedIndexed(s: State)
    requires JobReady(s) && s.queue[0].action == INDEX && s.queue[0].hotelId in s.hotels
    ensures var h := s.queue[0].hotelId; Reached(s.(queue := s.queue[1..], index := s.index[h := DocOf(s, h)]))
  {
    ReachedStep(s, TakeJob);
    var s1 := Next(s, TakeJob);
    ReachedStep(s1, ReadRow);
    var s2 := Next(s1, ReadRow);
    ReachedStep(s2, WriteDoc(true));
    var h := s.queue[0].hotelId;
    assert Next(s2, WriteDoc(true)) == s.(queue := s.queue[1..], index := s.index[h := DocOf(s, h)]);
  }

  /** Where the oldest job leaves the system. */
  function AfterJob(s: State, fault: IndexFault): State
    requires s.queue != []
  {
    var job, rest := s.queue[0], s.queue[1..];
    if Fails(job, fault, s.hotels) then s.(queue := rest, lost := Lose(s.lost, job.hotelId, rest))
    else if job.action == DELETE then s.(queue := rest, index := s.index - {job.hotelId})
    else if job.hotelId in s.hotels then s.(queue := rest, index := s.index[job.hotelId := DocOf(s, job.hotelId)])
    else s.(queue := rest)
  }

  lemma ReachedAfterJob(s: State, fault: IndexFault)
    requires JobReady(s)
    ensures Reached(AfterJob(s, fault))
  {
    if Fails(s.queue[0], fault, s.hotels) {
      ReachedFailed(s);
    } else if s.queue[0].action == DELETE {
      ReachedDeleted(s);
    } else if s.queue[0].hotelId in s.hotels {
      ReachedIndexed(s);
    } else {
      ReachedSkipped(s);
    }
  }

  // ---------------------------------------------------------------- the result of the startup sync

  function FaultOf(faults: map<nat, IndexFault>, hotelId: nat): IndexFault {
    if hotelId in faults then faults[hotelId] else NoFault
  }

  /** The document of the hotel is written, even if the request then reports failure. */
  predicate Takes(fault: IndexFault) {
    fault.NoFault? || fault == RequestFails(true)
  }

  predicate IsAsIn(index: map<nat, HotelDoc>, before: map<nat, HotelDoc>, h: nat) {
    (h in index <==> h in before) && (h in index ==> index[h] == before[h])
  }

  /** The index after the listed hotels have been indexed in turn. */
  ghost function Synced(s: State, ids: seq<nat>, faults: map<nat, IndexFault>): map<nat, HotelDoc> {
    if ids == [] then s.index
    else
      var h, index := ids[|ids| - 1], Synced(s, ids[..|ids| - 1], faults);
      if h in s.hotels && Takes(FaultOf(faults, h)) then index[h := DocOf(s, h)] else index
  }

  lemma {:induction false} SyncedContents(s: State, ids: seq<nat>, faults: map<nat, IndexFault>, h: nat)
    requires forall i :: 0 <= i < |ids| ==> ids[i] in s.hotels
    ensures var index := Synced(s, ids, faults);
            if h in ids && Takes(FaultOf(faults, h)) then h in index && index[h] == DocOf(s, h) else IsAsIn(index, s.index, h)
  {
    if ids == [] {
    } else {
      SyncedContents(s, ids[..|ids| - 1], faults, h);
      assert ids == ids[..|ids| - 1] + [ids[|ids| - 1]];
    }
  }

  ghost function Indexable(ids: seq<nat>, faults: map<nat, IndexFault>): set<nat> {
    set h | h in ids && FaultOf(faults, h).NoFault?
  }

  lemma OneMoreIndexable(ids: seq<nat>, h: nat, faults: map<nat, IndexFault>)
    requires h !in ids
    ensures |Indexable(ids + [h], faults)| == |Indexable(ids, faults)| + if FaultOf(faults, h).NoFault? then 1 else 0
  {
    if FaultOf(faults, h).NoFault? {
      assert Indexable(ids + [h], faults) == Indexable(ids, faults) + {h};
    } else {
      assert Indexable(ids + [h], faults) == Indexable(ids, faults);
    }
  }

  lemma SyncedOneMore(s: State, ids: seq<nat>, h: nat, faults: map<nat, IndexFault>)
    requires h in s.hotels
    ensures Synced(s, ids + [h], faults)
         == if Takes(FaultOf(faults, h)) then Synced(s, ids, faults)[h := DocOf(s, h)] else Synced(s, ids, faults)
  {
    assert (ids + [h])[..|ids|] == ids;
  }

  /** The first `i` of the listed hotels have been indexed, `indexed` of them successfully. */
  ghost predicate SyncedUpTo(s: State, ids: seq<nat>, i: nat, faults: map<nat, IndexFault>, index: map<nat, HotelDoc>, indexed: nat) {
    i <= |ids| && index == Synced(s, ids[..i], faults) && indexed == |Indexable(ids[..i], faults)|
  }

  lemma SyncedNext(s: State, ids: seq<nat>, i: nat, faults: map<nat, IndexFault>, index: map<nat, HotelDoc>, indexed: nat)
    requires i < |ids| && ids[i] in s.hotels && SyncedUpTo(s, ids, i, faults, index, indexed)
    requires forall j, k :: 0 <= j < k < |ids| ==> ids[j] != ids[k]
    ensures var fault := FaultOf(faults, ids[i]);
            SyncedUpTo(s, ids, i + 1, faults, if Takes(fault) then index[ids[i] := DocOf(s, ids[i])] else index,
                       if fault.NoFault? then indexed + 1 else indexed)
  {
    assert ids[..i + 1] == ids[..i] + [ids[i]];
    OneMoreIndexable(ids[..i], ids[i], faults);
    SyncedOneMore(s, ids[..i], ids[i], faults);
  }

  lemma SyncResult(s: State, ids: seq<nat>, faults: map<nat, IndexFault>)
    requires forall h: nat :: h in ids <==> Active(s, h)
    ensures Indexable(ids, faults) == set h | h in s.hotels && !s.hotels[h].deleted && FaultOf(faults, h).NoFault?
    ensures forall h: nat ::
              if Active(s, h) && Takes(FaultOf(faults, h))
              then h in Synced(s, ids, faults) && Synced(s, ids, faults)[h] == DocOf(s, h)
              else IsAsIn(Synced(s, ids, faults), s.index, h)
  {
    forall i | 0 <= i < |ids|
      ensures ids[i] in s.hotels
    {
      assert ids[i] in ids;
    }
    forall h: nat {
      SyncedContents(s, ids, faults, h);
    }
  }

  /** The sync has read the row of `h`. */
  function SyncHasRead(s: State, h: nat): State
    requires s.phase.Syncing? && h in s.hotels
  {
    s.(hand := SyncDoc(h, DocOf(s, h), Heals(s, h)), phase := Syncing(s.phase.todo - {h}),
       lost := if Heals(s, h) then s.lost - {h} else s.lost)
  }

  lemma ReachedSyncRead(s: State, h: nat)
    requires Reached(s) && s.phase.Syncing? && s.hand.Empty? && h in s.phase.todo && h in s.hotels
    ensures Reached(SyncHasRead(s, h))
  {
    ReachedStep(s, SyncRead(h));
    assert Next(s, SyncRead(h)) == SyncHasRead(s, h);
  }

  lemma ReachedSyncWritten(s: State, h: nat)
    requires Reached(s) && s.phase.Syncing? && s.hand.Empty? && h in s.phase.todo && h in s.hotels
    ensures Reached(SyncHasRead(s, h).(hand := Empty, index := s.index[h := DocOf(s, h)]))
  {
    ReachedSyncRead(s, h);
    var read := SyncHasRead(s, h);
    ReachedStep(read, SyncWrite);
    assert Next(read, SyncWrite) == read.(hand := Empty, index := s.index[h := DocOf(s, h)]);
  }

  lemma ReachedSyncFailed(s: State, h: nat)
    requires Reached(s) && s.phase.Syncing? && s.hand.Empty? && h in s.phase.todo && h in s.hotels
    ensures Reached(s.(phase := Syncing(s.phase.todo - {h})))
  {
    ReachedSyncRead(s, h);
    var read := SyncHasRead(s, h);
    ReachedStep(read, SyncFails);
    assert (if Heals(s, h) then s.lost - {h} + {h} else s.lost) == s.lost;
    assert Next(read, SyncFails) == s.(phase := Syncing(s.phase.todo - {h}));
  }

  class HotelService {
    var hotels: map<nat, Hotel>
    var nextId: nat
    const categories: map<nat, seq<RoomCategory>>
    var queue: seq<Job>
    var index: map<nat, HotelDoc>
    ghost var phase: Phase
    ghost var lastAction: map<nat, Action>
    ghost var lost: set<nat>

    /** Between calls no request is under way. */
    ghost function Contents(): State
      reads this
    {
      State(hotels, categories, [], queue, Empty, phase, index, lastAction, lost)
    }

    ghost predicate Valid()
      reads this
    {
      Reached(Contents()) && forall h :: h in hotels ==> h < nextId
    }

    constructor (categories: map<nat, seq<RoomCategory>>)
      ensures Valid() && hotels == map[] && queue == [] && index == map[] && this.categories == categories
    {
      this.categories := categories;
      hotels, nextId, queue, index := map[], 0, [], map[];
      phase, lastAction, lost := Booting, map[], {};
      new;
      ReachesItself(Contents());
    }

    /** The job is queued, unless the queue cannot be reached: then the mutation stands and the job is lost. */
    method ScheduleIndex(hotelId: nat, action: Action, queueUp: bool, ghost mutated: State)
      requires Reached(mutated) && mutated == Contents().(outbox := [Job(action, hotelId)])
      modifies this`queue, this`lost
      ensures Reached(Contents())
      ensures queue == if queueUp then old(queue) + [Job(action, hotelId)] else old(queue)
      ensures lost == if queueUp then old(lost) else old(lost) + {hotelId}
    {
      if queueUp {
        ReachedStep(mutated, Enqueue(0));
        queue := queue + [Job(action, hotelId)];
        assert Contents() == Next(mutated, Enqueue(0));
      } else {
        ReachedStep(mutated, EnqueueFails(0));
        lost := Lose(lost, hotelId, []);
        assert Contents() == Next(mutated, EnqueueFails(0));
      }
    }

    /** The history of `h` after a mutation of the given kind. */
    ghost predicate Noted(lastAction0: map<nat, Action>, lost0: set<nat>, h: nat, action: Action, queueUp: bool)
      reads this`lastAction, this`lost
    {
      lastAction == lastAction0[h := action] && lost == if queueUp then lost0 - {h} else lost0 + {h}
    }

    method CreateHotel(data: Hotel, queueUp: bool) returns (hotelId: nat)
      requires Valid() && !data.deleted
      modifies this
      ensures Valid() && index == old(index) && phase == old(phase)
      ensures hotelId !in old(hotels) && hotels == old(hotels)[hotelId := data]
      ensures queue == if queueUp then old(queue) + [Job(INDEX, hotelId)] else old(queue)
      ensures Noted(old(lastAction), old(lost), hotelId, INDEX, queueUp)
    {
      hotelId := nextId;
      ghost var mutated := Next(Contents(), Create(hotelId, data));
      ReachedStep(Contents(), Create(hotelId, data));
      hotels, nextId := hotels[hotelId := data], nextId + 1;
      lastAction, lost := lastAction[hotelId := INDEX], lost - {hotelId};
      ScheduleIndex(hotelId, INDEX, queueUp, mutated);
    }

    /** A deleted hotel is updated and queued like any other. */
    method UpdateHotel(id: nat, data: HotelUpdate, queueUp: bool) returns (r: Result<Hotel>)
      requires Valid()
      modifies this
      ensures Valid() && index == old(index) && phase == old(phase)
      ensures r.Ok? <==> id in old(hotels)
      ensures r.Ok? ==>
                && IsUpdateOf(r.value, old(hotels)[id], data) && hotels == old(hotels)[id := r.value]
                && Noted(old(lastAction), old(lost), id, INDEX, queueUp)
                && queue == if queueUp then old(queue) + [Job(INDEX, id)] else old(queue)
      ensures r.Err? ==> Contents() == old(Contents())
    {
      if id !in hotels {
        return Err(InternalServer);
      }
      var record := Assigned(hotels[id], data);
      ghost var mutated := Next(Contents(), Update(id, record));
      ReachedStep(Contents(), Update(id, record));
      hotels := hotels[id := record];
      lastAction, lost := lastAction[id := INDEX], lost - {id};
      ScheduleIndex(id, INDEX, queueUp, mutated);
      return Ok(record);
    }

    method SoftDeleteHotel(id: nat, queueUp: bool) returns (r: Result<bool>)
      requires Valid()
      modifies this
      ensures Valid() && index == old(index) && phase == old(phase)
      ensures r == if id in old(hotels) then Ok(true) else Err(NotFound)
      ensures r.Ok? ==>
                && hotels == old(hotels)[id := old(hotels)[id].(deleted := true)]
                && Noted(old(lastAction), old(lost), id, DELETE, queueUp)
                && queue == if queueUp then old(queue) + [Job(DELETE, id)] else old(queue)
      ensures r.Err? ==> Contents() == old(Contents())
    {
      if id !in hotels {
        return Err(NotFound);
      }
      ghost var mutated := Next(Contents(), HotelIndex.Delete(id));
      ReachedStep(Contents(), HotelIndex.Delete(id));
      hotels := hotels[id := hotels[id].(deleted := true)];
      lastAction, lost := lastAction[id := DELETE], lost - {id};
      ScheduleIndex(id, DELETE, queueUp, mutated);
      return Ok(true);
    }

    /** The active hotels, each once. */
    method FindAll() returns (ids: seq<nat>)
      requires Valid()
      ensures forall h: nat :: h in ids <==> Active(Contents(), h)
      ensures forall i, j :: 0 <= i < j < |ids| ==> ids[i] != ids[j]
    {
      ids := [];
      for id := 0 to nextId
        invariant forall h: nat :: h in ids <==> h < id && Active(Contents(), h)
        invariant forall i :: 0 <= i < |ids| ==> ids[i] < id
        invariant forall i, j :: 0 <= i < j < |ids| ==> ids[i] != ids[j]
      {
        if id in hotels && !hotels[id].deleted {
          ids := ids + [id];
        }
      }
    }

    // -------------------------------------------------------------- the worker

    function CategoriesOf(hotelId: nat): seq<RoomCategory> {
      if hotelId in categories then categories[hotelId] else []
    }

    /** The document of the current row. */
    ghost function CurrentDoc(h: nat): HotelDoc
      requires h in hotels
      reads this`hotels
    {
      TransformHotelToESDoc(h, hotels[h], CategoriesOf(h))
    }

    /** The index holds the hotel with its row as it is now, field by field, and a summary of its categories. */
    ghost predicate IsCurrentDoc(h: nat)
      reads this
    {
      h in index && h in hotels && IsDocumentOf(index[h], h, hotels[h], if h in categories then categories[h] else [])
    }

    lemma CurrentDocs(h: nat)
      requires h in hotels
      ensures h in index && index[h] == CurrentDoc(h) ==> IsCurrentDoc(h)
    {
      DocumentSummarisesCategories(h, hotels[h], CategoriesOf(h));
    }

    /**
     The oldest job: unless it fails, the document is taken out, or put in as of the row as it is now. A failed
     job is not retried: its change is lost unless a later job of its hotel follows.
     */
    method HandleJob(fault: IndexFault) returns (job: Job)
      requires Valid() && phase.Serving? && queue != []
      modifies this`queue, this`index, this`lost
      ensures Valid()
      ensures [job] + queue == old(queue)
      ensures lost == if Fails(job, fault, hotels) then Lose(old(lost), job.hotelId, queue) else old(lost)
      ensures index == if Fails(job, fault, hotels) || (job.action == INDEX && job.hotelId !in hotels) then old(index)
                       else if job.action == DELETE then old(index) - {job.hotelId}
                       else old(index)[job.hotelId := CurrentDoc(job.hotelId)]
      ensures job.action == DELETE && fault != RequestFails(false) ==> index == old(index) - {job.hotelId}
      ensures job.action == INDEX && job.hotelId in hotels && fault !in {ReadFails, RequestFails(false)} ==>
                IsCurrentDoc(job.hotelId) && index == old(index)[job.hotelId := index[job.hotelId]]
    {
      ghost var after := AfterJob(Contents(), fault);
      ReachedAfterJob(Contents(), fault);
      job := queue[0];
      queue := queue[1..];
      var hotelId := job.hotelId;
      if job.action == DELETE {
        if fault == RequestFails(false) {
          lost := Lose(lost, hotelId, queue);
        } else {
          index := index - {hotelId};
        }
      } else if fault.ReadFails? {
        lost := Lose(lost, hotelId, queue);
      } else if hotelId in hotels {
        var doc := TransformHotelToESDoc(hotelId, hotels[hotelId], CategoriesOf(hotelId));
        if fault == RequestFails(false) {
          lost := Lose(lost, hotelId, queue);
        } else {
          index := index[hotelId := doc];
          CurrentDocs(hotelId);
        }
      }
      assert Contents() == after;
    }

    /**
     Once the worker has emptied the queue without a failure, every hotel whose latest job was not lost agrees
     with the table, unless it was updated after its deletion.
     */
    method HandleAllJobs()
      requires Valid() && phase.Serving?
      modifies this`queue, this`index, this`lost
      ensures Valid() && queue == [] && lost == old(lost)
      ensures forall h: nat :: h !in lost ==>
                (Agrees(Contents(), h) <==> !(LastWasIndex(Contents(), h) && !Active(Contents(), h)))
    {
      while queue != []
        invariant Valid() && phase.Serving? && lost == old(lost)
        decreases |queue|
      {
        var _ := HandleJob(NoFault);
      }
      forall h: nat | h !in lost
        ensures Agrees(Contents(), h) <==> !(LastWasIndex(Contents(), h) && !Active(Contents(), h))
      {
        ReachedInv(Contents(), h);
      }
    }

    // -------------------------------------------------------------- the startup sync

    /** For a hotel on the list being synced, which may have been deleted since, or be gone. */
    method IndexHotelNow(hotelId: nat, fault: IndexFault) returns (ok: bool)
      requires Valid() && phase.Syncing? && hotelId in phase.todo
      modifies this`index, this`phase, this`lost
      ensures Valid() && phase.Syncing? && old(phase).todo - {hotelId} <= phase.todo
      ensures index == if hotelId in hotels && Takes(fault) then old(index)[hotelId := CurrentDoc(hotelId)] else old(index)
      ensures ok <==> fault.NoFault? || (hotelId !in hotels && !fault.ReadFails?)
      ensures hotelId in hotels && fault !in {ReadFails, RequestFails(false)} ==>
                IsCurrentDoc(hotelId)
    {
      if fault.ReadFails? {
        return false;
      }
      if hotelId !in hotels {
        return true;
      }
      ghost var s := Contents();
      phase := Syncing(phase.todo - {hotelId});
      var doc := TransformHotelToESDoc(hotelId, hotels[hotelId], CategoriesOf(hotelId));
      if fault == RequestFails(false) {
        ReachedSyncFailed(s, hotelId);
        return false;
      }
      ReachedSyncWritten(s, hotelId);
      lost := SyncHasRead(s, hotelId).lost;
      index := index[hotelId := doc];
      CurrentDocs(hotelId);
      return fault.NoFault?;
    }

    /** The query the sync starts from. */
    method ListActiveHotels() returns (ids: seq<nat>)
      requires Valid() && phase.Booting?
      modifies this`phase
      ensures Valid() && phase.Syncing?
      ensures forall i :: 0 <= i < |ids| ==> Active(Contents(), ids[i]) && ids[i] in phase.todo
      ensures forall h: nat :: Active(Contents(), h) ==> h in ids
      ensures forall i, j :: 0 <= i < j < |ids| ==> ids[i] != ids[j]
    {
      ids := FindAll();
      ghost var s := Next(Contents(), ListActive);
      ReachedStep(Contents(), ListActive);
      phase := s.phase;
      assert Contents() == s;
      forall i | 0 <= i < |ids|
        ensures Active(Contents(), ids[i])
      {
        assert ids[i] in ids;
      }
    }

    /**
     The sync writes the current document of every active hotel whose request takes effect, touches no other
     document (not even one of a deleted hotel), and counts the successes.
     */
    method SyncAllHotelsToES(faults: map<nat, IndexFault>) returns (indexed: nat)
      requires Valid() && phase.Booting?
      modifies this`index, this`phase, this`lost
      ensures Valid() && phase.Syncing?
      ensures indexed == |set h | h in hotels && !hotels[h].deleted && FaultOf(faults, h).NoFault?|
      ensures forall h: nat ::
                if Active(Contents(), h) && Takes(FaultOf(faults, h))
                then IsCurrentDoc(h) && index[h] == CurrentDoc(h) else IsAsIn(index, old(index), h)
    {
      var ids := ListActiveHotels();
      ghost var s := Contents();
      indexed := SyncHotels(ids, faults);
      SyncResult(s, ids, faults);
      forall h | h in hotels {
        CurrentDocs(h);
      }
    }

    /** The loop over the listed hotels goes on whatever happens to one of them. */
    method SyncHotels(ids: seq<nat>, faults: map<nat, IndexFault>) returns (indexed: nat)
      requires Valid() && phase.Syncing?
      requires forall i :: 0 <= i < |ids| ==> ids[i] in hotels && ids[i] in phase.todo
      requires forall i, j :: 0 <= i < j < |ids| ==> ids[i] != ids[j]
      modifies this`index, this`phase, this`lost
      ensures Valid() && phase.Syncing?
      ensures index == Synced(old(Contents()), ids, faults)
      ensures indexed == |Indexable(ids, faults)|
    {
      indexed := 0;
      ghost var s := Contents();
      for i := 0 to |ids|
        invariant Valid() && phase.Syncing?
        invariant forall j :: i <= j < |ids| ==> ids[j] in phase.todo
        invariant SyncedUpTo(s, ids, i, faults, index, indexed)
      {
        SyncedNext(s, ids, i, faults, index, indexed);
        var ok := IndexHotelNow(ids[i], FaultOf(faults, ids[i]));
        if ok {
          indexed := indexed + 1;
        }
      }
      assert ids[..|ids|] == ids;
    }

    /** At startup: the sync, unless the search engine cannot be reached; then the worker, in any case. */
    method SetupHotelIndexWorker(engineUp: bool, faults: map<nat, IndexFault>)
      requires Valid() && phase.Booting?
      modifies this`index, this`phase, this`lost
      ensures Valid() && phase.Serving?
      ensures forall h: nat ::
                if engineUp && Active(Contents(), h) && Takes(FaultOf(faults, h))
                then IsCurrentDoc(h) && index[h] == CurrentDoc(h) else IsAsIn(index, old(index), h)
    {
      if engineUp {
        var _ := SyncAllHotelsToES(faults);
      }
      ReachedStep(Contents(), StartWorker);
      ghost var s := Next(Contents(), StartWorker);
      phase := Serving;
      assert Contents() == s;
    }
  }
}
