// DBImpl::Write and BuildBatchGroup: writers queue up, and the one at the head commits a group of them
// with the mutex released. A step is the region between two points where the mutex is released, or one
// of the leader's actions without it.
module GroupCommit {
  import opened Options
  import opened Entries

  datatype Op = Op(key: int, kind: ValueType, value: string)

  // A write batch and the size of its representation in bytes
  datatype Batch = Batch(ops: seq<Op>, size: nat)

  datatype Status = OK | Error(code: nat)

  // What the leader has done for its group so far: nothing, added its record to the log, inserted that
  // many operations (after syncing, if it has to), or failed
  datatype Stage = Unlogged | Unsynced | Applying(inserted: nat) | Broken(code: nat, syncing: bool)

  datatype Place =
    | Asleep                              // in cv.Wait
    | Awake                               // signalled, arrived, or woken for no reason
    | MakingRoom                          // in MakeRoomForWrite
    | Committing(n: nat, stage: Stage)    // for the first n writers of the queue, the mutex released
    | Returned(result: Status)

  datatype Writer = Writer(batch: Option<Batch>, sync: bool, done: bool, status: Status, place: Place)

  // The sequence numbers a writer's batch was given, and whether it took effect
  datatype Range = Range(id: nat, first: nat, ops: seq<Op>, ok: bool)

  datatype State = State(
    queue: seq<nat>,                      // writers_
    writers: map<nat, Writer>,
    last: nat,                            // last_sequence_
    error: Option<nat>,                   // bg_error_
    mem: set<Entry>,
    arrivals: seq<nat>,                   // history: the writers in order of arrival
    results: seq<(nat, Status)>,          // history: those finished, in order
    ranges: seq<Range>,                   // history
    durable: set<nat>,                    // history: the writers whose batches a sync has covered
    snapshots: set<nat>                   // history: the sequence numbers readers have started from
  )

  function Initial(last: nat): State {
    State([], map[], last, None, {}, [], [], [], {}, {})
  }

  // ---- BuildBatchGroup ----

  // Small first batches limit the growth of their group
  function MaxSize(first: nat): nat {
    if first <= 0x2_0000 then first + 0x2_0000 else 0x10_0000
  }

  function SizeOf(w: Writer): nat {
    if w.batch.Some? then w.batch.value.size else 0
  }

  ghost predicate Known(queue: seq<nat>, writers: map<nat, Writer>) {
    forall id :: id in queue ==> id in writers
  }

  ghost predicate Distinct(q: seq<nat>) {
    forall i, j :: 0 <= i < j < |q| ==> q[i] != q[j]
  }

  function SizeUpTo(queue: seq<nat>, writers: map<nat, Writer>, n: nat): nat
    requires n <= |queue| && Known(queue, writers)
  {
    if n == 0 then 0 else SizeUpTo(queue, writers, n - 1) + SizeOf(writers[queue[n - 1]])
  }

  // The i-th writer may not ride along with the first
  predicate Stops(queue: seq<nat>, writers: map<nat, Writer>, i: nat)
    requires 0 < i < |queue| && Known(queue, writers)
  {
    var first, w := writers[queue[0]], writers[queue[i]];
    (w.sync && !first.sync) || (w.batch.Some? && SizeUpTo(queue, writers, i + 1) > MaxSize(SizeOf(first)))
  }

  // The group is the longest prefix of the queue without a writer that stops it
  ghost predicate IsGroup(queue: seq<nat>, writers: map<nat, Writer>, n: nat)
    requires Known(queue, writers)
  {
    && 1 <= n <= |queue|
    && (forall i :: 0 < i < n ==> !Stops(queue, writers, i))
    && (n < |queue| ==> Stops(queue, writers, n))
  }

  function Ops(ids: seq<nat>, writers: map<nat, Writer>): seq<Op>
    requires Known(ids, writers)
  {
    if ids == [] then []
    else
      var id := ids[|ids| - 1];
      Ops(ids[..|ids| - 1], writers) + if writers[id].batch.Some? then writers[id].batch.value.ops else []
  }

  // BuildBatchGroup: last_writer is the n-th of the queue
  method BuildBatchGroup(queue: seq<nat>, writers: map<nat, Writer>) returns (n: nat, result: seq<Op>)
    requires queue != [] && Known(queue, writers) && writers[queue[0]].batch.Some?
    ensures IsGroup(queue, writers, n) && result == Ops(queue[..n], writers)
  {
    var first := writers[queue[0]];
    result := first.batch.value.ops;
    var size := first.batch.value.size;
    var maxSize := 0x10_0000;
    if size <= 0x2_0000 {
      maxSize := size + 0x2_0000;
    }
    n := 1;
    assert SizeUpTo(queue, writers, 1) == SizeUpTo(queue, writers, 0) + size;
    assert queue[..1][..0] == [] && queue[..1] == [queue[0]];
    while n < |queue|
      invariant 1 <= n <= |queue| && forall i :: 0 < i < n ==> !Stops(queue, writers, i)
      invariant size == SizeUpTo(queue, writers, n) && maxSize == MaxSize(SizeOf(first))
      invariant result == Ops(queue[..n], writers)
    {
      var w := writers[queue[n]];
      if w.sync && !first.sync {
        break;
      }
      assert queue[..n + 1][..n] == queue[..n];
      if w.batch.Some? {
        size := size + w.batch.value.size;
        if size > maxSize {
          break;
        }
        result := result + w.batch.value.ops;
      }
      n := n + 1;
    }
  }

  // ---- Steps ----

  function Numbered(ops: seq<Op>, first: nat): (es: seq<Entry>)
    ensures |es| == |ops|
  {
    seq(|ops|, i requires 0 <= i < |ops| => Entry(ops[i].key, first + i, ops[i].kind, ops[i].value))
  }

  // The ranges of a group's batches
  function RangesOf(ids: seq<nat>, writers: map<nat, Writer>, first: nat, ok: bool): seq<Range>
    requires Known(ids, writers)
  {
    if ids == [] then []
    else
      var id, init := ids[|ids| - 1], ids[..|ids| - 1];
      RangesOf(init, writers, first, ok) +
      if writers[id].batch.Some? then [Range(id, first + |Ops(init, writers)|, writers[id].batch.value.ops, ok)] else []
  }

  function Move(s: State, id: nat, place: Place): State
    requires id in s.writers
  {
    s.(writers := s.writers[id := s.writers[id].(place := place)])
  }

  function Arrive(s: State, id: nat, batch: Option<Batch>, sync: bool): State {
    s.(queue := s.queue + [id], arrivals := s.arrivals + [id],
       writers := s.writers[id := Writer(batch, sync, false, OK, Awake)])
  }

  // The condition of the wait loop
  function Check(s: State, id: nat): State
    requires id in s.writers
  {
    var w := s.writers[id];
    if w.done then Move(s, id, Returned(w.status))
    else if s.queue != [] && s.queue[0] == id then Move(s, id, MakingRoom)
    else Move(s, id, Asleep)
  }

  function Results(ids: seq<nat>, status: Status): seq<(nat, Status)> {
    seq(|ids|, i requires 0 <= i < |ids| => (ids[i], status))
  }

  function Woken(w: Writer): Writer {
    if w.place.Asleep? then w.(place := Awake) else w
  }

  // Of the writers the leader takes off the queue it returns itself and the others are done; the new
  // head wakes.
  function Popped(queue: seq<nat>, w: Writer, id: nat, n: nat, status: Status): Writer
    requires 0 < n <= |queue|
  {
    if id == queue[0] then w.(place := Returned(status))
    else if id in queue[..n] then Woken(w).(done := true, status := status)
    else if n < |queue| && id == queue[n] then Woken(w)
    else w
  }

  ghost function Pop(s: State, n: nat, status: Status): State
    requires 0 < n <= |s.queue|
  {
    s.(queue := s.queue[n..], results := s.results + Results(s.queue[..n], status),
       writers := map id | id in s.writers :: Popped(s.queue, s.writers[id], id, n, status))
  }

  // The leader, with room in the memtable: without a batch it is done, else it unlocks to commit n writers
  ghost function Lead(s: State, id: nat, n: nat): State
    requires id in s.writers && s.queue != []
  {
    if s.writers[id].batch.None? then Pop(s, 1, OK) else Move(s, id, Committing(n, Unlogged))
  }

  // A sync covers everything in the log so far
  function Sync(s: State, id: nat): State
    requires id in s.writers && s.writers[id].place.Committing? && s.writers[id].place.n <= |s.queue|
  {
    var n := s.writers[id].place.n;
    Move(s, id, Committing(n, Applying(0))).(durable := s.durable + (set x | x in s.queue[..n]))
  }

  function InsertOne(s: State, id: nat): State
    requires Known(s.queue, s.writers) && id in s.writers && s.writers[id].place.Committing? && s.writers[id].place.n <= |s.queue|
    requires s.writers[id].place.stage.Applying?
    requires s.writers[id].place.stage.inserted < |Ops(s.queue[..s.writers[id].place.n], s.writers)|
  {
    var Committing(n, Applying(inserted)) := s.writers[id].place;
    var e := Numbered(Ops(s.queue[..n], s.writers), s.last + 1)[inserted];
    Move(s, id, Committing(n, Applying(inserted + 1))).(mem := s.mem + {e})
  }

  // The mutex again: the sequence numbers are published whatever the status
  ghost function Published(s: State, n: nat, stage: Stage): State
    requires Known(s.queue, s.writers) && n <= |s.queue|
  {
    var ids := s.queue[..n];
    s.(last := s.last + |Ops(ids, s.writers)|,
       error := if stage.Broken? && stage.syncing && s.error.None? then Some(stage.code) else s.error,
       ranges := s.ranges + RangesOf(ids, s.writers, s.last + 1, stage.Applying?))
  }

  ghost function Finish(s: State, n: nat, stage: Stage): State
    requires Known(s.queue, s.writers) && 0 < n <= |s.queue|
  {
    Pop(Published(s, n, stage), n, if stage.Broken? then Error(stage.code) else OK)
  }

  datatype Step =
    | Arriving(id: nat, batch: Option<Batch>, sync: bool)
    | Checking(id: nat)
    | Waking(id: nat)
    | NoRoom(id: nat, code: nat)
    | Leading(id: nat, n: nat)
    | Logging(id: nat)
    | LogFailing(id: nat, code: nat)
    | Syncing(id: nat)
    | SyncFailing(id: nat, code: nat)
    | Inserting(id: nat)
    | Finishing(id: nat)
    | TakingSnapshot

  ghost predicate At(s: State, id: nat, place: Place) {
    id in s.writers && s.writers[id].place == place
  }

  ghost predicate AtStage(s: State, id: nat) {
    && Known(s.queue, s.writers) && id in s.writers && s.writers[id].place.Committing?
    && 0 < s.writers[id].place.n <= |s.queue|
  }

  ghost predicate Enabled(s: State, step: Step) {
    match step
    case Arriving(id, _, _) => id !in s.writers
    case Checking(id) => At(s, id, Awake)
    case Waking(id) => At(s, id, Asleep)
    case NoRoom(id, code) => At(s, id, MakingRoom) && s.queue != [] && (s.error.Some? ==> code == s.error.value)
    case Leading(id, n) =>
      At(s, id, MakingRoom) && s.error.None? && Known(s.queue, s.writers) && IsGroup(s.queue, s.writers, n)
    case Logging(id) => AtStage(s, id) && s.writers[id].place.stage.Unlogged?
    case LogFailing(id, _) => AtStage(s, id) && s.writers[id].place.stage.Unlogged?
    case Syncing(id) => AtStage(s, id) && s.writers[id].place.stage.Unsynced?
    case SyncFailing(id, _) => AtStage(s, id) && s.writers[id].place.stage.Unsynced?
    case Inserting(id) =>
      AtStage(s, id) && s.writers[id].place.stage.Applying? &&
      s.writers[id].place.stage.inserted < |Ops(s.queue[..s.writers[id].place.n], s.writers)|
    case Finishing(id) =>
      AtStage(s, id) && (s.writers[id].place.stage.Applying? || s.writers[id].place.stage.Broken?) &&
      (s.writers[id].place.stage.Applying? ==>
         s.writers[id].place.stage.inserted == |Ops(s.queue[..s.writers[id].place.n], s.writers)|)
    case TakingSnapshot => true
  }

  ghost function Apply(s: State, step: Step): State
    requires Enabled(s, step)
  {
    match step
    case Arriving(id, batch, sync) => Arrive(s, id, batch, sync)
    case Checking(id) => Check(s, id)
    case Waking(id) => Move(s, id, Awake)
    case NoRoom(_, code) => Pop(s, 1, Error(code))
    case Leading(id, n) => Lead(s, id, n)
    case Logging(id) => Move(s, id, s.writers[id].place.(stage := if s.writers[id].sync then Unsynced else Applying(0)))
    case LogFailing(id, code) => Move(s, id, s.writers[id].place.(stage := Broken(code, false)))
    case Syncing(id) => Sync(s, id)
    case SyncFailing(id, code) => Move(s, id, s.writers[id].place.(stage := Broken(code, true)))
    case Inserting(id) => InsertOne(s, id)
    case Finishing(id) => Finish(s, s.writers[id].place.n, s.writers[id].place.stage)
    case TakingSnapshot => s.(snapshots := s.snapshots + {s.last})
  }

  // A follower of the group being taken off
  function Released(w: Writer, status: Status): Writer {
    Woken(w).(done := true, status := status)
  }

  // The first k of the queue, but for the leader, are released
  ghost predicate TakenOff(queue: seq<nat>, before: map<nat, Writer>, after: map<nat, Writer>, k: nat, status: Status)
    requires 0 < |queue| && k <= |queue|
  {
    && after.Keys == before.Keys
    && forall id :: id in before ==>
         after[id] == if id in queue[..k] && id != queue[0] then Released(before[id], status) else before[id]
  }

  lemma TakeOff(queue: seq<nat>, before: map<nat, Writer>, after: map<nat, Writer>, k: nat, status: Status)
    requires k < |queue| && Distinct(queue) && Known(queue, before) && TakenOff(queue, before, after, k, status)
    ensures queue[k] in after
    ensures TakenOff(queue, before,
                     if k == 0 then after else after[queue[k] := Released(after[queue[k]], status)], k + 1, status)
  {
    assert queue[..k + 1] == queue[..k] + [queue[k]];
    assert queue[k] in before;
    assert queue[k] !in queue[..k];
    assert k > 0 ==> queue[k] != queue[0];
  }

  class WriteQueue {
    var queue: seq<nat>
    var writers: map<nat, Writer>

    // The end of Write: taking writers off the queue up to the last of the group, then waking the new head
    method PopGroup(w: nat, lastWriter: nat, status: Status, ghost n: nat)
      requires 0 < n <= |queue| && queue[0] == w && queue[n - 1] == lastWriter
      requires Distinct(queue) && Known(queue, writers)
      modifies this
      ensures queue == old(queue)[n..]
      ensures writers.Keys == old(writers).Keys
      ensures forall id :: id in writers ==> writers[id] == Popped(old(queue), old(writers)[id], id, n, status)
    {
      ghost var all, before := queue, writers;
      PopFront(w, lastWriter, status, n);
      assert queue != [] ==> queue[0] == all[n] && all[n] in before && all[n] !in all[..n];
      if queue != [] {
        writers := writers[queue[0] := Woken(writers[queue[0]])];
      }
      assert all[..n][0] == w && w in before;
      writers := writers[w := writers[w].(place := Returned(status))];
    }

    method PopFront(w: nat, lastWriter: nat, status: Status, ghost n: nat)
      requires 0 < n <= |queue| && queue[0] == w && queue[n - 1] == lastWriter
      requires Distinct(queue) && Known(queue, writers)
      modifies this
      ensures queue == old(queue)[n..] && TakenOff(old(queue), old(writers), writers, n, status)
    {
      ghost var all, before := queue, writers;
      ghost var k := 0;
      while true
        invariant 0 <= k < n && queue == all[k..] && TakenOff(all, before, writers, k, status)
        decreases n - k
      {
        var ready := queue[0];
        TakeOff(all, before, writers, k, status);
        queue := queue[1..];
        if ready != w {
          writers := writers[ready := Released(writers[ready], status)];
        }
        k := k + 1;
        if ready == lastWriter {
          break;
        }
      }
    }
  }
}
