// DBImpl as a state machine. A step is the region between two points where the mutex is released;
// the log, the tables and the manifest on disk change with it, so that a crash after any step finds
// what the steps so far have written.
module Storage {
  import opened Options
  import opened Entries
  import opened Compaction
  import opened Tables
  import opened Ranges

  // The operations of one batch group, numbered
  type Group = seq<Entry>

  ghost function All(groups: seq<Group>): set<Entry> {
    set g, e | g in groups && e in g :: e
  }

  // The record LogAndApply appends to the manifest
  datatype Edit = Edit(deleted: Version, added: Version, logNumber: nat, nextFile: nat, lastSequence: nat)

  // A compaction being worked on; base is the version it started from and keeps alive
  datatype Work = Work(level: nat, inputs: Version, base: Version, smallest: nat, outputs: set<nat>)

  // What LogAndApply was called for
  datatype Purpose = Flush(within: Option<Work>) | Compact(work: Work) | Move

  // Where a background job is
  datatype Job =
    | Queued
    | Building(number: nat, within: Option<Work>)             // writing imm to a table
    | Merging(work: Work)                                     // in the loop of DoCompactionWork
    | Logging(edit: Edit, written: bool, purpose: Purpose)    // in LogAndApply, the mutex released
  {
    function Works(): set<Work> {
      match this
      case Building(_, Some(w)) => {w}
      case Merging(w) => {w}
      case Logging(_, _, Flush(Some(w))) => {w}
      case Logging(_, _, Compact(w)) => {w}
      case _ => {}
    }
  }

  // The writer at the head of the queue, past logging its group. Failed: the sync failed.
  datatype Writer = NoWriter | Inserting(group: Group, n: nat) | Failed(group: Group)
  {
    function Logged(): seq<Group> {
      if NoWriter? then [] else [group]
    }
    function Inserted(): seq<Entry> {
      if Inserting? && n <= |group| then group[..n] else []
    }
  }

  // A Get or an iterator: the memtables and the version it holds references to
  datatype Reader = Reader(mem: nat, imm: Option<nat>, version: Version, sequence: nat)

  // What the tables stand for. History: the number of groups flushed, and the sequence from which on
  // reads are preserved.
  datatype Image = Image(version: Version, logNumber: nat, flushed: nat, floor: nat)

  datatype Manifest = Manifest(version: Version, logNumber: nat, nextFile: nat, lastSequence: nat)

  datatype State = State(
    mems: seq<set<Entry>>,           // every memtable since opening; the last is mem_
    imm: Option<nat>,
    hasImm: bool,
    image: Image,                    // versions_->current() and log_number_
    logfile: nat,                    // logfile_number_
    nextFile: nat,
    last: nat,                       // last_sequence_
    pending: set<nat>,               // pending_outputs_
    snapshots: seq<nat>,
    readers: seq<Reader>,
    writer: Writer,
    jobs: seq<Job>,
    scheduled: bool,                 // background_compaction_scheduled_
    error: bool,                     // bg_error_
    shutdown: bool,
    manifest: Manifest,              // on disk
    tables: Store,
    logs: map<nat, seq<Group>>,
    history: seq<Group>,             // the groups published
    rotated: nat                     // history: the number of groups not in mem_
  )

  function Horizon(s: State): nat {
    if s.snapshots == [] then s.last else s.snapshots[0]
  }

  function MaybeSchedule(s: State, needs: bool): State {
    if s.scheduled || s.shutdown || s.error || (s.imm.None? && !needs) then s
    else s.(scheduled := true, jobs := s.jobs + [Queued])
  }

  function Drop<T>(q: seq<T>, i: nat): seq<T>
    requires i < |q|
  {
    q[..i] + q[i + 1..]
  }

  function EndJob(s: State, j: nat, needs: bool): State
    requires j < |s.jobs|
  {
    MaybeSchedule(s.(jobs := Drop(s.jobs, j), scheduled := false), needs)
  }

  // The versions in the version list: the current one and those kept by a reader or a compaction
  function Versions(s: State): set<Version> {
    {s.image.version} + (set r | r in s.readers :: r.version) + (set j, w | j in s.jobs && w in j.Works() :: w.base)
  }

  predicate IsLive(s: State, n: nat) {
    n in s.pending || exists v :: v in Versions(s) && exists f :: f in v && f.number == n
  }

  ghost function DeleteObsolete(s: State): State {
    if s.error then s
    else s.(tables := map n | n in s.tables && IsLive(s, n) :: s.tables[n],
            logs := map n | n in s.logs && n >= s.image.logNumber :: s.logs[n])
  }

  // NewFileNumber, and creating the table file
  function NewTable(s: State): State {
    s.(nextFile := s.nextFile + 1, pending := s.pending + {s.nextFile}, tables := s.tables[s.nextFile := {}])
  }

  // Write

  function AppendGroup(s: State, group: Group): State
    requires s.logfile in s.logs
  {
    s.(logs := s.logs[s.logfile := s.logs[s.logfile] + [group]], writer := Inserting(group, 0))
  }

  function InsertNext(s: State): State
    requires s.mems != [] && s.writer.Inserting? && s.writer.n < |s.writer.group|
  {
    var m := |s.mems| - 1;
    s.(mems := s.mems[m := s.mems[m] + {s.writer.group[s.writer.n]}], writer := s.writer.(n := s.writer.n + 1))
  }

  function Publish(s: State): State
    requires s.writer.Inserting?
  {
    s.(last := s.last + |s.writer.group|, history := s.history + [s.writer.group], writer := NoWriter)
  }

  function SyncFails(s: State): State
    requires s.writer.Inserting?
  {
    s.(last := s.last + |s.writer.group|, error := true, writer := Failed(s.writer.group))
  }

  // The last branch of MakeRoomForWrite: a new log and a new memtable
  function Rotated(s: State): State
    requires s.mems != []
  {
    s.(nextFile := s.nextFile + 1, logfile := s.nextFile, logs := s.logs[s.nextFile := []],
       imm := Some(|s.mems| - 1), hasImm := true, mems := s.mems + [{}], rotated := |s.history|)
  }

  function Rotate(s: State, needs: bool): State
    requires s.mems != []
  {
    MaybeSchedule(Rotated(s), needs)
  }

  // Readers

  function TakeSnapshot(s: State): State {
    s.(snapshots := s.snapshots + [s.last])
  }

  function Pin(s: State, sequence: nat): State
    requires s.mems != []
  {
    s.(readers := s.readers + [Reader(|s.mems| - 1, s.imm, s.image.version, sequence)])
  }

  // BackgroundCall and BackgroundCompaction up to releasing the mutex. pick is what PickCompaction
  // or CompactRange chose, moving whether it is a trivial move.
  function Start(s: State, j: nat, pick: Option<Work>, moving: bool, needs: bool): State
    requires j < |s.jobs|
  {
    if s.shutdown || s.error then EndJob(s, j, needs)
    else if s.imm.Some? then NewTable(s).(jobs := s.jobs[j := Building(s.nextFile, None)])
    else match pick
      case None => EndJob(s, j, needs)
      case Some(w) =>
        if moving then
          s.(jobs := s.jobs[j := Logging(Edit(w.inputs, set f | f in w.inputs :: File(f.number, f.level + 1),
                                              s.image.logNumber, s.nextFile, s.last), false, Move)])
        else s.(jobs := s.jobs[j := Merging(w)])
  }

  // DoCompactionWork: giving the memtable precedence, and opening an output file
  function FlushFirst(s: State, j: nat): State
    requires j < |s.jobs| && s.jobs[j].Merging?
  {
    NewTable(s).(jobs := s.jobs[j := Building(s.nextFile, Some(s.jobs[j].work))])
  }

  function OpenOutput(s: State, j: nat): State
    requires j < |s.jobs| && s.jobs[j].Merging?
  {
    var w := s.jobs[j].work;
    NewTable(s).(jobs := s.jobs[j := Merging(w.(outputs := w.outputs + {s.nextFile}))])
  }

  // CompactMemTable, once BuildTable has written the table; it keeps no empty table
  ghost function Built(s: State, j: nat, ok: bool, level: nat, needs: bool): State
    requires j < |s.jobs| && s.jobs[j].Building? && s.imm.Some? && s.imm.value < |s.mems|
  {
    var Building(n, within) := s.jobs[j];
    var es := s.mems[s.imm.value];
    var s1 := s.(pending := s.pending - {n}, tables := if ok && es != {} then s.tables[n := es] else s.tables - {n});
    if ok && !s.shutdown then
      s1.(jobs := s.jobs[j := Logging(Edit({}, if es == {} then {} else {File(n, level)},
                                           s.logfile, s.nextFile, s.last), false, Flush(within))])
    else
      var s2 := s1.(error := true);
      if within.None? then EndJob(s2, j, needs) else s2.(jobs := s.jobs[j := Merging(within.value)])
  }

  // DoCompactionWork after its loop: the outputs are written
  ghost function Merged(s: State, j: nat, contents: Store): State
    requires j < |s.jobs| && s.jobs[j].Merging?
  {
    var w := s.jobs[j].work;
    s.(tables := s.tables + contents,
       jobs := s.jobs[j := Logging(Edit(w.inputs, set n | n in w.outputs :: File(n, w.level + 1),
                                        s.image.logNumber, s.nextFile, s.last), false, Compact(w))])
  }

  // An error, or shutting down, ends a compaction
  function MergeFails(s: State, j: nat, needs: bool): State
    requires j < |s.jobs| && s.jobs[j].Merging?
  {
    EndJob(s.(error := true, pending := s.pending - s.jobs[j].work.outputs), j, needs)
  }

  // LogAndApply: the record reaches the manifest, then the mutex is taken again
  function WriteManifest(s: State, j: nat): State
    requires j < |s.jobs| && s.jobs[j].Logging?
  {
    var Logging(edit, _, purpose) := s.jobs[j];
    s.(manifest := Manifest(s.manifest.version - edit.deleted + edit.added, edit.logNumber, edit.nextFile, edit.lastSequence),
       jobs := s.jobs[j := Logging(edit, true, purpose)])
  }

  function Edited(image: Image, edit: Edit, purpose: Purpose, rotated: nat): Image {
    Image(image.version - edit.deleted + edit.added, edit.logNumber,
          if purpose.Flush? then rotated else image.flushed,
          if purpose.Compact? then purpose.work.smallest else image.floor)
  }

  function Resumed(within: Option<Work>): Job {
    if within.Some? then Merging(within.value) else Queued
  }

  // The new version, with the job done or back in its compaction
  function Installed(s: State, j: nat): State
    requires j < |s.jobs| && s.jobs[j].Logging?
  {
    var Logging(edit, _, purpose) := s.jobs[j];
    var s1 := s.(image := Edited(s.image, edit, purpose, s.rotated));
    match purpose
    case Move => s1.(jobs := s.jobs[j := Queued])
    case Compact(w) => s1.(pending := s.pending - w.outputs, jobs := s.jobs[j := Queued])
    case Flush(within) => s1.(imm := None, hasImm := false, jobs := s.jobs[j := Resumed(within)])
  }

  ghost function Install(s: State, j: nat, needs: bool): State
    requires j < |s.jobs| && s.jobs[j].Logging?
  {
    var s1 := Installed(s, j);
    match s.jobs[j].purpose
    case Move => EndJob(s1, j, needs)
    case Flush(Some(_)) => DeleteObsolete(s1)
    case _ => MaybeSchedule(DeleteObsolete(s1.(jobs := Drop(s1.jobs, j), scheduled := false)), needs)
  }

  datatype Step =
    | Appending(group: Group)
    | InsertingNext
    | Publishing
    | FailingSync
    | Rotating(needs: bool)
    | TakingSnapshot
    | Releasing(i: nat)
    | Pinning(snapshot: Option<nat>)
    | Unpinning(i: nat)
    | ShuttingDown
    | Requesting(needs: bool)
    | Starting(j: nat, pick: Option<Work>, moving: bool, needs: bool)
    | FlushingFirst(j: nat)
    | OpeningOutput(j: nat)
    | BuildingDone(j: nat, ok: bool, level: nat, needs: bool)
    | MergingDone(j: nat, input: seq<Entry>, isBase: int -> bool, contents: Store)
    | MergeFailing(j: nat, needs: bool)
    | WritingManifest(j: nat)
    | Installing(j: nat, needs: bool)

  // InsertInto and SetSequence number the operations from last_sequence + 1 on
  ghost predicate NumberedFrom(group: Group, n: nat) {
    forall i :: 0 <= i < |group| ==> group[i].sequence == n + i
  }

  // The contract of choosing a compaction: nothing to choose is also possible
  ghost predicate Chosen(s: State, w: Work, moving: bool) {
    && Closed(s.image.version, s.tables, w.level, w.inputs)
    && Clear(s.image.version, s.tables, w.level, w.inputs)
    && w.base == s.image.version
    && w.outputs == {}
    && w.smallest == Horizon(s)
    && (moving ==> exists f :: f in w.inputs && f.level == w.level && w.inputs == {f})
  }

  // The outputs hold what DoCompactionWork keeps of the sorted inputs, one after the other,
  // IsBaseLevelForKey promising that no entry lies below the output level
  ghost predicate Compacted(s: State, w: Work, input: seq<Entry>, isBase: int -> bool, contents: Store) {
    && contents.Keys == w.outputs
    && Sorted(input)
    && Elements(input) == Contents(w.inputs, s.tables)
    && (forall k :: isBase(k) ==> BaseKey(w.base, s.tables, w.level, k))
    && (set n, e | n in contents && e in contents[n] :: e) == Elements(Survivors(input, |input|, w.smallest, isBase))
    && (forall m, n :: m in contents && n in contents && m != n ==> Apart(contents[m], contents[n]))
  }

  ghost predicate Enabled(s: State, step: Step) {
    match step
    case Appending(group) =>
      s.writer.NoWriter? && !s.error && s.logfile in s.logs && NumberedFrom(group, s.last + 1)
    case InsertingNext => s.mems != [] && s.writer.Inserting? && s.writer.n < |s.writer.group|
    case Publishing => s.writer.Inserting? && s.writer.n == |s.writer.group|
    case FailingSync => s.writer.Inserting? && s.writer.n == 0
    case Rotating(_) => s.mems != [] && s.writer.NoWriter? && !s.error && s.imm.None?
    case TakingSnapshot => true
    case Releasing(i) => i < |s.snapshots|
    case Pinning(snapshot) => s.mems != [] && (snapshot.Some? ==> snapshot.value < |s.snapshots|)
    case Unpinning(i) => i < |s.readers|
    case ShuttingDown => true
    case Requesting(_) => true
    case Starting(j, pick, moving, _) =>
      j < |s.jobs| && s.jobs[j].Queued? && (pick.Some? ==> Chosen(s, pick.value, moving))
    case FlushingFirst(j) => j < |s.jobs| && s.jobs[j].Merging? && s.imm.Some?
    case OpeningOutput(j) => j < |s.jobs| && s.jobs[j].Merging?
    case BuildingDone(j, ok, level, _) =>
      && j < |s.jobs| && s.jobs[j].Building? && s.imm.Some? && s.imm.value < |s.mems|
      && PastLevels(s.image.version, s.tables, s.mems[s.imm.value], level)
    case MergingDone(j, input, isBase, contents) =>
      j < |s.jobs| && s.jobs[j].Merging? && Compacted(s, s.jobs[j].work, input, isBase, contents)
    case MergeFailing(j, _) => j < |s.jobs| && s.jobs[j].Merging?
    case WritingManifest(j) => j < |s.jobs| && s.jobs[j].Logging? && !s.jobs[j].written
    case Installing(j, _) => j < |s.jobs| && s.jobs[j].Logging? && s.jobs[j].written
  }

  ghost function Apply(s: State, step: Step): State
    requires Enabled(s, step)
  {
    match step
    case Appending(group) => AppendGroup(s, group)
    case InsertingNext => InsertNext(s)
    case Publishing => Publish(s)
    case FailingSync => SyncFails(s)
    case Rotating(needs) => Rotate(s, needs)
    case TakingSnapshot => TakeSnapshot(s)
    case Releasing(i) => s.(snapshots := Drop(s.snapshots, i))
    case Pinning(snapshot) => Pin(s, if snapshot.Some? then s.snapshots[snapshot.value] else s.last)
    case Unpinning(i) => s.(readers := Drop(s.readers, i))
    case ShuttingDown => s.(shutdown := true)
    case Requesting(needs) => MaybeSchedule(s, needs)
    case Starting(j, pick, moving, needs) => Start(s, j, pick, moving, needs)
    case FlushingFirst(j) => FlushFirst(s, j)
    case OpeningOutput(j) => OpenOutput(s, j)
    case BuildingDone(j, ok, level, needs) => Built(s, j, ok, level, needs)
    case MergingDone(j, _, _, contents) => Merged(s, j, contents)
    case MergeFailing(j, needs) => MergeFails(s, j, needs)
    case WritingManifest(j) => WriteManifest(s, j)
    case Installing(j, needs) => Install(s, j, needs)
  }
}
