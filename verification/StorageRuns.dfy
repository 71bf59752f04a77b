// Whole runs of the database, with crashes at any step and any number of reopenings.
module StorageRuns {
  import opened Options
  import opened Entries
  import opened Tables
  import opened Ranges
  import opened Storage
  import opened StorageProofs
  import opened StorageJobs
  import opened Recovery

  // ---- One step ----

  lemma WriterSteps(s: State, step: Step)
    requires Invariant(s) && Enabled(s, step)
    requires step.Appending? || step.InsertingNext? || step.Publishing? || step.FailingSync? || step.Rotating?
    ensures Invariant(Apply(s, step))
  {
    match step
    case Appending(group) => AppendKeeps(s, group);
    case InsertingNext => InsertKeeps(s);
    case Publishing => PublishKeeps(s);
    case FailingSync => SyncFailsKeeps(s);
    case Rotating(needs) => RotateKeeps(s, needs);
  }

  lemma ReaderSteps(s: State, step: Step)
    requires Invariant(s) && Enabled(s, step)
    requires step.TakingSnapshot? || step.Releasing? || step.Pinning? || step.Unpinning? || step.ShuttingDown? || step.Requesting?
    ensures Invariant(Apply(s, step))
  {
    match step
    case TakingSnapshot => SnapshotKeeps(s);
    case Releasing(i) => ReleaseKeeps(s, i);
    case Pinning(snapshot) => PinKeeps(s, if snapshot.Some? then s.snapshots[snapshot.value] else s.last);
    case Unpinning(i) => UnpinKeeps(s, i);
    case ShuttingDown => ShutDownKeeps(s);
    case Requesting(needs) => ScheduleKeeps(s, needs);
  }

  lemma BeginningSteps(s: State, step: Step)
    requires Invariant(s) && Enabled(s, step) && (step.Starting? || step.FlushingFirst?)
    ensures Invariant(Apply(s, step))
  {
    match step
    case Starting(_, pick, moving, needs) => StartKeeps(s, pick, moving, needs);
    case FlushingFirst(_) => FlushFirstKeeps(s);
  }

  lemma BuildingSteps(s: State, step: Step)
    requires Invariant(s) && Enabled(s, step) && (step.OpeningOutput? || step.BuildingDone?)
    ensures Invariant(Apply(s, step))
  {
    match step
    case OpeningOutput(_) => OpenOutputKeeps(s);
    case BuildingDone(_, ok, level, needs) =>
      PastCanPush(s.image.version, s.tables, s.mems[s.imm.value], level);
      BuiltKeeps(s, ok, level, needs);
  }

  lemma MergingSteps(s: State, step: Step)
    requires Invariant(s) && Enabled(s, step) && (step.MergingDone? || step.MergeFailing?)
    ensures Invariant(Apply(s, step))
  {
    match step
    case MergingDone(_, input, isBase, contents) => MergedKeeps(s, input, isBase, contents);
    case MergeFailing(_, needs) => MergeFailsKeeps(s, needs);
  }

  lemma EndingSteps(s: State, step: Step)
    requires Invariant(s) && Enabled(s, step) && (step.WritingManifest? || step.Installing?)
    ensures Invariant(Apply(s, step))
  {
    match step
    case WritingManifest(_) => WriteManifestKeeps(s);
    case Installing(_, needs) => InstallKeeps(s, needs);
  }

  lemma StepKeeps(s: State, step: Step)
    requires Invariant(s) && Enabled(s, step)
    ensures Invariant(Apply(s, step))
  {
    match step
    case Appending(_) => WriterSteps(s, step);
    case InsertingNext => WriterSteps(s, step);
    case Publishing => WriterSteps(s, step);
    case FailingSync => WriterSteps(s, step);
    case Rotating(_) => WriterSteps(s, step);
    case TakingSnapshot => ReaderSteps(s, step);
    case Releasing(_) => ReaderSteps(s, step);
    case Pinning(_) => ReaderSteps(s, step);
    case Unpinning(_) => ReaderSteps(s, step);
    case ShuttingDown => ReaderSteps(s, step);
    case Requesting(_) => ReaderSteps(s, step);
    case Starting(_, _, _, _) => BeginningSteps(s, step);
    case FlushingFirst(_) => BeginningSteps(s, step);
    case OpeningOutput(_) => BuildingSteps(s, step);
    case BuildingDone(_, _, _, _) => BuildingSteps(s, step);
    case MergingDone(_, _, _, _) => MergingSteps(s, step);
    case MergeFailing(_, _) => MergingSteps(s, step);
    case _ => EndingSteps(s, step);
  }

  // ---- What the invariant means ----

  ghost function Current(s: State): set<Entry>
    requires s.mems != [] && (s.imm.Some? ==> s.imm.value < |s.mems|)
  {
    View(Reader(|s.mems| - 1, s.imm, s.image.version, s.last), s.mems, s.tables)
  }

  // At most one background job; a full memtable is always attended to
  ghost predicate BackgroundSafe(s: State) {
    && |s.jobs| <= 1
    && (s.hasImm <==> s.imm.Some?)
    && (s.imm.Some? ==> s.jobs != [] || s.error || s.shutdown)
  }

  // No table of a live version and no unfinished output has been deleted
  ghost predicate FilesSafe(s: State) {
    && (forall v, f :: v in Versions(s) && f in v ==> f.number in s.tables)
    && (forall n :: n in s.pending ==> n in s.tables)
  }

  // Every live snapshot, the newest state and every reader see the history as it was at their sequence
  ghost predicate ReadsSafe(s: State) {
    && s.mems != [] && (s.imm.Some? ==> s.imm.value < |s.mems|)
    && (forall k: int, q :: (q in s.snapshots || q == s.last) ==> Read(Current(s), k, q) == Read(All(s.history), k, q))
    && (forall r :: r in s.readers ==>
          r.mem < |s.mems| && (r.imm.Some? ==> r.imm.value < |s.mems|) &&
          forall k :: Read(View(r, s.mems, s.tables), k, r.sequence) == Read(All(s.history), k, r.sequence))
  }

  // mem_ over imm_ over the tables
  ghost predicate LayersSafe(s: State) {
    && s.mems != [] && (s.imm.Some? ==> s.imm.value < |s.mems|)
    && Unique(Current(s))
    && Layered(s.image.version, s.tables)
    && NewerThan(s.mems[|s.mems| - 1], Contents(s.image.version, s.tables))
    && (s.imm.Some? ==>
          NewerThan(s.mems[|s.mems| - 1], s.mems[s.imm.value]) &&
          NewerThan(s.mems[s.imm.value], Contents(s.image.version, s.tables)))
  }

  // What the tables the manifest names and the logs Recover selects hold
  ghost function OnDisk(d: Disk, hi: nat): set<Entry> {
    Contents(d.manifest.version, d.tables) + All(Replay(d.logs, d.manifest.logNumber, hi))
  }

  // Reads of a recovered database are reads of the history
  ghost predicate Durably(d: Disk, history: seq<Group>) {
    && Stored(d.manifest.version, d.tables)
    && (forall hi: nat, k: int, q: nat :: (forall n :: n in d.logs ==> n < hi) && d.manifest.lastSequence <= q ==>
          Read(OnDisk(d, hi), k, q) == Read(All(history), k, q))
  }

  // A crash at this moment, amid a deletion of files or not, loses nothing but whole groups off the end of
  // mem_'s log
  ghost predicate CrashSafe(s: State) {
    && s.logfile in s.logs
    && forall keep: nat, gone: set<nat> :: keep <= |s.logs[s.logfile]| ==>
         s.rotated + keep <= |s.history + s.writer.Logged()| && Durably(Without(Crashed(s, keep), gone), Surviving(s, keep))
  }

  lemma InvariantReads(s: State)
    requires Invariant(s)
    ensures ReadsSafe(s)
  {
    forall k: int, q | q in s.snapshots || q == s.last ensures Read(Current(s), k, q) == Read(All(s.history), k, q) {
      var r := Reader(|s.mems| - 1, s.imm, s.image.version, q);
      CurrentReads(s, r);
      assert View(r, s.mems, s.tables) == Current(s);
    }
  }

  lemma InvariantLayers(s: State)
    requires Invariant(s)
    ensures LayersSafe(s)
  {
    LayersHold(s);
    CurrentUnique(s);
  }

  lemma CurrentUnique(s: State)
    requires Invariant(s)
    ensures Unique(Current(s))
  {
    CurrentReads(s, Reader(|s.mems| - 1, s.imm, s.image.version, s.last));
    OrderedUnique(s.history + s.writer.Logged());
  }

  lemma LayersHold(s: State)
    requires Written(s) && ImageOk(s.image, s.tables, s.history, s.nextFile, s.last)
    ensures NewerThan(s.mems[|s.mems| - 1], Contents(s.image.version, s.tables))
    ensures s.imm.Some? ==>
              NewerThan(s.mems[|s.mems| - 1], s.mems[s.imm.value]) &&
              NewerThan(s.mems[s.imm.value], Contents(s.image.version, s.tables))
  {
    var a, b := s.image.flushed, s.rotated;
    InsertedOnTop(s.history, s.writer, s.last);
    AllSplit(s.history, b);
    ImmutableNewer(s.history, a, b);
  }

  lemma DiskReads(d: Disk, history: seq<Group>, image: Image)
    requires DiskOk(d, history, image)
    ensures Durably(d, history)
  {
    var db, flushed := Contents(d.manifest.version, d.tables), All(history[..image.flushed]);
    var rest := All(history[image.flushed..]);
    AllSplit(history, image.flushed);
    OrderedUnique(history);
    AddNewer(db, flushed, rest, image.floor);
    forall hi: nat, k: int, q: nat | (forall n :: n in d.logs ==> n < hi) && d.manifest.lastSequence <= q
      ensures Read(OnDisk(d, hi), k, q) == Read(All(history), k, q)
    {
      assert OnDisk(d, hi) == db + rest;
    }
  }

  lemma InvariantCrash(s: State)
    requires Invariant(s)
    ensures CrashSafe(s)
  {
    forall keep: nat, gone: set<nat> | keep <= |s.logs[s.logfile]|
      ensures s.rotated + keep <= |s.history + s.writer.Logged()| && Durably(Without(Crashed(s, keep), gone), Surviving(s, keep))
    {
      CrashIsSafe(s, keep);
      WithoutKeeps(Crashed(s, keep), Surviving(s, keep), Durable(s), gone);
      DiskReads(Without(Crashed(s, keep), gone), Surviving(s, keep), Durable(s));
    }
  }

  lemma Unlogged(history: seq<Group>, writer: Writer, n: nat)
    requires n <= |history|
    ensures (history + writer.Logged())[n..] == history[n..] + writer.Logged()
    ensures All((history + writer.Logged())[n..]) == All(history[n..]) + All(writer.Logged())
    ensures Elements(writer.Inserted()) <= All(writer.Logged())
  {
    assert (history + writer.Logged())[n..] == history[n..] + writer.Logged();
    AllJoin(history[n..], writer.Logged());
    if writer.Inserting? {
      AllOne(writer.group);
    }
  }

  lemma WholeLog(s: State)
    requires s.logfile in s.logs
    ensures Crashed(s, |s.logs[s.logfile]|) == Disk(s.manifest, s.tables, s.logs)
  {
    var log := s.logs[s.logfile];
    assert log[..|log|] == log;
    assert s.logs[s.logfile := log] == s.logs;
  }

  // As long as LogAndApply is not between writing its record and installing the version, the disk holds
  // what memory holds, entry for entry, and the group the writer has logged
  lemma DiskIsMemory(s: State, hi: nat)
    requires Core(s) && (s.jobs != [] && s.jobs[0].Logging? ==> !s.jobs[0].written)
    requires forall n :: n in s.logs ==> n < hi
    ensures OnDisk(Disk(s.manifest, s.tables, s.logs), hi) == Current(s) + All(s.writer.Logged())
  {
    Replayed(s, hi);
    Unlogged(s.history, s.writer, s.image.flushed);
    Unflushed(s);
  }

  lemma Replayed(s: State, hi: nat)
    requires Core(s) && (s.jobs != [] && s.jobs[0].Logging? ==> !s.jobs[0].written)
    requires forall n :: n in s.logs ==> n < hi
    ensures s.manifest.version == s.image.version && s.image.flushed <= |s.history|
    ensures Replay(s.logs, s.manifest.logNumber, hi) == (s.history + s.writer.Logged())[s.image.flushed..]
  {
    WholeLog(s);
    ReplayCrashed(s, |s.logs[s.logfile]|, s.image, hi);
  }

  // ---- Runs ----

  // The database is open, or DB::Open has yet to delete files and to schedule, or it is closed with these
  // files. History: the groups in it.
  datatype System = Up(s: State) | Sweeping(s: State) | Down(d: Disk, history: seq<Group>, image: Image)

  datatype Event =
    | Doing(step: Step)
    | Crashing(keep: nat, gone: set<nat>)     // also amid a deletion of files
    | Opening(cuts: seq<seq<Group>>, numbers: seq<nat>, next: nat)
    | FinishingOpen(needs: bool)
    | FailingToOpen(tables: Store, n: nat)

  // VersionSet::Recover and NewDB: an empty database
  function NewDatabase(): System {
    Down(Disk(Manifest({}, 0, 2, 0), map[], map[]), [], Image({}, 0, 0, 0))
  }

  predicate CanCrash(s: State, keep: nat) {
    s.logfile in s.logs && keep <= |s.logs[s.logfile]| && s.rotated + keep <= |s.history + s.writer.Logged()|
  }

  ghost function AfterCrash(s: State, keep: nat, gone: set<nat>): System
    requires CanCrash(s, keep)
  {
    Down(Without(Crashed(s, keep), gone), Surviving(s, keep), Durable(s))
  }

  ghost predicate Possible(y: System, event: Event) {
    match (y, event)
    case (Up(s), Doing(step)) => Enabled(s, step)
    case (Up(s), Crashing(keep, _)) => CanCrash(s, keep)
    case (Sweeping(s), Crashing(keep, _)) => CanCrash(s, keep)
    case (Sweeping(_), FinishingOpen(_)) => true
    case (Down(d, _, _), Opening(cuts, numbers, next)) =>
      && |cuts| == |numbers| && Allocated(d, numbers, next)
      && Flat(cuts) == Replay(d.logs, d.manifest.logNumber, next)
    case (Down(d, _, _), FailingToOpen(t, n)) => TablesKeep(d.tables, t, d.manifest.nextFile) && n !in d.logs
    case _ => false
  }

  ghost function After(y: System, event: Event): System
    requires Possible(y, event)
  {
    match (y, event)
    case (Up(s), Doing(step)) => Up(Apply(s, step))
    case (Up(s), Crashing(keep, gone)) => AfterCrash(s, keep, gone)
    case (Sweeping(s), Crashing(keep, gone)) => AfterCrash(s, keep, gone)
    case (Sweeping(s), FinishingOpen(needs)) => Up(MaybeSchedule(DeleteObsolete(s), needs))
    case (Down(d, history, image), Opening(cuts, numbers, next)) =>
      Sweeping(Opened(d, image, history, Flat(cuts), cuts, numbers, next))
    case (Down(d, history, image), FailingToOpen(t, n)) => Down(d.(tables := t, logs := d.logs[n := []]), history, image)
  }

  ghost predicate PossibleRun(y: System, events: seq<Event>)
    decreases |events|
  {
    events == [] || (Possible(y, events[0]) && PossibleRun(After(y, events[0]), events[1..]))
  }

  ghost function Final(y: System, events: seq<Event>): System
    requires PossibleRun(y, events)
    decreases |events|
  {
    if events == [] then y else Final(After(y, events[0]), events[1..])
  }

  ghost predicate SystemOk(y: System) {
    match y
    case Up(s) => Invariant(s)
    case Sweeping(s) => Settled(s) && s.jobs == [] && s.imm.None?
    case Down(d, history, image) => DiskOk(d, history, image)
  }

  lemma CrashKeeps(s: State, keep: nat, gone: set<nat>)
    requires Core(s) && CanCrash(s, keep)
    ensures SystemOk(AfterCrash(s, keep, gone))
  {
    CrashIsSafe(s, keep);
    WithoutKeeps(Crashed(s, keep), Surviving(s, keep), Durable(s), gone);
  }

  lemma EventKeeps(y: System, event: Event)
    requires SystemOk(y) && Possible(y, event)
    ensures SystemOk(After(y, event))
  {
    match (y, event)
    case (Up(s), Doing(step)) => StepKeeps(s, step);
    case (Up(s), Crashing(keep, gone)) => CrashKeeps(s, keep, gone);
    case (Sweeping(s), Crashing(keep, gone)) => CrashKeeps(s, keep, gone);
    case (Sweeping(s), FinishingOpen(needs)) => SweepKeeps(s, needs);
    case (Down(d, history, image), Opening(cuts, numbers, next)) =>
      OpenKeeps(d, image, history, Flat(cuts), cuts, numbers, next);
    case (Down(d, history, image), FailingToOpen(t, n)) => FailedOpenKeeps(d, history, image, t, n);
  }

  lemma {:induction false} RunKeeps(y: System, events: seq<Event>)
    requires SystemOk(y) && PossibleRun(y, events)
    ensures SystemOk(Final(y, events))
    decreases |events|
  {
    if events != [] {
      EventKeeps(y, events[0]);
      RunKeeps(After(y, events[0]), events[1..]);
    }
  }

  lemma NewDatabaseOk()
    ensures SystemOk(NewDatabase())
  {
    var Down(d, history, image) := NewDatabase();
    assert All([]) == {} && Contents({}, map[]) == {};
    forall hi: nat ensures Replay(d.logs, 0, hi) == [] {
      ReplayNothing(d.logs, 0, hi);
    }
  }

  ghost predicate StateSafe(s: State) {
    BackgroundSafe(s) && FilesSafe(s) && ReadsSafe(s) && LayersSafe(s) && CrashSafe(s)
  }

  lemma InvariantSafe(s: State)
    requires Invariant(s)
    ensures StateSafe(s)
  {
    InvariantReads(s);
    InvariantLayers(s);
    InvariantCrash(s);
  }

  ghost predicate Safe(y: System) {
    match y
    case Up(s) => StateSafe(s)
    case Sweeping(s) => StateSafe(s)
    case Down(d, history, _) => Durably(d, history)
  }

  // From an empty database, through any steps, crashes and reopenings
  lemma EveryRun(events: seq<Event>)
    requires PossibleRun(NewDatabase(), events)
    ensures Safe(Final(NewDatabase(), events))
  {
    NewDatabaseOk();
    RunKeeps(NewDatabase(), events);
    match Final(NewDatabase(), events)
    case Up(s) => InvariantSafe(s);
    case Sweeping(s) => InvariantSafe(s);
    case Down(d, history, image) => DiskReads(d, history, image);
  }
}
