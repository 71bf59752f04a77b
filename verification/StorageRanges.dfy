// Runs in which no flush can slip between the inputs of a compaction keep the files of each level above 0
// apart; what they leave can then be searched level by level.
module StorageRanges {
  import opened Options
  import opened Entries
  import opened Compaction
  import opened Tables
  import opened Ranges
  import opened Storage
  import opened StorageProofs
  import opened StorageJobs
  import opened Recovery
  import opened StorageRuns
  import Lookup

  ghost predicate WorkRanged(v: Version, t: Store, w: Work) {
    && w.inputs <= v && (forall f :: f in w.inputs ==> Inside(w.level, f))
    && Clear(v, t, w.level, w.inputs) && Covered(v, t, w.level, w.inputs)
  }

  function EditedVersion(s: State, edit: Edit): Version {
    s.image.version - edit.deleted + edit.added
  }

  ghost predicate JobRanged(s: State, job: Job) {
    match job
    case Queued => true
    case Building(_, within) => within.Some? ==> WorkRanged(s.image.version, s.tables, within.value)
    case Merging(w) => WorkRanged(s.image.version, s.tables, w)
    case Logging(edit, _, purpose) =>
      && Disjoint(EditedVersion(s, edit), s.tables)
      && (purpose.Flush? && purpose.within.Some? ==> WorkRanged(EditedVersion(s, edit), s.tables, purpose.within.value))
  }

  ghost predicate RangesOk(s: State) {
    Disjoint(s.image.version, s.tables) && forall j :: j in s.jobs ==> JobRanged(s, j)
  }

  // A step that starts a merge starts one no flush can get into
  ghost predicate CoveredStep(s: State, step: Step) {
    step.Starting? && step.pick.Some? && !step.moving ==>
      Covered(s.image.version, s.tables, step.pick.value.level, step.pick.value.inputs)
  }

  lemma WorkFrames(v: Version, t: Store, t': Store, w: Work)
    requires WorkRanged(v, t, w) && SameFiles(v, t, t')
    ensures WorkRanged(v, t', w)
  {
    SameFilesFrame(v, t, t', w.level, w.inputs);
  }

  // The version and its files stay, and any job is one there was or does nothing yet
  lemma QuietRanges(s: State, s': State)
    requires RangesOk(s) && s'.image == s.image && s'.tables == s.tables
    requires forall j :: j in s'.jobs ==> j in s.jobs || j.Queued?
    ensures RangesOk(s')
  {
  }

  lemma FrameRanges(s: State, s': State, job: Job)
    requires RangesOk(s) && s'.image == s.image && SameFiles(s.image.version, s.tables, s'.tables) && s'.jobs == [job]
    requires match job
             case Queued => true
             case Building(_, within) => within.Some? ==> WorkRanged(s.image.version, s.tables, within.value)
             case Merging(w) => WorkRanged(s.image.version, s.tables, w)
             case Logging(_, _, _) => false
    ensures RangesOk(s')
  {
    SameFilesFrame(s.image.version, s.tables, s'.tables, 0, {});
    match job
    case Building(_, Some(w)) => WorkFrames(s.image.version, s.tables, s'.tables, w);
    case Merging(w) => WorkFrames(s.image.version, s.tables, s'.tables, w);
    case _ =>
  }

  // ---- The steps ----

  lemma NewTableSame(s: State)
    requires Core(s)
    ensures SameFiles(s.image.version, s.tables, NewTable(s).tables)
  {
    assert Below(s.image.version, s.nextFile);
  }

  lemma EndRanges(s: State, s1: State, needs: bool)
    requires RangesOk(s) && |s1.jobs| == 1 && s1.image == s.image && s1.tables == s.tables
    ensures RangesOk(EndJob(s1, 0, needs))
  {
    QuietRanges(s, EndJob(s1, 0, needs));
  }

  lemma StartRanges(s: State, pick: Option<Work>, moving: bool, needs: bool)
    requires Invariant(s) && RangesOk(s) && |s.jobs| == 1 && s.jobs[0].Queued?
    requires pick.Some? ==> Storage.Chosen(s, pick.value, moving)
    requires pick.Some? && !moving ==> Covered(s.image.version, s.tables, pick.value.level, pick.value.inputs)
    ensures RangesOk(Start(s, 0, pick, moving, needs))
  {
    if s.shutdown || s.error || (s.imm.None? && pick.None?) {
      EndRanges(s, s, needs);
    } else if s.imm.Some? {
      NewTableSame(s);
      FrameRanges(s, Start(s, 0, pick, moving, needs), Building(s.nextFile, None));
    } else if moving {
      MovedRanges(s, pick.value);
    } else {
      FrameRanges(s, Start(s, 0, pick, moving, needs), Merging(pick.value));
    }
  }

  lemma MovedRanges(s: State, w: Work)
    requires RangesOk(s) && |s.jobs| == 1 && Storage.Chosen(s, w, true)
    ensures RangesOk(s.(jobs := s.jobs[0 := Logging(MoveEdit(s, w), false, Move)]))
  {
    var f :| f in w.inputs && f.level == w.level && w.inputs == {f};
    assert MoveEdit(s, w).added == {File(f.number, f.level + 1)};
    MoveDisjoint(s.image.version, s.tables, f);
    assert s.jobs[0 := Logging(MoveEdit(s, w), false, Move)] == [Logging(MoveEdit(s, w), false, Move)];
  }

  lemma LoopRanges(s: State, step: Step)
    requires Invariant(s) && RangesOk(s) && Enabled(s, step) && |s.jobs| == 1
    requires step.FlushingFirst? || step.OpeningOutput?
    ensures RangesOk(Apply(s, step))
  {
    var w := s.jobs[0].work;
    assert s.jobs[0] in s.jobs && JobRanged(s, s.jobs[0]);
    NewTableSame(s);
    FrameRanges(s, Apply(s, step), Apply(s, step).jobs[0]);
  }

  lemma BuiltRanges(s: State, ok: bool, level: nat, needs: bool)
    requires Invariant(s) && RangesOk(s) && |s.jobs| == 1 && s.jobs[0].Building? && s.imm.Some? && s.imm.value < |s.mems|
    requires PastLevels(s.image.version, s.tables, s.mems[s.imm.value], level)
    ensures RangesOk(Built(s, 0, ok, level, needs))
  {
    var Building(n, within) := s.jobs[0];
    var es, v := s.mems[s.imm.value], s.image.version;
    var t' := if ok && es != {} then s.tables[n := es] else s.tables - {n};
    assert s.jobs[0] in s.jobs && JobRanged(s, s.jobs[0]);
    BuildingFacts(s);
    assert SameFiles(v, s.tables, t');
    if ok && !s.shutdown {
      PastFrame(v, s.tables, t', es, level);
      FlushRanges(s, v, t', es, n, level);
      var s' := Built(s, 0, ok, level, needs);
      assert s'.jobs == [s'.jobs[0]] && EditedVersion(s', s'.jobs[0].edit) == v + Added(es, n, level);
    } else {
      var s1 := s.(tables := t', pending := s.pending - {n}, error := true);
      FrameRanges(s, s1.(jobs := [Resumed(within)]), Resumed(within));
      if within.None? {
        SameFilesFrame(v, s.tables, t', 0, {});
        EndRanges(s1.(jobs := [Resumed(within)]), s1, needs);
      } else {
        assert Built(s, 0, ok, level, needs).jobs == [Resumed(within)];
      }
    }
  }

  lemma PastFrame(v: Version, t: Store, t': Store, es: set<Entry>, level: nat)
    requires PastLevels(v, t, es, level) && SameFiles(v, t, t')
    ensures PastLevels(v, t', es, level)
  {
  }

  // The version with the flushed table
  lemma FlushRanges(s: State, v: Version, t': Store, es: set<Entry>, n: nat, level: nat)
    requires RangesOk(s) && |s.jobs| == 1 && s.jobs[0].Building? && v == s.image.version
    requires SameFiles(v, s.tables, t') && PastLevels(v, t', es, level)
    requires (forall f :: f in v ==> f.number != n) && (es != {} ==> n in t' && t'[n] == es)
    ensures Disjoint(v + Added(es, n, level), t')
    ensures s.jobs[0].within.Some? ==> WorkRanged(v + Added(es, n, level), t', s.jobs[0].within.value)
  {
    var within := s.jobs[0].within;
    assert JobRanged(s, s.jobs[0]);
    SameFilesFrame(v, s.tables, t', 0, {});
    if within.Some? {
      WorkFrames(v, s.tables, t', within.value);
    }
    if es == {} {
      assert v + Added(es, n, level) == v;
    } else {
      var f := File(n, level);
      assert Of(t', f) == es && Added(es, n, level) == {f};
      FlushDisjoint(v, t', f);
      if within.Some? {
        FlushClear(v, t', within.value.level, within.value.inputs, f);
      }
    }
  }

  lemma OutputsWithin(s: State, w: Work, input: seq<Entry>, isBase: int -> bool, contents: Store)
    requires Compacted(s, w, input, isBase, contents)
    ensures forall n :: n in contents ==> contents[n] <= Contents(w.inputs, s.tables)
  {
    var output := Survivors(input, |input|, w.smallest, isBase);
    var written := set n, e | n in contents && e in contents[n] :: e;
    assert written == Elements(output);
    forall n, e | n in contents && e in contents[n] ensures e in Contents(w.inputs, s.tables) {
      assert e in written;
      SurvivorIff(input, |input|, w.smallest, isBase, e);
      assert e in Elements(input);
    }
  }

  lemma MergedRanges(s: State, input: seq<Entry>, isBase: int -> bool, contents: Store)
    requires Invariant(s) && RangesOk(s) && s.jobs != [] && s.jobs[0].Merging? && |s.jobs| == 1
    requires Compacted(s, s.jobs[0].work, input, isBase, contents)
    ensures RangesOk(Merged(s, 0, contents))
  {
    var w, v := s.jobs[0].work, s.image.version;
    assert s.jobs == [Merging(w)] && JobRanged(s, s.jobs[0]);
    MergingFacts(s, w);
    OutputsWithin(s, w, input, isBase, contents);
    MergedVersion(v, s.tables, w, contents);
    assert Merged(s, 0, contents).jobs == [Logging(CompactEdit(s, w), false, Compact(w))];
  }

  lemma MergedVersion(v: Version, t: Store, w: Work, contents: Store)
    requires Disjoint(v, t) && WorkRanged(v, t, w) && contents.Keys == w.outputs
    requires forall f :: f in v ==> f.number !in w.outputs
    requires forall n :: n in contents ==> contents[n] <= Contents(w.inputs, t)
    requires forall m, n :: m in contents && n in contents && m != n ==> Apart(contents[m], contents[n])
    ensures Disjoint(v, t + contents) && Disjoint(v - w.inputs + OutputFiles(w), t + contents)
  {
    var t' := t + contents;
    assert SameFiles(v, t, t');
    forall f | f in OutputFiles(w) ensures f.level == w.level + 1 && Of(t', f) <= Contents(w.inputs, t) {
      assert f.number in contents;
    }
    CompactDisjoint(v, t, w.level, w.inputs, OutputFiles(w), t');
    SameFilesFrame(v, t, t', 0, {});
  }

  lemma WrittenRanges(s: State)
    requires RangesOk(s) && |s.jobs| == 1 && s.jobs[0].Logging?
    ensures RangesOk(WriteManifest(s, 0))
  {
    assert JobRanged(s, s.jobs[0]);
    assert WriteManifest(s, 0).jobs == [WriteManifest(s, 0).jobs[0]];
  }

  lemma InstalledRanges(s: State)
    requires RangesOk(s) && |s.jobs| == 1 && s.jobs[0].Logging?
    ensures RangesOk(Installed(s, 0))
  {
    assert JobRanged(s, s.jobs[0]);
    assert Installed(s, 0).jobs == [Installed(s, 0).jobs[0]];
  }

  lemma DeletedRanges(s: State)
    requires RangesOk(s) && |s.jobs| <= 1 && (s.jobs != [] ==> !s.jobs[0].Logging?)
    ensures RangesOk(DeleteObsolete(s))
  {
    var s' := DeleteObsolete(s);
    forall f | f in s.image.version ensures Of(s'.tables, f) == Of(s.tables, f) {
      assert s.image.version in Versions(s);
      assert IsLive(s, f.number);
    }
    if s.jobs == [] {
      SameFilesFrame(s.image.version, s.tables, s'.tables, 0, {});
    } else {
      assert s.jobs == [s.jobs[0]] && JobRanged(s, s.jobs[0]);
      FrameRanges(s, s', s.jobs[0]);
    }
  }

  lemma InstallRanges(s: State, needs: bool)
    requires RangesOk(s) && |s.jobs| == 1 && s.jobs[0].Logging?
    ensures RangesOk(Install(s, 0, needs))
  {
    var s1 := Installed(s, 0);
    InstalledRanges(s);
    match s.jobs[0].purpose
    case Move => EndRanges(s1, s1, needs);
    case Flush(Some(_)) => DeletedRanges(s1);
    case _ => DeleteAndEndRanges(s1, needs);
  }

  lemma DeleteAndEndRanges(s: State, needs: bool)
    requires RangesOk(s) && |s.jobs| == 1
    ensures RangesOk(MaybeSchedule(DeleteObsolete(s.(jobs := Drop(s.jobs, 0), scheduled := false)), needs))
  {
    var s2 := s.(jobs := Drop(s.jobs, 0), scheduled := false);
    QuietRanges(s, s2);
    DeletedRanges(s2);
    QuietRanges(DeleteObsolete(s2), MaybeSchedule(DeleteObsolete(s2), needs));
  }

  lemma QuietSteps(s: State, step: Step)
    requires Invariant(s) && RangesOk(s) && Enabled(s, step)
    requires !step.Starting? && !step.FlushingFirst? && !step.OpeningOutput? && !step.BuildingDone? && !step.MergingDone?
    requires !step.MergeFailing? && !step.WritingManifest? && !step.Installing?
    ensures RangesOk(Apply(s, step))
  {
    QuietRanges(s, Apply(s, step));
  }

  lemma JobSteps(s: State, step: Step)
    requires Invariant(s) && RangesOk(s) && Enabled(s, step) && CoveredStep(s, step)
    requires step.Starting? || step.FlushingFirst? || step.OpeningOutput? || step.BuildingDone?
    ensures RangesOk(Apply(s, step))
  {
    match step
    case Starting(_, pick, moving, needs) => StartRanges(s, pick, moving, needs);
    case FlushingFirst(_) => LoopRanges(s, step);
    case OpeningOutput(_) => LoopRanges(s, step);
    case BuildingDone(_, ok, level, needs) => BuiltRanges(s, ok, level, needs);
  }

  lemma EndingSteps(s: State, step: Step)
    requires Invariant(s) && RangesOk(s) && Enabled(s, step)
    requires step.MergingDone? || step.MergeFailing? || step.WritingManifest? || step.Installing?
    ensures RangesOk(Apply(s, step))
  {
    match step
    case MergingDone(_, input, isBase, contents) => MergedRanges(s, input, isBase, contents);
    case MergeFailing(_, needs) =>
      EndRanges(s, s.(error := true, pending := s.pending - s.jobs[0].work.outputs), needs);
    case WritingManifest(_) => WrittenRanges(s);
    case Installing(_, needs) => InstallRanges(s, needs);
  }

  lemma StepRanges(s: State, step: Step)
    requires Invariant(s) && RangesOk(s) && Enabled(s, step) && CoveredStep(s, step)
    ensures RangesOk(Apply(s, step))
  {
    if step.Starting? || step.FlushingFirst? || step.OpeningOutput? || step.BuildingDone? {
      JobSteps(s, step);
    } else if step.MergingDone? || step.MergeFailing? || step.WritingManifest? || step.Installing? {
      EndingSteps(s, step);
    } else {
      QuietSteps(s, step);
    }
  }

  // ---- Runs ----

  ghost predicate SystemRanged(y: System) {
    match y
    case Up(s) => RangesOk(s)
    case Sweeping(s) => RangesOk(s)
    case Down(d, _, _) => Disjoint(d.manifest.version, d.tables)
  }

  ghost predicate CoveredEvent(y: System, event: Event) {
    y.Up? && event.Doing? ==> CoveredStep(y.s, event.step)
  }

  ghost predicate CoveredRun(y: System, events: seq<Event>)
    requires PossibleRun(y, events)
    decreases |events|
  {
    events == [] || (CoveredEvent(y, events[0]) && CoveredRun(After(y, events[0]), events[1..]))
  }

  lemma CrashRanges(s: State, keep: nat, gone: set<nat>)
    requires Core(s) && RangesOk(s) && CanCrash(s, keep)
    ensures SystemRanged(AfterCrash(s, keep, gone))
  {
    var d := Without(Crashed(s, keep), gone);
    assert Disjoint(d.manifest.version, s.tables) by {
      if |s.jobs| == 1 {
        assert JobRanged(s, s.jobs[0]);
      }
      assert s.manifest.version == Durable(s).version;
    }
    forall f | f in d.manifest.version ensures Of(d.tables, f) == Of(s.tables, f) {
      assert Needed(Crashed(s, keep), f.number);
    }
    SameFilesFrame(d.manifest.version, s.tables, d.tables, 0, {});
  }

  // Recovery adds files at level 0 only, under new numbers
  lemma {:induction false} AddedRanges(v: Version, t: Store, cuts: seq<seq<Group>>, numbers: seq<nat>)
    requires Disjoint(v, t) && |cuts| == |numbers|
    requires forall f, i :: f in v && 0 <= i < |numbers| ==> f.number < numbers[i]
    requires forall i, j :: 0 <= i < j < |numbers| ==> numbers[i] < numbers[j]
    ensures var (v', t') := AddTables(v, t, cuts, numbers); Disjoint(v', t')
    decreases |cuts|
  {
    if cuts != [] {
      var es := All(cuts[0]);
      var t1 := if es == {} then t else t[numbers[0] := es];
      var v1 := v + Added(es, numbers[0], 0);
      assert SameFiles(v, t, t1);
      SameFilesFrame(v, t, t1, 0, {});
      AddedRanges(v1, t1, cuts[1..], numbers[1..]);
    }
  }

  lemma OpenRanges(d: Disk, image: Image, history: seq<Group>, cuts: seq<seq<Group>>, numbers: seq<nat>, next: nat)
    requires DiskOk(d, history, image) && Disjoint(d.manifest.version, d.tables)
    requires |cuts| == |numbers| && Allocated(d, numbers, next)
    ensures RangesOk(Opened(d, image, history, Flat(cuts), cuts, numbers, next))
  {
    assert Below(d.manifest.version, d.manifest.nextFile);
    AddedRanges(d.manifest.version, d.tables, cuts, numbers);
  }

  lemma EventRanges(y: System, event: Event)
    requires SystemOk(y) && SystemRanged(y) && Possible(y, event) && CoveredEvent(y, event)
    ensures SystemRanged(After(y, event))
  {
    match (y, event)
    case (Up(s), Doing(step)) => StepRanges(s, step);
    case (Up(s), Crashing(keep, gone)) => CrashRanges(s, keep, gone);
    case (Sweeping(s), Crashing(keep, gone)) => CrashRanges(s, keep, gone);
    case (Sweeping(s), FinishingOpen(needs)) =>
      DeletedRanges(s);
      QuietRanges(DeleteObsolete(s), MaybeSchedule(DeleteObsolete(s), needs));
    case (Down(d, history, image), Opening(cuts, numbers, next)) => OpenRanges(d, image, history, cuts, numbers, next);
    case (Down(d, _, _), FailingToOpen(t, n)) =>
      assert Below(d.manifest.version, d.manifest.nextFile) && Stored(d.manifest.version, d.tables);
      SameFilesFrame(d.manifest.version, d.tables, t, 0, {});
  }

  lemma {:induction false} RunRanges(y: System, events: seq<Event>)
    requires SystemOk(y) && SystemRanged(y) && PossibleRun(y, events) && CoveredRun(y, events)
    ensures SystemOk(Final(y, events)) && SystemRanged(Final(y, events))
    decreases |events|
  {
    if events != [] {
      EventKeeps(y, events[0]);
      EventRanges(y, events[0]);
      RunRanges(After(y, events[0]), events[1..]);
    }
  }

  // From an empty database, through any steps, crashes and reopenings
  lemma EveryRun(events: seq<Event>)
    requires PossibleRun(NewDatabase(), events) && CoveredRun(NewDatabase(), events)
    ensures SystemRanged(Final(NewDatabase(), events))
  {
    NewDatabaseOk();
    RunRanges(NewDatabase(), events);
  }

  // ---- The layered lookup after any such run ----

  // levels: the files of the current version with their entries in order, each level above 0 sorted
  ghost predicate Shows(levels: seq<seq<Lookup.TableFile>>, s: State) {
    && levels != [] && Lookup.Lists(levels, s.image.version, s.tables)
    && Lookup.AllValid(levels[0])
    && (forall i, j :: 0 <= i < j < |levels[0]| ==> levels[0][i].number != levels[0][j].number)
    && (forall l :: 0 < l < |levels| ==> Lookup.BySmallest(levels[l]))
  }

  // DBImpl::Get on what the state holds, at a live snapshot or the newest state: it reads the history
  method GetFromState(ghost s: State, mem: seq<Entry>, imm: Option<seq<Entry>>, levels: seq<seq<Lookup.TableFile>>, k: int, q: nat)
    returns (r: Option<string>)
    requires ReadsSafe(s) && LayersSafe(s) && RangesOk(s) && (q in s.snapshots || q == s.last)
    requires Sorted(mem) && Elements(mem) == s.mems[|s.mems| - 1]
    requires imm.Some? == s.imm.Some? && (imm.Some? ==> Sorted(imm.value) && Elements(imm.value) == s.mems[s.imm.value])
    requires Shows(levels, s)
    ensures r == Read(All(s.history), k, q)
  {
    forall l | 0 < l < |levels| ensures Lookup.InOrder(levels[l]) {
      Lookup.DisjointInOrder(levels, s.image.version, s.tables, l);
    }
    Lookup.LayeredIsSearchable(levels, s.image.version, s.tables);
    ghost var i := if imm.Some? then Elements(imm.value) else {};
    assert Current(s) == Elements(mem) + (i + Contents(s.image.version, s.tables));
    r := Lookup.Get(mem, imm, levels, k, q);
  }

  method GetAfter(ghost events: seq<Event>, ghost s: State, mem: seq<Entry>, imm: Option<seq<Entry>>,
                  levels: seq<seq<Lookup.TableFile>>, k: int, q: nat)
    returns (r: Option<string>)
    requires PossibleRun(NewDatabase(), events) && CoveredRun(NewDatabase(), events) && Final(NewDatabase(), events) == Up(s)
    requires q in s.snapshots || q == s.last
    requires s.mems != [] && Sorted(mem) && Elements(mem) == s.mems[|s.mems| - 1]
    requires s.imm.Some? ==> s.imm.value < |s.mems|
    requires imm.Some? == s.imm.Some? && (imm.Some? ==> Sorted(imm.value) && Elements(imm.value) == s.mems[s.imm.value])
    requires Shows(levels, s)
    ensures r == Read(All(s.history), k, q)
  {
    StorageRuns.EveryRun(events);
    EveryRun(events);
    r := GetFromState(s, mem, imm, levels, k, q);
  }
}
