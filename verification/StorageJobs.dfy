// The background jobs keep the invariant: flushing, compacting, installing and deleting files.
module StorageJobs {
  import opened Options
  import opened Entries
  import opened Compaction
  import opened Tables
  import opened Storage
  import opened StorageProofs

  // The manifest stands for the current version
  ghost predicate Settled(s: State) {
    Core(s) && Durable(s) == s.image
  }

  ghost predicate Single(s: State) {
    Settled(s) && |s.jobs| == 1
  }

  lemma EndCore(s: State)
    requires Single(s)
    ensures Settled(s.(jobs := Drop(s.jobs, 0), scheduled := false))
  {
    var s' := s.(jobs := Drop(s.jobs, 0), scheduled := false);
    assert s'.jobs == [];
    assert Versions(s') <= Versions(s);
  }

  lemma EndKeeps(s: State, needs: bool)
    requires Single(s)
    ensures Invariant(EndJob(s, 0, needs))
  {
    EndCore(s);
    ScheduleKeeps(s.(jobs := Drop(s.jobs, 0), scheduled := false), needs);
  }

  lemma ErrorKeeps(s: State)
    requires Single(s)
    ensures Single(s.(error := true))
  {
    var s' := s.(error := true);
    assert Extends(s, s');
    ExtendsKeeps(s, s');
    assert Versions(s') == Versions(s);
  }

  predicate Unwritten(job: Job) {
    job.Logging? ==> !job.written
  }

  lemma SwapJob(s: State, job: Job)
    requires Single(s) && Unwritten(job)
    requires forall w :: w in job.Works() ==> w.base in Versions(s)
    requires JobOk(s, job)
    ensures Single(s.(jobs := s.jobs[0 := job]))
  {
    var s' := s.(jobs := s.jobs[0 := job]);
    assert s'.jobs == [job];
    assert Versions(s') <= Versions(s);
    assert Extends(s, s');
    SameJob(s, s', job);
  }

  lemma SameJob(s: State, s': State, job: Job)
    requires s' == s.(jobs := s'.jobs) && JobOk(s, job)
    ensures JobOk(s', job)
  {
  }

  lemma NewTableKeeps(s: State)
    requires Single(s)
    ensures Single(NewTable(s))
  {
    var s' := NewTable(s);
    assert Extends(s, s');
    ExtendsKeeps(s, s');
    assert Versions(s') == Versions(s);
    forall r | r in s.readers ensures ReaderOk(r, s'.mems, s'.tables, s'.history, s'.writer, s'.last) {
      ReaderExtends(s, s', r);
    }
  }

  // ---- Starting a job ----

  lemma StartFlush(s: State)
    requires Single(s) && s.imm.Some?
    ensures Single(NewTable(s).(jobs := s.jobs[0 := Building(s.nextFile, None)]))
  {
    NewTableKeeps(s);
    SwapJob(NewTable(s), Building(s.nextFile, None));
  }

  lemma StartMerge(s: State, w: Work)
    requires Single(s) && Chosen(s, w, false)
    ensures Single(s.(jobs := s.jobs[0 := Merging(w)]))
  {
    PickedAmong(s.image.version, s.tables, w.level, w.inputs);
    SwapJob(s, Merging(w));
  }

  function MoveEdit(s: State, w: Work): Edit {
    Edit(w.inputs, set f | f in w.inputs :: File(f.number, f.level + 1), s.image.logNumber, s.nextFile, s.last)
  }

  lemma MovedImage(s: State, w: Work)
    requires Core(s) && Chosen(s, w, true)
    ensures JobOk(s, Logging(MoveEdit(s, w), false, Move))
  {
    var f :| f in w.inputs && f.level == w.level && w.inputs == {f};
    var f' := File(f.number, f.level + 1);
    assert MoveEdit(s, w).added == {f'};
    MoveKeeps(s.image.version, s.tables, f, All(s.history[..s.image.flushed]), s.image.floor);
  }

  lemma StartMove(s: State, w: Work)
    requires Single(s) && Chosen(s, w, true)
    ensures Single(s.(jobs := s.jobs[0 := Logging(MoveEdit(s, w), false, Move)]))
  {
    MovedImage(s, w);
    SwapJob(s, Logging(MoveEdit(s, w), false, Move));
  }

  lemma StartKeeps(s: State, pick: Option<Work>, moving: bool, needs: bool)
    requires Invariant(s) && |s.jobs| == 1 && s.jobs[0].Queued?
    requires pick.Some? ==> Chosen(s, pick.value, moving)
    ensures Invariant(Start(s, 0, pick, moving, needs))
  {
    if s.shutdown || s.error {
      EndKeeps(s, needs);
    } else if s.imm.Some? {
      StartFlush(s);
    } else {
      match pick
      case None => EndKeeps(s, needs);
      case Some(w) => if moving { StartMove(s, w); } else { StartMerge(s, w); }
    }
  }

  // ---- In the loop of DoCompactionWork ----

  lemma FlushFirstKeeps(s: State)
    requires Invariant(s) && |s.jobs| == 1 && s.jobs[0].Merging? && s.imm.Some?
    ensures Invariant(FlushFirst(s, 0))
  {
    var w := s.jobs[0].work;
    NewTableKeeps(s);
    assert JobOk(NewTable(s), Merging(w));
    assert s.nextFile !in s.pending;
    BaseLive(s, s.jobs[0], w);
    SwapJob(NewTable(s), Building(s.nextFile, Some(w)));
  }

  lemma OpenOutputKeeps(s: State)
    requires Invariant(s) && |s.jobs| == 1 && s.jobs[0].Merging?
    ensures Invariant(OpenOutput(s, 0))
  {
    var w := s.jobs[0].work;
    NewTableKeeps(s);
    assert JobOk(NewTable(s), Merging(w));
    BaseLive(s, s.jobs[0], w);
    SwapJob(NewTable(s), Merging(w.(outputs := w.outputs + {s.nextFile})));
  }

  // ---- Writing, replacing and deleting table files ----

  ghost predicate AgreeAll(versions: set<Version>, t: Store, t': Store) {
    forall v :: v in versions ==> Agree(v, t, t')
  }

  lemma ImageAgree(image: Image, t: Store, t': Store, history: seq<Group>, n: nat, last: nat)
    requires ImageOk(image, t, history, n, last) && Agree(image.version, t, t')
    ensures ImageOk(image, t', history, n, last)
  {
    FaithfulAgree(image.version, t, t', All(history[..image.flushed]), image.floor);
  }

  lemma ReaderAgrees(s: State, t': Store, r: Reader)
    requires Core(s) && r in s.readers && AgreeAll(Versions(s), s.tables, t')
    ensures ReaderOk(r, s.mems, t', s.history, s.writer, s.last)
  {
    assert r.version in Versions(s);
    ContentsAgree(r.version, s.tables, t');
    assert View(r, s.mems, t') == View(r, s.mems, s.tables);
  }

  lemma RetableKeeps(s: State, s': State)
    requires Settled(s)
    requires s' == s.(tables := s'.tables, pending := s'.pending, jobs := s'.jobs, scheduled := s'.scheduled)
    requires |s'.jobs| == (if s'.scheduled then 1 else 0) && Durable(s') == s.image
    requires AgreeAll(Versions(s), s.tables, s'.tables) && Versions(s') <= Versions(s)
    requires s'.pending <= s.pending && forall n :: n in s'.pending ==> n in s'.tables
    requires forall j :: j in s'.jobs ==> JobOk(s', j)
    ensures Settled(s')
  {
    ImageAgree(s.image, s.tables, s'.tables, s.history, s.nextFile, s.last);
    ImageAgree(s.image, s.tables, s'.tables, s.history, s.manifest.nextFile, s.manifest.lastSequence);
    forall r | r in s.readers ensures ReaderOk(r, s'.mems, s'.tables, s'.history, s'.writer, s'.last) {
      ReaderAgrees(s, s'.tables, r);
    }
    forall v | v in Versions(s') ensures Stored(v, s'.tables) {
      assert Stored(v, s.tables);
    }
  }

  lemma WorkRetables(s: State, s': State, w: Work)
    requires WorkOk(w, s.image.version, s.tables, s.pending, s.image.floor, Horizon(s))
    requires Stored(s.image.version, s.tables) && Stored(w.base, s.tables)
    requires Agree(s.image.version, s.tables, s'.tables) && Agree(w.base, s.tables, s'.tables)
    requires s'.image == s.image && Horizon(s') == Horizon(s) && w.outputs <= s'.pending
    ensures WorkOk(w, s'.image.version, s'.tables, s'.pending, s'.image.floor, Horizon(s'))
  {
    WorkFrame(w, s.image.version, s.tables, s'.tables, s.pending, s'.pending, s.image.floor, Horizon(s), Horizon(s'));
  }

  // ---- CompactMemTable ----

  // The table is written or given up
  ghost function TableDone(s: State, keep: bool): State
    requires |s.jobs| == 1 && s.jobs[0].Building? && s.imm.Some? && s.imm.value < |s.mems|
  {
    var n := s.jobs[0].number;
    s.(pending := s.pending - {n}, tables := if keep then s.tables[n := s.mems[s.imm.value]] else s.tables - {n},
       jobs := s.jobs[0 := Resumed(s.jobs[0].within)])
  }

  lemma TableDoneKeeps(s: State, keep: bool)
    requires Core(s) && |s.jobs| == 1 && s.jobs[0].Building? && s.imm.Some?
    ensures s.imm.value < |s.mems| && Single(TableDone(s, keep))
    ensures forall v :: v in Versions(s) ==> forall f :: f in v ==> f.number != s.jobs[0].number
  {
    var s' := TableDone(s, keep);
    var Building(n, within) := s.jobs[0];
    assert AgreeAll(Versions(s), s.tables, s'.tables);
    assert JobOk(s, s.jobs[0]);
    if within.Some? {
      BaseLive(s, s.jobs[0], within.value);
      WorkRetables(s, s', within.value);
    }
    assert Versions(s') <= Versions(s) by {
      assert s.jobs[0] in s.jobs;
      assert s'.jobs == [Resumed(within)];
    }
    RetableKeeps(s, s');
  }

  // The entries of imm are newer than the tables'
  lemma ImmutableNewer(history: seq<Group>, flushed: nat, rotated: nat)
    requires Ordered(history) && flushed <= rotated <= |history|
    ensures All(history[..rotated]) == All(history[..flushed]) + All(history[flushed..rotated])
    ensures NewerThan(All(history[flushed..rotated]), All(history[..flushed]))
    ensures Unique(All(history[..rotated])) && All(history[..rotated]) <= All(history)
  {
    AllSplit(history, rotated);
    var h := history[..rotated];
    AllSplit(h, flushed);
    assert h[..flushed] == history[..flushed] && h[flushed..] == history[flushed..rotated];
    OrderedUnique(h);
  }

  function Added(es: set<Entry>, n: nat, level: nat): Version {
    if es == {} then {} else {File(n, level)}
  }

  function FlushEdit(s: State, es: set<Entry>, n: nat, level: nat): Edit {
    Edit({}, Added(es, n, level), s.logfile, s.nextFile, s.last)
  }

  lemma FlushedImage(image: Image, t: Store, history: seq<Group>, rotated: nat, es: set<Entry>, n: nat, level: nat,
                     nextFile: nat, last: nat, logNumber: nat)
    requires ImageOk(image, t, history, nextFile, last) && Ordered(history) && AtMost(All(history), last)
    requires image.flushed <= rotated <= |history| && es == All(history[image.flushed..rotated])
    requires es != {} ==> n in t && t[n] == es
    requires n < nextFile && Below(image.version, n) && CanPush(image.version, t, es, level)
    ensures ImageOk(Image(image.version - {} + Added(es, n, level), logNumber, rotated, image.floor), t, history, nextFile, last)
  {
    ImmutableNewer(history, image.flushed, rotated);
    assert image.version - {} == image.version;
    if es != {} {
      FlushKeeps(image.version, t, File(n, level), All(history[..image.flushed]), image.floor);
    } else {
      assert image.version + {} == image.version;
      assert All(history[..rotated]) == All(history[..image.flushed]);
    }
  }

  lemma FlushedWork(w: Work, v: Version, t: Store, pending: set<nat>, floor: nat, horizon: nat,
                    db: set<Entry>, es: set<Entry>, n: nat, level: nat)
    requires WorkOk(w, v, t, pending, floor, horizon)
    requires Contents(v, t) <= db && NewerThan(es, db)
    requires es != {} ==> n in t && t[n] == es
    requires Below(v, n) && CanPush(v, t, es, level)
    ensures WorkOk(w, v - {} + Added(es, n, level), t, pending, floor, horizon)
  {
    assert v - {} + Added(es, n, level) == v + Added(es, n, level);
    if es == {} {
      assert v + Added(es, n, level) == v;
    } else {
      FlushAmong(v, t, w.level, w.inputs, w.base, File(n, level), db);
    }
  }

  lemma Immutable(s: State)
    requires Core(s) && s.imm.Some?
    ensures s.imm.value < |s.mems| && s.mems[s.imm.value] == All(s.history[s.image.flushed..s.rotated])
    ensures s.image.flushed <= s.rotated <= |s.history|
    ensures Ordered(s.history) && AtMost(All(s.history), s.last)
    ensures NewerThan(s.mems[s.imm.value], All(s.history[..s.image.flushed]))
  {
    InsertedOnTop(s.history, s.writer, s.last);
    ImmutableNewer(s.history, s.image.flushed, s.rotated);
  }

  lemma FlushJob(s: State, es: set<Entry>, n: nat, level: nat, within: Option<Work>)
    requires Core(s) && s.imm.Some? && s.mems[s.imm.value] == es && n < s.nextFile && n !in s.pending
    requires es != {} ==> n in s.tables && s.tables[n] == es
    requires Below(s.image.version, n) && CanPush(s.image.version, s.tables, es, level)
    requires within.Some? ==> WorkOk(within.value, s.image.version, s.tables, s.pending, s.image.floor, Horizon(s))
    ensures JobOk(s, Logging(FlushEdit(s, es, n, level), false, Flush(within)))
  {
    Immutable(s);
    FlushedImage(s.image, s.tables, s.history, s.rotated, es, n, level, s.nextFile, s.last, s.logfile);
    if within.Some? {
      FlushedWork(within.value, s.image.version, s.tables, s.pending, s.image.floor, Horizon(s),
                  All(s.history[..s.image.flushed]), es, n, level);
    }
  }

  lemma PushAgrees(v: Version, t: Store, t': Store, es: set<Entry>, level: nat)
    requires CanPush(v, t, es, level) && Stored(v, t) && Agree(v, t, t')
    ensures CanPush(v, t', es, level)
  {
    assert forall f, e :: f in v ==> (Holds(t', f, e) <==> Holds(t, f, e));
  }

  lemma FlushSwaps(s: State, es: set<Entry>, n: nat, level: nat, within: Option<Work>)
    requires Single(s) && s.imm.Some? && s.mems[s.imm.value] == es && n < s.nextFile && n !in s.pending
    requires es != {} ==> n in s.tables && s.tables[n] == es
    requires Below(s.image.version, n) && CanPush(s.image.version, s.tables, es, level)
    requires s.jobs == [Resumed(within)]
    ensures Single(s.(jobs := s.jobs[0 := Logging(FlushEdit(s, es, n, level), false, Flush(within))]))
  {
    ResumedWork(s, within);
    FlushJob(s, es, n, level, within);
    SwapJob(s, Logging(FlushEdit(s, es, n, level), false, Flush(within)));
  }

  lemma BuildingFacts(s: State)
    requires Core(s) && |s.jobs| == 1 && s.jobs[0].Building?
    ensures Below(s.image.version, s.jobs[0].number) && s.jobs[0].number < s.nextFile
    ensures s.image.version in Versions(s) && Stored(s.image.version, s.tables)
    ensures forall f :: f in s.image.version ==> f.number != s.jobs[0].number
  {
    assert JobOk(s, s.jobs[0]);
  }

  lemma BuiltWell(s: State, level: nat)
    requires Core(s) && |s.jobs| == 1 && s.jobs[0].Building? && s.imm.Some?
    requires s.imm.value < |s.mems| && CanPush(s.image.version, s.tables, s.mems[s.imm.value], level)
    ensures var es := s.mems[s.imm.value];
            Single(TableDone(s, es != {}).(
              jobs := s.jobs[0 := Logging(FlushEdit(s, es, s.jobs[0].number, level), false, Flush(s.jobs[0].within))]))
  {
    var es := s.mems[s.imm.value];
    var Building(n, within) := s.jobs[0];
    var s1 := TableDone(s, es != {});
    BuildingFacts(s);
    PushAgrees(s.image.version, s.tables, s1.tables, es, level);
    TableDoneKeeps(s, es != {});
    FlushSwaps(s1, es, n, level, within);
    var job := Logging(FlushEdit(s, es, n, level), false, Flush(within));
    assert s.jobs[0 := job] == s1.jobs[0 := job];
  }

  lemma ResumedWork(s: State, within: Option<Work>)
    requires Core(s) && s.jobs == [Resumed(within)]
    ensures within.Some? ==> WorkOk(within.value, s.image.version, s.tables, s.pending, s.image.floor, Horizon(s)) &&
                             within.value.base in Versions(s)
  {
    assert JobOk(s, s.jobs[0]);
    if within.Some? {
      BaseLive(s, s.jobs[0], within.value);
    }
  }

  lemma BuiltKeeps(s: State, ok: bool, level: nat, needs: bool)
    requires Invariant(s) && |s.jobs| == 1 && s.jobs[0].Building? && s.imm.Some? && s.imm.value < |s.mems|
    requires CanPush(s.image.version, s.tables, s.mems[s.imm.value], level)
    ensures Invariant(Built(s, 0, ok, level, needs))
  {
    if ok && !s.shutdown {
      BuiltWell(s, level);
    } else {
      var keep := ok && s.mems[s.imm.value] != {};
      TableDoneKeeps(s, keep);
      var s2 := TableDone(s, keep).(error := true);
      ErrorKeeps(TableDone(s, keep));
      if s.jobs[0].within.None? {
        EndKeeps(s2, needs);
        assert Drop(s.jobs, 0) == Drop(s2.jobs, 0) == [];
      }
    }
  }

  // ---- The end of DoCompactionWork ----

  function OutputFiles(w: Work): Version {
    set n | n in w.outputs :: File(n, w.level + 1)
  }

  function CompactEdit(s: State, w: Work): Edit {
    Edit(w.inputs, OutputFiles(w), s.image.logNumber, s.nextFile, s.last)
  }

  lemma OutputsWritten(v: Version, t: Store, w: Work, contents: Store, output: seq<Entry>)
    requires Numbered(v) && Stored(v, t) && contents.Keys == w.outputs
    requires forall f :: f in v ==> f.number !in w.outputs
    requires (set n, e | n in contents && e in contents[n] :: e) == Elements(output)
    ensures Outputs(v, t, t + contents, w.level, OutputFiles(w), output)
  {
    var files, t' := OutputFiles(w), t + contents;
    forall e ensures e in Contents(files, t') <==> e in Elements(output) {
      InContents(files, t', e);
      if e in Elements(output) {
        var n :| n in contents && e in contents[n];
        assert File(n, w.level + 1) in files && Holds(t', File(n, w.level + 1), e);
      }
    }
  }

  lemma CompactedImage(image: Image, t: Store, history: seq<Group>, nextFile: nat, last: nat, w: Work, pending: set<nat>,
                       horizon: nat, input: seq<Entry>, isBase: int -> bool, contents: Store)
    requires ImageOk(image, t, history, nextFile, last) && WorkOk(w, image.version, t, pending, image.floor, horizon)
    requires horizon <= last && forall n :: n in w.outputs ==> n < nextFile
    requires forall f :: f in image.version ==> f.number !in w.outputs
    requires contents.Keys == w.outputs && Sorted(input) && Elements(input) == Contents(w.inputs, t)
    requires forall k :: isBase(k) ==> BaseKey(w.base, t, w.level, k)
    requires (set n, e | n in contents && e in contents[n] :: e) == Elements(Survivors(input, |input|, w.smallest, isBase))
    ensures ImageOk(Image(image.version - w.inputs + OutputFiles(w), image.logNumber, image.flushed, w.smallest),
                    t + contents, history, nextFile, last)
  {
    OutputsWritten(image.version, t, w, contents, Survivors(input, |input|, w.smallest, isBase));
    CompactKeeps(image.version, t, w.level, w.inputs, w.base, input, w.smallest, isBase, OutputFiles(w), t + contents,
                 All(history[..image.flushed]), image.floor);
  }

  lemma MergingFacts(s: State, w: Work)
    requires Core(s) && s.jobs == [Merging(w)]
    ensures WorkOk(w, s.image.version, s.tables, s.pending, s.image.floor, Horizon(s)) && Horizon(s) <= s.last
    ensures w.base in Versions(s) && s.image.version in Versions(s)
    ensures forall n :: n in w.outputs ==> n < s.nextFile
    ensures forall v, f :: v in Versions(s) && f in v ==> f.number !in w.outputs
    ensures forall v :: v in Versions(s) ==> Stored(v, s.tables)
  {
    assert JobOk(s, s.jobs[0]);
    BaseLive(s, s.jobs[0], w);
  }

  lemma OutputsKeep(s: State, w: Work, contents: Store)
    requires Settled(s) && s.jobs == [Merging(w)] && contents.Keys == w.outputs
    ensures Single(s.(tables := s.tables + contents))
  {
    var s' := s.(tables := s.tables + contents);
    MergingFacts(s, w);
    assert AgreeAll(Versions(s), s.tables, s'.tables);
    WorkRetables(s, s', w);
    assert Versions(s') == Versions(s);
    RetableKeeps(s, s');
  }

  lemma MergedImage(s: State, w: Work, input: seq<Entry>, isBase: int -> bool, contents: Store)
    requires Core(s) && s.jobs == [Merging(w)] && Compacted(s, w, input, isBase, contents)
    ensures ImageOk(Edited(s.image, CompactEdit(s, w), Compact(w), s.rotated), s.tables + contents, s.history, s.nextFile, s.last)
  {
    MergingFacts(s, w);
    CompactedImage(s.image, s.tables, s.history, s.nextFile, s.last, w, s.pending, Horizon(s), input, isBase, contents);
  }

  lemma MergedKeeps(s: State, input: seq<Entry>, isBase: int -> bool, contents: Store)
    requires Single(s) && s.jobs[0].Merging? && Attended(s)
    requires Compacted(s, s.jobs[0].work, input, isBase, contents)
    ensures Invariant(Merged(s, 0, contents))
  {
    var w := s.jobs[0].work;
    assert s.jobs == [Merging(w)];
    MergedImage(s, w, input, isBase, contents);
    OutputsKeep(s, w, contents);
    MergedSwaps(s.(tables := s.tables + contents), w);
  }

  lemma MergedSwaps(s: State, w: Work)
    requires Single(s) && s.jobs == [Merging(w)]
    requires ImageOk(Edited(s.image, CompactEdit(s, w), Compact(w), s.rotated), s.tables, s.history, s.nextFile, s.last)
    ensures Single(s.(jobs := s.jobs[0 := Logging(CompactEdit(s, w), false, Compact(w))]))
  {
    MergingFacts(s, w);
    SwapJob(s, Logging(CompactEdit(s, w), false, Compact(w)));
  }

  lemma MergeFailsKeeps(s: State, needs: bool)
    requires Invariant(s) && |s.jobs| == 1 && s.jobs[0].Merging?
    ensures Invariant(MergeFails(s, 0, needs))
  {
    var s1 := s.(pending := s.pending - s.jobs[0].work.outputs, jobs := [Queued]);
    RetableKeeps(s, s1);
    ErrorKeeps(s1);
    EndKeeps(s1.(error := true), needs);
    assert Drop(s.jobs, 0) == Drop(s1.jobs, 0) == [];
  }

  // ---- LogAndApply ----

  lemma WriteManifestKeeps(s: State)
    requires Invariant(s) && |s.jobs| == 1 && s.jobs[0].Logging? && !s.jobs[0].written
    ensures Invariant(WriteManifest(s, 0))
  {
    var s' := WriteManifest(s, 0);
    var Logging(edit, _, purpose) := s.jobs[0];
    assert JobOk(s, s.jobs[0]);
    assert s'.jobs == [Logging(edit, true, purpose)];
    assert Extends(s, s');
    assert JobOk(s', s'.jobs[0]);
    assert s'.jobs[0].Works() == s.jobs[0].Works();
    assert Versions(s') == Versions(s);
  }

  lemma InstalledWritten(s: State)
    requires Written(s) && |s.jobs| == 1 && s.jobs[0].Logging? && JobOk(s, s.jobs[0])
    ensures Written(Installed(s, 0))
  {
  }

  lemma NewVersionFree(s: State)
    requires Core(s) && |s.jobs| == 1 && s.jobs[0].Logging?
    ensures forall f :: f in Installed(s, 0).image.version ==> f.number !in Installed(s, 0).pending
  {
    var s' := Installed(s, 0);
    assert JobOk(s, s.jobs[0]);
    forall f | f in s'.image.version ensures f.number !in s'.pending {
      assert s.image.version in Versions(s);
      if s.jobs[0].purpose.Move? {
        assert f.number in (set g | g in s.image.version :: g.number);
      }
    }
  }

  lemma VersionsGrow(s: State, s': State)
    requires VersionsOk(Versions(s), s.tables, s.nextFile, s.pending)
    requires Versions(s') <= Versions(s) + {s'.image.version}
    requires s'.tables == s.tables && s'.nextFile == s.nextFile && s'.pending <= s.pending
    requires Stored(s'.image.version, s.tables) && Below(s'.image.version, s.nextFile)
    requires forall f :: f in s'.image.version ==> f.number !in s'.pending
    ensures VersionsOk(Versions(s'), s'.tables, s'.nextFile, s'.pending)
  {
  }

  lemma InstalledList(s: State)
    requires |s.jobs| == 1 && s.jobs[0].Logging?
    ensures Versions(Installed(s, 0)) <= Versions(s) + {Installed(s, 0).image.version}
  {
    var s' := Installed(s, 0);
    assert s'.jobs == [s'.jobs[0]] && s.jobs[0] in s.jobs;
    assert s'.jobs[0].Works() <= s.jobs[0].Works();
  }

  lemma InstalledImage(s: State)
    requires Core(s) && |s.jobs| == 1 && s.jobs[0].Logging?
    ensures var s' := Installed(s, 0);
            ImageOk(s'.image, s'.tables, s'.history, s'.nextFile, s'.last) && s'.image.floor <= Horizon(s')
  {
    var Logging(edit, _, purpose) := s.jobs[0];
    assert JobOk(s, s.jobs[0]);
    ImageFrame(Edited(s.image, edit, purpose, s.rotated), s.tables, s.tables, s.history, s.history,
               edit.nextFile, s.nextFile, edit.lastSequence, s.last);
  }

  lemma InstalledJobs(s: State)
    requires Core(s) && |s.jobs| == 1 && s.jobs[0].Logging? && s.jobs[0].written
    ensures var s' := Installed(s, 0);
            |s'.jobs| == 1 && JobOk(s', s'.jobs[0]) && Durable(s') == s'.image == Durable(s)
  {
    assert JobOk(s, s.jobs[0]);
  }

  lemma InstalledCore(s: State, s': State)
    requires Core(s)
    requires s' == s.(image := s'.image, imm := s'.imm, hasImm := s'.hasImm, pending := s'.pending, jobs := s'.jobs)
    requires Counted(s') && Written(s') && s'.image.floor <= Horizon(s')
    requires ImageOk(s'.image, s'.tables, s'.history, s'.nextFile, s'.last) && Durable(s') == Durable(s)
    requires VersionsOk(Versions(s'), s'.tables, s'.nextFile, s'.pending)
    requires |s'.jobs| == 1 && JobOk(s', s'.jobs[0])
    ensures Core(s')
  {
  }

  lemma InstalledKeeps(s: State)
    requires Core(s) && |s.jobs| == 1 && s.jobs[0].Logging? && s.jobs[0].written
    ensures Single(Installed(s, 0))
  {
    var s' := Installed(s, 0);
    InstalledJobs(s);
    InstalledImage(s);
    assert Written(s') by {
      assert JobOk(s, s.jobs[0]);
      InstalledWritten(s);
    }
    NewVersionFree(s);
    InstalledList(s);
    VersionsGrow(s, s');
    InstalledCore(s, s');
  }

  ghost function LiveTables(s: State): Store {
    map n | n in s.tables && IsLive(s, n) :: s.tables[n]
  }

  lemma DeleteInside(s: State, w: Work)
    requires Settled(s) && s.jobs == [Merging(w)]
    ensures JobOk(s.(tables := LiveTables(s)), Merging(w))
  {
    var s1 := s.(tables := LiveTables(s));
    MergingFacts(s, w);
    WorkRetables(s, s1, w);
  }

  lemma LiveAgree(s: State)
    ensures AgreeAll(Versions(s), s.tables, LiveTables(s))
    ensures forall n :: n in s.pending && n in s.tables ==> n in LiveTables(s)
  {
  }

  lemma DeleteTables(s: State)
    requires Settled(s) && (s.jobs == [] || s.jobs == [Queued] || (|s.jobs| == 1 && s.jobs[0].Merging?))
    ensures Settled(s.(tables := LiveTables(s)))
  {
    var s1 := s.(tables := LiveTables(s));
    LiveAgree(s);
    if s.jobs != [] && s.jobs[0].Merging? {
      DeleteInside(s, s.jobs[0].work);
    } else if s.jobs != [] {
      assert JobOk(s1, Queued);
    }
    RetableKeeps(s, s1);
  }

  lemma DeleteLogs(s: State)
    requires Settled(s)
    ensures Settled(s.(logs := map n | n in s.logs && n >= s.image.logNumber :: s.logs[n]))
  {
    var s' := s.(logs := map n | n in s.logs && n >= s.image.logNumber :: s.logs[n]);
    assert Extends(s, s');
    assert Written(s');
    ExtendsKeeps(s, s');
    assert Versions(s') == Versions(s);
  }

  // No file a version, an unfinished output or a recovery needs is deleted
  lemma DeleteKeeps(s: State)
    requires Settled(s) && (s.jobs == [] || s.jobs == [Queued] || (|s.jobs| == 1 && s.jobs[0].Merging?))
    ensures Settled(DeleteObsolete(s))
  {
    if !s.error {
      DeleteTables(s);
      DeleteLogs(s.(tables := LiveTables(s)));
    }
  }

  lemma DeleteAndEnd(s: State, needs: bool)
    requires Single(s) && s.jobs[0].Queued?
    ensures Invariant(MaybeSchedule(DeleteObsolete(s.(jobs := Drop(s.jobs, 0), scheduled := false)), needs))
  {
    var s2 := s.(jobs := Drop(s.jobs, 0), scheduled := false);
    EndCore(s);
    DeleteKeeps(s2);
    ScheduleKeeps(DeleteObsolete(s2), needs);
  }

  lemma DeleteAndResume(s: State)
    requires Single(s) && s.jobs[0].Merging? && s.imm.None?
    ensures Invariant(DeleteObsolete(s))
  {
    DeleteKeeps(s);
  }

  lemma InstallKeeps(s: State, needs: bool)
    requires Invariant(s) && |s.jobs| == 1 && s.jobs[0].Logging? && s.jobs[0].written
    ensures Invariant(Install(s, 0, needs))
  {
    InstalledKeeps(s);
    match s.jobs[0].purpose
    case Move => EndKeeps(Installed(s, 0), needs);
    case Flush(Some(_)) => DeleteAndResume(Installed(s, 0));
    case _ => DeleteAndEnd(Installed(s, 0), needs);
  }
}
