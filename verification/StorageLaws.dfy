// What the steps of DBImpl must also do, beside keeping its data: schedule work that is needed, flush first,
// drop no more and no less than the oldest snapshot allows, and leave no obsolete file.
module StorageLaws {
  import opened Options
  import opened Entries
  import opened Tables
  import opened Storage
  import opened StorageProofs

  // versions_->NeedsCompaction() at the step's call of MaybeScheduleCompaction
  predicate Needs(step: Step) {
    match step
    case Rotating(needs) => needs
    case Requesting(needs) => needs
    case Starting(_, _, _, needs) => needs
    case BuildingDone(_, _, _, needs) => needs
    case MergeFailing(_, needs) => needs
    case Installing(_, needs) => needs
    case _ => false
  }

  // There is a job exactly if one is scheduled
  predicate OneJob(s: State) {
    |s.jobs| == if s.scheduled then 1 else 0
  }

  // What MaybeScheduleCompaction owes: a job if there is something to do, and none for nothing
  ghost predicate Owes(s: State, s': State, needs: bool) {
    && OneJob(s')
    && (needs ==> s'.scheduled || s'.error || s'.shutdown)
    && (!s.scheduled && s'.scheduled ==> (s'.imm.Some? || needs) && !s'.error && !s'.shutdown)
  }

  lemma AskedOwes(s: State, needs: bool)
    requires OneJob(s)
    ensures Owes(s, MaybeSchedule(s, needs), needs)
  {
  }

  lemma EndOwes(s: State, j: nat, needs: bool)
    requires OneJob(s) && j < |s.jobs|
    ensures Owes(s, EndJob(s, j, needs), needs)
  {
    AskedOwes(s.(jobs := Drop(s.jobs, j), scheduled := false), needs);
  }

  lemma StartOwes(s: State, j: nat, pick: Option<Work>, moving: bool, needs: bool)
    requires OneJob(s) && j < |s.jobs|
    ensures Owes(s, Start(s, j, pick, moving, needs), needs)
  {
    EndOwes(s, j, needs);
  }

  lemma BuiltOwes(s: State, j: nat, ok: bool, level: nat, needs: bool)
    requires OneJob(s) && j < |s.jobs| && s.jobs[j].Building? && s.imm.Some? && s.imm.value < |s.mems|
    ensures Owes(s, Built(s, j, ok, level, needs), needs)
  {
    var Building(n, within) := s.jobs[j];
    var es := s.mems[s.imm.value];
    var s1 := s.(pending := s.pending - {n}, tables := if ok && es != {} then s.tables[n := es] else s.tables - {n});
    EndOwes(s1.(error := true), j, needs);
  }

  lemma InstallOwes(s: State, j: nat, needs: bool)
    requires OneJob(s) && j < |s.jobs| && s.jobs[j].Logging?
    ensures Owes(s, Install(s, j, needs), needs)
  {
    var s1 := Installed(s, j);
    EndOwes(s1, j, needs);
    AskedOwes(DeleteObsolete(s1.(jobs := Drop(s1.jobs, j), scheduled := false)), needs);
  }

  // After any step a needed compaction is scheduled, or one is under way, unless there is an error or a shutdown;
  // and a job is scheduled only for a full memtable or a needed compaction, and neither after an error nor in a
  // shutdown
  lemma ScheduledExactly(s: State, step: Step)
    requires OneJob(s) && Enabled(s, step)
    ensures Owes(s, Apply(s, step), Needs(step))
  {
    match step
    case Rotating(needs) => AskedOwes(Rotated(s), needs);
    case Requesting(needs) => AskedOwes(s, needs);
    case Starting(j, pick, moving, needs) => StartOwes(s, j, pick, moving, needs);
    case BuildingDone(j, ok, level, needs) => BuiltOwes(s, j, ok, level, needs);
    case MergeFailing(j, needs) => EndOwes(s.(error := true, pending := s.pending - s.jobs[j].work.outputs), j, needs);
    case Installing(j, needs) => InstallOwes(s, j, needs);
    case _ =>
  }

  // No compaction starts, and no file is moved, while a full memtable waits
  lemma FlushComesFirst(s: State, step: Step)
    requires Core(s) && Enabled(s, step) && step.Starting? && s.imm.Some? && !s.error && !s.shutdown
    ensures var s' := Apply(s, step);
            s'.jobs == [Building(s.nextFile, None)] && s'.pending == s.pending + {s.nextFile} && s.nextFile !in s.pending
  {
  }

  // The limit below which entries may be dropped is the oldest sequence that can still be read: every snapshot
  // and the last sequence are at or after it, and it is one of them
  lemma HorizonIsOldest(s: State)
    requires SnapshotsOk(s.snapshots, s.last)
    ensures Horizon(s) <= s.last && forall n :: n in s.snapshots ==> Horizon(s) <= n
    ensures Horizon(s) in s.snapshots || (s.snapshots == [] && Horizon(s) == s.last)
  {
  }

  // A compaction drops as much as it may
  lemma DropsFromHorizon(s: State, step: Step)
    requires Core(s) && Enabled(s, step) && step.Starting? && step.pick.Some? && !step.moving
    ensures var s' := Apply(s, step);
            forall w :: Merging(w) in s'.jobs ==>
              w.smallest <= s.last && (forall n :: n in s.snapshots ==> w.smallest <= n)
              && (w.smallest in s.snapshots || (s.snapshots == [] && w.smallest == s.last))
  {
    HorizonIsOldest(s);
  }

  // A file of one of the versions in use, or one being written
  ghost predicate InUse(s: State, n: nat) {
    || n in s.pending
    || (exists f :: f in s.image.version && f.number == n)
    || (exists i, f :: 0 <= i < |s.readers| && f in s.readers[i].version && f.number == n)
    || (exists i, w, f :: 0 <= i < |s.jobs| && w in s.jobs[i].Works() && f in w.base && f.number == n)
  }

  lemma InUseIsLive(s: State, n: nat)
    requires InUse(s, n)
    ensures IsLive(s, n)
  {
    forall i | 0 <= i < |s.readers| ensures s.readers[i].version in Versions(s) {
      assert s.readers[i] in s.readers;
    }
    forall i, w | 0 <= i < |s.jobs| && w in s.jobs[i].Works() ensures w.base in Versions(s) {
      BaseLive(s, s.jobs[i], w);
    }
    assert s.image.version in Versions(s);
  }

  lemma VersionInUse(s: State, v: Version, f: File)
    requires v in Versions(s) && f in v
    ensures InUse(s, f.number)
  {
    if v != s.image.version {
      if exists r :: r in s.readers && r.version == v {
        var r :| r in s.readers && r.version == v;
        var i :| 0 <= i < |s.readers| && s.readers[i] == r;
        assert f in s.readers[i].version;
      } else {
        var job, w :| job in s.jobs && w in job.Works() && w.base == v;
        var i :| 0 <= i < |s.jobs| && s.jobs[i] == job;
        assert w in s.jobs[i].Works() && f in w.base;
      }
    }
  }

  lemma LiveExactly(s: State, n: nat)
    ensures IsLive(s, n) <==> InUse(s, n)
  {
    forall v, f | v in Versions(s) && f in v && f.number == n ensures InUse(s, n) {
      VersionInUse(s, v, f);
    }
    if InUse(s, n) {
      InUseIsLive(s, n);
    }
  }

  // A deletion leaves just the tables in use and the logs from the log number on; after an error it deletes nothing
  lemma NothingObsolete(s: State)
    ensures var s' := DeleteObsolete(s);
            && (s.error ==> s' == s)
            && (!s.error ==> s' == s.(tables := s'.tables, logs := s'.logs))
            && (!s.error ==> forall n :: n in s'.tables <==> n in s.tables && InUse(s, n))
            && (!s.error ==> forall n :: n in s'.logs <==> n in s.logs && n >= s.image.logNumber)
            && (forall n :: n in s'.tables ==> s'.tables[n] == s.tables[n])
            && (forall n :: n in s'.logs ==> s'.logs[n] == s.logs[n])
  {
    forall n ensures IsLive(s, n) <==> InUse(s, n) {
      LiveExactly(s, n);
    }
  }

  // ---- What a write is to reads ----

  lemma GroupAfter(group: Group, last: nat, e: Entry)
    requires NumberedFrom(group, last + 1) && e in Elements(group)
    ensures last < e.sequence <= last + |group|
  {
    var i :| 0 <= i < |group| && group[i] == e;
  }

  lemma HistoryGrows(history: seq<Group>, writer: Writer, last: nat)
    requires SequencesOk(history, writer, last) && writer.Inserting?
    ensures NumberedFrom(writer.group, last + 1) && AtMost(All(history), last)
    ensures All(history + [writer.group]) == All(history) + Elements(writer.group)
    ensures Unique(All(history) + Elements(writer.group))
  {
    assert history + writer.Logged() == history + [writer.group];
    OrderedUnique(history + [writer.group]);
    AllJoin(history, [writer.group]);
    AllOne(writer.group);
  }

  // The last operation on a key is its newest entry
  lemma LastDecides(db: set<Entry>, all: set<Entry>, group: Group, last: nat, i: nat, n: nat)
    requires NumberedFrom(group, last + 1) && AtMost(db, last) && all == db + Elements(group) && Unique(all) && n == last + |group|
    requires i < |group| && forall j :: i < j < |group| ==> group[j].key != group[i].key
    ensures Read(all, group[i].key, n) == if group[i].kind.Value? then Some(group[i].value) else None
  {
    var e := group[i];
    assert e in Elements(group) && e in all;
    assert Newest(all, e.key, n, e);
    ReadNewest(all, e.key, n, e);
  }

  lemma OthersStay(db: set<Entry>, all: set<Entry>, group: Group, k: int, last: nat, n: nat)
    requires AtMost(db, last) && all == db + Elements(group) && Unique(all) && n >= last
    requires forall i :: 0 <= i < |group| ==> group[i].key != k
    ensures Read(all, k, n) == Read(db, k, last)
  {
    assert forall e :: e in Elements(group) ==> e.key != k;
    ReadDependsOnVisible(all, db, k, n, last);
  }

  // A reader that starts once a batch is published sees the last operation on each of its keys
  lemma PublishedIsSeen(s: State, i: nat)
    requires SequencesOk(s.history, s.writer, s.last) && s.writer.Inserting?
    requires i < |s.writer.group| && forall j :: i < j < |s.writer.group| ==> s.writer.group[j].key != s.writer.group[i].key
    ensures var s', e := Publish(s), s.writer.group[i];
            Read(All(s'.history), e.key, s'.last) == if e.kind.Value? then Some(e.value) else None
  {
    var s' := Publish(s);
    HistoryGrows(s.history, s.writer, s.last);
    LastDecides(All(s.history), All(s'.history), s.writer.group, s.last, i, s'.last);
  }

  // and on other keys what was there
  lemma OtherKeysStay(s: State, k: int)
    requires SequencesOk(s.history, s.writer, s.last) && s.writer.Inserting?
    requires forall i :: 0 <= i < |s.writer.group| ==> s.writer.group[i].key != k
    ensures Read(All(Publish(s).history), k, Publish(s).last) == Read(All(s.history), k, s.last)
  {
    var s' := Publish(s);
    HistoryGrows(s.history, s.writer, s.last);
    OthersStay(All(s.history), All(s'.history), s.writer.group, k, s.last, s'.last);
  }

  // One that started earlier sees nothing of it
  lemma EarlierUnchanged(s: State, k: int, earlier: nat)
    requires SequencesOk(s.history, s.writer, s.last) && s.writer.Inserting? && earlier <= s.last
    ensures Read(All(Publish(s).history), k, earlier) == Read(All(s.history), k, earlier)
  {
    var group := s.writer.group;
    HistoryGrows(s.history, s.writer, s.last);
    forall e | e in Elements(group) ensures !IsVisible(e, k, earlier) {
      GroupAfter(group, s.last, e);
    }
    ReadDependsOnVisible(All(s.history) + Elements(group), All(s.history), k, earlier, earlier);
  }
}
