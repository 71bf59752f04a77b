// DBImpl's fields and the methods that change them, one region between mutex releases at a time.
module DbImpl {
  import opened Options
  import opened Entries
  import opened Tables
  import opened Ranges
  import opened Storage
  import opened StorageProofs
  import opened StorageJobs

  // What a turn of the loop of MakeRoomForWrite comes to
  datatype Verdict = HasRoom | OldError | Delayed | Waits | NoLog | Switched

  // A file of the database directory
  datatype FileName = TableName(number: nat) | LogName(number: nat) | OtherName

  class DBImpl {
    var mems: seq<set<Entry>>
    var imm: Option<nat>
    var hasImm: bool
    var image: Image
    var logfile: nat
    var nextFile: nat
    var last: nat
    var pending: set<nat>
    var snapshots: seq<nat>
    var readers: seq<Reader>
    var writer: Writer
    var jobs: seq<Job>
    var scheduled: bool
    var error: bool
    var shutdown: bool
    var manifest: Manifest
    var tables: Store
    var logs: map<nat, seq<Group>>
    ghost var history: seq<Group>
    ghost var rotated: nat

    ghost function View(): State
      reads this
    {
      State(mems, imm, hasImm, image, logfile, nextFile, last, pending, snapshots, readers, writer, jobs, scheduled,
            error, shutdown, manifest, tables, logs, history, rotated)
    }

    method MaybeScheduleCompaction(needs: bool)
      modifies this`scheduled, this`jobs
      ensures View() == MaybeSchedule(old(View()), needs)
    {
      if scheduled {
      } else if shutdown {
      } else if error {
      } else if imm.None? && !needs {
      } else {
        scheduled := true;
        jobs := jobs + [Queued];
      }
    }

    // One turn of MakeRoomForWrite; Delayed and Waits release the mutex. full is whether the memtable has
    // outgrown write_buffer_size, slow and stop whether level 0 has reached its triggers.
    method MakeRoomTurn(force: bool, allowDelay: bool, full: bool, slow: bool, stop: bool, newLog: bool, needs: bool)
      returns (verdict: Verdict)
      requires mems != []
      modifies this
      ensures verdict == if error then OldError
                         else if allowDelay && slow then Delayed
                         else if !force && !full then HasRoom
                         else if old(imm).Some? || stop then Waits
                         else if !newLog then NoLog
                         else Switched
      ensures View() == if verdict.Switched? then Rotate(old(View()), needs) else old(View())
    {
      if error {
        return OldError;
      } else if allowDelay && slow {
        return Delayed;
      } else if !force && !full {
        return HasRoom;
      } else if imm.Some? {
        return Waits;
      } else if stop {
        return Waits;
      }
      var newLogNumber := nextFile;
      nextFile := nextFile + 1;
      if !newLog {
        // ReuseFileNumber
        if nextFile == newLogNumber + 1 {
          nextFile := newLogNumber;
        }
        return NoLog;
      }
      SwitchLog(newLogNumber);
      SwitchMemtable();
      MaybeScheduleCompaction(needs);
      return Switched;
    }

    // The new log file
    method SwitchLog(newLogNumber: nat)
      modifies this`logs, this`logfile
      ensures View() == old(View()).(logs := old(logs)[newLogNumber := []], logfile := newLogNumber)
    {
      logfile := newLogNumber;
      logs := logs[newLogNumber := []];
    }

    // The memtable becomes the immutable one
    method SwitchMemtable()
      requires mems != []
      modifies this`imm, this`hasImm, this`mems, this`rotated
      ensures View() == old(View()).(imm := Some(|old(mems)| - 1), hasImm := true, mems := old(mems) + [{}], rotated := |history|)
    {
      rotated := |history|;
      imm := Some(|mems| - 1);
      hasImm := true;
      mems := mems + [{}];
    }

    // ---- Deleting files ----

    // pending_outputs_ and what AddLiveFiles adds: the files of every version in the list
    function LiveFiles(): set<nat>
      reads this
    {
      pending + (set v, f | v in VersionList() && f in v :: f.number)
    }

    function VersionList(): set<Version>
      reads this
    {
      {image.version} + (set r | r in readers :: r.version) + (set j, w | j in jobs && w in j.Works() :: w.base)
    }

    lemma LiveIsLive()
      ensures forall n :: n in LiveFiles() <==> IsLive(View(), n)
    {
      assert VersionList() == Versions(View());
    }

    method DeleteObsoleteFiles(filenames: seq<FileName>)
      requires forall n :: n in tables ==> TableName(n) in filenames
      requires forall n :: n in logs ==> LogName(n) in filenames
      modifies this`tables, this`logs
      ensures View() == DeleteObsolete(old(View()))
    {
      if error {
        return;
      }
      LiveIsLive();
      var live := LiveFiles();
      ghost var t0, l0 := tables, logs;
      Sweep(filenames, live);
      assert tables == map n | n in t0 && IsLive(old(View()), n) :: t0[n];
      assert logs == map n | n in l0 && n >= image.logNumber :: l0[n];
    }

    // The loop over the directory
    method Sweep(filenames: seq<FileName>, live: set<nat>)
      requires forall n :: n in tables ==> TableName(n) in filenames
      requires forall n :: n in logs ==> LogName(n) in filenames
      modifies this`tables, this`logs
      ensures tables == map n | n in old(tables) && n in live :: old(tables)[n]
      ensures logs == map n | n in old(logs) && n >= image.logNumber :: old(logs)[n]
    {
      ghost var t0, l0 := tables, logs;
      var i := 0;
      while i < |filenames|
        invariant 0 <= i <= |filenames|
        invariant tables == map n | n in t0 && (n in live || TableName(n) !in filenames[..i]) :: t0[n]
        invariant logs == map n | n in l0 && (n >= image.logNumber || LogName(n) !in filenames[..i]) :: l0[n]
      {
        assert filenames[..i + 1] == filenames[..i] + [filenames[i]];
        var filename := filenames[i];
        i := i + 1;
        match filename
        case TableName(number) =>
          if number !in live {
            tables := tables - {number};
          }
        case LogName(number) =>
          if number < image.logNumber {
            logs := logs - {number};
          }
        case OtherName =>
      }
      assert filenames[..i] == filenames;
    }

    // ---- The background job ----

    method EndBackgroundCall(needs: bool)
      requires |jobs| == 1
      modifies this`jobs, this`scheduled
      ensures View() == EndJob(old(View()), 0, needs)
    {
      jobs := Drop(jobs, 0);
      scheduled := false;
      MaybeScheduleCompaction(needs);
    }

    // NewFileNumber, the entry in pending_outputs_ and the file
    method NewTableFile() returns (number: nat)
      modifies this`nextFile, this`pending, this`tables
      ensures View() == NewTable(old(View())) && number == old(nextFile)
    {
      number := nextFile;
      nextFile := nextFile + 1;
      pending := pending + {number};
      tables := tables[number := {}];
    }

    // BackgroundCall and BackgroundCompaction, up to where the mutex is released
    method BackgroundCall(pick: Option<Work>, moving: bool, needs: bool)
      requires |jobs| == 1 && jobs[0].Queued?
      modifies this`jobs, this`scheduled, this`nextFile, this`pending, this`tables
      ensures View() == Start(old(View()), 0, pick, moving, needs)
    {
      if shutdown || error {
        EndBackgroundCall(needs);
      } else if imm.Some? {
        var number := NewTableFile();
        jobs := jobs[0 := Building(number, None)];
      } else if pick.None? {
        EndBackgroundCall(needs);
      } else if moving {
        var w := pick.value;
        var added := set f | f in w.inputs :: File(f.number, f.level + 1);
        jobs := jobs[0 := Logging(Edit(w.inputs, added, image.logNumber, nextFile, last), false, Move)];
      } else {
        jobs := jobs[0 := Merging(pick.value)];
      }
    }

    // CompactMemTable from the end of BuildTable to LogAndApply, or to the error
    method TableBuilt(ok: bool, level: nat, needs: bool)
      requires |jobs| == 1 && jobs[0].Building? && imm.Some? && imm.value < |mems|
      modifies this`jobs, this`scheduled, this`pending, this`tables, this`error
      ensures View() == Built(old(View()), 0, ok, level, needs)
    {
      var Building(number, within) := jobs[0];
      var entries := mems[imm.value];
      FinishTable(number, ok && entries != {}, entries);
      if ok && !shutdown {
        var added := if entries == {} then {} else {File(number, level)};
        jobs := jobs[0 := Logging(Edit({}, added, logfile, nextFile, last), false, Flush(within))];
      } else {
        RecordError(within, needs);
      }
    }

    method FinishTable(number: nat, keep: bool, entries: set<Entry>)
      modifies this`pending, this`tables
      ensures View() == old(View()).(pending := old(pending) - {number},
                                     tables := if keep then old(tables)[number := entries] else old(tables) - {number})
    {
      pending := pending - {number};
      tables := if keep then tables[number := entries] else tables - {number};
    }

    // RecordBackgroundError, and on to the end of the job or back to the compaction
    method RecordError(within: Option<Work>, needs: bool)
      requires |jobs| == 1
      modifies this`jobs, this`scheduled, this`error
      ensures View() == var s := old(View()).(error := true);
                        if within.None? then EndJob(s, 0, needs) else s.(jobs := s.jobs[0 := Merging(within.value)])
    {
      error := true;
      if within.None? {
        EndBackgroundCall(needs);
      } else {
        jobs := jobs[0 := Merging(within.value)];
      }
    }

    // ---- The regions keep the invariant ----

    method MakeRoomKeeps(force: bool, allowDelay: bool, full: bool, slow: bool, stop: bool, newLog: bool, needs: bool)
      returns (verdict: Verdict)
      requires Invariant(View()) && writer.NoWriter?
      modifies this
      ensures Invariant(View())
    {
      ghost var s := View();
      verdict := MakeRoomTurn(force, allowDelay, full, slow, stop, newLog, needs);
      if verdict.Switched? {
        RotateKeeps(s, needs);
      }
    }

    method BackgroundCallKeeps(pick: Option<Work>, moving: bool, needs: bool)
      requires Invariant(View()) && |jobs| == 1 && jobs[0].Queued?
      requires pick.Some? ==> Chosen(View(), pick.value, moving)
      modifies this`jobs, this`scheduled, this`nextFile, this`pending, this`tables
      ensures Invariant(View())
    {
      StartKeeps(View(), pick, moving, needs);
      BackgroundCall(pick, moving, needs);
    }

    method TableBuiltKeeps(ok: bool, level: nat, needs: bool)
      requires Invariant(View()) && |jobs| == 1 && jobs[0].Building? && imm.Some? && imm.value < |mems|
      requires PastLevels(image.version, tables, mems[imm.value], level)
      modifies this`jobs, this`scheduled, this`pending, this`tables, this`error
      ensures Invariant(View())
    {
      PastCanPush(image.version, tables, mems[imm.value], level);
      BuiltKeeps(View(), ok, level, needs);
      TableBuilt(ok, level, needs);
    }
  }
}
