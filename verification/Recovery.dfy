// Crashing and opening the database again: DBImpl::Recover, RecoverLogFile and DB::Open.
module Recovery {
  import opened Options
  import opened Entries
  import opened Tables
  import opened Storage
  import opened StorageProofs
  import opened StorageJobs

  datatype Disk = Disk(manifest: Manifest, tables: Store, logs: map<nat, seq<Group>>)

  // The groups of the logs numbered from lo up to hi, in order
  function Replay(logs: map<nat, seq<Group>>, lo: nat, hi: nat): seq<Group>
    decreases hi - lo
  {
    if lo >= hi then [] else (if lo in logs then logs[lo] else []) + Replay(logs, lo + 1, hi)
  }

  // A crash keeps the first groups of the newest log
  function Crashed(s: State, keep: nat): Disk
    requires s.logfile in s.logs && keep <= |s.logs[s.logfile]|
  {
    Disk(s.manifest, s.tables, s.logs[s.logfile := s.logs[s.logfile][..keep]])
  }

  // What is left of the history: every group published or logged, up to a point in mem_'s log
  function Surviving(s: State, keep: nat): seq<Group>
    requires s.rotated + keep <= |s.history + s.writer.Logged()|
  {
    (s.history + s.writer.Logged())[..s.rotated + keep]
  }

  ghost predicate DiskOk(d: Disk, history: seq<Group>, image: Image) {
    && Ordered(history)
    && d.manifest.version == image.version && d.manifest.logNumber == image.logNumber
    && ImageOk(image, d.tables, history, d.manifest.nextFile, d.manifest.lastSequence)
    && (forall hi: nat :: (forall n :: n in d.logs ==> n < hi) ==>
          Replay(d.logs, image.logNumber, hi) == history[image.flushed..])
  }

  lemma {:induction false} ReplayNothing(logs: map<nat, seq<Group>>, lo: nat, hi: nat)
    requires forall n :: n in logs && lo <= n < hi ==> logs[n] == []
    ensures Replay(logs, lo, hi) == []
    decreases hi - lo
  {
    if lo < hi {
      ReplayNothing(logs, lo + 1, hi);
    }
  }

  lemma {:induction false} ReplayOne(logs: map<nat, seq<Group>>, lo: nat, a: nat, hi: nat)
    requires lo <= a < hi && a in logs
    requires forall n :: n in logs && lo <= n < hi ==> n == a
    ensures Replay(logs, lo, hi) == logs[a]
    decreases hi - lo
  {
    if lo == a {
      ReplayNothing(logs, lo + 1, hi);
    } else {
      ReplayOne(logs, lo + 1, a, hi);
    }
  }

  // Logs with no groups in them make no difference
  lemma {:induction false} ReplayExtra(logs: map<nat, seq<Group>>, n: nat, lo: nat, hi: nat)
    requires n !in logs
    ensures Replay(logs[n := []], lo, hi) == Replay(logs, lo, hi)
    decreases hi - lo
  {
    if lo < hi {
      ReplayExtra(logs, n, lo + 1, hi);
    }
  }

  lemma SliceJoin<T>(all: seq<T>, a: nat, b: nat, c: nat)
    requires a <= b <= c <= |all|
    ensures all[a..b] + all[b..c] == all[..c][a..]
  {
  }

  lemma ReplayTwo(logs: map<nat, seq<Group>>, a: nat, b: nat, hi: nat)
    requires a < b < hi && a in logs && b in logs
    requires forall n :: n in logs && n >= a ==> n == a || n == b
    ensures Replay(logs, a, hi) == logs[a] + logs[b]
  {
    ReplayOne(logs, a + 1, b, hi);
  }

  // What Recover selects, whichever of the two versions the manifest names
  lemma ReplayCrashed(s: State, keep: nat, image: Image, hi: nat)
    requires LogsOk(s.logs, s.image.logNumber, s.logfile, s.imm, s.history, s.image.flushed, s.rotated, s.writer)
    requires s.imm.None? ==> s.image.flushed == s.rotated
    requires keep <= |s.logs[s.logfile]|
    requires (image.logNumber == s.image.logNumber && image.flushed == s.image.flushed) ||
             (image.logNumber == s.logfile && image.flushed == s.rotated)
    requires forall n :: n in s.logs ==> n < hi
    ensures s.rotated + keep <= |s.history + s.writer.Logged()| && image.flushed <= s.rotated
    ensures Replay(Crashed(s, keep).logs, image.logNumber, hi) == Surviving(s, keep)[image.flushed..]
  {
    var all := s.history + s.writer.Logged();
    var logs := Crashed(s, keep).logs;
    assert s.logs[s.logfile] == all[s.rotated..];
    assert logs[s.logfile] == all[s.rotated..s.rotated + keep];
    if image.logNumber == s.logfile {
      ReplayOne(logs, image.logNumber, s.logfile, hi);
      assert image.flushed == s.rotated;
      SliceJoin(all, s.rotated, s.rotated, s.rotated + keep);
    } else {
      assert logs[image.logNumber] == all[s.image.flushed..s.rotated];
      ReplayTwo(logs, image.logNumber, s.logfile, hi);
      SliceJoin(all, s.image.flushed, s.rotated, s.rotated + keep);
    }
  }

  lemma DurableLogs(s: State)
    requires Core(s)
    ensures var d := Durable(s);
            (d.logNumber == s.image.logNumber && d.flushed == s.image.flushed) ||
            (d.logNumber == s.logfile && d.flushed == s.rotated)
  {
    if |s.jobs| == 1 {
      assert JobOk(s, s.jobs[0]);
    }
  }

  lemma ShorterImage(image: Image, t: Store, history: seq<Group>, history': seq<Group>, n: nat, last: nat)
    requires ImageOk(image, t, history, n, last)
    requires image.flushed <= |history'| && history'[..image.flushed] == history[..image.flushed]
    ensures ImageOk(image, t, history', n, last)
  {
  }

  lemma CrashedLogs(s: State, keep: nat, image: Image)
    requires Core(s) && keep <= |s.logs[s.logfile]| && image == Durable(s)
    ensures s.rotated + keep <= |s.history + s.writer.Logged()| && image.flushed <= s.rotated
    ensures forall hi: nat :: (forall n :: n in Crashed(s, keep).logs ==> n < hi) ==>
              Replay(Crashed(s, keep).logs, image.logNumber, hi) == Surviving(s, keep)[image.flushed..]
  {
    DurableLogs(s);
    ReplayCrashed(s, keep, image, s.nextFile);
    var logs := Crashed(s, keep).logs;
    assert logs.Keys == s.logs.Keys;
    forall hi: nat | forall n :: n in logs ==> n < hi
      ensures Replay(logs, image.logNumber, hi) == Surviving(s, keep)[image.flushed..]
    {
      ReplayCrashed(s, keep, image, hi);
    }
  }

  lemma SurvivingImage(s: State, keep: nat, image: Image, n: nat, last: nat)
    requires Ordered(s.history + s.writer.Logged()) && ImageOk(image, s.tables, s.history, n, last)
    requires s.rotated + keep <= |s.history + s.writer.Logged()| && image.flushed <= s.rotated <= |s.history|
    ensures Ordered(Surviving(s, keep)) && ImageOk(image, s.tables, Surviving(s, keep), n, last)
  {
    PrefixOrdered(s.history + s.writer.Logged(), s.rotated + keep);
    SlicePrefix(s.history, s.writer.Logged(), s.rotated + keep, image.flushed);
    ShorterImage(image, s.tables, s.history, Surviving(s, keep), n, last);
  }

  lemma PrefixOrdered(groups: seq<Group>, n: nat)
    requires Ordered(groups) && n <= |groups|
    ensures Ordered(groups[..n])
  {
    AllSplit(groups, n);
  }

  lemma SlicePrefix<T>(a: seq<T>, b: seq<T>, n: nat, k: nat)
    requires k <= n <= |a + b| && k <= |a|
    ensures (a + b)[..n][..k] == a[..k]
  {
  }

  // A crash at any point, losing any suffix of the newest log, leaves a database that stands for all
  // groups of the older logs and tables and for a prefix of the newest log's groups, each of them whole.
  lemma CrashIsSafe(s: State, keep: nat)
    requires Core(s) && keep <= |s.logs[s.logfile]|
    ensures s.rotated + keep <= |s.history + s.writer.Logged()|
    ensures DiskOk(Crashed(s, keep), Surviving(s, keep), Durable(s))
  {
    CrashedLogs(s, keep, Durable(s));
    SurvivingImage(s, keep, Durable(s), s.manifest.nextFile, s.manifest.lastSequence);
  }

  // ---- Opening ----

  function Flat(cuts: seq<seq<Group>>): seq<Group> {
    if cuts == [] then [] else cuts[0] + Flat(cuts[1..])
  }

  // RecoverLogFile writes a memtable out when it is large enough, and at the end of each log: cuts
  // are the groups of these memtables, numbers those of their tables.
  ghost function AddTables(v: Version, t: Store, cuts: seq<seq<Group>>, numbers: seq<nat>): (r: (Version, Store))
    requires |cuts| == |numbers|
    decreases |cuts|
  {
    if cuts == [] then (v, t)
    else
      var es := All(cuts[0]);
      AddTables(v + Added(es, numbers[0], 0), if es == {} then t else t[numbers[0] := es], cuts[1..], numbers[1..])
  }

  // The largest sequence number of the groups replayed, if larger than n
  function MaxSequence(groups: seq<Group>, n: nat): nat {
    if groups == [] then n else LaterOf(groups[|groups| - 1], MaxSequence(groups[..|groups| - 1], n))
  }

  function LaterOf(g: Group, m: nat): nat {
    if g != [] && g[|g| - 1].sequence > m then g[|g| - 1].sequence else m
  }

  // DB::Open after Recover, up to LogAndApply
  ghost function Opened(d: Disk, image: Image, history: seq<Group>, groups: seq<Group>, cuts: seq<seq<Group>>, numbers: seq<nat>,
                  next: nat): State
    requires |cuts| == |numbers|
  {
    var (v, t) := AddTables(d.manifest.version, d.tables, cuts, numbers);
    var last := MaxSequence(groups, d.manifest.lastSequence);
    State([{}], None, false, Image(v, next, |history|, image.floor), next, next + 1, last, {}, [], [], NoWriter, [],
          false, false, false, Manifest(v, next, next + 1, last), t, d.logs[next := []], history, |history|)
  }

  // The file numbers NewFileNumber and MarkFileNumberUsed lead to
  ghost predicate Allocated(d: Disk, numbers: seq<nat>, next: nat) {
    && (forall i :: 0 <= i < |numbers| ==> d.manifest.nextFile <= numbers[i] < next)
    && (forall i, j :: 0 <= i < j < |numbers| ==> numbers[i] < numbers[j])
    && (forall n :: n in d.logs ==> n < next)
    && d.manifest.nextFile <= next
  }

  ghost predicate EndsLast(g: Group) {
    forall e :: e in g ==> g != [] && e.sequence <= g[|g| - 1].sequence
  }

  lemma OrderedEnds(groups: seq<Group>)
    requires Ordered(groups)
    ensures forall g :: g in groups ==> EndsLast(g)
  {
  }

  lemma {:induction false} MaxSequenceBounds(groups: seq<Group>, n: nat)
    requires forall g :: g in groups ==> EndsLast(g)
    ensures n <= MaxSequence(groups, n) && AtMost(All(groups), MaxSequence(groups, n))
  {
    if groups != [] {
      var init, g := groups[..|groups| - 1], groups[|groups| - 1];
      assert groups == init + [g];
      AllJoin(init, [g]);
      AllOne(g);
      MaxSequenceBounds(init, n);
      assert EndsLast(g);
    }
  }

  // It is n or the sequence of some operation replayed: no number is skipped
  lemma {:induction false} MaxSequenceTaken(groups: seq<Group>, n: nat)
    ensures MaxSequence(groups, n) == n || exists e :: e in All(groups) && e.sequence == MaxSequence(groups, n)
  {
    if groups != [] {
      var init, g := groups[..|groups| - 1], groups[|groups| - 1];
      assert groups == init + [g];
      AllJoin(init, [g]);
      AllOne(g);
      MaxSequenceTaken(init, n);
      assert g != [] ==> g[|g| - 1] in Elements(g);
    }
  }

  lemma {:induction false} TablesAdded(image: Image, t: Store, history: seq<Group>, cuts: seq<seq<Group>>, numbers: seq<nat>,
                                       n: nat, next: nat, last: nat)
    requires ImageOk(image, t, history, n, last) && Ordered(history) && AtMost(All(history), last)
    requires |cuts| == |numbers| && Flat(cuts) == history[image.flushed..]
    requires forall i :: 0 <= i < |numbers| ==> n <= numbers[i] < next
    requires forall i, j :: 0 <= i < j < |numbers| ==> numbers[i] < numbers[j]
    requires n <= next
    ensures var (v, t') := AddTables(image.version, t, cuts, numbers);
            ImageOk(Image(v, image.logNumber, |history|, image.floor), t', history, next, last)
    decreases |cuts|
  {
    if cuts == [] {
      assert image.flushed == |history|;
    } else {
      var es, m, rotated := All(cuts[0]), numbers[0], image.flushed + |cuts[0]|;
      var t1 := if es == {} then t else t[m := es];
      var rest := history[image.flushed..];
      assert rest == cuts[0] + Flat(cuts[1..]);
      assert cuts[0] == history[image.flushed..rotated] && Flat(cuts[1..]) == history[rotated..];
      ImageFrame(image, t, t1, history, history, n, m + 1, last, last);
      FlushedImage(image, t1, history, rotated, es, m, 0, m + 1, last, image.logNumber);
      assert image.version - {} == image.version;
      TablesAdded(Image(image.version + Added(es, m, 0), image.logNumber, rotated, image.floor), t1, history,
                  cuts[1..], numbers[1..], m + 1, next, last);
    }
  }

  lemma OpenedImage(d: Disk, image: Image, history: seq<Group>, groups: seq<Group>, cuts: seq<seq<Group>>,
                    numbers: seq<nat>, next: nat)
    requires DiskOk(d, history, image) && groups == history[image.flushed..] && Flat(cuts) == groups
    requires |cuts| == |numbers| && Allocated(d, numbers, next)
    ensures var s := Opened(d, image, history, groups, cuts, numbers, next);
            ImageOk(s.image, s.tables, history, next, s.last) && d.manifest.lastSequence <= s.last && AtMost(All(history), s.last)
  {
    var m := d.manifest;
    var last := MaxSequence(groups, m.lastSequence);
    AllSplit(history, image.flushed);
    OrderedEnds(history);
    MaxSequenceBounds(groups, m.lastSequence);
    assert AtMost(All(history), last);
    ImageFrame(image, d.tables, d.tables, history, history, m.nextFile, m.nextFile, m.lastSequence, last);
    TablesAdded(image, d.tables, history, cuts, numbers, m.nextFile, next, last);
  }

  // A state with nothing but a settled image and an empty memtable
  ghost predicate Fresh(s: State) {
    && s.mems == [{}] && s.imm.None? && !s.hasImm && s.rotated == |s.history| == s.image.flushed
    && s.logfile == s.image.logNumber < s.nextFile && s.logfile in s.logs && s.logs[s.logfile] == []
    && s.pending == {} && s.snapshots == [] && s.readers == [] && s.writer.NoWriter? && s.jobs == [] && !s.scheduled
    && (forall n :: n in s.logs ==> n <= s.logfile)
    && s.manifest == Manifest(s.image.version, s.image.logNumber, s.nextFile, s.last)
  }

  lemma FreshWritten(s: State)
    requires Fresh(s) && Ordered(s.history) && AtMost(All(s.history), s.last)
    ensures Written(s)
  {
    assert s.history + s.writer.Logged() == s.history;
    assert s.history[s.rotated..] == [] && All([]) == {};
    assert s.history[s.rotated..] + s.writer.Logged() == [];
  }

  lemma FreshCore(s: State)
    requires Fresh(s) && Ordered(s.history) && AtMost(All(s.history), s.last)
    requires ImageOk(s.image, s.tables, s.history, s.logfile, s.last)
    ensures Settled(s)
  {
    FreshWritten(s);
    ImageFrame(s.image, s.tables, s.tables, s.history, s.history, s.logfile, s.nextFile, s.last, s.last);
    assert Versions(s) == {s.image.version};
  }

  // Opening what a crash left: every group of the surviving history is there again
  lemma OpenKeeps(d: Disk, image: Image, history: seq<Group>, groups: seq<Group>, cuts: seq<seq<Group>>,
                  numbers: seq<nat>, next: nat)
    requires DiskOk(d, history, image) && groups == history[image.flushed..] && Flat(cuts) == groups
    requires |cuts| == |numbers| && Allocated(d, numbers, next)
    ensures var s := Opened(d, image, history, groups, cuts, numbers, next); Settled(s) && s.jobs == [] && s.imm.None?
  {
    OpenedImage(d, image, history, groups, cuts, numbers, next);
    FreshCore(Opened(d, image, history, groups, cuts, numbers, next));
  }

  // The rest of DB::Open: DeleteObsoleteFiles and MaybeScheduleCompaction
  lemma SweepKeeps(s: State, needs: bool)
    requires Settled(s) && s.jobs == []
    ensures Invariant(MaybeSchedule(DeleteObsolete(s), needs))
  {
    DeleteKeeps(s);
    ScheduleKeeps(DeleteObsolete(s), needs);
  }

  // ---- A crash amid the deletions ----

  predicate Needed(d: Disk, n: nat) {
    exists f :: f in d.manifest.version && f.number == n
  }

  // Of the files that recovery does not need, those in gone are no longer there
  ghost function Without(d: Disk, gone: set<nat>): Disk {
    d.(tables := map n | n in d.tables && (n in gone ==> Needed(d, n)) :: d.tables[n],
       logs := map n | n in d.logs && (n in gone ==> n >= d.manifest.logNumber) :: d.logs[n])
  }

  lemma {:induction false} ReplayAgrees(logs: map<nat, seq<Group>>, logs': map<nat, seq<Group>>, lo: nat, hi: nat)
    requires forall n :: lo <= n ==> (n in logs <==> n in logs') && (n in logs ==> logs[n] == logs'[n])
    ensures Replay(logs, lo, hi) == Replay(logs', lo, hi)
    decreases hi - lo
  {
    if lo < hi {
      ReplayAgrees(logs, logs', lo + 1, hi);
    }
  }

  lemma {:induction false} Bounded(ns: set<nat>, hi: nat) returns (bound: nat)
    ensures hi <= bound && forall n :: n in ns ==> n < bound
  {
    bound := hi;
    if n :| n in ns {
      bound := Bounded(ns - {n}, if n < hi then hi else n + 1);
      assert forall m :: m in ns ==> m == n || m in ns - {n};
    }
  }

  // Whatever part of its deletions a crash leaves undone, the disk is as good
  lemma WithoutKeeps(d: Disk, history: seq<Group>, image: Image, gone: set<nat>)
    requires DiskOk(d, history, image)
    ensures DiskOk(Without(d, gone), history, image)
  {
    var d' := Without(d, gone);
    forall f | f in image.version ensures Needed(d, f.number) {}
    ImageAgree(image, d.tables, d'.tables, history, d.manifest.nextFile, d.manifest.lastSequence);
    forall hi: nat | forall n :: n in d'.logs ==> n < hi
      ensures Replay(d'.logs, image.logNumber, hi) == history[image.flushed..]
    {
      var lo := image.logNumber;
      var bound := Bounded(d.logs.Keys, hi);
      ReplayAgrees(d.logs, d'.logs, lo, bound);
      if lo <= hi {
        ReplayJoin(d'.logs, lo, hi, bound);
        ReplayNothing(d'.logs, hi, bound);
      } else {
        ReplayNothing(d'.logs, lo, bound);
      }
    }
  }

  // A crash while opening, before the manifest is written: tables not yet named and an empty log
  lemma FailedOpenKeeps(d: Disk, history: seq<Group>, image: Image, t: Store, n: nat)
    requires DiskOk(d, history, image) && TablesKeep(d.tables, t, d.manifest.nextFile) && n !in d.logs
    ensures DiskOk(d.(tables := t, logs := d.logs[n := []]), history, image)
  {
    var d' := d.(tables := t, logs := d.logs[n := []]);
    var m := d.manifest;
    ImageFrame(image, d.tables, t, history, history, m.nextFile, m.nextFile, m.lastSequence, m.lastSequence);
    forall hi: nat | forall k :: k in d'.logs ==> k < hi
      ensures Replay(d'.logs, image.logNumber, hi) == history[image.flushed..]
    {
      assert forall k :: k in d.logs ==> k in d'.logs;
      ReplayExtra(d.logs, n, image.logNumber, hi);
    }
  }

  // ---- The loops of Recover and RecoverLogFile ----

  lemma {:induction false} FlatJoin(a: seq<seq<Group>>, b: seq<seq<Group>>)
    ensures Flat(a + b) == Flat(a) + Flat(b)
  {
    if a == [] {
      assert a + b == b;
    } else {
      FlatJoin(a[1..], b);
      assert (a + b)[0] == a[0] && (a + b)[1..] == a[1..] + b;
      assert Flat(a + b) == a[0] + Flat((a + b)[1..]);
    }
  }

  lemma FlatSnoc(cuts: seq<seq<Group>>, c: seq<Group>)
    ensures Flat(cuts + [c]) == Flat(cuts) + c
  {
    FlatJoin(cuts, [c]);
    assert [c][1..] == [] && c + [] == c;
  }

  // One more group of the log is in the memtable, which may then become the next cut
  lemma GroupTaken(log: seq<Group>, i: nat, cuts: seq<seq<Group>>, mem: seq<Group>, before: nat)
    requires i < |log| && Flat(cuts) + mem == log[..i]
    ensures Flat(cuts) + (mem + [log[i]]) == log[..i + 1]
    ensures Flat(cuts + [mem + [log[i]]]) + [] == log[..i + 1]
    ensures MaxSequence(log[..i + 1], before) == LaterOf(log[i], MaxSequence(log[..i], before))
  {
    assert log[..i + 1] == log[..i] + [log[i]] && log[..i + 1][..i] == log[..i];
    FlatSnoc(cuts, mem + [log[i]]);
  }

  // Every group of the log goes to a memtable, and the memtable to a table when it is full and at the end
  method RecoverLogFile(log: seq<Group>, full: seq<Group> -> bool, before: nat) returns (cuts: seq<seq<Group>>, maxSequence: nat)
    ensures Flat(cuts) == log && maxSequence == MaxSequence(log, before)
  {
    cuts, maxSequence := [], before;
    var mem: seq<Group> := [];
    var i := 0;
    while i < |log|
      invariant 0 <= i <= |log| && Flat(cuts) + mem == log[..i] && maxSequence == MaxSequence(log[..i], before)
    {
      var g := log[i];
      GroupTaken(log, i, cuts, mem, before);
      mem := mem + [g];
      if g != [] && g[|g| - 1].sequence > maxSequence {
        maxSequence := g[|g| - 1].sequence;
      }
      if full(mem) {
        cuts := cuts + [mem];
        mem := [];
      }
      i := i + 1;
    }
    assert log[..i] == log;
    if mem != [] {
      FlatSnoc(cuts, mem);
      cuts := cuts + [mem];
    }
  }

  lemma {:induction false} ReplayJoin(logs: map<nat, seq<Group>>, lo: nat, mid: nat, hi: nat)
    requires lo <= mid <= hi
    ensures Replay(logs, lo, hi) == Replay(logs, lo, mid) + Replay(logs, mid, hi)
    decreases mid - lo
  {
    if lo < mid {
      ReplayJoin(logs, lo + 1, mid, hi);
    }
  }

  lemma ReplayNext(logs: map<nat, seq<Group>>, lo: nat, a: nat, n: nat)
    requires lo <= a <= n && n in logs && forall m :: a <= m < n ==> m !in logs
    ensures Replay(logs, lo, n + 1) == Replay(logs, lo, a) + logs[n]
  {
    ReplayJoin(logs, lo, a, n + 1);
    ReplayOne(logs, a, n, n + 1);
  }

  lemma {:induction false} MaxSequenceJoin(a: seq<Group>, b: seq<Group>, n: nat)
    ensures MaxSequence(a + b, n) == MaxSequence(b, MaxSequence(a, n))
  {
    if b == [] {
      assert a + b == a;
    } else {
      MaxSequenceJoin(a, b[..|b| - 1], n);
      assert (a + b)[..|a + b| - 1] == a + b[..|b| - 1];
    }
  }

  // The next log adds its groups to the cuts and to the replay alike
  lemma NextLog(logs: map<nat, seq<Group>>, lo: nat, a: nat, n: nat, cuts: seq<seq<Group>>, more: seq<seq<Group>>, before: nat)
    requires lo <= a <= n && n in logs && forall m :: a <= m < n ==> m !in logs
    requires Flat(cuts) == Replay(logs, lo, a) && Flat(more) == logs[n]
    ensures Flat(cuts + more) == Replay(logs, lo, n + 1)
    ensures MaxSequence(Replay(logs, lo, n + 1), before) == MaxSequence(logs[n], MaxSequence(Replay(logs, lo, a), before))
  {
    ReplayNext(logs, lo, a, n);
    MaxSequenceJoin(Replay(logs, lo, a), logs[n], before);
    FlatJoin(cuts, more);
  }

  // numbers are the logs to recover, sorted
  ghost predicate InNumberOrder(logs: map<nat, seq<Group>>, lo: nat, numbers: seq<nat>) {
    && (forall i, j :: 0 <= i < j < |numbers| ==> numbers[i] < numbers[j])
    && (forall n :: n in numbers <==> n in logs && n >= lo)
  }

  // Recover: the logs from the manifest's log number on, lower numbers first
  method RecoverLogs(logs: map<nat, seq<Group>>, lo: nat, numbers: seq<nat>, full: seq<Group> -> bool, before: nat, ghost hi: nat)
    returns (cuts: seq<seq<Group>>, maxSequence: nat)
    requires InNumberOrder(logs, lo, numbers) && lo <= hi && forall n :: n in logs ==> n < hi
    ensures Flat(cuts) == Replay(logs, lo, hi) && maxSequence == MaxSequence(Replay(logs, lo, hi), before)
  {
    cuts, maxSequence := [], before;
    var i := 0;
    ghost var at := lo;
    forall j | 0 <= j < |numbers| ensures lo <= numbers[j] {
      assert numbers[j] in numbers;
    }
    while i < |numbers|
      invariant i <= |numbers| && forall j :: 0 <= j < i ==> numbers[j] < at
      invariant 0 <= i && lo <= at <= hi && Flat(cuts) == Replay(logs, lo, at)
      invariant maxSequence == MaxSequence(Replay(logs, lo, at), before)
      invariant forall j :: i <= j < |numbers| ==> at <= numbers[j]
      invariant forall n :: n in logs && lo <= n < at ==> n in numbers[..i]
    {
      var n := numbers[i];
      assert n in numbers;
      NothingBetween(logs, lo, numbers, i, at);
      var more;
      more, maxSequence := RecoverLogFile(logs[n], full, maxSequence);
      NextLog(logs, lo, at, n, cuts, more, before);
      cuts := cuts + more;
      at := n + 1;
      i := i + 1;
    }
    forall n | n in logs && n >= lo ensures n < at {
      assert n in numbers;
    }
    ReplayJoin(logs, lo, at, hi);
    ReplayNothing(logs, at, hi);
  }

  lemma NothingBetween(logs: map<nat, seq<Group>>, lo: nat, numbers: seq<nat>, i: nat, at: nat)
    requires InNumberOrder(logs, lo, numbers) && i < |numbers| && lo <= at
    requires forall j :: i <= j < |numbers| ==> at <= numbers[j]
    requires forall j :: 0 <= j < i ==> numbers[j] < at
    requires forall n :: n in logs && lo <= n < at ==> n in numbers[..i]
    ensures forall m :: at <= m < numbers[i] ==> m !in logs
    ensures forall n :: n in logs && lo <= n < numbers[i] + 1 ==> n in numbers[..i + 1]
  {
    forall m | m in logs && at <= m ensures m >= numbers[i] {
      var j :| 0 <= j < |numbers| && numbers[j] == m;
    }
    assert numbers[..i + 1] == numbers[..i] + [numbers[i]];
  }
}
