// The invariant of the storage state machine, and its preservation by every step.
module StorageProofs {
  import opened Options
  import opened Entries
  import opened Compaction
  import opened Tables
  import opened Storage

  ghost predicate AtMost(es: set<Entry>, n: nat) {
    forall e :: e in es ==> e.sequence <= n
  }

  // Sequences increase along the groups
  ghost predicate Ordered(groups: seq<Group>) {
    && (forall i, x, y :: 0 <= i < |groups| && 0 <= x < y < |groups[i]| ==> groups[i][x].sequence < groups[i][y].sequence)
    && (forall i, j, e, f :: 0 <= i < j < |groups| && e in groups[i] && f in groups[j] ==> e.sequence < f.sequence)
  }

  lemma OrderedUnique(groups: seq<Group>)
    requires Ordered(groups)
    ensures Unique(All(groups))
  {
    forall e, f | e in All(groups) && f in All(groups) && e.sequence == f.sequence ensures e == f {
      var i, j := GroupOf(groups, e), GroupOf(groups, f);
      assert i == j;
      InGroup(groups, i, e, f);
    }
  }

  lemma InGroup(groups: seq<Group>, i: nat, e: Entry, f: Entry)
    requires Ordered(groups) && i < |groups| && e in groups[i] && f in groups[i] && e.sequence == f.sequence
    ensures e == f
  {
    var x :| 0 <= x < |groups[i]| && groups[i][x] == e;
    var y :| 0 <= y < |groups[i]| && groups[i][y] == f;
    assert x == y;
  }

  ghost function GroupOf(groups: seq<Group>, e: Entry): (i: nat)
    requires e in All(groups)
    ensures i < |groups| && e in groups[i]
  {
    var i :| 0 <= i < |groups| && e in groups[i];
    i
  }

  lemma AllJoin(a: seq<Group>, b: seq<Group>)
    ensures All(a + b) == All(a) + All(b)
  {
    assert forall g :: g in a + b <==> g in a || g in b;
  }

  lemma AllSplit(groups: seq<Group>, n: nat)
    requires n <= |groups|
    ensures All(groups) == All(groups[..n]) + All(groups[n..])
    ensures Ordered(groups) ==> NewerThan(All(groups[n..]), All(groups[..n]))
    ensures Ordered(groups) ==> Ordered(groups[..n])
  {
    assert groups == groups[..n] + groups[n..];
    AllJoin(groups[..n], groups[n..]);
    if Ordered(groups) {
      forall e, f | e in All(groups[n..]) && f in All(groups[..n]) ensures e.sequence > f.sequence {
        var i :| 0 <= i < |groups| - n && e in groups[n..][i];
        var j :| 0 <= j < n && f in groups[..n][j];
        assert e in groups[n + i] && f in groups[j];
      }
    }
  }

  lemma AllOne(g: Group)
    ensures All([g]) == Elements(g)
  {
    assert g in [g];
  }

  lemma OrderedSnoc(groups: seq<Group>, g: Group, n: nat)
    requires Ordered(groups) && AtMost(All(groups), n) && NumberedFrom(g, n + 1)
    ensures Ordered(groups + [g])
  {
    forall i, j, e, f | 0 <= i < j < |groups| + 1 && e in (groups + [g])[i] && f in (groups + [g])[j]
      ensures e.sequence < f.sequence
    {
      if j == |groups| {
        assert groups[i] in groups && e in All(groups);
      }
    }
  }

  // ---- The invariant ----

  ghost predicate SequencesOk(history: seq<Group>, writer: Writer, last: nat) {
    && Ordered(history + writer.Logged())
    && AtMost(All(history), last)
    && (writer.Inserting? ==> writer.n <= |writer.group| && NumberedFrom(writer.group, last + 1))
    && (writer.Failed? ==> AtMost(Elements(writer.group), last))
  }

  ghost predicate SnapshotsOk(snapshots: seq<nat>, last: nat) {
    && (forall i, j :: 0 <= i < j < |snapshots| ==> snapshots[i] <= snapshots[j])
    && (forall i :: 0 <= i < |snapshots| ==> snapshots[i] <= last)
  }

  ghost predicate MemtablesOk(mems: seq<set<Entry>>, imm: Option<nat>, history: seq<Group>, flushed: nat, rotated: nat,
                              writer: Writer)
  {
    && mems != []
    && flushed <= rotated <= |history|
    && mems[|mems| - 1] == All(history[rotated..]) + Elements(writer.Inserted())
    && (imm.Some? ==> imm.value + 2 == |mems| && mems[imm.value] == All(history[flushed..rotated]))
    && (imm.None? ==> flushed == rotated)
  }

  // The logs from log_number_ on are those of imm_ and of mem_
  ghost predicate LogsOk(logs: map<nat, seq<Group>>, logNumber: nat, logfile: nat, imm: Option<nat>,
                         history: seq<Group>, flushed: nat, rotated: nat, writer: Writer)
  {
    && flushed <= rotated <= |history|
    && logfile in logs && logs[logfile] == history[rotated..] + writer.Logged()
    && (imm.None? ==> logNumber == logfile)
    && (imm.Some? ==> logNumber < logfile && logNumber in logs && logs[logNumber] == history[flushed..rotated])
    && (forall n :: n in logs && n >= logNumber ==> n == logNumber || n == logfile)
  }

  ghost predicate ImageOk(image: Image, t: Store, history: seq<Group>, nextFile: nat, last: nat) {
    && image.flushed <= |history|
    && Faithful(image.version, t, All(history[..image.flushed]), image.floor)
    && Below(image.version, nextFile)
    && AtMost(All(history[..image.flushed]), last)
    && image.floor <= last
  }

  ghost predicate VersionsOk(versions: set<Version>, t: Store, nextFile: nat, pending: set<nat>) {
    && (forall v :: v in versions ==> Stored(v, t) && Below(v, nextFile))
    && (forall v, f :: v in versions && f in v ==> f.number !in pending)
    && (forall n :: n in pending ==> n in t && n < nextFile)
  }

  ghost function View(r: Reader, mems: seq<set<Entry>>, t: Store): set<Entry>
    requires r.mem < |mems| && (r.imm.Some? ==> r.imm.value < |mems|)
  {
    mems[r.mem] + (if r.imm.Some? then mems[r.imm.value] else {}) + Contents(r.version, t)
  }

  // What a reader holds reads, at its sequence, like the whole history
  ghost predicate ReaderOk(r: Reader, mems: seq<set<Entry>>, t: Store, history: seq<Group>, writer: Writer, last: nat) {
    && r.mem < |mems| && (r.imm.Some? ==> r.imm.value < |mems|)
    && r.sequence <= last
    && View(r, mems, t) <= All(history + writer.Logged())
    && (forall k :: Read(View(r, mems, t), k, r.sequence) == Read(All(history), k, r.sequence))
  }

  ghost predicate WorkOk(w: Work, version: Version, t: Store, pending: set<nat>, floor: nat, horizon: nat) {
    && Among(version, t, w.level, w.inputs, w.base)
    && (forall f :: f in w.inputs ==> Inside(w.level, f))
    && floor <= w.smallest <= horizon
    && w.outputs <= pending
  }

  ghost predicate Numbers(files: Version, ns: set<nat>) {
    forall f :: f in files ==> f.number in ns
  }

  ghost predicate JobOk(s: State, job: Job) {
    match job
    case Queued => true
    case Building(n, within) =>
      && s.imm.Some? && n in s.pending && Below(s.image.version, n)
      && (within.Some? ==>
            n !in within.value.outputs &&
            WorkOk(within.value, s.image.version, s.tables, s.pending, s.image.floor, Horizon(s)))
    case Merging(w) => WorkOk(w, s.image.version, s.tables, s.pending, s.image.floor, Horizon(s))
    case Logging(edit, _, purpose) =>
      var image := Edited(s.image, edit, purpose, s.rotated);
      && ImageOk(image, s.tables, s.history, edit.nextFile, edit.lastSequence)
      && edit.nextFile <= s.nextFile && edit.lastSequence <= s.last
      && image.floor <= Horizon(s)
      && match purpose
         case Move => edit.logNumber == s.image.logNumber && Numbers(image.version, set f | f in s.image.version :: f.number)
         case Compact(w) =>
           && edit.logNumber == s.image.logNumber
           && w.outputs <= s.pending && Numbers(edit.added, w.outputs)
         case Flush(within) =>
           && s.imm.Some? && edit.logNumber == s.logfile
           && (forall f :: f in edit.added ==> f.number !in s.pending)
           && (within.Some? ==>
                 WorkOk(within.value, image.version, s.tables, s.pending, image.floor, Horizon(s)))
  }

  // The image a crash would find in the manifest
  function Durable(s: State): Image {
    if |s.jobs| == 1 && s.jobs[0].Logging? && s.jobs[0].written
    then Edited(s.image, s.jobs[0].edit, s.jobs[0].purpose, s.rotated)
    else s.image
  }

  ghost predicate ManifestOk(m: Manifest, image: Image, t: Store, history: seq<Group>, nextFile: nat, last: nat) {
    && m.version == image.version && m.logNumber == image.logNumber
    && ImageOk(image, t, history, m.nextFile, m.lastSequence)
    && m.nextFile <= nextFile && m.lastSequence <= last
  }

  ghost predicate Counted(s: State) {
    && |s.jobs| == (if s.scheduled then 1 else 0)
    && s.hasImm == s.imm.Some?
    && (s.writer.Failed? ==> s.error)
  }

  ghost predicate Core(s: State) {
    && Counted(s)
    && Written(s)
    && SnapshotsOk(s.snapshots, s.last)
    && s.image.floor <= Horizon(s)
    && (forall n :: n in s.logs ==> n < s.nextFile)
    && ImageOk(s.image, s.tables, s.history, s.nextFile, s.last)
    && ManifestOk(s.manifest, Durable(s), s.tables, s.history, s.nextFile, s.last)
    && VersionsOk(Versions(s), s.tables, s.nextFile, s.pending)
    && (forall r :: r in s.readers ==> ReaderOk(r, s.mems, s.tables, s.history, s.writer, s.last))
    && (forall j :: j in s.jobs ==> JobOk(s, j))
  }

  // The memtables and their logs hold what is not flushed
  ghost predicate Written(s: State) {
    && SequencesOk(s.history, s.writer, s.last)
    && MemtablesOk(s.mems, s.imm, s.history, s.image.flushed, s.rotated, s.writer)
    && LogsOk(s.logs, s.image.logNumber, s.logfile, s.imm, s.history, s.image.flushed, s.rotated, s.writer)
  }

  // A memtable waiting to be flushed is attended to
  ghost predicate Attended(s: State) {
    s.imm.Some? ==> s.scheduled || s.error || s.shutdown
  }

  ghost predicate Invariant(s: State) {
    Core(s) && Attended(s)
  }

  // ---- What most steps leave as it is ----

  ghost predicate TablesKeep(t: Store, t': Store, n: nat) {
    forall m: nat :: m < n && m in t ==> m in t' && t'[m] == t[m]
  }

  ghost predicate Prefix(a: seq<Group>, b: seq<Group>) {
    |a| <= |b| && b[..|a|] == a
  }

  ghost predicate Extends(s: State, s': State) {
    && s'.image == s.image
    && TablesKeep(s.tables, s'.tables, s.nextFile)
    && Prefix(s.history, s'.history)
    && s.nextFile <= s'.nextFile && s.last <= s'.last && Horizon(s) <= Horizon(s')
    && s.pending <= s'.pending && (forall n :: n in s'.pending && n !in s.pending ==> n >= s.nextFile)
    && (s.imm.Some? ==> s'.imm.Some? && s'.rotated == s.rotated && s'.logfile == s.logfile)
  }

  lemma ImageFrame(image: Image, t: Store, t': Store, history: seq<Group>, history': seq<Group>,
                   n: nat, n': nat, last: nat, last': nat)
    requires ImageOk(image, t, history, n, last)
    requires TablesKeep(t, t', n) && Prefix(history, history') && n <= n' && last <= last'
    ensures ImageOk(image, t', history', n', last')
  {
    assert history'[..image.flushed] == history[..image.flushed];
    FaithfulAgree(image.version, t, t', All(history[..image.flushed]), image.floor);
  }

  lemma AmongAgree(v: Version, t: Store, t': Store, level: nat, inputs: Version, base: Version)
    requires Among(v, t, level, inputs, base) && Stored(v, t) && Stored(base, t)
    requires Agree(v, t, t') && Agree(base, t, t')
    ensures Among(v, t', level, inputs, base)
  {
    assert forall f, e :: f in v ==> (Holds(t', f, e) <==> Holds(t, f, e));
    forall k ensures BaseKey(base, t', level, k) <==> BaseKey(base, t, level, k) {
      assert forall f, e :: f in base ==> (Holds(t', f, e) <==> Holds(t, f, e));
    }
    assert forall f :: f in Upper(v, level, inputs) || f in Lower(v, level, inputs) || f in inputs ==> f in v;
  }

  lemma WorkFrame(w: Work, v: Version, t: Store, t': Store, pending: set<nat>, pending': set<nat>,
                  floor: nat, horizon: nat, horizon': nat)
    requires WorkOk(w, v, t, pending, floor, horizon)
    requires Stored(v, t) && Stored(w.base, t) && Agree(v, t, t') && Agree(w.base, t, t')
    requires w.outputs <= pending' && horizon <= horizon'
    ensures WorkOk(w, v, t', pending', floor, horizon')
  {
    AmongAgree(v, t, t', w.level, w.inputs, w.base);
  }

  lemma BaseLive(s: State, j: Job, w: Work)
    requires j in s.jobs && w in j.Works()
    ensures w.base in Versions(s)
  {
  }

  lemma JobFrame(s: State, s': State, j: Job)
    requires Core(s) && Extends(s, s') && j in s.jobs
    ensures JobOk(s', j)
  {
    forall w | w in j.Works() ensures Stored(w.base, s.tables) && Agree(w.base, s.tables, s'.tables) {
      BaseLive(s, j, w);
    }
    match j
    case Queued =>
    case Building(_, Some(w)) => WorkExtends(s, s', w, s.image.version);
    case Building(_, None) =>
    case Merging(w) => WorkExtends(s, s', w, s.image.version);
    case Logging(edit, _, purpose) =>
      var image := Edited(s.image, edit, purpose, s.rotated);
      assert image == Edited(s'.image, edit, purpose, s'.rotated);
      ImageFrame(image, s.tables, s'.tables, s.history, s'.history, edit.nextFile, edit.nextFile, edit.lastSequence,
                 edit.lastSequence);
      match purpose
      case Flush(Some(w)) => WorkExtends(s, s', w, image.version);
      case _ =>
  }

  lemma WorkExtends(s: State, s': State, w: Work, v: Version)
    requires Extends(s, s') && WorkOk(w, v, s.tables, s.pending, s.image.floor, Horizon(s))
    requires Stored(w.base, s.tables) && Agree(w.base, s.tables, s'.tables)
    requires Stored(v, s.tables) && Below(v, s.nextFile)
    ensures WorkOk(w, v, s'.tables, s'.pending, s'.image.floor, Horizon(s'))
  {
    WorkFrame(w, v, s.tables, s'.tables, s.pending, s'.pending, s.image.floor, Horizon(s), Horizon(s'));
  }

  lemma ExtendsKeeps(s: State, s': State)
    requires Core(s) && Extends(s, s')
    ensures ImageOk(s'.image, s'.tables, s'.history, s'.nextFile, s'.last)
    ensures ManifestOk(s.manifest, Durable(s), s'.tables, s'.history, s'.nextFile, s'.last)
    ensures forall j :: j in s.jobs ==> JobOk(s', j)
  {
    ImageFrame(s.image, s.tables, s'.tables, s.history, s'.history, s.nextFile, s'.nextFile, s.last, s'.last);
    var m := s.manifest;
    ImageFrame(Durable(s), s.tables, s'.tables, s.history, s'.history, m.nextFile, m.nextFile, m.lastSequence, m.lastSequence);
    forall j | j in s.jobs ensures JobOk(s', j) {
      JobFrame(s, s', j);
    }
  }

  lemma ScheduleKeeps(s: State, needs: bool)
    requires Core(s)
    ensures Invariant(MaybeSchedule(s, needs))
  {
    var s' := MaybeSchedule(s, needs);
    if s' != s {
      assert s.jobs == [] && s'.jobs == [Queued];
      assert Versions(s') == Versions(s);
    }
  }

  // ---- Readers ----

  ghost predicate GrowsAfter(a: set<Entry>, b: set<Entry>, n: nat) {
    a <= b && forall e :: e in b && e !in a ==> e.sequence > n
  }

  ghost predicate MemtablesGrow(mems: seq<set<Entry>>, mems': seq<set<Entry>>, total: set<Entry>, n: nat) {
    && |mems| <= |mems'|
    && (forall i :: 0 <= i < |mems| ==> GrowsAfter(mems[i], mems'[i], n) && mems'[i] - mems[i] <= total)
  }

  lemma ReaderExtends(s: State, s': State, r: Reader)
    requires Core(s) && r in s.readers && s.last <= s'.last
    requires TablesKeep(s.tables, s'.tables, s.nextFile)
    requires MemtablesGrow(s.mems, s'.mems, All(s'.history + s'.writer.Logged()), s.last)
    requires GrowsAfter(All(s.history), All(s'.history), s.last)
    requires All(s.history + s.writer.Logged()) <= All(s'.history + s'.writer.Logged())
    requires Ordered(s'.history + s'.writer.Logged())
    ensures ReaderOk(r, s'.mems, s'.tables, s'.history, s'.writer, s'.last)
  {
    assert r.version in Versions(s);
    ContentsAgree(r.version, s.tables, s'.tables);
    var v, v' := View(r, s.mems, s.tables), View(r, s'.mems, s'.tables);
    var total := All(s'.history + s'.writer.Logged());
    OrderedUnique(s'.history + s'.writer.Logged());
    AllJoin(s'.history, s'.writer.Logged());
    assert GrowsAfter(v, v', s.last) && v' <= total;
    forall k ensures Read(v', k, r.sequence) == Read(All(s'.history), k, r.sequence) {
      ReadDependsOnVisible(v, v', k, r.sequence, r.sequence);
      ReadDependsOnVisible(All(s.history), All(s'.history), k, r.sequence, r.sequence);
    }
  }

  // ---- The writer ----

  // What a write step changes, and what grows by it
  ghost predicate WriteStep(s: State, s': State) {
    && s' == s.(mems := s'.mems, writer := s'.writer, logs := s'.logs, last := s'.last, history := s'.history, error := s'.error)
    && s.last <= s'.last && Prefix(s.history, s'.history)
    && s'.logs.Keys == s.logs.Keys
    && (s.error || s'.writer.Failed? ==> s'.error)
    && MemtablesGrow(s.mems, s'.mems, All(s'.history + s'.writer.Logged()), s.last)
    && GrowsAfter(All(s.history), All(s'.history), s.last)
    && All(s.history + s.writer.Logged()) <= All(s'.history + s'.writer.Logged())
  }

  lemma WriteStepKeeps(s: State, s': State)
    requires Invariant(s) && WriteStep(s, s') && Written(s')
    ensures Invariant(s')
  {
    assert Extends(s, s');
    ExtendsKeeps(s, s');
    forall r | r in s.readers ensures ReaderOk(r, s'.mems, s'.tables, s'.history, s'.writer, s'.last) {
      ReaderExtends(s, s', r);
    }
    assert Versions(s') == Versions(s);
    assert Durable(s') == Durable(s);
  }

  lemma AppendStep(s: State, group: Group)
    requires Written(s) && s.writer.NoWriter? && NumberedFrom(group, s.last + 1)
    ensures WriteStep(s, AppendGroup(s, group)) && Written(AppendGroup(s, group))
  {
    var s' := AppendGroup(s, group);
    assert s.history + s.writer.Logged() == s.history;
    OrderedSnoc(s.history, group, s.last);
    assert s'.history + s'.writer.Logged() == s.history + [group];
    AllJoin(s.history, [group]);
    assert s'.writer.Inserted() == [] == s.writer.Inserted();
    assert s.history[s.rotated..] + s.writer.Logged() == s.history[s.rotated..];
  }

  lemma InsertMemtables(mems: seq<set<Entry>>, mems': seq<set<Entry>>, imm: Option<nat>, history: seq<Group>,
                        flushed: nat, rotated: nat, writer: Writer, writer': Writer)
    requires MemtablesOk(mems, imm, history, flushed, rotated, writer)
    requires writer.Inserting? && writer.n < |writer.group| && writer' == writer.(n := writer.n + 1)
    requires mems' == mems[|mems| - 1 := mems[|mems| - 1] + {writer.group[writer.n]}]
    ensures MemtablesOk(mems', imm, history, flushed, rotated, writer')
  {
    var g, n := writer.group, writer.n;
    assert g[..n + 1] == g[..n] + [g[n]];
    assert Elements(writer'.Inserted()) == Elements(writer.Inserted()) + {g[n]};
  }

  lemma InsertWritten(s: State)
    requires Written(s) && s.writer.Inserting? && s.writer.n < |s.writer.group|
    ensures Written(InsertNext(s))
  {
    var s' := InsertNext(s);
    assert s'.writer.Logged() == s.writer.Logged();
    InsertMemtables(s.mems, s'.mems, s.imm, s.history, s.image.flushed, s.rotated, s.writer, s'.writer);
  }

  lemma InsertStep(s: State)
    requires SequencesOk(s.history, s.writer, s.last) && s.mems != []
    requires s.writer.Inserting? && s.writer.n < |s.writer.group|
    ensures WriteStep(s, InsertNext(s))
  {
    var g, n := s.writer.group, s.writer.n;
    AllJoin(s.history, [g]);
    AllOne(g);
    assert g[n] in Elements(g);
  }

  lemma PublishMemtables(s: State)
    requires MemtablesOk(s.mems, s.imm, s.history, s.image.flushed, s.rotated, s.writer)
    requires s.writer.Inserting? && s.writer.n == |s.writer.group|
    ensures var s' := Publish(s);
            MemtablesOk(s'.mems, s'.imm, s'.history, s'.image.flushed, s'.rotated, s'.writer)
  {
    var s' := Publish(s);
    var g := s.writer.group;
    AllOne(g);
    assert g[..|g|] == g;
    assert s'.history[s.rotated..] == s.history[s.rotated..] + [g];
    AllJoin(s.history[s.rotated..], [g]);
    assert s'.history[s.image.flushed..s.rotated] == s.history[s.image.flushed..s.rotated];
  }

  lemma PublishLogs(s: State)
    requires LogsOk(s.logs, s.image.logNumber, s.logfile, s.imm, s.history, s.image.flushed, s.rotated, s.writer)
    requires s.writer.Inserting?
    ensures var s' := Publish(s);
            LogsOk(s'.logs, s'.image.logNumber, s'.logfile, s'.imm, s'.history, s'.image.flushed, s'.rotated, s'.writer)
  {
    var s' := Publish(s);
    assert s'.history[s.rotated..] + s'.writer.Logged() == s.history[s.rotated..] + [s.writer.group];
    assert s'.history[s.image.flushed..s.rotated] == s.history[s.image.flushed..s.rotated];
  }

  lemma PublishSequences(s: State)
    requires SequencesOk(s.history, s.writer, s.last) && s.writer.Inserting?
    ensures var s' := Publish(s); SequencesOk(s'.history, s'.writer, s'.last)
  {
    var s' := Publish(s);
    var g := s.writer.group;
    assert s'.history + s'.writer.Logged() == s.history + [g];
    AllJoin(s.history, [g]);
    AllOne(g);
  }

  lemma PublishGrows(s: State)
    requires SequencesOk(s.history, s.writer, s.last) && s.writer.Inserting?
    ensures GrowsAfter(All(s.history), All(Publish(s).history), s.last)
  {
    AllJoin(s.history, [s.writer.group]);
    AllOne(s.writer.group);
  }

  lemma PublishStep(s: State)
    requires s.writer.Inserting?
    requires GrowsAfter(All(s.history), All(Publish(s).history), s.last)
    ensures WriteStep(s, Publish(s))
  {
    var s' := Publish(s);
    assert s'.history + s'.writer.Logged() == s.history + s.writer.Logged();
  }

  lemma SyncFailsStep(s: State)
    requires Written(s) && s.writer.Inserting? && s.writer.n == 0
    ensures WriteStep(s, SyncFails(s)) && Written(SyncFails(s))
  {
    assert s.writer.Inserted() == SyncFails(s).writer.Inserted() == [];
  }

  lemma AppendKeeps(s: State, group: Group)
    requires Invariant(s) && s.writer.NoWriter? && NumberedFrom(group, s.last + 1)
    ensures Invariant(AppendGroup(s, group))
  {
    AppendStep(s, group);
    WriteStepKeeps(s, AppendGroup(s, group));
  }

  lemma InsertKeeps(s: State)
    requires Invariant(s) && s.writer.Inserting? && s.writer.n < |s.writer.group|
    ensures Invariant(InsertNext(s))
  {
    InsertStep(s);
    InsertWritten(s);
    WriteStepKeeps(s, InsertNext(s));
  }

  lemma PublishKeeps(s: State)
    requires Invariant(s) && s.writer.Inserting? && s.writer.n == |s.writer.group|
    ensures Invariant(Publish(s))
  {
    PublishSequences(s);
    PublishGrows(s);
    PublishStep(s);
    PublishMemtables(s);
    PublishLogs(s);
    WriteStepKeeps(s, Publish(s));
  }

  lemma SyncFailsKeeps(s: State)
    requires Invariant(s) && s.writer.Inserting? && s.writer.n == 0
    ensures Invariant(SyncFails(s))
  {
    SyncFailsStep(s);
    WriteStepKeeps(s, SyncFails(s));
  }

  // ---- Readers and snapshots ----

  lemma HistoryParts(history: seq<Group>, a: nat, b: nat)
    requires a <= b <= |history|
    ensures All(history[a..]) == All(history[a..b]) + All(history[b..])
    ensures a == b ==> All(history[a..b]) == {}
  {
    assert history[a..] == history[a..b] + history[b..];
    AllJoin(history[a..b], history[b..]);
  }

  // The memtables hold what the tables do not
  lemma Unflushed(s: State)
    requires Written(s)
    ensures var imm := if s.imm.Some? then s.mems[s.imm.value] else {};
            imm + s.mems[|s.mems| - 1] == All(s.history[s.image.flushed..]) + Elements(s.writer.Inserted())
  {
    HistoryParts(s.history, s.image.flushed, s.rotated);
  }

  lemma InsertedOnTop(history: seq<Group>, writer: Writer, last: nat)
    requires SequencesOk(history, writer, last)
    ensures Ordered(history) && Unique(All(history) + Elements(writer.Inserted()))
    ensures All(history) + Elements(writer.Inserted()) <= All(history + writer.Logged())
    ensures forall e :: e in writer.Inserted() ==> e.sequence > last
  {
    var all := history + writer.Logged();
    OrderedUnique(all);
    AllJoin(history, writer.Logged());
    if writer.Inserting? {
      AllOne(writer.group);
    }
    assert all[..|history|] == history;
    AllSplit(all, |history|);
  }

  lemma LayersRead(db: set<Entry>, flushed: set<Entry>, rest: set<Entry>, inserted: set<Entry>, floor: nat, last: nat)
    requires SameReads(db, flushed, floor) && db <= flushed
    requires Unique(flushed + rest + inserted) && NewerThan(rest, flushed)
    requires AtMost(flushed + rest, last) && forall e :: e in inserted ==> e.sequence > last
    ensures forall k, q: nat :: floor <= q <= last ==> Read(db + rest + inserted, k, q) == Read(flushed + rest, k, q)
  {
    AddNewer(db, flushed, rest, floor);
    forall k, q: nat | floor <= q <= last ensures Read(db + rest + inserted, k, q) == Read(flushed + rest, k, q) {
      ReadDependsOnVisible(db + rest + inserted, db + rest, k, q, q);
    }
  }

  // What the memtables and the current tables hold together reads like the whole history
  lemma CurrentReads(s: State, r: Reader)
    requires Written(s) && ImageOk(s.image, s.tables, s.history, s.nextFile, s.last)
    requires r.mem == |s.mems| - 1 && r.imm == s.imm && r.version == s.image.version
    requires s.image.floor <= r.sequence <= s.last
    ensures ReaderOk(r, s.mems, s.tables, s.history, s.writer, s.last)
  {
    var db := Contents(s.image.version, s.tables);
    var n := s.image.flushed;
    var inserted := Elements(s.writer.Inserted());
    Unflushed(s);
    InsertedOnTop(s.history, s.writer, s.last);
    AllSplit(s.history, n);
    var flushed, rest := All(s.history[..n]), All(s.history[n..]);
    LayersRead(db, flushed, rest, inserted, s.image.floor, s.last);
    assert View(r, s.mems, s.tables) == db + rest + inserted;
  }

  // The steps of readers
  lemma QuietKeeps(s: State, s': State)
    requires Invariant(s)
    requires s' == s.(snapshots := s'.snapshots, readers := s'.readers, shutdown := s'.shutdown)
    requires SnapshotsOk(s'.snapshots, s.last) && Horizon(s) <= Horizon(s') && (s.shutdown ==> s'.shutdown)
    requires forall r :: r in s'.readers ==>
               ReaderOk(r, s.mems, s.tables, s.history, s.writer, s.last) && r.version in Versions(s)
    ensures Invariant(s')
  {
    assert Extends(s, s');
    ExtendsKeeps(s, s');
    assert Versions(s') <= Versions(s);
    assert Durable(s') == Durable(s);
  }

  lemma ReleaseSnapshots(snapshots: seq<nat>, last: nat, i: nat)
    requires SnapshotsOk(snapshots, last) && i < |snapshots|
    ensures SnapshotsOk(Drop(snapshots, i), last)
    ensures Drop(snapshots, i) != [] ==> snapshots[0] <= Drop(snapshots, i)[0]
  {
    var rest := Drop(snapshots, i);
    forall a | 0 <= a < |rest| ensures rest[a] == snapshots[if a < i then a else a + 1] {}
  }

  lemma SnapshotKeeps(s: State)
    requires Invariant(s)
    ensures Invariant(TakeSnapshot(s))
  {
    QuietKeeps(s, TakeSnapshot(s));
  }

  lemma ReleaseKeeps(s: State, i: nat)
    requires Invariant(s) && i < |s.snapshots|
    ensures Invariant(s.(snapshots := Drop(s.snapshots, i)))
  {
    ReleaseSnapshots(s.snapshots, s.last, i);
    QuietKeeps(s, s.(snapshots := Drop(s.snapshots, i)));
  }

  lemma PinKeeps(s: State, sequence: nat)
    requires Invariant(s) && Horizon(s) <= sequence <= s.last
    ensures Invariant(Pin(s, sequence))
  {
    CurrentReads(s, Reader(|s.mems| - 1, s.imm, s.image.version, sequence));
    QuietKeeps(s, Pin(s, sequence));
  }

  lemma UnpinKeeps(s: State, i: nat)
    requires Invariant(s) && i < |s.readers|
    ensures Invariant(s.(readers := Drop(s.readers, i)))
  {
    QuietKeeps(s, s.(readers := Drop(s.readers, i)));
  }

  lemma ShutDownKeeps(s: State)
    requires Invariant(s)
    ensures Invariant(s.(shutdown := true))
  {
    QuietKeeps(s, s.(shutdown := true));
  }

  // ---- Rotating the memtable ----

  lemma RotateWritten(s: State)
    requires Written(s) && s.writer.NoWriter? && s.imm.None? && s.logfile < s.nextFile
    requires forall n :: n in s.logs ==> n < s.nextFile
    ensures Written(Rotated(s))
  {
    var s' := Rotated(s);
    assert s.history[s.rotated..] + s.writer.Logged() == s.history[s.rotated..] == s.history[s.rotated..|s.history|];
    assert s'.history[s'.rotated..] == [] && All([]) == {};
  }

  lemma RotateDurable(s: State)
    requires Core(s) && s.imm.None?
    ensures Durable(Rotated(s)) == Durable(s)
  {
    assert forall j :: j in s.jobs && j.Logging? ==> !j.purpose.Flush?;
  }

  lemma RotateReaders(s: State)
    requires Core(s) && s.imm.None?
    ensures var s' := Rotated(s);
            forall r :: r in s.readers ==> ReaderOk(r, s'.mems, s'.tables, s'.history, s'.writer, s'.last)
  {
    var s' := Rotated(s);
    forall r | r in s.readers ensures ReaderOk(r, s'.mems, s'.tables, s'.history, s'.writer, s'.last) {
      ReaderExtends(s, s', r);
    }
  }

  lemma RotateCore(s: State)
    requires Core(s) && s.writer.NoWriter? && s.imm.None?
    ensures Core(Rotated(s))
  {
    var s' := Rotated(s);
    RotateWritten(s);
    assert Extends(s, s');
    ExtendsKeeps(s, s');
    RotateDurable(s);
    RotateReaders(s);
    assert Versions(s') == Versions(s);
  }

  lemma RotateKeeps(s: State, needs: bool)
    requires Invariant(s) && s.writer.NoWriter? && s.imm.None?
    ensures Invariant(Rotate(s, needs))
  {
    RotateCore(s);
    ScheduleKeeps(Rotated(s), needs);
  }
}
