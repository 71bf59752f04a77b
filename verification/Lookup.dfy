// DBImpl::Get: the memtables, then the tables of the current version level by level, stopping at the
// first that has anything visible for the key.
module Lookup {
  import opened Options
  import opened Entries
  import opened Tables
  import opened Ranges
  import opened DbIterator

  // What one memtable or table says of a key, and what a whole database says
  datatype Answer = NotHere | Deleted | Found(value: string)
  {
    function Value(): Option<string> {
      if Found? then Some(value) else None
    }
  }

  function AnswerOf(e: Entry): Answer {
    if e.kind.Value? then Found(e.value) else Deleted
  }

  ghost predicate Sees(db: set<Entry>, k: int, s: nat) {
    exists e :: e in db && IsVisible(e, k, s)
  }

  // a is what db says of k at s
  ghost predicate Says(db: set<Entry>, k: int, s: nat, a: Answer) {
    if a.NotHere? then !Sees(db, k, s) else exists e :: Newest(db, k, s, e) && a == AnswerOf(e)
  }

  lemma SaysRead(db: set<Entry>, k: int, s: nat, a: Answer)
    requires Unique(db) && Says(db, k, s, a)
    ensures a.Value() == Read(db, k, s)
  {
    if !a.NotHere? {
      var e :| Newest(db, k, s, e) && a == AnswerOf(e);
      ReadNewest(db, k, s, e);
    }
  }

  ghost predicate NewerByKey(upper: set<Entry>, lower: set<Entry>) {
    forall e, f :: e in upper && f in lower && e.key == f.key ==> e.sequence > f.sequence
  }

  // The upper layer decides if it has anything visible, or else the lower one
  lemma UpperDecides(upper: set<Entry>, lower: set<Entry>, k: int, s: nat, a: Answer)
    requires NewerByKey(upper, lower) && Says(upper, k, s, a) && !a.NotHere?
    ensures Says(upper + lower, k, s, a)
  {
    var e :| Newest(upper, k, s, e) && a == AnswerOf(e);
    assert Newest(upper + lower, k, s, e);
  }

  lemma LowerDecides(upper: set<Entry>, lower: set<Entry>, k: int, s: nat, a: Answer)
    requires !Sees(upper, k, s) && Says(lower, k, s, a)
    ensures Says(upper + lower, k, s, a)
  {
    if !a.NotHere? {
      var e :| Newest(lower, k, s, e) && a == AnswerOf(e);
      assert Newest(upper + lower, k, s, e);
    }
  }

  lemma SeekNewest(es: seq<Entry>, k: int, s: nat, p: nat)
    requires Sorted(es) && p <= |es|
    requires forall q :: 0 <= q < p ==> Precedes(es[q], k, s)
    requires p < |es| ==> !Precedes(es[p], k, s)
    ensures p < |es| && es[p].key == k ==> Newest(Elements(es), k, s, es[p])
    ensures p == |es| || es[p].key != k ==> !Sees(Elements(es), k, s)
  {
    forall q | 0 <= q < |es| && IsVisible(es[q], k, s) ensures p <= q && p < |es| && es[p].key == k && es[q].sequence <= es[p].sequence {
      assert !Precedes(es[q], k, s);
      if p < q {
        assert Before(es[p], es[q]);
      }
    }
    if p < |es| && es[p].key == k {
      assert IsVisible(es[p], k, s);
    }
  }

  // MemTable::Get, and TableCache::Get with SaveValue: seek to the internal key, compare the user key
  method SortedGet(es: seq<Entry>, k: int, s: nat) returns (a: Answer)
    requires Sorted(es)
    ensures Says(Elements(es), k, s, a)
  {
    var iter := new InternalIterator(es);
    iter.Seek(k, s);
    ghost var p := iter.pos;
    SeekNewest(es, k, s, p);
    if iter.Valid() && es[iter.pos].key == k {
      return AnswerOf(es[iter.pos]);
    }
    return NotHere;
  }

  // ---- The files of a version ----

  datatype TableFile = TableFile(number: nat, entries: seq<Entry>)
  {
    ghost predicate Valid() {
      entries != [] && Sorted(entries)
    }
    function Smallest(): Entry
      requires entries != []
    {
      entries[0]
    }
    function Largest(): Entry
      requires entries != []
    {
      entries[|entries| - 1]
    }
  }

  ghost predicate AllValid(files: seq<TableFile>) {
    forall i :: 0 <= i < |files| ==> files[i].Valid()
  }

  ghost function Held(files: seq<TableFile>): set<Entry> {
    set f, e | f in files && e in f.entries :: e
  }

  // A level other than 0: files with disjoint ranges, in order
  ghost predicate InOrder(files: seq<TableFile>) {
    AllValid(files) && forall i, j :: 0 <= i < j < |files| ==> Before(files[i].Largest(), files[j].Smallest())
  }

  // Level 0: where ranges overlap, the higher number is the newer
  ghost predicate Stacked(files: seq<TableFile>) {
    && AllValid(files)
    && (forall i, j :: 0 <= i < j < |files| ==> files[i].number != files[j].number)
    && (forall f, g, e, h :: f in files && g in files && f.number > g.number && e in f.entries && h in g.entries && e.key == h.key ==>
          e.sequence > h.sequence)
  }

  // FindFile: where the files' largest keys stop being before the target; if the files are in order that is
  // the first such file
  method FindFile(files: seq<TableFile>, k: int, s: nat) returns (right: nat)
    requires AllValid(files)
    ensures right <= |files| && StopsAt(files, k, s, right)
    ensures InOrder(files) ==> Splits(files, k, s, right)
  {
    var left := 0;
    right := |files|;
    while left < right
      invariant 0 <= left <= right <= |files|
      invariant left > 0 ==> Precedes(files[left - 1].Largest(), k, s)
      invariant right < |files| ==> !Precedes(files[right].Largest(), k, s)
    {
      var mid := (left + right) / 2;
      if Precedes(files[mid].Largest(), k, s) {
        left := mid + 1;
      } else {
        right := mid;
      }
    }
    if InOrder(files) {
      StopsSplits(files, k, s, right);
    }
  }

  ghost predicate StopsAt(files: seq<TableFile>, k: int, s: nat, right: nat)
    requires AllValid(files) && right <= |files|
  {
    && (right > 0 ==> Precedes(files[right - 1].Largest(), k, s))
    && (right < |files| ==> !Precedes(files[right].Largest(), k, s))
  }

  ghost predicate Splits(files: seq<TableFile>, k: int, s: nat, right: nat)
    requires AllValid(files) && right <= |files|
  {
    && (forall i :: 0 <= i < right ==> Precedes(files[i].Largest(), k, s))
    && (forall i :: right <= i < |files| ==> !Precedes(files[i].Largest(), k, s))
  }

  lemma StopsSplits(files: seq<TableFile>, k: int, s: nat, right: nat)
    requires InOrder(files) && right <= |files| && StopsAt(files, k, s, right)
    ensures Splits(files, k, s, right)
  {
    forall i | 0 <= i < right ensures Precedes(files[i].Largest(), k, s) {
      if i < right - 1 {
        LargestOrder(files, i, right - 1);
      }
    }
    forall i | right <= i < |files| ensures !Precedes(files[i].Largest(), k, s) {
      if right < i {
        LargestOrder(files, right, i);
      }
    }
  }

  lemma LargestOrder(files: seq<TableFile>, i: nat, j: nat)
    requires InOrder(files) && i < j < |files|
    ensures Before(files[i].Largest(), files[j].Largest())
  {
    assert files[j].Valid();
    assert |files[j].entries| > 1 ==> Before(files[j].entries[0], files[j].entries[|files[j].entries| - 1]);
  }

  // Only that file can hold what a reader of k at s sees
  lemma OnlyFile(files: seq<TableFile>, k: int, s: nat, right: nat, e: Entry)
    requires InOrder(files) && right <= |files| && Splits(files, k, s, right)
    requires e in Held(files) && IsVisible(e, k, s)
    ensures right < |files| && files[right].Smallest().key <= k
    ensures e !in files[right].entries ==>
              exists n :: n in files[right].entries && IsVisible(n, k, s) && e.sequence <= n.sequence
  {
    var i :| 0 <= i < |files| && e in files[i].entries;
    var f := files[i];
    var p :| 0 <= p < |f.entries| && f.entries[p] == e;
    assert f.Valid();
    assert p < |f.entries| - 1 ==> Before(e, f.Largest());
    assert p > 0 ==> Before(f.Smallest(), e);
    assert i >= right;
    if right < i {
      var n := files[right].Largest();
      assert Before(n, f.Smallest());
      assert !Precedes(n, k, s);
      assert n in files[right].entries && IsVisible(n, k, s);
      var l := |files[right].entries| - 1;
      assert files[right].Valid();
      assert l > 0 ==> Before(files[right].entries[0], files[right].entries[l]);
    }
  }

  // What the one file looked into says
  ghost predicate Searched(files: seq<TableFile>, k: int, s: nat, a: Answer)
    requires AllValid(files)
  {
    exists i :: 0 <= i <= |files| && StopsAt(files, k, s, i) &&
      if i == |files| || k < files[i].Smallest().key then a.NotHere? else Says(Elements(files[i].entries), k, s, a)
  }

  // A level other than 0
  method LevelGet(files: seq<TableFile>, k: int, s: nat) returns (a: Answer)
    requires AllValid(files)
    ensures Searched(files, k, s, a)
    ensures InOrder(files) ==> Says(Held(files), k, s, a)
  {
    var index := FindFile(files, k, s);
    if index >= |files| || k < files[index].Smallest().key {
      if InOrder(files) {
        LevelSilent(files, k, s, index);
      }
      return NotHere;
    }
    assert files[index].Valid();
    a := SortedGet(files[index].entries, k, s);
    if InOrder(files) {
      LevelAnswer(files, k, s, index, a);
    }
  }

  lemma LevelSilent(files: seq<TableFile>, k: int, s: nat, index: nat)
    requires InOrder(files) && index <= |files| && Splits(files, k, s, index)
    requires index == |files| || k < files[index].Smallest().key
    ensures !Sees(Held(files), k, s)
  {
    forall e | e in Held(files) ensures !IsVisible(e, k, s) {
      if IsVisible(e, k, s) {
        OnlyFile(files, k, s, index, e);
      }
    }
  }

  lemma LevelAnswer(files: seq<TableFile>, k: int, s: nat, index: nat, a: Answer)
    requires InOrder(files) && index < |files| && Splits(files, k, s, index)
    requires Says(Elements(files[index].entries), k, s, a)
    ensures Says(Held(files), k, s, a)
  {
    var es := files[index].entries;
    if a.NotHere? {
      forall e | e in Held(files) && IsVisible(e, k, s) ensures false {
        OnlyFile(files, k, s, index, e);
        assert Sees(Elements(es), k, s);
      }
    } else {
      var n :| Newest(Elements(es), k, s, n) && a == AnswerOf(n);
      forall e | e in Held(files) && IsVisible(e, k, s) ensures e.sequence <= n.sequence {
        OnlyFile(files, k, s, index, e);
        assert e in es ==> e in Elements(es);
      }
      assert files[index] in files;
      assert Newest(Held(files), k, s, n);
    }
  }

  // ---- Level 0 ----

  predicate Covers(f: TableFile, k: int)
    requires f.entries != []
  {
    f.Smallest().key <= k <= f.Largest().key
  }

  ghost predicate NewestFirst(files: seq<TableFile>) {
    forall i, j :: 0 <= i < j < |files| ==> files[i].number > files[j].number
  }

  method InsertByNumber(sorted: seq<TableFile>, f: TableFile) returns (r: seq<TableFile>)
    requires NewestFirst(sorted) && forall g :: g in sorted ==> g.number != f.number
    ensures NewestFirst(r) && forall g :: g in r <==> g in sorted || g == f
  {
    var i := 0;
    while i < |sorted| && sorted[i].number > f.number
      invariant 0 <= i <= |sorted| && forall j :: 0 <= j < i ==> sorted[j].number > f.number
    {
      i := i + 1;
    }
    r := sorted[..i] + [f] + sorted[i..];
    assert forall g :: g in sorted <==> g in sorted[..i] || g in sorted[i..];
  }

  // The files that overlap the key, from newest to oldest
  method Candidates(files: seq<TableFile>, k: int) returns (tmp: seq<TableFile>)
    requires Stacked(files)
    ensures CandidatesOf(files, tmp, k)
  {
    tmp := [];
    var i := 0;
    while i < |files|
      invariant 0 <= i <= |files| && NewestFirst(tmp)
      invariant forall f :: f in tmp <==> f in files[..i] && f.entries != [] && Covers(f, k)
    {
      assert files[i].Valid();
      assert files[..i + 1] == files[..i] + [files[i]];
      if Covers(files[i], k) {
        tmp := InsertByNumber(tmp, files[i]);
      }
      i := i + 1;
    }
    assert files[..i] == files;
  }

  lemma VisibleCovered(files: seq<TableFile>, f: TableFile, k: int, s: nat, e: Entry)
    requires AllValid(files) && f in files && e in f.entries && IsVisible(e, k, s)
    ensures f.entries != [] && Covers(f, k)
  {
    assert f.Valid();
    var p :| 0 <= p < |f.entries| && f.entries[p] == e;
    assert p < |f.entries| - 1 ==> Before(e, f.Largest());
    assert p > 0 ==> Before(f.Smallest(), e);
  }

  ghost predicate Newer(f: TableFile, g: TableFile) {
    forall e, h :: e in f.entries && h in g.entries && e.key == h.key ==> e.sequence > h.sequence
  }

  lemma StackedNewer(files: seq<TableFile>, f: TableFile, g: TableFile)
    requires Stacked(files) && f in files && g in files && f.number > g.number
    ensures Newer(f, g)
  {
  }

  ghost predicate CandidatesOf(files: seq<TableFile>, tmp: seq<TableFile>, k: int) {
    NewestFirst(tmp) && forall f :: f in tmp <==> f in files && f.entries != [] && Covers(f, k)
  }

  ghost predicate Silent(tmp: seq<TableFile>, i: nat, k: int, s: nat)
    requires i <= |tmp|
  {
    forall j :: 0 <= j < i ==> !Sees(Elements(tmp[j].entries), k, s)
  }

  // A visible entry lies in one of the candidates
  lemma VisibleCandidate(files: seq<TableFile>, tmp: seq<TableFile>, k: int, s: nat, e: Entry) returns (j: nat)
    requires AllValid(files) && CandidatesOf(files, tmp, k) && e in Held(files) && IsVisible(e, k, s)
    ensures j < |tmp| && e in Elements(tmp[j].entries) && Sees(Elements(tmp[j].entries), k, s)
  {
    var f :| f in files && e in f.entries;
    VisibleCovered(files, f, k, s, e);
    j :| 0 <= j < |tmp| && tmp[j] == f;
    assert e in Elements(tmp[j].entries);
  }

  lemma StackAnswer(files: seq<TableFile>, tmp: seq<TableFile>, k: int, s: nat, i: nat, a: Answer)
    requires Stacked(files) && CandidatesOf(files, tmp, k) && i < |tmp| && Silent(tmp, i, k, s)
    requires Says(Elements(tmp[i].entries), k, s, a) && !a.NotHere?
    ensures Says(Held(files), k, s, a)
  {
    var n :| Newest(Elements(tmp[i].entries), k, s, n) && a == AnswerOf(n);
    assert tmp[i] in files && n in tmp[i].entries;
    forall e | e in Held(files) && IsVisible(e, k, s) ensures e.sequence <= n.sequence {
      var j := VisibleCandidate(files, tmp, k, s, e);
      if j > i {
        StackedNewer(files, tmp[i], tmp[j]);
      }
    }
    assert Newest(Held(files), k, s, n);
  }

  lemma StackSilent(files: seq<TableFile>, tmp: seq<TableFile>, k: int, s: nat)
    requires Stacked(files) && CandidatesOf(files, tmp, k) && Silent(tmp, |tmp|, k, s)
    ensures !Sees(Held(files), k, s)
  {
    if e :| e in Held(files) && IsVisible(e, k, s) {
      var j := VisibleCandidate(files, tmp, k, s, e);
    }
  }

  lemma CandidateAnswers(files: seq<TableFile>, tmp: seq<TableFile>, k: int, s: nat, i: nat, a: Answer)
    requires Stacked(files) && CandidatesOf(files, tmp, k) && i < |tmp| && Silent(tmp, i, k, s)
    requires Says(Elements(tmp[i].entries), k, s, a)
    ensures if a.NotHere? then Silent(tmp, i + 1, k, s) else Says(Held(files), k, s, a)
  {
    if !a.NotHere? {
      StackAnswer(files, tmp, k, s, i, a);
    }
  }

  method Level0Get(files: seq<TableFile>, k: int, s: nat) returns (a: Answer)
    requires Stacked(files)
    ensures Says(Held(files), k, s, a)
  {
    var tmp := Candidates(files, k);
    a := SearchFiles(files, tmp, k, s);
    if a.NotHere? {
      StackSilent(files, tmp, k, s);
    }
  }

  method SearchFiles(ghost files: seq<TableFile>, tmp: seq<TableFile>, k: int, s: nat) returns (a: Answer)
    requires Stacked(files) && CandidatesOf(files, tmp, k)
    ensures if a.NotHere? then Silent(tmp, |tmp|, k, s) else Says(Held(files), k, s, a)
  {
    var i := 0;
    a := NotHere;
    while i < |tmp| && a.NotHere?
      invariant 0 <= i <= |tmp|
      invariant if a.NotHere? then Silent(tmp, i, k, s) else Says(Held(files), k, s, a)
    {
      CandidateValid(files, tmp, k, i);
      a := SortedGet(tmp[i].entries, k, s);
      CandidateAnswers(files, tmp, k, s, i, a);
      i := i + 1;
    }
  }

  lemma CandidateValid(files: seq<TableFile>, tmp: seq<TableFile>, k: int, i: nat)
    requires AllValid(files) && CandidatesOf(files, tmp, k) && i < |tmp|
    ensures Sorted(tmp[i].entries)
  {
    assert tmp[i] in files;
    assert tmp[i].Valid();
  }

  // ---- A version, and the whole database ----

  ghost predicate VersionOk(levels: seq<seq<TableFile>>) {
    && levels != [] && Stacked(levels[0])
    && (forall l :: 0 < l < |levels| ==> InOrder(levels[l]))
    && (forall l, m :: 0 <= l < m < |levels| ==> NewerByKey(Held(levels[l]), Held(levels[m])))
  }

  // The entries of the first n levels
  ghost function Upto(levels: seq<seq<TableFile>>, n: nat): set<Entry>
    requires n <= |levels|
  {
    if n == 0 then {} else Upto(levels, n - 1) + Held(levels[n - 1])
  }

  lemma {:induction false} InSome(levels: seq<seq<TableFile>>, n: nat, e: Entry)
    requires n <= |levels| && e in Upto(levels, n)
    ensures exists l :: 0 <= l < n && e in Held(levels[l])
  {
    if e !in Held(levels[n - 1]) {
      InSome(levels, n - 1, e);
    }
  }

  lemma LevelsOrdered(levels: seq<seq<TableFile>>, n: nat)
    requires VersionOk(levels) && n < |levels|
    ensures NewerByKey(Upto(levels, n), Held(levels[n]))
  {
    forall e, h | e in Upto(levels, n) && h in Held(levels[n]) && e.key == h.key ensures e.sequence > h.sequence {
      InSome(levels, n, e);
      var l :| 0 <= l < n && e in Held(levels[l]);
      assert NewerByKey(Held(levels[l]), Held(levels[n]));
    }
  }

  lemma NextDecided(levels: seq<seq<TableFile>>, n: nat, k: int, s: nat, a: Answer)
    requires VersionOk(levels) && n < |levels| && Says(Upto(levels, n), k, s, a) && !a.NotHere?
    ensures Says(Upto(levels, n + 1), k, s, a)
  {
    LevelsOrdered(levels, n);
    UpperDecides(Upto(levels, n), Held(levels[n]), k, s, a);
    assert Upto(levels, n + 1) == Upto(levels, n) + Held(levels[n]);
  }

  // A level that answers answers for all the levels below it, too
  lemma {:induction false} LevelDecides(levels: seq<seq<TableFile>>, n: nat, k: int, s: nat, a: Answer)
    requires VersionOk(levels) && n <= |levels| && Says(Upto(levels, n), k, s, a) && !a.NotHere?
    ensures Says(Upto(levels, |levels|), k, s, a)
    decreases |levels| - n
  {
    if n < |levels| {
      NextDecided(levels, n, k, s, a);
      LevelDecides(levels, n + 1, k, s, a);
    }
  }

  lemma LevelAnswers(levels: seq<seq<TableFile>>, level: nat, k: int, s: nat, a: Answer)
    requires VersionOk(levels) && level < |levels|
    requires !Sees(Upto(levels, level), k, s) && Says(Held(levels[level]), k, s, a)
    ensures a.NotHere? ==> !Sees(Upto(levels, level + 1), k, s)
    ensures !a.NotHere? ==> Says(Upto(levels, |levels|), k, s, a)
  {
    LowerDecides(Upto(levels, level), Held(levels[level]), k, s, a);
    if !a.NotHere? {
      LevelDecides(levels, level + 1, k, s, a);
    }
  }

  lemma LevelShape(levels: seq<seq<TableFile>>, level: nat)
    requires VersionOk(levels) && level < |levels|
    ensures if level == 0 then Stacked(levels[0]) else InOrder(levels[level])
  {
  }

  method GetAtLevel(levels: seq<seq<TableFile>>, level: nat, k: int, s: nat) returns (a: Answer)
    requires VersionOk(levels) && level < |levels|
    ensures Says(Held(levels[level]), k, s, a)
  {
    LevelShape(levels, level);
    if level == 0 {
      a := Level0Get(levels[0], k, s);
    } else {
      a := LevelGet(levels[level], k, s);
    }
  }

  // Version::Get
  method VersionGet(levels: seq<seq<TableFile>>, k: int, s: nat) returns (a: Answer)
    requires VersionOk(levels)
    ensures Says(Upto(levels, |levels|), k, s, a)
  {
    var level := 0;
    a := NotHere;
    while level < |levels| && a.NotHere?
      invariant 0 <= level <= |levels|
      invariant if a.NotHere? then !Sees(Upto(levels, level), k, s) else Says(Upto(levels, |levels|), k, s, a)
    {
      a := GetAtLevel(levels, level, k, s);
      LevelAnswers(levels, level, k, s, a);
      level := level + 1;
    }
  }

  // DBImpl::Get at a snapshot: the newest visible entry of everything there is
  method Get(mem: seq<Entry>, imm: Option<seq<Entry>>, levels: seq<seq<TableFile>>, k: int, s: nat) returns (r: Option<string>)
    requires Sorted(mem) && (imm.Some? ==> Sorted(imm.value)) && VersionOk(levels)
    requires var i := if imm.Some? then Elements(imm.value) else {};
             var tables := Upto(levels, |levels|);
             Unique(Elements(mem) + (i + tables)) && NewerByKey(Elements(mem), i + tables) && NewerByKey(i, tables)
    ensures var i := if imm.Some? then Elements(imm.value) else {};
            r == Read(Elements(mem) + (i + Upto(levels, |levels|)), k, s)
  {
    ghost var i, tables := if imm.Some? then Elements(imm.value) else {}, Upto(levels, |levels|);
    var a := SortedGet(mem, k, s);
    if a.NotHere? {
      a := GetBelow(imm, levels, k, s);
      LowerDecides(Elements(mem), i + tables, k, s, a);
    } else {
      UpperDecides(Elements(mem), i + tables, k, s, a);
    }
    SaysRead(Elements(mem) + (i + tables), k, s, a);
    r := a.Value();
  }

  // The immutable memtable, if there is one, and then the tables
  method GetBelow(imm: Option<seq<Entry>>, levels: seq<seq<TableFile>>, k: int, s: nat) returns (a: Answer)
    requires (imm.Some? ==> Sorted(imm.value)) && VersionOk(levels)
    requires NewerByKey(if imm.Some? then Elements(imm.value) else {}, Upto(levels, |levels|))
    ensures Says((if imm.Some? then Elements(imm.value) else {}) + Upto(levels, |levels|), k, s, a)
  {
    ghost var i, tables := if imm.Some? then Elements(imm.value) else {}, Upto(levels, |levels|);
    a := NotHere;
    if imm.Some? {
      a := SortedGet(imm.value, k, s);
    }
    if a.NotHere? {
      a := VersionGet(levels, k, s);
      LowerDecides(i, tables, k, s, a);
    } else {
      UpperDecides(i, tables, k, s, a);
    }
  }

  // ---- Agreement with the iterator, and with the storage state machine ----

  lemma InView(v: seq<(int, string)>, k: int, w: string)
    requires forall i, j :: 0 <= i < j < |v| ==> v[i].0 < v[j].0
    ensures (k, w) in v <==> var i := IndexAtLeast(v, k); i < |v| && v[i] == (k, w)
  {
    if (k, w) in v {
      var j :| 0 <= j < |v| && v[j] == (k, w);
      assert j == IndexAtLeast(v, k);
    }
  }

  // Seeking an iterator over the same entries finds the key exactly if Get does, with the same value
  lemma SeekAgrees(es: seq<Entry>, k: int, s: nat, w: string)
    requires Sorted(es) && Unique(Elements(es))
    ensures Read(Elements(es), k, s) == Some(w) <==>
            var v, i := View(es, s), IndexAtLeast(View(es, s), k); i < |v| && v[i] == (k, w)
  {
    ViewIsRead(es, s, k, w);
    ViewSorted(es, s);
    InView(View(es, s), k, w);
  }

  // levels lists the files of v with the entries that t has for them
  ghost predicate Lists(levels: seq<seq<TableFile>>, v: Version, t: Store) {
    && (forall l, f :: 0 <= l < |levels| && f in levels[l] ==>
          File(f.number, l) in v && f.number in t && t[f.number] == Elements(f.entries))
    && (forall f :: f in v ==> f.level < |levels| && exists g :: g in levels[f.level] && g.number == f.number)
  }

  // The files of a level in the order of their smallest keys
  ghost predicate BySmallest(files: seq<TableFile>) {
    && AllValid(files)
    && forall i, j :: 0 <= i < j < |files| ==>
         files[i].number != files[j].number && !Before(files[j].Smallest(), files[i].Smallest())
  }

  // Sorted and apart, the files of a level can be searched
  lemma DisjointInOrder(levels: seq<seq<TableFile>>, v: Version, t: Store, l: nat)
    requires Lists(levels, v, t) && Disjoint(v, t) && 0 < l < |levels| && BySmallest(levels[l])
    ensures InOrder(levels[l])
  {
    var files := levels[l];
    forall i, j | 0 <= i < j < |files| ensures Before(files[i].Largest(), files[j].Smallest()) {
      var f, g := File(files[i].number, l), File(files[j].number, l);
      assert files[i] in files && files[j] in files && files[i].Valid() && files[j].Valid();
      assert Of(t, f) == Elements(files[i].entries) && Of(t, g) == Elements(files[j].entries);
      assert Apart(Of(t, f), Of(t, g));
      assert files[i].Smallest() in Of(t, f) && files[j].Smallest() in Of(t, g) && files[i].Largest() in Of(t, f);
    }
  }

  // A version of the state machine is one Get can search, and it searches all of it
  lemma LayeredIsSearchable(levels: seq<seq<TableFile>>, v: Version, t: Store)
    requires Lists(levels, v, t) && Layered(v, t) && levels != []
    requires AllValid(levels[0]) && (forall i, j :: 0 <= i < j < |levels[0]| ==> levels[0][i].number != levels[0][j].number)
    requires forall l :: 0 < l < |levels| ==> InOrder(levels[l])
    ensures VersionOk(levels) && Upto(levels, |levels|) == Contents(v, t)
  {
    forall l, m | 0 <= l < m < |levels| ensures NewerByKey(Held(levels[l]), Held(levels[m])) {
      LevelsLayered(levels, v, t, l, m);
    }
    Stack0(levels, v, t);
    ListsAll(levels, v, t);
  }

  lemma LevelsLayered(levels: seq<seq<TableFile>>, v: Version, t: Store, l: nat, m: nat)
    requires Lists(levels, v, t) && Layered(v, t) && l < m < |levels|
    ensures NewerByKey(Held(levels[l]), Held(levels[m]))
  {
    forall e, h | e in Held(levels[l]) && h in Held(levels[m]) && e.key == h.key ensures e.sequence > h.sequence {
      var f :| f in levels[l] && e in f.entries;
      var g :| g in levels[m] && h in g.entries;
      assert Above(File(f.number, l), File(g.number, m));
      assert Tables.Holds(t, File(f.number, l), e) && Tables.Holds(t, File(g.number, m), h);
    }
  }

  lemma ListsAll(levels: seq<seq<TableFile>>, v: Version, t: Store)
    requires Lists(levels, v, t)
    ensures Upto(levels, |levels|) == Contents(v, t)
  {
    forall e ensures e in Upto(levels, |levels|) <==> e in Contents(v, t) {
      InContents(v, t, e);
      if e in Upto(levels, |levels|) {
        InSome(levels, |levels|, e);
        var l :| 0 <= l < |levels| && e in Held(levels[l]);
        var g :| g in levels[l] && e in g.entries;
        assert Tables.Holds(t, File(g.number, l), e);
      }
      if e in Contents(v, t) {
        var f :| f in v && Tables.Holds(t, f, e);
        var g :| g in levels[f.level] && g.number == f.number;
        assert e in g.entries;
        UptoHolds(levels, |levels|, f.level, e);
      }
    }
  }

  lemma Stack0(levels: seq<seq<TableFile>>, v: Version, t: Store)
    requires Lists(levels, v, t) && Layered(v, t) && levels != []
    requires AllValid(levels[0]) && (forall i, j :: 0 <= i < j < |levels[0]| ==> levels[0][i].number != levels[0][j].number)
    ensures Stacked(levels[0])
  {
    forall f, g, e, h | f in levels[0] && g in levels[0] && f.number > g.number && e in f.entries && h in g.entries && e.key == h.key
      ensures e.sequence > h.sequence
    {
      assert Above(File(f.number, 0), File(g.number, 0));
      assert Tables.Holds(t, File(f.number, 0), e) && Tables.Holds(t, File(g.number, 0), h);
    }
  }

  lemma {:induction false} UptoHolds(levels: seq<seq<TableFile>>, n: nat, l: nat, e: Entry)
    requires n <= |levels| && l < n && e in Held(levels[l])
    ensures e in Upto(levels, n)
  {
    if l < n - 1 {
      UptoHolds(levels, n - 1, l, e);
    }
  }
}
