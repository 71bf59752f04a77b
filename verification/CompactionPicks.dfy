// Compactions of level 0, and what the chosen files are to a version: closed, clear of the files that stay,
// and, unless a manual compaction chose them, without a gap a flush could slip into.
module CompactionPicks {
  import opened Options
  import opened Entries
  import opened Tables
  import opened Ranges
  import opened Lookup
  import opened CompactionInputs

  // ---- SetupOtherInputs at level 0 ----

  ghost predicate RangeIs(files: seq<TableFile>, begin: int, end: int) {
    && (forall f :: f in files ==> f.entries != [] && begin <= f.Smallest().key && f.Largest().key <= end)
    && (exists f :: f in files && f.entries != [] && begin == f.Smallest().key)
    && (exists f :: f in files && f.entries != [] && end == f.Largest().key)
  }

  // The inputs of level 0 are all files that overlap a range; those of level 1 the files [c, d) that overlap
  // the inputs' user keys
  ghost predicate Chosen0(files0: seq<TableFile>, inputs0: seq<TableFile>, files1: seq<TableFile>, c: nat, d: nat) {
    && inputs0 != [] && c <= d <= |files1|
    && (exists b, e :: Level0Inputs(files0, inputs0, b, e))
    && exists begin, end :: RangeIs(inputs0, begin, end) && OverlapBetween(files1, c, d, begin, end)
  }

  lemma InputsValid(files: seq<TableFile>, inputs: seq<TableFile>, b: int, e: int)
    requires AllValid(files) && Level0Inputs(files, inputs, b, e)
    ensures AllValid(inputs)
  {
    forall i | 0 <= i < |inputs| ensures inputs[i].Valid() {
      assert inputs[i] in files;
    }
  }

  // AddBoundaryInputs at level 0: the overlapping files leave no boundary file to find, so the search ends at once
  method AddBoundaryInputs0(files: seq<TableFile>, inputs: seq<TableFile>, ghost b: int, ghost e: int) returns (r: seq<TableFile>)
    requires AllValid(files) && inputs != [] && Level0Inputs(files, inputs, b, e)
    ensures r == inputs
  {
    r := inputs;
    InputsValid(files, inputs, b, e);
    var largest := FindLargestKey(r);
    var found := FindSmallestBoundaryFile(files, largest);
    forall f | f in files ensures !Boundary(f, largest) {
      NoBoundary(files, inputs, b, e, largest, f);
    }
    assert found.None?;
  }

  lemma NoBoundary(files: seq<TableFile>, inputs: seq<TableFile>, b: int, e: int, largest: Entry, f: TableFile)
    requires AllValid(files) && AllValid(inputs) && Level0Inputs(files, inputs, b, e) && f in files
    requires exists i :: 0 <= i < |inputs| && largest == inputs[i].Largest()
    requires forall i :: 0 <= i < |inputs| ==> !Before(largest, inputs[i].Largest())
    ensures !Boundary(f, largest)
  {
    var i :| 0 <= i < |inputs| && largest == inputs[i].Largest();
    assert f.Valid() && inputs[i].Valid() && inputs[i] in inputs;
    FirstKey(f);
    FirstKey(inputs[i]);
    var es := f.entries;
    assert |es| > 1 ==> Before(es[0], es[|es| - 1]);
    if f in inputs {
      var j :| 0 <= j < |inputs| && inputs[j] == f;
      assert !Before(largest, f.Largest());
    }
  }

  method SetupOtherInputs0(files0: seq<TableFile>, picked: seq<TableFile>, files1: seq<TableFile>, tooLarge: seq<TableFile> -> bool,
                           ghost b0: int, ghost e0: int)
    returns (inputs0: seq<TableFile>, inputs1: seq<TableFile>, ghost c: nat, ghost d: nat)
    requires AllValid(files0) && InOrder(files1) && picked != [] && Level0Inputs(files0, picked, b0, e0)
    ensures Chosen0(files0, inputs0, files1, c, d) && inputs1 == files1[c..d]
    ensures Joined(picked) ==> Joined(inputs0 + inputs1)
  {
    inputs0 := AddBoundaryInputs0(files0, picked, b0, e0);
    InputsValid(files0, inputs0, b0, e0);
    inputs1, c, d := Below(inputs0, files1);
    if Joined(picked) {
      assert inputs0 + [] == inputs0;
      BelowJoined(inputs0, files1, c, d, []);
    }
    if inputs1 != [] {
      var expanded0, expanded1;
      ghost var c', d';
      expanded0, expanded1, c', d' := Widen0(files0, files1, inputs0, inputs1, b0, e0, c, d);
      if |expanded0| > |inputs0| && !tooLarge(expanded0 + inputs1) && |expanded1| == |inputs1| {
        inputs0, inputs1, c, d := expanded0, expanded1, c', d';
      }
    }
  }

  // The files of level 1 that overlap
  method Below(inputs0: seq<TableFile>, files1: seq<TableFile>) returns (inputs1: seq<TableFile>, ghost c: nat, ghost d: nat)
    requires AllValid(inputs0) && inputs0 != [] && InOrder(files1)
    ensures c <= d <= |files1| && inputs1 == files1[c..d]
    ensures exists begin, end :: RangeIs(inputs0, begin, end) && OverlapBetween(files1, c, d, begin, end)
  {
    var begin, end := UserRange(inputs0);
    assert inputs0[0] in inputs0 && inputs0[0].Valid();
    FirstKey(inputs0[0]);
    inputs1, c, d := OverlappingInLevel(files1, begin, end);
    assert RangeIs(inputs0, begin, end) && OverlapBetween(files1, c, d, begin, end);
  }

  lemma BelowJoined(inputs0: seq<TableFile>, files1: seq<TableFile>, c: nat, d: nat, others: seq<TableFile>)
    requires AllValid(inputs0) && AllValid(files1) && c <= d <= |files1| && Joined(inputs0 + others)
    requires exists begin, end :: RangeIs(inputs0, begin, end) && OverlapBetween(files1, c, d, begin, end)
    requires forall f :: f in others ==> f in files1[c..d]
    ensures Joined(inputs0 + files1[c..d])
  {
    var begin, end :| RangeIs(inputs0, begin, end) && OverlapBetween(files1, c, d, begin, end);
    var all := inputs0 + files1[c..d];
    forall k | begin <= k <= end ensures Spanned(all, k) {
      assert Spanned(inputs0 + others, k);
    }
    forall f | f in all && f.entries != [] ensures Overlaps(f, begin, end) {
      if f in inputs0 {
        assert f.Valid();
        FirstKey(f);
      } else {
        var i :| c <= i < d && files1[i] == f;
      }
    }
    JoinedFrom(all, begin, end);
  }

  method Widen0(files0: seq<TableFile>, files1: seq<TableFile>, inputs0: seq<TableFile>, inputs1: seq<TableFile>,
                ghost b0: int, ghost e0: int, ghost c: nat, ghost d: nat)
    returns (wide0: seq<TableFile>, wide1: seq<TableFile>, ghost c': nat, ghost d': nat)
    requires AllValid(files0) && InOrder(files1) && Level0Inputs(files0, inputs0, b0, e0)
    requires Chosen0(files0, inputs0, files1, c, d) && inputs1 == files1[c..d]
    ensures Chosen0(files0, wide0, files1, c', d') && wide1 == files1[c'..d']
    ensures Joined(inputs0 + inputs1) ==> Joined(wide0 + wide1)
  {
    InputsValid(files0, inputs0, b0, e0);
    SliceValid(files1, c, d);
    assert AllValid(inputs0 + inputs1);
    var start, limit := UserRange(inputs0 + inputs1);
    var expanded, b, e := OverlappingInLevel0(files0, start, limit, inputs1);
    forall f | f in inputs0 ensures f in expanded {
      assert f in inputs0 + inputs1 && f.Valid();
      FirstKey(f);
    }
    assert inputs0[0] in expanded;
    if Joined(inputs0 + inputs1) {
      WideJoined0(files0, inputs0, inputs1, expanded, start, limit, b, e);
    }
    wide0 := AddBoundaryInputs0(files0, expanded, b, e);
    InputsValid(files0, wide0, b, e);
    wide1, c', d' := Below(wide0, files1);
    WiderBelow0(inputs0, wide0, files1, c, d, c', d');
    if Joined(inputs0 + inputs1) {
      BelowJoined(wide0, files1, c', d', inputs1);
    }
  }

  lemma WideJoined0(files0: seq<TableFile>, inputs0: seq<TableFile>, inputs1: seq<TableFile>, wide0: seq<TableFile>,
                    start: int, limit: int, b: int, e: int)
    requires AllValid(files0) && AllValid(inputs1) && Joined(inputs0 + inputs1) && RangeIs(inputs0 + inputs1, start, limit)
    requires (forall f :: f in inputs0 ==> f in files0) && b <= start && limit <= e && Level0Inputs(files0, wide0, b, e)
    requires Covering(files0 + inputs1, start, limit) ==> Covering(wide0 + inputs1, b, e)
    ensures Joined(wide0 + inputs1)
  {
    forall k | start <= k <= limit ensures Spanned(files0 + inputs1, k) {
      assert Spanned(inputs0 + inputs1, k);
    }
    forall f | f in wide0 + inputs1 && f.entries != [] ensures Overlaps(f, b, e) {
      if f in inputs1 {
        assert f in inputs0 + inputs1 && f.Valid();
        FirstKey(f);
      }
    }
    JoinedFrom(wide0 + inputs1, b, e);
  }

  lemma WiderBelow0(inputs0: seq<TableFile>, wide0: seq<TableFile>, files1: seq<TableFile>, c: nat, d: nat, c': nat, d': nat)
    requires InOrder(files1) && c <= d <= |files1| && c' <= d' <= |files1| && forall f :: f in inputs0 ==> f in wide0
    requires exists begin, end :: RangeIs(inputs0, begin, end) && OverlapBetween(files1, c, d, begin, end)
    requires exists begin, end :: RangeIs(wide0, begin, end) && OverlapBetween(files1, c', d', begin, end)
    ensures forall f :: f in files1[c..d] ==> f in files1[c'..d']
  {
    var begin, end :| RangeIs(inputs0, begin, end) && OverlapBetween(files1, c, d, begin, end);
    var begin', end' :| RangeIs(wide0, begin', end') && OverlapBetween(files1, c', d', begin', end');
    assert begin' <= begin && end <= end';
    forall f | f in files1[c..d] ensures f in files1[c'..d'] {
      var i :| c <= i < d && files1[i] == f;
      assert c' <= i < d';
      assert files1[c'..d'][i - c'] == f;
    }
  }

  // ---- When inputs from level 0 are closed ----

  // The entries of the files that stay at level 0
  ghost function Left(files: seq<TableFile>, inputs: seq<TableFile>): set<Entry> {
    set f, e | f in files && f !in inputs && e in f.entries :: e
  }

  ghost predicate InputsClosed0(files0: seq<TableFile>, inputs0: seq<TableFile>, files1: seq<TableFile>, c: nat, d: nat)
    requires c <= d <= |files1|
  {
    NewerByKey(Left(files0, inputs0) + Rest(files1, c, d), Held(inputs0) + Held(files1[c..d]))
  }

  // As at the other levels: exactly if the first file left out of level 1 does not continue the user key of
  // the last one taken
  lemma InputsClosedExactly0(files0: seq<TableFile>, inputs0: seq<TableFile>, files1: seq<TableFile>, c: nat, d: nat)
    requires AllValid(files0) && InOrder(files1) && Chosen0(files0, inputs0, files1, c, d)
    requires Unique(Held(files1)) && NewerByKey(Held(files0), Held(files1))
    ensures InputsClosed0(files0, inputs0, files1, c, d) <==> d == c || !Continues(files1, d)
  {
    if c < d {
      ClosedExactly(files1, c, d);
      if Continues(files1, d) {
        NotClosedBelow0(files0, inputs0, files1, c, d);
      }
    }
    if d == c || !Continues(files1, d) {
      forall e, h | e in Left(files0, inputs0) + Rest(files1, c, d) && h in Held(inputs0) + Held(files1[c..d]) && e.key == h.key
        ensures e.sequence > h.sequence
      {
        ClosedPair0(files0, inputs0, files1, c, d, e, h);
      }
    }
  }

  lemma NotClosedBelow0(files0: seq<TableFile>, inputs0: seq<TableFile>, files1: seq<TableFile>, c: nat, d: nat)
    requires InOrder(files1) && c < d <= |files1| && Continues(files1, d)
    ensures !InputsClosed0(files0, inputs0, files1, c, d)
  {
    var e, h := files1[d].Smallest(), files1[d - 1].Largest();
    assert In(files1, d, e) && In(files1, d - 1, h);
    HeldSlice(files1, d, |files1|, e);
    HeldSlice(files1, c, d, h);
    assert files1[d..|files1|] == files1[d..];
    FilesBefore(files1, d - 1, d, h, e);
    SameKeyOlder(h, e);
  }

  lemma ClosedPair0(files0: seq<TableFile>, inputs0: seq<TableFile>, files1: seq<TableFile>, c: nat, d: nat, e: Entry, h: Entry)
    requires AllValid(files0) && InOrder(files1) && Chosen0(files0, inputs0, files1, c, d)
    requires (c < d ==> ClosedLevel(files1, c, d)) && NewerByKey(Held(files0), Held(files1))
    requires e in Left(files0, inputs0) + Rest(files1, c, d) && h in Held(inputs0) + Held(files1[c..d]) && e.key == h.key
    ensures e.sequence > h.sequence
  {
    if e in Left(files0, inputs0) && h in Held(inputs0) {
      KeysApart0(files0, inputs0, e, h);
    } else if e in Left(files0, inputs0) {
      var j := SliceInside(files1, c, d, h);
      assert e in Held(files0);
    } else {
      var i := RestOutside(files1, c, d, e);
      if h in Held(inputs0) {
        NothingBelow0(files0, inputs0, files1, c, d, i, e, h);
      } else {
        var j := SliceInside(files1, c, d, h);
      }
    }
  }

  lemma KeysApart0(files0: seq<TableFile>, inputs0: seq<TableFile>, e: Entry, h: Entry)
    requires AllValid(files0) && exists x, y :: Level0Inputs(files0, inputs0, x, y)
    requires e in Left(files0, inputs0) && h in Held(inputs0)
    ensures e.key != h.key
  {
    var x, y :| Level0Inputs(files0, inputs0, x, y);
    var f :| f in files0 && f !in inputs0 && e in f.entries;
    var g :| g in inputs0 && h in g.entries;
    Level0Closed(files0, inputs0, x, y, f, g, e, h);
  }

  lemma NothingBelow0(files0: seq<TableFile>, inputs0: seq<TableFile>, files1: seq<TableFile>, c: nat, d: nat, i: nat, e: Entry, h: Entry)
    requires AllValid(files0) && InOrder(files1) && Chosen0(files0, inputs0, files1, c, d)
    requires In(files1, i, e) && !(c <= i < d) && h in Held(inputs0)
    ensures e.key != h.key
  {
    var begin, end :| RangeIs(inputs0, begin, end) && OverlapBetween(files1, c, d, begin, end);
    var g :| g in inputs0 && h in g.entries;
    assert g in files0 && g.Valid() && files1[i].Valid();
    KeysWithin(g, h);
    KeysWithin(files1[i], e);
  }

  // ---- The chosen files in a version ----

  ghost function Picked(levels: seq<seq<TableFile>>, level: nat, inputs0: seq<TableFile>, c: nat, d: nat): Version
    requires level + 1 < |levels| && c <= d <= |levels[level + 1]|
  {
    Named(inputs0, level) + Named(levels[level + 1][c..d], level + 1)
  }

  lemma NamedIn(levels: seq<seq<TableFile>>, v: Version, t: Store, l: nat, inputs: seq<TableFile>, g: File)
    requires Lists(levels, v, t) && l < |levels| && (forall f :: f in inputs ==> f in levels[l]) && g in Named(inputs, l)
    ensures g in v && g.level == l && g.number in t
    ensures exists f :: f in inputs && f.number == g.number && t[g.number] == Elements(f.entries)
  {
    var f :| f in inputs && g == File(f.number, l);
    assert f in levels[l];
  }

  lemma ClosedInVersion0(levels: seq<seq<TableFile>>, v: Version, t: Store, inputs0: seq<TableFile>, c: nat, d: nat)
    requires Lists(levels, v, t) && 1 < |levels| && c <= d <= |levels[1]| && forall f :: f in inputs0 ==> f in levels[0]
    requires InputsClosed0(levels[0], inputs0, levels[1], c, d)
    ensures Closed(v, t, 0, Picked(levels, 0, inputs0, c, d))
  {
    var inputs := Picked(levels, 0, inputs0, c, d);
    forall g | g in inputs ensures g in v && Inside(0, g) {
      PickedIn(levels, v, t, 0, inputs0, c, d, g);
    }
    forall g, h | g in inputs && Tables.Holds(t, g, h) ensures h in Held(inputs0) + Held(levels[1][c..d]) {
      PickedIn(levels, v, t, 0, inputs0, c, d, g);
    }
    assert forall x :: x in inputs0 ==> File(x.number, 0) in inputs;
    forall f, e | f in v && f !in inputs && Inside(0, f) && Tables.Holds(t, f, e)
      ensures e in Left(levels[0], inputs0) + Rest(levels[1], c, d)
    {
      var g :| g in levels[f.level] && g.number == f.number;
      if f.level == 1 {
        OutsideInputs(levels[1], 1, c, d, g, e);
      }
    }
  }

  lemma PickedIn(levels: seq<seq<TableFile>>, v: Version, t: Store, level: nat, inputs0: seq<TableFile>, c: nat, d: nat, g: File)
    requires Lists(levels, v, t) && level + 1 < |levels| && c <= d <= |levels[level + 1]|
    requires (forall f :: f in inputs0 ==> f in levels[level]) && g in Picked(levels, level, inputs0, c, d)
    ensures g in v && Inside(level, g)
    ensures exists f :: f in inputs0 + levels[level + 1][c..d] && g == File(f.number, g.level) && Of(t, g) == Elements(f.entries)
                        && (f in inputs0 || f in levels[level + 1][c..d])
  {
    var inputs1 := levels[level + 1][c..d];
    assert forall f :: f in inputs1 ==> f in levels[level + 1];
    if g in Named(inputs0, level) {
      NamedIn(levels, v, t, level, inputs0, g);
    } else {
      NamedIn(levels, v, t, level + 1, inputs1, g);
    }
  }

  // An entry of the inputs is in one of their files
  lemma PickedHolds(levels: seq<seq<TableFile>>, v: Version, t: Store, level: nat, inputs0: seq<TableFile>, c: nat, d: nat, e: Entry)
    requires Lists(levels, v, t) && level + 1 < |levels| && c <= d <= |levels[level + 1]|
    requires (forall f :: f in inputs0 ==> f in levels[level]) && e in Contents(Picked(levels, level, inputs0, c, d), t)
    ensures exists f :: f in inputs0 + levels[level + 1][c..d] && e in f.entries
  {
    InContents(Picked(levels, level, inputs0, c, d), t, e);
    var g :| g in Picked(levels, level, inputs0, c, d) && Tables.Holds(t, g, e);
    PickedIn(levels, v, t, level, inputs0, c, d, g);
  }

  // No file that stays at the output level lies between the inputs
  lemma ClearPick(levels: seq<seq<TableFile>>, v: Version, t: Store, level: nat, inputs0: seq<TableFile>, files: seq<TableFile>,
                  c: nat, d: nat, begin: int, end: int)
    requires Lists(levels, v, t) && level + 1 < |levels| && files == levels[level + 1] && InOrder(files) && c <= d <= |files|
    requires forall f :: f in inputs0 ==> f in levels[level] && f.Valid() && begin <= f.Smallest().key && f.Largest().key <= end
    requires OverlapBetween(files, c, d, begin, end)
    ensures Clear(v, t, level, Picked(levels, level, inputs0, c, d))
  {
    var inputs := Picked(levels, level, inputs0, c, d);
    forall g | g in v && g !in inputs && g.level == level + 1 ensures Apart(Of(t, g), Contents(inputs, t)) {
      var x :| x in levels[level + 1] && x.number == g.number;
      var i :| 0 <= i < |files| && files[i] == x;
      assert Of(t, g) == Elements(x.entries);
      forall k | c <= k < d ensures files[k] in files[c..d] {
        assert files[c..d][k - c] == files[k];
      }
      assert !(c <= i < d);
      forall e, h | e in Of(t, g) && h in Contents(inputs, t) ensures if i < c then Before(e, h) else Before(h, e) {
        PickedHolds(levels, v, t, level, inputs0, c, d, h);
        SidesOf(files, inputs0, c, d, begin, end, i, e, h);
      }
    }
  }

  lemma SidesOf(files: seq<TableFile>, inputs0: seq<TableFile>, c: nat, d: nat, begin: int, end: int, i: nat, e: Entry, h: Entry)
    requires InOrder(files) && c <= d <= |files| && i < |files| && !(c <= i < d) && OverlapBetween(files, c, d, begin, end)
    requires forall f :: f in inputs0 ==> f.Valid() && begin <= f.Smallest().key && f.Largest().key <= end
    requires e in files[i].entries && exists f :: f in inputs0 + files[c..d] && h in f.entries
    ensures if i < c then Before(e, h) else Before(h, e)
  {
    var f :| f in inputs0 + files[c..d] && h in f.entries;
    assert files[i].Valid();
    KeysWithin(files[i], e);
    if f in inputs0 {
      KeysWithin(f, h);
    } else {
      var j :| c <= j < d && files[j] == f;
      if i < j {
        FilesBefore(files, i, j, e, h);
      } else {
        FilesBefore(files, j, i, h, e);
      }
    }
  }

  // Joined files leave no gap
  lemma CoveredPick(levels: seq<seq<TableFile>>, v: Version, t: Store, level: nat, inputs0: seq<TableFile>, c: nat, d: nat)
    requires Lists(levels, v, t) && level + 1 < |levels| && c <= d <= |levels[level + 1]| && AllValid(levels[level + 1])
    requires (forall f :: f in inputs0 ==> f in levels[level] && f.Valid()) && Joined(inputs0 + levels[level + 1][c..d])
    ensures Covered(v, t, level, Picked(levels, level, inputs0, c, d))
  {
    var inputs, all := Picked(levels, level, inputs0, c, d), inputs0 + levels[level + 1][c..d];
    forall f | f in all ensures f.Valid() {}
    forall k | Within(Contents(inputs, t), k) ensures exists g :: g in v && g.level <= level + 1 && Within(Of(t, g), k) {
      var e, h :| e in Contents(inputs, t) && h in Contents(inputs, t) && e.key <= k <= h.key;
      PickedHolds(levels, v, t, level, inputs0, c, d, e);
      PickedHolds(levels, v, t, level, inputs0, c, d, h);
      var x :| x in all && e in x.entries;
      var y :| y in all && h in y.entries;
      KeysWithin(x, e);
      KeysWithin(y, h);
      assert Spanned(all, k);
      CoveringFile(levels, v, t, level, inputs0, c, d, k);
    }
  }

  lemma CoveringFile(levels: seq<seq<TableFile>>, v: Version, t: Store, level: nat, inputs0: seq<TableFile>, c: nat, d: nat, k: int)
    requires Lists(levels, v, t) && level + 1 < |levels| && c <= d <= |levels[level + 1]|
    requires (forall f :: f in inputs0 ==> f in levels[level]) && Spanned(inputs0 + levels[level + 1][c..d], k)
    ensures exists g :: g in v && g.level <= level + 1 && Within(Of(t, g), k)
  {
    var f :| f in inputs0 + levels[level + 1][c..d] && f.entries != [] && Covers(f, k);
    var g := File(f.number, if f in inputs0 then level else level + 1);
    assert f in levels[g.level];
    assert Of(t, g) == Elements(f.entries) && f.Smallest() in Of(t, g) && f.Largest() in Of(t, g);
    assert g in v && Within(Of(t, g), k);
  }

  // ---- Automatic compactions ----

  lemma ChosenWithin(files: seq<TableFile>, a: nat, b: nat, begin: int, end: int, f: TableFile)
    requires InOrder(files) && a < b <= |files| && Spans(files, a, b, begin, end) && f in files[a..b]
    ensures f in files && f.Valid() && begin <= f.Smallest().key && f.Largest().key <= end
  {
    var i :| a <= i < b && files[i] == f;
    RangeBegins(files, a, b, i);
    RangeEnds(files, a, b, i);
  }

  // What SetupOtherInputs chooses is clear of the files that stay, and, made of a single file, covered
  lemma ChosenClear(levels: seq<seq<TableFile>>, v: Version, t: Store, level: nat, a: nat, b: nat, c: nat, d: nat)
    requires Lists(levels, v, t) && level + 1 < |levels| && InOrder(levels[level]) && InOrder(levels[level + 1])
    requires CompactionInputs.Chosen(levels[level], a, b, levels[level + 1], c, d)
    ensures Clear(v, t, level, Picked(levels, level, levels[level][a..b], c, d))
  {
    var files := levels[level];
    var begin, end :| Spans(files, a, b, begin, end) && OverlapBetween(levels[level + 1], c, d, begin, end);
    forall f | f in files[a..b] ensures f in files && f.Valid() && begin <= f.Smallest().key && f.Largest().key <= end {
      ChosenWithin(files, a, b, begin, end, f);
    }
    ClearPick(levels, v, t, level, files[a..b], levels[level + 1], c, d, begin, end);
  }

  lemma ChosenCovered(levels: seq<seq<TableFile>>, v: Version, t: Store, level: nat, a: nat, b: nat, c: nat, d: nat)
    requires Lists(levels, v, t) && level + 1 < |levels| && InOrder(levels[level]) && InOrder(levels[level + 1])
    requires CompactionInputs.Chosen(levels[level], a, b, levels[level + 1], c, d)
    requires Joined(levels[level][a..b] + levels[level + 1][c..d])
    ensures Covered(v, t, level, Picked(levels, level, levels[level][a..b], c, d))
  {
    var files := levels[level];
    forall f | f in files[a..b] ensures f in files && f.Valid() {
      var i :| a <= i < b && files[i] == f;
    }
    CoveredPick(levels, v, t, level, files[a..b], c, d);
  }

  lemma ChosenClosed0(levels: seq<seq<TableFile>>, v: Version, t: Store, inputs0: seq<TableFile>, c: nat, d: nat)
    requires Lists(levels, v, t) && Layered(v, t) && 1 < |levels|
    requires AllValid(levels[0]) && InOrder(levels[1]) && Unique(Held(levels[1]))
    requires Chosen0(levels[0], inputs0, levels[1], c, d)
    requires d == c || !Continues(levels[1], d)
    ensures Closed(v, t, 0, Picked(levels, 0, inputs0, c, d))
  {
    LevelsLayered(levels, v, t, 0, 1);
    InputsClosedExactly0(levels[0], inputs0, levels[1], c, d);
    forall f | f in inputs0 ensures f in levels[0] {}
    ClosedInVersion0(levels, v, t, inputs0, c, d);
  }

  lemma Range0(files0: seq<TableFile>, inputs0: seq<TableFile>, files1: seq<TableFile>, c: nat, d: nat) returns (begin: int, end: int)
    requires AllValid(files0) && Chosen0(files0, inputs0, files1, c, d)
    ensures OverlapBetween(files1, c, d, begin, end)
    ensures forall f :: f in inputs0 ==> f in files0 && f.Valid() && begin <= f.Smallest().key && f.Largest().key <= end
  {
    begin, end :| RangeIs(inputs0, begin, end) && OverlapBetween(files1, c, d, begin, end);
  }

  lemma ChosenClear0(levels: seq<seq<TableFile>>, v: Version, t: Store, inputs0: seq<TableFile>, c: nat, d: nat)
    requires Lists(levels, v, t) && 1 < |levels| && AllValid(levels[0]) && InOrder(levels[1])
    requires Chosen0(levels[0], inputs0, levels[1], c, d)
    ensures Clear(v, t, 0, Picked(levels, 0, inputs0, c, d))
  {
    var begin, end := Range0(levels[0], inputs0, levels[1], c, d);
    assert InOrder(levels[1]) && OverlapBetween(levels[1], c, d, begin, end);
    ClearPick(levels, v, t, 0, inputs0, levels[1], c, d, begin, end);
  }

  lemma ChosenCovered0(levels: seq<seq<TableFile>>, v: Version, t: Store, inputs0: seq<TableFile>, c: nat, d: nat)
    requires Lists(levels, v, t) && 1 < |levels| && AllValid(levels[0]) && InOrder(levels[1])
    requires Chosen0(levels[0], inputs0, levels[1], c, d) && Joined(inputs0 + levels[1][c..d])
    ensures Covered(v, t, 0, Picked(levels, 0, inputs0, c, d))
  {
    forall f | f in inputs0 ensures f in levels[0] && f.Valid() {}
    CoveredPick(levels, v, t, 0, inputs0, c, d);
  }

  // PickCompaction at level 0: the files that overlap the picked one, transitively, are joined
  method PickLevel0(files0: seq<TableFile>, f: TableFile) returns (picked: seq<TableFile>, ghost b: int, ghost e: int)
    requires AllValid(files0) && f in files0
    ensures picked != [] && Level0Inputs(files0, picked, b, e) && Joined(picked)
  {
    assert f.Valid();
    FirstKey(f);
    var begin, end := f.Smallest().key, f.Largest().key;
    forall k | begin <= k <= end ensures Spanned(files0 + [], k) {
      assert f in files0 + [] && Covers(f, k);
    }
    picked, b, e := OverlappingInLevel0(files0, begin, end, []);
    assert f in picked;
    assert picked + [] == picked;
    forall g | g in picked && g.entries != [] ensures Overlaps(g, b, e) {}
    JoinedFrom(picked, b, e);
  }
}
