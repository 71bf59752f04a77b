// Choosing the inputs of a compaction: Version::GetOverlappingInputs, AddBoundaryInputs and
// VersionSet::SetupOtherInputs.
module CompactionInputs {
  import opened Options
  import opened Entries
  import opened Compaction
  import opened Lookup
  import Tables

  // ---- Files that overlap a range of user keys ----

  predicate Overlaps(f: TableFile, begin: int, end: int)
    requires f.entries != []
  {
    begin <= f.Largest().key && f.Smallest().key <= end
  }

  ghost predicate Bounded(files: seq<TableFile>, lo: int, hi: int) {
    AllValid(files) && forall f :: f in files ==> f.entries != [] && lo <= f.Smallest().key && f.Largest().key <= hi
  }

  // GetOverlappingInputs at level 0: a file that reaches out of the range widens it, and the search starts over
  method OverlappingInLevel0(files: seq<TableFile>, begin: int, end: int, ghost others: seq<TableFile>)
    returns (inputs: seq<TableFile>, b: int, e: int)
    requires AllValid(files)
    ensures b <= begin && end <= e && Level0Inputs(files, inputs, b, e)
    ensures Covering(files + others, begin, end) ==> Covering(inputs + others, b, e)
  {
    ghost var lo, hi := Bounds(files, begin, end);
    b, e := begin, end;
    inputs := [];
    var i := 0;
    while i < |files|
      invariant 0 <= i <= |files| && lo <= b <= begin && end <= e <= hi
      invariant Covering(files + others, begin, end) ==> Covering(files + others, b, e)
      invariant forall f :: f in inputs <==> f in files[..i] && f.entries != [] && Overlaps(f, b, e)
      invariant forall f :: f in inputs ==> f.entries != [] && b <= f.Smallest().key && f.Largest().key <= e
      decreases (b - lo) + (hi - e), |files| - i
    {
      var f := files[i];
      assert f.Valid() && f in files;
      assert files[..i + 1] == files[..i] + [f];
      i := i + 1;
      if f.Largest().key < b || f.Smallest().key > e {
        continue;
      }
      inputs := inputs + [f];
      assert f in files + others;
      if f.Smallest().key < b {
        CoveringGrows(files + others, f, b, e);
        b, inputs, i := f.Smallest().key, [], 0;
      } else if f.Largest().key > e {
        CoveringGrows(files + others, f, b, e);
        e, inputs, i := f.Largest().key, [], 0;
      }
    }
    assert files[..i] == files;
    CoveringInputs(files, inputs, others, b, e);
  }

  // All files that overlap the range, which covers them
  ghost predicate Level0Inputs(files: seq<TableFile>, inputs: seq<TableFile>, b: int, e: int) {
    && (forall f :: f in inputs <==> f in files && f.entries != [] && Overlaps(f, b, e))
    && (forall f :: f in inputs ==> f.entries != [] && b <= f.Smallest().key && f.Largest().key <= e)
  }

  lemma {:induction false} Bounds(files: seq<TableFile>, begin: int, end: int) returns (lo: int, hi: int)
    requires AllValid(files)
    ensures Bounded(files, lo, hi) && lo <= begin && end <= hi
  {
    lo, hi := begin, end;
    if files != [] {
      var f := files[0];
      assert f.Valid();
      lo, hi := Bounds(files[1..], if f.Smallest().key < begin then f.Smallest().key else begin,
                       if f.Largest().key > end then f.Largest().key else end);
      assert files == [f] + files[1..];
    }
  }

  // ---- Ranges that files cover ----

  // Some file's range of user keys contains k
  ghost predicate Spanned(files: seq<TableFile>, k: int) {
    exists f :: f in files && f.entries != [] && Covers(f, k)
  }

  ghost predicate Covering(files: seq<TableFile>, lo: int, hi: int) {
    forall k :: lo <= k <= hi ==> Spanned(files, k)
  }

  // Every user key between two of the files lies in the range of one of them
  ghost predicate Joined(files: seq<TableFile>) {
    forall x, y, k :: x in files && y in files && x.entries != [] && y.entries != [] && x.Smallest().key <= k <= y.Largest().key ==>
      Spanned(files, k)
  }

  lemma CoveringGrows(files: seq<TableFile>, f: TableFile, b: int, e: int)
    requires f in files && f.entries != [] && Overlaps(f, b, e)
    ensures Covering(files, b, e) ==> f.Smallest().key < b ==> Covering(files, f.Smallest().key, e)
    ensures Covering(files, b, e) ==> f.Largest().key > e ==> Covering(files, b, f.Largest().key)
  {
    forall k | f.Smallest().key <= k < b || e < k <= f.Largest().key ensures Covering(files, b, e) ==> Spanned(files, k) {
      assert Covers(f, k) || b <= k <= e;
    }
  }

  lemma CoveringInputs(files: seq<TableFile>, inputs: seq<TableFile>, others: seq<TableFile>, b: int, e: int)
    requires Level0Inputs(files, inputs, b, e)
    ensures Covering(files + others, b, e) ==> Covering(inputs + others, b, e)
  {
    if Covering(files + others, b, e) {
      forall k | b <= k <= e ensures Spanned(inputs + others, k) {
        assert Spanned(files + others, k);
        var f :| f in files + others && f.entries != [] && Covers(f, k);
        assert f in inputs + others;
      }
    }
  }

  // Files that overlap a range they cover are joined
  lemma JoinedFrom(files: seq<TableFile>, lo: int, hi: int)
    requires Covering(files, lo, hi) && forall f :: f in files && f.entries != [] ==> Overlaps(f, lo, hi)
    ensures Joined(files)
  {
    forall x, y, k | x in files && y in files && x.entries != [] && y.entries != [] && x.Smallest().key <= k <= y.Largest().key
      ensures Spanned(files, k)
    {
      assert Overlaps(x, lo, hi) && Overlaps(y, lo, hi);
      assert k < lo ==> Covers(x, k);
      assert k > hi ==> Covers(y, k);
    }
  }

  // A file that goes on where one of the others ends joins them
  lemma JoinedNext(files: seq<TableFile>, last: TableFile, f: TableFile)
    requires Joined(files) && last in files && last.Valid() && f.Valid() && f.Smallest().key == last.Largest().key
    ensures Joined(files + [f])
  {
    FirstKey(f);
    FirstKey(last);
    forall x, y, k | x in files + [f] && y in files + [f] && x.entries != [] && y.entries != [] && x.Smallest().key <= k <= y.Largest().key
      ensures Spanned(files + [f], k)
    {
      assert f in files + [f];
      if x != f && k <= last.Largest().key {
        assert Spanned(files, k);
      } else if y != f && last.Smallest().key <= k {
        assert Spanned(files, k);
      } else {
        assert Covers(f, k);
      }
    }
  }

  lemma FirstKey(f: TableFile)
    requires f.Valid()
    ensures f.Smallest().key <= f.Largest().key
  {
    assert |f.entries| > 1 ==> Before(f.entries[0], f.entries[|f.entries| - 1]);
  }

  // At the other levels the files are disjoint: those that overlap the range are next to each other
  method OverlappingInLevel(files: seq<TableFile>, begin: int, end: int) returns (inputs: seq<TableFile>, ghost c: nat, ghost d: nat)
    requires InOrder(files) && begin <= end
    ensures c <= d <= |files| && inputs == files[c..d]
    ensures forall i :: 0 <= i < c ==> files[i].entries != [] && files[i].Largest().key < begin
    ensures forall i :: c <= i < d ==> files[i].entries != [] && Overlaps(files[i], begin, end)
    ensures forall i :: d <= i < |files| ==> files[i].entries != [] && files[i].Smallest().key > end
  {
    inputs := [];
    c, d := 0, 0;
    var i := 0;
    while i < |files|
      invariant 0 <= c <= d <= i <= |files| && inputs == files[c..d]
      invariant forall j :: 0 <= j < c ==> files[j].entries != [] && files[j].Largest().key < begin
      invariant forall j :: c <= j < d ==> files[j].entries != [] && Overlaps(files[j], begin, end)
      invariant forall j :: d <= j < i ==> files[j].entries != [] && files[j].Smallest().key > end
    {
      var f := files[i];
      KeysInOrder(files, i);
      assert d < i ==> files[d].Smallest().key > end;
      assert c < d ==> Overlaps(files[c], begin, end);
      if f.Largest().key < begin {
        c, d := i + 1, i + 1;
      } else if f.Smallest().key > end {
      } else {
        inputs := inputs + [f];
        d := i + 1;
      }
      i := i + 1;
    }
  }

  // User keys do not decrease along a level
  lemma KeysInOrder(files: seq<TableFile>, i: nat)
    requires InOrder(files) && i < |files|
    ensures files[i].entries != [] && files[i].Smallest().key <= files[i].Largest().key
    ensures forall j :: 0 <= j < i ==> files[j].entries != [] && files[j].Largest().key <= files[i].Smallest().key
    ensures forall j :: 0 <= j < i ==> files[j].Smallest().key <= files[i].Smallest().key
  {
    assert files[i].Valid();
    var es := files[i].entries;
    assert |es| > 1 ==> Before(es[0], es[|es| - 1]);
    forall j | 0 <= j < i ensures files[j].entries != [] && files[j].Smallest().key <= files[j].Largest().key {
      assert files[j].Valid();
      var fs := files[j].entries;
      assert |fs| > 1 ==> Before(fs[0], fs[|fs| - 1]);
    }
  }

  // ---- Older entries of a key at the end of the inputs ----

  // FindLargestKey
  method FindLargestKey(files: seq<TableFile>) returns (largest: Entry)
    requires files != [] && AllValid(files)
    ensures exists i :: 0 <= i < |files| && largest == files[i].Largest()
    ensures forall i :: 0 <= i < |files| ==> !Before(largest, files[i].Largest())
  {
    largest := files[0].Largest();
    var i := 1;
    while i < |files|
      invariant 1 <= i <= |files| && exists j :: 0 <= j < i && largest == files[j].Largest()
      invariant forall j :: 0 <= j < i ==> !Before(largest, files[j].Largest())
    {
      assert files[i].Valid();
      if Before(largest, files[i].Largest()) {
        largest := files[i].Largest();
      }
      i := i + 1;
    }
  }

  // FindSmallestBoundaryFile: of the files that begin after the largest key, but with its user key, the first
  method FindSmallestBoundaryFile(files: seq<TableFile>, largest: Entry) returns (found: Option<TableFile>)
    requires AllValid(files)
    ensures found.Some? ==> found.value in files && Boundary(found.value, largest)
    ensures forall f :: f in files && Boundary(f, largest) ==> found.Some? && !Before(f.Smallest(), found.value.Smallest())
  {
    found := None;
    var i := 0;
    while i < |files|
      invariant 0 <= i <= |files|
      invariant found.Some? ==> found.value in files && Boundary(found.value, largest)
      invariant forall f :: f in files[..i] && Boundary(f, largest) ==> found.Some? && !Before(f.Smallest(), found.value.Smallest())
    {
      var f := files[i];
      assert f.Valid() && files[..i + 1] == files[..i] + [f];
      if Before(largest, f.Smallest()) && f.Smallest().key == largest.key {
        if found.None? || Before(f.Smallest(), found.value.Smallest()) {
          found := Some(f);
        }
      }
      i := i + 1;
    }
    assert files[..i] == files;
  }

  predicate Boundary(f: TableFile, largest: Entry) {
    f.entries != [] && Before(largest, f.Smallest()) && f.Smallest().key == largest.key
  }

  // Whether the file after the first b continues the user key that the b-th ends with
  predicate Continues(files: seq<TableFile>, b: nat)
    requires 0 < b <= |files|
  {
    b < |files| && files[b - 1].entries != [] && files[b].entries != [] && files[b].Smallest().key == files[b - 1].Largest().key
  }

  lemma LastIsLargest(files: seq<TableFile>, a: nat, b: nat, largest: Entry)
    requires InOrder(files) && a < b <= |files|
    requires exists i :: 0 <= i < b - a && largest == files[a..b][i].Largest()
    requires forall i :: 0 <= i < b - a ==> !Before(largest, files[a..b][i].Largest())
    ensures files[b - 1].entries != [] && largest == files[b - 1].Largest()
  {
    var i :| 0 <= i < b - a && largest == files[a..b][i].Largest();
    assert files[a..b][b - 1 - a] == files[b - 1] && files[a..b][i] == files[a + i];
    assert files[b - 1].Valid();
    LargestUpto(files, a + i, b - 1);
  }

  lemma LargestUpto(files: seq<TableFile>, i: nat, j: nat)
    requires InOrder(files) && i <= j < |files|
    ensures files[i].entries != [] && files[j].entries != []
    ensures files[i].Largest() == files[j].Largest() || Before(files[i].Largest(), files[j].Largest())
  {
    assert files[i].Valid() && files[j].Valid();
    if i < j {
      LargestOrder(files, i, j);
    }
  }

  // The next boundary file of a run of neighbouring files is the neighbour, if it continues the key
  lemma NextBoundary(files: seq<TableFile>, b: nat, found: Option<TableFile>)
    requires InOrder(files) && 0 < b <= |files| && files[b - 1].entries != []
    requires found.Some? ==> found.value in files && Boundary(found.value, files[b - 1].Largest())
    requires forall f :: f in files && Boundary(f, files[b - 1].Largest()) ==>
               found.Some? && !Before(f.Smallest(), found.value.Smallest())
    ensures found == if Continues(files, b) then Some(files[b]) else None
  {
    var largest := files[b - 1].Largest();
    assert files[b - 1].Valid();
    if b < |files| {
      assert files[b].Valid();
      assert Before(largest, files[b].Smallest());
    }
    if found.Some? {
      var i :| 0 <= i < |files| && files[i] == found.value;
      BoundaryAfter(files, b, i);
    }
  }

  lemma BoundaryAfter(files: seq<TableFile>, b: nat, i: nat)
    requires InOrder(files) && 0 < b <= |files| && i < |files| && files[b - 1].entries != []
    requires Boundary(files[i], files[b - 1].Largest())
    ensures i >= b && Continues(files, b)
    ensures i > b ==> Before(files[b].Smallest(), files[i].Smallest())
  {
    KeysInOrder(files, b - 1);
    NoneBefore(files, b - 1);
    assert i >= b;
    KeysInOrder(files, i);
    assert files[b].Valid();
    if b < i {
      assert Before(files[b].Largest(), files[i].Smallest());
      var es := files[b].entries;
      assert |es| > 1 ==> Before(es[0], es[|es| - 1]);
      assert Before(files[b - 1].Largest(), files[b].Smallest());
    }
  }

  lemma FirstBeforeLast(files: seq<TableFile>, i: nat, j: nat)
    requires InOrder(files) && i <= j < |files|
    ensures files[i].entries != [] && files[j].entries != [] && !Before(files[j].Largest(), files[i].Smallest())
  {
    assert files[i].Valid() && files[j].Valid();
    var es := files[i].entries;
    assert |es| > 1 ==> Before(es[0], es[|es| - 1]);
    if i < j {
      assert Before(files[i].Largest(), files[j].Smallest());
      var fs := files[j].entries;
      assert |fs| > 1 ==> Before(fs[0], fs[|fs| - 1]);
    }
  }

  lemma NoneBefore(files: seq<TableFile>, j: nat)
    requires InOrder(files) && j < |files|
    ensures files[j].entries != []
    ensures forall i :: 0 <= i <= j ==> files[i].entries != [] && !Before(files[j].Largest(), files[i].Smallest())
  {
    forall i | 0 <= i <= j ensures files[i].entries != [] && files[j].entries != [] && !Before(files[j].Largest(), files[i].Smallest()) {
      FirstBeforeLast(files, i, j);
    }
  }

  // AddBoundaryInputs, for inputs that are neighbours in their level
  method AddBoundaryInputs(files: seq<TableFile>, compaction: seq<TableFile>, ghost a: nat, ghost b: nat)
    returns (r: seq<TableFile>, ghost b': nat)
    requires InOrder(files) && a < b <= |files| && compaction == files[a..b]
    ensures b <= b' <= |files| && r == files[a..b'] && !Continues(files, b')
    ensures forall i :: b <= i < b' ==> Continues(files, i)
  {
    r, b' := compaction, b;
    SliceValid(files, a, b);
    var largest := FindLargestKey(r);
    LastIsLargest(files, a, b, largest);
    var searching := true;
    while searching
      invariant b <= b' <= |files| && r == files[a..b'] && files[b' - 1].entries != [] && largest == files[b' - 1].Largest()
      invariant !searching ==> !Continues(files, b')
      invariant forall i :: b <= i < b' ==> Continues(files, i)
      decreases |files| - b', searching
    {
      var found := FindSmallestBoundaryFile(files, largest);
      NextBoundary(files, b', found);
      if found.Some? {
        r := r + [found.value];
        b' := b' + 1;
        largest := found.value.Largest();
      } else {
        searching := false;
      }
    }
  }

  lemma SliceValid(files: seq<TableFile>, a: nat, b: nat)
    requires AllValid(files) && a <= b <= |files|
    ensures AllValid(files[a..b])
  {
  }

  // ---- What that amounts to ----

  // Entries of the files outside the range are newer than those inside for the same user key
  ghost predicate ClosedLevel(files: seq<TableFile>, a: nat, b: nat)
    requires a <= b <= |files|
  {
    forall i, j, e, h :: 0 <= i < |files| && !(a <= i < b) && a <= j < b && e in files[i].entries && h in files[j].entries && e.key == h.key ==>
      e.sequence > h.sequence
  }

  lemma EntriesBetween(files: seq<TableFile>, i: nat, e: Entry)
    requires InOrder(files) && i < |files| && e in files[i].entries
    ensures files[i].entries != []
    ensures e == files[i].Smallest() || Before(files[i].Smallest(), e)
    ensures e == files[i].Largest() || Before(e, files[i].Largest())
  {
    assert files[i].Valid();
    var p :| 0 <= p < |files[i].entries| && files[i].entries[p] == e;
  }

  lemma FilesBefore(files: seq<TableFile>, i: nat, j: nat, e: Entry, h: Entry)
    requires InOrder(files) && i < j < |files| && e in files[i].entries && h in files[j].entries
    ensures Before(e, h) && e.key <= files[i].Largest().key <= files[j].Smallest().key <= h.key
  {
    EntriesBetween(files, i, e);
    EntriesBetween(files, j, h);
    assert Before(files[i].Largest(), files[j].Smallest());
  }

  lemma NotContinuedClosed(files: seq<TableFile>, a: nat, b: nat)
    requires InOrder(files) && a < b <= |files| && Unique(Held(files)) && !Continues(files, b)
    ensures ClosedLevel(files, a, b)
  {
    forall i, j, e, h | 0 <= i < |files| && !(a <= i < b) && a <= j < b && e in files[i].entries && h in files[j].entries && e.key == h.key
      ensures e.sequence > h.sequence
    {
      if i < a {
        DifferentEntries(files, i, j, e, h);
      } else {
        ContinuesBetween(files, b, i, j, e, h);
      }
    }
  }

  // Neighbouring files of a level take no key's newer entries without its older ones exactly if the next
  // file does not continue the last one's user key
  lemma ClosedExactly(files: seq<TableFile>, a: nat, b: nat)
    requires InOrder(files) && a < b <= |files| && Unique(Held(files))
    ensures ClosedLevel(files, a, b) <==> !Continues(files, b)
  {
    if Continues(files, b) {
      var e, h := files[b].Smallest(), files[b - 1].Largest();
      assert e in files[b].entries && h in files[b - 1].entries;
      FilesBefore(files, b - 1, b, h, e);
      SameKeyOlder(h, e);
    } else {
      NotContinuedClosed(files, a, b);
    }
  }

  lemma SameKeyOlder(h: Entry, e: Entry)
    requires Before(h, e) && h.key == e.key
    ensures h.sequence >= e.sequence
  {
  }

  lemma DifferentEntries(files: seq<TableFile>, i: nat, j: nat, e: Entry, h: Entry)
    requires InOrder(files) && i < j < |files| && e in files[i].entries && h in files[j].entries && e.key == h.key
    requires Unique(Held(files))
    ensures e.sequence > h.sequence
  {
    FilesBefore(files, i, j, e, h);
    assert files[i] in files && files[j] in files;
    assert e in Held(files) && h in Held(files);
    SameKeyOlder(e, h);
    assert e != h;
  }

  lemma ContinuesBetween(files: seq<TableFile>, b: nat, i: nat, j: nat, e: Entry, h: Entry)
    requires InOrder(files) && 0 < b <= i < |files| && j < b && e in files[i].entries && h in files[j].entries && e.key == h.key
    ensures Continues(files, b)
  {
    EntriesBetween(files, i, e);
    EntriesBetween(files, j, h);
    KeysInOrder(files, b - 1);
    KeysInOrder(files, b);
    KeysInOrder(files, i);
    KeysInOrder(files, j);
  }

  // ---- SetupOtherInputs ----

  // GetRange, as far as user keys go
  method UserRange(files: seq<TableFile>) returns (begin: int, end: int)
    requires files != [] && AllValid(files)
    ensures forall f :: f in files ==> f.entries != [] && begin <= f.Smallest().key && f.Largest().key <= end
    ensures exists f :: f in files && f.entries != [] && begin == f.Smallest().key
    ensures exists f :: f in files && f.entries != [] && end == f.Largest().key
  {
    begin, end := files[0].Smallest().key, files[0].Largest().key;
    var i := 1;
    assert files[..1] == [files[0]];
    while i < |files|
      invariant 1 <= i <= |files|
      invariant forall f :: f in files[..i] ==> f.entries != [] && begin <= f.Smallest().key && f.Largest().key <= end
      invariant exists f :: f in files[..i] && f.entries != [] && begin == f.Smallest().key
      invariant exists f :: f in files[..i] && f.entries != [] && end == f.Largest().key
    {
      var f := files[i];
      assert f.Valid() && files[..i + 1] == files[..i] + [f];
      if f.Smallest().key < begin {
        begin := f.Smallest().key;
      }
      if f.Largest().key > end {
        end := f.Largest().key;
      }
      i := i + 1;
    }
    assert files[..i] == files;
  }

  // The user keys of neighbouring files lie between these
  ghost predicate Spans(files: seq<TableFile>, a: nat, b: nat, begin: int, end: int)
    requires a < b <= |files|
  {
    && files[a].entries != [] && files[b - 1].entries != []
    && begin == files[a].Smallest().key && end == files[b - 1].Largest().key
  }

  lemma RangeBegins(files: seq<TableFile>, a: nat, b: nat, i: nat)
    requires InOrder(files) && a <= i < b <= |files|
    ensures files[a].entries != [] && files[a] in files[a..b] && files[a].Smallest().key <= files[i].Smallest().key
  {
    assert files[a..b][0] == files[a];
    KeysInOrder(files, a);
    KeysInOrder(files, i);
  }

  lemma RangeEnds(files: seq<TableFile>, a: nat, b: nat, i: nat)
    requires InOrder(files) && a <= i < b <= |files|
    ensures files[b - 1].entries != [] && files[b - 1] in files[a..b] && files[i].Largest().key <= files[b - 1].Largest().key
  {
    assert files[a..b][b - 1 - a] == files[b - 1];
    KeysInOrder(files, b - 1);
    KeysInOrder(files, i);
  }

  lemma RangeSpans(files: seq<TableFile>, a: nat, b: nat, begin: int, end: int)
    requires InOrder(files) && a < b <= |files|
    requires forall f :: f in files[a..b] ==> f.entries != [] && begin <= f.Smallest().key && f.Largest().key <= end
    requires exists f :: f in files[a..b] && f.entries != [] && begin == f.Smallest().key
    requires exists f :: f in files[a..b] && f.entries != [] && end == f.Largest().key
    ensures Spans(files, a, b, begin, end) && begin <= end
  {
    assert Spans(files, a, b, files[a].Smallest().key, files[b - 1].Largest().key) by {
      RangeBegins(files, a, b, a);
      RangeEnds(files, a, b, a);
    }
    assert begin == files[a].Smallest().key by {
      var f :| f in files[a..b] && f.entries != [] && begin == f.Smallest().key;
      var i :| a <= i < b && files[i] == f;
      RangeBegins(files, a, b, i);
    }
    assert end == files[b - 1].Largest().key by {
      var f :| f in files[a..b] && f.entries != [] && end == f.Largest().key;
      var i :| a <= i < b && files[i] == f;
      RangeEnds(files, a, b, i);
    }
    KeysInOrder(files, a);
    RangeEnds(files, a, b, a);
  }

  // The inputs of level L are the files [a, b) of files0, those of level L + 1 the files [c, d) of files1
  // that overlap their user keys
  ghost predicate Chosen(files0: seq<TableFile>, a: nat, b: nat, files1: seq<TableFile>, c: nat, d: nat) {
    && a < b <= |files0| && c <= d <= |files1| && !Continues(files0, b)
    && exists begin, end :: Spans(files0, a, b, begin, end) && OverlapBetween(files1, c, d, begin, end)
  }

  ghost predicate OverlapBetween(files: seq<TableFile>, c: nat, d: nat, begin: int, end: int)
    requires c <= d <= |files|
  {
    && (forall i :: 0 <= i < c ==> files[i].entries != [] && files[i].Largest().key < begin)
    && (forall i :: c <= i < d ==> files[i].entries != [] && Overlaps(files[i], begin, end))
    && (forall i :: d <= i < |files| ==> files[i].entries != [] && files[i].Smallest().key > end)
  }

  // The boundary files of level L, then the files of level L + 1 that overlap
  method Extend(files0: seq<TableFile>, picked: seq<TableFile>, files1: seq<TableFile>, ghost a: nat, ghost b0: nat,
                ghost others: seq<TableFile>)
    returns (inputs0: seq<TableFile>, inputs1: seq<TableFile>, ghost b: nat, ghost c: nat, ghost d: nat)
    requires InOrder(files0) && InOrder(files1) && a < b0 <= |files0| && picked == files0[a..b0]
    ensures b0 <= b && Chosen(files0, a, b, files1, c, d) && inputs0 == files0[a..b] && inputs1 == files1[c..d]
    ensures Joined(picked + others) ==> Joined(inputs0 + others)
  {
    inputs0, b := AddBoundaryInputs(files0, picked, a, b0);
    if Joined(picked + others) {
      BoundaryJoined(files0, a, b0, b, others);
    }
    SliceValid(files0, a, b);
    var begin, end := UserRange(inputs0);
    RangeSpans(files0, a, b, begin, end);
    inputs1, c, d := OverlappingInLevel(files1, begin, end);
    assert OverlapBetween(files1, c, d, begin, end);
  }

  lemma JoinedSame(files: seq<TableFile>, files': seq<TableFile>)
    requires Joined(files) && forall f :: f in files' <==> f in files
    ensures Joined(files')
  {
    forall x, y, k | x in files' && y in files' && x.entries != [] && y.entries != [] && x.Smallest().key <= k <= y.Largest().key
      ensures Spanned(files', k)
    {
      assert Spanned(files, k);
    }
  }

  // Boundary files go on where their neighbours end
  lemma {:induction false} BoundaryJoined(files: seq<TableFile>, a: nat, b: nat, b': nat, others: seq<TableFile>)
    requires InOrder(files) && a < b <= b' <= |files| && (forall i :: b <= i < b' ==> Continues(files, i))
    requires Joined(files[a..b] + others)
    ensures Joined(files[a..b'] + others)
    decreases b' - b
  {
    if b < b' {
      BoundaryJoined(files, a, b, b' - 1, others);
      BoundaryStep(files, a, b' - 1, others);
    }
  }

  lemma BoundaryStep(files: seq<TableFile>, a: nat, n: nat, others: seq<TableFile>)
    requires InOrder(files) && a < n < |files| && Continues(files, n) && Joined(files[a..n] + others)
    ensures Joined(files[a..n + 1] + others)
  {
    var before, f := files[a..n], files[n];
    assert before[n - 1 - a] == files[n - 1] && files[n - 1].Valid() && f.Valid();
    JoinedNext(before + others, files[n - 1], f);
    assert files[a..n + 1] == before + [f];
    JoinedSame(before + others + [f], files[a..n + 1] + others);
  }

  // What overlaps the range of joined files joins them
  lemma OverlapJoined(files0: seq<TableFile>, a: nat, b: nat, files1: seq<TableFile>, c: nat, d: nat, others: seq<TableFile>)
    requires InOrder(files0) && InOrder(files1) && Chosen(files0, a, b, files1, c, d)
    requires Joined(files0[a..b] + others) && forall f :: f in others ==> f in files1[c..d]
    ensures Joined(files0[a..b] + files1[c..d])
  {
    var begin, end :| Spans(files0, a, b, begin, end) && OverlapBetween(files1, c, d, begin, end);
    var all := files0[a..b] + files1[c..d];
    assert files0[a..b][0] == files0[a] && files0[a..b][b - 1 - a] == files0[b - 1];
    forall k | begin <= k <= end ensures Spanned(all, k) {
      assert files0[a] in files0[a..b] + others && files0[b - 1] in files0[a..b] + others;
      assert Spanned(files0[a..b] + others, k);
    }
    forall f | f in all && f.entries != [] ensures Overlaps(f, begin, end) {
      if f in files0[a..b] {
        var i :| a <= i < b && files0[i] == f;
        RangeBegins(files0, a, b, i);
        RangeEnds(files0, a, b, i);
        KeysInOrder(files0, i);
      } else {
        var i :| c <= i < d && files1[i] == f;
      }
    }
    JoinedFrom(all, begin, end);
  }

  // More of level L overlaps no less of level L + 1
  lemma WiderBelow(files0: seq<TableFile>, a: nat, b: nat, x: nat, y: nat, files1: seq<TableFile>, c: nat, d: nat, c': nat, d': nat)
    requires InOrder(files0) && InOrder(files1) && x <= a && b <= y
    requires Chosen(files0, a, b, files1, c, d) && Chosen(files0, x, y, files1, c', d')
    ensures forall f :: f in files1[c..d] ==> f in files1[c'..d']
  {
    var begin, end :| Spans(files0, a, b, begin, end) && OverlapBetween(files1, c, d, begin, end);
    var begin', end' :| Spans(files0, x, y, begin', end') && OverlapBetween(files1, c', d', begin', end');
    RangeBegins(files0, x, y, a);
    RangeEnds(files0, x, y, b - 1);
    forall f | f in files1[c..d] ensures f in files1[c'..d'] {
      var i :| c <= i < d && files1[i] == f;
      assert c' <= i < d';
      assert files1[c'..d'][i - c'] == f;
    }
  }

  // The files of level L in the whole range of the inputs, and what goes with them
  method Widen(files0: seq<TableFile>, files1: seq<TableFile>, inputs0: seq<TableFile>, inputs1: seq<TableFile>,
               ghost a: nat, ghost b: nat, ghost c: nat, ghost d: nat)
    returns (wide0: seq<TableFile>, wide1: seq<TableFile>, ghost x: nat, ghost y: nat, ghost c': nat, ghost d': nat)
    requires InOrder(files0) && InOrder(files1) && Chosen(files0, a, b, files1, c, d)
    requires inputs0 == files0[a..b] && inputs1 == files1[c..d]
    ensures Chosen(files0, x, y, files1, c', d') && wide0 == files0[x..y] && wide1 == files1[c'..d']
    ensures Joined(inputs0 + inputs1) ==> Joined(wide0 + wide1)
  {
    SliceValid(files0, a, b);
    SliceValid(files1, c, d);
    assert AllValid(inputs0 + inputs1);
    var start, limit := UserRange(inputs0 + inputs1);
    assert (inputs0 + inputs1)[0] == files0[a] && files0[a] in inputs0 + inputs1;
    assert (inputs0 + inputs1)[b - 1 - a] == files0[b - 1] && files0[b - 1] in inputs0 + inputs1;
    KeysInOrder(files0, a);
    KeysInOrder(files0, b - 1);
    ghost var y0;
    var expanded;
    expanded, x, y0 := OverlappingInLevel(files0, start, limit);
    assert x <= a && b <= y0;
    if Joined(inputs0 + inputs1) {
      WideJoined(files0, a, b, x, y0, inputs1, start, limit);
    }
    wide0, wide1, y, c', d' := Extend(files0, expanded, files1, x, y0, inputs1);
    WiderBelow(files0, a, b, x, y, files1, c, d, c', d');
    if Joined(inputs0 + inputs1) {
      OverlapJoined(files0, x, y, files1, c', d', inputs1);
    }
  }

  lemma WideJoined(files0: seq<TableFile>, a: nat, b: nat, x: nat, y: nat, inputs1: seq<TableFile>, start: int, limit: int)
    requires InOrder(files0) && x <= a < b <= y <= |files0| && Joined(files0[a..b] + inputs1)
    requires forall i :: x <= i < y ==> files0[i].entries != [] && Overlaps(files0[i], start, limit)
    requires forall f :: f in inputs1 ==> f.Valid() && start <= f.Smallest().key && f.Largest().key <= limit
    requires exists f :: f in files0[a..b] + inputs1 && f.entries != [] && start == f.Smallest().key
    requires exists f :: f in files0[a..b] + inputs1 && f.entries != [] && limit == f.Largest().key
    ensures Joined(files0[x..y] + inputs1)
  {
    var all := files0[x..y] + inputs1;
    forall f | f in files0[a..b] ensures f in files0[x..y] {
      var i :| a <= i < b && files0[i] == f;
      assert files0[x..y][i - x] == f;
    }
    forall k | start <= k <= limit ensures Spanned(all, k) {
      assert Spanned(files0[a..b] + inputs1, k);
    }
    forall f | f in all && f.entries != [] ensures Overlaps(f, start, limit) {
      if f in inputs1 {
        FirstKey(f);
      } else {
        var i :| x <= i < y && files0[i] == f;
      }
    }
    JoinedFrom(all, start, limit);
  }

  // Widening level L to the whole range, unless that would take in more of level L + 1 or too many bytes.
  // From a joined pick, such as a single file, it leads to joined inputs.
  method SetupOtherInputs(files0: seq<TableFile>, picked: seq<TableFile>, files1: seq<TableFile>, tooLarge: seq<TableFile> -> bool,
                          ghost a0: nat, ghost b0: nat)
    returns (inputs0: seq<TableFile>, inputs1: seq<TableFile>, ghost a: nat, ghost b: nat, ghost c: nat, ghost d: nat)
    requires InOrder(files0) && InOrder(files1) && a0 < b0 <= |files0| && picked == files0[a0..b0]
    ensures Chosen(files0, a, b, files1, c, d) && inputs0 == files0[a..b] && inputs1 == files1[c..d]
    ensures Joined(picked) ==> Joined(inputs0 + inputs1)
  {
    a := a0;
    assert picked + [] == picked;
    inputs0, inputs1, b, c, d := Extend(files0, picked, files1, a0, b0, []);
    if Joined(picked) {
      OverlapJoined(files0, a, b, files1, c, d, []);
    }
    if inputs1 != [] {
      ghost var x, y, c2, d2;
      var expanded0, expanded1;
      expanded0, expanded1, x, y, c2, d2 := Widen(files0, files1, inputs0, inputs1, a, b, c, d);
      if |expanded0| > |inputs0| && !tooLarge(expanded0 + inputs1) && |expanded1| == |inputs1| {
        inputs0, inputs1, a, b, c, d := expanded0, expanded1, x, y, c2, d2;
      }
    }
  }

  lemma SingleJoined(f: TableFile)
    ensures Joined([f])
  {
    forall x, y, k | x in [f] && y in [f] && x.entries != [] && y.entries != [] && x.Smallest().key <= k <= y.Largest().key
      ensures Spanned([f], k)
    {
      assert x in [f] && Covers(x, k);
    }
  }

  // What a compaction relies on: whatever stays at the two levels is newer than any input for the same key
  ghost predicate InputsClosed(files0: seq<TableFile>, a: nat, b: nat, files1: seq<TableFile>, c: nat, d: nat)
    requires a <= b <= |files0| && c <= d <= |files1|
  {
    var inputs := Held(files0[a..b]) + Held(files1[c..d]);
    var rest := Held(files0[..a]) + Held(files0[b..]) + Held(files1[..c]) + Held(files1[d..]);
    NewerByKey(rest, inputs)
  }

  // Where an entry of a level lies
  ghost predicate In(files: seq<TableFile>, i: nat, e: Entry) {
    i < |files| && e in files[i].entries
  }

  lemma HeldSlice(files: seq<TableFile>, a: nat, b: nat, e: Entry)
    requires a <= b <= |files|
    ensures e in Held(files[a..b]) <==> exists i :: a <= i < b && In(files, i, e)
  {
    if e in Held(files[a..b]) {
      var j :| 0 <= j < b - a && e in files[a..b][j].entries;
      assert In(files, a + j, e);
    }
    if i :| a <= i < b && In(files, i, e) {
      assert files[a..b][i - a] == files[i];
    }
  }

  // No file of level L + 1 left out shares a key with the inputs of level L
  lemma NothingBelow(files0: seq<TableFile>, a: nat, b: nat, files1: seq<TableFile>, c: nat, d: nat, i: nat, j: nat, e: Entry, h: Entry)
    requires InOrder(files0) && InOrder(files1) && Chosen(files0, a, b, files1, c, d)
    requires In(files1, i, e) && !(c <= i < d) && In(files0, j, h) && a <= j < b
    ensures e.key != h.key
  {
    var begin, end :| Spans(files0, a, b, begin, end) && OverlapBetween(files1, c, d, begin, end);
    EntriesBetween(files1, i, e);
    EntriesBetween(files0, j, h);
    RangeBegins(files0, a, b, j);
    RangeEnds(files0, a, b, j);
  }

  // With level L newer than level L + 1, the inputs are closed exactly if the first file left out of level
  // L + 1 does not continue the user key of the last one taken. Level L is always closed: its boundary
  // files are added. SetupOtherInputs does not look for boundary files at level L + 1.
  lemma InputsClosedExactly(files0: seq<TableFile>, a: nat, b: nat, files1: seq<TableFile>, c: nat, d: nat)
    requires InOrder(files0) && InOrder(files1) && Chosen(files0, a, b, files1, c, d)
    requires Unique(Held(files0)) && Unique(Held(files1)) && NewerByKey(Held(files0), Held(files1))
    ensures InputsClosed(files0, a, b, files1, c, d) <==> d == c || !Continues(files1, d)
  {
    ClosedExactly(files0, a, b);
    if c < d {
      ClosedExactly(files1, c, d);
      if Continues(files1, d) {
        NotClosedBelow(files0, a, b, files1, c, d);
      }
    }
    if d == c || !Continues(files1, d) {
      ClosedBoth(files0, a, b, files1, c, d);
    }
  }

  lemma NotClosedBelow(files0: seq<TableFile>, a: nat, b: nat, files1: seq<TableFile>, c: nat, d: nat)
    requires InOrder(files1) && a <= b <= |files0| && c < d <= |files1| && Continues(files1, d)
    ensures !InputsClosed(files0, a, b, files1, c, d)
  {
    var e, h := files1[d].Smallest(), files1[d - 1].Largest();
    assert In(files1, d, e) && In(files1, d - 1, h);
    HeldSlice(files1, d, |files1|, e);
    HeldSlice(files1, c, d, h);
    assert files1[d..|files1|] == files1[d..];
    FilesBefore(files1, d - 1, d, h, e);
    SameKeyOlder(h, e);
  }

  lemma ClosedBoth(files0: seq<TableFile>, a: nat, b: nat, files1: seq<TableFile>, c: nat, d: nat)
    requires InOrder(files0) && InOrder(files1) && Chosen(files0, a, b, files1, c, d)
    requires ClosedLevel(files0, a, b) && (c < d ==> ClosedLevel(files1, c, d)) && NewerByKey(Held(files0), Held(files1))
    ensures InputsClosed(files0, a, b, files1, c, d)
  {
    forall e, h | e in Rest(files0, a, b) + Rest(files1, c, d) && h in Held(files0[a..b]) + Held(files1[c..d]) && e.key == h.key
      ensures e.sequence > h.sequence
    {
      ClosedPair(files0, a, b, files1, c, d, e, h);
    }
    assert Rest(files0, a, b) + Rest(files1, c, d) ==
           Held(files0[..a]) + Held(files0[b..]) + Held(files1[..c]) + Held(files1[d..]);
  }

  ghost function Rest(files: seq<TableFile>, a: nat, b: nat): set<Entry>
    requires a <= b <= |files|
  {
    Held(files[..a]) + Held(files[b..])
  }

  lemma RestOutside(files: seq<TableFile>, a: nat, b: nat, e: Entry) returns (i: nat)
    requires a <= b <= |files| && e in Rest(files, a, b)
    ensures In(files, i, e) && !(a <= i < b) && e in Held(files)
  {
    HeldSlice(files, 0, a, e);
    HeldSlice(files, b, |files|, e);
    assert files[0..a] == files[..a] && files[b..|files|] == files[b..];
    if e in Held(files[..a]) {
      i :| 0 <= i < a && In(files, i, e);
    } else {
      i :| b <= i < |files| && In(files, i, e);
    }
    assert files[i] in files;
  }

  lemma SliceInside(files: seq<TableFile>, a: nat, b: nat, e: Entry) returns (i: nat)
    requires a <= b <= |files| && e in Held(files[a..b])
    ensures In(files, i, e) && a <= i < b && e in Held(files)
  {
    HeldSlice(files, a, b, e);
    i :| a <= i < b && In(files, i, e);
    assert files[i] in files;
  }

  lemma ClosedPair(files0: seq<TableFile>, a: nat, b: nat, files1: seq<TableFile>, c: nat, d: nat, e: Entry, h: Entry)
    requires InOrder(files0) && InOrder(files1) && Chosen(files0, a, b, files1, c, d)
    requires ClosedLevel(files0, a, b) && (c < d ==> ClosedLevel(files1, c, d)) && NewerByKey(Held(files0), Held(files1))
    requires e in Rest(files0, a, b) + Rest(files1, c, d) && h in Held(files0[a..b]) + Held(files1[c..d]) && e.key == h.key
    ensures e.sequence > h.sequence
  {
    if h in Held(files0[a..b]) {
      var j := SliceInside(files0, a, b, h);
      if e in Rest(files0, a, b) {
        var i := RestOutside(files0, a, b, e);
      } else {
        var i := RestOutside(files1, c, d, e);
        NothingBelow(files0, a, b, files1, c, d, i, j, e, h);
      }
    } else {
      var j := SliceInside(files1, c, d, h);
      if e in Rest(files0, a, b) {
        var i := RestOutside(files0, a, b, e);
      } else {
        var i := RestOutside(files1, c, d, e);
      }
    }
  }

  // ---- The contract of the levels ----

  // Files as a version names them
  ghost function Named(files: seq<TableFile>, level: nat): Tables.Version {
    set f | f in files :: Tables.File(f.number, level)
  }

  ghost function Inputs(levels: seq<seq<TableFile>>, level: nat, a: nat, b: nat, c: nat, d: nat): Tables.Version
    requires level + 1 < |levels| && a <= b <= |levels[level]| && c <= d <= |levels[level + 1]|
  {
    Named(levels[level][a..b], level) + Named(levels[level + 1][c..d], level + 1)
  }

  // A file of a level outside its inputs holds entries of the rest only
  lemma OutsideInputs(files: seq<TableFile>, level: nat, a: nat, b: nat, f: TableFile, e: Entry)
    requires a <= b <= |files| && f in files && Tables.File(f.number, level) !in Named(files[a..b], level) && e in f.entries
    ensures e in Held(files[..a]) + Held(files[b..])
  {
    var i :| 0 <= i < |files| && files[i] == f;
    forall k | a <= k < b ensures files[k] in files[a..b] {
      assert files[a..b][k - a] == files[k];
    }
    if i < a {
      assert files[..a][i] == f;
    } else {
      assert files[b..][i - b] == f;
    }
  }

  lemma InsideInputs(levels: seq<seq<TableFile>>, v: Tables.Version, t: Tables.Store, l: nat, a: nat, b: nat, g: Tables.File, h: Entry)
    requires Lists(levels, v, t) && l < |levels| && a <= b <= |levels[l]|
    requires g in Named(levels[l][a..b], l) && Tables.Holds(t, g, h)
    ensures g in v && h in Held(levels[l][a..b])
  {
    var f :| f in levels[l][a..b] && g == Tables.File(f.number, l);
    assert f in levels[l];
  }

  // At level 0, where the inputs are all files that overlap a range that covers them, what stays has no
  // user key of an input
  lemma Level0Closed(files: seq<TableFile>, inputs: seq<TableFile>, begin: int, end: int, f: TableFile, g: TableFile, e: Entry, h: Entry)
    requires AllValid(files) && f in files && f !in inputs && g in inputs && e in f.entries && h in g.entries
    requires Level0Inputs(files, inputs, begin, end)
    ensures e.key != h.key
  {
    KeysWithin(f, e);
    KeysWithin(g, h);
  }

  lemma KeysWithin(f: TableFile, e: Entry)
    requires f.Valid() && e in f.entries
    ensures f.entries != [] && f.Smallest().key <= e.key <= f.Largest().key
  {
    var i :| 0 <= i < |f.entries| && f.entries[i] == e;
    assert i == 0 || Before(f.entries[0], e);
    assert i == |f.entries| - 1 || Before(e, f.entries[|f.entries| - 1]);
  }

  // Inputs closed in the file lists are closed as the levels' theorems require
  lemma ClosedInVersion(levels: seq<seq<TableFile>>, v: Tables.Version, t: Tables.Store, level: nat, a: nat, b: nat, c: nat, d: nat)
    requires Lists(levels, v, t) && level + 1 < |levels| && a <= b <= |levels[level]| && c <= d <= |levels[level + 1]|
    requires InputsClosed(levels[level], a, b, levels[level + 1], c, d)
    ensures Tables.Closed(v, t, level, Inputs(levels, level, a, b, c, d))
  {
    var inputs := Inputs(levels, level, a, b, c, d);
    forall g, h | g in inputs && Tables.Holds(t, g, h)
      ensures h in Held(levels[level][a..b]) + Held(levels[level + 1][c..d])
    {
      if g.level == level {
        InsideInputs(levels, v, t, level, a, b, g, h);
      } else {
        InsideInputs(levels, v, t, level + 1, c, d, g, h);
      }
    }
    forall f, e | f in v && f !in inputs && Tables.Inside(level, f) && Tables.Holds(t, f, e)
      ensures e in Rest(levels[level], a, b) + Rest(levels[level + 1], c, d)
    {
      var g :| g in levels[f.level] && g.number == f.number;
      if f.level == level {
        OutsideInputs(levels[level], level, a, b, g, e);
      } else {
        OutsideInputs(levels[level + 1], level + 1, c, d, g, e);
      }
    }
    forall g | g in inputs ensures g in v && Tables.Inside(level, g) {
      NamedListed(levels, v, t, level, a, b, g);
      NamedListed(levels, v, t, level + 1, c, d, g);
    }
  }

  lemma NamedListed(levels: seq<seq<TableFile>>, v: Tables.Version, t: Tables.Store, l: nat, a: nat, b: nat, g: Tables.File)
    requires Lists(levels, v, t) && l < |levels| && a <= b <= |levels[l]|
    ensures g in Named(levels[l][a..b], l) ==> g in v && g.level == l
  {
    if g in Named(levels[l][a..b], l) {
      var f :| f in levels[l][a..b] && g == Tables.File(f.number, l);
      assert f in levels[l];
    }
  }

  // What SetupOtherInputs chooses in a layered version is as the levels' theorems require, unless the file
  // after the last one chosen at level + 1 continues its last user key
  lemma ChosenClosed(levels: seq<seq<TableFile>>, v: Tables.Version, t: Tables.Store, level: nat, a: nat, b: nat, c: nat, d: nat)
    requires Lists(levels, v, t) && Tables.Layered(v, t) && level + 1 < |levels|
    requires InOrder(levels[level]) && InOrder(levels[level + 1])
    requires Unique(Held(levels[level])) && Unique(Held(levels[level + 1]))
    requires Chosen(levels[level], a, b, levels[level + 1], c, d)
    requires d == c || !Continues(levels[level + 1], d)
    ensures Tables.Closed(v, t, level, Inputs(levels, level, a, b, c, d))
  {
    forall e, h | e in Held(levels[level]) && h in Held(levels[level + 1]) && e.key == h.key ensures e.sequence > h.sequence {
      var f :| f in levels[level] && e in f.entries;
      var g :| g in levels[level + 1] && h in g.entries;
      assert Tables.Above(Tables.File(f.number, level), Tables.File(g.number, level + 1));
      assert Tables.Holds(t, Tables.File(f.number, level), e) && Tables.Holds(t, Tables.File(g.number, level + 1), h);
    }
    InputsClosedExactly(levels[level], a, b, levels[level + 1], c, d);
    ClosedInVersion(levels, v, t, level, a, b, c, d);
  }

  // ---- What happens otherwise ----

  const A := Entry(1, 9, Value, "new")
  const B := Entry(1, 2, Value, "old")
  const TOMBSTONE := Entry(5, 8, Deletion, "")
  const DELETED := Entry(5, 3, Value, "deleted")
  const UPPER := [TableFile(7, [A])]
  const LOWER := [TableFile(5, [B, TOMBSTONE]), TableFile(6, [DELETED])]

  lemma ExampleChosen()
    ensures InOrder(UPPER) && InOrder(LOWER) && Chosen(UPPER, 0, 1, LOWER, 0, 1)
  {
    assert UPPER[0].Valid() && LOWER[0].Valid() && LOWER[1].Valid();
    assert Spans(UPPER, 0, 1, 1, 1) && OverlapBetween(LOWER, 0, 1, 1, 1);
  }

  lemma ExampleHeld()
    ensures Held(UPPER) == {A} && Held(LOWER) == {B, TOMBSTONE, DELETED}
    ensures Held(LOWER[..1]) == {B, TOMBSTONE} && Held(LOWER[1..]) == {DELETED}
  {
    assert LOWER[..1] == [LOWER[0]] && LOWER[1..] == [LOWER[1]] && LOWER == [LOWER[0]] + [LOWER[1]];
    HeldOne(UPPER[0]);
    HeldOne(LOWER[0]);
    HeldOne(LOWER[1]);
    HeldJoin([LOWER[0]], [LOWER[1]]);
    assert Elements([A]) == {A} && Elements([B, TOMBSTONE]) == {B, TOMBSTONE} && Elements([DELETED]) == {DELETED};
  }

  lemma HeldOne(f: TableFile)
    ensures Held([f]) == Elements(f.entries)
  {
    assert f in [f];
  }

  lemma HeldJoin(a: seq<TableFile>, b: seq<TableFile>)
    ensures Held(a + b) == Held(a) + Held(b)
  {
    assert forall f :: f in a + b <==> f in a || f in b;
  }

  lemma ExampleCompacted()
    ensures Survivors([A, B, TOMBSTONE], 3, 9, k => true) == [A]
  {
    var input, isBase := [A, B, TOMBSTONE], (k: int) => true;
    assert Survivors(input, 1, 9, isBase) == [A];
    assert Survivors(input, 2, 9, isBase) == [A];
  }

  lemma ExampleReads()
    ensures Read({A} + {B, TOMBSTONE, DELETED}, 5, 9) == None
    ensures Read({A} + {DELETED}, 5, 9) == Some("deleted")
  {
    assert Newest({A} + {B, TOMBSTONE, DELETED}, 5, 9, TOMBSTONE);
    ReadNewest({A} + {B, TOMBSTONE, DELETED}, 5, 9, TOMBSTONE);
    assert Newest({A} + {DELETED}, 5, 9, DELETED);
    ReadNewest({A} + {DELETED}, 5, 9, DELETED);
  }

  // A tombstone at the end of a file, the deleted value at the start of the next one: SetupOtherInputs takes
  // the first file without the second, the compaction drops the tombstone, and the value is back.
  lemma DeletedValueReturns()
    ensures InOrder(UPPER) && InOrder(LOWER) && Chosen(UPPER, 0, 1, LOWER, 0, 1)
    ensures Elements([A, B, TOMBSTONE]) == Held(UPPER) + Held(LOWER[..1])
    ensures Read(Held(UPPER) + Held(LOWER), 5, 9) == None
    ensures Read(Elements(Survivors([A, B, TOMBSTONE], 3, 9, k => true)) + Held(LOWER[1..]), 5, 9) == Some("deleted")
  {
    ExampleChosen();
    ExampleHeld();
    ExampleCompacted();
    ExampleReads();
    assert Elements([A]) == {A} && Elements([A, B, TOMBSTONE]) == {A, B, TOMBSTONE};
  }
}
