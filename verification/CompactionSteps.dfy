// The compaction code meets what the state machine's steps ask: what PickCompaction chooses starts a step, and
// what the loop of DoCompactionWork leaves ends one.
module CompactionSteps {
  import opened Options
  import opened Entries
  import opened Compaction
  import opened Tables
  import opened Ranges
  import opened Lookup
  import opened CompactionInputs
  import opened CompactionPicks
  import opened Storage
  import opened StorageProofs
  import opened StorageRanges

  // ---- The outputs of the loop ----

  // The output tables under their numbers
  ghost function OutputStore(outputs: seq<Table>, numbers: seq<nat>): Store
    requires |outputs| == |numbers|
  {
    if outputs == [] then map[]
    else OutputStore(outputs[..|outputs| - 1], numbers[..|numbers| - 1])
         [numbers[|numbers| - 1] := Elements(outputs[|outputs| - 1].entries)]
  }

  ghost predicate DistinctNumbers(numbers: seq<nat>) {
    forall i, j :: 0 <= i < j < |numbers| ==> numbers[i] != numbers[j]
  }

  lemma {:induction false} OutputStoreHolds(outputs: seq<Table>, numbers: seq<nat>)
    requires |outputs| == |numbers| && DistinctNumbers(numbers)
    ensures OutputStore(outputs, numbers).Keys == set n | n in numbers
    ensures forall i :: 0 <= i < |numbers| ==>
              numbers[i] in OutputStore(outputs, numbers) && OutputStore(outputs, numbers)[numbers[i]] == Elements(outputs[i].entries)
  {
    if outputs != [] {
      var k := |outputs| - 1;
      OutputStoreHolds(outputs[..k], numbers[..k]);
      assert numbers == numbers[..k] + [numbers[k]];
      forall i | 0 <= i < k ensures numbers[i] == numbers[..k][i] && outputs[i] == outputs[..k][i] {}
    }
  }

  lemma {:induction false} InPiece(tables: seq<Table>, e: Entry) returns (i: nat)
    requires e in Concat(tables)
    ensures i < |tables| && e in tables[i].entries
  {
    var k := |tables| - 1;
    if e in tables[k].entries {
      i := k;
    } else {
      i := InPiece(tables[..k], e);
    }
  }

  // What the loop leaves, under the numbers of the output files, is what the step that ends the merge asks for
  lemma OutputsCompacted(s: State, w: Work, input: seq<Entry>, isBase: int -> bool, outputs: seq<Table>, numbers: seq<nat>)
    requires Sorted(input) && Elements(input) == Contents(w.inputs, s.tables)
    requires forall k :: isBase(k) ==> BaseKey(w.base, s.tables, w.level, k)
    requires Concat(outputs) == Survivors(input, |input|, w.smallest, isBase)
    requires |outputs| == |numbers| && DistinctNumbers(numbers) && w.outputs == set n | n in numbers
    ensures Compacted(s, w, input, isBase, OutputStore(outputs, numbers))
  {
    OutputStoreHolds(outputs, numbers);
    SurvivorsSorted(input, |input|, w.smallest, isBase);
    StoreElements(outputs, numbers, OutputStore(outputs, numbers));
    StoreApart(outputs, numbers, OutputStore(outputs, numbers));
  }

  ghost predicate StoresAll(outputs: seq<Table>, numbers: seq<nat>, contents: Store) {
    && |outputs| == |numbers| && contents.Keys == (set n | n in numbers)
    && forall i :: 0 <= i < |numbers| ==> numbers[i] in contents && contents[numbers[i]] == Elements(outputs[i].entries)
  }

  lemma StoreElements(outputs: seq<Table>, numbers: seq<nat>, contents: Store)
    requires StoresAll(outputs, numbers, contents)
    ensures (set n, e | n in contents && e in contents[n] :: e) == Elements(Concat(outputs))
  {
    var written, all := set n, e | n in contents && e in contents[n] :: e, Concat(outputs);
    forall e | e in written ensures e in all {
      var n :| n in contents && e in contents[n];
      var i :| 0 <= i < |numbers| && numbers[i] == n;
      var p := PieceIn(outputs, i, e);
    }
    forall e | e in all ensures e in written {
      var i := InPiece(outputs, e);
      assert numbers[i] in contents && e in contents[numbers[i]];
    }
  }

  lemma StoreApart(outputs: seq<Table>, numbers: seq<nat>, contents: Store)
    requires StoresAll(outputs, numbers, contents) && Sorted(Concat(outputs))
    ensures forall m, n :: m in contents && n in contents && m != n ==> Apart(contents[m], contents[n])
  {
    forall m, n | m in contents && n in contents && m != n ensures Apart(contents[m], contents[n]) {
      var i :| 0 <= i < |numbers| && numbers[i] == m;
      var j :| 0 <= j < |numbers| && numbers[j] == n;
      if i < j {
        OutputsApart(outputs, i, j);
      } else {
        OutputsApart(outputs, j, i);
      }
    }
  }

  // The loop and the step it ends
  method MergeAll(ghost s: State, w: Work, input: seq<Entry>, isBase: int -> bool, stopBefore: nat -> bool,
                  full: seq<Entry> -> bool)
    returns (outputs: seq<Table>)
    requires s.jobs == [Merging(w)] && w.smallest < MAX_SEQUENCE
    requires Sorted(input) && Elements(input) == Contents(w.inputs, s.tables)
    requires forall k :: isBase(k) ==> BaseKey(w.base, s.tables, w.level, k)
    ensures forall numbers :: |numbers| == |outputs| && DistinctNumbers(numbers) && w.outputs == (set n | n in numbers) ==>
              Enabled(s, MergingDone(0, input, isBase, OutputStore(outputs, numbers)))
  {
    outputs := DoCompactionWork(input, w.smallest, isBase, stopBefore, full);
    forall numbers | |numbers| == |outputs| && DistinctNumbers(numbers) && w.outputs == (set n | n in numbers)
      ensures Enabled(s, MergingDone(0, input, isBase, OutputStore(outputs, numbers)))
    {
      OutputsCompacted(s, w, input, isBase, outputs, numbers);
    }
  }

  // ---- Automatic picks ----

  lemma Searchable(s: State, levels: seq<seq<TableFile>>, l: nat)
    requires Invariant(s) && RangesOk(s) && Shows(levels, s) && l < |levels|
    ensures Layered(s.image.version, s.tables) && Unique(Held(levels[l]))
    ensures l > 0 ==> InOrder(levels[l])
  {
    var v, t := s.image.version, s.tables;
    if l > 0 {
      DisjointInOrder(levels, v, t, l);
    }
    forall e | e in Held(levels[l]) ensures e in Contents(v, t) {
      var f :| f in levels[l] && e in f.entries;
      assert Tables.Holds(t, File(f.number, l), e);
      InContents(v, t, e);
    }
  }

  function WorkOf(level: nat, inputs: Version, base: Version, smallest: nat): Work {
    Work(level, inputs, base, smallest, {})
  }

  // Closed, clear and covered inputs start an enabled and covered step
  lemma PickStarts(s: State, level: nat, inputs: Version, moving: bool, needs: bool)
    requires s.jobs == [Queued]
    requires Closed(s.image.version, s.tables, level, inputs) && Clear(s.image.version, s.tables, level, inputs)
    requires Covered(s.image.version, s.tables, level, inputs)
    requires moving ==> exists f :: f in inputs && f.level == level && inputs == {f}
    ensures var step := Starting(0, Some(WorkOf(level, inputs, s.image.version, Horizon(s))), moving, needs);
            Enabled(s, step) && CoveredStep(s, step)
  {
  }

  // A single file with nothing below it
  lemma SingleNamed(level: nat, inputs0: seq<TableFile>, inputs1: seq<TableFile>)
    requires |inputs0| == 1 && inputs1 == []
    ensures var inputs := Named(inputs0, level) + Named(inputs1, level + 1);
            exists f :: f in inputs && f.level == level && inputs == {f}
  {
    var f := File(inputs0[0].number, level);
    assert inputs0 == [inputs0[0]];
    assert Named(inputs0, level) + Named(inputs1, level + 1) == {f};
  }

  // PickCompaction above level 0: from any single file
  method PickAbove(ghost s: State, levels: seq<seq<TableFile>>, level: nat, i: nat, tooLarge: seq<TableFile> -> bool)
    returns (inputs0: seq<TableFile>, inputs1: seq<TableFile>, ghost c: nat, ghost d: nat)
    requires Invariant(s) && RangesOk(s) && Shows(levels, s) && 0 < level && level + 1 < |levels| && i < |levels[level]|
    ensures c <= d <= |levels[level + 1]| && inputs1 == levels[level + 1][c..d]
    ensures var v, t, inputs := s.image.version, s.tables, Named(inputs0, level) + Named(inputs1, level + 1);
            Clear(v, t, level, inputs) && Covered(v, t, level, inputs) &&
            (d == c || !Continues(levels[level + 1], d) ==> Closed(v, t, level, inputs))
  {
    ghost var v, t := s.image.version, s.tables;
    Searchable(s, levels, level);
    Searchable(s, levels, level + 1);
    var f := levels[level][i];
    SingleJoined(f);
    assert [f] == levels[level][i..i + 1];
    ghost var a, b;
    inputs0, inputs1, a, b, c, d := SetupOtherInputs(levels[level], [f], levels[level + 1], tooLarge, i, i + 1);
    ChosenClear(levels, v, t, level, a, b, c, d);
    ChosenCovered(levels, v, t, level, a, b, c, d);
    if d == c || !Continues(levels[level + 1], d) {
      ChosenClosed(levels, v, t, level, a, b, c, d);
    }
  }

  // PickCompaction at level 0: from all files that overlap one, directly or through others
  method PickAt0(ghost s: State, levels: seq<seq<TableFile>>, i: nat, tooLarge: seq<TableFile> -> bool)
    returns (inputs0: seq<TableFile>, inputs1: seq<TableFile>, ghost c: nat, ghost d: nat)
    requires Invariant(s) && RangesOk(s) && Shows(levels, s) && 1 < |levels| && i < |levels[0]|
    ensures c <= d <= |levels[1]| && inputs1 == levels[1][c..d]
    ensures var v, t, inputs := s.image.version, s.tables, Named(inputs0, 0) + Named(inputs1, 1);
            Clear(v, t, 0, inputs) && Covered(v, t, 0, inputs) &&
            (d == c || !Continues(levels[1], d) ==> Closed(v, t, 0, inputs))
  {
    ghost var v, t := s.image.version, s.tables;
    Searchable(s, levels, 0);
    Searchable(s, levels, 1);
    var picked, b, e := PickLevel0(levels[0], levels[0][i]);
    inputs0, inputs1, c, d := SetupOtherInputs0(levels[0], picked, levels[1], tooLarge, b, e);
    ChosenClear0(levels, v, t, inputs0, c, d);
    ChosenCovered0(levels, v, t, inputs0, c, d);
    if d == c || !Continues(levels[1], d) {
      ChosenClosed0(levels, v, t, inputs0, c, d);
    }
  }

  // PickCompaction and IsTrivialMove, from any file of any level: unless the file after the last input at
  // level + 1 continues its last user key, the pick starts a step of the machine, and one no memtable can get into
  method StartAutomatic(ghost s: State, levels: seq<seq<TableFile>>, level: nat, i: nat, tooLarge: seq<TableFile> -> bool,
                        littleBelow: bool, ghost needs: bool)
    returns (inputs0: seq<TableFile>, inputs1: seq<TableFile>, moving: bool, ghost c: nat, ghost d: nat)
    requires Invariant(s) && RangesOk(s) && Shows(levels, s) && s.jobs == [Queued]
    requires level + 1 < |levels| && i < |levels[level]|
    ensures c <= d <= |levels[level + 1]| && inputs1 == levels[level + 1][c..d]
    ensures moving <==> |inputs0| == 1 && inputs1 == [] && littleBelow
    ensures var inputs := Named(inputs0, level) + Named(inputs1, level + 1);
            d == c || !Continues(levels[level + 1], d) ==>
              var step := Starting(0, Some(WorkOf(level, inputs, s.image.version, Horizon(s))), moving, needs);
              Enabled(s, step) && CoveredStep(s, step)
  {
    if level == 0 {
      inputs0, inputs1, c, d := PickAt0(s, levels, i, tooLarge);
    } else {
      inputs0, inputs1, c, d := PickAbove(s, levels, level, i, tooLarge);
    }
    moving := |inputs0| == 1 && |inputs1| == 0 && littleBelow;
    if moving {
      SingleNamed(level, inputs0, inputs1);
    }
    if d == c || !Continues(levels[level + 1], d) {
      PickStarts(s, level, Named(inputs0, level) + Named(inputs1, level + 1), moving, needs);
    }
  }
}
