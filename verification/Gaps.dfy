// A manual compaction of two files with a gap between them, and a memtable flushed into the gap meanwhile:
// the output level ends up with overlapping files, and the search of that level misses a key.
module Gaps {
  import opened Options
  import opened Entries
  import opened Compaction
  import DbIterator
  import opened Tables
  import opened Ranges
  import opened Lookup
  import opened CompactionInputs

  const LEFT := Entry(10, 1, Value, "left")
  const MIDDLE := Entry(30, 3, Value, "middle")
  const RIGHT := Entry(50, 2, Value, "right")

  // Level 1 when CompactRange from 10 to 50 picks its inputs; level 2 is empty
  const UPPER := [TableFile(1, [LEFT]), TableFile(2, [RIGHT])]
  const BEFORE: Version := {File(1, 1), File(2, 1)}

  // Level 2 afterwards, in the order of the smallest keys: the output, and the memtable
  const LOWER := [TableFile(4, [LEFT, RIGHT]), TableFile(3, [MIDDLE])]
  const AFTER: Version := {File(4, 2), File(3, 2)}
  const TABLES: Store := map[1 := {LEFT}, 2 := {RIGHT}, 3 := {MIDDLE}, 4 := {LEFT, RIGHT}]

  // GetOverlappingInputs and SetupOtherInputs take both files
  lemma BothPicked()
    ensures InOrder(UPPER) && Chosen(UPPER, 0, 2, [], 0, 0) && !Joined(UPPER)
  {
    assert UPPER[0].Valid() && UPPER[1].Valid();
    assert Spans(UPPER, 0, 2, 10, 50) && OverlapBetween([], 0, 0, 10, 50);
    assert UPPER[0] in UPPER && UPPER[1] in UPPER;
    assert !Spanned(UPPER, 30);
  }

  // The inputs are all that compactions ask for, but the memtable can be pushed to level 2
  lemma GapTaken()
    ensures Disjoint(BEFORE, TABLES) && Layered(BEFORE, TABLES) && Closed(BEFORE, TABLES, 1, BEFORE)
    ensures Clear(BEFORE, TABLES, 1, BEFORE) && PastLevels(BEFORE, TABLES, {MIDDLE}, 2)
    ensures !Covered(BEFORE, TABLES, 1, BEFORE)
  {
    assert forall f :: f in BEFORE ==> f == File(1, 1) || f == File(2, 1);
    assert Of(TABLES, File(1, 1)) == {LEFT} && Of(TABLES, File(2, 1)) == {RIGHT};
    GapOpen();
  }

  // The compaction leaves one table, which the memtable's table lies within
  lemma GapFilled()
    ensures Survivors([LEFT, RIGHT], 2, 3, k => true) == [LEFT, RIGHT] && !Disjoint(AFTER, TABLES)
  {
    assert Survivors([LEFT, RIGHT], 1, 3, k => true) == Survivors([LEFT, RIGHT], 0, 3, k => true) + [LEFT];
    assert Of(TABLES, File(4, 2)) == {LEFT, RIGHT} && Of(TABLES, File(3, 2)) == {MIDDLE};
    assert LEFT in {LEFT, RIGHT} && RIGHT in {LEFT, RIGHT} && MIDDLE in {MIDDLE};
    assert !Apart({LEFT, RIGHT}, {MIDDLE});
  }

  lemma GapOpen()
    ensures !Covered(BEFORE, TABLES, 1, BEFORE)
  {
    InContents(BEFORE, TABLES, LEFT);
    InContents(BEFORE, TABLES, RIGHT);
    assert Holds(TABLES, File(1, 1), LEFT) && Holds(TABLES, File(2, 1), RIGHT);
    assert Within(Contents(BEFORE, TABLES), 30);
    assert forall f :: f in BEFORE ==> !Within(Of(TABLES, f), 30);
  }

  lemma OnlyFirst(i: nat)
    requires AllValid(LOWER) && i <= |LOWER| && StopsAt(LOWER, 30, 3, i)
    ensures i == 0
  {
    assert !DbIterator.Precedes(LOWER[0].Largest(), 30, 3) && !DbIterator.Precedes(LOWER[1].Largest(), 30, 3);
  }

  // The binary search by largest keys ends at the output, which does not hold the key
  method GapMissed() returns (a: Answer)
    ensures BySmallest(LOWER) && Lists([[], [], LOWER], AFTER, TABLES)
    ensures a.NotHere? && Sees(Held(LOWER), 30, 3)
  {
    assert LOWER[0].Valid() && LOWER[1].Valid();
    ghost var levels := [[], [], LOWER];
    assert LOWER[0] in levels[2] && LOWER[1] in levels[2];
    assert Elements(LOWER[0].entries) == {LEFT, RIGHT} && Elements(LOWER[1].entries) == {MIDDLE};
    a := LevelGet(LOWER, 30, 3);
    ghost var i :| 0 <= i <= |LOWER| && StopsAt(LOWER, 30, 3, i) &&
      if i == |LOWER| || 30 < LOWER[i].Smallest().key then a.NotHere? else Says(Elements(LOWER[i].entries), 30, 3, a);
    OnlyFirst(i);
    assert LOWER[1] in LOWER && MIDDLE in LOWER[1].entries && IsVisible(MIDDLE, 30, 3);
  }
}
