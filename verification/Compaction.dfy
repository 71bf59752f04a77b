// DBImpl::DoCompactionWork: merging the entries of a compaction's inputs into output tables while
// dropping the entries no reader can need.
module Compaction {
  import opened Options
  import opened Entries

  // Rule (A): an earlier entry for the same user key already hides this one from every reader at or
  // above the smallest snapshot.
  predicate Hidden(input: seq<Entry>, i: nat, smallest: nat)
    requires i < |input|
  {
    i > 0 && input[i - 1].key == input[i].key && input[i - 1].sequence <= smallest
  }

  predicate ObsoleteTombstone(e: Entry, smallest: nat, isBase: int -> bool) {
    e.kind.Deletion? && e.sequence <= smallest && isBase(e.key)
  }

  predicate Dropped(input: seq<Entry>, i: nat, smallest: nat, isBase: int -> bool)
    requires i < |input|
  {
    Hidden(input, i, smallest) || ObsoleteTombstone(input[i], smallest, isBase)
  }

  // The entries among the first n that are not dropped, in order
  function Survivors(input: seq<Entry>, n: nat, smallest: nat, isBase: int -> bool): seq<Entry>
    requires n <= |input|
  {
    if n == 0 then []
    else Survivors(input, n - 1, smallest, isBase) +
         if Dropped(input, n - 1, smallest, isBase) then [] else [input[n - 1]]
  }

  datatype Table = Table(smallest: Entry, largest: Entry, entries: seq<Entry>)

  function Concat(tables: seq<Table>): seq<Entry> {
    if tables == [] then [] else Concat(tables[..|tables| - 1]) + tables[|tables| - 1].entries
  }

  predicate WellFormed(t: Table) {
    |t.entries| > 0 && t.smallest == t.entries[0] && t.largest == t.entries[|t.entries| - 1]
  }

  ghost predicate AllWellFormed(tables: seq<Table>) {
    forall t :: t in tables ==> WellFormed(t)
  }

  // FinishCompactionOutputFile: the table's bounds are its first and last entries
  method Finish(outputs: seq<Table>, builder: seq<Entry>) returns (r: seq<Table>)
    requires |builder| > 0 && AllWellFormed(outputs)
    ensures Concat(r) == Concat(outputs) + builder && AllWellFormed(r)
    ensures |r| == |outputs| + 1 && r[..|outputs|] == outputs && r[|outputs|].entries == builder
  {
    r := outputs + [Table(builder[0], builder[|builder| - 1], builder)];
    assert r[..|r| - 1] == outputs;
  }

  ghost predicate NotFull(es: seq<Entry>, full: seq<Entry> -> bool) {
    forall n :: 0 < n <= |es| ==> !full(es[..n])
  }

  // A table does not go on when it is full
  ghost predicate CutWhenFull(es: seq<Entry>, full: seq<Entry> -> bool) {
    forall n :: 0 < n < |es| ==> !full(es[..n])
  }

  // Tables are cut when they are full, and before that only where they must stop
  ghost predicate CutInTime(tables: seq<Table>, n: nat, stopBefore: nat -> bool, full: seq<Entry> -> bool)
    requires n <= |tables|
  {
    && (forall k :: 0 <= k < |tables| ==> CutWhenFull(tables[k].entries, full))
    && (forall k :: 0 <= k < n ==> full(tables[k].entries) || exists i: nat :: stopBefore(i))
  }

  lemma CutNext(tables: seq<Table>, tables': seq<Table>, stopBefore: nat -> bool, full: seq<Entry> -> bool)
    requires CutInTime(tables, |tables|, stopBefore, full) && |tables'| == |tables| + 1 && tables'[..|tables|] == tables
    requires CutWhenFull(tables'[|tables|].entries, full)
    ensures CutInTime(tables', |tables|, stopBefore, full)
    ensures full(tables'[|tables|].entries) || (exists i: nat :: stopBefore(i)) ==> CutInTime(tables', |tables'|, stopBefore, full)
  {
    assert forall k :: 0 <= k < |tables| ==> tables'[k] == tables[k];
  }

  // Adding a surviving entry, and closing the table once it is full
  method Emit(outputs: seq<Table>, builder: seq<Entry>, e: Entry, full: seq<Entry> -> bool)
    returns (outputs': seq<Table>, builder': seq<Entry>)
    requires AllWellFormed(outputs)
    requires NotFull(builder, full)
    ensures Concat(outputs') + builder' == Concat(outputs) + builder + [e] && AllWellFormed(outputs')
    ensures NotFull(builder', full)
    ensures outputs' == outputs ||
            (|outputs'| == |outputs| + 1 && outputs'[..|outputs|] == outputs && CutWhenFull(outputs'[|outputs|].entries, full)
             && full(outputs'[|outputs|].entries))
  {
    assert (builder + [e])[..|builder|] == builder;
    forall n | 0 < n <= |builder| ensures !full((builder + [e])[..n]) {
      assert (builder + [e])[..n] == builder[..n];
    }
    outputs', builder' := outputs, builder + [e];
    assert Concat(outputs) + builder' == Concat(outputs) + builder + [e];
    assert builder'[..|builder'|] == builder';
    if full(builder') {
      outputs' := Finish(outputs, builder');
      builder' := [];
    }
  }

  // The loop of DoCompactionWork over parseable input keys. Where an output table is cut is decided
  // by the grandparent overlap (stopBefore) and by the size of the table (full). An empty builder
  // stands for no open output file.
  method DoCompactionWork(input: seq<Entry>, smallest: nat, isBase: int -> bool,
                          stopBefore: nat -> bool, full: seq<Entry> -> bool)
    returns (outputs: seq<Table>)
    requires smallest < MAX_SEQUENCE
    ensures Concat(outputs) == Survivors(input, |input|, smallest, isBase) && AllWellFormed(outputs)
    ensures CutInTime(outputs, if outputs == [] then 0 else |outputs| - 1, stopBefore, full)
  {
    outputs := [];
    var builder: seq<Entry> := [];
    var currentKey: Option<int> := None;
    var lastSequenceForKey := MAX_SEQUENCE;
    var i := 0;
    while i < |input|
      invariant 0 <= i <= |input| && AllWellFormed(outputs)
      invariant CutInTime(outputs, |outputs|, stopBefore, full) && NotFull(builder, full)
      invariant Concat(outputs) + builder == Survivors(input, i, smallest, isBase)
      invariant i == 0 ==> currentKey.None?
      invariant i > 0 ==> currentKey == Some(input[i - 1].key) && lastSequenceForKey == input[i - 1].sequence
    {
      var e := input[i];
      ghost var before := outputs;
      if stopBefore(i) && |builder| > 0 {
        outputs := Finish(outputs, builder);
        CutNext(before, outputs, stopBefore, full);
        builder := [];
      }
      var drop := false;
      if currentKey == None || currentKey.value != e.key {
        currentKey := Some(e.key);
        lastSequenceForKey := MAX_SEQUENCE;
      }
      if lastSequenceForKey <= smallest {
        drop := true;
      } else if e.kind.Deletion? && e.sequence <= smallest && isBase(e.key) {
        drop := true;
      }
      lastSequenceForKey := e.sequence;
      assert drop == Dropped(input, i, smallest, isBase);
      if !drop {
        before := outputs;
        outputs, builder := Emit(outputs, builder, e, full);
        if outputs != before {
          CutNext(before, outputs, stopBefore, full);
        }
      }
      i := i + 1;
    }
    if |builder| > 0 {
      ghost var before := outputs;
      outputs := Finish(outputs, builder);
      CutNext(before, outputs, stopBefore, full);
    }
  }

  lemma {:induction false} SurvivorIff(input: seq<Entry>, n: nat, smallest: nat, isBase: int -> bool, e: Entry)
    requires n <= |input|
    ensures e in Survivors(input, n, smallest, isBase) <==>
            exists i :: 0 <= i < n && input[i] == e && !Dropped(input, i, smallest, isBase)
  {
    if n > 0 {
      SurvivorIff(input, n - 1, smallest, isBase, e);
    }
  }

  // An entry of the input is kept exactly if no newer entry of its key is old enough for all snapshots, and it is
  // not itself such a deletion at its key's base level
  lemma KeptExactly(input: seq<Entry>, smallest: nat, isBase: int -> bool, e: Entry)
    requires Sorted(input) && Unique(Elements(input))
    ensures e in Survivors(input, |input|, smallest, isBase) <==>
            && e in input
            && (forall f :: f in input && f.key == e.key && f.sequence > e.sequence ==> f.sequence > smallest)
            && !(e.kind.Deletion? && e.sequence <= smallest && isBase(e.key))
  {
    SurvivorIff(input, |input|, smallest, isBase, e);
    forall i | 0 <= i < |input| && input[i] == e
      ensures Hidden(input, i, smallest) <==>
              exists f :: f in input && f.key == e.key && f.sequence > e.sequence && f.sequence <= smallest
    {
      HiddenExactly(input, i, smallest);
    }
  }

  lemma HiddenExactly(input: seq<Entry>, i: nat, smallest: nat)
    requires Sorted(input) && Unique(Elements(input)) && i < |input|
    ensures Hidden(input, i, smallest) <==>
            exists f :: f in input && f.key == input[i].key && f.sequence > input[i].sequence && f.sequence <= smallest
  {
    var e := input[i];
    if Hidden(input, i, smallest) {
      var f := input[i - 1];
      assert Before(f, e) && f in Elements(input) && e in Elements(input);
    }
    if f :| f in input && f.key == e.key && f.sequence > e.sequence && f.sequence <= smallest {
      var j :| 0 <= j < |input| && input[j] == f;
      assert j < i ==> Before(f, e);
      assert i < j ==> Before(e, f);
      HiddenAfter(input, j, i, smallest);
    }
  }

  // So no two entries of a key are kept that all snapshots see
  lemma OneKept(input: seq<Entry>, smallest: nat, isBase: int -> bool, e: Entry, f: Entry)
    requires Sorted(input) && Unique(Elements(input)) && e.key == f.key && e.sequence <= smallest && f.sequence <= smallest
    requires e in Survivors(input, |input|, smallest, isBase) && f in Survivors(input, |input|, smallest, isBase)
    ensures e == f
  {
    KeptExactly(input, smallest, isBase, e);
    KeptExactly(input, smallest, isBase, f);
    assert e in Elements(input) && f in Elements(input);
  }

  lemma {:induction false} SurvivorsSorted(input: seq<Entry>, n: nat, smallest: nat, isBase: int -> bool)
    requires n <= |input| && Sorted(input)
    ensures Sorted(Survivors(input, n, smallest, isBase))
  {
    if n > 0 {
      SurvivorsSorted(input, n - 1, smallest, isBase);
      var prefix := Survivors(input, n - 1, smallest, isBase);
      forall i | 0 <= i < |prefix| ensures Before(prefix[i], input[n - 1]) {
        SurvivorIff(input, n - 1, smallest, isBase, prefix[i]);
      }
    }
  }

  // What choosing the inputs guarantees: for each user key, entries that are neither an input nor
  // below the output level are newer than every input entry, entries below the output level are
  // older, and an input's base-level key has none below.
  ghost predicate Placed(newer: set<Entry>, input: seq<Entry>, older: set<Entry>, isBase: int -> bool) {
    && Unique(newer + Elements(input) + older)
    && (forall e, f :: e in newer && f in input && e.key == f.key ==> e.sequence > f.sequence)
    && (forall e, f :: e in older && f in input && e.key == f.key ==> e.sequence < f.sequence && !isBase(e.key))
    && (forall e, f :: e in newer && f in older && e.key == f.key ==> e.sequence > f.sequence)
  }

  // The first visible input entry for k is the newest one
  lemma FirstVisibleInput(input: seq<Entry>, k: int, s: nat, e: Entry) returns (i: nat)
    requires Sorted(input) && Unique(Elements(input))
    requires e in input && IsVisible(e, k, s)
    ensures i < |input| && IsVisible(input[i], k, s)
    ensures forall j :: 0 <= j < i ==> !IsVisible(input[j], k, s)
    ensures forall f :: f in input && IsVisible(f, k, s) ==> f.sequence <= input[i].sequence
  {
    i := 0;
    while !IsVisible(input[i], k, s)
      invariant i < |input| && exists j :: i <= j < |input| && input[j] == e
      invariant forall j :: 0 <= j < i ==> !IsVisible(input[j], k, s)
      decreases |input| - i
    {
      i := i + 1;
    }
  }

  // Everything after an entry at or below the smallest snapshot, for the same key, is dropped
  lemma HiddenAfter(input: seq<Entry>, i: nat, j: nat, smallest: nat)
    requires Sorted(input) && i < j < |input|
    requires input[i].key == input[j].key && input[i].sequence <= smallest
    ensures Hidden(input, j, smallest)
  {
    if i + 1 < j {
      assert Before(input[i], input[j - 1]) && Before(input[j - 1], input[j]);
    }
  }

  // Replacing a compaction's inputs by its outputs changes no read at or above the smallest snapshot
  lemma CompactionPreservesReads(newer: set<Entry>, input: seq<Entry>, older: set<Entry>,
                                 smallest: nat, isBase: int -> bool, k: int, s: nat)
    requires Sorted(input) && Placed(newer, input, older, isBase)
    requires smallest <= s
    ensures var output := Survivors(input, |input|, smallest, isBase);
            Read(newer + Elements(input) + older, k, s) == Read(newer + Elements(output) + older, k, s)
  {
    var output := Survivors(input, |input|, smallest, isBase);
    var db, db' := newer + Elements(input) + older, newer + Elements(output) + older;
    forall e ensures e in output <==>
                     exists i :: 0 <= i < |input| && input[i] == e && !Dropped(input, i, smallest, isBase)
    {
      SurvivorIff(input, |input|, smallest, isBase, e);
    }
    assert db' <= db;
    if e :| e in newer && IsVisible(e, k, s) {
      var n := NewestExists(newer, k, s, e);
      assert Newest(db, k, s, n) && Newest(db', k, s, n);
      ReadNewest(db, k, s, n);
      ReadNewest(db', k, s, n);
    } else if e :| e in input && IsVisible(e, k, s) {
      assert Unique(Elements(input)) by { assert Elements(input) <= db; }
      var i := FirstVisibleInput(input, k, s, e);
      assert Newest(db, k, s, input[i]);
      ReadNewest(db, k, s, input[i]);
      assert !Hidden(input, i, smallest);
      if ObsoleteTombstone(input[i], smallest, isBase) {
        forall f | f in db' && IsVisible(f, k, s) ensures false {
          var j :| 0 <= j < |input| && input[j] == f && !Dropped(input, j, smallest, isBase);
          HiddenAfter(input, i, j, smallest);
        }
        assert !exists f :: Newest(db', k, s, f);
      } else {
        assert !Dropped(input, i, smallest, isBase);
        assert input[i] in output;
        assert Newest(db', k, s, input[i]);
        ReadNewest(db', k, s, input[i]);
      }
    } else {
      ReadDependsOnVisible(db, db', k, s, s);
    }
  }
}
