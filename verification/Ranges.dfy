// The key ranges of table files: a flush, a move and a compaction leave the files of each level above 0
// apart, as the search within a level needs, as long as no flush can slip between the inputs of a compaction.
module Ranges {
  import opened Options
  import opened Entries
  import opened Compaction
  import opened Tables

  ghost function Of(t: Store, f: File): set<Entry> {
    if f.number in t then t[f.number] else {}
  }

  ghost predicate AllBefore(a: set<Entry>, b: set<Entry>) {
    forall e, h :: e in a && h in b ==> Before(e, h)
  }

  // One lies before the other in internal key order
  ghost predicate Apart(a: set<Entry>, b: set<Entry>) {
    AllBefore(a, b) || AllBefore(b, a)
  }

  ghost predicate KeysBefore(a: set<Entry>, b: set<Entry>) {
    forall e, h :: e in a && h in b ==> e.key < h.key
  }

  // The ranges of user keys do not overlap
  ghost predicate RangesApart(a: set<Entry>, b: set<Entry>) {
    KeysBefore(a, b) || KeysBefore(b, a)
  }

  // A user key lies in the range of the entries
  ghost predicate Within(es: set<Entry>, k: int) {
    exists e, h :: e in es && h in es && e.key <= k <= h.key
  }

  // What the search of a level above 0 relies on
  ghost predicate Disjoint(v: Version, t: Store) {
    forall f, g :: f in v && g in v && f != g && f.level == g.level && f.level > 0 ==> Apart(Of(t, f), Of(t, g))
  }

  // PickLevelForMemTableOutput: below level 0 only past levels no file of which overlaps the memtable
  ghost predicate PastLevels(v: Version, t: Store, es: set<Entry>, level: nat) {
    level > 0 ==> forall f :: f in v && f.level <= level ==> RangesApart(es, Of(t, f))
  }

  lemma PastCanPush(v: Version, t: Store, es: set<Entry>, level: nat)
    requires PastLevels(v, t, es, level)
    ensures CanPush(v, t, es, level)
  {
    forall f, e, h | level > 0 && f in v && f.level <= level && Holds(t, f, e) && h in es ensures e.key != h.key {
      assert RangesApart(es, Of(t, f)) && e in Of(t, f);
    }
  }

  // SetupOtherInputs: the files that stay at the output level are apart from all inputs
  ghost predicate Clear(v: Version, t: Store, level: nat, inputs: Version) {
    forall g :: g in v && g !in inputs && g.level == level + 1 ==> Apart(Of(t, g), Contents(inputs, t))
  }

  // Every user key between inputs lies in the range of some file a flush to the output level must pass
  ghost predicate Covered(v: Version, t: Store, level: nat, inputs: Version) {
    forall k :: Within(Contents(inputs, t), k) ==> exists f :: f in v && f.level <= level + 1 && Within(Of(t, f), k)
  }

  // ---- What changes a version ----

  ghost predicate SameFiles(v: Version, t: Store, t': Store) {
    forall f :: f in v ==> Of(t', f) == Of(t, f)
  }

  lemma SameFilesFrame(v: Version, t: Store, t': Store, level: nat, inputs: Version)
    requires SameFiles(v, t, t')
    ensures Disjoint(v, t) ==> Disjoint(v, t')
    ensures inputs <= v && Clear(v, t, level, inputs) ==> Clear(v, t', level, inputs)
    ensures inputs <= v && Covered(v, t, level, inputs) ==> Covered(v, t', level, inputs)
  {
    if inputs <= v {
      SameContents(v, t, t', inputs);
    }
    if inputs <= v && Covered(v, t, level, inputs) {
      forall k | Within(Contents(inputs, t'), k) ensures exists f :: f in v && f.level <= level + 1 && Within(Of(t', f), k) {
        var f :| f in v && f.level <= level + 1 && Within(Of(t, f), k);
        assert Of(t', f) == Of(t, f);
      }
    }
  }

  lemma SameContents(v: Version, t: Store, t': Store, inputs: Version)
    requires SameFiles(v, t, t') && inputs <= v
    ensures Contents(inputs, t') == Contents(inputs, t)
  {
    forall e ensures e in Contents(inputs, t') <==> e in Contents(inputs, t) {
      InContents(inputs, t, e);
      InContents(inputs, t', e);
      assert forall f :: f in inputs ==> (Holds(t, f, e) <==> e in Of(t, f)) && (Holds(t', f, e) <==> e in Of(t', f));
    }
  }

  lemma FlushDisjoint(v: Version, t: Store, f: File)
    requires Disjoint(v, t) && PastLevels(v, t, Of(t, f), f.level)
    ensures Disjoint(v + {f}, t)
  {
    forall g | g in v && g.level == f.level && g.level > 0 ensures Apart(Of(t, f), Of(t, g)) {
      assert RangesApart(Of(t, f), Of(t, g));
    }
  }

  // A flush while a compaction is at work cannot slip between its inputs
  lemma FlushClear(v: Version, t: Store, level: nat, inputs: Version, f: File)
    requires inputs <= v && (forall g :: g in inputs ==> Inside(level, g)) && f !in v
    requires Clear(v, t, level, inputs) && Covered(v, t, level, inputs) && PastLevels(v, t, Of(t, f), f.level)
    ensures Clear(v + {f}, t, level, inputs) && Covered(v + {f}, t, level, inputs)
  {
    if f.level == level + 1 {
      PastCovered(v, t, level, inputs, Of(t, f));
    }
    forall k | Within(Contents(inputs, t), k)
      ensures exists g :: g in v + {f} && g.level <= level + 1 && Within(Of(t, g), k)
    {
      var g :| g in v && g.level <= level + 1 && Within(Of(t, g), k);
      assert g in v + {f};
    }
  }

  lemma PastCovered(v: Version, t: Store, level: nat, inputs: Version, es: set<Entry>)
    requires inputs <= v && (forall g :: g in inputs ==> Inside(level, g))
    requires Covered(v, t, level, inputs) && PastLevels(v, t, es, level + 1)
    ensures RangesApart(es, Contents(inputs, t))
  {
    var all := Contents(inputs, t);
    if e0 :| e0 in es {
      forall f | f in v && f.level <= level + 1 ensures !Within(Of(t, f), e0.key) {
        assert RangesApart(es, Of(t, f));
      }
      assert !Within(all, e0.key);
      forall e, x | e in es && x in all ensures e.key < x.key <==> e0.key < x.key {
        SameSide(v, t, level, inputs, es, e, e0, x);
      }
      forall x | x in all ensures e0.key != x.key {
        SameSide(v, t, level, inputs, es, e0, e0, x);
      }
    }
  }

  lemma SameSide(v: Version, t: Store, level: nat, inputs: Version, es: set<Entry>, e: Entry, e': Entry, x: Entry)
    requires inputs <= v && (forall g :: g in inputs ==> Inside(level, g)) && PastLevels(v, t, es, level + 1)
    requires e in es && e' in es && x in Contents(inputs, t)
    ensures (e.key < x.key <==> e'.key < x.key) && e.key != x.key && e'.key != x.key
  {
    InContents(inputs, t, x);
    var f :| f in inputs && Holds(t, f, x);
    assert RangesApart(es, Of(t, f)) && x in Of(t, f);
  }

  lemma CompactDisjoint(v: Version, t: Store, level: nat, inputs: Version, outputs: Version, t': Store)
    requires Disjoint(v, t) && Clear(v, t, level, inputs) && SameFiles(v, t, t')
    requires forall f :: f in outputs ==> f.level == level + 1 && Of(t', f) <= Contents(inputs, t)
    requires forall f, g :: f in outputs && g in outputs && f != g ==> Apart(Of(t', f), Of(t', g))
    ensures Disjoint(v - inputs + outputs, t')
  {
    forall f, g | f in outputs && g in v && g !in inputs && g.level == level + 1
      ensures Apart(Of(t', f), Of(t', g))
    {
      assert Apart(Of(t, g), Contents(inputs, t));
    }
  }

  lemma MoveDisjoint(v: Version, t: Store, f: File)
    requires Disjoint(v, t) && f in v && Clear(v, t, f.level, {f})
    ensures Disjoint(v - {f} + {File(f.number, f.level + 1)}, t)
  {
    var f' := File(f.number, f.level + 1);
    forall e ensures e in Contents({f}, t) <==> e in Of(t, f) {
      InContents({f}, t, e);
      assert Holds(t, f, e) <==> e in Of(t, f);
    }
    assert Contents({f}, t) == Of(t, f') == Of(t, f);
  }

  // ---- When no flush can slip between the inputs ----

  // Exactly if files cover every key between the inputs, every memtable that can be pushed to the output
  // level lies apart from all inputs, so from whatever tables they are merged into
  lemma GapExactly(v: Version, t: Store, level: nat, inputs: Version)
    requires inputs <= v && forall g :: g in inputs ==> Inside(level, g)
    ensures (forall es :: PastLevels(v, t, es, level + 1) ==> Apart(es, Contents(inputs, t))) <==> Covered(v, t, level, inputs)
  {
    if Covered(v, t, level, inputs) {
      forall es | PastLevels(v, t, es, level + 1) ensures Apart(es, Contents(inputs, t)) {
        PastCovered(v, t, level, inputs, es);
      }
    } else {
      var k :| Within(Contents(inputs, t), k) && forall f :: f in v && f.level <= level + 1 ==> !Within(Of(t, f), k);
      GapAdmits(v, t, level, k);
      GapStraddles(v, t, level, inputs, k);
    }
  }

  lemma GapAdmits(v: Version, t: Store, level: nat, k: int)
    requires forall f :: f in v && f.level <= level + 1 ==> !Within(Of(t, f), k)
    ensures PastLevels(v, t, {Entry(k, 0, Value, "")}, level + 1)
  {
    var es := {Entry(k, 0, Value, "")};
    forall f | f in v && f.level <= level + 1 ensures RangesApart(es, Of(t, f)) {
      assert !Within(Of(t, f), k);
    }
  }

  lemma GapStraddles(v: Version, t: Store, level: nat, inputs: Version, k: int)
    requires inputs <= v && forall g :: g in inputs ==> Inside(level, g)
    requires Within(Contents(inputs, t), k) && forall f :: f in v && f.level <= level + 1 ==> !Within(Of(t, f), k)
    ensures !Apart({Entry(k, 0, Value, "")}, Contents(inputs, t))
  {
    var e, h :| e in Contents(inputs, t) && h in Contents(inputs, t) && e.key <= k <= h.key;
    NotThere(v, t, level, inputs, k, e);
    NotThere(v, t, level, inputs, k, h);
    assert Entry(k, 0, Value, "") in {Entry(k, 0, Value, "")};
  }

  lemma NotThere(v: Version, t: Store, level: nat, inputs: Version, k: int, e: Entry)
    requires inputs <= v && (forall g :: g in inputs ==> Inside(level, g)) && e in Contents(inputs, t)
    requires forall f :: f in v && f.level <= level + 1 ==> !Within(Of(t, f), k)
    ensures e.key != k
  {
    InContents(inputs, t, e);
    var f :| f in inputs && Holds(t, f, e);
    assert e in Of(t, f) && !Within(Of(t, f), k);
  }

  // ---- The outputs of a compaction ----

  lemma {:induction false} PieceIn(tables: seq<Table>, i: nat, e: Entry) returns (p: nat)
    requires i < |tables| && e in tables[i].entries
    ensures p < |Concat(tables)| && Concat(tables)[p] == e
  {
    var init, last := tables[..|tables| - 1], tables[|tables| - 1].entries;
    if i < |tables| - 1 {
      p := PieceIn(init, i, e);
    } else {
      var k :| 0 <= k < |last| && last[k] == e;
      p := |Concat(init)| + k;
    }
  }

  // DoCompactionWork cuts a sorted sequence into its outputs, so they lie apart
  lemma {:induction false} OutputsApart(tables: seq<Table>, i: nat, j: nat)
    requires Sorted(Concat(tables)) && i < j < |tables|
    ensures AllBefore(Elements(tables[i].entries), Elements(tables[j].entries))
  {
    var init, last := tables[..|tables| - 1], tables[|tables| - 1].entries;
    var all := Concat(tables);
    assert all == Concat(init) + last;
    if j < |tables| - 1 {
      assert forall p :: 0 <= p < |Concat(init)| ==> Concat(init)[p] == all[p];
      OutputsApart(init, i, j);
    } else {
      forall e, h | e in Elements(tables[i].entries) && h in Elements(last) ensures Before(e, h) {
        var p := PieceIn(init, i, e);
        var k :| 0 <= k < |last| && last[k] == h;
        assert all[p] == e && all[|Concat(init)| + k] == h;
      }
    }
  }
}
