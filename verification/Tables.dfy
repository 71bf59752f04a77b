// The tables a version of the database consists of, and what flushing, compacting and moving tables
// do to them. A table is the set of its entries; Compaction treats its order.
module Tables {
  import opened Entries
  import opened Compaction

  datatype File = File(number: nat, level: nat)
  type Version = set<File>
  type Store = map<nat, set<Entry>>  // the table files by number

  predicate Holds(t: Store, f: File, e: Entry) {
    f.number in t && e in t[f.number]
  }

  ghost function Contents(v: Version, t: Store): set<Entry> {
    set f, e | f in v && f.number in t && e in t[f.number] :: e
  }

  lemma InContents(v: Version, t: Store, e: Entry)
    ensures e in Contents(v, t) <==> exists f :: f in v && Holds(t, f, e)
  {
    if f :| f in v && Holds(t, f, e) {
      assert e in t[f.number];
    }
  }

  // Lookups try f before g; within a level other than 0 files share no user key's history
  predicate Above(f: File, g: File) {
    f.level < g.level || (f.level == 0 && g.level == 0 && f.number > g.number)
  }

  ghost predicate Layered(v: Version, t: Store) {
    forall f, g, e, h ::
      f in v && g in v && Above(f, g) && Holds(t, f, e) && Holds(t, g, h) && e.key == h.key ==> e.sequence > h.sequence
  }

  ghost predicate Stored(v: Version, t: Store) {
    forall f :: f in v ==> f.number in t
  }

  ghost predicate Numbered(v: Version) {
    forall f, g :: f in v && g in v && f.number == g.number ==> f == g
  }

  ghost predicate Below(v: Version, n: nat) {
    forall f :: f in v ==> f.number < n
  }

  ghost predicate SameReads(db: set<Entry>, db': set<Entry>, floor: nat) {
    forall k, s: nat :: floor <= s ==> Read(db, k, s) == Read(db', k, s)
  }

  // The tables of v stand for the entries flushed so far, for every reader at or above floor
  ghost predicate Faithful(v: Version, t: Store, flushed: set<Entry>, floor: nat) {
    && Stored(v, t)
    && Numbered(v)
    && Layered(v, t)
    && Contents(v, t) <= flushed
    && Unique(flushed)
    && SameReads(Contents(v, t), flushed, floor)
  }

  // Tables of other versions may come and go
  ghost predicate Agree(v: Version, t: Store, t': Store) {
    forall f :: f in v && f.number in t ==> f.number in t' && t'[f.number] == t[f.number]
  }

  lemma ContentsAgree(v: Version, t: Store, t': Store)
    requires Stored(v, t) && Agree(v, t, t')
    ensures Contents(v, t') == Contents(v, t) && Stored(v, t')
    ensures Layered(v, t) ==> Layered(v, t')
  {
    forall f, e | f in v ensures Holds(t, f, e) <==> Holds(t', f, e) {}
    forall e ensures e in Contents(v, t') <==> e in Contents(v, t) {
      InContents(v, t, e);
      InContents(v, t', e);
    }
  }

  lemma FaithfulAgree(v: Version, t: Store, t': Store, flushed: set<Entry>, floor: nat)
    requires Faithful(v, t, flushed, floor) && Agree(v, t, t')
    ensures Faithful(v, t', flushed, floor)
  {
    ContentsAgree(v, t, t');
  }

  // Newer entries on top of two databases that read alike
  lemma AddNewer(db: set<Entry>, db': set<Entry>, newer: set<Entry>, floor: nat)
    requires SameReads(db, db', floor) && db <= db'
    requires Unique(db' + newer)
    requires forall e, f :: e in newer && f in db' && e.key == f.key ==> e.sequence > f.sequence
    ensures SameReads(db + newer, db' + newer, floor)
  {
    forall k, s: nat | floor <= s ensures Read(db + newer, k, s) == Read(db' + newer, k, s) {
      if e :| e in newer && IsVisible(e, k, s) {
        var n := NewestExists(newer, k, s, e);
        assert Newest(db + newer, k, s, n) && Newest(db' + newer, k, s, n);
        ReadNewest(db + newer, k, s, n);
        ReadNewest(db' + newer, k, s, n);
      } else {
        ReadDependsOnVisible(db + newer, db, k, s, s);
        ReadDependsOnVisible(db' + newer, db', k, s, s);
      }
    }
  }

  ghost predicate NewerThan(newer: set<Entry>, db: set<Entry>) {
    forall e, f :: e in newer && f in db ==> e.sequence > f.sequence
  }

  // PickLevelForMemTableOutput: below level 0 only past levels that hold none of the keys
  ghost predicate CanPush(v: Version, t: Store, es: set<Entry>, level: nat) {
    level > 0 ==>
      forall f, e, h :: f in v && f.level <= level && Holds(t, f, e) && h in es ==> e.key != h.key
  }

  lemma FlushKeepsLayers(v: Version, t: Store, f: File, db: set<Entry>)
    requires Stored(v, t) && Layered(v, t) && Below(v, f.number)
    requires f.number in t && NewerThan(t[f.number], db) && Contents(v, t) <= db
    requires CanPush(v, t, t[f.number], f.level)
    ensures Layered(v + {f}, t)
  {
    forall g, h, e, x | g in v + {f} && h in v + {f} && Above(g, h) && Holds(t, g, e) && Holds(t, h, x) && e.key == x.key
      ensures e.sequence > x.sequence
    {
      InContents(v, t, e);
      InContents(v, t, x);
    }
  }

  // A flushed memtable: newer than every table, with a fresh number
  lemma FlushKeeps(v: Version, t: Store, f: File, flushed: set<Entry>, floor: nat)
    requires Faithful(v, t, flushed, floor) && Below(v, f.number) && f.number in t
    requires NewerThan(t[f.number], flushed) && Unique(flushed + t[f.number])
    requires CanPush(v, t, t[f.number], f.level)
    ensures Faithful(v + {f}, t, flushed + t[f.number], floor)
  {
    FlushKeepsLayers(v, t, f, flushed);
    forall e ensures e in Contents(v + {f}, t) <==> e in Contents(v, t) + t[f.number] {
      InContents(v + {f}, t, e);
      InContents(v, t, e);
      assert Holds(t, f, e) <==> e in t[f.number];
    }
    assert Contents(v + {f}, t) == Contents(v, t) + t[f.number];
    AddNewer(Contents(v, t), flushed, t[f.number], floor);
  }

  predicate Inside(level: nat, f: File) {
    f.level == level || f.level == level + 1
  }

  // What PickCompaction, CompactRange and SetupOtherInputs promise: the inputs are files of the two
  // levels, and what stays at those levels is newer than any input entry for the same user key.
  ghost predicate Closed(v: Version, t: Store, level: nat, inputs: Version) {
    && inputs <= v
    && (forall f :: f in inputs ==> Inside(level, f))
    && (forall f, g, e, h ::
          f in v && f !in inputs && Inside(level, f) && g in inputs && Holds(t, f, e) && Holds(t, g, h) && e.key == h.key ==>
            e.sequence > h.sequence)
  }

  ghost function Upper(v: Version, level: nat, inputs: Version): Version {
    set f | f in v && f !in inputs && f.level <= level + 1
  }

  ghost function Lower(v: Version, level: nat, inputs: Version): Version {
    set f | f in v && f !in inputs && f.level > level + 1
  }

  // No entry for k lies below the output level
  ghost predicate BaseKey(v: Version, t: Store, level: nat, k: int) {
    forall f, e :: f in v && f.level > level + 1 && Holds(t, f, e) ==> e.key != k
  }

  // How the input entries lie among the others, while the compaction runs: base is the version it
  // started from, v the current one
  ghost predicate Among(v: Version, t: Store, level: nat, inputs: Version, base: Version) {
    && inputs <= v
    && (forall f, g, e, h ::
          f in Upper(v, level, inputs) && g in inputs && Holds(t, f, e) && Holds(t, g, h) && e.key == h.key ==>
            e.sequence > h.sequence)
    && (forall f, g, e, h ::
          f in Lower(v, level, inputs) && g in inputs && Holds(t, f, e) && Holds(t, g, h) && e.key == h.key ==>
            e.sequence < h.sequence && !BaseKey(base, t, level, e.key))
  }

  lemma PickedAmong(v: Version, t: Store, level: nat, inputs: Version)
    requires Layered(v, t) && Closed(v, t, level, inputs)
    ensures Among(v, t, level, inputs, v)
  {
    forall f, g, e, h | f in Upper(v, level, inputs) && g in inputs && Holds(t, f, e) && Holds(t, g, h) && e.key == h.key
      ensures e.sequence > h.sequence
    {
      if f.level < level {
        assert Above(f, g);
      }
    }
    forall f, g, e, h | f in Lower(v, level, inputs) && g in inputs && Holds(t, f, e) && Holds(t, g, h) && e.key == h.key
      ensures e.sequence < h.sequence && !BaseKey(v, t, level, e.key)
    {
      assert Above(g, f);
    }
  }

  // A memtable flushed while the compaction runs does not get in its way
  lemma FlushAmong(v: Version, t: Store, level: nat, inputs: Version, base: Version, f: File, db: set<Entry>)
    requires Among(v, t, level, inputs, base) && f !in v && f.number in t
    requires forall g :: g in inputs ==> g.level <= level + 1
    requires NewerThan(t[f.number], db) && Contents(v, t) <= db
    requires CanPush(v, t, t[f.number], f.level)
    ensures Among(v + {f}, t, level, inputs, base)
  {
    forall g, e | g in inputs && Holds(t, g, e) ensures e in db {
      InContents(v, t, e);
    }
    forall g | g in Upper(v + {f}, level, inputs) && g != f ensures g in Upper(v, level, inputs) {}
    forall g | g in Lower(v + {f}, level, inputs) && g != f ensures g in Lower(v, level, inputs) {}
    forall g, e, h | f in Lower(v + {f}, level, inputs) && g in inputs && Holds(t, f, e) && Holds(t, g, h)
      ensures e.key != h.key
    {
      assert e in t[f.number];
    }
  }

  lemma InputsPlaced(v: Version, t: Store, level: nat, inputs: Version, base: Version, input: seq<Entry>,
                     isBase: int -> bool)
    requires Layered(v, t) && Unique(Contents(v, t)) && Among(v, t, level, inputs, base)
    requires Elements(input) == Contents(inputs, t)
    requires forall k :: isBase(k) ==> BaseKey(base, t, level, k)
    ensures Placed(Contents(Upper(v, level, inputs), t), input, Contents(Lower(v, level, inputs), t), isBase)
    ensures Contents(Upper(v, level, inputs), t) + Elements(input) + Contents(Lower(v, level, inputs), t) == Contents(v, t)
  {
    var upper, lower := Upper(v, level, inputs), Lower(v, level, inputs);
    forall e ensures e in Contents(upper, t) <==> exists f :: f in upper && Holds(t, f, e) { InContents(upper, t, e); }
    forall e ensures e in Contents(lower, t) <==> exists f :: f in lower && Holds(t, f, e) { InContents(lower, t, e); }
    forall e ensures e in input <==> exists f :: f in inputs && Holds(t, f, e) {
      InContents(inputs, t, e);
      assert e in input <==> e in Elements(input);
    }
    forall e ensures e in Contents(v, t) <==> e in Contents(upper, t) + Elements(input) + Contents(lower, t) {
      InContents(v, t, e);
      assert forall f :: f in v <==> f in upper || f in inputs || f in lower;
    }
    forall e, h | e in Contents(upper, t) && h in Contents(lower, t) && e.key == h.key ensures e.sequence > h.sequence {
      var f :| f in upper && Holds(t, f, e);
      var g :| g in lower && Holds(t, g, h);
      assert Above(f, g);
    }
  }

  ghost predicate Outputs(v: Version, t: Store, t': Store, level: nat, outputs: Version, output: seq<Entry>) {
    && Agree(v, t, t')
    && Stored(outputs, t')
    && Numbered(v + outputs)
    && v !! outputs
    && (forall f :: f in outputs ==> f.level == level + 1)
    && Contents(outputs, t') == Elements(output)
  }

  lemma CompactKeepsLayers(v: Version, t: Store, level: nat, inputs: Version, base: Version, outputs: Version, t': Store)
    requires Stored(v, t) && Layered(v, t) && Among(v, t, level, inputs, base) && Agree(v, t, t')
    requires forall f :: f in outputs ==> f.level == level + 1
    requires Contents(outputs, t') <= Contents(inputs, t)
    ensures Layered(v - inputs + outputs, t')
  {
    var v' := v - inputs + outputs;
    forall f, g, e, h | f in v' && g in v' && Above(f, g) && Holds(t', f, e) && Holds(t', g, h) && e.key == h.key
      ensures e.sequence > h.sequence
    {
      if f in v && g in v {
        assert Holds(t, f, e) && Holds(t, g, h);
      } else if f in v {
        InContents(outputs, t', h);
        InContents(inputs, t, h);
        var i :| i in inputs && Holds(t, i, h);
        assert Holds(t, f, e) && f in Upper(v, level, inputs);
      } else if g in v {
        InContents(outputs, t', e);
        InContents(inputs, t, e);
        var i :| i in inputs && Holds(t, i, e);
        assert Holds(t, g, h) && g in Lower(v, level, inputs);
      }
    }
  }

  // InstallCompactionResults
  lemma CompactKeeps(v: Version, t: Store, level: nat, inputs: Version, base: Version, input: seq<Entry>,
                     smallest: nat, isBase: int -> bool, outputs: Version, t': Store, flushed: set<Entry>, floor: nat)
    requires Faithful(v, t, flushed, floor) && Among(v, t, level, inputs, base) && floor <= smallest
    requires Sorted(input) && Elements(input) == Contents(inputs, t)
    requires forall k :: isBase(k) ==> BaseKey(base, t, level, k)
    requires Outputs(v, t, t', level, outputs, Survivors(input, |input|, smallest, isBase))
    ensures Faithful(v - inputs + outputs, t', flushed, smallest)
  {
    var output := Survivors(input, |input|, smallest, isBase);
    var upper, lower := Upper(v, level, inputs), Lower(v, level, inputs);
    forall e | e in output ensures e in input {
      SurvivorIff(input, |input|, smallest, isBase, e);
    }
    assert Elements(output) <= Elements(input);
    CompactKeepsLayers(v, t, level, inputs, base, outputs, t');
    InputsPlaced(v, t, level, inputs, base, input, isBase);
    CompactedContents(v, t, level, inputs, outputs, t');
    forall k, s: nat | smallest <= s
      ensures Read(Contents(v - inputs + outputs, t'), k, s) == Read(flushed, k, s)
    {
      CompactionPreservesReads(Contents(upper, t), input, Contents(lower, t), smallest, isBase, k, s);
    }
  }

  lemma CompactedContents(v: Version, t: Store, level: nat, inputs: Version, outputs: Version, t': Store)
    requires inputs <= v && Stored(v, t) && Agree(v, t, t') && v !! outputs
    ensures Contents(v - inputs + outputs, t') ==
            Contents(Upper(v, level, inputs), t) + Contents(outputs, t') + Contents(Lower(v, level, inputs), t)
  {
    var v', upper, lower := v - inputs + outputs, Upper(v, level, inputs), Lower(v, level, inputs);
    assert forall f :: f in v' <==> f in upper || f in outputs || f in lower;
    forall e ensures e in Contents(v', t') <==> e in Contents(upper, t) + Contents(outputs, t') + Contents(lower, t) {
      InContents(v', t', e);
      InContents(upper, t, e);
      InContents(lower, t, e);
      InContents(outputs, t', e);
      assert forall f :: f in upper || f in lower ==> (Holds(t, f, e) <==> Holds(t', f, e));
    }
  }

  lemma MoveKeepsLayers(v: Version, t: Store, f: File, f': File)
    requires Layered(v, t) && f in v && Closed(v, t, f.level, {f}) && f' == File(f.number, f.level + 1)
    ensures Layered(v - {f} + {f'}, t)
  {
    var v' := v - {f} + {f'};
    forall g, h, e, x | g in v' && h in v' && Above(g, h) && Holds(t, g, e) && Holds(t, h, x) && e.key == x.key
      ensures e.sequence > x.sequence
    {
      if g == f' {
        assert Holds(t, f, e) && Above(f, h);
      } else if h == f' {
        assert Holds(t, f, x) && f in {f};
        assert g.level < f.level ==> Above(g, f);
      }
    }
  }

  // A trivial move: one file to the next level
  lemma MoveKeeps(v: Version, t: Store, f: File, flushed: set<Entry>, floor: nat)
    requires Faithful(v, t, flushed, floor) && f in v && Closed(v, t, f.level, {f})
    ensures Faithful(v - {f} + {File(f.number, f.level + 1)}, t, flushed, floor)
  {
    var f' := File(f.number, f.level + 1);
    MoveKeepsLayers(v, t, f, f');
    MoveContents(v, t, f, f');
  }

  lemma MoveContents(v: Version, t: Store, f: File, f': File)
    requires f in v && f'.number == f.number
    ensures Contents(v - {f} + {f'}, t) == Contents(v, t)
  {
    forall e ensures e in Contents(v - {f} + {f'}, t) <==> e in Contents(v, t) {
      InContents(v - {f} + {f'}, t, e);
      InContents(v, t, e);
      assert Holds(t, f, e) <==> Holds(t, f', e);
    }
  }
}
