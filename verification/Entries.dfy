// The multi-version contents of a LevelDB database and what a read of them means.
//
// A user key is represented by its rank in the user comparator's order: the code only ever
// compares user keys, and every finite set of keys embeds into the integers in that order.
module Entries {
  import opened Options

  // kTypeDeletion = 0, kTypeValue = 1
  datatype ValueType = Deletion | Value

  datatype Entry = Entry(key: int, sequence: nat, kind: ValueType, value: string)

  // kMaxSequenceNumber: eight bits of a 64-bit tag are left for the type
  const MAX_SEQUENCE: nat := 0xFF_FFFF_FFFF_FFFF

  function Tag(sequence: nat, kind: ValueType): nat {
    256 * sequence + if kind.Value? then 1 else 0
  }

  // InternalKeyComparator: user keys increasing, then tags decreasing
  predicate Before(a: Entry, b: Entry) {
    a.key < b.key || (a.key == b.key && Tag(a.sequence, a.kind) > Tag(b.sequence, b.kind))
  }

  ghost predicate Sorted(es: seq<Entry>) {
    forall i, j :: 0 <= i < j < |es| ==> Before(es[i], es[j])
  }

  // Every operation of every batch has its own sequence number
  ghost predicate Unique(s: set<Entry>) {
    forall e, f :: e in s && f in s && e.sequence == f.sequence ==> e == f
  }

  ghost function Elements(es: seq<Entry>): set<Entry> {
    set e | e in es
  }

  ghost predicate IsVisible(e: Entry, k: int, s: nat) {
    e.key == k && e.sequence <= s
  }

  // e is the newest entry for k among those a reader at sequence s may see
  ghost predicate Newest(db: set<Entry>, k: int, s: nat, e: Entry) {
    e in db && IsVisible(e, k, s) && forall f :: f in db && IsVisible(f, k, s) ==> f.sequence <= e.sequence
  }

  function Outcome(e: Entry): Option<string> {
    if e.kind.Value? then Some(e.value) else None
  }

  // What a reader of k at sequence s must see: a tombstone and no entry at all both mean absent
  ghost function Read(db: set<Entry>, k: int, s: nat): Option<string> {
    if exists e :: Newest(db, k, s, e) then
      var e :| Newest(db, k, s, e); Outcome(e)
    else
      None
  }

  lemma NewestExists(db: set<Entry>, k: int, s: nat, e: Entry) returns (n: Entry)
    requires e in db && IsVisible(e, k, s)
    ensures Newest(db, k, s, n)
    decreases s - e.sequence
  {
    if f :| f in db && IsVisible(f, k, s) && f.sequence > e.sequence {
      n := NewestExists(db, k, s, f);
    } else {
      n := e;
    }
  }

  lemma ReadNewest(db: set<Entry>, k: int, s: nat, e: Entry)
    requires Unique(db) && Newest(db, k, s, e)
    ensures Read(db, k, s) == Outcome(e)
  {
    var f :| Newest(db, k, s, f) && Read(db, k, s) == Outcome(f);
    assert Newest(db, k, s, f);
    assert e.sequence == f.sequence;
  }

  // A read is decided by what it can see
  lemma ReadDependsOnVisible(db: set<Entry>, db': set<Entry>, k: int, s: nat, s': nat)
    requires Unique(db) && Unique(db')
    requires forall e :: (e in db && IsVisible(e, k, s)) <==> (e in db' && IsVisible(e, k, s'))
    ensures Read(db, k, s) == Read(db', k, s')
  {
    assert forall e :: Newest(db, k, s, e) <==> Newest(db', k, s', e);
    if e :| Newest(db, k, s, e) {
      ReadNewest(db, k, s, e);
      ReadNewest(db', k, s', e);
    }
  }
}
