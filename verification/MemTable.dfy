// MemTable: entries encoded in one buffer each, kept in the order of their internal keys.
module MemTable {
  import opened ByteStrings
  import opened Wire
  import opened KeyFormat
  import E = Entries

  datatype Entry = Entry(key: ParsedKey, value: Bytes)
  {
    predicate Valid() {
      key.Valid() && |key.userKey| + 8 < TWO32 && |value| < TWO32
    }
  }

  // ---- Length-prefixed slices ----

  // GetVarint32Ptr: at most five bytes
  function GetVarint32(p: Bytes, shift: nat, result: nat): Parsed<nat>
    decreases |p|
  {
    if shift > 28 || p == [] then Fail
    else if p[0] >= 0x80 then GetVarint32(p[1..], shift + 7, (result + Shl(p[0] - 0x80, shift)) % TWO32)
    else Ok((result + Shl(p[0], shift)) % TWO32, p[1..])
  }

  lemma {:induction false} Varint32Back(n: nat, m: nat, k: nat, r: nat, rest: Bytes)
    requires k <= 4 && r < Shl(1, 7 * k) && n == r + Shl(m, 7 * k) && n < TWO32
    ensures GetVarint32(Varint(m) + rest, 7 * k, r) == Ok(n, rest)
    decreases m
  {
    FirstByte(m, rest);
    if m >= 0x80 {
      Advance(m, k, r);
      if k == 4 {
        Shl28(m);
        assert false;
      }
      Turn(Varint(m) + rest, 7 * k, r, m % 0x80, r + Shl(m % 0x80, 7 * k));
      Varint32Back(n, m / 0x80, k + 1, r + Shl(m % 0x80, 7 * k), rest);
    } else {
      End(Varint(m) + rest, 7 * k, r, n);
    }
  }

  lemma Turn(p: Bytes, shift: nat, r: nat, low: nat, r': nat)
    requires shift <= 28 && p != [] && p[0] == 0x80 + low && low < 0x80 && r' == r + Shl(low, shift) && r' < TWO32
    ensures GetVarint32(p, shift, r) == GetVarint32(p[1..], shift + 7, r')
  {
  }

  lemma End(p: Bytes, shift: nat, r: nat, n: nat)
    requires shift <= 28 && p != [] && p[0] < 0x80 && n == r + Shl(p[0], shift) && n < TWO32
    ensures GetVarint32(p, shift, r) == Ok(n, p[1..])
  {
  }

  function Prefixed(b: Bytes): Bytes {
    Varint(|b|) + b
  }

  // GetLengthPrefixedSlice, and what follows it
  function GetPrefixed(p: Bytes): Parsed<Bytes> {
    match GetVarint32(p, 0, 0)
    case Fail => Fail
    case Ok(n, rest) => if n > |rest| then Fail else Ok(rest[..n], rest[n..])
  }

  lemma PrefixedBack(b: Bytes, rest: Bytes)
    requires |b| < TWO32
    ensures GetPrefixed(Prefixed(b) + rest) == Ok(b, rest)
  {
    assert Prefixed(b) + rest == Varint(|b|) + (b + rest);
    Varint32Back(|b|, |b|, 0, 0, b + rest);
    assert (b + rest)[..|b|] == b && (b + rest)[|b|..] == rest;
  }

  // ---- Entries in the arena ----

  // MemTable::Add's layout
  function Encode(e: Entry): Bytes
    requires e.Valid()
  {
    Prefixed(AppendInternalKey(e.key)) + Prefixed(e.value)
  }

  lemma EncodedParts(e: Entry)
    requires e.Valid()
    ensures GetPrefixed(Encode(e)) == Ok(AppendInternalKey(e.key), Prefixed(e.value))
    ensures GetPrefixed(Prefixed(e.value)) == Ok(e.value, [])
  {
    PrefixedBack(AppendInternalKey(e.key), Prefixed(e.value));
    assert Prefixed(e.value) == Prefixed(e.value) + [];
    PrefixedBack(e.value, []);
  }

  // LookupKey: the memtable key is an entry's key with the largest tag at its sequence
  function LookupKey(user: Bytes, s: nat): ParsedKey {
    ParsedKey(user, s, E.Value)
  }

  function MemtableKey(k: ParsedKey): Bytes
    requires k.Valid()
  {
    Prefixed(AppendInternalKey(k))
  }

  // MemTable::KeyComparator
  predicate BeforeKey(a: Bytes, b: Bytes) {
    var x, y := GetPrefixed(a), GetPrefixed(b);
    x.Ok? && y.Ok? && |x.value| >= 8 && |y.value| >= 8 && KeyFormat.Before(x.value, y.value)
  }

  predicate EarlierKey(a: ParsedKey, b: ParsedKey) {
    Less(a.userKey, b.userKey) || (a.userKey == b.userKey && a.Tag() > b.Tag())
  }

  lemma KeysCompare(e: Entry, k: ParsedKey)
    requires e.Valid() && k.Valid() && |k.userKey| + 8 < TWO32
    ensures BeforeKey(Encode(e), MemtableKey(k)) <==> EarlierKey(e.key, k)
  {
    EncodedParts(e);
    assert MemtableKey(k) == MemtableKey(k) + [];
    PrefixedBack(AppendInternalKey(k), []);
    TagBack(e.key.userKey, e.key.Tag());
    TagBack(k.userKey, k.Tag());
  }

  // ---- The table ----

  datatype Answer = NotHere | Deleted | Found(value: Bytes)

  predicate Visible(e: Entry, user: Bytes, s: nat) {
    e.key.userKey == user && e.key.sequence <= s
  }

  // The newest visible entry, if there is one, answers
  ghost predicate Answers(es: seq<Entry>, user: Bytes, s: nat, a: Answer) {
    if a.NotHere? then forall e :: e in es ==> !Visible(e, user, s)
    else exists e :: e in es && Visible(e, user, s) && (forall f :: f in es && Visible(f, user, s) ==> f.key.sequence <= e.key.sequence) &&
                     a == if e.key.kind.Value? then Found(e.value) else Deleted
  }

  ghost predicate Ascending(es: seq<Entry>) {
    forall i, j :: 0 <= i < j < |es| ==> EarlierKey(es[i].key, es[j].key)
  }

  ghost predicate Encoded(table: seq<Bytes>, es: seq<Entry>) {
    |table| == |es| && forall i :: 0 <= i < |es| ==> es[i].Valid() && table[i] == Encode(es[i])
  }

  lemma EarlierTransitive(a: ParsedKey, b: ParsedKey, c: ParsedKey)
    ensures EarlierKey(a, b) && EarlierKey(b, c) ==> EarlierKey(a, c)
    ensures !(EarlierKey(a, b) && EarlierKey(b, a))
    ensures !EarlierKey(a, b) && !EarlierKey(b, a) ==> a.userKey == b.userKey && a.Tag() == b.Tag()
  {
    if Less(a.userKey, b.userKey) && Less(b.userKey, c.userKey) {
      LessTransitive(a.userKey, b.userKey, c.userKey);
    }
    LessTotal(a.userKey, b.userKey);
  }

  // The position of a lookup key decides the answer
  lemma Decides(es: seq<Entry>, user: Bytes, s: nat, p: nat)
    requires Ascending(es) && p <= |es|
    requires forall i :: 0 <= i < p ==> EarlierKey(es[i].key, LookupKey(user, s))
    requires p < |es| ==> !EarlierKey(es[p].key, LookupKey(user, s))
    ensures p < |es| && es[p].key.userKey == user ==>
              Answers(es, user, s, if es[p].key.kind.Value? then Found(es[p].value) else Deleted)
    ensures p == |es| || es[p].key.userKey != user ==> Answers(es, user, s, NotHere)
  {
    forall i | 0 <= i < |es| && Visible(es[i], user, s)
      ensures p <= i && p < |es| && es[p].key.userKey == user && es[i].key.sequence <= es[p].key.sequence
    {
      LessTotal(user, user);
      if p < i {
        EarlierTransitive(es[p].key, LookupKey(user, s), es[i].key);
        LessTotal(es[p].key.userKey, user);
      }
    }
  }

  // e has been put somewhere among es
  ghost predicate Among(es: seq<Entry>, es': seq<Entry>, e: Entry) {
    exists a, b :: es == a + b && es' == a + [e] + b
  }

  lemma AmongAt(es: seq<Entry>, p: nat, e: Entry)
    requires p <= |es|
    ensures Among(es, es[..p] + [e] + es[p..], e)
  {
    assert es == es[..p] + es[p..];
  }

  lemma EntryRead(e: Entry)
    requires e.Valid()
    ensures GetPrefixed(Encode(e)) == Ok(AppendInternalKey(e.key), Prefixed(e.value))
    ensures ExtractUserKey(AppendInternalKey(e.key)) == e.key.userKey
    ensures ExtractTag(AppendInternalKey(e.key)) % 0x100 == if e.key.kind.Value? then 1 else 0
    ensures GetPrefixed(Prefixed(e.value)) == Ok(e.value, [])
  {
    EncodedParts(e);
    TagKind(e.key);
  }

  lemma TagKind(k: ParsedKey)
    requires k.Valid()
    ensures ExtractUserKey(AppendInternalKey(k)) == k.userKey
    ensures ExtractTag(AppendInternalKey(k)) % 0x100 == if k.kind.Value? then 1 else 0
  {
    TagBack(k.userKey, k.Tag());
    LowByte(k.sequence, if k.kind.Value? then 1 else 0);
  }

  lemma LowByte(s: nat, t: nat)
    requires t < 2
    ensures (256 * s + t) % 0x100 == t
  {
  }

  // The layout of Add
  lemma Layout(e: Entry)
    requires e.Valid()
    ensures Varint(|e.key.userKey| + 8) + AppendInternalKey(e.key) + Varint(|e.value|) + e.value == Encode(e)
  {
  }

  class Memtable {
    var table: seq<Bytes>
    ghost var entries: seq<Entry>

    ghost predicate Valid()
      reads this
    {
      Encoded(table, entries) && Ascending(entries)
    }

    constructor ()
      ensures Valid() && entries == []
    {
      table, entries := [], [];
    }

    // The skip list's Seek: the first entry not before the key
    method Seek(k: ParsedKey) returns (p: nat)
      requires Valid() && k.Valid() && |k.userKey| + 8 < TWO32
      ensures p <= |entries|
      ensures forall i :: 0 <= i < p ==> EarlierKey(entries[i].key, k)
      ensures p < |entries| ==> !EarlierKey(entries[p].key, k)
    {
      p := 0;
      var memkey := MemtableKey(k);
      while p < |table|
        invariant p <= |entries| && forall i :: 0 <= i < p ==> EarlierKey(entries[i].key, k)
      {
        KeysCompare(entries[p], k);
        if !BeforeKey(table[p], memkey) {
          return;
        }
        p := p + 1;
      }
    }

    // Every operation of every batch has its own sequence number, so the key is new
    method Add(sequence: nat, kind: E.ValueType, user: Bytes, value: Bytes)
      requires Valid() && Entry(ParsedKey(user, sequence, kind), value).Valid()
      requires forall e :: e in entries ==> e.key.sequence != sequence
      modifies this
      ensures Valid() && Among(old(entries), entries, Entry(ParsedKey(user, sequence, kind), value))
    {
      var key := ParsedKey(user, sequence, kind);
      var buf := Varint(|user| + 8) + AppendInternalKey(key) + Varint(|value|) + value;
      Layout(Entry(key, value));
      var p := Seek(key);
      Inserted(entries, p, Entry(key, value));
      AmongAt(entries, p, Entry(key, value));
      table := table[..p] + [buf] + table[p..];
      entries := entries[..p] + [Entry(key, value)] + entries[p..];
    }

    method Get(user: Bytes, s: nat) returns (a: Answer)
      requires Valid() && s <= MAX_SEQUENCE && |user| + 8 < TWO32
      ensures Answers(entries, user, s, a)
    {
      var p := Seek(LookupKey(user, s));
      Decides(entries, user, s, p);
      if p < |table| {
        EntryRead(entries[p]);
        var Ok(key, rest) := GetPrefixed(table[p]);
        if ExtractUserKey(key) == user {
          if ExtractTag(key) % 0x100 == 1 {
            var Ok(value, _) := GetPrefixed(rest);
            return Found(value);
          }
          return Deleted;
        }
      }
      return NotHere;
    }
  }

  lemma Inserted(es: seq<Entry>, p: nat, e: Entry)
    requires Ascending(es) && p <= |es|
    requires forall i :: 0 <= i < p ==> EarlierKey(es[i].key, e.key)
    requires p < |es| ==> !EarlierKey(es[p].key, e.key)
    requires forall f :: f in es ==> f.key.sequence != e.key.sequence
    ensures Ascending(es[..p] + [e] + es[p..])
  {
    var es' := es[..p] + [e] + es[p..];
    forall i | p <= i < |es| ensures EarlierKey(e.key, es[i].key) {
      EarlierTransitive(e.key, es[p].key, es[i].key);
      EarlierTransitive(es[p].key, e.key, e.key);
      assert es[p] in es;
    }
    forall i, j | 0 <= i < j < |es'| ensures EarlierKey(es'[i].key, es'[j].key) {
      assert i < p ==> es'[i] == es[i];
      assert j > p ==> es'[j] == es[j - 1];
      assert i > p ==> es'[i] == es[i - 1];
    }
  }
}
