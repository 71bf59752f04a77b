// The bytes of internal keys and memtable entries, and how short the keys of an index can be made.
module KeyBytes {
  import opened Options
  import opened ByteStrings
  import opened Wire
  import opened KeyFormat
  import MemTable
  import E = Entries

  // ---- Layout ----

  // The user key, one byte for the type, and the sequence number in seven bytes, the lowest first
  lemma InternalKeyBytes(k: ParsedKey)
    requires k.Valid()
    ensures var b, n := AppendInternalKey(k), |k.userKey|;
            && |b| == n + 8 && b[..n] == k.userKey
            && b[n] == (if k.kind.Value? then 1 else 0)
            && LittleEndian(b[n + 1..]) == k.sequence
  {
    var b, n := AppendInternalKey(k), |k.userKey|;
    var tail := Fixed64(k.Tag());
    Fixed64Means(k.Tag());
    assert b[n..] == tail && b[n + 1..] == tail[1..];
    LowByte(tail, k.sequence, if k.kind.Value? then 1 else 0);
  }

  lemma LowByte(b: Bytes, high: nat, low: nat)
    requires b != [] && low < 0x100 && LittleEndian(b) == 0x100 * high + low
    ensures b[0] == low && LittleEndian(b[1..]) == high
  {
  }

  // A memtable entry: the length of the internal key as a varint and the key, the length of the value and the value
  lemma EntryBytes(e: MemTable.Entry) returns (m: nat, n: nat)
    requires e.Valid()
    ensures var b, size := MemTable.Encode(e), |e.key.userKey| + 8;
            && m + size + n + |e.value| == |b|
            && IsVarint(b[..m]) && VarintValue(b[..m]) == size && b[m..m + size] == AppendInternalKey(e.key)
            && IsVarint(b[m + size..m + size + n]) && VarintValue(b[m + size..m + size + n]) == |e.value|
            && b[m + size + n..] == e.value
  {
    var key := AppendInternalKey(e.key);
    m, n := |Varint(|key|)|, |Varint(|e.value|)|;
    VarintMeans(|key|);
    VarintMeans(|e.value|);
    FourPieces(Varint(|key|), key, Varint(|e.value|), e.value);
  }

  lemma FourPieces(a: Bytes, b: Bytes, c: Bytes, d: Bytes)
    ensures var s := a + b + (c + d);
            && |s| == |a| + |b| + |c| + |d| && s[..|a|] == a && s[|a|..|a| + |b|] == b
            && s[|a| + |b|..|a| + |b| + |c|] == c && s[|a| + |b| + |c|..] == d
  {
  }

  // The lookup key for a sequence number comes before every entry of the user key it may see, and after those
  // it may not
  lemma LookupKeyFirst(user: Bytes, s: nat, k: ParsedKey)
    requires s <= MAX_SEQUENCE && k.Valid() && k.userKey == user
    ensures MemTable.EarlierKey(k, MemTable.LookupKey(user, s)) <==> k.sequence > s
  {
    LessTotal(user, user);
  }

  // ---- No shorter key does ----

  // In front of where two keys part, any key between them has their bytes
  lemma {:induction false} BetweenShares(start: Bytes, t: Bytes, limit: Bytes, n: nat)
    requires n <= |start| && n <= |limit| && start[..n] == limit[..n] && Less(start, t) && Less(t, limit)
    ensures n <= |t| && t[..n] == start[..n]
  {
    if n > 0 {
      assert start[0] == start[..n][0] == limit[..n][0] == limit[0];
      assert start[1..][..n - 1] == start[..n][1..] && limit[1..][..n - 1] == limit[..n][1..];
      BetweenShares(start[1..], t[1..], limit[1..], n - 1);
      assert t[..n] == [t[0]] + t[1..][..n - 1] && start[..n] == [start[0]] + start[1..][..n - 1];
    }
  }

  // The separator is one of the shortest keys between the two
  lemma NoShorterSeparator(start: Bytes, t: Bytes, limit: Bytes)
    requires CommonPrefix(start, limit) < |start| && Less(start, t) && Less(t, limit)
    ensures |t| >= CommonPrefix(start, limit) + 1
  {
    var n := CommonPrefix(start, limit);
    BetweenShares(start, t, limit, n);
    if |t| == n {
      assert t == start[..n];
      PrefixNotAfter(start, n);
    }
  }

  lemma {:induction false} PrefixNotAfter(b: Bytes, n: nat)
    requires n <= |b|
    ensures !Less(b, b[..n])
  {
    if n > 0 {
      PrefixNotAfter(b[1..], n - 1);
      assert b[..n][1..] == b[1..][..n - 1];
    }
  }

  // And the successor one of the shortest keys after it
  lemma {:induction false} NoShorterSuccessor(key: Bytes, t: Bytes)
    requires Less(key, t)
    ensures |t| >= Ones(key) + 1
  {
    if Ones(key) > 0 {
      NoShorterSuccessor(key[1..], t[1..]);
    }
  }
}
