// Internal keys as bytes: a user key, then sequence number and type packed into eight bytes. Varints and
// fixed-width integers have the form Wire describes.
module KeyFormat {
  import opened Options
  import opened ByteStrings
  import opened Wire
  import E = Entries

  const MAX_SEQUENCE: nat := E.MAX_SEQUENCE

  datatype ParsedKey = ParsedKey(userKey: Bytes, sequence: nat, kind: E.ValueType)
  {
    predicate Valid() {
      sequence <= MAX_SEQUENCE
    }
    function Tag(): nat {
      E.Tag(sequence, kind)
    }
  }

  // PackSequenceAndType and AppendInternalKey
  function AppendInternalKey(k: ParsedKey): (b: Bytes)
    requires k.Valid()
    ensures |b| == |k.userKey| + 8
  {
    k.userKey + Fixed64(k.Tag())
  }

  function ExtractUserKey(b: Bytes): Bytes
    requires |b| >= 8
  {
    b[..|b| - 8]
  }

  function ExtractTag(b: Bytes): nat
    requires |b| >= 8
  {
    DecodeFixed32(b[|b| - 8..|b| - 4]) + TWO32 * DecodeFixed32(b[|b| - 4..])
  }

  function ParseInternalKey(b: Bytes): Option<ParsedKey> {
    if |b| < 8 then None
    else
      var num := ExtractTag(b);
      var c := num % 0x100;
      if c > 1 then None
      else Some(ParsedKey(ExtractUserKey(b), num / 0x100, if c == 1 then E.Value else E.Deletion))
  }

  lemma TagBack(user: Bytes, tag: nat)
    requires tag < TWO64
    ensures ExtractUserKey(user + Fixed64(tag)) == user && ExtractTag(user + Fixed64(tag)) == tag
  {
    var b := user + Fixed64(tag);
    DecodeEncodeFixed32(tag % TWO32);
    DecodeEncodeFixed32(tag / TWO32);
    assert b[|b| - 8..|b| - 4] == EncodeFixed32(tag % TWO32) && b[|b| - 4..] == EncodeFixed32(tag / TWO32);
  }

  lemma ParseBack(k: ParsedKey)
    requires k.Valid()
    ensures ParseInternalKey(AppendInternalKey(k)) == Some(k)
  {
    TagBack(k.userKey, k.Tag());
  }

  lemma Fixed32Back(b: Bytes)
    requires |b| == 4
    ensures EncodeFixed32(DecodeFixed32(b)) == b
  {
    var v := DecodeFixed32(b);
    assert v % 0x100 == b[0] && v / 0x100 == b[1] as int + 0x100 * (b[2] as int + 0x100 * (b[3] as int));
  }

  // What parses is the encoding of what it parses to
  lemma ParsedIsEncoded(b: Bytes)
    requires ParseInternalKey(b).Some?
    ensures ParseInternalKey(b).value.Valid() && AppendInternalKey(ParseInternalKey(b).value) == b
  {
    var k := ParseInternalKey(b).value;
    var lo, hi := b[|b| - 8..|b| - 4], b[|b| - 4..];
    Fixed32Back(lo);
    Fixed32Back(hi);
    assert k.Tag() == ExtractTag(b);
    assert k.Tag() % TWO32 == DecodeFixed32(lo) && k.Tag() / TWO32 == DecodeFixed32(hi);
    assert b == b[..|b| - 8] + (lo + hi);
  }

  // ---- Order ----

  // BytewiseComparator
  predicate Less(a: Bytes, b: Bytes) {
    b != [] && (a == [] || a[0] < b[0] || (a[0] == b[0] && Less(a[1..], b[1..])))
  }

  lemma {:induction false} LessTotal(a: Bytes, b: Bytes)
    ensures Less(a, b) || Less(b, a) || a == b
    ensures !(Less(a, b) && Less(b, a)) && !Less(a, a)
  {
    if a != [] && b != [] {
      LessTotal(a[1..], b[1..]);
      assert a == [a[0]] + a[1..] && b == [b[0]] + b[1..];
    }
    if a != [] {
      LessTotal(a[1..], a[1..]);
    }
  }

  lemma {:induction false} LessTransitive(a: Bytes, b: Bytes, c: Bytes)
    requires Less(a, b) && Less(b, c)
    ensures Less(a, c)
  {
    if a != [] && a[0] == b[0] && b[0] == c[0] {
      LessTransitive(a[1..], b[1..], c[1..]);
    }
  }

  // InternalKeyComparator::Compare: user keys increasing, then tags decreasing
  predicate Before(a: Bytes, b: Bytes)
    requires |a| >= 8 && |b| >= 8
  {
    Less(ExtractUserKey(a), ExtractUserKey(b)) ||
    (ExtractUserKey(a) == ExtractUserKey(b) && ExtractTag(a) > ExtractTag(b))
  }

  // Any ranking of the user keys that keeps their order turns internal keys into entries in their order
  lemma RanksAgree(a: ParsedKey, b: ParsedKey, rank: Bytes -> int, v: string, w: string)
    requires a.Valid() && b.Valid()
    requires Less(a.userKey, b.userKey) <==> rank(a.userKey) < rank(b.userKey)
    requires Less(b.userKey, a.userKey) <==> rank(b.userKey) < rank(a.userKey)
    ensures Before(AppendInternalKey(a), AppendInternalKey(b)) <==>
            E.Before(E.Entry(rank(a.userKey), a.sequence, a.kind, v), E.Entry(rank(b.userKey), b.sequence, b.kind, w))
  {
    TagBack(a.userKey, a.Tag());
    TagBack(b.userKey, b.Tag());
    LessTotal(a.userKey, b.userKey);
  }

  // ---- Shortening keys ----

  function CommonPrefix(a: Bytes, b: Bytes): (n: nat)
    ensures n <= |a| && n <= |b| && a[..n] == b[..n]
    ensures n < |a| && n < |b| ==> a[n] != b[n]
  {
    if a == [] || b == [] || a[0] != b[0] then 0
    else
      var n := CommonPrefix(a[1..], b[1..]);
      assert a[..n + 1] == [a[0]] + a[1..][..n] && b[..n + 1] == [b[0]] + b[1..][..n];
      n + 1
  }

  lemma {:induction false} LessAt(a: Bytes, b: Bytes, n: nat)
    requires n <= |a| && n < |b| && a[..n] == b[..n] && (n == |a| || a[n] < b[n])
    ensures Less(a, b)
  {
    if n > 0 {
      assert a[0] == a[..n][0] == b[..n][0] == b[0];
      assert a[1..][..n - 1] == a[..n][1..] && b[1..][..n - 1] == b[..n][1..];
      LessAt(a[1..], b[1..], n - 1);
    }
  }

  // The first byte that differs leaves room for one in between
  predicate Shortens(start: Bytes, limit: Bytes) {
    var i := CommonPrefix(start, limit);
    i < |start| && i < |limit| && start[i] as int + 1 < limit[i] as int
  }

  lemma {:induction false} CommonPrefixIs(a: Bytes, b: Bytes, n: nat)
    requires n <= |a| && n <= |b| && a[..n] == b[..n] && (n == |a| || n == |b| || a[n] != b[n])
    ensures CommonPrefix(a, b) == n
  {
    if n > 0 {
      assert a[0] == a[..n][0] == b[..n][0] == b[0];
      assert a[1..][..n - 1] == a[..n][1..] && b[1..][..n - 1] == b[..n][1..];
      CommonPrefixIs(a[1..], b[1..], n - 1);
    }
  }

  // BytewiseComparator::FindShortestSeparator
  method ShortestSeparator(start: Bytes, limit: Bytes) returns (s: Bytes)
    ensures s != start <==> Shortens(start, limit)
    ensures s != start ==> |s| == CommonPrefix(start, limit) + 1 && |s| <= |start| && Less(start, s) && Less(s, limit)
  {
    s := start;
    var minLength := if |start| < |limit| then |start| else |limit|;
    var i := 0;
    while i < minLength && start[i] == limit[i]
      invariant 0 <= i <= minLength && start[..i] == limit[..i]
    {
      i := i + 1;
    }
    CommonPrefixIs(start, limit, i);
    if i < minLength {
      var diff: int := start[i];
      if diff < 0xff && diff + 1 < limit[i] as int {
        s := start[..i] + [diff + 1];
        assert s[..i] == start[..i] && s[i] != start[i];
        LessAt(start, s, i);
        LessAt(s, limit, i);
      }
    }
  }

  // How many bytes of all ones the key begins with
  function Ones(key: Bytes): (n: nat)
    ensures n <= |key| && (forall i :: 0 <= i < n ==> key[i] == 0xff) && (n < |key| ==> key[n] != 0xff)
  {
    if key == [] || key[0] != 0xff then 0 else 1 + Ones(key[1..])
  }

  // BytewiseComparator::FindShortSuccessor
  method ShortSuccessor(key: Bytes) returns (s: Bytes)
    ensures s != key <==> Ones(key) < |key|
    ensures s != key ==> |s| == Ones(key) + 1 && |s| <= |key| && Less(key, s)
  {
    s := key;
    var i := 0;
    while i < |key|
      invariant 0 <= i <= |key| && forall k :: 0 <= k < i ==> key[k] == 0xff
    {
      var b: int := key[i];
      if b != 0xff {
        s := key[..i] + [b + 1];
        assert s[..i] == key[..i] && s[i] != key[i];
        LessAt(key, s, i);
        return;
      }
      i := i + 1;
    }
  }

  function Earliest(user: Bytes): Bytes {
    user + Fixed64(256 * MAX_SEQUENCE + 1)
  }

  // InternalKeyComparator::FindShortestSeparator: the separator lies between, as a table's index needs
  method FindShortestSeparator(start: Bytes, limit: Bytes) returns (s: Bytes)
    requires |start| >= 8 && |limit| >= 8
    ensures |s| >= 8 && |s| <= |start| && (s == start || (Before(start, s) && Before(s, limit)))
    ensures var x, y := ExtractUserKey(start), ExtractUserKey(limit);
            s != start <==> Shortens(x, y) && CommonPrefix(x, y) + 1 < |x|
    ensures s != start ==> |s| == CommonPrefix(ExtractUserKey(start), ExtractUserKey(limit)) + 9
  {
    var userStart, userLimit := ExtractUserKey(start), ExtractUserKey(limit);
    var tmp := ShortestSeparator(userStart, userLimit);
    s := start;
    if |tmp| < |userStart| && Less(userStart, tmp) {
      s := Earliest(tmp);
      TagBack(tmp, 256 * MAX_SEQUENCE + 1);
    }
  }

  method FindShortSuccessor(key: Bytes) returns (s: Bytes)
    requires |key| >= 8
    ensures |s| >= 8 && |s| <= |key| && (s == key || Before(key, s))
    ensures s != key <==> Ones(ExtractUserKey(key)) + 1 < |ExtractUserKey(key)|
    ensures s != key ==> |s| == Ones(ExtractUserKey(key)) + 9
  {
    var user := ExtractUserKey(key);
    var tmp := ShortSuccessor(user);
    s := key;
    if |tmp| < |user| && Less(user, tmp) {
      s := Earliest(tmp);
      TagBack(tmp, 256 * MAX_SEQUENCE + 1);
    }
  }
}
