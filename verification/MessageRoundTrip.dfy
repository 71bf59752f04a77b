// Decoding an encoded message gives it back, up to the values of absent fields.
module MessageRoundTrip {
  import opened Options
  import opened ByteStrings
  import opened Wire
  import opened Messages
  import opened Decoding

  // ---- Values without fields of their own ----

  lemma SignedBack(n: int)
    requires -TWO63 <= n < TWO63
    ensures Signed64(n % TWO64) == n
    ensures -TWO31 <= n < TWO31 ==> ToInt32(n % TWO64) == n
  {
    var u := n % TWO64;
    assert u == if n < 0 then n + TWO64 else n;
    if -TWO31 <= n < TWO31 {
      assert u % TWO32 == if n < 0 then n + TWO32 else n;
    }
  }

  lemma IntRoundTrip(n: int, size: nat, rest: Bytes)
    requires size == 1 || size == 2 || size == 4 || size == 8
    requires InSigned(n, size)
    ensures ParseScalar(Int(size), Varint(n % TWO64) + rest) == Ok(Number(n), rest)
  {
    IntRange(n, size);
    SignedBack(n);
    VarintRoundTrip(n % TWO64, rest);
  }

  lemma UIntRoundTrip(n: int, size: nat, rest: Bytes)
    requires size == 1 || size == 2 || size == 4 || size == 8
    requires InUnsigned(n, size)
    ensures n >= 0 && ParseScalar(UInt(size), Varint(n) + rest) == Ok(Number(n), rest) && n % TWO64 == n
  {
    UIntRange(n, size);
    VarintRoundTrip(n, rest);
  }

  lemma SIntRoundTrip(n: int, size: nat, rest: Bytes)
    requires size == 1 || size == 2 || size == 4 || size == 8
    requires InSigned(n, size)
    ensures -TWO63 <= n < TWO63 && ParseScalar(SInt(size), Varint(ZigZag(n)) + rest) == Ok(Number(n), rest)
  {
    IntRange(n, size);
    ZigZagRoundTrip(n);
    VarintRoundTrip(ZigZag(n), rest);
  }

  lemma BoolRoundTrip(n: nat, rest: Bytes)
    requires n < 2
    ensures ParseScalar(Bool, Varint(n) + rest) == Ok(Number(n), rest)
  {
    Varint32Small(n, rest);
  }

  lemma Fix32RoundTrip(n: nat, rest: Bytes)
    requires n < TWO32
    ensures n % TWO32 == n && ParseScalar(Fix32, EncodeFixed32(n) + rest) == Ok(Number(n), rest)
  {
    Fixed32RoundTrip(n, rest);
  }

  lemma Fix64RoundTrip(n: nat, rest: Bytes)
    requires n < TWO64
    ensures n % TWO64 == n && ParseScalar(Fix64, Fixed64(n) + rest) == Ok(Number(n), rest)
  {
    Fixed64RoundTrip(n, rest);
  }

  lemma ScalarRoundTrip(kind: Kind, v: Value, rest: Bytes)
    requires kind.Packable() && WellFormedKind(kind) && Fits(kind, v)
    ensures ParseScalar(kind, EncodeScalar(kind, v) + rest) == Ok(v, rest)
  {
    match kind
    case Bool => BoolRoundTrip(v.n, rest);
    case Int(size) => IntRoundTrip(v.n, size, rest);
    case UInt(size) => UIntRoundTrip(v.n, size, rest);
    case SInt(size) => SIntRoundTrip(v.n, size, rest);
    case Fix32 => Fix32RoundTrip(v.n, rest);
    case Fix64 => Fix64RoundTrip(v.n, rest);
  }

  lemma Assoc(a: Bytes, b: Bytes, c: Bytes)
    ensures a + b + c == a + (b + c)
  {
  }

  lemma Cut(a: Bytes, b: Bytes)
    ensures (a + b)[..|a|] == a && (a + b)[|a|..] == b
  {
  }

  lemma StringRoundTrip(b: Bytes, rest: Bytes)
    requires |b| < TWO32
    ensures ParseVarint32(Varint(|b|) + b + rest) == Ok(|b|, b + rest)
    ensures ParseString(Varint(|b|) + b + rest) == Ok(b, rest)
  {
    Assoc(Varint(|b|), b, rest);
    Varint32Small(|b|, b + rest);
    Cut(b, rest);
  }

  lemma RawRoundTrip(kind: Kind, v: Value, rest: Bytes)
    requires kind.Blob? || kind.Text? || kind.FixedBlob?
    requires Fits(kind, v)
    ensures ParseRaw(kind, EncodeValue(kind, v) + rest) == Ok(v, rest)
  {
    var b := v.bytes;
    WithoutNul(b);
    StringRoundTrip(b, rest);
    Cut(b, rest);
    if kind.FixedBlob? && |b| == 0 {
      assert b == Zeros(kind.size);
    }
  }

  // ---- Packed arrays ----

  function PackedFrom(kind: Kind, values: seq<Value>, k: nat): Bytes
    requires k <= |values| && kind.Packable()
    decreases |values| - k
  {
    if k == |values| then [] else EncodeScalar(kind, values[k]) + PackedFrom(kind, values, k + 1)
  }

  lemma {:induction false} PackedSplit(kind: Kind, values: seq<Value>, k: nat)
    requires k <= |values| && kind.Packable()
    ensures PackedBody(kind, values, |values|) == PackedBody(kind, values, k) + PackedFrom(kind, values, k)
    decreases |values| - k
  {
    if k < |values| {
      PackedSplit(kind, values, k + 1);
      Assoc(PackedBody(kind, values, k), EncodeScalar(kind, values[k]), PackedFrom(kind, values, k + 1));
    }
  }

  lemma {:induction false} PackedRoundTrip(kind: Kind, values: seq<Value>, k: nat, max: nat)
    requires kind.Packable() && WellFormedKind(kind) && k <= |values| <= max
    requires forall x :: k <= x < |values| ==> Fits(kind, values[x])
    ensures ParsePacked(kind, PackedFrom(kind, values, k), values[..k], max) == Some(values)
    decreases |values| - k
  {
    if k == |values| {
      assert values[..k] == values;
    } else {
      ScalarRoundTrip(kind, values[k], PackedFrom(kind, values, k + 1));
      assert values[..k] + [values[k]] == values[..k + 1];
      PackedRoundTrip(kind, values, k + 1, max);
      ScalarNotEmpty(kind, values[k]);
    }
  }

  lemma ScalarNotEmpty(kind: Kind, v: Value)
    requires kind.Packable() && WellFormedKind(kind) && Fits(kind, v)
    ensures EncodeScalar(kind, v) != []
  {
    ScalarRoundTrip(kind, v, []);
  }

  // ---- Keys ----

  lemma KeyRoundTrip(tag: nat, wireType: nat, body: Bytes)
    requires 0 < tag < 0x2000_0000 && wireType < 8
    ensures ParseVarint32(Tag(tag, wireType) + body) == Ok(8 * tag + wireType, body)
    ensures Tag(tag, wireType) + body != []
  {
    Varint32Small(8 * tag + wireType, body);
  }

  lemma LoopTurn(fields: seq<Field>, p: Progress, tag: nat, wireType: nat, body: Bytes)
    requires Decoding.Holds(fields, p) && 0 < tag < 0x2000_0000 && wireType < 8
    ensures var t := Turn(fields, p, tag, wireType, body);
            DecodeLoop(fields, p, Tag(tag, wireType) + body) ==
            if t.Ok? then DecodeLoop(fields, t.value, t.rest) else Option.None
  {
    KeyRoundTrip(tag, wireType, body);
    assert (8 * tag + wireType) / 8 == tag && (8 * tag + wireType) % 8 == wireType;
  }

  predicate DistinctTags(fields: seq<Field>) {
    forall i, j :: 0 <= i < j < |fields| ==> fields[i].tag != fields[j].tag
  }

  // The cyclic search finds a tag wherever it starts
  lemma {:induction false} SearchAll(fields: seq<Field>, pos: nat, i: nat, steps: nat)
    requires DistinctTags(fields) && pos < |fields| && i < |fields| && steps <= |fields|
    requires forall s: nat :: s < steps ==> Around(fields, pos, s) != i
    ensures Search(fields, pos, fields[i].tag, steps) == Some(i)
    decreases |fields| - steps
  {
    var s := if i >= pos then i - pos else i + |fields| - pos;
    assert s < |fields| && Around(fields, pos, s) == i;
    if steps < |fields| && Around(fields, pos, steps) != i {
      SearchAll(fields, pos, i, steps + 1);
    }
  }

  lemma TurnFinds(fields: seq<Field>, p: Progress, i: nat, wireType: nat, body: Bytes)
    requires Decoding.Holds(fields, p) && DistinctTags(fields) && i < |fields| && CanStart(fields, p, i)
    ensures Turn(fields, p, fields[i].tag, wireType, body) == TakeField(fields, Started(fields, p, i), i, wireType, body)
  {
    SearchAll(fields, p.pos, i, 0);
  }

  // ---- How far decoding has come ----

  ghost predicate RequiredSeen(fields: seq<Field>, i: nat, seen: set<nat>)
    requires i <= |fields|
  {
    forall j :: 0 <= j < i && fields[j].rule.Required? && RequiredBefore(fields, j) < PB_MAX_REQUIRED_FIELDS ==>
      RequiredBefore(fields, j) in seen
  }

  // The first i fields are m's, the others still have their defaults, and k elements of array i are in
  ghost predicate Upto(fields: seq<Field>, m: Value, i: nat, k: nat, p: Progress) {
    && Shaped(fields, m) && i <= |fields| && Decoding.Holds(fields, p) && Shaped(fields, p.m)
    && (forall j :: 0 <= j < i ==> SameSlot(fields[j], m, p.m, j))
    && (forall j :: i < j < |fields| ==> p.m.slots[j] == DefaultSlot(fields[j]))
    && (i < |fields| && k == 0 ==> p.m.slots[i] == DefaultSlot(fields[i]))
    && (i < |fields| && k > 0 ==> PartlyIn(fields[i], m, i, k, p.m))
    && RequiredSeen(fields, i, p.seen)
    && (p.fixed.Some? ==>
          (p.fixed.value < i && Received(fields[p.fixed.value], p.m, p.fixed.value)) ||
          (p.fixed.value == i < |fields| && fields[i].rule.FixedCount? && k > 0))
    && (i < |fields| && k > 0 && fields[i].rule.FixedCount? ==> p.fixed == Some(i))
  }

  ghost predicate PartlyIn(f: Field, m: Value, i: nat, k: nat, m': Value)
    requires m.Message? && m'.Message? && i < |m.slots| && i < |m'.slots|
  {
    var x, y := m.slots[i].values, m'.slots[i].values;
    && (f.rule.Repeated? || f.rule.FixedCount?) && !m'.slots[i].present
    && k == |y| <= |x| && forall j :: 0 <= j < k ==> SameValue(f.kind, x[j], y[j])
  }

  // A field that put nothing on the wire, or whose array is all in
  lemma FieldDone(fields: seq<Field>, m: Value, i: nat, k: nat, p: Progress)
    requires Upto(fields, m, i, k, p) && i < |fields|
    requires fields[i].rule.Repeated? || fields[i].rule.FixedCount?
    requires k == |m.slots[i].values| && (fields[i].rule.FixedCount? ==> k == fields[i].rule.count)
    ensures Upto(fields, m, i + 1, 0, p)
  {
    if k == 0 {
      assert p.m.slots[i].values == [];
    }
    assert SameSlot(fields[i], m, p.m, i);
  }

  // A value has been put in slot i
  lemma SlotDone(fields: seq<Field>, m: Value, i: nat, p: Progress, q: Progress, slot: Slot)
    requires Upto(fields, m, i, 0, p) && i < |fields|
    requires !fields[i].rule.Repeated? && !fields[i].rule.FixedCount? && |slot.values| == 1
    requires q == Started(fields, p, i).(m := SetSlot(p.m, i, slot))
    requires SameSlot(fields[i], m, q.m, i)
    ensures Upto(fields, m, i + 1, 0, q)
  {
    forall j | 0 <= j < i ensures SameSlot(fields[j], m, q.m, j) {
      SameAt(fields[j], m, p.m, q.m, j);
    }
  }

  // A field left out keeps its default
  lemma SlotKept(fields: seq<Field>, m: Value, i: nat, p: Progress)
    requires Upto(fields, m, i, 0, p) && i < |fields|
    requires !fields[i].rule.Repeated? && !fields[i].rule.FixedCount? && !fields[i].rule.Required?
    requires SameSlot(fields[i], m, p.m, i)
    ensures Upto(fields, m, i + 1, 0, p)
  {
  }

  lemma SameAt(f: Field, m: Value, a: Value, b: Value, j: nat)
    requires m.Message? && a.Message? && b.Message? && j < |m.slots| && j < |a.slots| && j < |b.slots|
    requires !f.rule.Repeated? && !f.rule.FixedCount? ==> |m.slots[j].values| == 1 && |a.slots[j].values| == 1
    requires SameSlot(f, m, a, j) && b.slots[j] == a.slots[j]
    ensures SameSlot(f, m, b, j)
  {
  }

  // No other member of the oneof is present, so choosing this one touches no other slot
  lemma ChooseAlone(fields: seq<Field>, m: Value, i: nat, p: Progress)
    requires Upto(fields, m, i, 0, p) && i < |fields| && fields[i].rule.Oneof? && m.slots[i].present
    requires FitsMessage(fields, m)
    ensures Choose(fields, p.m, i) == SetSlot(p.m, i, p.m.slots[i].(present := true))
  {
    forall j | 0 <= j < |fields| && j != i && fields[j].rule == fields[i].rule ensures !p.m.slots[j].present {
      if j < i {
        assert SameSlot(fields[j], m, p.m, j);
        assert !m.slots[j].present;
      }
    }
    assert Choose(fields, p.m, i).slots == p.m.slots[i := p.m.slots[i].(present := true)];
  }

  lemma {:induction false} DefaultSame(kind: Kind, v: Value)
    requires IsDefault(kind, v) && Fits(kind, v)
    ensures SameValue(kind, v, DefaultValue(kind))
    decreases v
  {
    match kind
    case FixedBlob(_) =>
      assert v.bytes == [] == Zeros(0);
    case Submessage(fs) =>
      var d := DefaultValue(kind);
      forall i | 0 <= i < |fs| ensures SameSlot(fs[i], v, d, i) {
        if fs[i].rule.Singular? {
          DefaultSame(fs[i].kind, v.slots[i].values[0]);
        }
      }
      assert SameMessage(fs, v, d);
    case _ =>
  }

  // ---- One field ----

  ghost predicate Ready(fields: seq<Field>, m: Value) {
    WellFormedKind(Submessage(fields)) && FitsMessage(fields, m)
  }

  // The decoder's turn on a field that is the next of m, given what its value decodes to
  lemma KeyTurn(fields: seq<Field>, m: Value, i: nat, k: nat, p: Progress, wireType: nat, body: Bytes)
    requires Ready(fields, m) && Upto(fields, m, i, k, p) && i < |fields| && wireType < 8
    ensures var t := TakeField(fields, Started(fields, p, i), i, wireType, body);
            DecodeLoop(fields, p, Tag(fields[i].tag, wireType) + body) ==
            if t.Ok? then DecodeLoop(fields, t.value, t.rest) else Option.None
  {
    LoopTurn(fields, p, fields[i].tag, wireType, body);
    TurnFinds(fields, p, i, wireType, body);
  }

  lemma StartedKeeps(fields: seq<Field>, m: Value, i: nat, p: Progress)
    requires Upto(fields, m, i, 0, p) && i < |fields| && !fields[i].rule.FixedCount?
    ensures Started(fields, p, i).m == p.m && p.m.slots[i] == DefaultSlot(fields[i])
  {
  }

  // A required, optional or proto3 field on the wire
  lemma SingleBack(fields: seq<Field>, m: Value, i: nat, p: Progress, w: Value, rest: Bytes) returns (q: Progress)
    requires Ready(fields, m) && Upto(fields, m, i, 0, p) && i < |fields|
    requires fields[i].rule.Required? || fields[i].rule.Singular? || (fields[i].rule.Optional? && m.slots[i].present)
    requires SameValue(fields[i].kind, m.slots[i].values[0], w)
    requires ParseValue(fields[i].kind, false, DefaultValue(fields[i].kind), EncodeValue(fields[i].kind, m.slots[i].values[0]) + rest)
             == Ok(w, rest)
    ensures Upto(fields, m, i + 1, 0, q)
    ensures DecodeLoop(fields, p, Tag(fields[i].tag, fields[i].kind.WireType()) + EncodeValue(fields[i].kind, m.slots[i].values[0]) + rest)
            == DecodeLoop(fields, q, rest)
  {
    var f, v := fields[i], m.slots[i].values[0];
    var slot := Slot(f.rule.Optional?, [w]);
    StartedKeeps(fields, m, i, p);
    q := Started(fields, p, i).(m := SetSlot(p.m, i, slot));
    assert q.m.slots[i] == slot;
    SlotDone(fields, m, i, p, q, slot);
    Assoc(Tag(f.tag, f.kind.WireType()), EncodeValue(f.kind, v), rest);
    KeyTurn(fields, m, i, 0, p, f.kind.WireType(), EncodeValue(f.kind, v) + rest);
    TakesSingle(fields, Started(fields, p, i), i, w, EncodeValue(f.kind, v) + rest, rest);
  }

  lemma TakesSingle(fields: seq<Field>, p: Progress, i: nat, w: Value, input: Bytes, rest: Bytes)
    requires Decoding.Holds(fields, p) && i < |fields| && p.m.slots[i] == Slot(false, [DefaultValue(fields[i].kind)])
    requires fields[i].rule.Required? || fields[i].rule.Singular? || fields[i].rule.Optional?
    requires ParseValue(fields[i].kind, false, DefaultValue(fields[i].kind), input) == Ok(w, rest)
    ensures TakeField(fields, p, i, fields[i].kind.WireType(), input) ==
            Ok(p.(m := SetSlot(p.m, i, Slot(fields[i].rule.Optional?, [w]))), rest)
  {
  }

  // The member of a oneof
  lemma OneofBack(fields: seq<Field>, m: Value, i: nat, p: Progress, w: Value, rest: Bytes) returns (q: Progress)
    requires Ready(fields, m) && Upto(fields, m, i, 0, p) && i < |fields| && fields[i].rule.Oneof? && m.slots[i].present
    requires SameValue(fields[i].kind, m.slots[i].values[0], w)
    requires ParseValue(fields[i].kind, fields[i].kind.Submessage?, DefaultValue(fields[i].kind),
                        EncodeValue(fields[i].kind, m.slots[i].values[0]) + rest) == Ok(w, rest)
    ensures Upto(fields, m, i + 1, 0, q)
    ensures DecodeLoop(fields, p, Tag(fields[i].tag, fields[i].kind.WireType()) + EncodeValue(fields[i].kind, m.slots[i].values[0]) + rest)
            == DecodeLoop(fields, q, rest)
  {
    var f, v := fields[i], m.slots[i].values[0];
    var slot := Slot(true, [w]);
    StartedKeeps(fields, m, i, p);
    ChooseAlone(fields, m, i, p);
    q := Started(fields, p, i).(m := SetSlot(p.m, i, slot));
    assert q.m.slots[i] == slot;
    SlotDone(fields, m, i, p, q, slot);
    Assoc(Tag(f.tag, f.kind.WireType()), EncodeValue(f.kind, v), rest);
    KeyTurn(fields, m, i, 0, p, f.kind.WireType(), EncodeValue(f.kind, v) + rest);
    TakesOneof(fields, Started(fields, p, i), i, w, EncodeValue(f.kind, v) + rest, rest);
    assert SetSlot(SetSlot(p.m, i, p.m.slots[i].(present := true)), i, slot) == SetSlot(p.m, i, slot);
  }

  lemma TakesOneof(fields: seq<Field>, p: Progress, i: nat, w: Value, input: Bytes, rest: Bytes)
    requires Decoding.Holds(fields, p) && i < |fields| && p.m.slots[i] == Slot(false, [DefaultValue(fields[i].kind)])
    requires fields[i].rule.Oneof?
    requires ParseValue(fields[i].kind, fields[i].kind.Submessage?, DefaultValue(fields[i].kind), input) == Ok(w, rest)
    ensures TakeField(fields, p, i, fields[i].kind.WireType(), input) ==
            Ok(p.(m := SetSlot(Choose(fields, p.m, i), i, Slot(true, [w]))), rest)
  {
  }

  // ---- Arrays ----

  lemma StartedArray(fields: seq<Field>, m: Value, i: nat, k: nat, p: Progress)
    requires Upto(fields, m, i, k, p) && i < |fields|
    requires fields[i].rule.Repeated? || fields[i].rule.FixedCount?
    ensures Started(fields, p, i).m == p.m && |p.m.slots[i].values| == k && !p.m.slots[i].present
    ensures fields[i].rule.FixedCount? ==> Started(fields, p, i).fixed == Some(i)
    ensures fields[i].rule.Repeated? ==> Started(fields, p, i).fixed == p.fixed
  {
    assert k == 0 ==> p.m.slots[i] == Slot(false, []);
    assert p.m.slots[i := Slot(false, [])] == p.m.slots || k > 0;
  }

  // Elements up to k have been put in slot i
  lemma ElementsIn(fields: seq<Field>, m: Value, i: nat, k: nat, k': nat, p: Progress, q: Progress, values: seq<Value>)
    requires Upto(fields, m, i, k, p) && i < |fields| && 0 < k' <= |m.slots[i].values|
    requires fields[i].rule.Repeated? || fields[i].rule.FixedCount?
    requires q == Started(fields, p, i).(m := SetSlot(p.m, i, Slot(p.m.slots[i].present, values)))
    requires |values| == k' && forall j :: 0 <= j < k' ==> SameValue(fields[i].kind, m.slots[i].values[j], values[j])
    ensures Upto(fields, m, i, k', q)
  {
    StartedArray(fields, m, i, k, p);
    forall j | 0 <= j < i ensures SameSlot(fields[j], m, q.m, j) {
      SameAt(fields[j], m, p.m, q.m, j);
    }
    assert q.m.slots[i] == Slot(false, values);
  }

  lemma PackedBack(fields: seq<Field>, m: Value, i: nat, p: Progress, rest: Bytes) returns (q: Progress)
    requires Ready(fields, m) && Upto(fields, m, i, 0, p) && i < |fields| && fields[i].kind.Packable()
    requires (fields[i].rule.Repeated? || fields[i].rule.FixedCount?) && m.slots[i].values != []
    ensures Upto(fields, m, i, |m.slots[i].values|, q)
    ensures DecodeLoop(fields, p, EncodeArray(fields[i], m, i) + rest) == DecodeLoop(fields, q, rest)
  {
    var f, values := fields[i], m.slots[i].values;
    q := Started(fields, p, i).(m := SetSlot(p.m, i, Slot(p.m.slots[i].present, values)));
    PackedSame(f.kind, values);
    ElementsIn(fields, m, i, 0, |values|, p, q, values);
    StartedArray(fields, m, i, 0, p);
    assert FitsArray(f.kind, m, i) && |values| <= Capacity(f.rule);
    var body, input := PackedRead(f, m, i, rest);
    KeyTurn(fields, m, i, 0, p, 2, input);
    TakesPacked(fields, Started(fields, p, i), i, values, input, body, rest);
  }

  lemma PackedRead(f: Field, m: Value, i: nat, rest: Bytes) returns (body: Bytes, input: Bytes)
    requires m.Message? && i < |m.slots| && f.kind.Packable() && WellFormedKind(f.kind) && m.slots[i].values != []
    requires FitsArray(f.kind, m, i) && |m.slots[i].values| <= Capacity(f.rule)
    ensures EncodeArray(f, m, i) + rest == Tag(f.tag, 2) + input
    ensures ParseString(input) == Ok(body, rest)
    ensures ParsePacked(f.kind, body, [], Capacity(f.rule)) == Some(m.slots[i].values)
  {
    var values := m.slots[i].values;
    body := PackedBody(f.kind, values, |values|);
    input := Varint(|body|) + body + rest;
    Assoc(Tag(f.tag, 2), Varint(|body|), body);
    Assoc(Tag(f.tag, 2), Varint(|body|) + body, rest);
    PackedSplit(f.kind, values, 0);
    assert body == PackedFrom(f.kind, values, 0) && values[..0] == [];
    PackedRoundTrip(f.kind, values, 0, Capacity(f.rule));
    StringRoundTrip(body, rest);
  }

  lemma PackedSame(kind: Kind, values: seq<Value>)
    requires kind.Packable()
    ensures forall j :: 0 <= j < |values| ==> SameValue(kind, values[j], values[j])
  {
  }

  lemma TakesPacked(fields: seq<Field>, p: Progress, i: nat, values: seq<Value>, input: Bytes, body: Bytes, rest: Bytes)
    requires Decoding.Holds(fields, p) && i < |fields| && fields[i].kind.Packable() && p.m.slots[i].values == []
    requires fields[i].rule.Repeated? || fields[i].rule.FixedCount?
    requires ParseString(input) == Ok(body, rest)
    requires ParsePacked(fields[i].kind, body, [], Capacity(fields[i].rule)) == Some(values)
    ensures TakeField(fields, p, i, 2, input) == Ok(p.(m := SetSlot(p.m, i, Slot(p.m.slots[i].present, values))), rest)
  {
  }

  // One element of an unpacked array
  lemma ElementBack(fields: seq<Field>, m: Value, i: nat, k: nat, p: Progress, w: Value, rest: Bytes) returns (q: Progress)
    requires Ready(fields, m) && Upto(fields, m, i, k, p) && i < |fields| && !fields[i].kind.Packable()
    requires (fields[i].rule.Repeated? || fields[i].rule.FixedCount?) && k < |m.slots[i].values| <= Capacity(fields[i].rule)
    requires SameValue(fields[i].kind, m.slots[i].values[k], w)
    requires ParseValue(fields[i].kind, true, DefaultValue(fields[i].kind), EncodeValue(fields[i].kind, m.slots[i].values[k]) + rest)
             == Ok(w, rest)
    ensures Upto(fields, m, i, k + 1, q)
    ensures DecodeLoop(fields, p, Tag(fields[i].tag, fields[i].kind.WireType()) + (EncodeValue(fields[i].kind, m.slots[i].values[k]) + rest))
            == DecodeLoop(fields, q, rest)
  {
    var f, v := fields[i], m.slots[i].values[k];
    var values := p.m.slots[i].values + [w];
    q := Started(fields, p, i).(m := SetSlot(p.m, i, Slot(p.m.slots[i].present, values)));
    StartedArray(fields, m, i, k, p);
    ElementsIn(fields, m, i, k, k + 1, p, q, values);
    KeyTurn(fields, m, i, k, p, f.kind.WireType(), EncodeValue(f.kind, v) + rest);
    TakesElement(fields, Started(fields, p, i), i, w, EncodeValue(f.kind, v) + rest, rest);
  }

  lemma TakesElement(fields: seq<Field>, p: Progress, i: nat, w: Value, input: Bytes, rest: Bytes)
    requires Decoding.Holds(fields, p) && i < |fields| && !fields[i].kind.Packable()
    requires fields[i].rule.Repeated? || fields[i].rule.FixedCount?
    requires |p.m.slots[i].values| < Capacity(fields[i].rule)
    requires ParseValue(fields[i].kind, true, DefaultValue(fields[i].kind), input) == Ok(w, rest)
    ensures TakeField(fields, p, i, fields[i].kind.WireType(), input) ==
            Ok(p.(m := SetSlot(p.m, i, Slot(p.m.slots[i].present, p.m.slots[i].values + [w]))), rest)
  {
  }

  // ---- Whole messages ----

  // What EncodeFields puts after the first i fields
  function FieldsFrom(fields: seq<Field>, m: Value, i: nat): Bytes
    requires Shaped(fields, m) && i <= |fields|
    decreases |fields| - i
  {
    if i == |fields| then [] else EncodeSlot(fields[i], m, i) + FieldsFrom(fields, m, i + 1)
  }

  lemma {:induction false} FieldsSplit(fields: seq<Field>, m: Value, i: nat)
    requires Shaped(fields, m) && i <= |fields|
    ensures EncodeFields(fields, m, |fields|) == EncodeFields(fields, m, i) + FieldsFrom(fields, m, i)
    decreases |fields| - i
  {
    if i < |fields| {
      FieldsSplit(fields, m, i + 1);
      Assoc(EncodeFields(fields, m, i), EncodeSlot(fields[i], m, i), FieldsFrom(fields, m, i + 1));
    }
  }

  function ElementsFrom(f: Field, m: Value, i: nat, k: nat): Bytes
    requires m.Message? && i < |m.slots| && k <= |m.slots[i].values|
    decreases |m.slots[i].values| - k
  {
    if k == |m.slots[i].values| then []
    else Tag(f.tag, f.kind.WireType()) + EncodeValue(f.kind, m.slots[i].values[k]) + ElementsFrom(f, m, i, k + 1)
  }

  lemma {:induction false} ElementsSplit(f: Field, m: Value, i: nat, k: nat)
    requires m.Message? && i < |m.slots| && k <= |m.slots[i].values|
    ensures EncodeElements(f, m, i, |m.slots[i].values|) == EncodeElements(f, m, i, k) + ElementsFrom(f, m, i, k)
    decreases |m.slots[i].values| - k
  {
    if k < |m.slots[i].values| {
      ElementsSplit(f, m, i, k + 1);
      Assoc(EncodeElements(f, m, i, k), Tag(f.tag, f.kind.WireType()) + EncodeValue(f.kind, m.slots[i].values[k]),
            ElementsFrom(f, m, i, k + 1));
    }
  }

  lemma ElementsNext(f: Field, m: Value, i: nat, k: nat, rest: Bytes)
    requires m.Message? && i < |m.slots| && k < |m.slots[i].values|
    ensures ElementsFrom(f, m, i, k) + rest ==
            Tag(f.tag, f.kind.WireType()) + (EncodeValue(f.kind, m.slots[i].values[k]) + (ElementsFrom(f, m, i, k + 1) + rest))
  {
    var tag, body := Tag(f.tag, f.kind.WireType()), EncodeValue(f.kind, m.slots[i].values[k]);
    Assoc(tag + body, ElementsFrom(f, m, i, k + 1), rest);
    Assoc(tag, body, ElementsFrom(f, m, i, k + 1) + rest);
  }

  lemma RequiredCounted(fields: seq<Field>, i: nat, k: nat) returns (j: nat)
    requires i <= |fields| && k < RequiredBefore(fields, i)
    ensures j < i && fields[j].rule.Required? && RequiredBefore(fields, j) == k
  {
    j := i - 1;
    while !(fields[j].rule.Required? && RequiredBefore(fields, j) == k)
      invariant 0 <= j < i && k < RequiredBefore(fields, j + 1)
      decreases j
    {
      j := j - 1;
    }
  }

  lemma DefaultsUpto(fields: seq<Field>, m: Value)
    requires Ready(fields, m)
    ensures Upto(fields, m, 0, 0, Progress(DefaultValue(Submessage(fields)), 0, None, {}))
  {
  }

  lemma AllDone(fields: seq<Field>, m: Value, p: Progress)
    requires Ready(fields, m) && Upto(fields, m, |fields|, 0, p)
    ensures Complete(fields, p) && SameMessage(fields, m, p.m)
  {
    forall k | 0 <= k < RequiredBefore(fields, |fields|) && k < PB_MAX_REQUIRED_FIELDS ensures k in p.seen {
      var j := RequiredCounted(fields, |fields|, k);
    }
  }

  lemma {:induction false} ValueBack(kind: Kind, v: Value, anew: bool, before: Value, rest: Bytes) returns (w: Value)
    requires WellFormedKind(kind) && Fits(kind, v) && (anew || before == DefaultValue(kind))
    ensures ParseValue(kind, anew, before, EncodeValue(kind, v) + rest) == Ok(w, rest) && SameValue(kind, v, w)
    decreases v, 3, 0
  {
    if kind.Packable() {
      ScalarRoundTrip(kind, v, rest);
      w := v;
    } else if !kind.Submessage? {
      RawRoundTrip(kind, v, rest);
      w := v;
    } else {
      var body := EncodeFields(kind.fields, v, |kind.fields|);
      w := MessageBack(kind.fields, v);
      StringRoundTrip(body, rest);
    }
  }

  // pb_decode of pb_encode's output
  lemma {:induction false} MessageBack(fields: seq<Field>, m: Value) returns (w: Value)
    requires Ready(fields, m)
    ensures Decode(fields, DefaultValue(Submessage(fields)), EncodeFields(fields, m, |fields|)) == Some(w)
    ensures SameMessage(fields, m, w)
    decreases m, 2, 0
  {
    var p := Progress(DefaultValue(Submessage(fields)), 0, None, {});
    DefaultsUpto(fields, m);
    var q := LoopBack(fields, m, 0, p);
    FieldsSplit(fields, m, 0);
    assert EncodeFields(fields, m, |fields|) == FieldsFrom(fields, m, 0);
    AllDone(fields, m, q);
    w := q.m;
  }

  lemma {:induction false} LoopBack(fields: seq<Field>, m: Value, i: nat, p: Progress) returns (q: Progress)
    requires Ready(fields, m) && i <= |fields| && Upto(fields, m, i, 0, p)
    ensures DecodeLoop(fields, p, FieldsFrom(fields, m, i)) == Some(q) && Upto(fields, m, |fields|, 0, q)
    decreases m, 1, |fields| - i
  {
    if i == |fields| {
      q := p;
    } else {
      var p' := FieldBack(fields, m, i, p, FieldsFrom(fields, m, i + 1));
      q := LoopBack(fields, m, i + 1, p');
    }
  }

  lemma {:induction false} FieldBack(fields: seq<Field>, m: Value, i: nat, p: Progress, rest: Bytes) returns (q: Progress)
    requires Ready(fields, m) && i < |fields| && Upto(fields, m, i, 0, p)
    ensures Upto(fields, m, i + 1, 0, q)
    ensures DecodeLoop(fields, p, EncodeSlot(fields[i], m, i) + rest) == DecodeLoop(fields, q, rest)
    decreases m, 0, 4
  {
    var f := fields[i];
    if f.rule.Repeated? || f.rule.FixedCount? {
      q := ArrayBack(fields, m, i, p, rest);
    } else if Written(f, m, i) {
      var v := m.slots[i].values[0];
      var anew := f.rule.Oneof? && f.kind.Submessage?;
      var w := ValueBack(f.kind, v, anew, DefaultValue(f.kind), rest);
      if f.rule.Oneof? {
        q := OneofBack(fields, m, i, p, w, rest);
      } else {
        q := SingleBack(fields, m, i, p, w, rest);
      }
    } else {
      q := p;
      LeftOut(fields, m, i, p);
      assert EncodeSlot(f, m, i) + rest == rest;
    }
  }

  // Whether a field that is no array is encoded
  predicate Written(f: Field, m: Value, i: nat)
    requires m.Message? && i < |m.slots| && |m.slots[i].values| == 1
  {
    f.rule.Required? || (f.rule.Singular? && !IsDefault(f.kind, m.slots[i].values[0])) ||
    ((f.rule.Optional? || f.rule.Oneof?) && m.slots[i].present)
  }

  lemma LeftOut(fields: seq<Field>, m: Value, i: nat, p: Progress)
    requires Ready(fields, m) && i < |fields| && Upto(fields, m, i, 0, p)
    requires !fields[i].rule.Repeated? && !fields[i].rule.FixedCount? && !Written(fields[i], m, i)
    ensures EncodeSlot(fields[i], m, i) == [] && Upto(fields, m, i + 1, 0, p)
  {
    if fields[i].rule.Singular? {
      DefaultSame(fields[i].kind, m.slots[i].values[0]);
    }
    SlotKept(fields, m, i, p);
  }

  lemma {:induction false} ArrayBack(fields: seq<Field>, m: Value, i: nat, p: Progress, rest: Bytes) returns (q: Progress)
    requires Ready(fields, m) && i < |fields| && Upto(fields, m, i, 0, p)
    requires fields[i].rule.Repeated? || fields[i].rule.FixedCount?
    ensures Upto(fields, m, i + 1, 0, q)
    ensures DecodeLoop(fields, p, EncodeArray(fields[i], m, i) + rest) == DecodeLoop(fields, q, rest)
    decreases m, 0, 3
  {
    var f, values := fields[i], m.slots[i].values;
    if values == [] {
      q := p;
      assert EncodeArray(f, m, i) + rest == rest;
    } else if f.kind.Packable() {
      q := PackedBack(fields, m, i, p, rest);
    } else {
      q := ElementsBack(fields, m, i, 0, p, rest);
      ElementsSplit(f, m, i, 0);
      assert EncodeArray(f, m, i) == ElementsFrom(f, m, i, 0);
    }
    FieldDone(fields, m, i, |values|, q);
  }

  lemma ElementFits(fields: seq<Field>, m: Value, i: nat, k: nat)
    requires Ready(fields, m) && i < |fields| && (fields[i].rule.Repeated? || fields[i].rule.FixedCount?)
    requires k < |m.slots[i].values|
    ensures WellFormedKind(fields[i].kind) && Fits(fields[i].kind, m.slots[i].values[k])
  {
    assert FitsArray(fields[i].kind, m, i);
  }

  lemma {:induction false} ElementValue(fields: seq<Field>, m: Value, i: nat, k: nat, tail: Bytes) returns (w: Value)
    requires Ready(fields, m) && i < |fields| && (fields[i].rule.Repeated? || fields[i].rule.FixedCount?)
    requires k < |m.slots[i].values|
    ensures ParseValue(fields[i].kind, true, DefaultValue(fields[i].kind), EncodeValue(fields[i].kind, m.slots[i].values[k]) + tail)
            == Ok(w, tail)
    ensures SameValue(fields[i].kind, m.slots[i].values[k], w)
    decreases m, 0, 0
  {
    ElementFits(fields, m, i, k);
    w := ValueBack(fields[i].kind, m.slots[i].values[k], true, DefaultValue(fields[i].kind), tail);
  }

  // The decoder is before element k of an unpacked array
  ghost predicate AtElement(fields: seq<Field>, m: Value, i: nat, k: nat, p: Progress) {
    && Ready(fields, m) && Upto(fields, m, i, k, p) && i < |fields| && !fields[i].kind.Packable()
    && (fields[i].rule.Repeated? || fields[i].rule.FixedCount?) && k <= |m.slots[i].values| <= Capacity(fields[i].rule)
  }

  lemma ElementStep(fields: seq<Field>, m: Value, i: nat, k: nat, p: Progress, w: Value, tail: Bytes, rest: Bytes)
    returns (q: Progress)
    requires AtElement(fields, m, i, k, p) && k < |m.slots[i].values|
    requires SameValue(fields[i].kind, m.slots[i].values[k], w)
    requires tail == ElementsFrom(fields[i], m, i, k + 1) + rest
    requires ParseValue(fields[i].kind, true, DefaultValue(fields[i].kind), EncodeValue(fields[i].kind, m.slots[i].values[k]) + tail)
             == Ok(w, tail)
    ensures AtElement(fields, m, i, k + 1, q)
    ensures DecodeLoop(fields, p, ElementsFrom(fields[i], m, i, k) + rest) == DecodeLoop(fields, q, tail)
  {
    q := ElementBack(fields, m, i, k, p, w, tail);
    ElementsNext(fields[i], m, i, k, rest);
  }

  lemma ElementsEnd(f: Field, m: Value, i: nat, rest: Bytes)
    requires m.Message? && i < |m.slots|
    ensures ElementsFrom(f, m, i, |m.slots[i].values|) + rest == rest
  {
  }

  lemma {:induction false} ElementAdvance(fields: seq<Field>, m: Value, i: nat, k: nat, p: Progress, rest: Bytes)
    returns (q: Progress)
    requires AtElement(fields, m, i, k, p) && k < |m.slots[i].values|
    ensures AtElement(fields, m, i, k + 1, q)
    ensures DecodeLoop(fields, p, ElementsFrom(fields[i], m, i, k) + rest) ==
            DecodeLoop(fields, q, ElementsFrom(fields[i], m, i, k + 1) + rest)
    decreases m, 0, 1
  {
    var tail := ElementsFrom(fields[i], m, i, k + 1) + rest;
    var w := ElementValue(fields, m, i, k, tail);
    q := ElementStep(fields, m, i, k, p, w, tail, rest);
  }

  lemma {:induction false} ElementsBack(fields: seq<Field>, m: Value, i: nat, k: nat, p: Progress, rest: Bytes) returns (q: Progress)
    requires AtElement(fields, m, i, k, p)
    ensures AtElement(fields, m, i, |m.slots[i].values|, q)
    ensures DecodeLoop(fields, p, ElementsFrom(fields[i], m, i, k) + rest) == DecodeLoop(fields, q, rest)
    decreases m, 0, 2, |m.slots[i].values| - k
  {
    if k == |m.slots[i].values| {
      ElementsEnd(fields[i], m, i, rest);
      q := p;
    } else {
      var p' := ElementAdvance(fields, m, i, k, p, rest);
      q := ElementsBack(fields, m, i, k + 1, p', rest);
    }
  }

  lemma RoundTrip(fields: seq<Field>, m: Value) returns (w: Value)
    requires WellFormedKind(Submessage(fields)) && FitsMessage(fields, m)
    ensures DecodeMessage(fields, EncodeFields(fields, m, |fields|)) == Some(w) && SameMessage(fields, m, w)
  {
    w := MessageBack(fields, m);
  }
}
