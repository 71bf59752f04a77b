// What the three low bits of a key promise about the bytes after it, and what a decoder with fewer
// descriptors makes of a message. The wire types are those of the Protocol Buffers encoding
// specification, section "Message Structure".
module WireTypes {
  import opened Options
  import opened ByteStrings
  import opened Wire
  import opened Messages
  import opened Decoding
  import opened MessageRoundTrip

  // ---- Keys ----

  // A key is a varint: the tag, and three bits of wire type
  lemma KeyMeans(tag: nat, wireType: nat)
    requires wireType < 8
    ensures IsVarint(Tag(tag, wireType)) && VarintValue(Tag(tag, wireType)) == 8 * tag + wireType
    ensures VarintValue(Tag(tag, wireType)) / 8 == tag && VarintValue(Tag(tag, wireType)) % 8 == wireType
  {
    VarintMeans(8 * tag + wireType);
    assert (8 * tag + wireType) / 8 == tag;
  }

  // ---- What a wire type announces ----

  // The value written as these bytes is of this wire type: 0 is a varint, 1 eight fixed bytes and 5 four, both
  // little-endian, and 2 a length and that many bytes
  ghost predicate Announced(wireType: nat, v: Value, b: Bytes) {
    match wireType
    case 0 => v.Number? && IsVarint(b)
    case 1 => v.Number? && |b| == 8 && LittleEndian(b) == v.n
    case 2 => !v.Number? && exists n: nat :: Delimited(b, n)
    case 5 => v.Number? && |b| == 4 && LittleEndian(b) == v.n
    case _ => false
  }

  // A varint of n bytes, and as many bytes behind it as it says
  predicate Delimited(b: Bytes, n: nat) {
    0 < n <= |b| < n + TWO32 && b[..n] == Varint(|b| - n) && IsVarint(b[..n]) && VarintValue(b[..n]) == |b| - n
  }

  lemma LengthDelimits(body: Bytes)
    requires |body| < TWO32
    ensures Delimited(Varint(|body|) + body, |Varint(|body|)|)
  {
    VarintMeans(|body|);
    Cut(Varint(|body|), body);
  }

  lemma IntegerAnnounces(kind: Kind, n: int)
    requires WellFormedKind(kind) && Fits(kind, Number(n)) && (kind.Bool? || kind.Int? || kind.UInt? || kind.SInt?)
    ensures IsVarint(EncodeScalar(kind, Number(n)))
  {
    match kind
    case Bool => VarintMeans(if n != 0 then 1 else 0);
    case Int(_) => VarintMeans(n % TWO64);
    case UInt(_) => VarintMeans(n % TWO64);
    case SInt(size) =>
      IntRange(n, size);
      VarintMeans(ZigZag(n));
  }

  lemma Fix32Announces(n: nat)
    requires n < TWO32
    ensures |EncodeScalar(Fix32, Number(n))| == 4 && LittleEndian(EncodeScalar(Fix32, Number(n))) == n
  {
    assert n % TWO32 == n;
    assert EncodeScalar(Fix32, Number(n)) == EncodeFixed32(n);
    Fixed32Means(n);
  }

  lemma Fix64Announces(n: nat)
    requires n < TWO64
    ensures |EncodeScalar(Fix64, Number(n))| == 8 && LittleEndian(EncodeScalar(Fix64, Number(n))) == n
  {
    assert n % TWO64 == n;
    assert EncodeScalar(Fix64, Number(n)) == Fixed64(n);
    Fixed64Means(n);
  }

  lemma ScalarAnnounces(kind: Kind, v: Value)
    requires WellFormedKind(kind) && kind.Packable() && Fits(kind, v)
    ensures Announced(kind.WireType(), v, EncodeScalar(kind, v))
  {
    if kind.Fix32? {
      Fix32Announces(v.n);
    } else if kind.Fix64? {
      Fix64Announces(v.n);
    } else {
      IntegerAnnounces(kind, v.n);
    }
  }

  // The wire type of a key tells what follows it
  lemma KeyAnnounces(kind: Kind, v: Value)
    requires WellFormedKind(kind) && Fits(kind, v)
    ensures Announced(kind.WireType(), v, EncodeValue(kind, v))
  {
    match kind
    case Submessage(fields) => LengthDelimits(EncodeFields(fields, v, |fields|));
    case Text(_) =>
      WithoutNul(v.bytes);
      LengthDelimits(v.bytes);
    case Blob(_) => LengthDelimits(v.bytes);
    case FixedBlob(_) => LengthDelimits(v.bytes);
    case _ => ScalarAnnounces(kind, v);
  }

  // And no other wire type does: not on a value that is no number, and not on all numbers
  lemma OnlyThatType(kind: Kind, wireType: nat, v: Value)
    requires WellFormedKind(kind) && Fits(kind, v)
    requires forall n: int :: Fits(kind, Number(n)) ==> Announced(wireType, Number(n), EncodeValue(kind, Number(n)))
    requires Announced(wireType, v, EncodeValue(kind, v))
    ensures wireType == kind.WireType()
  {
    if kind.Packable() {
      Widths();
      ZeroFits(kind);
      assert Announced(wireType, Number(0), EncodeValue(kind, Number(0)));
      KeyAnnounces(kind, Number(0));
      assert kind.Fix32? ==> EncodeValue(kind, Number(0))[0] == 0;
      assert kind.Fix64? ==> EncodeValue(kind, Number(0))[0] == 0;
    }
  }

  lemma {:induction false} ShlPositive(x: nat, k: nat)
    requires x > 0
    ensures Shl(x, k) > 0
  {
    if k > 0 {
      ShlPositive(x, k - 1);
    }
  }

  lemma ZeroFits(kind: Kind)
    requires WellFormedKind(kind) && kind.Packable()
    ensures Fits(kind, Number(0))
    ensures kind.Fix32? || kind.Fix64? || EncodeValue(kind, Number(0)) == [0]
  {
    if kind.Int? || kind.UInt? || kind.SInt? {
      ShlPositive(1, 8 * kind.size);
    }
  }

  // ---- Skipping ----

  lemma {:induction false} VarintSkipped(b: Bytes, rest: Bytes)
    requires IsVarint(b)
    ensures SkipVarint(b + rest) == Ok(0, rest)
  {
    if |b| == 1 {
      assert (b + rest)[1..] == rest;
    } else {
      VarintSkipped(b[1..], rest);
      assert (b + rest)[1..] == b[1..] + rest;
    }
  }

  lemma DelimitedSkipped(b: Bytes, n: nat, rest: Bytes)
    requires Delimited(b, n)
    ensures SkipField(2, b + rest) == Ok(0, rest)
  {
    StringRoundTrip(b[n..], rest);
    assert b == b[..n] + b[n..];
  }

  // What a key announces is what the decoder skips
  lemma AnnouncedSkipped(wireType: nat, v: Value, b: Bytes, rest: Bytes)
    requires Announced(wireType, v, b)
    ensures SkipField(wireType, b + rest) == Ok(0, rest)
  {
    match wireType
    case 0 => VarintSkipped(b, rest);
    case 2 =>
      var n: nat :| Delimited(b, n);
      DelimitedSkipped(b, n, rest);
    case _ => Cut(b, rest);
  }

  lemma ValueSkipped(kind: Kind, v: Value, rest: Bytes)
    requires WellFormedKind(kind) && Fits(kind, v)
    ensures SkipField(kind.WireType(), EncodeValue(kind, v) + rest) == Ok(0, rest)
  {
    KeyAnnounces(kind, v);
    AnnouncedSkipped(kind.WireType(), v, EncodeValue(kind, v), rest);
  }

  // And nothing else is skipped: a varint, eight bytes, four, or a length and that many bytes
  lemma {:induction false} SkippedVarint(input: Bytes) returns (n: nat)
    requires SkipVarint(input).Ok?
    ensures n <= |input| && IsVarint(input[..n]) && SkipVarint(input).rest == input[n..]
  {
    if input[0] < 0x80 {
      n := 1;
    } else {
      n := SkippedVarint(input[1..]);
      n := n + 1;
      assert input[..n][1..] == input[1..][..n - 1] && input[n..] == input[1..][n - 1..];
      forall k | 0 <= k < n - 1 ensures input[..n][k] >= 0x80 {
        assert k > 0 ==> input[..n][k] == input[1..][..n - 1][k - 1];
      }
      assert input[..n][n - 1] == input[1..][..n - 1][n - 2];
    }
  }

  lemma SkippedExactly(wireType: nat, input: Bytes) returns (n: nat)
    requires SkipField(wireType, input).Ok?
    ensures n <= |input| && SkipField(wireType, input).rest == input[n..]
    ensures wireType == 0 || wireType == 1 || wireType == 2 || wireType == 5
    ensures wireType == 0 ==> IsVarint(input[..n])
    ensures wireType == 1 ==> n == 8
    ensures wireType == 5 ==> n == 4
    ensures wireType == 2 ==> ParseVarint32(input).Ok? && n == |input| - |ParseVarint32(input).rest| + ParseVarint32(input).value
  {
    match wireType
    case 0 => n := SkippedVarint(input);
    case 1 => n := 8;
    case 5 => n := 4;
    case 2 =>
      Varint32Tail(input);
      var rest := ParseVarint32(input).rest;
      n := |input| - |rest| + ParseVarint32(input).value;
      assert input[n..] == rest[ParseVarint32(input).value..];
  }

  lemma Varint32Tail(input: Bytes)
    requires ParseVarint32(input).Ok?
    ensures |ParseVarint32(input).rest| < |input|
    ensures ParseVarint32(input).rest == input[|input| - |ParseVarint32(input).rest|..]
  {
    if input[0] >= 0x80 {
      Varint32FromShrinks(input[1..], 7, input[0] - 0x80);
    }
  }

  // ---- Decoding with some of the descriptors ----

  // No descriptor has the tag: the key and what it announces are skipped
  lemma UnknownSkipped(known: seq<Field>, p: Progress, tag: nat, wireType: nat, b: Bytes, rest: Bytes)
    requires Decoding.Holds(known, p) && 0 < tag < 0x2000_0000 && wireType < 8
    requires forall j :: 0 <= j < |known| ==> known[j].tag != tag
    requires SkipField(wireType, b + rest) == Ok(0, rest)
    ensures DecodeLoop(known, p, Tag(tag, wireType) + b + rest) == DecodeLoop(known, p, rest)
  {
    Assoc(Tag(tag, wireType), b, rest);
    LoopTurn(known, p, tag, wireType, b + rest);
    if known != [] {
      NotFound(known, p.pos, tag, 0);
    }
  }

  lemma {:induction false} NotFound(fields: seq<Field>, pos: nat, tag: nat, steps: nat)
    requires pos < |fields| && steps <= |fields| && forall j :: 0 <= j < |fields| ==> fields[j].tag != tag
    ensures Search(fields, pos, tag, steps) == None
    decreases |fields| - steps
  {
    if steps < |fields| {
      NotFound(fields, pos, tag, steps + 1);
    }
  }

  lemma {:induction false} ElementsSkipped(known: seq<Field>, p: Progress, f: Field, m: Value, i: nat, k: nat, rest: Bytes)
    requires Decoding.Holds(known, p) && 0 < f.tag < 0x2000_0000 && WellFormedKind(f.kind)
    requires forall j :: 0 <= j < |known| ==> known[j].tag != f.tag
    requires m.Message? && i < |m.slots| && k <= |m.slots[i].values| && FitsArray(f.kind, m, i)
    ensures DecodeLoop(known, p, ElementsFrom(f, m, i, k) + rest) == DecodeLoop(known, p, rest)
    decreases |m.slots[i].values| - k
  {
    if k == |m.slots[i].values| {
      ElementsEnd(f, m, i, rest);
    } else {
      var v, more := m.slots[i].values[k], ElementsFrom(f, m, i, k + 1) + rest;
      ElementsNext(f, m, i, k, rest);
      Assoc(Tag(f.tag, f.kind.WireType()), EncodeValue(f.kind, v), more);
      ValueSkipped(f.kind, v, more);
      UnknownSkipped(known, p, f.tag, f.kind.WireType(), EncodeValue(f.kind, v), more);
      ElementsSkipped(known, p, f, m, i, k + 1, rest);
    }
  }

  lemma PackedSkipped(known: seq<Field>, p: Progress, f: Field, m: Value, i: nat, rest: Bytes)
    requires Decoding.Holds(known, p) && 0 < f.tag < 0x2000_0000
    requires forall j :: 0 <= j < |known| ==> known[j].tag != f.tag
    requires m.Message? && i < |m.slots| && m.slots[i].values != [] && f.kind.Packable() && FitsArray(f.kind, m, i)
    ensures DecodeLoop(known, p, EncodeArray(f, m, i) + rest) == DecodeLoop(known, p, rest)
  {
    var body := PackedBody(f.kind, m.slots[i].values, |m.slots[i].values|);
    Assoc(Tag(f.tag, 2), Varint(|body|), body);
    StringRoundTrip(body, rest);
    UnknownSkipped(known, p, f.tag, 2, Varint(|body|) + body, rest);
  }

  lemma ArraySkipped(known: seq<Field>, p: Progress, f: Field, m: Value, i: nat, rest: Bytes)
    requires Decoding.Holds(known, p) && 0 < f.tag < 0x2000_0000 && WellFormedKind(f.kind)
    requires forall j :: 0 <= j < |known| ==> known[j].tag != f.tag
    requires m.Message? && i < |m.slots| && FitsArray(f.kind, m, i)
    ensures DecodeLoop(known, p, EncodeArray(f, m, i) + rest) == DecodeLoop(known, p, rest)
  {
    if m.slots[i].values == [] {
      assert EncodeArray(f, m, i) + rest == rest;
    } else if f.kind.Packable() {
      PackedSkipped(known, p, f, m, i, rest);
    } else {
      ElementsSplit(f, m, i, 0);
      assert EncodeArray(f, m, i) == ElementsFrom(f, m, i, 0);
      ElementsSkipped(known, p, f, m, i, 0, rest);
    }
  }

  // All that a field puts on the wire is skipped
  lemma SlotSkipped(known: seq<Field>, p: Progress, fields: seq<Field>, m: Value, i: nat, rest: Bytes)
    requires Decoding.Holds(known, p) && Ready(fields, m) && i < |fields|
    requires forall j :: 0 <= j < |known| ==> known[j].tag != fields[i].tag
    ensures DecodeLoop(known, p, EncodeSlot(fields[i], m, i) + rest) == DecodeLoop(known, p, rest)
  {
    var f := fields[i];
    if f.rule.Repeated? || f.rule.FixedCount? {
      ArraySkipped(known, p, f, m, i, rest);
    } else if Written(f, m, i) {
      var v := m.slots[i].values[0];
      ValueSkipped(f.kind, v, rest);
      UnknownSkipped(known, p, f.tag, f.kind.WireType(), EncodeValue(f.kind, v), rest);
    } else {
      assert EncodeSlot(f, m, i) + rest == rest;
    }
  }

  // Which of n fields a decoder knows
  predicate Picks(picks: seq<nat>, n: nat) {
    (forall j :: 0 <= j < |picks| ==> picks[j] < n) && (forall j, k :: 0 <= j < k < |picks| ==> picks[j] < picks[k])
  }

  function KnownFields(fields: seq<Field>, picks: seq<nat>): (known: seq<Field>)
    requires Picks(picks, |fields|)
    ensures |known| == |picks| && forall j :: 0 <= j < |picks| ==> known[j] == fields[picks[j]]
  {
    seq(|picks|, j requires 0 <= j < |picks| => fields[picks[j]])
  }

  function KnownPart(m: Value, picks: seq<nat>): (part: Value)
    requires m.Message? && Picks(picks, |m.slots|)
    ensures part.Message? && |part.slots| == |picks| && forall j :: 0 <= j < |picks| ==> part.slots[j] == m.slots[picks[j]]
  {
    Message(seq(|picks|, j requires 0 <= j < |picks| => m.slots[picks[j]]))
  }

  // How a slot is encoded does not depend on its place
  lemma {:induction false} ElementsAnywhere(f: Field, m: Value, i: nat, m': Value, j: nat, n: nat)
    requires m.Message? && i < |m.slots| && m'.Message? && j < |m'.slots| && m.slots[i] == m'.slots[j] && n <= |m.slots[i].values|
    ensures EncodeElements(f, m, i, n) == EncodeElements(f, m', j, n)
  {
    if n > 0 {
      ElementsAnywhere(f, m, i, m', j, n - 1);
    }
  }

  lemma SlotAnywhere(f: Field, m: Value, i: nat, m': Value, j: nat)
    requires m.Message? && i < |m.slots| && m'.Message? && j < |m'.slots| && m.slots[i] == m'.slots[j]
    requires !f.rule.Repeated? && !f.rule.FixedCount? ==> |m.slots[i].values| == 1
    ensures EncodeSlot(f, m, i) == EncodeSlot(f, m', j)
  {
    ElementsAnywhere(f, m, i, m', j, |m.slots[i].values|);
  }

  lemma PartReady(fields: seq<Field>, m: Value, picks: seq<nat>)
    requires Ready(fields, m) && Picks(picks, |fields|)
    ensures Ready(KnownFields(fields, picks), KnownPart(m, picks))
  {
    var known, part := KnownFields(fields, picks), KnownPart(m, picks);
    forall j | 0 <= j < |known| && (known[j].rule.Repeated? || known[j].rule.FixedCount?)
      ensures FitsArray(known[j].kind, part, j)
    {
      assert FitsArray(fields[picks[j]].kind, m, picks[j]);
    }
    forall j, k | 0 <= j < k < |known| && known[j].rule.Oneof? && known[j].rule == known[k].rule
      ensures !(part.slots[j].present && part.slots[k].present)
    {
      assert !(m.slots[picks[j]].present && m.slots[picks[k]].present);
    }
  }

  // The first j of the known fields are among the first i, and no others
  predicate Passed(picks: seq<nat>, i: nat, j: nat) {
    j <= |picks| && (forall k :: 0 <= k < j ==> picks[k] < i) && (forall k :: j <= k < |picks| ==> picks[k] >= i)
  }

  lemma UnknownTag(fields: seq<Field>, picks: seq<nat>, i: nat, j: nat)
    requires WellFormedKind(Submessage(fields)) && Picks(picks, |fields|) && i < |fields| && Passed(picks, i, j)
    requires j == |picks| || picks[j] != i
    ensures Passed(picks, i + 1, j)
    ensures forall k :: 0 <= k < |picks| ==> KnownFields(fields, picks)[k].tag != fields[i].tag
  {
    forall k | 0 <= k < |picks| ensures picks[k] != i {
    }
  }

  // The decoder is before field i, and has had the first j of those it knows
  ghost predicate KnownAt(fields: seq<Field>, m: Value, picks: seq<nat>, i: nat, j: nat, p: Progress) {
    && Ready(fields, m) && Picks(picks, |fields|) && i <= |fields| && Passed(picks, i, j)
    && Upto(KnownFields(fields, picks), KnownPart(m, picks), j, 0, p)
  }

  lemma FieldKnown(fields: seq<Field>, m: Value, picks: seq<nat>, i: nat, j: nat, p: Progress, rest: Bytes) returns (q: Progress)
    requires KnownAt(fields, m, picks, i, j, p) && j < |picks| && picks[j] == i
    ensures KnownAt(fields, m, picks, i + 1, j + 1, q)
    ensures DecodeLoop(KnownFields(fields, picks), p, EncodeSlot(fields[i], m, i) + rest) ==
            DecodeLoop(KnownFields(fields, picks), q, rest)
  {
    PartReady(fields, m, picks);
    SlotAnywhere(fields[i], m, i, KnownPart(m, picks), j);
    q := FieldBack(KnownFields(fields, picks), KnownPart(m, picks), j, p, rest);
  }

  lemma FieldUnknown(fields: seq<Field>, m: Value, picks: seq<nat>, i: nat, j: nat, p: Progress, rest: Bytes)
    requires KnownAt(fields, m, picks, i, j, p) && i < |fields| && (j == |picks| || picks[j] != i)
    ensures KnownAt(fields, m, picks, i + 1, j, p)
    ensures DecodeLoop(KnownFields(fields, picks), p, EncodeSlot(fields[i], m, i) + rest) ==
            DecodeLoop(KnownFields(fields, picks), p, rest)
  {
    UnknownTag(fields, picks, i, j);
    SlotSkipped(KnownFields(fields, picks), p, fields, m, i, rest);
  }

  // What is to be shown of the progress at the end
  ghost predicate Gets(known: seq<Field>, part: Value, q: Option<Progress>) {
    q.Some? && Decoding.Holds(known, q.value) && Complete(known, q.value) && SameMessage(known, part, q.value.m)
  }

  lemma KnownEnd(fields: seq<Field>, m: Value, picks: seq<nat>, j: nat, p: Progress)
    requires KnownAt(fields, m, picks, |fields|, j, p)
    ensures Gets(KnownFields(fields, picks), KnownPart(m, picks),
                 DecodeLoop(KnownFields(fields, picks), p, FieldsFrom(fields, m, |fields|)))
  {
    PartReady(fields, m, picks);
    AllDone(KnownFields(fields, picks), KnownPart(m, picks), p);
  }

  lemma KnownStep(fields: seq<Field>, m: Value, picks: seq<nat>, i: nat, j: nat, p: Progress) returns (j': nat, q: Progress)
    requires KnownAt(fields, m, picks, i, j, p) && i < |fields|
    ensures KnownAt(fields, m, picks, i + 1, j', q)
    ensures DecodeLoop(KnownFields(fields, picks), p, FieldsFrom(fields, m, i)) ==
            DecodeLoop(KnownFields(fields, picks), q, FieldsFrom(fields, m, i + 1))
  {
    j', q := j, p;
    if j < |picks| && picks[j] == i {
      q := FieldKnown(fields, m, picks, i, j, p, FieldsFrom(fields, m, i + 1));
      j' := j + 1;
    } else {
      FieldUnknown(fields, m, picks, i, j, p, FieldsFrom(fields, m, i + 1));
    }
  }

  lemma {:induction false} KnownLoop(fields: seq<Field>, m: Value, picks: seq<nat>, i: nat, j: nat, p: Progress)
    requires KnownAt(fields, m, picks, i, j, p)
    ensures Gets(KnownFields(fields, picks), KnownPart(m, picks), DecodeLoop(KnownFields(fields, picks), p, FieldsFrom(fields, m, i)))
    decreases |fields| - i
  {
    if i == |fields| {
      KnownEnd(fields, m, picks, j, p);
    } else {
      var j', p' := KnownStep(fields, m, picks, i, j, p);
      KnownLoop(fields, m, picks, i + 1, j', p');
    }
  }

  // A decoder that has only some of the descriptors gets those fields as they were, whatever the others are
  lemma DecodesKnown(fields: seq<Field>, m: Value, picks: seq<nat>) returns (w: Value)
    requires Ready(fields, m) && Picks(picks, |fields|)
    ensures DecodeMessage(KnownFields(fields, picks), EncodeFields(fields, m, |fields|)) == Some(w)
    ensures SameMessage(KnownFields(fields, picks), KnownPart(m, picks), w)
  {
    var known, part := KnownFields(fields, picks), KnownPart(m, picks);
    var p := Progress(DefaultValue(Submessage(known)), 0, None, {});
    PartReady(fields, m, picks);
    DefaultsUpto(known, part);
    KnownLoop(fields, m, picks, 0, 0, p);
    FieldsSplit(fields, m, 0);
    assert EncodeFields(fields, m, |fields|) == FieldsFrom(fields, m, 0);
    w := DecodeLoop(known, p, FieldsFrom(fields, m, 0)).value.m;
  }
}
