// nanopb's field descriptors, the messages they describe, and what a message is encoded to. A message
// struct is a sequence of slots, one for each descriptor; fields are statically allocated. The wire
// form is that of the Protocol Buffers encoding specification, sections "Message Structure",
// "Length-Delimited Records" and "Packed Repeated Fields".
module Messages {
  import opened ByteStrings
  import opened Wire

  // PB_LTYPE, with data_size where it matters; a descriptor of a submessage is its ptr
  datatype Kind =
    | Bool
    | Int(size: nat)                  // sign-extended to 64 bits
    | UInt(size: nat)
    | SInt(size: nat)                 // zigzag
    | Fix32
    | Fix64
    | Blob(capacity: nat)             // room in the bytes array
    | Text(size: nat)                 // the array, with the terminator; a shorter value ends at a zero
    | Submessage(fields: seq<Field>)
    | FixedBlob(size: nat)
  {
    // up to PB_LTYPE_LAST_PACKABLE
    predicate Packable() {
      Bool? || Int? || UInt? || SInt? || Fix32? || Fix64?
    }

    function WireType(): nat {
      match this
      case Fix64 => 1
      case Fix32 => 5
      case Blob(_) => 2
      case Text(_) => 2
      case Submessage(_) => 2
      case FixedBlob(_) => 2
      case _ => 0
    }
  }

  // PB_HTYPE and how presence or count are kept. Optional has a has_ field, Singular (proto3) has none;
  // a FixedCount array has no count; the members of a Oneof share one which_ field.
  datatype Rule = Required | Optional | Singular | Repeated(max: nat) | FixedCount(count: nat) | Oneof(union: nat)

  datatype Field = Field(tag: nat, kind: Kind, rule: Rule)

  datatype Value = Number(n: int) | Raw(bytes: Bytes) | Message(slots: seq<Slot>)

  // present is the has_ field of an optional field, and which_ == tag for the member of a oneof
  datatype Slot = Slot(present: bool, values: seq<Value>)

  function Zeros(n: nat): Bytes {
    seq(n, _ => 0)
  }

  // pb_message_set_to_defaults, for fields without a default value of their own
  function DefaultValue(kind: Kind): Value {
    match kind
    case Blob(_) => Raw([])
    case Text(_) => Raw([])
    case FixedBlob(size) => Raw(Zeros(size))
    case Submessage(fs) =>
      Message(seq(|fs|, i requires 0 <= i < |fs| =>
        if fs[i].rule.Repeated? || fs[i].rule.FixedCount? then Slot(false, []) else Slot(false, [DefaultValue(fs[i].kind)])))
    case _ => Number(0)
  }

  function DefaultSlot(f: Field): Slot {
    if f.rule.Repeated? || f.rule.FixedCount? then Slot(false, []) else Slot(false, [DefaultValue(f.kind)])
  }

  predicate Shaped(fields: seq<Field>, m: Value) {
    m.Message? && |m.slots| == |fields| &&
    forall i :: 0 <= i < |fields| && !fields[i].rule.Repeated? && !fields[i].rule.FixedCount? ==> |m.slots[i].values| == 1
  }

  // pb_check_proto3_default_value for a proto3 singular field
  predicate IsDefault(kind: Kind, v: Value)
    decreases v
  {
    match kind
    case Blob(_) => v == Raw([])
    case Text(_) => v.Raw? && UpToNul(v.bytes) == []
    case FixedBlob(size) => size == 0
    case Submessage(fs) =>
      Shaped(fs, v) &&
      (forall i :: 0 <= i < |fs| ==>
         match fs[i].rule
         case Required => false
         case Repeated(_) => v.slots[i].values == []
         case FixedCount(_) => false
         case Oneof(_) => !v.slots[i].present
         case Optional => !v.slots[i].present
         case Singular => IsDefault(fs[i].kind, v.slots[i].values[0]))
    case _ => v == Number(0)
  }

  // ---- Encoding ----

  // A C string: the characters before the first zero, or all if there is none
  function UpToNul(b: Bytes): (s: Bytes)
    ensures |s| <= |b| && s == b[..|s|] && 0 !in s && (|s| < |b| ==> b[|s|] == 0)
  {
    if b == [] || b[0] == 0 then [] else [b[0]] + UpToNul(b[1..])
  }

  lemma WithoutNul(b: Bytes)
    ensures UpToNul(b) == b <==> 0 !in b
  {
    var n := |UpToNul(b)|;
    if n < |b| {
      assert b[n] in b;
    } else {
      assert b[..n] == b;
    }
  }

  function EncodeScalar(kind: Kind, v: Value): Bytes
    requires kind.Packable()
  {
    if !v.Number? then []
    else match kind
      case Bool => Varint(if v.n != 0 then 1 else 0)
      case Int(_) => Varint(v.n % TWO64)
      case UInt(_) => Varint(v.n % TWO64)
      case SInt(_) => if -TWO63 <= v.n < TWO63 then Varint(ZigZag(v.n)) else []
      case Fix32 => EncodeFixed32(v.n % TWO32)
      case Fix64 => Fixed64(v.n % TWO64)
  }

  function EncodeValue(kind: Kind, v: Value): Bytes
    decreases v, 4
  {
    if kind.Packable() then EncodeScalar(kind, v)
    else if kind.Submessage? then
      var body := if v.Message? then EncodeFields(kind.fields, v, |kind.fields|) else [];
      Varint(|body|) + body
    else if v.Raw? then
      var b := if kind.Text? then UpToNul(v.bytes) else v.bytes;
      Varint(|b|) + b
    else []
  }

  function Tag(tag: nat, wireType: nat): Bytes {
    Varint(8 * tag + wireType)
  }

  // The first n fields
  function EncodeFields(fields: seq<Field>, m: Value, n: nat): Bytes
    requires n <= |fields|
    decreases m, 3, n
  {
    if n == 0 || !Shaped(fields, m) then [] else EncodeFields(fields, m, n - 1) + EncodeSlot(fields[n - 1], m, n - 1)
  }

  // encode_basic_field
  function EncodeSlot(f: Field, m: Value, i: nat): Bytes
    requires m.Message? && i < |m.slots|
    requires !f.rule.Repeated? && !f.rule.FixedCount? ==> |m.slots[i].values| == 1
    decreases m, 2
  {
    var slot := m.slots[i];
    match f.rule
    case Repeated(_) => EncodeArray(f, m, i)
    case FixedCount(_) => EncodeArray(f, m, i)
    case Required => Tag(f.tag, f.kind.WireType()) + EncodeValue(f.kind, slot.values[0])
    case Singular =>
      if IsDefault(f.kind, slot.values[0]) then [] else Tag(f.tag, f.kind.WireType()) + EncodeValue(f.kind, slot.values[0])
    case _ => if slot.present then Tag(f.tag, f.kind.WireType()) + EncodeValue(f.kind, slot.values[0]) else []
  }

  // encode_array: always packed if the kind allows it
  function EncodeArray(f: Field, m: Value, i: nat): Bytes
    requires m.Message? && i < |m.slots|
    decreases m, 1
  {
    var values := m.slots[i].values;
    if values == [] then []
    else if f.kind.Packable() then
      var body := PackedBody(f.kind, values, |values|);
      Tag(f.tag, 2) + Varint(|body|) + body
    else EncodeElements(f, m, i, |values|)
  }

  function PackedBody(kind: Kind, values: seq<Value>, n: nat): Bytes
    requires n <= |values| && kind.Packable()
  {
    if n == 0 then [] else PackedBody(kind, values, n - 1) + EncodeScalar(kind, values[n - 1])
  }

  function EncodeElements(f: Field, m: Value, i: nat, n: nat): Bytes
    requires m.Message? && i < |m.slots| && n <= |m.slots[i].values|
    decreases m, 0, n
  {
    if n == 0 then []
    else EncodeElements(f, m, i, n - 1) + (Tag(f.tag, f.kind.WireType()) + EncodeValue(f.kind, m.slots[i].values[n - 1]))
  }

  // ---- Well-formed descriptors and messages ----

  predicate WellFormedKind(kind: Kind) {
    match kind
    case Int(size) => size == 1 || size == 2 || size == 4 || size == 8
    case UInt(size) => size == 1 || size == 2 || size == 4 || size == 8
    case SInt(size) => size == 1 || size == 2 || size == 4 || size == 8
    case Submessage(fs) =>
      // tags are distinct, and those a 32-bit key can carry
      && (forall i :: 0 <= i < |fs| ==> 0 < fs[i].tag < 0x2000_0000 && WellFormedKind(fs[i].kind))
      && (forall i, j :: 0 <= i < j < |fs| ==> fs[i].tag != fs[j].tag)
    case _ => true
  }

  predicate InSigned(n: int, size: nat) {
    var range: int := Shl(1, 8 * size);
    -range <= 2 * n < range
  }

  predicate InUnsigned(n: int, size: nat) {
    0 <= n < Shl(1, 8 * size)
  }

  lemma IntRange(n: int, size: nat)
    requires size == 1 || size == 2 || size == 4 || size == 8
    requires InSigned(n, size)
    ensures -TWO63 <= n < TWO63 && (size < 8 ==> -TWO31 <= n < TWO31)
  {
    Widths();
  }

  lemma UIntRange(n: int, size: nat)
    requires size == 1 || size == 2 || size == 4 || size == 8
    requires InUnsigned(n, size)
    ensures 0 <= n < TWO64
  {
    Widths();
  }

  // A value the struct can hold and whose length prefixes, if any, are 32-bit values
  predicate Fits(kind: Kind, v: Value)
    decreases v, 2
  {
    match kind
    case Bool => v == Number(0) || v == Number(1)
    case Int(size) => v.Number? && InSigned(v.n, size)
    case UInt(size) => v.Number? && InUnsigned(v.n, size)
    case SInt(size) => v.Number? && InSigned(v.n, size)
    case Fix32 => v.Number? && 0 <= v.n < TWO32
    case Fix64 => v.Number? && 0 <= v.n < TWO64
    case Blob(capacity) => v.Raw? && |v.bytes| <= capacity && |v.bytes| < TWO32
    case Text(size) => v.Raw? && |v.bytes| < size && |v.bytes| < TWO32 && 0 !in v.bytes
    case FixedBlob(size) => v.Raw? && |v.bytes| == size && |v.bytes| < TWO32
    case Submessage(fs) => FitsMessage(fs, v) && |EncodeFields(fs, v, |fs|)| < TWO32
  }

  // Values of absent fields do not matter
  predicate FitsMessage(fields: seq<Field>, m: Value)
    decreases m, 1
  {
    && Shaped(fields, m)
    && (forall i :: 0 <= i < |fields| ==>
          match fields[i].rule
          case Repeated(max) => |m.slots[i].values| <= max && FitsArray(fields[i].kind, m, i)
          case FixedCount(count) => |m.slots[i].values| == count && FitsArray(fields[i].kind, m, i)
          case Required => Fits(fields[i].kind, m.slots[i].values[0])
          case Singular => Fits(fields[i].kind, m.slots[i].values[0])
          case _ => m.slots[i].present ==> Fits(fields[i].kind, m.slots[i].values[0]))
    && (forall i, j :: 0 <= i < j < |fields| && fields[i].rule.Oneof? && fields[i].rule == fields[j].rule ==>
          !(m.slots[i].present && m.slots[j].present))
  }

  predicate FitsArray(kind: Kind, m: Value, i: nat)
    requires m.Message? && i < |m.slots|
    decreases m, 0
  {
    var values := m.slots[i].values;
    && (forall k :: 0 <= k < |values| ==> Fits(kind, values[k]))
    && (kind.Packable() ==> |PackedBody(kind, values, |values|)| < TWO32)
  }

  // ---- The same message, up to the values of absent fields ----

  predicate SameValue(kind: Kind, a: Value, b: Value)
    decreases a, 2
  {
    if kind.Submessage? then SameMessage(kind.fields, a, b) else a == b
  }

  predicate SameMessage(fields: seq<Field>, a: Value, b: Value)
    decreases a, 1
  {
    && Shaped(fields, a) && Shaped(fields, b)
    && forall i :: 0 <= i < |fields| ==> SameSlot(fields[i], a, b, i)
  }

  predicate SameSlot(f: Field, a: Value, b: Value, i: nat)
    requires a.Message? && b.Message? && i < |a.slots| && i < |b.slots|
    requires !f.rule.Repeated? && !f.rule.FixedCount? ==> |a.slots[i].values| == 1 && |b.slots[i].values| == 1
    decreases a, 0
  {
    var x, y := a.slots[i], b.slots[i];
    match f.rule
    case Required => SameValue(f.kind, x.values[0], y.values[0])
    case Singular => SameValue(f.kind, x.values[0], y.values[0])
    case Repeated(_) => |x.values| == |y.values| && forall k :: 0 <= k < |x.values| ==> SameValue(f.kind, x.values[k], y.values[k])
    case FixedCount(_) => |x.values| == |y.values| && forall k :: 0 <= k < |x.values| ==> SameValue(f.kind, x.values[k], y.values[k])
    case _ => x.present == y.present && (x.present ==> SameValue(f.kind, x.values[0], y.values[0]))
  }
}
