// pb_encode and its helpers on an output stream, proved against the encoding of a message. A stream
// without a callback only counts.
module Encoder {
  import opened ByteStrings
  import opened Wire
  import opened Messages

  // What C's types allow: the constructor and the range of every value the encoder looks at
  predicate Typed(kind: Kind, v: Value)
    decreases v, 2
  {
    match kind
    case Blob(_) => v.Raw?
    case Text(size) => v.Raw? && |v.bytes| <= size
    case FixedBlob(size) => v.Raw? && |v.bytes| == size
    case Submessage(fs) => TypedMessage(fs, v)
    case _ => kind.Packable() && v.Number? && Fits(kind, v)
  }

  predicate TypedMessage(fields: seq<Field>, m: Value)
    decreases m, 1
  {
    && Shaped(fields, m)
    && forall i :: 0 <= i < |fields| ==> TypedSlot(fields[i], m, i)
  }

  predicate TypedSlot(f: Field, m: Value, i: nat)
    requires m.Message? && i < |m.slots|
    requires !f.rule.Repeated? && !f.rule.FixedCount? ==> |m.slots[i].values| == 1
    decreases m, 0
  {
    match f.rule
    case Repeated(_) => forall k :: 0 <= k < |m.slots[i].values| ==> Typed(f.kind, m.slots[i].values[k])
    case FixedCount(n) => |m.slots[i].values| == n && forall k :: 0 <= k < n ==> Typed(f.kind, m.slots[i].values[k])
    case Required => Typed(f.kind, m.slots[i].values[0])
    case Singular => Typed(f.kind, m.slots[i].values[0])
    case _ => m.slots[i].present ==> Typed(f.kind, m.slots[i].values[0])
  }

  // What the encoder checks: counts and sizes kept in the struct against the room there is
  predicate Checked(kind: Kind, v: Value)
    decreases v, 2
  {
    match kind
    case Blob(capacity) => v.Raw? && |v.bytes| <= capacity
    case Submessage(fs) => Shaped(fs, v) && CheckedMessage(fs, v, |fs|)
    case _ => true
  }

  predicate CheckedMessage(fields: seq<Field>, m: Value, n: nat)
    requires n <= |fields| && Shaped(fields, m)
    decreases m, 1
  {
    forall i :: 0 <= i < n ==> CheckedSlot(fields[i], m, i)
  }

  predicate CheckedSlot(f: Field, m: Value, i: nat)
    requires m.Message? && i < |m.slots|
    requires !f.rule.Repeated? && !f.rule.FixedCount? ==> |m.slots[i].values| == 1
    decreases m, 0
  {
    match f.rule
    case Repeated(max) =>
      |m.slots[i].values| <= max && forall k :: 0 <= k < |m.slots[i].values| ==> Checked(f.kind, m.slots[i].values[k])
    case FixedCount(_) => forall k :: 0 <= k < |m.slots[i].values| ==> Checked(f.kind, m.slots[i].values[k])
    case Required => Checked(f.kind, m.slots[i].values[0])
    case Singular => IsDefault(f.kind, m.slots[i].values[0]) || Checked(f.kind, m.slots[i].values[0])
    case _ => m.slots[i].present ==> Checked(f.kind, m.slots[i].values[0])
  }

  // Writing e: it succeeds exactly if what is written passes the checks and there is room for all of it;
  // then all of it is there. The room is never overrun.
  ghost predicate Wrote(sizing: bool, max: nat, from: nat, before: Bytes, to: nat, after: Bytes, e: Bytes, checked: bool, ok: bool) {
    && (ok <==> checked && (sizing || from + |e| <= max))
    && (ok ==> to == from + |e| && after == before + if sizing then [] else e)
    && (sizing || to <= max)
  }

  lemma WroteThen(sizing: bool, max: nat, a: nat, ba: Bytes, b: nat, bb: Bytes, c: nat, bc: Bytes,
                  e: Bytes, e': Bytes, checked: bool, checked': bool, ok: bool, ok': bool)
    requires Wrote(sizing, max, a, ba, b, bb, e, checked, ok)
    requires if ok then Wrote(sizing, max, b, bb, c, bc, e', checked', ok') else !ok' && (sizing || c <= max)
    ensures Wrote(sizing, max, a, ba, c, bc, e + e', checked && checked', ok && ok')
  {
  }

  // A part that could not be written, or did not pass, fails the whole
  lemma WroteFails(sizing: bool, max: nat, a: nat, ba: Bytes, b: nat, bb: Bytes, e: Bytes, whole: Bytes, checked: bool, all: bool)
    requires Wrote(sizing, max, a, ba, b, bb, e, checked, false) && |e| <= |whole| && (all ==> checked)
    ensures Wrote(sizing, max, a, ba, b, bb, whole, all, false)
  {
  }

  class OutputStream {
    const sizing: bool
    var maxSize: nat
    var written: nat
    var buffer: Bytes

    constructor (sizing: bool, maxSize: nat, buffer: Bytes)
      ensures this.sizing == sizing && this.maxSize == maxSize && written == 0 && this.buffer == buffer
    {
      this.sizing, this.maxSize, written, this.buffer := sizing, maxSize, 0, buffer;
    }

    ghost predicate Valid()
      reads this
    {
      sizing || written <= maxSize
    }

    // pb_write
    method Write(b: Bytes) returns (ok: bool)
      requires Valid()
      modifies this`written, this`buffer
      ensures Wrote(sizing, maxSize, old(written), old(buffer), written, buffer, b, true, ok)
    {
      if |b| > 0 && !sizing {
        if written + |b| > maxSize {
          return false;
        }
        buffer := buffer + b;
      }
      written := written + |b|;
      return true;
    }

    method WriteVarint(n: nat) returns (ok: bool)
      requires Valid() && n < TWO64
      modifies this`written, this`buffer
      ensures Wrote(sizing, maxSize, old(written), old(buffer), written, buffer, Varint(n), true, ok)
    {
      var b := EncodeVarint(n);
      ok := Write(b);
    }

    // pb_encode_tag
    method WriteTag(tag: nat, wireType: nat) returns (ok: bool)
      requires Valid() && tag < TWO32 && wireType < 8
      modifies this`written, this`buffer
      ensures Wrote(sizing, maxSize, old(written), old(buffer), written, buffer, Tag(tag, wireType), true, ok)
    {
      ok := WriteVarint(8 * tag + wireType);
    }

    // pb_encode_string
    method WriteString(b: Bytes) returns (ok: bool)
      requires Valid() && |b| < TWO64
      modifies this`written, this`buffer
      ensures Wrote(sizing, maxSize, old(written), old(buffer), written, buffer, Varint(|b|) + b, true, ok)
    {
      ghost var a, ba := written, buffer;
      ok := WriteVarint(|b|);
      ghost var ok0, mid, bmid := ok, written, buffer;
      if ok {
        ok := Write(b);
      }
      WroteThen(sizing, maxSize, a, ba, mid, bmid, written, buffer, Varint(|b|), b, true, true, ok0, ok);
    }

    // The encoders of packable values
    method WriteScalar(kind: Kind, v: Value) returns (ok: bool)
      requires Valid() && kind.Packable() && v.Number? && Fits(kind, v) && WellFormedKind(kind)
      modifies this`written, this`buffer
      ensures Wrote(sizing, maxSize, old(written), old(buffer), written, buffer, EncodeScalar(kind, v), true, ok)
    {
      match kind
      case Bool => ok := WriteVarint(if v.n != 0 then 1 else 0);
      case Int(_) => ok := WriteVarint(v.n % TWO64);
      case UInt(_) => ok := WriteVarint(v.n % TWO64);
      case SInt(size) =>
        IntRange(v.n, size);
        ok := WriteVarint(ZigZag(v.n));
      case Fix32 => ok := Write(EncodeFixed32(v.n % TWO32));
      case Fix64 => ok := Write(Fixed64(v.n % TWO64));
    }
  }


  lemma TypedScalar(kind: Kind, v: Value)
    requires kind.Packable() && Typed(kind, v)
    ensures v.Number? && Fits(kind, v)
  {
  }

  // The tag of a field, the type of its value on the wire and then the value
  method EncodeTagged(s: OutputStream, f: Field, m: Value, i: nat, k: nat) returns (ok: bool)
    requires s.Valid() && WellFormedKind(f.kind) && f.tag < 0x2000_0000
    requires m.Message? && i < |m.slots| && k < |m.slots[i].values| && Typed(f.kind, m.slots[i].values[k])
    requires |EncodeValue(f.kind, m.slots[i].values[k])| < TWO64
    modifies s`written, s`buffer
    ensures Wrote(s.sizing, s.maxSize, old(s.written), old(s.buffer), s.written, s.buffer,
                  Tag(f.tag, f.kind.WireType()) + EncodeValue(f.kind, m.slots[i].values[k]),
                  Checked(f.kind, m.slots[i].values[k]), ok)
    decreases m, 0, 0
  {
    var v := m.slots[i].values[k];
    ghost var a, ba := s.written, s.buffer;
    ok := s.WriteTag(f.tag, f.kind.WireType());
    ghost var ok0, b, bb := ok, s.written, s.buffer;
    if ok {
      ok := EncodeOne(s, f.kind, v);
    }
    WroteThen(s.sizing, s.maxSize, a, ba, b, bb, s.written, s.buffer, Tag(f.tag, f.kind.WireType()),
              EncodeValue(f.kind, v), true, Checked(f.kind, v), ok0, ok);
  }

  // The function pb_enc_... of a field's type
  method EncodeOne(s: OutputStream, kind: Kind, v: Value) returns (ok: bool)
    requires s.Valid() && WellFormedKind(kind) && Typed(kind, v) && |EncodeValue(kind, v)| < TWO64
    modifies s`written, s`buffer
    ensures Wrote(s.sizing, s.maxSize, old(s.written), old(s.buffer), s.written, s.buffer,
                  EncodeValue(kind, v), Checked(kind, v), ok)
    decreases v, 4, 0
  {
    if kind.Packable() {
      TypedScalar(kind, v);
      ok := s.WriteScalar(kind, v);
    } else if kind.Submessage? {
      ok := EncodeSubmessage(s, kind.fields, v);
    } else if kind.Blob? && |v.bytes| > kind.capacity {
      return false;
    } else if kind.Text? {
      var size := TextSize(v.bytes, kind.size);
      ok := s.WriteString(v.bytes[..size]);
    } else {
      ok := s.WriteString(v.bytes);
    }
  }

  // The scan of pb_enc_string; the array holds b, and a zero after it if there is room
  method TextSize(b: Bytes, maxSize: nat) returns (size: nat)
    requires |b| <= maxSize
    ensures size == |UpToNul(b)|
  {
    size := 0;
    ghost var s := UpToNul(b);
    assert forall i :: 0 <= i < |s| ==> b[i] == s[i] && s[i] in s;
    while size < maxSize && size < |b| && b[size] != 0
      invariant size <= |s|
    {
      size := size + 1;
    }
  }

  // pb_encode_submessage: a sizing pass, the length, and the writing pass on a stream with just that room
  method EncodeSubmessage(s: OutputStream, fields: seq<Field>, m: Value) returns (ok: bool)
    requires s.Valid() && WellFormedKind(Submessage(fields)) && TypedMessage(fields, m)
    requires |EncodeFields(fields, m, |fields|)| < TWO64
    modifies s`written, s`buffer
    ensures Wrote(s.sizing, s.maxSize, old(s.written), old(s.buffer), s.written, s.buffer,
                  EncodeValue(Submessage(fields), m), Shaped(fields, m) && CheckedMessage(fields, m, |fields|), ok)
    decreases m, 3, 1
  {
    ghost var body := EncodeFields(fields, m, |fields|);
    var substream := new OutputStream(true, 0, []);
    ok := Encode(substream, fields, m);
    if !ok {
      return false;
    }
    var size := substream.written;
    assert size == |body|;
    ok := s.WriteVarint(size);
    if !ok {
      return false;
    }
    if s.sizing {
      s.written := s.written + size;
      return true;
    }
    if s.written + size > s.maxSize {
      return false;
    }
    substream := new OutputStream(false, size, s.buffer);
    ok := Encode(substream, fields, m);
    s.written := s.written + substream.written;
    s.buffer := substream.buffer;
    // otherwise "submsg size changed", which the contract of this method excludes
    ok := ok && substream.written == size;
  }

  // encode_array
  method EncodeArrayTo(s: OutputStream, f: Field, m: Value, i: nat) returns (ok: bool)
    requires s.Valid() && WellFormedKind(f.kind) && f.tag < 0x2000_0000
    requires m.Message? && i < |m.slots| && (f.rule.Repeated? || f.rule.FixedCount?) && TypedSlot(f, m, i)
    requires |EncodeArray(f, m, i)| < TWO64
    modifies s`written, s`buffer
    ensures Wrote(s.sizing, s.maxSize, old(s.written), old(s.buffer), s.written, s.buffer,
                  EncodeArray(f, m, i), CheckedSlot(f, m, i), ok)
    decreases m, 1, 0
  {
    var values := m.slots[i].values;
    if |values| == 0 {
      return true;
    }
    if f.rule.Repeated? && |values| > f.rule.max {
      return false;
    }
    if f.kind.Packable() {
      PackedChecked(f, m, i);
      ok := EncodePacked(s, f, values);
      return;
    }
    ok := EncodeUnpacked(s, f, m, i);
  }

  ghost predicate AllChecked(kind: Kind, values: seq<Value>, n: nat)
    requires n <= |values|
  {
    forall k :: 0 <= k < n ==> Checked(kind, values[k])
  }

  lemma NextElement(f: Field, m: Value, i: nat, k: nat)
    requires m.Message? && i < |m.slots| && k < |m.slots[i].values|
    ensures EncodeElements(f, m, i, k + 1) ==
            EncodeElements(f, m, i, k) + (Tag(f.tag, f.kind.WireType()) + EncodeValue(f.kind, m.slots[i].values[k]))
    ensures AllChecked(f.kind, m.slots[i].values, k + 1) <==>
            AllChecked(f.kind, m.slots[i].values, k) && Checked(f.kind, m.slots[i].values[k])
  {
  }

  // Every element with its own tag
  method EncodeUnpacked(s: OutputStream, f: Field, m: Value, i: nat) returns (ok: bool)
    requires s.Valid() && WellFormedKind(f.kind) && f.tag < 0x2000_0000
    requires m.Message? && i < |m.slots| && forall k :: 0 <= k < |m.slots[i].values| ==> Typed(f.kind, m.slots[i].values[k])
    requires |EncodeElements(f, m, i, |m.slots[i].values|)| < TWO64
    modifies s`written, s`buffer
    ensures Wrote(s.sizing, s.maxSize, old(s.written), old(s.buffer), s.written, s.buffer,
                  EncodeElements(f, m, i, |m.slots[i].values|),
                  AllChecked(f.kind, m.slots[i].values, |m.slots[i].values|), ok)
    decreases m, 0, 1
  {
    var values := m.slots[i].values;
    ghost var a, ba := s.written, s.buffer;
    var k := 0;
    ok := true;
    while k < |values| && ok
      invariant k <= |values| && s.Valid()
      invariant Wrote(s.sizing, s.maxSize, a, ba, s.written, s.buffer, EncodeElements(f, m, i, k), AllChecked(f.kind, values, k), ok)
    {
      ghost var b, bb := s.written, s.buffer;
      ElementsBound(f, m, i, k + 1);
      ok := EncodeTagged(s, f, m, i, k);
      NextElement(f, m, i, k);
      WroteThen(s.sizing, s.maxSize, a, ba, b, bb, s.written, s.buffer, EncodeElements(f, m, i, k),
                Tag(f.tag, f.kind.WireType()) + EncodeValue(f.kind, values[k]),
                AllChecked(f.kind, values, k), Checked(f.kind, values[k]), true, ok);
      k := k + 1;
    }
    if !ok {
      ElementsBound(f, m, i, k);
      WroteFails(s.sizing, s.maxSize, a, ba, s.written, s.buffer, EncodeElements(f, m, i, k),
                 EncodeElements(f, m, i, |values|), AllChecked(f.kind, values, k), AllChecked(f.kind, values, |values|));
    }
  }

  lemma PackedChecked(f: Field, m: Value, i: nat)
    requires m.Message? && i < |m.slots| && f.kind.Packable() && (f.rule.Repeated? || f.rule.FixedCount?)
    requires f.rule.Repeated? ==> |m.slots[i].values| <= f.rule.max
    ensures CheckedSlot(f, m, i)
  {
  }

  lemma {:induction false} ElementsBound(f: Field, m: Value, i: nat, k: nat)
    requires m.Message? && i < |m.slots| && 0 < k <= |m.slots[i].values|
    ensures |EncodeElements(f, m, i, k)| <= |EncodeElements(f, m, i, |m.slots[i].values|)|
    ensures |EncodeValue(f.kind, m.slots[i].values[k - 1])| <= |EncodeElements(f, m, i, k)|
    decreases |m.slots[i].values| - k
  {
    if k < |m.slots[i].values| {
      ElementsBound(f, m, i, k + 1);
    }
  }

  lemma {:induction false} BodyBound(kind: Kind, values: seq<Value>, k: nat)
    requires kind.Packable() && k <= |values|
    ensures |PackedBody(kind, values, k)| <= |PackedBody(kind, values, |values|)|
    decreases |values| - k
  {
    if k < |values| {
      BodyBound(kind, values, k + 1);
    }
  }

  lemma {:induction false} FixedSize(kind: Kind, values: seq<Value>, k: nat)
    requires kind.Fix32? || kind.Fix64?
    requires k <= |values| && forall j :: 0 <= j < |values| ==> Typed(kind, values[j])
    ensures |PackedBody(kind, values, k)| == (if kind.Fix32? then 4 else 8) * k
  {
    if k > 0 {
      FixedSize(kind, values, k - 1);
      TypedScalar(kind, values[k - 1]);
    }
  }

  // The elements of a packed array one after the other
  method EncodeBody(s: OutputStream, kind: Kind, values: seq<Value>) returns (ok: bool)
    requires s.Valid() && kind.Packable() && WellFormedKind(kind)
    requires forall j :: 0 <= j < |values| ==> Typed(kind, values[j])
    modifies s`written, s`buffer
    ensures Wrote(s.sizing, s.maxSize, old(s.written), old(s.buffer), s.written, s.buffer,
                  PackedBody(kind, values, |values|), true, ok)
  {
    ghost var a, ba := s.written, s.buffer;
    var k := 0;
    ok := true;
    while k < |values| && ok
      invariant k <= |values| && s.Valid()
      invariant Wrote(s.sizing, s.maxSize, a, ba, s.written, s.buffer, PackedBody(kind, values, k), true, ok)
    {
      ghost var b, bb := s.written, s.buffer;
      TypedScalar(kind, values[k]);
      ok := s.WriteScalar(kind, values[k]);
      WroteThen(s.sizing, s.maxSize, a, ba, b, bb, s.written, s.buffer, PackedBody(kind, values, k),
                EncodeScalar(kind, values[k]), true, true, true, ok);
      k := k + 1;
    }
    if !ok {
      BodyBound(kind, values, k);
      WroteFails(s.sizing, s.maxSize, a, ba, s.written, s.buffer, PackedBody(kind, values, k),
                 PackedBody(kind, values, |values|), true, true);
    }
  }

  // How long the body of a packed array is: known for fixed-width values, else from a sizing pass
  method PackedSize(kind: Kind, values: seq<Value>) returns (size: nat)
    requires kind.Packable() && WellFormedKind(kind)
    requires forall j :: 0 <= j < |values| ==> Typed(kind, values[j])
    ensures size == |PackedBody(kind, values, |values|)|
  {
    if kind.Fix32? {
      FixedSize(kind, values, |values|);
      size := 4 * |values|;
    } else if kind.Fix64? {
      FixedSize(kind, values, |values|);
      size := 8 * |values|;
    } else {
      var sizestream := new OutputStream(true, 0, []);
      var ok := EncodeBody(sizestream, kind, values);
      size := sizestream.written;
    }
  }

  method EncodePacked(s: OutputStream, f: Field, values: seq<Value>) returns (ok: bool)
    requires s.Valid() && f.kind.Packable() && WellFormedKind(f.kind) && f.tag < 0x2000_0000 && values != []
    requires forall j :: 0 <= j < |values| ==> Typed(f.kind, values[j])
    requires |PackedBody(f.kind, values, |values|)| < TWO64
    modifies s`written, s`buffer
    ensures Wrote(s.sizing, s.maxSize, old(s.written), old(s.buffer), s.written, s.buffer,
                  Tag(f.tag, 2) + Varint(|PackedBody(f.kind, values, |values|)|) + PackedBody(f.kind, values, |values|), true, ok)
  {
    ghost var body := PackedBody(f.kind, values, |values|);
    ghost var a, ba := s.written, s.buffer;
    ok := s.WriteTag(f.tag, 2);
    if !ok {
      return false;
    }
    var size := PackedSize(f.kind, values);
    ghost var b, bb := s.written, s.buffer;
    ok := s.WriteVarint(size);
    WroteThen(s.sizing, s.maxSize, a, ba, b, bb, s.written, s.buffer, Tag(f.tag, 2), Varint(size), true, true, true, ok);
    if !ok {
      return false;
    }
    ghost var c, bc := s.written, s.buffer;
    if s.sizing {
      s.written := s.written + size;
    } else {
      ok := EncodeBody(s, f.kind, values);
    }
    WroteThen(s.sizing, s.maxSize, a, ba, c, bc, s.written, s.buffer, Tag(f.tag, 2) + Varint(size), body, true, true, true, ok);
  }

  // encode_basic_field
  method EncodeBasicField(s: OutputStream, f: Field, m: Value, i: nat) returns (ok: bool)
    requires s.Valid() && WellFormedKind(f.kind) && f.tag < 0x2000_0000
    requires m.Message? && i < |m.slots| && (!f.rule.Repeated? && !f.rule.FixedCount? ==> |m.slots[i].values| == 1)
    requires TypedSlot(f, m, i) && |EncodeSlot(f, m, i)| < TWO64
    modifies s`written, s`buffer
    ensures Wrote(s.sizing, s.maxSize, old(s.written), old(s.buffer), s.written, s.buffer,
                  EncodeSlot(f, m, i), CheckedSlot(f, m, i), ok)
    decreases m, 2, 0
  {
    match f.rule
    case Required => ok := EncodeTagged(s, f, m, i, 0);
    case Repeated(_) => ok := EncodeArrayTo(s, f, m, i);
    case FixedCount(_) => ok := EncodeArrayTo(s, f, m, i);
    case Singular =>
      ok := true;
      if !IsDefault(f.kind, m.slots[i].values[0]) {
        ok := EncodeTagged(s, f, m, i, 0);
      }
    case _ =>
      ok := true;
      if m.slots[i].present {
        ok := EncodeTagged(s, f, m, i, 0);
      }
  }

  lemma {:induction false} FieldsBound(fields: seq<Field>, m: Value, n: nat)
    requires 0 < n <= |fields| && Shaped(fields, m)
    ensures |EncodeFields(fields, m, n)| <= |EncodeFields(fields, m, |fields|)|
    ensures |EncodeSlot(fields[n - 1], m, n - 1)| <= |EncodeFields(fields, m, n)|
    decreases |fields| - n
  {
    if n < |fields| {
      FieldsBound(fields, m, n + 1);
    }
  }

  // pb_encode: it succeeds exactly if the message passes the encoder's checks and there is room for its
  // encoding, which it then has written; sizing and writing passes agree on the length.
  method Encode(s: OutputStream, fields: seq<Field>, m: Value) returns (ok: bool)
    requires s.Valid() && WellFormedKind(Submessage(fields)) && TypedMessage(fields, m)
    requires |EncodeFields(fields, m, |fields|)| < TWO64
    modifies s`written, s`buffer
    ensures Wrote(s.sizing, s.maxSize, old(s.written), old(s.buffer), s.written, s.buffer,
                  EncodeFields(fields, m, |fields|), Shaped(fields, m) && CheckedMessage(fields, m, |fields|), ok)
    decreases m, 3, 0
  {
    ghost var a, ba := s.written, s.buffer;
    var n := 0;
    ok := true;
    while n < |fields| && ok
      invariant n <= |fields| && s.Valid()
      invariant Wrote(s.sizing, s.maxSize, a, ba, s.written, s.buffer, EncodeFields(fields, m, n), CheckedMessage(fields, m, n), ok)
    {
      FieldsBound(fields, m, n + 1);
      ghost var b, bb := s.written, s.buffer;
      ok := EncodeBasicField(s, fields[n], m, n);
      WroteThen(s.sizing, s.maxSize, a, ba, b, bb, s.written, s.buffer, EncodeFields(fields, m, n),
                EncodeSlot(fields[n], m, n), CheckedMessage(fields, m, n), CheckedSlot(fields[n], m, n), true, ok);
      n := n + 1;
    }
    if !ok {
      FieldsBound(fields, m, n);
      WroteFails(s.sizing, s.maxSize, a, ba, s.written, s.buffer, EncodeFields(fields, m, n),
                 EncodeFields(fields, m, |fields|), CheckedMessage(fields, m, n), CheckedMessage(fields, m, |fields|));
    }
  }

  // pb_get_encoded_size
  method GetEncodedSize(fields: seq<Field>, m: Value) returns (ok: bool, size: nat)
    requires WellFormedKind(Submessage(fields)) && TypedMessage(fields, m)
    requires |EncodeFields(fields, m, |fields|)| < TWO64
    ensures ok <==> CheckedMessage(fields, m, |fields|)
    ensures ok ==> size == |EncodeFields(fields, m, |fields|)|
  {
    var stream := new OutputStream(true, 0, []);
    ok := Encode(stream, fields, m);
    size := stream.written;
  }
}
