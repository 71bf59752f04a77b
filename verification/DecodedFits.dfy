// Whatever the input, a decoded message stays within the struct its descriptors declare.
module DecodedFits {
  import opened Options
  import opened ByteStrings
  import opened Wire
  import opened Messages
  import opened Decoding
  import MessageRoundTrip

  // ---- What a struct can hold ----

  // A value its member can hold: a number in range, bytes that fit the array, a string with room for its
  // terminator, all bytes of a fixed-length member
  predicate Held(kind: Kind, v: Value)
    decreases v, 1
  {
    match kind
    case Bool => v == Number(0) || v == Number(1)
    case Int(size) => v.Number? && InSigned(v.n, size)
    case UInt(size) => v.Number? && InUnsigned(v.n, size)
    case SInt(size) => v.Number? && InSigned(v.n, size)
    case Fix32 => v.Number? && 0 <= v.n < TWO32
    case Fix64 => v.Number? && 0 <= v.n < TWO64
    case Blob(capacity) => v.Raw? && |v.bytes| <= capacity
    case Text(size) => v.Raw? && (|v.bytes| < size || v.bytes == [])
    case FixedBlob(size) => v.Raw? && |v.bytes| == size
    case Submessage(fs) => HeldAll(fs, None, v)
  }

  // No array has more elements than it has room for, and of the members of a oneof at most one is present. A
  // fixed-count array is empty or whole, unless it is the one being received.
  predicate HeldAll(fields: seq<Field>, fixed: Option<nat>, m: Value)
    decreases m, 0
  {
    && m.Message? && |m.slots| == |fields|
    && (forall i :: 0 <= i < |fields| ==> HeldCount(fields[i].rule, fixed == Some(i), |m.slots[i].values|))
    && (forall i, k :: 0 <= i < |fields| && 0 <= k < |m.slots[i].values| ==> Held(fields[i].kind, m.slots[i].values[k]))
    && (forall i, j :: 0 <= i < j < |fields| && fields[i].rule.Oneof? && fields[i].rule == fields[j].rule ==>
          !(m.slots[i].present && m.slots[j].present))
  }

  // max_count, array_size, or one value
  predicate HeldCount(rule: Rule, receiving: bool, n: nat) {
    if rule.Repeated? then n <= rule.max
    else if rule.FixedCount? then n == 0 || n == rule.count || (receiving && n <= rule.count)
    else n == 1
  }

  // ---- Defaults ----

  lemma {:induction false} DefaultHeld(kind: Kind)
    requires WellFormedKind(kind)
    ensures Held(kind, DefaultValue(kind))
  {
    match kind
    case Submessage(fs) =>
      forall i | 0 <= i < |fs| ensures Held(fs[i].kind, DefaultValue(fs[i].kind)) {
        DefaultHeld(fs[i].kind);
      }
    case Int(size) => ZeroHeld(size);
    case UInt(size) => ZeroHeld(size);
    case SInt(size) => ZeroHeld(size);
    case _ =>
  }

  lemma ZeroHeld(size: nat)
    ensures InSigned(0, size) && InUnsigned(0, size)
  {
    ShlNotZero(1, 8 * size);
  }

  lemma {:induction false} ShlNotZero(x: nat, k: nat)
    requires x > 0
    ensures Shl(x, k) > 0
  {
    if k > 0 {
      ShlNotZero(x, k - 1);
    }
  }

  // ---- One field ----

  lemma ScalarHeld(kind: Kind, input: Bytes)
    requires kind.Packable()
    ensures ParseScalar(kind, input).Ok? ==> Held(kind, ParseScalar(kind, input).value)
  {
  }

  lemma {:induction false} PackedHeld(kind: Kind, input: Bytes, values: seq<Value>, max: nat)
    requires kind.Packable() && |values| <= max && forall k :: 0 <= k < |values| ==> Held(kind, values[k])
    ensures var r := ParsePacked(kind, input, values, max);
            r.Some? ==> |values| <= |r.value| <= max && forall k :: 0 <= k < |r.value| ==> Held(kind, r.value[k])
    decreases |input|
  {
    if input != [] && |values| < max {
      ScalarHeld(kind, input);
      match ParseScalar(kind, input)
      case Fail =>
      case Ok(v, rest) => PackedHeld(kind, rest, values + [v], max);
    }
  }

  lemma SlotHeld(fields: seq<Field>, fixed: Option<nat>, m: Value, i: nat, slot: Slot)
    requires HeldAll(fields, fixed, m) && i < |fields| && HeldCount(fields[i].rule, fixed == Some(i), |slot.values|)
    requires forall k :: 0 <= k < |slot.values| ==> Held(fields[i].kind, slot.values[k])
    requires fields[i].rule.Oneof? ==> slot.present == m.slots[i].present
    ensures HeldAll(fields, fixed, SetSlot(m, i, slot))
  {
  }

  lemma ChosenHeld(fields: seq<Field>, fixed: Option<nat>, m: Value, i: nat)
    requires HeldAll(fields, fixed, m) && i < |fields| && fields[i].rule.Oneof?
    ensures HeldAll(fields, fixed, Choose(fields, m, i)) && Choose(fields, m, i).slots[i].present
  {
    var m' := Choose(fields, m, i);
    forall j | 0 <= j < |fields| ensures m'.slots[j].values == m.slots[j].values {}
  }

  // What the decoder has at any time
  ghost predicate Sound(fields: seq<Field>, p: Progress) {
    WellFormedKind(Submessage(fields)) && Decoding.Holds(fields, p) && HeldAll(fields, p.fixed, p.m)
    && (p.fixed.Some? ==> fields[p.fixed.value].rule.FixedCount?)
  }

  lemma StartedSound(fields: seq<Field>, p: Progress, i: nat)
    requires Sound(fields, p) && i < |fields| && CanStart(fields, p, i)
    ensures var q := Started(fields, p, i);
            Sound(fields, q) && (fields[i].rule.FixedCount? ==> q.fixed == Some(i))
  {
    var q := Started(fields, p, i);
    if fields[i].rule.FixedCount? && p.fixed != Some(i) {
      WholeHeld(fields, p.fixed, p.m);
      NextHeld(fields, p.m, i);
    }
  }

  lemma WholeHeld(fields: seq<Field>, fixed: Option<nat>, m: Value)
    requires HeldAll(fields, fixed, m)
    requires fixed.Some? && fixed.value < |fields| ==> fields[fixed.value].rule.FixedCount? && Received(fields[fixed.value], m, fixed.value)
    ensures HeldAll(fields, None, m)
  {
  }

  // The array received before is whole, and the next one starts empty
  lemma NextHeld(fields: seq<Field>, m: Value, i: nat)
    requires HeldAll(fields, None, m) && i < |fields| && fields[i].rule.FixedCount?
    ensures HeldAll(fields, Some(i), SetSlot(m, i, Slot(false, [])))
  {
  }

  // ---- Decoding ----

  lemma RawHeld(kind: Kind, input: Bytes)
    requires kind.Blob? || kind.Text? || kind.FixedBlob?
    ensures var r := ParseRaw(kind, input);
            r.Ok? ==> r.value.Raw? && (kind.Blob? ==> |r.value.bytes| <= kind.capacity) && (kind.Text? ==> |r.value.bytes| < kind.size)
                      && (kind.FixedBlob? ==> |r.value.bytes| == kind.size)
  {
  }

  lemma {:induction false} ParsedHeld(kind: Kind, anew: bool, before: Value, input: Bytes)
    requires WellFormedKind(kind) && Held(kind, before)
    ensures ParseValue(kind, anew, before, input).Ok? ==> Held(kind, ParseValue(kind, anew, before, input).value)
    decreases |input|, 0
  {
    if kind.Packable() {
      ScalarHeld(kind, input);
    } else if !kind.Submessage? {
      RawHeld(kind, input);
    } else if ParseString(input).Ok? {
      DefaultHeld(kind);
      DecodeHeld(kind.fields, if anew then DefaultValue(kind) else before, ParseString(input).value);
    }
  }

  lemma {:induction false} DecodeHeld(fields: seq<Field>, m: Value, input: Bytes)
    requires WellFormedKind(Submessage(fields)) && HeldAll(fields, None, m)
    ensures Decode(fields, m, input).Some? ==> HeldAll(fields, None, Decode(fields, m, input).value)
    decreases |input|, 4
  {
    LoopSound(fields, Progress(m, 0, None, {}), input);
    var q := DecodeLoop(fields, Progress(m, 0, None, {}), input);
    if q.Some? && Complete(fields, q.value) {
      WholeHeld(fields, q.value.fixed, q.value.m);
    }
  }

  lemma {:induction false} LoopSound(fields: seq<Field>, p: Progress, input: Bytes)
    requires Sound(fields, p)
    ensures DecodeLoop(fields, p, input).Some? ==> Sound(fields, DecodeLoop(fields, p, input).value)
    decreases |input|, 2
  {
    if input != [] && ParseVarint32(input).Ok? && ParseVarint32(input).value != 0 {
      Varint32Shrinks(input);
      var Ok(key, rest) := ParseVarint32(input);
      TurnSound(fields, p, key / 8, key % 8, rest);
      var t := Turn(fields, p, key / 8, key % 8, rest);
      if t.Ok? {
        LoopSound(fields, t.value, t.rest);
      }
    }
  }

  lemma {:induction false} TurnSound(fields: seq<Field>, p: Progress, tag: nat, wireType: nat, input: Bytes)
    requires Sound(fields, p)
    ensures var t := Turn(fields, p, tag, wireType, input); t.Ok? ==> Sound(fields, t.value)
    decreases |input|, 3
  {
    if fields != [] && Search(fields, p.pos, tag, 0).Some? {
      SearchFinds(fields, p.pos, tag, 0);
      var i := Search(fields, p.pos, tag, 0).value;
      if CanStart(fields, p, i) {
        StartedSound(fields, p, i);
        TakeSound(fields, Started(fields, p, i), i, wireType, input);
      }
    }
  }

  lemma {:induction false} TakeSound(fields: seq<Field>, p: Progress, i: nat, wireType: nat, input: Bytes)
    requires Sound(fields, p) && i < |fields| && (fields[i].rule.FixedCount? ==> p.fixed == Some(i))
    ensures var t := TakeField(fields, p, i, wireType, input); t.Ok? ==> Sound(fields, t.value)
    decreases |input|, 2
  {
    var f, slot := fields[i], p.m.slots[i];
    if !f.rule.Repeated? && !f.rule.FixedCount? {
      var anew := f.rule.Oneof? && f.kind.Submessage? && !slot.present;
      ParsedHeld(f.kind, anew, slot.values[0], input);
      var r := ParseValue(f.kind, anew, slot.values[0], input);
      if r.Ok? {
        ValueTaken(fields, p, i, r.value);
      }
    } else if wireType == 2 && f.kind.Packable() {
      PackedTaken(fields, p, i, input);
    } else {
      DefaultHeld(f.kind);
      ParsedHeld(f.kind, true, DefaultValue(f.kind), input);
      ElementTaken(fields, p, i, ParseValue(f.kind, true, DefaultValue(f.kind), input), wireType, input);
    }
  }

  lemma PackedTaken(fields: seq<Field>, p: Progress, i: nat, input: Bytes)
    requires Sound(fields, p) && i < |fields| && (fields[i].rule.FixedCount? ==> p.fixed == Some(i))
    requires (fields[i].rule.Repeated? || fields[i].rule.FixedCount?) && fields[i].kind.Packable()
    ensures var t := TakeField(fields, p, i, 2, input); t.Ok? ==> Sound(fields, t.value)
  {
    var f, slot := fields[i], p.m.slots[i];
    if ParseString(input).Ok? {
      PackedHeld(f.kind, ParseString(input).value, slot.values, Capacity(f.rule));
      var values := ParsePacked(f.kind, ParseString(input).value, slot.values, Capacity(f.rule));
      if values.Some? {
        SlotHeld(fields, p.fixed, p.m, i, Slot(slot.present, values.value));
      }
    }
  }

  // One more element goes where there is room
  lemma ElementTaken(fields: seq<Field>, p: Progress, i: nat, r: Parsed<Value>, wireType: nat, input: Bytes)
    requires Sound(fields, p) && i < |fields| && (fields[i].rule.FixedCount? ==> p.fixed == Some(i))
    requires (fields[i].rule.Repeated? || fields[i].rule.FixedCount?) && !(wireType == 2 && fields[i].kind.Packable())
    requires r == ParseValue(fields[i].kind, true, DefaultValue(fields[i].kind), input) && (r.Ok? ==> Held(fields[i].kind, r.value))
    ensures var t := TakeField(fields, p, i, wireType, input); t.Ok? ==> Sound(fields, t.value)
  {
    var f, slot := fields[i], p.m.slots[i];
    if r.Ok? && |slot.values| < Capacity(f.rule) {
      SlotHeld(fields, p.fixed, p.m, i, Slot(slot.present, slot.values + [r.value]));
    }
  }

  // A single value is put in its place
  lemma ValueTaken(fields: seq<Field>, p: Progress, i: nat, v: Value)
    requires Sound(fields, p) && i < |fields| && Held(fields[i].kind, v) && !fields[i].rule.Repeated? && !fields[i].rule.FixedCount?
    ensures fields[i].rule.Oneof? ==> HeldAll(fields, p.fixed, SetSlot(Choose(fields, p.m, i), i, Slot(true, [v])))
    ensures !fields[i].rule.Oneof? ==> forall present: bool :: HeldAll(fields, p.fixed, SetSlot(p.m, i, Slot(present, [v])))
  {
    if fields[i].rule.Oneof? {
      ChosenHeld(fields, p.fixed, p.m, i);
      SlotHeld(fields, p.fixed, Choose(fields, p.m, i), i, Slot(true, [v]));
    } else {
      forall present: bool ensures HeldAll(fields, p.fixed, SetSlot(p.m, i, Slot(present, [v]))) {
        SlotHeld(fields, p.fixed, p.m, i, Slot(present, [v]));
      }
    }
  }

  // pb_decode: on any input whatever
  lemma DecodedHeld(fields: seq<Field>, input: Bytes)
    requires WellFormedKind(Submessage(fields)) && DecodeMessage(fields, input).Some?
    ensures Held(Submessage(fields), DecodeMessage(fields, input).value)
  {
    DefaultHeld(Submessage(fields));
    DecodeHeld(fields, DefaultValue(Submessage(fields)), input);
  }

  // ---- What is left out of the wire form ----

  // A proto3 number, byte array or string is left out exactly if it is zero or empty; a present optional field,
  // a required one or the chosen member of a oneof never is
  lemma LeftOutExactly(f: Field, m: Value, i: nat)
    requires m.Message? && i < |m.slots| && |m.slots[i].values| == 1 && !f.rule.Repeated? && !f.rule.FixedCount?
    requires Fits(f.kind, m.slots[i].values[0]) && (f.rule.Singular? ==> !f.kind.Submessage? && !f.kind.FixedBlob?)
    ensures EncodeSlot(f, m, i) == [] <==>
            if f.rule.Singular? then m.slots[i].values[0] == DefaultValue(f.kind)
            else !f.rule.Required? && !m.slots[i].present
  {
    var v := m.slots[i].values[0];
    assert Tag(f.tag, f.kind.WireType()) + EncodeValue(f.kind, v) != [];
    if f.kind.Text? {
      WithoutNul(v.bytes);
    }
  }

  // ---- Members of different widths ----

  // A signed value is on the wire what it is to any wider member: negative ones are sign-extended to 64 bits
  lemma Widens(n: int, size: nat, wide: nat)
    requires (size == 1 || size == 2 || size == 4 || size == 8) && (wide == 1 || wide == 2 || wide == 4 || wide == 8)
    requires size <= wide && InSigned(n, size)
    ensures -TWO63 <= n < TWO63 && EncodeScalar(Int(size), Number(n)) == Varint(if n < 0 then n + TWO64 else n)
    ensures ParseScalar(Int(wide), EncodeScalar(Int(size), Number(n))) == Ok(Number(n), [])
  {
    IntRange(n, size);
    Wider(n, size, wide);
    SignExtended(n);
    var b := EncodeScalar(Int(size), Number(n));
    assert b == Varint(n % TWO64);
    MessageRoundTrip.IntRoundTrip(n, wide, []);
    assert b + [] == b;
  }

  lemma SignExtended(n: int)
    requires -TWO63 <= n < TWO63
    ensures n % TWO64 == if n < 0 then n + TWO64 else n
  {
  }

  lemma Wider(n: int, size: nat, wide: nat)
    requires (size == 1 || size == 2 || size == 4 || size == 8) && (wide == 1 || wide == 2 || wide == 4 || wide == 8)
    requires size <= wide && InSigned(n, size)
    ensures InSigned(n, wide)
  {
    ShlGrows(8 * size, 8 * wide);
  }

  lemma {:induction false} ShlGrows(j: nat, k: nat)
    requires j <= k
    ensures Shl(1, j) <= Shl(1, k)
    decreases k
  {
    if j < k {
      ShlGrows(j, k - 1);
    }
  }
}
