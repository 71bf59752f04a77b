// What pb_decode makes of a byte string: the functions the decoder is proved against.
module Decoding {
  import opened Options
  import opened ByteStrings
  import opened Wire
  import opened Messages

  const PB_MAX_REQUIRED_FIELDS := 64

  // pb_decode_varint32 then that many bytes
  function ParseString(input: Bytes): (r: Parsed<Bytes>)
    ensures r.Ok? ==> |r.rest| + |r.value| < |input|
  {
    match ParseVarint32(input)
    case Fail => Fail
    case Ok(size, rest) =>
      Varint32Shrinks(input);
      if size > |rest| then Fail else Ok(rest[..size], rest[size..])
  }

  lemma {:induction false} Varint32FromShrinks(input: Bytes, bitpos: nat, result: nat)
    ensures Varint32From(input, bitpos, result).Ok? ==>
              |Varint32From(input, bitpos, result).rest| < |input| && Varint32From(input, bitpos, result).rest ==
              input[|input| - |Varint32From(input, bitpos, result).rest|..]
    decreases |input|
  {
    if input != [] && !Overflows(input[0], bitpos, result) && input[0] >= 0x80 {
      var b := input[0];
      Varint32FromShrinks(input[1..], bitpos + 7, if bitpos >= 32 then result else (result + Shl(b % 0x80, bitpos)) % TWO32);
    }
  }

  lemma Varint32Shrinks(input: Bytes)
    ensures ParseVarint32(input).Ok? ==> |ParseVarint32(input).rest| < |input|
  {
    if input != [] && input[0] >= 0x80 {
      Varint32FromShrinks(input[1..], 7, input[0] - 0x80);
    }
  }

  lemma {:induction false} VarintFromShrinks(input: Bytes, bitpos: nat, result: nat)
    ensures VarintFrom(input, bitpos, result).Ok? ==>
              |VarintFrom(input, bitpos, result).rest| < |input| && VarintFrom(input, bitpos, result).value < TWO64
    decreases |input|
  {
    if input != [] && bitpos < 64 && input[0] >= 0x80 {
      VarintFromShrinks(input[1..], bitpos + 7, (result + Shl(input[0] % 0x80, bitpos)) % TWO64);
    }
  }

  function ToInt32(u: nat): int {
    var low := u % TWO32;
    if low >= TWO31 then low - TWO32 else low
  }

  function InRange(ok: bool, n: int, rest: Bytes): Parsed<Value> {
    if ok then Ok(Number(n), rest) else Fail
  }

  // pb_dec_bool, varint, uvarint, svarint, fixed32 and fixed64; narrow integers are checked against
  // their size after a cast to 32 bits if they are signed
  function ParseScalar(kind: Kind, input: Bytes): (r: Parsed<Value>)
    requires kind.Packable()
    ensures r.Ok? ==> |r.rest| < |input|
  {
    VarintFromShrinks(input, 0, 0);
    Varint32Shrinks(input);
    match kind
    case Bool => (match ParseVarint32(input) case Ok(n, rest) => Ok(Number(if n != 0 then 1 else 0), rest) case Fail => Fail)
    case Int(size) =>
      (match ParseVarint(input)
       case Ok(u, rest) =>
         var n := if size == 8 then Signed64(u) else ToInt32(u);
         InRange(InSigned(n, size), n, rest)
       case Fail => Fail)
    case UInt(size) => (match ParseVarint(input) case Ok(u, rest) => InRange(InUnsigned(u, size), u, rest) case Fail => Fail)
    case SInt(size) =>
      (match ParseVarint(input) case Ok(u, rest) => InRange(InSigned(UnZigZag(u), size), UnZigZag(u), rest) case Fail => Fail)
    case Fix32 => (match ParseFixed32(input) case Ok(n, rest) => Ok(Number(n), rest) case Fail => Fail)
    case Fix64 => (match ParseFixed64(input) case Ok(n, rest) => Ok(Number(n), rest) case Fail => Fail)
  }

  // pb_dec_bytes, pb_dec_string and pb_dec_fixed_length_bytes
  function ParseRaw(kind: Kind, input: Bytes): (r: Parsed<Value>)
    requires kind.Blob? || kind.Text? || kind.FixedBlob?
    ensures r.Ok? ==> |r.rest| < |input|
  {
    Varint32Shrinks(input);
    match ParseVarint32(input)
    case Fail => Fail
    case Ok(size, rest) =>
      if kind.FixedBlob? && size == 0 then Ok(Raw(Zeros(kind.size)), rest)
      else if kind.FixedBlob? && size != kind.size then Fail
      else if kind.Blob? && size > kind.capacity then Fail
      else if kind.Text? && size + 1 > kind.size then Fail
      else if size > |rest| then Fail
      else Ok(Raw(rest[..size]), rest[size..])
  }

  // What pb_decode_noinit keeps while it decodes: the message, the iterator's position, the fixed-count
  // field being received, and the required fields seen, by their index among the required ones
  datatype Progress = Progress(m: Value, pos: nat, fixed: Option<nat>, seen: set<nat>)

  // Past the end the iterator starts over
  function Around(fields: seq<Field>, pos: nat, steps: nat): nat {
    if pos + steps < |fields| then pos + steps else if pos + steps < 2 * |fields| then pos + steps - |fields| else 0
  }

  // pb_field_iter_find: from the position on, around the end and back to it
  function Search(fields: seq<Field>, pos: nat, tag: nat, steps: nat): Option<nat>
    requires pos < |fields| && steps <= |fields|
    decreases |fields| - steps
  {
    if steps == |fields| then None
    else if fields[Around(fields, pos, steps)].tag == tag then Some(Around(fields, pos, steps))
    else Search(fields, pos, tag, steps + 1)
  }

  function RequiredBefore(fields: seq<Field>, i: nat): (n: nat)
    requires i <= |fields|
    ensures n <= i
  {
    if i == 0 then 0 else RequiredBefore(fields, i - 1) + if fields[i - 1].rule.Required? then 1 else 0
  }

  // pb_skip_field; a varint may have any length here
  function SkipVarint(input: Bytes): (r: Parsed<nat>)
    ensures r.Ok? ==> |r.rest| < |input|
  {
    if input == [] then Fail else if input[0] >= 0x80 then SkipVarint(input[1..]) else Ok(0, input[1..])
  }

  function SkipField(wireType: nat, input: Bytes): (r: Parsed<nat>)
    ensures r.Ok? ==> |r.rest| <= |input|
  {
    match wireType
    case 0 => SkipVarint(input)
    case 1 => if |input| < 8 then Fail else Ok(0, input[8..])
    case 2 => (match ParseString(input) case Ok(_, rest) => Ok(0, rest) case Fail => Fail)
    case 5 => if |input| < 4 then Fail else Ok(0, input[4..])
    case _ => Fail
  }

  function Received(f: Field, m: Value, i: nat): bool
    requires m.Message? && i < |m.slots|
  {
    f.rule.FixedCount? ==> |m.slots[i].values| == f.rule.count
  }

  function SetSlot(m: Value, i: nat, slot: Slot): Value
    requires m.Message? && i < |m.slots|
  {
    Message(m.slots[i := slot])
  }

  function Append(m: Value, i: nat, v: Value): Value
    requires m.Message? && i < |m.slots|
  {
    SetSlot(m, i, Slot(m.slots[i].present, m.slots[i].values + [v]))
  }

  // which_ is overwritten: no other member of the oneof is present any more
  function Choose(fields: seq<Field>, m: Value, i: nat): Value
    requires m.Message? && |m.slots| == |fields| && i < |fields|
  {
    Message(seq(|fields|, j requires 0 <= j < |fields| =>
      if j == i then m.slots[j].(present := true)
      else if fields[j].rule == fields[i].rule && fields[j].rule.Oneof? then m.slots[j].(present := false)
      else m.slots[j]))
  }

  function Capacity(rule: Rule): nat {
    if rule.Repeated? then rule.max else if rule.FixedCount? then rule.count else 0
  }

  // The packed-array loop of decode_static_field
  function ParsePacked(kind: Kind, input: Bytes, values: seq<Value>, max: nat): Option<seq<Value>>
    requires kind.Packable()
    decreases |input|
  {
    if input == [] then Some(values)
    else if |values| >= max then None
    else match ParseScalar(kind, input)
      case Fail => None
      case Ok(v, rest) => ParsePacked(kind, rest, values + [v], max)
  }

  ghost predicate Holds(fields: seq<Field>, p: Progress) {
    p.m.Message? && |p.m.slots| == |fields| && (fields != [] ==> p.pos < |fields|) && (p.fixed.Some? ==> p.fixed.value < |fields|)
  }

  // The functions pb_dec_...; anew is for pb_decode rather than pb_decode_noinit on a submessage
  function ParseValue(kind: Kind, anew: bool, before: Value, input: Bytes): (r: Parsed<Value>)
    ensures r.Ok? ==> |r.rest| < |input|
    decreases |input|, 0
  {
    if kind.Packable() then ParseScalar(kind, input)
    else if !kind.Submessage? then ParseRaw(kind, input)
    else match ParseString(input)
      case Fail => Fail
      case Ok(body, rest) =>
        var start := if anew || !before.Message? || |before.slots| != |kind.fields| then DefaultValue(kind) else before;
        match Decode(kind.fields, start, body)
        case None => Fail
        case Some(m) => Ok(m, rest)
  }

  // pb_decode_noinit
  function Decode(fields: seq<Field>, m: Value, input: Bytes): (r: Option<Value>)
    requires m.Message? && |m.slots| == |fields|
    ensures r.Some? ==> r.value.Message? && |r.value.slots| == |fields|
    decreases |input|, 4
  {
    match DecodeLoop(fields, Progress(m, 0, None, {}), input)
    case None => None
    case Some(p) => if Complete(fields, p) then Some(p.m) else None
  }

  // The last fixed-count field is whole, and the first required fields have been seen
  predicate Complete(fields: seq<Field>, p: Progress)
    requires p.m.Message? && |p.m.slots| == |fields| && (p.fixed.Some? ==> p.fixed.value < |fields|)
  {
    && (p.fixed.Some? ==> Received(fields[p.fixed.value], p.m, p.fixed.value))
    && forall k :: 0 <= k < RequiredBefore(fields, |fields|) && k < PB_MAX_REQUIRED_FIELDS ==> k in p.seen
  }

  // A zero tag ends the message early
  function DecodeLoop(fields: seq<Field>, p: Progress, input: Bytes): (r: Option<Progress>)
    requires Holds(fields, p)
    ensures r.Some? ==> Holds(fields, r.value)
    decreases |input|, 2
  {
    if input == [] then Some(p)
    else
      Varint32Shrinks(input);
      match ParseVarint32(input)
      case Fail => None
      case Ok(key, rest) =>
        if key == 0 then Some(p)
        else match Turn(fields, p, key / 8, key % 8, rest)
          case Fail => None
          case Ok(q, rest') => DecodeLoop(fields, q, rest')
  }

  // One field: found, or skipped. An empty descriptor list is its own terminator, which tag 0 finds as a
  // bool.
  function Turn(fields: seq<Field>, p: Progress, tag: nat, wireType: nat, input: Bytes): (r: Parsed<Progress>)
    requires Holds(fields, p)
    ensures r.Ok? ==> |r.rest| <= |input| && Holds(fields, r.value)
    decreases |input|, 3
  {
    if fields == [] then
      if tag == 0 then
        (match ParseScalar(Bool, input) case Ok(_, rest) => Ok(p, rest) case Fail => Fail)
      else (match SkipField(wireType, input) case Ok(_, rest) => Ok(p, rest) case Fail => Fail)
    else match Search(fields, p.pos, tag, 0)
      case None => (match SkipField(wireType, input) case Ok(_, rest) => Ok(p, rest) case Fail => Fail)
      case Some(i) =>
        SearchFinds(fields, p.pos, tag, 0);
        if !CanStart(fields, p, i) then Fail
        else TakeField(fields, Started(fields, p, i), i, wireType, input)
  }

  lemma {:induction false} SearchFinds(fields: seq<Field>, pos: nat, tag: nat, steps: nat)
    requires pos < |fields| && steps <= |fields|
    ensures var r := Search(fields, pos, tag, steps);
            r.Some? ==> r.value < |fields| && fields[r.value].tag == tag
    decreases |fields| - steps
  {
    if steps < |fields| && fields[Around(fields, pos, steps)].tag != tag {
      SearchFinds(fields, pos, tag, steps + 1);
    }
  }

  // Another fixed-count field may only begin when the one before is whole
  predicate CanStart(fields: seq<Field>, p: Progress, i: nat)
    requires Holds(fields, p) && i < |fields|
  {
    fields[i].rule.FixedCount? && p.fixed.Some? && p.fixed.value != i ==> Received(fields[p.fixed.value], p.m, p.fixed.value)
  }

  function Started(fields: seq<Field>, p: Progress, i: nat): Progress
    requires Holds(fields, p) && i < |fields|
  {
    var k := RequiredBefore(fields, i);
    var begins := fields[i].rule.FixedCount? && p.fixed != Some(i);
    Progress(if begins then SetSlot(p.m, i, Slot(false, [])) else p.m, i,
             if begins then Some(i) else p.fixed,
             if fields[i].rule.Required? && k < PB_MAX_REQUIRED_FIELDS then p.seen + {k} else p.seen)
  }

  // decode_static_field
  function TakeField(fields: seq<Field>, p: Progress, i: nat, wireType: nat, input: Bytes): (r: Parsed<Progress>)
    requires Holds(fields, p) && i < |fields|
    ensures r.Ok? ==> |r.rest| <= |input| && Holds(fields, r.value)
    decreases |input|, 2
  {
    var f := fields[i];
    var slot := p.m.slots[i];
    match f.rule
    case Oneof(_) =>
      var before := if slot.values != [] then slot.values[0] else DefaultValue(f.kind);
      (match ParseValue(f.kind, f.kind.Submessage? && !slot.present, before, input)
       case Fail => Fail
       case Ok(v, rest) => Ok(p.(m := SetSlot(Choose(fields, p.m, i), i, Slot(true, [v]))), rest))
    case Required => Single(p, i, f.kind, slot.present, input)
    case Singular => Single(p, i, f.kind, slot.present, input)
    case Optional => Single(p, i, f.kind, true, input)
    case _ =>
      if wireType == 2 && f.kind.Packable() then
        (match ParseString(input)
         case Fail => Fail
         case Ok(body, rest) =>
           match ParsePacked(f.kind, body, slot.values, Capacity(f.rule))
           case None => Fail
           case Some(values) => Ok(p.(m := SetSlot(p.m, i, Slot(slot.present, values))), rest))
      else if |slot.values| >= Capacity(f.rule) then Fail
      else match ParseValue(f.kind, true, DefaultValue(f.kind), input)
        case Fail => Fail
        case Ok(v, rest) => Ok(p.(m := Append(p.m, i, v)), rest)
  }

  // A required or optional value, decoded over what the slot holds
  function Single(p: Progress, i: nat, kind: Kind, present: bool, input: Bytes): (r: Parsed<Progress>)
    requires p.m.Message? && i < |p.m.slots|
    ensures r.Ok? ==> |r.rest| < |input| && r.value == p.(m := r.value.m) && r.value.m.Message? && |r.value.m.slots| == |p.m.slots|
    decreases |input|, 1
  {
    var slot := p.m.slots[i];
    var before := if slot.values != [] then slot.values[0] else DefaultValue(kind);
    match ParseValue(kind, false, before, input)
    case Fail => Fail
    case Ok(v, rest) => Ok(p.(m := SetSlot(p.m, i, Slot(present, [v]))), rest)
  }

  // pb_decode
  function DecodeMessage(fields: seq<Field>, input: Bytes): Option<Value> {
    Decode(fields, DefaultValue(Submessage(fields)), input)
  }
}
