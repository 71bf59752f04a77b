// What one more field on the wire does, whatever was decoded before it: single values are replaced, arrays grow
// in either form, and what does not fit is refused.
module DecodedTurns {
  import opened Options
  import opened ByteStrings
  import opened Wire
  import opened Messages
  import opened Decoding
  import opened MessageRoundTrip

  // The decoder can come to field i
  ghost predicate Open(fields: seq<Field>, p: Progress, i: nat) {
    WellFormedKind(Submessage(fields)) && Decoding.Holds(fields, p) && i < |fields| && !fields[i].rule.FixedCount?
  }

  // The iterator stands at the field, and if it is a required one it has been seen
  ghost predicate Noted(fields: seq<Field>, p: Progress, i: nat, q: Progress)
    requires i < |fields|
  {
    && q.pos == i && q.fixed == p.fixed && p.seen <= q.seen
    && (fields[i].rule.Required? && RequiredBefore(fields, i) < 64 ==> q.seen == p.seen + {RequiredBefore(fields, i)})
    && (!fields[i].rule.Required? ==> q.seen == p.seen)
  }

  lemma FieldTurn(fields: seq<Field>, p: Progress, i: nat, wireType: nat, input: Bytes)
    requires Open(fields, p, i) && wireType < 8
    ensures Noted(fields, p, i, Started(fields, p, i)) && Started(fields, p, i).m == p.m
    ensures var t := TakeField(fields, Started(fields, p, i), i, wireType, input);
            DecodeLoop(fields, p, Tag(fields[i].tag, wireType) + input) ==
            if t.Ok? then DecodeLoop(fields, t.value, t.rest) else Option.None
  {
    LoopTurn(fields, p, fields[i].tag, wireType, input);
    TurnFinds(fields, p, i, wireType, input);
  }

  lemma PlainBack(kind: Kind, v: Value, anew: bool, before: Value, rest: Bytes)
    requires WellFormedKind(kind) && Fits(kind, v) && !kind.Submessage?
    ensures ParseValue(kind, anew, before, EncodeValue(kind, v) + rest) == Ok(v, rest)
  {
    if kind.Packable() {
      ScalarRoundTrip(kind, v, rest);
    } else {
      RawRoundTrip(kind, v, rest);
    }
  }

  // Only slot i has changed, and if it is a member of a oneof the other members are no longer present
  ghost predicate OnlyThat(fields: seq<Field>, m: Value, i: nat, m': Value) {
    && m.Message? && m'.Message? && |m.slots| == |m'.slots| == |fields| && i < |fields|
    && forall j :: 0 <= j < |fields| && j != i ==>
         m'.slots[j] == if fields[i].rule.Oneof? && fields[j].rule == fields[i].rule then m.slots[j].(present := false) else m.slots[j]
  }

  // A field that is no array takes the last value that comes for it
  lemma ValueReplaced(fields: seq<Field>, p: Progress, i: nat, v: Value, rest: Bytes) returns (q: Progress)
    requires Open(fields, p, i) && !fields[i].rule.Repeated? && !fields[i].kind.Submessage? && Fits(fields[i].kind, v)
    ensures Decoding.Holds(fields, q) && Noted(fields, p, i, q) && OnlyThat(fields, p.m, i, q.m)
    ensures DecodeLoop(fields, p, Tag(fields[i].tag, fields[i].kind.WireType()) + (EncodeValue(fields[i].kind, v) + rest)) ==
            DecodeLoop(fields, q, rest)
    ensures q.m.slots[i].values == [v] && (fields[i].rule.Optional? || fields[i].rule.Oneof? ==> q.m.slots[i].present)
  {
    var f, input := fields[i], EncodeValue(fields[i].kind, v) + rest;
    var s := Started(fields, p, i);
    var slot := s.m.slots[i];
    FieldTurn(fields, p, i, f.kind.WireType(), input);
    PlainBack(f.kind, v, false, if slot.values != [] then slot.values[0] else DefaultValue(f.kind), rest);
    q := TakeField(fields, s, i, f.kind.WireType(), input).value;
  }

  // An array takes one more element, packable or not, if it has room, and else the message is refused
  lemma ElementAppended(fields: seq<Field>, p: Progress, i: nat, v: Value, rest: Bytes) returns (q: Progress)
    requires Open(fields, p, i) && fields[i].rule.Repeated? && !fields[i].kind.Submessage? && Fits(fields[i].kind, v)
    ensures Decoding.Holds(fields, q) && Noted(fields, p, i, q) && OnlyThat(fields, p.m, i, q.m)
    ensures var n := |p.m.slots[i].values|;
            DecodeLoop(fields, p, Tag(fields[i].tag, fields[i].kind.WireType()) + (EncodeValue(fields[i].kind, v) + rest)) ==
            if n < fields[i].rule.max then DecodeLoop(fields, q, rest) else Option.None
    ensures q.m.slots[i].values == p.m.slots[i].values + [v]
  {
    var f, input := fields[i], EncodeValue(fields[i].kind, v) + rest;
    var s := Started(fields, p, i);
    FieldTurn(fields, p, i, f.kind.WireType(), input);
    PlainBack(f.kind, v, true, DefaultValue(f.kind), rest);
    q := s.(m := Append(s.m, i, v));
  }

  lemma PackedStep(kind: Kind, values: seq<Value>, k: nat, max: nat)
    requires kind.Packable() && WellFormedKind(kind) && k < |values| && Fits(kind, values[k])
    ensures ParsePacked(kind, PackedFrom(kind, values, k), values[..k], max) ==
            if k >= max then Option.None else ParsePacked(kind, PackedFrom(kind, values, k + 1), values[..k + 1], max)
  {
    ScalarRoundTrip(kind, values[k], PackedFrom(kind, values, k + 1));
    ScalarNotEmpty(kind, values[k]);
    assert values[..k] + [values[k]] == values[..k + 1];
  }

  lemma {:induction false} PackedTooMany(kind: Kind, values: seq<Value>, k: nat, max: nat)
    requires kind.Packable() && WellFormedKind(kind) && k <= max < |values|
    requires forall x :: k <= x < |values| ==> Fits(kind, values[x])
    ensures ParsePacked(kind, PackedFrom(kind, values, k), values[..k], max) == Option.None
    decreases max - k
  {
    PackedStep(kind, values, k, max);
    if k < max {
      PackedTooMany(kind, values, k + 1, max);
    }
  }

  // An array takes all elements of a packed run, if it has room for them, and else the message is refused
  lemma RunAppended(fields: seq<Field>, p: Progress, i: nat, all: seq<Value>, body: Bytes, rest: Bytes) returns (q: Progress)
    requires Open(fields, p, i) && fields[i].rule.Repeated? && fields[i].kind.Packable()
    requires p.m.slots[i].values <= all && body == PackedFrom(fields[i].kind, all, |p.m.slots[i].values|) && |body| < TWO32
    requires |p.m.slots[i].values| <= fields[i].rule.max
    requires forall k :: |p.m.slots[i].values| <= k < |all| ==> Fits(fields[i].kind, all[k])
    ensures Decoding.Holds(fields, q) && Noted(fields, p, i, q) && OnlyThat(fields, p.m, i, q.m)
    ensures DecodeLoop(fields, p, Tag(fields[i].tag, 2) + (Varint(|body|) + body + rest)) ==
            if |all| <= fields[i].rule.max then DecodeLoop(fields, q, rest) else Option.None
    ensures q.m.slots[i].values == all
  {
    var f, input, k := fields[i], Varint(|body|) + body + rest, |p.m.slots[i].values|;
    var s := Started(fields, p, i);
    FieldTurn(fields, p, i, 2, input);
    StringRoundTrip(body, rest);
    assert all[..k] == p.m.slots[i].values;
    if |all| <= f.rule.max {
      PackedRoundTrip(f.kind, all, k, f.rule.max);
    } else {
      PackedTooMany(f.kind, all, k, f.rule.max);
    }
    q := s.(m := SetSlot(s.m, i, Slot(s.m.slots[i].present, all)));
  }
}
