// What a successful decoding says about its input, and encoding followed by decoding on streams.
module Acceptance {
  import opened Options
  import opened ByteStrings
  import opened Wire
  import opened Messages
  import opened Decoding
  import opened MessageRoundTrip
  import opened Encoder
  import opened Decoder

  // Field j is decoded from the input at some point, from this progress on
  ghost predicate Occurs(fields: seq<Field>, p: Progress, input: Bytes, j: nat)
    requires Decoding.Holds(fields, p)
    decreases |input|
  {
    if input == [] || fields == [] then false
    else
      Varint32Shrinks(input);
      match ParseVarint32(input)
      case Fail => false
      case Ok(key, rest) =>
        key != 0 &&
        (Search(fields, p.pos, key / 8, 0) == Some(j) ||
         match Turn(fields, p, key / 8, key % 8, rest)
         case Fail => false
         case Ok(q, rest') => Occurs(fields, q, rest', j))
  }

  lemma TakeKeepsSeen(fields: seq<Field>, p: Progress, i: nat, wireType: nat, input: Bytes)
    requires Decoding.Holds(fields, p) && i < |fields|
    ensures var t := TakeField(fields, p, i, wireType, input); t.Ok? ==> t.value.seen == p.seen
  {
  }

  // What a turn adds to the required fields seen is the field it found
  lemma TurnSees(fields: seq<Field>, p: Progress, tag: nat, wireType: nat, input: Bytes, k: nat)
    requires Decoding.Holds(fields, p) && fields != []
    ensures var t := Turn(fields, p, tag, wireType, input);
            t.Ok? && k in t.value.seen && k !in p.seen ==>
              var f := Search(fields, p.pos, tag, 0);
              f.Some? && f.value < |fields| && fields[f.value].rule.Required? && RequiredBefore(fields, f.value) == k
  {
    var f := Search(fields, p.pos, tag, 0);
    if f.Some? {
      SearchFinds(fields, p.pos, tag, 0);
      if CanStart(fields, p, f.value) {
        TakeKeepsSeen(fields, Started(fields, p, f.value), f.value, wireType, input);
      }
    }
  }

  lemma RequiredOnce(fields: seq<Field>, i: nat, j: nat)
    requires i < |fields| && j < |fields| && fields[i].rule.Required? && fields[j].rule.Required?
    ensures i != j ==> RequiredBefore(fields, i) != RequiredBefore(fields, j)
  {
    if i < j {
      RequiredGrows(fields, i + 1, j);
    } else if j < i {
      RequiredGrows(fields, j + 1, i);
    }
  }

  lemma {:induction false} SeenOccurs(fields: seq<Field>, p: Progress, input: Bytes, j: nat)
    requires Decoding.Holds(fields, p) && j < |fields| && fields[j].rule.Required?
    requires DecodeLoop(fields, p, input).Some?
    requires RequiredBefore(fields, j) in DecodeLoop(fields, p, input).value.seen && RequiredBefore(fields, j) !in p.seen
    ensures Occurs(fields, p, input, j)
    decreases |input|
  {
    Varint32Shrinks(input);
    var Ok(key, rest) := ParseVarint32(input);
    var k := RequiredBefore(fields, j);
    TurnSees(fields, p, key / 8, key % 8, rest, k);
    var Ok(q, rest') := Turn(fields, p, key / 8, key % 8, rest);
    if k in q.seen {
      RequiredOnce(fields, Search(fields, p.pos, key / 8, 0).value, j);
    } else {
      SeenOccurs(fields, q, rest', j);
    }
  }

  // Success means that each of the first 64 required fields was in the input
  lemma RequiredOccurs(fields: seq<Field>, m: Value, input: Bytes, j: nat)
    requires m.Message? && |m.slots| == |fields| && Decode(fields, m, input).Some?
    requires j < |fields| && fields[j].rule.Required? && RequiredBefore(fields, j) < PB_MAX_REQUIRED_FIELDS
    ensures Occurs(fields, Progress(m, 0, None, {}), input, j)
  {
    RequiredGrows(fields, j + 1, |fields|);
    SeenOccurs(fields, Progress(m, 0, None, {}), input, j);
  }

  // A substream ends exactly where its length prefix says, whatever the submessage makes of it
  lemma SubstreamCloses(fields: seq<Field>, anew: bool, before: Value, input: Bytes)
    requires ParseValue(Submessage(fields), anew, before, input).Ok?
    ensures ParseVarint32(input).Ok? && ParseVarint32(input).value <= |ParseVarint32(input).rest|
    ensures ParseValue(Submessage(fields), anew, before, input).rest ==
            ParseVarint32(input).rest[ParseVarint32(input).value..]
  {
  }

  // ---- A message that fits passes the encoder's checks ----

  lemma {:induction false} FitsPasses(kind: Kind, v: Value)
    requires Fits(kind, v)
    ensures Typed(kind, v) && Checked(kind, v)
    decreases v, 1
  {
    if kind.Submessage? {
      MessagePasses(kind.fields, v);
    }
  }

  lemma {:induction false} MessagePasses(fields: seq<Field>, m: Value)
    requires FitsMessage(fields, m)
    ensures TypedMessage(fields, m) && CheckedMessage(fields, m, |fields|)
    decreases m, 0
  {
    forall i | 0 <= i < |fields| ensures TypedSlot(fields[i], m, i) && CheckedSlot(fields[i], m, i) {
      var f, values := fields[i], m.slots[i].values;
      if f.rule.Repeated? || f.rule.FixedCount? {
        assert FitsArray(f.kind, m, i);
        forall k | 0 <= k < |values| ensures Typed(f.kind, values[k]) && Checked(f.kind, values[k]) {
          FitsPasses(f.kind, values[k]);
        }
      } else if f.rule.Required? || f.rule.Singular? || m.slots[i].present {
        FitsPasses(f.kind, values[0]);
      }
    }
  }

  // pb_encode to a buffer and pb_decode from it: both succeed exactly if the buffer has room
  method EncodeDecode(fields: seq<Field>, m: Value, room: nat) returns (ok: bool, w: Value)
    requires WellFormedKind(Submessage(fields)) && FitsMessage(fields, m) && |EncodeFields(fields, m, |fields|)| < TWO64
    ensures ok <==> |EncodeFields(fields, m, |fields|)| <= room
    ensures ok ==> SameMessage(fields, m, w)
  {
    MessagePasses(fields, m);
    var stream := new OutputStream(false, room, []);
    ok := Encode(stream, fields, m);
    w := m;
    if ok {
      assert stream.buffer == EncodeFields(fields, m, |fields|);
      ghost var back := RoundTrip(fields, m);
      ok, w := DecodeBuffer(fields, stream.buffer);
    }
  }

  // A string is encoded up to its first zero, and decoded if that leaves room for the terminator: it comes
  // back exactly if it has no zero and does not fill its array
  lemma TextComesBack(b: Bytes, size: nat, rest: Bytes)
    requires |b| <= size && |b| < TWO32
    ensures Typed(Text(size), Raw(b)) && Checked(Text(size), Raw(b))
    ensures ParseRaw(Text(size), EncodeValue(Text(size), Raw(b)) + rest) ==
            if |UpToNul(b)| < size then Ok(Raw(UpToNul(b)), rest) else Fail
    ensures ParseRaw(Text(size), EncodeValue(Text(size), Raw(b)) + rest) == Ok(Raw(b), rest) <==> |b| < size && 0 !in b
  {
    var s := UpToNul(b);
    StringRoundTrip(s, rest);
    Cut(s, rest);
    WithoutNul(b);
  }
}
