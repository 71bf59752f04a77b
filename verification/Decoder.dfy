// pb_decode and its helpers on an input stream, proved against what Decoding says they make of the bytes.
module Decoder {
  import opened Options
  import opened ByteStrings
  import opened Wire
  import opened Messages
  import opened Decoding
  import opened FieldBits

  // A reader went from before to after: it succeeds exactly if the parse does, with its value and rest
  ghost predicate Reads<T(!new)>(parsed: Parsed<T>, ok: bool, value: T, after: Bytes) {
    && (ok <==> parsed.Ok?)
    && (ok ==> parsed == Ok(value, after))
  }

  class InputStream {
    const data: Bytes
    var pos: nat
    var bytesLeft: nat

    constructor (data: Bytes, pos: nat, bytesLeft: nat)
      requires pos + bytesLeft <= |data|
      ensures this.data == data && this.pos == pos && this.bytesLeft == bytesLeft && Valid()
    {
      this.data, this.pos, this.bytesLeft := data, pos, bytesLeft;
    }

    ghost predicate Valid()
      reads this
    {
      pos + bytesLeft <= |data|
    }

    ghost function Left(): Bytes
      reads this
      requires Valid()
    {
      data[pos..pos + bytesLeft]
    }

    ghost function End(): nat
      reads this
    {
      pos + bytesLeft
    }

    // pb_readbyte
    method ReadByte() returns (ok: bool, b: byte)
      requires Valid()
      modifies this
      ensures Valid() && End() == old(End()) && pos >= old(pos)
      ensures ok <==> old(Left()) != []
      ensures ok ==> b == old(Left())[0] && Left() == old(Left())[1..]
      ensures !ok ==> bytesLeft == 0
    {
      if bytesLeft == 0 {
        return false, 0;
      }
      b := data[pos];
      pos := pos + 1;
      bytesLeft := bytesLeft - 1;
      ok := true;
    }

    // pb_read
    method Read(count: nat) returns (ok: bool, b: Bytes)
      requires Valid()
      modifies this
      ensures Valid() && End() == old(End()) && pos >= old(pos)
      ensures ok <==> count <= |old(Left())|
      ensures ok ==> b == old(Left())[..count] && Left() == old(Left())[count..]
    {
      if bytesLeft < count {
        return false, [];
      }
      b := data[pos..pos + count];
      pos := pos + count;
      bytesLeft := bytesLeft - count;
      ok := true;
    }

    // pb_decode_varint
    method DecodeVarint() returns (ok: bool, value: nat)
      requires Valid()
      modifies this
      ensures Valid() && End() == old(End()) && pos >= old(pos)
      ensures Reads(ParseVarint(old(Left())), ok, value, Left())
      ensures ok ==> value < TWO64
    {
      ghost var input := Left();
      var bitpos := 0;
      value := 0;
      while true
        invariant Valid() && End() == old(End()) && pos >= old(pos)
        invariant ParseVarint(input) == VarintFrom(Left(), bitpos, value)
        decreases bytesLeft
      {
        if bitpos >= 64 {
          return false, 0;
        }
        var more, b := ReadByte();
        if !more {
          return false, 0;
        }
        value := (value + Shl(b % 0x80, bitpos)) % TWO64;
        bitpos := bitpos + 7;
        if b < 0x80 {
          return true, value;
        }
      }
    }

    // pb_decode_varint32_eof
    method DecodeVarint32() returns (ok: bool, value: nat, eof: bool)
      requires Valid()
      modifies this
      ensures Valid() && End() == old(End()) && pos >= old(pos)
      ensures Reads(ParseVarint32(old(Left())), ok, value, Left())
      ensures eof <==> old(Left()) == []
    {
      ghost var input := Left();
      var more, b := ReadByte();
      if !more {
        return false, 0, true;
      }
      if b < 0x80 {
        return true, b, false;
      }
      ok, value := DecodeVarint32Rest(7, b - 0x80);
      eof := false;
    }

    // The multibyte case
    method DecodeVarint32Rest(start: nat, low: nat) returns (ok: bool, value: nat)
      requires Valid()
      modifies this
      ensures Valid() && End() == old(End()) && pos >= old(pos)
      ensures Reads(Varint32From(old(Left()), start, low), ok, value, Left())
    {
      ghost var input := Left();
      var bitpos := start;
      value := low;
      while true
        invariant Valid() && End() == old(End()) && pos >= old(pos)
        invariant Varint32From(input, start, low) == Varint32From(Left(), bitpos, value)
        decreases bytesLeft
      {
        var more, b := ReadByte();
        if !more {
          return false, 0;
        }
        if bitpos >= 32 {
          var signExtension := if bitpos < 63 then 0xFF else 0x01;
          if b % 0x80 != 0x00 && (value / TWO31 == 0 || b != signExtension) {
            return false, 0;
          }
        } else {
          value := (value + Shl(b % 0x80, bitpos)) % TWO32;
        }
        bitpos := bitpos + 7;
        if b < 0x80 {
          if bitpos == 35 && b / 0x10 != 0 {
            return false, 0;
          }
          return true, value;
        }
      }
    }

    // pb_make_string_substream: this stream's position stays where the substream begins
    method MakeSubstream() returns (ok: bool, substream: InputStream)
      requires Valid()
      modifies this
      ensures Valid() && pos >= old(pos) && (ok ==> bytesLeft < old(bytesLeft))
      ensures ok <==> ParseString(old(Left())).Ok?
      ensures ok ==> fresh(substream) && substream.data == data && substream.Valid() && substream.pos == pos
      ensures ok ==> substream.Left() == ParseString(old(Left())).value && substream.End() + bytesLeft == old(End())
      ensures ok ==> data[substream.End()..old(End())] == ParseString(old(Left())).rest
      ensures !ok ==> substream == this && End() == old(End())
    {
      ghost var input := Left();
      Varint32Shrinks(input);
      var size: nat, eof;
      ok, size, eof := DecodeVarint32();
      if !ok || bytesLeft < size {
        return false, this;
      }
      ghost var rest := Left();
      substream := new InputStream(data, pos, size);
      bytesLeft := bytesLeft - size;
      assert substream.Left() == rest[..size];
      assert data[substream.End()..old(End())] == rest[size..];
    }

    // pb_close_string_substream: whatever the substream has left is skipped
    method CloseSubstream(substream: InputStream) returns (ok: bool)
      requires substream != this && substream.data == data && substream.Valid() && substream.End() + bytesLeft <= |data|
      modifies this, substream
      ensures ok && Valid() && pos == old(substream.End()) && bytesLeft == old(bytesLeft)
    {
      ok := true;
      if substream.bytesLeft > 0 {
        var skipped;
        ok, skipped := substream.Read(substream.bytesLeft);
      }
      pos := substream.pos;
    }

    // pb_skip_varint
    method SkipVarints() returns (ok: bool)
      requires Valid()
      modifies this
      ensures Valid() && End() == old(End()) && pos >= old(pos)
      ensures Reads(SkipVarint(old(Left())), ok, 0, Left())
    {
      ghost var input := Left();
      while true
        invariant Valid() && End() == old(End()) && pos >= old(pos)
        invariant SkipVarint(input) == SkipVarint(Left())
        decreases bytesLeft
      {
        var more, b := ReadByte();
        if !more {
          return false;
        }
        if b < 0x80 {
          return true;
        }
      }
    }

    // pb_skip_field and pb_skip_string
    method SkipFieldOf(wireType: nat) returns (ok: bool)
      requires Valid()
      modifies this
      ensures Valid() && End() == old(End()) && pos >= old(pos)
      ensures Reads(SkipField(wireType, old(Left())), ok, 0, Left())
    {
      var b;
      match wireType
      case 0 => ok := SkipVarints();
      case 1 => ok, b := Read(8);
      case 2 =>
        var length, eof;
        Varint32Shrinks(Left());
        ok, length, eof := DecodeVarint32();
        if ok {
          ok, b := Read(length);
        }
      case 5 => ok, b := Read(4);
      case _ => ok := false;
    }

    // pb_dec_bool, pb_dec_varint, pb_dec_uvarint, pb_dec_svarint, pb_dec_fixed32 and pb_dec_fixed64
    method DecodeScalar(kind: Kind) returns (ok: bool, v: Value)
      requires Valid() && kind.Packable()
      modifies this
      ensures Valid() && End() == old(End()) && pos >= old(pos)
      ensures Reads(ParseScalar(kind, old(Left())), ok, v, Left())
    {
      ghost var input := Left();
      v := Number(0);
      if kind.Bool? {
        var n, eof;
        ok, n, eof := DecodeVarint32();
        v := Number(if n != 0 then 1 else 0);
      } else if kind.Fix32? || kind.Fix64? {
        var b;
        ok, b := Read(if kind.Fix32? then 4 else 8);
        if ok {
          v := Number(if kind.Fix32? then DecodeFixed32(b) else DecodeFixed32(b[..4]) + TWO32 * DecodeFixed32(b[4..]));
          assert kind.Fix64? ==> b[..4] == input[..4] && b[4..] == input[4..8];
        }
      } else {
        var u;
        ok, u := DecodeVarint();
        if ok {
          ok, v := Narrow(kind, u);
        }
      }
    }
  }

  // The checks against data_size
  method Narrow(kind: Kind, u: nat) returns (ok: bool, v: Value)
    requires (kind.Int? || kind.UInt? || kind.SInt?) && u < TWO64
    ensures v.Number?
    ensures kind.Int? ==> v.n == (if kind.size == 8 then Signed64(u) else ToInt32(u)) && ok == InSigned(v.n, kind.size)
    ensures kind.UInt? ==> v.n == u && ok == InUnsigned(u, kind.size)
    ensures kind.SInt? ==> v.n == UnZigZag(u) && ok == InSigned(v.n, kind.size)
  {
    if kind.Int? {
      var n := if kind.size == 8 then Signed64(u) else ToInt32(u);
      v, ok := Number(n), InSigned(n, kind.size);
    } else if kind.UInt? {
      v, ok := Number(u), InUnsigned(u, kind.size);
    } else {
      v, ok := Number(UnZigZag(u)), InSigned(UnZigZag(u), kind.size);
    }
  }

  // ---- The field iterator ----

  // pb_field_iter_t over a message with fields. The pointers into the struct are the position itself.
  class FieldIter {
    const fields: seq<Field>
    var pos: nat
    var requiredIndex: nat

    constructor (fields: seq<Field>)
      ensures this.fields == fields && pos == 0 && (fields != [] ==> Valid())
    {
      this.fields, pos, requiredIndex := fields, 0, 0;
    }

    ghost predicate Valid()
      reads this
    {
      pos < |fields| && requiredIndex == RequiredBefore(fields, pos)
    }

    // pb_field_iter_next: false when it has wrapped around
    method Next() returns (advanced: bool)
      requires Valid()
      modifies this
      ensures Valid() && advanced == (old(pos) + 1 < |fields|)
      ensures pos == if advanced then old(pos) + 1 else 0
    {
      var required := fields[pos].rule.Required?;
      pos := pos + 1;
      if pos == |fields| {
        pos, requiredIndex := 0, 0;
        return false;
      }
      if required {
        requiredIndex := requiredIndex + 1;
      }
      return true;
    }

    // pb_field_iter_find: from here, around and back
    method Find(tag: nat) returns (found: bool)
      requires Valid()
      modifies this
      ensures Valid()
      ensures found <==> Search(fields, old(pos), tag, 0).Some?
      ensures pos == if found then Search(fields, old(pos), tag, 0).value else old(pos)
    {
      var start := pos;
      ghost var steps := 0;
      while true
        invariant Valid() && steps < |fields| && pos == Around(fields, start, steps)
        invariant Search(fields, start, tag, 0) == Search(fields, start, tag, steps)
        decreases |fields| - steps
      {
        if fields[pos].tag == tag {
          return true;
        }
        var advanced := Next();
        steps := steps + 1;
        if pos == start {
          return false;
        }
      }
    }

    // How many fields are required, by going on to the end
    method CountRequired() returns (n: nat)
      requires Valid()
      modifies this
      ensures n == RequiredBefore(fields, |fields|)
    {
      var last: nat := pos;
      n := requiredIndex;
      var advanced := Next();
      while advanced
        invariant Valid() && last < |fields| && n == RequiredBefore(fields, last)
        invariant if advanced then pos == last + 1 else last + 1 == |fields|
        decreases advanced, |fields| - pos
      {
        last := pos;
        n := requiredIndex;
        advanced := Next();
      }
      // the last field counts too
      if fields[last].rule.Required? {
        n := n + 1;
      }
    }
  }

  // ---- Values and fields ----

  // pb_dec_bytes, pb_dec_string and pb_dec_fixed_length_bytes
  method DecodeRaw(s: InputStream, kind: Kind) returns (ok: bool, v: Value)
    requires s.Valid() && (kind.Blob? || kind.Text? || kind.FixedBlob?)
    modifies s
    ensures s.Valid() && s.End() == old(s.End()) && s.pos >= old(s.pos)
    ensures Reads(ParseRaw(kind, old(s.Left())), ok, v, s.Left())
  {
    var size, eof, b;
    v := Raw([]);
    ok, size, eof := s.DecodeVarint32();
    if !ok {
      return;
    }
    if kind.FixedBlob? {
      if size == 0 {
        return true, Raw(Zeros(kind.size));
      }
      if size != kind.size {
        return false, v;
      }
    }
    if kind.Blob? && size > kind.capacity {
      return false, v;
    }
    if kind.Text? && size + 1 > kind.size {
      return false, v;
    }
    ok, b := s.Read(size);
    v := Raw(b);
  }

  // The packed branch of decode_static_field, on the substream
  method DecodePacked(s: InputStream, kind: Kind, start: seq<Value>, max: nat) returns (ok: bool, values: seq<Value>)
    requires s.Valid() && kind.Packable()
    modifies s
    ensures s.Valid() && s.End() == old(s.End()) && s.pos >= old(s.pos)
    ensures ok <==> ParsePacked(kind, old(s.Left()), start, max).Some?
    ensures ok ==> ParsePacked(kind, old(s.Left()), start, max) == Some(values)
  {
    values := start;
    ok := true;
    while s.bytesLeft > 0 && |values| < max
      invariant s.Valid() && s.End() == old(s.End()) && s.pos >= old(s.pos)
      invariant ParsePacked(kind, old(s.Left()), start, max) == ParsePacked(kind, s.Left(), values, max)
      decreases s.bytesLeft
    {
      assert s.Left() != [];
      var v;
      ghost var before := s.Left();
      ok, v := s.DecodeScalar(kind);
      if !ok {
        return;
      }
      assert |s.Left()| < |before|;
      values := values + [v];
    }
    if s.bytesLeft != 0 {
      assert s.Left() != [];
      ok := false;
    }
  }

  method DecodeValue(s: InputStream, kind: Kind, anew: bool, before: Value) returns (ok: bool, v: Value)
    requires s.Valid()
    modifies s
    ensures s.Valid() && s.End() == old(s.End())
    ensures Reads(ParseValue(kind, anew, before, old(s.Left())), ok, v, s.Left())
    decreases s.bytesLeft, 0
  {
    if kind.Packable() {
      ok, v := s.DecodeScalar(kind);
      return;
    }
    if !kind.Submessage? {
      ok, v := DecodeRaw(s, kind);
      return;
    }
    // pb_dec_submessage
    var substream;
    v := before;
    ok, substream := s.MakeSubstream();
    if !ok {
      return;
    }
    var start := if anew || !before.Message? || |before.slots| != |kind.fields| then DefaultValue(kind) else before;
    ghost var end := substream.End();
    var status;
    status, v := DecodeNoinit(substream, kind.fields, start);
    ok := s.CloseSubstream(substream);
    ok := ok && status;
  }

  // decode_static_field
  method DecodeField(s: InputStream, fields: seq<Field>, before: Value, ghost p: Progress, i: nat, wireType: nat)
    returns (ok: bool, m: Value)
    requires s.Valid() && Decoding.Holds(fields, p) && p.m == before && i < |fields|
    modifies s
    ensures s.Valid() && s.End() == old(s.End())
    ensures var t := TakeField(fields, p, i, wireType, old(s.Left()));
            (ok <==> t.Ok?) && (ok ==> t == Ok(p.(m := m), s.Left()))
    decreases s.bytesLeft, 2
  {
    var f, slot := fields[i], before.slots[i];
    var current := if slot.values != [] then slot.values[0] else DefaultValue(f.kind);
    var v;
    m := before;
    if f.rule.Repeated? || f.rule.FixedCount? {
      ok, m := DecodeElement(s, fields, before, p, i, wireType);
    } else if f.rule.Oneof? {
      ok, v := DecodeValue(s, f.kind, f.kind.Submessage? && !slot.present, current);
      if ok {
        m := SetSlot(Choose(fields, before, i), i, Slot(true, [v]));
      }
    } else {
      ok, v := DecodeValue(s, f.kind, false, current);
      if ok {
        m := SetSlot(before, i, Slot(slot.present || f.rule.Optional?, [v]));
      }
    }
  }

  // Its array branches
  method DecodeElement(s: InputStream, fields: seq<Field>, before: Value, ghost p: Progress, i: nat, wireType: nat)
    returns (ok: bool, m: Value)
    requires s.Valid() && Decoding.Holds(fields, p) && p.m == before && i < |fields| && (fields[i].rule.Repeated? || fields[i].rule.FixedCount?)
    modifies s
    ensures s.Valid() && s.End() == old(s.End())
    ensures var t := TakeField(fields, p, i, wireType, old(s.Left()));
            (ok <==> t.Ok?) && (ok ==> t == Ok(p.(m := m), s.Left()))
    decreases s.bytesLeft, 1
  {
    var f, slot := fields[i], before.slots[i];
    m := before;
    if wireType == 2 && f.kind.Packable() {
      var substream, values, closed;
      ok, substream := s.MakeSubstream();
      if !ok {
        return;
      }
      ok, values := DecodePacked(substream, f.kind, slot.values, Capacity(f.rule));
      if !ok {
        closed := s.CloseSubstream(substream);
        return;
      }
      ok := s.CloseSubstream(substream);
      m := SetSlot(before, i, Slot(slot.present, values));
    } else if |slot.values| >= Capacity(f.rule) {
      ok := false;
    } else {
      var v;
      ok, v := DecodeValue(s, f.kind, true, DefaultValue(f.kind));
      if ok {
        m := Append(before, i, v);
      }
    }
  }

  // ---- pb_decode_noinit ----

  ghost predicate InBound(fields: seq<Field>, seen: set<nat>) {
    forall k :: k in seen ==> k < RequiredBefore(fields, |fields|) && k < PB_MAX_REQUIRED_FIELDS
  }

  lemma {:induction false} RequiredGrows(fields: seq<Field>, i: nat, j: nat)
    requires i <= j <= |fields|
    ensures RequiredBefore(fields, i) <= RequiredBefore(fields, j)
  {
    if i < j {
      RequiredGrows(fields, i, j - 1);
    }
  }

  // One turn of the loop, its key already read: the iterator finds the field, or the field is skipped
  method DecodeTurn(s: InputStream, iter: FieldIter, seen: FieldsSeen, fields: seq<Field>, before: Value,
                    current: Option<nat>, ghost p: Progress, tag: nat, wireType: nat)
    returns (ok: bool, m: Value, fixed: Option<nat>)
    requires s.Valid() && iter.Valid() && iter.fields == fields && Decoding.Holds(fields, p) && fields != []
    requires p.m == before && p.fixed == current && iter.pos == p.pos && seen.words.Length == 2 && seen.Marks() == p.seen
    modifies s, iter, seen.words
    ensures s.Valid() && s.End() == old(s.End()) && iter.Valid()
    ensures var t := Turn(fields, p, tag, wireType, old(s.Left()));
            (ok <==> t.Ok?) && (ok ==> t == Ok(Progress(m, iter.pos, fixed, seen.Marks()), s.Left()))
    ensures InBound(fields, p.seen) ==> InBound(fields, seen.Marks())
    decreases s.bytesLeft, 3
  {
    m, fixed := before, current;
    var found := iter.Find(tag);
    if !found {
      ok := s.SkipFieldOf(wireType);
      return;
    }
    var i := iter.pos;
    // a fixed-count field starts over, once the one before it is whole
    if fields[i].rule.FixedCount? && fixed != Some(i) {
      if fixed.Some? && fields[fixed.value].rule.FixedCount? && |m.slots[fixed.value].values| != fields[fixed.value].rule.count {
        return false, m, fixed;
      }
      m, fixed := SetSlot(m, i, Slot(false, [])), Some(i);
    }
    if fields[i].rule.Required? && iter.requiredIndex < PB_MAX_REQUIRED_FIELDS {
      RequiredGrows(fields, i + 1, |fields|);
      seen.Mark(iter.requiredIndex);
    }
    assert Started(fields, p, i) == Progress(m, i, fixed, seen.Marks());
    ok, m := DecodeField(s, fields, m, Progress(m, i, fixed, seen.Marks()), i, wireType);
  }

  // A turn on an empty list of descriptors: its terminator answers to tag 0
  method DecodeNothing(s: InputStream, ghost p: Progress, tag: nat, wireType: nat) returns (ok: bool)
    requires s.Valid() && Decoding.Holds([], p)
    modifies s
    ensures s.Valid() && s.End() == old(s.End())
    ensures Reads(Turn([], p, tag, wireType, old(s.Left())), ok, p, s.Left())
  {
    if tag == 0 {
      var v;
      ok, v := s.DecodeScalar(Bool);
    } else {
      ok := s.SkipFieldOf(wireType);
    }
  }

  // The loop of pb_decode_noinit
  method DecodeFields(s: InputStream, iter: FieldIter, seen: FieldsSeen, fields: seq<Field>, start: Value)
    returns (ok: bool, m: Value, fixed: Option<nat>)
    requires s.Valid() && start.Message? && |start.slots| == |fields|
    requires iter.fields == fields && iter.pos == 0 && (fields != [] ==> iter.Valid())
    requires seen.words.Length == 2 && seen.Marks() == {}
    modifies s, iter, seen.words
    ensures s.Valid() && s.End() == old(s.End()) && (fields != [] ==> iter.Valid())
    ensures var r := DecodeLoop(fields, Progress(start, 0, None, {}), old(s.Left()));
            (ok <==> r.Some?) && (ok ==> r == Some(Progress(m, iter.pos, fixed, seen.Marks())))
    ensures InBound(fields, seen.Marks())
    decreases s.bytesLeft, 4
  {
    m, fixed := start, None;
    ghost var all := DecodeLoop(fields, Progress(start, 0, None, {}), s.Left());
    while s.bytesLeft > 0
      invariant s.Valid() && s.End() == old(s.End()) && iter.fields == fields && (fields != [] ==> iter.Valid())
      invariant seen.words.Length == 2 && InBound(fields, seen.Marks())
      invariant Decoding.Holds(fields, Progress(m, iter.pos, fixed, seen.Marks()))
      invariant all == DecodeLoop(fields, Progress(m, iter.pos, fixed, seen.Marks()), s.Left())
      invariant s.bytesLeft <= old(s.bytesLeft)
      decreases s.bytesLeft
    {
      ghost var p, input := Progress(m, iter.pos, fixed, seen.Marks()), s.Left();
      Varint32Shrinks(input);
      var key, eof;
      ok, key, eof := s.DecodeVarint32();
      if !ok {
        return false, m, fixed;
      }
      if key == 0 {
        return true, m, fixed;
      }
      if fields == [] {
        ok := DecodeNothing(s, p, key / 8, key % 8);
      } else {
        ok, m, fixed := DecodeTurn(s, iter, seen, fields, m, fixed, p, key / 8, key % 8);
      }
      if !ok {
        return false, m, fixed;
      }
    }
    ok := true;
  }

  method DecodeNoinit(s: InputStream, fields: seq<Field>, start: Value) returns (ok: bool, m: Value)
    requires s.Valid() && start.Message? && |start.slots| == |fields|
    modifies s
    ensures s.Valid() && s.End() == old(s.End())
    ensures ok <==> Decode(fields, start, old(s.Left())).Some?
    ensures ok ==> Decode(fields, start, old(s.Left())) == Some(m)
    decreases s.bytesLeft, 5
  {
    var iter := new FieldIter(fields);
    var seen := new FieldsSeen();
    var fixed;
    ok, m, fixed := DecodeFields(s, iter, seen, fields, start);
    if !ok {
      return;
    }
    ghost var p := Progress(m, iter.pos, fixed, seen.Marks());
    assert Decode(fields, start, old(s.Left())) == if Complete(fields, p) then Some(m) else None;
    if fixed.Some? && fields[fixed.value].rule.FixedCount? && |m.slots[fixed.value].values| != fields[fixed.value].rule.count {
      return false, m;
    }
    var count := 0;
    if fields != [] {
      count := iter.CountRequired();
    }
    if count > PB_MAX_REQUIRED_FIELDS {
      count := PB_MAX_REQUIRED_FIELDS;
    }
    ok := seen.AllSeen(count);
    assert seen.Marks() == p.seen;
    assert fixed.Some? ==> Received(fields[fixed.value], m, fixed.value);
    assert ok <==> forall k :: 0 <= k < RequiredBefore(fields, |fields|) && k < PB_MAX_REQUIRED_FIELDS ==> k in p.seen;
  }

  // pb_decode on a buffer
  method DecodeBuffer(fields: seq<Field>, data: Bytes) returns (ok: bool, m: Value)
    ensures ok <==> DecodeMessage(fields, data).Some?
    ensures ok ==> DecodeMessage(fields, data) == Some(m)
  {
    var stream := new InputStream(data, 0, |data|);
    assert stream.Left() == data;
    ok, m := DecodeNoinit(stream, fields, DefaultValue(Submessage(fields)));
  }
}
