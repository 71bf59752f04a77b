// Where the bytes of a log lie: the layout any other reader of the format relies on.
module LogLayout {
  import opened Options
  import opened ByteStrings
  import opened LogFormat
  import opened LogRoundTrip
  import opened LogDamage

  // The checksum is stored rotated right by 15 bits, plus a constant
  lemma MaskedBits(crc: uint32)
    ensures crc % 0x8000 == 0 ==> Mask(crc) == (crc / 0x8000 + 0xa282ead8) % 0x1_0000_0000
    ensures crc < 0x8000 ==> Mask(crc) == (0x2_0000 * crc + 0xa282ead8) % 0x1_0000_0000
  {
    var high, low := crc / 0x8000, crc % 0x8000;
    assert crc == 0x8000 * high + low;
  }

  // A physical record in the file, by its bytes alone: its header and payload lie within one block, and its
  // checksum is over the byte of its type and its payload
  ghost predicate Laid(crc: Crc, log: Bytes, h: nat, len: nat, code: nat) {
    && h + 7 + len <= |log| && h % 32768 + 7 + len <= 32768
    && StoredLength(log, h) == len && log[h + 6] == code
    && LittleEndian(log[h..h + 4]) == Mask(crc(log[h + 6..h + 7 + len]))
  }

  lemma PhysicalLaid(crc: Crc, log: Bytes, h: nat, kind: RecordType, payload: Bytes)
    requires h + HEADER_SIZE + |payload| <= |log| && h + HEADER_SIZE + |payload| <= BlockEnd(h)
    requires log[h..h + HEADER_SIZE + |payload|] == Physical(crc, kind, payload)
    ensures Laid(crc, log, h, |payload|, kind.Code())
  {
    var end := h + HEADER_SIZE + |payload|;
    var b := log[h..end];
    PhysicalParts(crc, kind, payload, b);
    assert b[4] == log[h + 4] && b[5] == log[h + 5] && b[6] == log[h + 6];
    assert b[6..] == log[h + 6..end] && b[..4] == log[h..h + 4];
    var stored := Mask(crc([kind.Code()] + payload));
    assert b[6..] == [kind.Code()] + payload && b[..4] == EncodeFixed32(stored);
    Fixed32Means(stored);
  }

  // The type codes: 1 for a record in one piece, 2 for its first piece, 3 for a middle one and 4 for the last
  function TypeCode(first: bool, last: bool): nat {
    if first then if last then 1 else 2 else if last then 4 else 3
  }

  // A piece that is not the last one reaches to the end of its block
  ghost predicate Piece(crc: Crc, log: Bytes, h: nat, first: bool, end: nat) {
    h + 7 <= |log| &&
    var next := h + 7 + StoredLength(log, h);
    && Laid(crc, log, h, StoredLength(log, h), TypeCode(first, next == end))
    && next <= end && (next < end ==> next % 32768 == 0)
  }

  lemma {:induction false} FragmentLaid(crc: Crc, log: Bytes, w: nat, data: Bytes, begin: bool, h: nat)
    requires Written(crc, log, w, data, begin) && FragmentAt(w, data, h)
    ensures Piece(crc, log, h, begin && h == HeaderStart(w), RecordEnd(w, data))
    decreases |data|, Available(w) == 0
  {
    var n, end := FragmentLength(w, data), FragmentEnd(w, data);
    if h == HeaderStart(w) {
      HereLaid(crc, log, w, data, begin);
    } else {
      FragmentBounds(w, data, h);
      RestWritten(crc, log, w, data, begin);
      FragmentLaid(crc, log, end, data[n..], false, h);
    }
  }

  lemma HereLaid(crc: Crc, log: Bytes, w: nat, data: Bytes, begin: bool)
    requires Written(crc, log, w, data, begin)
    ensures Piece(crc, log, HeaderStart(w), begin, RecordEnd(w, data))
  {
    var n, h := FragmentLength(w, data), HeaderStart(w);
    FragmentFits(w, data);
    FirstFragment(crc, log, w, data, begin);
    PhysicalLaid(crc, log, h, KindOf(begin, n == |data|), data[..n]);
    EndsThere(w, data);
    assert KindOf(begin, n == |data|).Code() == TypeCode(begin, h + 7 + n == RecordEnd(w, data));
  }

  lemma EndsThere(w: nat, data: Bytes)
    ensures var e := HeaderStart(w) + 7 + FragmentLength(w, data);
            e <= RecordEnd(w, data) && (e == RecordEnd(w, data) <==> FragmentLength(w, data) == |data|)
            && (e < RecordEnd(w, data) ==> e % 32768 == 0)
  {
    if FragmentLength(w, data) < |data| {
      FragmentFits(w, data);
      BlockEndIs(HeaderStart(w));
    }
  }

  lemma BlockEndIs(p: nat)
    ensures BlockEnd(p) % 32768 == 0 && p < BlockEnd(p) <= p + 32768
  {
    assert (p / 32768 + 1) * 32768 % 32768 == 0;
  }

  // A record starts at most six bytes after the one before it, all of them zero, and only to start a new block
  ghost predicate Follows(log: Bytes, w: nat, h: nat) {
    && w <= h < w + 7 && h <= |log| && (forall i :: w <= i < h ==> log[i] == 0)
    && (w < h ==> h % 32768 == 0)
  }

  lemma TrailerLaid(crc: Crc, log: Bytes, w: nat, data: Bytes, begin: bool)
    requires Written(crc, log, w, data, begin)
    ensures Follows(log, w, HeaderStart(w))
  {
    var h, n := HeaderStart(w), FragmentLength(w, data);
    BlockEndIs(w);
    FirstFragment(crc, log, w, data, begin);
    var b := RenderRest(crc, w, data, begin);
    forall i | w <= i < h ensures log[i] == 0 {
      assert log[w..RecordEnd(w, data)][i - w] == log[i];
      assert b[i - w] == Zeros(h - w)[i - w];
    }
  }

  // Each record of a log has its pieces, and they follow one another
  ghost predicate LaidOut(crc: Crc, log: Bytes, w: nat, records: seq<Bytes>)
    decreases records
  {
    if records == [] then w == |log|
    else
      && Follows(log, w, HeaderStart(w))
      && (forall h :: FragmentAt(w, records[0], h) ==> Piece(crc, log, h, h == HeaderStart(w), RecordEnd(w, records[0])))
      && LaidOut(crc, log, RecordEnd(w, records[0]), records[1..])
  }

  lemma {:induction false} LogLaidOut(crc: Crc, log: Bytes, w: nat, records: seq<Bytes>)
    requires LogRoundTrip.Holds(crc, log, w, records)
    ensures LaidOut(crc, log, w, records)
    decreases records
  {
    if records != [] {
      var b, end := RenderRecord(crc, w, records[0]), RecordEnd(w, records[0]);
      TwoParts(log, w, b, Log(crc, end, records[1..]));
      TrailerLaid(crc, log, w, records[0], true);
      forall h | FragmentAt(w, records[0], h) ensures Piece(crc, log, h, h == HeaderStart(w), end) {
        FragmentLaid(crc, log, w, records[0], true, h);
      }
      LogLaidOut(crc, log, end, records[1..]);
    }
  }
}
