// What a reader that checks checksums makes of a damaged log.
module LogDamage {
  import opened Options
  import opened ByteStrings
  import opened LogFormat
  import opened LogReader
  import opened LogRoundTrip

  // ---- What is handed on ----

  // The length stored in the header at h
  function StoredLength(file: Bytes, h: nat): nat
    requires h + HEADER_SIZE <= |file|
  {
    file[h + 4] as nat + 0x100 * (file[h + 5] as nat)
  }

  // A physical record handed on is there in the file, within its block, and with checksums on its stored
  // checksum is that of its type and payload
  lemma HandedOnChecked(src: Source, p: nat)
    requires src.ReadPhysical(p).result.Record?
    ensures var Record(code, payload, h) := src.ReadPhysical(p).result;
            && h + HEADER_SIZE + |payload| <= |src.file| && h + HEADER_SIZE + |payload| <= BlockEnd(h)
            && code == src.file[h + 6] && |payload| == StoredLength(src.file, h)
            && payload == src.file[h + HEADER_SIZE..h + HEADER_SIZE + |payload|]
            && (src.checksum ==>
                  src.crc(src.file[h + 6..h + HEADER_SIZE + |payload|]) == Unmask(DecodeFixed32(src.file[h..h + 4])))
  {
    var h, end := src.ReadPhysical(p).result.start, src.ReadPhysical(p).next;
    assert src.file[h..end][6..] == src.file[h + 6..end] && src.file[h..end][..4] == src.file[h..h + 4];
  }

  // ---- A log with one damaged physical record ----

  // The physical record at h runs past its block, or its checksum is not that of its type and payload
  ghost predicate Damaged(src: Source, h: nat) {
    && h + HEADER_SIZE <= |src.file| && h + HEADER_SIZE <= BlockEnd(h)
    && var end := h + HEADER_SIZE + StoredLength(src.file, h);
       if end > BlockEnd(h) then BlockEnd(h) <= |src.file|
       else end <= |src.file| && !(src.file[h + 6] == 0 && StoredLength(src.file, h) == 0)
            && src.crc(src.file[h + 6..end]) != Unmask(DecodeFixed32(src.file[h..h + 4]))
  }

  // Where the block of h ends in the file
  function LeftAt(src: Source, h: nat): nat {
    if BlockEnd(h) <= |src.file| then BlockEnd(h) else |src.file|
  }

  lemma DamageRead(src: Source, p: nat, h: nat)
    requires src.checksum && src.initialOffset == 0 && Damaged(src, h) && src.HeaderAt(p) == Some(h)
    ensures h < LeftAt(src, h) && src.ReadPhysical(p) == PhysicalRead(BadRecord, LeftAt(src, h), [LeftAt(src, h) - h])
  {
    var end := h + HEADER_SIZE + StoredLength(src.file, h);
    if end <= BlockEnd(h) {
      assert src.file[h..end][6..] == src.file[h + 6..end] && src.file[h..end][..4] == src.file[h..h + 4];
    }
  }

  // One of the fragments of the rest of a record has its header at h
  predicate FragmentAt(w: nat, data: Bytes, h: nat)
    decreases |data|, Available(w) == 0
  {
    var n := FragmentLength(w, data);
    h == HeaderStart(w) || (n < |data| && FragmentAt(FragmentEnd(w, data), data[n..], h))
  }

  // So does one of the fragments of the records
  predicate HeaderIn(w: nat, records: seq<Bytes>, h: nat)
    decreases records
  {
    records != [] && (FragmentAt(w, records[0], h) || HeaderIn(RecordEnd(w, records[0]), records[1..], h))
  }

  lemma {:induction false} FragmentBounds(w: nat, data: Bytes, h: nat)
    requires FragmentAt(w, data, h)
    ensures w <= h && h + HEADER_SIZE <= RecordEnd(w, data)
    ensures h != HeaderStart(w) ==> FragmentLength(w, data) < |data| && FragmentEnd(w, data) <= h
    decreases |data|, Available(w) == 0
  {
    if h != HeaderStart(w) {
      FragmentBounds(FragmentEnd(w, data), data[FragmentLength(w, data)..], h);
    }
  }

  lemma {:induction false} HeaderBounds(w: nat, records: seq<Bytes>, h: nat)
    requires HeaderIn(w, records, h)
    ensures w <= h
    decreases records
  {
    if FragmentAt(w, records[0], h) {
      FragmentBounds(w, records[0], h);
    } else {
      HeaderBounds(RecordEnd(w, records[0]), records[1..], h);
    }
  }

  // The file is the log but for bytes from h on in the block of h
  ghost predicate DiffersIn(src: Source, log: Bytes, h: nat) {
    && |src.file| == |log|
    && (forall i :: 0 <= i < |log| && (i < h || i >= BlockEnd(h)) ==> src.file[i] == log[i])
  }

  // A physical record read before h, or from the next block on, is the log's
  lemma SamePhysical(src: Source, log: Bytes, h: nat, p: nat)
    requires DiffersIn(src, log, h) && src.initialOffset == 0
    ensures var l := Source(log, src.crc, src.checksum, 0);
            && (l.ReadPhysical(p).result.Record? && l.ReadPhysical(p).next <= h ==> src.ReadPhysical(p) == l.ReadPhysical(p))
            && (p >= BlockEnd(h) ==> src.ReadPhysical(p) == l.ReadPhysical(p))
  {
    var l := Source(log, src.crc, src.checksum, 0);
    assert src.HeaderAt(p) == l.HeaderAt(p);
    if l.HeaderAt(p).Some? {
      var g := l.HeaderAt(p).value;
      if p >= BlockEnd(h) || (l.Parse(g).result.Record? && l.Parse(g).next <= h) {
        SameParse(src, l, g, h);
      }
    }
  }

  lemma SameParse(src: Source, l: Source, g: nat, h: nat)
    requires DiffersIn(src, l.file, h) && l == Source(l.file, src.crc, src.checksum, 0) && src.initialOffset == 0
    requires l.Left(g) >= HEADER_SIZE
    requires g >= BlockEnd(h) || (l.Parse(g).result.Record? && l.Parse(g).next <= h)
    ensures src.Parse(g) == l.Parse(g)
  {
    assert src.file[g + 4] == l.file[g + 4] && src.file[g + 5] == l.file[g + 5] && src.file[g + 6] == l.file[g + 6];
    var end := l.RecordEndAt(g);
    if end <= g + l.Left(g) {
      assert src.file[g..end] == l.file[g..end];
      assert src.file[g + HEADER_SIZE..end] == l.file[g + HEADER_SIZE..end];
    }
  }

  // ---- Reading up to the damage ----

  // Both streams read the same up to h, and from there b on
  ghost predicate SameUpTo(st: Stream, st': Stream, h: nat) {
    && st.size == st'.size && st.initialOffset == st'.initialOffset == 0
    && forall p: nat :: st'.physical(p).result.Record? && st'.physical(p).next <= h ==> st.physical(p) == st'.physical(p)
  }

  lemma {:induction false} ReadsUpTo(st: Stream, st': Stream, w: nat, data: Bytes, begin: bool, h: nat)
    requires SameUpTo(st, st', h) && Reads(st', w, data, begin) && RecordEnd(w, data) <= h && RecordEnd(w, data) <= st.size
    ensures Reads(st, w, data, begin)
    decreases |data|, Available(w) == 0
  {
    var n := FragmentLength(w, data);
    if n < |data| {
      ReadsUpTo(st, st', FragmentEnd(w, data), data[n..], false, h);
    }
  }

  // The reader reports the damage, and goes on at next with nothing in hand
  ghost predicate Strikes(st: Stream, h: nat, next: nat) {
    && h < next <= st.size
    && forall p: nat :: HeaderStart(p) == h ==> st.physical(p) == PhysicalRead(BadRecord, next, [next - h])
  }

  // Then what it reports says so first
  ghost predicate Tells(said: seq<nat>, reports: seq<nat>, lost: int) {
    |said| > |reports| && said[|reports|] == lost
  }

  lemma StruckTurn(st: Stream, w: nat, part: Partial, h: nat, next: nat, reports: seq<nat>) returns (said: seq<nat>)
    requires st.Sound() && Strikes(st, h, next) && HeaderStart(w) == h && (part.inFragment ==> part.start >= st.initialOffset)
    ensures st.ReadRecord(w, false, part, reports) == st.ReadRecord(next, false, NOTHING, said) && Tells(said, reports, next - h)
  {
    said := reports + [next - h] + st.Abandoned(next, part);
    assert st.TurnAt(w, false, part, reports) == More(next, false, NOTHING, said);
  }

  lemma FragmentGoes(st: Stream, w: nat, data: Bytes, begin: bool, part: Partial, reports: seq<nat>)
    requires st.Sound() && st.initialOffset == 0 && Collecting(st, begin, false, part) && FragmentLength(w, data) < |data|
    requires st.physical(w) == PhysicalRead(Record(KindOf(begin, false).Code(), data[..FragmentLength(w, data)], HeaderStart(w)),
                                            FragmentEnd(w, data), [])
    ensures var part' := Partial(true, part.scratch + data[..FragmentLength(w, data)], if begin then HeaderStart(w) else part.start);
            st.ReadRecord(w, false, part, reports) == st.ReadRecord(FragmentEnd(w, data), false, part', reports)
  {
    var n := FragmentLength(w, data);
    assert [] + data[..n] == data[..n];
    assert reports + [] == reports;
    assert st.TurnAt(w, false, part, reports) ==
           More(FragmentEnd(w, data), false, Partial(true, part.scratch + data[..n], if begin then HeaderStart(w) else part.start), reports);
  }

  lemma {:induction false} RecordStruck(st: Stream, st': Stream, w: nat, data: Bytes, begin: bool, part: Partial, h: nat, next: nat,
                                        reports: seq<nat>)
    returns (said: seq<nat>)
    requires st.Sound() && SameUpTo(st, st', h) && Strikes(st, h, next) && Reads(st', w, data, begin) && FragmentAt(w, data, h)
    requires Collecting(st, begin, false, part) && RecordEnd(w, data) <= st.size
    ensures st.ReadRecord(w, false, part, reports) == st.ReadRecord(next, false, NOTHING, said) && Tells(said, reports, next - h)
    decreases RecordEnd(w, data) - w
  {
    if h == HeaderStart(w) {
      said := StruckTurn(st, w, part, h, next, reports);
    } else {
      var n, end := FragmentLength(w, data), FragmentEnd(w, data);
      FragmentBounds(w, data, h);
      FragmentGoes(st, w, data, begin, part, reports);
      var part' := Partial(true, part.scratch + data[..n], if begin then HeaderStart(w) else part.start);
      said := RecordStruck(st, st', end, data[n..], false, part', h, next, reports);
    }
  }

  // A record is returned, or its reading ends up reading on elsewhere
  lemma AllReturns(st: Stream, p: nat, rec: (Bytes, nat), next: nat)
    requires st.Sound() && next > p && st.ReadRecord(p, false, NOTHING, []) == RecordRead(Some(rec), next, false, [])
    ensures var rest := st.ReadAll(next, false, []);
            st.ReadAll(p, false, []) == AllRead([rec] + rest.records, rest.reports)
  {
  }

  lemma AllGoesOn(st: Stream, p: nat, next: nat, reports: seq<nat>)
    requires st.Sound() && st.ReadRecord(p, false, NOTHING, []) == st.ReadRecord(next, false, NOTHING, reports)
    ensures st.ReadAll(p, false, []) == st.ReadAll(next, false, reports)
  {
  }

  lemma CompleteGoesOn(w: nat, records: seq<Bytes>, n: nat, more: seq<(Bytes, nat)>)
    requires records != [] && RecordEnd(w, records[0]) <= n
    ensures [(records[0], HeaderStart(w))] + (Complete(RecordEnd(w, records[0]), records[1..], n) + more) == Complete(w, records, n) + more
  {
  }

  lemma RecordReturned(st: Stream, st': Stream, w: nat, data: Bytes, h: nat)
    requires st.Sound() && SameUpTo(st, st', h) && Reads(st', w, data, true) && RecordEnd(w, data) <= h && RecordEnd(w, data) <= st.size
    ensures st.ReadRecord(w, false, NOTHING, []) == RecordRead(Some((data, HeaderStart(w))), RecordEnd(w, data), false, [])
  {
    ReadsUpTo(st, st', w, data, true, h);
    RecordReadBack(st, w, data, true, false, NOTHING, []);
    assert [] + data == data;
  }

  lemma {:induction false} LogStruck(st: Stream, st': Stream, w: nat, records: seq<Bytes>, h: nat, next: nat) returns (said: seq<nat>)
    requires st.Sound() && SameUpTo(st, st', h) && Strikes(st, h, next)
    requires ReadsLog(st', w, records) && Uncut(st', w, records) && HeaderIn(w, records, h)
    ensures Tells(said, [], next - h)
    ensures var rest := st.ReadAll(next, false, said);
            st.ReadAll(w, false, []) == AllRead(Complete(w, records, h) + rest.records, rest.reports)
    decreases records
  {
    var end := RecordEnd(w, records[0]);
    if FragmentAt(w, records[0], h) {
      FragmentBounds(w, records[0], h);
      said := RecordStruck(st, st', w, records[0], true, NOTHING, h, next, []);
      AllGoesOn(st, w, next, said);
    } else {
      HeaderBounds(end, records[1..], h);
      RecordReturned(st, st', w, records[0], h);
      AllReturns(st, w, (records[0], HeaderStart(w)), end);
      said := LogStruck(st, st', end, records[1..], h, next);
      CompleteGoesOn(w, records, h, st.ReadAll(next, false, said).records);
    }
  }

  // ---- Reading after the damage ----

  // From p on both streams read the same; what counts as reported may differ
  ghost predicate SameFrom(st: Stream, st': Stream, p: nat) {
    && st.size == st'.size && st.initialOffset <= st'.initialOffset <= p
    && forall q: nat :: q >= p ==> st.physical(q) == st'.physical(q)
  }

  lemma {:induction false} RecordFrom(st: Stream, st': Stream, p: nat, resyncing: bool, part: Partial, reports: seq<nat>, reports': seq<nat>)
    requires st.Sound() && st'.Sound() && SameFrom(st, st', p) && (part.inFragment ==> part.start >= st'.initialOffset)
    ensures var r, r' := st.ReadRecord(p, resyncing, part, reports), st'.ReadRecord(p, resyncing, part, reports');
            r.record == r'.record && r.next == r'.next && r.resyncing == r'.resyncing
    decreases Max(p, st.size) - p
  {
    TurnFrom(st, st', p, resyncing, part, reports, reports');
    var t, t' := st.TurnAt(p, resyncing, part, reports), st'.TurnAt(p, resyncing, part, reports');
    if t.More? {
      RecordFrom(st, st', t.next, t.resyncing, t.part, t.reports, t'.reports);
    }
  }

  lemma TurnFrom(st: Stream, st': Stream, p: nat, resyncing: bool, part: Partial, reports: seq<nat>, reports': seq<nat>)
    requires st.Sound() && st'.Sound() && SameFrom(st, st', p) && (part.inFragment ==> part.start >= st'.initialOffset)
    ensures var t, t' := st.TurnAt(p, resyncing, part, reports), st'.TurnAt(p, resyncing, part, reports');
            && (t.More? <==> t'.More?)
            && (t.More? ==> t.next == t'.next && t.resyncing == t'.resyncing && t.part == t'.part)
            && (t.Done? ==> t.read.record == t'.read.record && t.read.next == t'.read.next && t.read.resyncing == t'.read.resyncing)
  {
    var ph := st.physical(p);
    assert ph == st'.physical(p);
  }

  lemma {:induction false} AllFrom(st: Stream, st': Stream, p: nat, resyncing: bool, reports: seq<nat>, reports': seq<nat>)
    requires st.Sound() && st'.Sound() && SameFrom(st, st', p)
    ensures st.ReadAll(p, resyncing, reports).records == st'.ReadAll(p, resyncing, reports').records
    decreases Max(p, st.size) - p
  {
    RecordFrom(st, st', p, resyncing, NOTHING, reports, reports');
    var r, r' := st.ReadRecord(p, resyncing, NOTHING, reports), st'.ReadRecord(p, resyncing, NOTHING, reports');
    if r.record.Some? {
      AllFrom(st, st', r.next, r.resyncing, r.reports, r'.reports);
    }
  }

  lemma {:induction false} NoneFromEnd(w: nat, records: seq<Bytes>, crc: Crc, p: nat)
    requires w + |Log(crc, w, records)| <= p
    ensures FromOffset(w, records, p) == []
    decreases records
  {
    if records != [] {
      RecordEndAfterHeader(w, records[0]);
      assert Log(crc, w, records) == RenderRecord(crc, w, records[0]) + Log(crc, RecordEnd(w, records[0]), records[1..]);
      NoneFromEnd(RecordEnd(w, records[0]), records[1..], crc, p);
    }
  }

  lemma RestOfLog(src: Source, log: Bytes, records: seq<Bytes>, h: nat, reports: seq<nat>)
    requires src.initialOffset == 0 && log == Log(src.crc, 0, records) && DiffersIn(src, log, h) && BlockEnd(h) <= |log|
    ensures src.Records().ReadAll(BlockEnd(h), false, reports).records == FromOffset(0, records, BlockEnd(h))
  {
    var b := BlockEnd(h);
    var l := Source(log, src.crc, src.checksum, b);
    var st, st' := src.Records(), l.Records();
    assert log[0..] == log;
    HoldsReads(l, log, 0, records);
    LogUncut(src.crc, st', 0, records);
    RecordsAligned(l);
    BlockStarts(h, b);
    LogFromBlock(st', 0, records, b, false, []);
    AfterBlockSame(src, l, h, b);
    AllFrom(st, st', b, false, reports, []);
  }

  lemma BlockStarts(h: nat, b: nat)
    requires b == BlockEnd(h)
    ensures b % BLOCK_SIZE == 0 && SkipsNoHeader(b, b)
  {
    assert (h / BLOCK_SIZE + 1) * BLOCK_SIZE % BLOCK_SIZE == 0;
  }

  lemma AfterBlockSame(src: Source, l: Source, h: nat, b: nat)
    requires src.initialOffset == 0 && DiffersIn(src, l.file, h) && b == BlockEnd(h) && l == Source(l.file, src.crc, src.checksum, b)
    ensures SameFrom(src.Records(), l.Records(), b)
  {
    forall q: nat | q >= b ensures src.ReadPhysical(q) == l.ReadPhysical(q) {
      SamePhysical(src, l.file, h, q);
      FromItsOffset(l, q);
    }
  }

  // From the initial offset on, reading physical records does not depend on it
  lemma FromItsOffset(l: Source, q: nat)
    requires q >= l.initialOffset
    ensures l.ReadPhysical(q) == Source(l.file, l.crc, l.checksum, 0).ReadPhysical(q)
  {
    var o := Source(l.file, l.crc, l.checksum, 0);
    assert l.HeaderAt(q) == o.HeaderAt(q);
  }

  lemma {:induction false} RecordReports(st: Stream, p: nat, resyncing: bool, part: Partial, reports: seq<nat>)
    requires st.Sound() && (part.inFragment ==> part.start >= st.initialOffset)
    ensures reports <= st.ReadRecord(p, resyncing, part, reports).reports
    decreases Max(p, st.size) - p
  {
    var t := st.TurnAt(p, resyncing, part, reports);
    if t.More? {
      RecordReports(st, t.next, t.resyncing, t.part, t.reports);
    }
  }

  // What was reported stays reported
  lemma {:induction false} AllReports(st: Stream, p: nat, resyncing: bool, reports: seq<nat>)
    requires st.Sound()
    ensures reports <= st.ReadAll(p, resyncing, reports).reports
    decreases Max(p, st.size) - p
  {
    RecordReports(st, p, resyncing, NOTHING, reports);
    var r := st.ReadRecord(p, resyncing, NOTHING, reports);
    if r.record.Some? {
      AllReports(st, r.next, r.resyncing, r.reports);
    }
  }

  lemma BeforeSame(src: Source, l: Source, h: nat)
    requires src.initialOffset == 0 && DiffersIn(src, l.file, h) && l == Source(l.file, src.crc, src.checksum, 0)
    ensures SameUpTo(src.Records(), l.Records(), h)
  {
    forall p: nat | l.ReadPhysical(p).result.Record? && l.ReadPhysical(p).next <= h ensures src.ReadPhysical(p) == l.ReadPhysical(p) {
      SamePhysical(src, l.file, h, p);
    }
  }

  lemma DamageStrikes(src: Source, h: nat)
    requires src.checksum && src.initialOffset == 0 && Damaged(src, h)
    ensures Strikes(src.Records(), h, LeftAt(src, h))
  {
    var next := LeftAt(src, h);
    forall p: nat | HeaderStart(p) == h ensures src.ReadPhysical(p) == PhysicalRead(BadRecord, next, [next - h]) {
      HeaderFound(src, p);
      DamageRead(src, p, h);
    }
    DamageRead(src, h, h);
  }

  // A log whose physical record at h is damaged, and maybe more behind it in its block: the records that end
  // before it are returned, those whose first header lies in a later block too, and no others; and first of all
  // the bytes from h to the end of the block are reported
  lemma DamagedLog(src: Source, log: Bytes, records: seq<Bytes>, h: nat)
    requires src.checksum && src.initialOffset == 0 && log == Log(src.crc, 0, records)
    requires DiffersIn(src, log, h) && HeaderIn(0, records, h) && Damaged(src, h)
    ensures src.Contents().records == Complete(0, records, h) + FromOffset(0, records, BlockEnd(h))
    ensures src.Contents().reports != [] && src.Contents().reports[0] == LeftAt(src, h) - h
  {
    var l := Source(log, src.crc, true, 0);
    var st, st', next := src.Records(), l.Records(), LeftAt(src, h);
    assert log[0..] == log;
    HoldsReads(l, log, 0, records);
    LogUncut(src.crc, st', 0, records);
    BeforeSame(src, l, h);
    DamageStrikes(src, h);
    var said := LogStruck(st, st', 0, records, h, next);
    AllReports(st, next, false, said);
    if BlockEnd(h) <= |log| {
      RestOfLog(src, log, records, h, said);
    } else {
      NoneFromEnd(0, records, src.crc, BlockEnd(h));
      assert st.physical(next) == PhysicalRead(Eof, next, []);
    }
  }
}
