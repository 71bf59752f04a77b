// Reading back what the writer wrote: whole logs, torn logs, and logs read from an offset.
module LogRoundTrip {
  import opened Options
  import opened ByteStrings
  import opened LogFormat
  import opened LogReader

  // The file holds, from w on, the rest of a record
  ghost predicate Written(crc: Crc, log: Bytes, w: nat, data: Bytes, begin: bool) {
    RecordEnd(w, data) <= |log| && log[w..RecordEnd(w, data)] == RenderRest(crc, w, data, begin)
  }

  lemma PhysicalParts(crc: Crc, kind: RecordType, payload: Bytes, b: Bytes)
    requires |payload| < 0x1_0000 && b == Physical(crc, kind, payload)
    ensures |b| == HEADER_SIZE + |payload| && b[6] == kind.Code() && b[HEADER_SIZE..] == payload
    ensures b[4] as int + 0x100 * (b[5] as int) == |payload|
    ensures crc(b[6..]) == Unmask(DecodeFixed32(b[..4]))
  {
    var stored := Mask(crc([kind.Code()] + payload));
    assert b[6..] == [kind.Code()] + payload;
    assert b[..4] == EncodeFixed32(stored);
    DecodeEncodeFixed32(stored);
    UnmaskMask(crc([kind.Code()] + payload));
  }

  // A physical record in a file cut anywhere: read back, skipped, or taken for the end
  lemma PhysicalReadBack(src: Source, log: Bytes, w: nat, kind: RecordType, payload: Bytes)
    requires src.file <= log
    requires HeaderStart(w) + HEADER_SIZE + |payload| <= BlockEnd(HeaderStart(w))
    requires HeaderStart(w) + HEADER_SIZE + |payload| <= |log|
    requires log[HeaderStart(w)..HeaderStart(w) + HEADER_SIZE + |payload|] == Physical(src.crc, kind, payload)
    ensures var h := HeaderStart(w);
            var end := h + HEADER_SIZE + |payload|;
            src.ReadPhysical(w) ==
              if end > |src.file| then PhysicalRead(Eof, Max(w, |src.file|), [])
              else PhysicalRead(if h < src.initialOffset then BadRecord else Record(kind.Code(), payload, h), end, [])
  {
    var h := HeaderStart(w);
    var end := h + HEADER_SIZE + |payload|;
    var b := log[h..end];
    PhysicalParts(src.crc, kind, payload, b);
    assert b[4] == log[h + 4] && b[5] == log[h + 5] && b[6] == log[h + 6];
    if h + HEADER_SIZE <= |src.file| {
      HeaderFound(src, w);
      assert src.file[h + 4] == log[h + 4] && src.file[h + 5] == log[h + 5] && src.file[h + 6] == log[h + 6];
      if end <= |src.file| {
        assert src.file[h..end] == b;
        assert src.file[h + HEADER_SIZE..end] == b[HEADER_SIZE..];
      }
    }
  }

  lemma HeaderFound(src: Source, w: nat)
    requires HeaderStart(w) + HEADER_SIZE <= |src.file|
    ensures src.HeaderAt(w) == Some(HeaderStart(w))
  {
  }

  lemma ConcatParts(a: Bytes, b: Bytes, c: Bytes)
    ensures var all := a + b + c;
            all[|a|..|a| + |b|] == b && all[|a| + |b|..|all|] == c
  {
  }

  lemma SliceOfSlice(s: Bytes, a: nat, b: nat, i: nat, j: nat)
    requires a <= b <= |s| && i <= j <= b - a
    ensures s[a..b][i..j] == s[a + i..a + j]
  {
    forall k | 0 <= k < j - i ensures s[a..b][i..j][k] == s[a + i..a + j][k] {
      assert s[a..b][i..j][k] == s[a..b][i + k];
    }
  }

  // Cutting what stands at w..end into three parts, at h and e
  lemma ThreeParts(s: Bytes, w: nat, h: nat, e: nat, end: nat, a: Bytes, b: Bytes, c: Bytes)
    requires w <= end <= |s| && s[w..end] == a + b + c
    requires h == w + |a| && e == h + |b|
    ensures e <= end && s[h..e] == b && s[e..end] == c
  {
    ConcatParts(a, b, c);
    assert |a| + |b| + |c| == end - w;
    SliceOfSlice(s, w, end, |a|, |a| + |b|);
    SliceOfSlice(s, w, end, |a| + |b|, end - w);
  }

  lemma FragmentFits(w: nat, data: Bytes)
    ensures FragmentEnd(w, data) == HeaderStart(w) + HEADER_SIZE + FragmentLength(w, data)
    ensures FragmentEnd(w, data) <= BlockEnd(HeaderStart(w))
    ensures FragmentLength(w, data) < |data| ==> FragmentEnd(w, data) == BlockEnd(HeaderStart(w))
  {
  }

  // The first physical record of what is written
  lemma FirstFragment(crc: Crc, log: Bytes, w: nat, data: Bytes, begin: bool)
    requires Written(crc, log, w, data, begin)
    ensures FragmentEnd(w, data) <= |log|
    ensures var n := FragmentLength(w, data);
            log[HeaderStart(w)..FragmentEnd(w, data)] == Physical(crc, KindOf(begin, n == |data|), data[..n])
  {
    var n, h, end := FragmentLength(w, data), HeaderStart(w), FragmentEnd(w, data);
    var physical := Physical(crc, KindOf(begin, n == |data|), data[..n]);
    if n == |data| {
      ThreeParts(log, w, h, end, end, Zeros(h - w), physical, []);
    } else {
      ThreeParts(log, w, h, end, RecordEnd(w, data), Zeros(h - w), physical, RenderRest(crc, end, data[n..], false));
    }
  }

  // What is written after it
  lemma RestWritten(crc: Crc, log: Bytes, w: nat, data: Bytes, begin: bool)
    requires Written(crc, log, w, data, begin) && FragmentLength(w, data) < |data|
    ensures Written(crc, log, FragmentEnd(w, data), data[FragmentLength(w, data)..], false)
  {
    var n, h, end := FragmentLength(w, data), HeaderStart(w), FragmentEnd(w, data);
    var physical := Physical(crc, KindOf(begin, n == |data|), data[..n]);
    ThreeParts(log, w, h, end, RecordEnd(w, data), Zeros(h - w), physical, RenderRest(crc, end, data[n..], false));
  }

  // Reading at w a stream that holds the rest of a record, up to where the stream is cut
  ghost predicate Reads(st: Stream, w: nat, data: Bytes, begin: bool)
    decreases |data|, Available(w) == 0
  {
    var n, h, end := FragmentLength(w, data), HeaderStart(w), FragmentEnd(w, data);
    && st.physical(w) ==
         (if end > st.size then PhysicalRead(Eof, Max(w, st.size), [])
          else PhysicalRead(if h < st.initialOffset then BadRecord
                            else Record(KindOf(begin, n == |data|).Code(), data[..n], h), end, []))
    && (n < |data| ==> Reads(st, end, data[n..], false))
  }

  lemma FragmentReads(src: Source, log: Bytes, w: nat, data: Bytes, begin: bool)
    requires src.file <= log && Written(src.crc, log, w, data, begin)
    ensures var n, h, end := FragmentLength(w, data), HeaderStart(w), FragmentEnd(w, data);
            src.Records().physical(w) ==
            if end > |src.file| then PhysicalRead(Eof, Max(w, |src.file|), [])
            else PhysicalRead(if h < src.initialOffset then BadRecord
                              else Record(KindOf(begin, n == |data|).Code(), data[..n], h), end, [])
  {
    var n := FragmentLength(w, data);
    FragmentFits(w, data);
    FirstFragment(src.crc, log, w, data, begin);
    PhysicalReadBack(src, log, w, KindOf(begin, n == |data|), data[..n]);
  }

  lemma {:induction false} WrittenReads(src: Source, log: Bytes, w: nat, data: Bytes, begin: bool)
    requires src.file <= log && Written(src.crc, log, w, data, begin)
    ensures Reads(src.Records(), w, data, begin)
    decreases |data|, Available(w) == 0
  {
    var n := FragmentLength(w, data);
    FragmentReads(src, log, w, data, begin);
    if n < |data| {
      RestWritten(src.crc, log, w, data, begin);
      WrittenReads(src, log, FragmentEnd(w, data), data[n..], false);
    }
  }

  // Where the reader stands in a record whose earlier fragments it has collected in part
  ghost predicate Collecting(st: Stream, begin: bool, resyncing: bool, part: Partial) {
    if begin then part == NOTHING else !resyncing && part.inFragment && part.start >= st.initialOffset
  }

  lemma FragmentTurn(st: Stream, w: nat, data: Bytes, begin: bool, resyncing: bool, part: Partial, reports: seq<nat>)
    requires st.Sound() && Reads(st, w, data, begin) && Collecting(st, begin, resyncing, part)
    requires HeaderStart(w) >= st.initialOffset
    ensures var n, end := FragmentLength(w, data), FragmentEnd(w, data);
            var start := if begin then HeaderStart(w) else part.start;
            st.TurnAt(w, resyncing, part, reports) ==
              if end > st.size then Done(RecordRead(None, Max(w, st.size), false, reports))
              else if n < |data| then More(end, false, Partial(true, part.scratch + data[..n], start), reports)
              else Done(RecordRead(Some((part.scratch + data, start)), end, false, reports))
  {
    var n := FragmentLength(w, data);
    assert [] + data[..n] == data[..n];
    assert n == |data| ==> data[..n] == data;
    assert reports + [] == reports;
  }

  // A record that starts at or after the initial offset is returned if it is whole and is silently
  // taken for the end of the file if it is torn.
  lemma {:induction false} RecordReadBack(st: Stream, w: nat, data: Bytes, begin: bool,
                                          resyncing: bool, part: Partial, reports: seq<nat>)
    requires st.Sound() && Reads(st, w, data, begin) && Collecting(st, begin, resyncing, part)
    requires HeaderStart(w) >= st.initialOffset
    ensures var r := st.ReadRecord(w, resyncing, part, reports);
            var start := if begin then HeaderStart(w) else part.start;
            if RecordEnd(w, data) <= st.size then
              r == RecordRead(Some((part.scratch + data, start)), RecordEnd(w, data), false, reports)
            else r.record == None && r.reports == reports
    decreases |data|, Available(w) == 0
  {
    var n, end := FragmentLength(w, data), FragmentEnd(w, data);
    FragmentTurn(st, w, data, begin, resyncing, part, reports);
    if end <= st.size && n < |data| {
      var part' := Partial(true, part.scratch + data[..n], if begin then HeaderStart(w) else part.start);
      RecordReadBack(st, end, data[n..], false, false, part', reports);
      assert part'.scratch + data[n..] == part.scratch + data;
    }
  }

  // The records that end within the first n bytes, each with the position of its first header
  function Complete(w: nat, records: seq<Bytes>, n: nat): seq<(Bytes, nat)>
    decreases records
  {
    if records == [] || RecordEnd(w, records[0]) > n then []
    else [(records[0], HeaderStart(w))] + Complete(RecordEnd(w, records[0]), records[1..], n)
  }

  // They are the first k records: a torn tail loses whole records off the end
  lemma {:induction false} CompleteIsPrefix(w: nat, records: seq<Bytes>, n: nat) returns (k: nat)
    ensures k <= |records| && k == |Complete(w, records, n)|
    ensures forall i :: 0 <= i < k ==> Complete(w, records, n)[i].0 == records[i]
    decreases records
  {
    k := 0;
    if records != [] && RecordEnd(w, records[0]) <= n {
      k := CompleteIsPrefix(RecordEnd(w, records[0]), records[1..], n);
      k := k + 1;
    }
  }

  // Reading at w a stream that holds records up to where it is cut
  ghost predicate ReadsLog(st: Stream, w: nat, records: seq<Bytes>)
    decreases records
  {
    if records == [] then w >= st.size && forall p: nat :: p >= st.size ==> st.physical(p) == PhysicalRead(Eof, p, [])
    else Reads(st, w, records[0], true) && ReadsLog(st, RecordEnd(w, records[0]), records[1..])
  }

  // The log's contents from w on
  ghost predicate Holds(crc: Crc, log: Bytes, w: nat, records: seq<Bytes>) {
    w <= |log| && log[w..] == Log(crc, w, records)
  }

  lemma TwoParts(s: Bytes, w: nat, a: Bytes, b: Bytes)
    requires w <= |s| && s[w..] == a + b
    ensures w + |a| <= |s| && s[w..w + |a|] == a && s[w + |a|..] == b
  {
    assert |s| - w == |a| + |b|;
    assert s[w..][..|a|] == a && s[w..][|a|..] == b;
  }

  lemma {:induction false} HoldsReads(src: Source, log: Bytes, w: nat, records: seq<Bytes>)
    requires src.file <= log && Holds(src.crc, log, w, records)
    ensures ReadsLog(src.Records(), w, records)
    decreases records
  {
    if records == [] {
      assert forall p: nat :: p >= |src.file| ==> src.HeaderAt(p) == None;
    } else {
      var b, end := RenderRecord(src.crc, w, records[0]), RecordEnd(w, records[0]);
      TwoParts(log, w, b, Log(src.crc, end, records[1..]));
      WrittenReads(src, log, w, records[0], true);
      HoldsReads(src, log, end, records[1..]);
    }
  }

  lemma {:induction false} TornStream(st: Stream, w: nat, records: seq<Bytes>, reports: seq<nat>)
    requires st.Sound() && st.initialOffset == 0 && ReadsLog(st, w, records)
    ensures st.ReadAll(w, false, reports) == AllRead(Complete(w, records, st.size), reports)
    decreases records
  {
    if records != [] {
      RecordReadBack(st, w, records[0], true, false, NOTHING, reports);
      assert [] + records[0] == records[0];
      if RecordEnd(w, records[0]) <= st.size {
        TornStream(st, RecordEnd(w, records[0]), records[1..], reports);
      }
    }
  }

  // Whatever byte prefix of a log is left, a reader returns exactly the records wholly in it and
  // reports no corruption.
  lemma TornLog(src: Source, log: Bytes, records: seq<Bytes>)
    requires src.initialOffset == 0 && src.file <= log && log == Log(src.crc, 0, records)
    ensures src.Contents() == AllRead(Complete(0, records, |src.file|), [])
  {
    assert log[0..] == log;
    HoldsReads(src, log, 0, records);
    TornStream(src.Records(), 0, records, []);
  }

  // The records whose first header is at or after the initial offset
  function FromOffset(w: nat, records: seq<Bytes>, initialOffset: nat): seq<(Bytes, nat)>
    decreases records
  {
    if records == [] then []
    else
      (if HeaderStart(w) >= initialOffset then [(records[0], HeaderStart(w))] else []) +
      FromOffset(RecordEnd(w, records[0]), records[1..], initialOffset)
  }

  lemma SkippedTurn(st: Stream, w: nat, data: Bytes, begin: bool, resyncing: bool, reports: seq<nat>)
    requires st.Sound() && Reads(st, w, data, begin) && RecordEnd(w, data) <= st.size
    requires begin ==> HeaderStart(w) < st.initialOffset
    ensures var turn := st.TurnAt(w, resyncing, NOTHING, reports);
            turn.More? && turn.next == FragmentEnd(w, data) && turn.part == NOTHING
  {
  }

  // What is left of a record that started before the initial offset yields nothing
  lemma {:induction false} RestSkipped(st: Stream, w: nat, data: Bytes, begin: bool,
                                       resyncing: bool, reports: seq<nat>)
    returns (resyncing': bool, reports': seq<nat>)
    requires st.Sound() && Reads(st, w, data, begin) && RecordEnd(w, data) <= st.size
    requires begin ==> HeaderStart(w) < st.initialOffset
    ensures st.ReadRecord(w, resyncing, NOTHING, reports) ==
            st.ReadRecord(RecordEnd(w, data), resyncing', NOTHING, reports')
    decreases |data|, Available(w) == 0
  {
    var n, end := FragmentLength(w, data), FragmentEnd(w, data);
    var turn := st.TurnAt(w, resyncing, NOTHING, reports);
    SkippedTurn(st, w, data, begin, resyncing, reports);
    if n < |data| {
      resyncing', reports' := RestSkipped(st, end, data[n..], false, turn.resyncing, turn.reports);
    } else {
      resyncing', reports' := turn.resyncing, turn.reports;
    }
  }

  // All of the log is there
  ghost predicate Uncut(st: Stream, w: nat, records: seq<Bytes>)
    decreases records
  {
    if records == [] then w == st.size
    else RecordEnd(w, records[0]) <= st.size && Uncut(st, RecordEnd(w, records[0]), records[1..])
  }

  lemma {:induction false} LogFromStart(st: Stream, w: nat, records: seq<Bytes>, resyncing: bool, reports: seq<nat>)
    requires st.Sound() && ReadsLog(st, w, records) && Uncut(st, w, records)
    ensures st.ReadAll(w, resyncing, reports).records == FromOffset(w, records, st.initialOffset)
    decreases records
  {
    if records != [] {
      var end := RecordEnd(w, records[0]);
      if HeaderStart(w) >= st.initialOffset {
        RecordReadBack(st, w, records[0], true, resyncing, NOTHING, reports);
        assert [] + records[0] == records[0];
        LogFromStart(st, end, records[1..], false, reports);
      } else {
        var resyncing', reports' := RestSkipped(st, w, records[0], true, resyncing, reports);
        LogFromStart(st, end, records[1..], resyncing', reports');
      }
    }
  }

  // A trailer and the block start after it read the same
  ghost predicate Aligned(st: Stream) {
    forall w: nat :: HeaderStart(w) + HEADER_SIZE <= st.size ==> st.physical(w) == st.physical(HeaderStart(w))
  }

  // Standing at the start of a block inside a record that started before the initial offset
  lemma {:induction false} EnterRecord(st: Stream, w: nat, data: Bytes, begin: bool, p: nat,
                                       resyncing: bool, reports: seq<nat>)
    returns (resyncing': bool, reports': seq<nat>)
    requires st.Sound() && Aligned(st) && Reads(st, w, data, begin) && RecordEnd(w, data) <= st.size
    requires w <= p < RecordEnd(w, data) && p % BLOCK_SIZE == 0
    requires begin ==> HeaderStart(w) < p && HeaderStart(w) < st.initialOffset
    ensures st.ReadRecord(p, resyncing, NOTHING, reports) ==
            st.ReadRecord(RecordEnd(w, data), resyncing', NOTHING, reports')
    decreases |data|, Available(w) == 0
  {
    if HeaderStart(w) < p {
      FragmentWithinBlock(w, data, p);
      resyncing', reports' := EnterRecord(st, FragmentEnd(w, data), data[FragmentLength(w, data)..], false, p, resyncing, reports);
    } else {
      BlockHeader(w, p);
      assert st.TurnAt(w, resyncing, NOTHING, reports) == st.TurnAt(p, resyncing, NOTHING, reports);
      resyncing', reports' := RestSkipped(st, w, data, begin, resyncing, reports);
    }
  }

  lemma FragmentWithinBlock(w: nat, data: Bytes, p: nat)
    requires HeaderStart(w) < p && p % BLOCK_SIZE == 0
    ensures FragmentEnd(w, data) <= p
  {
  }

  lemma BlockHeader(w: nat, p: nat)
    requires w <= p <= HeaderStart(w) && p % BLOCK_SIZE == 0
    ensures HeaderStart(w) == p
  {
  }

  ghost predicate SkipsNoHeader(p: nat, initialOffset: nat) {
    forall v: nat :: v <= p && HeaderStart(v) < p ==> HeaderStart(v) < initialOffset
  }

  // Reading from the start of a block p before which no header reaches the initial offset
  lemma {:induction false} LogFromBlock(st: Stream, w: nat, records: seq<Bytes>, p: nat,
                                        resyncing: bool, reports: seq<nat>)
    requires st.Sound() && Aligned(st) && ReadsLog(st, w, records) && Uncut(st, w, records)
    requires w <= p && p % BLOCK_SIZE == 0
    requires SkipsNoHeader(p, st.initialOffset)
    ensures st.ReadAll(p, resyncing, reports).records == FromOffset(w, records, st.initialOffset)
    decreases records
  {
    if records != [] {
      var end := RecordEnd(w, records[0]);
      if end <= p {
        RecordEndAfterHeader(w, records[0]);
        LogFromBlock(st, end, records[1..], p, resyncing, reports);
      } else if HeaderStart(w) < p {
        var resyncing', reports' := EnterRecord(st, w, records[0], true, p, resyncing, reports);
        LogFromStart(st, end, records[1..], resyncing', reports');
      } else {
        BlockHeader(w, p);
        RecordEndAfterHeader(w, records[0]);
        assert st.TurnAt(w, resyncing, NOTHING, reports) == st.TurnAt(p, resyncing, NOTHING, reports);
        LogFromStart(st, w, records, resyncing, reports);
      }
    }
  }

  lemma RecordEndAfterHeader(w: nat, data: Bytes)
    ensures HeaderStart(w) + HEADER_SIZE <= RecordEnd(w, data)
  {
  }

  // No header lies in the trailer bytes SkipToInitialBlock steps over
  lemma FirstBlockSkipsNoHeader(src: Source)
    ensures SkipsNoHeader(src.FirstBlock(), src.initialOffset) && src.FirstBlock() % BLOCK_SIZE == 0
  {
    forall v: nat | v <= src.FirstBlock() && HeaderStart(v) < src.FirstBlock()
      ensures HeaderStart(v) < src.initialOffset
    {
    }
  }

  lemma RecordsAligned(src: Source)
    ensures Aligned(src.Records())
  {
    forall w: nat | HeaderStart(w) + HEADER_SIZE <= |src.file|
      ensures src.ReadPhysical(w) == src.ReadPhysical(HeaderStart(w))
    {
      HeaderFound(src, w);
      HeaderFound(src, HeaderStart(w));
    }
  }

  lemma {:induction false} LogUncut(crc: Crc, st: Stream, w: nat, records: seq<Bytes>)
    requires st.size == w + |Log(crc, w, records)|
    ensures Uncut(st, w, records)
    decreases records
  {
    if records != [] {
      assert |Log(crc, w, records)| == |RenderRecord(crc, w, records[0])| + |Log(crc, RecordEnd(w, records[0]), records[1..])|;
      LogUncut(crc, st, RecordEnd(w, records[0]), records[1..]);
    }
  }

  // A reader given an initial offset returns exactly the records whose first physical header starts
  // at or after it, each with that header's position as its record offset.
  lemma ReadFromOffset(src: Source, records: seq<Bytes>)
    requires src.file == Log(src.crc, 0, records)
    ensures src.Contents().records == FromOffset(0, records, src.initialOffset)
  {
    var st := src.Records();
    assert src.file[0..] == src.file;
    HoldsReads(src, src.file, 0, records);
    LogUncut(src.crc, st, 0, records);
    if src.initialOffset == 0 {
      LogFromStart(st, 0, records, false, []);
    } else {
      RecordsAligned(src);
      FirstBlockSkipsNoHeader(src);
      LogFromBlock(st, 0, records, src.FirstBlock(), true, []);
    }
  }

  lemma LogStep(crc: Crc, w: nat, records: seq<Bytes>, i: nat)
    requires i < |records|
    ensures Log(crc, w, records[i..]) ==
            RenderRecord(crc, w, records[i]) + Log(crc, RecordEnd(w, records[i]), records[i + 1..])
  {
    var rest := records[i..];
    assert rest != [] && rest[0] == records[i] && rest[1..] == records[i + 1..];
  }

  lemma Associate(a: Bytes, b: Bytes, c: Bytes)
    ensures a + b + c == a + (b + c)
  {
  }

  method AddAll(w: Writer, records: seq<Bytes>)
    requires w.Valid()
    modifies w
    ensures w.Valid() && w.dest == old(w.dest) + Log(w.crc, |old(w.dest)|, records)
  {
    var i := 0;
    assert records[0..] == records;
    while i < |records|
      invariant 0 <= i <= |records| && w.Valid()
      invariant w.dest + Log(w.crc, |w.dest|, records[i..]) == old(w.dest) + Log(w.crc, |old(w.dest)|, records)
    {
      ghost var before, b := w.dest, RenderRecord(w.crc, |w.dest|, records[i]);
      ghost var end := RecordEnd(|w.dest|, records[i]);
      LogStep(w.crc, |before|, records, i);
      w.AddRecord(records[i]);
      assert w.dest == before + b && |w.dest| == end;
      Associate(before, b, Log(w.crc, end, records[i + 1..]));
      i := i + 1;
    }
    assert records[i..] == [];
  }

  method WriteAll(crc: Crc, records: seq<Bytes>) returns (w: Writer)
    ensures fresh(w) && w.Valid() && w.dest == Log(crc, 0, records)
  {
    w := new Writer(crc);
    AddAll(w, records);
  }

  // A writer resumed at the length of what another has written adds the bytes the other would add
  method ResumeBeside(w: Writer, records: seq<Bytes>) returns (resumed: Writer)
    requires w.Valid()
    modifies w
    ensures fresh(resumed) && resumed.Valid() && resumed.dest == w.dest
    ensures w.Valid() && w.dest == old(w.dest) + Log(w.crc, |old(w.dest)|, records)
  {
    resumed := new Writer.Resume(w.crc, w.dest);
    AddAll(w, records);
    AddAll(resumed, records);
  }

  method ReadFile(source: Source) returns (read: seq<(Bytes, nat)>, reports: seq<nat>)
    ensures AllRead(read, reports) == source.Contents()
  {
    var r := new Reader(source);
    read := r.ReadAll();
    reports := r.reports;
  }

  // Write records, lose all but the first n bytes, read: the whole records in the prefix come back
  // and nothing is reported.
  method WriteCrashRead(crc: Crc, records: seq<Bytes>, n: nat, checksum: bool)
    returns (read: seq<(Bytes, nat)>, reports: seq<nat>)
    requires n <= |Log(crc, 0, records)|
    ensures read == Complete(0, records, n) && reports == []
  {
    var w := WriteAll(crc, records);
    read, reports := ReadFile(Source(w.dest[..n], crc, checksum, 0));
    TornLog(Source(w.dest[..n], crc, checksum, 0), w.dest, records);
  }

  // ---- Good records of other types ----

  function Stored(crc: Crc, code: byte, payload: Bytes): Bytes
    requires |payload| < 0x1_0000
  {
    EncodeFixed32(Mask(crc([code] + payload))) + [|payload| % 0x100, |payload| / 0x100, code] + payload
  }

  // A file that begins with one record of this type, with a good checksum
  ghost predicate BeginsWith(src: Source, code: byte, payload: Bytes) {
    && src.initialOffset == 0 && HEADER_SIZE + |payload| <= BLOCK_SIZE && (code == 0 ==> payload != [])
    && Stored(src.crc, code, payload) <= src.file
  }

  lemma StoredReadBack(src: Source, code: byte, payload: Bytes)
    requires BeginsWith(src, code, payload)
    ensures src.ReadPhysical(0) == PhysicalRead(Record(code, payload, 0), HEADER_SIZE + |payload|, [])
  {
    var b, end := Stored(src.crc, code, payload), HEADER_SIZE + |payload|;
    var stored := Mask(src.crc([code] + payload));
    assert b[6..] == [code] + payload && b[..4] == EncodeFixed32(stored) && b[HEADER_SIZE..] == payload;
    DecodeEncodeFixed32(stored);
    UnmaskMask(src.crc([code] + payload));
    assert src.file[0..end] == b && src.file[HEADER_SIZE..end] == b[HEADER_SIZE..];
    assert src.file[4] == b[4] && src.file[5] == b[5] && src.file[6] == b[6];
  }

  lemma PassedOver(st: Stream, p: nat, next: nat, reports: seq<nat>, reports': seq<nat>)
    requires st.Sound() && st.TurnAt(p, false, NOTHING, reports) == More(next, false, NOTHING, reports')
    ensures st.ReadAll(p, false, reports) == st.ReadAll(next, false, reports')
  {
    assert st.ReadRecord(p, false, NOTHING, reports) == st.ReadRecord(next, false, NOTHING, reports');
  }

  // What the loop makes of a good record of a type the writer does not use
  lemma OtherType(st: Stream, p: nat, code: byte, payload: Bytes, next: nat, reports: seq<nat>)
    requires st.Sound() && st.physical(p) == PhysicalRead(Record(code, payload, p), next, []) && next == p + HEADER_SIZE + |payload|
    requires code == 0 || code > Last.Code()
    ensures st.ReadAll(p, false, reports) ==
            if code == END_OF_FILE then AllRead([], reports)
            else if code == BAD_RECORD then st.ReadAll(next, false, reports)
            else st.ReadAll(next, false, reports + [|payload|])
  {
    assert reports + [] == reports;
    if code == END_OF_FILE {
      assert st.TurnAt(p, false, NOTHING, reports).Done?;
    } else {
      PassedOver(st, p, next, reports, if code == BAD_RECORD then reports else reports + [|payload|]);
    }
  }

  // A good record of type 5 ends the reading, whatever follows, with nothing reported; one of type 6 is passed
  // over with nothing reported; and one of any other unknown type is passed over and reported
  lemma OtherTypeRead(src: Source, code: byte, payload: Bytes, next: nat, reports: seq<nat>)
    requires BeginsWith(src, code, payload) && (code == 0 || code > Last.Code()) && next == HEADER_SIZE + |payload|
    requires reports == if code == BAD_RECORD then [] else [|payload|]
    ensures src.Contents() == if code == END_OF_FILE then AllRead([], []) else src.Records().ReadAll(next, false, reports)
  {
    var st, p := src.Records(), 0;
    StoredReadBack(src, code, payload);
    OtherType(st, p, code, payload, next, []);
    assert [] + [|payload|] == [|payload|];
  }
}
