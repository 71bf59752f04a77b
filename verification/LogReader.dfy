// log::Reader: what it returns and reports for any file contents.
module LogReader {
  import opened Options
  import opened ByteStrings
  import opened LogFormat

  datatype PhysicalResult = Record(code: byte, payload: Bytes, start: nat) | Eof | BadRecord

  // kEof and kBadRecord lie among the values a stored type byte can have: a good physical record with one of
  // these types ends the reading, or counts as a bad record
  const END_OF_FILE: byte := 5
  const BAD_RECORD: byte := 6

  function Meaning(result: PhysicalResult): PhysicalResult {
    if result.Record? && result.code == END_OF_FILE then Eof
    else if result.Record? && result.code == BAD_RECORD then BadRecord
    else result
  }

  // The outcome of reading at a file position: the result, the position after it and the sizes of
  // the drops reported
  datatype PhysicalRead = PhysicalRead(result: PhysicalResult, next: nat, reports: seq<nat>)

  // The logical record being put together
  datatype Partial = Partial(inFragment: bool, scratch: Bytes, start: nat)

  const NOTHING := Partial(false, [], 0)

  datatype RecordStep =
    | Return(record: Bytes, start: nat, reports: seq<nat>)
    | Continue(resyncing: bool, part: Partial, reports: seq<nat>)

  datatype RecordRead = RecordRead(record: Option<(Bytes, nat)>, next: nat, resyncing: bool, reports: seq<nat>)

  datatype Turn =
    | Done(read: RecordRead)
    | More(next: nat, resyncing: bool, part: Partial, reports: seq<nat>)

  datatype AllRead = AllRead(records: seq<(Bytes, nat)>, reports: seq<nat>)

  function Max(a: nat, b: nat): nat {
    if a < b then b else a
  }

  // Reading logical records out of physical ones. The functions say what ReadRecord does, whatever
  // reading a physical record at a position yields.
  datatype Stream = Stream(physical: nat -> PhysicalRead, size: nat, initialOffset: nat) {

    // Every read that is not the end of the file makes progress
    ghost predicate Sound() {
      forall p: nat ::
        && (physical(p).result.Eof? ==> physical(p).next == Max(p, size))
        && (!physical(p).result.Eof? ==> p < physical(p).next <= size)
        && (physical(p).result.Record? ==> physical(p).result.start >= initialOffset)
    }

    function Report(start: int, bytes: nat): seq<nat> {
      if start >= initialOffset then [bytes] else []
    }

    // What one physical record does to the loop of ReadRecord: it ends it, or goes on with part
    function Step(resyncing: bool, part: Partial, ph: PhysicalRead): (s: RecordStep)
      requires ph.result.Record? && (part.inFragment ==> part.start >= initialOffset)
      requires ph.result.start >= initialOffset
      ensures s.Continue? && s.part.inFragment ==> s.part.start >= initialOffset
      ensures s.Return? ==> s.start >= initialOffset
    {
      var Record(code, payload, start) := ph.result;
      if resyncing && code == Middle.Code() then Continue(true, part, [])
      else if resyncing && code == Last.Code() then Continue(false, part, [])
      else if code == Full.Code() then Return(payload, start, Unfinished(ph.next, part))
      else if code == First.Code() then Continue(false, Partial(true, payload, start), Unfinished(ph.next, part))
      else if code == Middle.Code() then
        if part.inFragment then Continue(false, part.(scratch := part.scratch + payload), [])
        else Continue(false, part, Report(ph.next - |payload|, |payload|))
      else if code == Last.Code() then
        if part.inFragment then Return(part.scratch + payload, part.start, [])
        else Continue(false, part, Report(ph.next - |payload|, |payload|))
      else
        var dropped := |payload| + if part.inFragment then |part.scratch| else 0;
        Continue(false, NOTHING, Report(ph.next - dropped, dropped))
    }

    // After a bad record
    function Abandoned(next: nat, part: Partial): seq<nat> {
      if part.inFragment then Report(next - |part.scratch|, |part.scratch|) else []
    }

    // One turn of ReadRecord's loop, standing at p with part of a record in hand and the reports made
    function TurnAt(p: nat, resyncing: bool, part: Partial, reports: seq<nat>): (t: Turn)
      requires Sound()
      requires part.inFragment ==> part.start >= initialOffset
      ensures t.More? ==> p < t.next <= size && (t.part.inFragment ==> t.part.start >= initialOffset)
      ensures t.Done? && t.read.record.Some? ==> p < t.read.next <= size && t.read.record.value.1 >= initialOffset
      ensures t.Done? && t.read.record.None? ==> p <= t.read.next <= Max(p, size)
    {
      var ph := physical(p);
      TurnOn(ph.result, ph.next, resyncing, part, reports + ph.reports)
    }

    // The same once the physical record is read, up to next
    function TurnOn(result: PhysicalResult, next: nat, resyncing: bool, part: Partial, reports: seq<nat>): (t: Turn)
      requires part.inFragment ==> part.start >= initialOffset
      requires result.Record? ==> result.start >= initialOffset
      ensures t.More? ==> t.next == next && !result.Eof? && (t.part.inFragment ==> t.part.start >= initialOffset)
      ensures t.Done? ==> t.read.next == next
      ensures t.Done? && t.read.record.Some? ==> result.Record? && t.read.record.value.1 >= initialOffset
    {
      match Meaning(result)
      case Eof => Done(RecordRead(None, next, false, reports))
      case BadRecord => More(next, false, NOTHING, reports + Abandoned(next, part))
      case Record(_, _, _) =>
        match Step(resyncing, part, PhysicalRead(result, next, []))
        case Return(record, start, said) => Done(RecordRead(Some((record, start)), next, false, reports + said))
        case Continue(resyncing', part', said) => More(next, resyncing', part', reports + said)
    }

    function ReadRecord(p: nat, resyncing: bool, part: Partial, reports: seq<nat>): (r: RecordRead)
      requires Sound()
      requires part.inFragment ==> part.start >= initialOffset
      ensures r.record.Some? ==> p < r.next <= size && r.record.value.1 >= initialOffset
      ensures r.record.None? ==> p <= r.next <= Max(p, size)
      decreases Max(p, size) - p
    {
      match TurnAt(p, resyncing, part, reports)
      case Done(r) => r
      case More(next, resyncing', part', reports') => ReadRecord(next, resyncing', part', reports')
    }

    // A record begun but not ended before the next one starts
    function Unfinished(next: nat, part: Partial): seq<nat> {
      if part.inFragment && part.scratch != [] then Report(next - |part.scratch|, |part.scratch|) else []
    }

    // Reading records until there are no more
    function ReadAll(p: nat, resyncing: bool, reports: seq<nat>): AllRead
      requires Sound()
      decreases Max(p, size) - p
    {
      var r := ReadRecord(p, resyncing, NOTHING, reports);
      match r.record
      case None => AllRead([], r.reports)
      case Some(rec) =>
        var rest := ReadAll(r.next, r.resyncing, r.reports);
        AllRead([rec] + rest.records, rest.reports)
    }
  }

  // A file and the way it is to be read. The functions say what reading does from a file position.
  datatype Source = Source(file: Bytes, crc: Crc, checksum: bool, initialOffset: nat) {

    // Bytes left in the block of p
    function Left(p: nat): nat {
      if p >= |file| then 0 else if |file| < BlockEnd(p) then |file| - p else BlockEnd(p) - p
    }

    // Where the next header is read from, past a trailer if need be
    function HeaderAt(p: nat): (h: Option<nat>)
      ensures h.Some? ==> p <= h.value && Left(h.value) >= HEADER_SIZE
    {
      if Left(p) >= HEADER_SIZE then Some(p)
      else if BlockEnd(p) <= |file| && Left(BlockEnd(p)) >= HEADER_SIZE then Some(BlockEnd(p))
      else None
    }

    // A drop is reported only if it started at or after the initial offset
    function Report(start: int, bytes: nat): seq<nat> {
      if start >= initialOffset then [bytes] else []
    }

    predicate ChecksumMatches(record: Bytes)
      requires |record| >= HEADER_SIZE
    {
      crc(record[6..]) == Unmask(DecodeFixed32(record[..4]))
    }

    function RecordEndAt(h: nat): int
      requires Left(h) >= HEADER_SIZE
    {
      h + HEADER_SIZE + file[h + 4] as int + 0x100 * (file[h + 5] as int)
    }

    // Reading the physical record whose header is at h
    function Parse(h: nat): (r: PhysicalRead)
      requires Left(h) >= HEADER_SIZE
      ensures !r.result.Eof? ==> h < r.next <= |file|
      ensures r.result.Eof? ==> r.next == |file|
      ensures r.result.Record? ==> r.result.start >= initialOffset
    {
      var end := RecordEndAt(h);
      if end > h + Left(h) then
        if |file| < BlockEnd(h) then PhysicalRead(Eof, |file|, [])
        else PhysicalRead(BadRecord, h + Left(h), Report(h, Left(h)))
      else if file[h + 6] == 0 && end == h + HEADER_SIZE then
        PhysicalRead(BadRecord, h + Left(h), [])
      else if checksum && !ChecksumMatches(file[h..end]) then
        PhysicalRead(BadRecord, h + Left(h), Report(h, Left(h)))
      else if h < initialOffset then PhysicalRead(BadRecord, end, [])
      else PhysicalRead(Record(file[h + 6], file[h + HEADER_SIZE..end], h), end, [])
    }

    function ReadPhysical(p: nat): (r: PhysicalRead)
      ensures !r.result.Eof? ==> p < r.next <= |file|
      ensures r.result.Eof? ==> r.next == Max(p, |file|)
      ensures r.result.Record? ==> r.result.start >= initialOffset
    {
      match HeaderAt(p)
      case None => PhysicalRead(Eof, Max(p, |file|), [])
      case Some(h) => Parse(h)
    }

    // SkipToInitialBlock: the first block that can hold a header at or after the initial offset
    function FirstBlock(): nat {
      var offsetInBlock := initialOffset % BLOCK_SIZE;
      initialOffset - offsetInBlock + if offsetInBlock > BLOCK_SIZE - 6 then BLOCK_SIZE else 0
    }

    // The file as a stream of physical records
    function Records(): (s: Stream)
      ensures s.Sound()
    {
      Stream((p: nat) => ReadPhysical(p), |file|, initialOffset)
    }

    // What a new reader returns and reports over its life
    function Contents(): AllRead {
      Records().ReadAll(if initialOffset > 0 then FirstBlock() else 0, initialOffset > 0, [])
    }
  }

  lemma SameBlock(p: nat, q: nat)
    requires p <= q < BlockEnd(p)
    ensures BlockEnd(q) == BlockEnd(p)
  {
  }

  class Reader {
    const source: Source
    var filePos: nat               // the position of the underlying sequential file
    var buffer: Bytes
    var eof: bool
    var lastRecordOffset: nat
    var endOfBufferOffset: nat
    var resyncing: bool
    var reports: seq<nat>          // sizes passed to the reporter, oldest first

    ghost function Position(): int
      reads this
    {
      endOfBufferOffset - |buffer|
    }

    // The buffer holds what is left of the last block read
    ghost predicate Buffered()
      reads this
    {
      var p := Position();
      && filePos == endOfBufferOffset && p >= 0
      && (if buffer == [] then (if eof then p >= |source.file| else p % BLOCK_SIZE == 0)
          else
            && endOfBufferOffset <= |source.file| && buffer == source.file[p..endOfBufferOffset]
            && if eof then endOfBufferOffset == |source.file| < BlockEnd(p) else endOfBufferOffset == BlockEnd(p))
    }

    constructor (source: Source)
      ensures this.source == source
      ensures filePos == 0 && buffer == [] && !eof && lastRecordOffset == 0 && endOfBufferOffset == 0
      ensures resyncing == (source.initialOffset > 0) && reports == []
    {
      this.source := source;
      filePos, buffer, eof, lastRecordOffset, endOfBufferOffset := 0, [], false, 0, 0;
      resyncing, reports := source.initialOffset > 0, [];
    }

    // ReportDrop
    method ReportDrop(bytes: nat)
      modifies this`reports
      ensures reports == old(reports) + source.Report(Position() - bytes, bytes)
    {
      if endOfBufferOffset - |buffer| - bytes >= source.initialOffset {
        reports := reports + [bytes];
      }
    }

    // Replaces the buffer by the next block
    method ReadBlock()
      requires Buffered() && |buffer| < HEADER_SIZE && !eof
      modifies this`filePos, this`buffer, this`eof, this`endOfBufferOffset
      ensures Buffered() && (!eof ==> filePos > old(filePos) && filePos <= |source.file|)
      ensures source.HeaderAt(Position()) == source.HeaderAt(old(Position()))
      ensures Max(Position(), |source.file|) == Max(old(Position()), |source.file|)
    {
      var from := if filePos < |source.file| then filePos else |source.file|;
      var to := if from + BLOCK_SIZE < |source.file| then from + BLOCK_SIZE else |source.file|;
      buffer := source.file[from..to];
      filePos := filePos + |buffer|;
      endOfBufferOffset := endOfBufferOffset + |buffer|;
      if |buffer| < BLOCK_SIZE {
        eof := true;
      }
    }

    method ReadPhysicalRecord() returns (result: PhysicalResult)
      requires Buffered()
      modifies this`filePos, this`buffer, this`eof, this`endOfBufferOffset, this`reports
      ensures Buffered()
      ensures var r := source.ReadPhysical(old(Position()));
              result == r.result && Position() == r.next && reports == old(reports) + r.reports
    {
      while |buffer| < HEADER_SIZE
        invariant Buffered() && reports == old(reports)
        invariant source.HeaderAt(Position()) == source.HeaderAt(old(Position()))
        invariant Max(Position(), |source.file|) == Max(old(Position()), |source.file|)
        decreases if eof then 0 else 1 + Max(|source.file|, filePos) - filePos
      {
        if !eof {
          ReadBlock();
        } else {
          buffer := [];
          return Eof;
        }
      }
      result := ParseHeader();
    }

    // The rest of ReadPhysicalRecord, once a header is in the buffer
    method ParseHeader() returns (result: PhysicalResult)
      requires Buffered() && |buffer| >= HEADER_SIZE
      modifies this`buffer, this`reports
      ensures Buffered()
      ensures source.Left(old(Position())) >= HEADER_SIZE
      ensures var r := source.Parse(old(Position()));
              result == r.result && Position() == r.next && reports == old(reports) + r.reports
    {
      ghost var h := Position();
      ghost var left := source.Left(h);
      assert |buffer| == left && (eof <==> |source.file| < BlockEnd(h));
      var length := buffer[4] as int + 0x100 * (buffer[5] as int);
      var code := buffer[6];
      assert h + HEADER_SIZE + length == source.RecordEndAt(h) && code == source.file[h + 6];
      if HEADER_SIZE + length > |buffer| {
        if !eof {
          DropBuffer(true);
          return BadRecord;
        }
        DropBuffer(false);
        return Eof;
      }
      if code == 0 && length == 0 {
        DropBuffer(false);
        return BadRecord;
      }
      result := ParsePayload(length, code);
    }

    // The record is whole: its checksum, its payload, and where it starts
    method ParsePayload(length: nat, code: byte) returns (result: PhysicalResult)
      requires Buffered() && |buffer| >= HEADER_SIZE + length
      requires length == buffer[4] as int + 0x100 * (buffer[5] as int) && code == buffer[6]
      requires code != 0 || length != 0
      modifies this`buffer, this`reports
      ensures Buffered()
      ensures source.Left(old(Position())) >= HEADER_SIZE
      ensures var r := source.Parse(old(Position()));
              result == r.result && Position() == r.next && reports == old(reports) + r.reports
    {
      ghost var h := Position();
      assert |buffer| == source.Left(h);
      assert h + HEADER_SIZE + length == source.RecordEndAt(h) && code == source.file[h + 6];
      ghost var end := h + HEADER_SIZE + length;
      assert buffer[..HEADER_SIZE + length] == source.file[h..end];
      if source.checksum && !source.ChecksumMatches(buffer[..HEADER_SIZE + length]) {
        DropBuffer(true);
        return BadRecord;
      }
      var payload := buffer[HEADER_SIZE..HEADER_SIZE + length];
      assert payload == source.file[h..end][HEADER_SIZE..] == source.file[h + HEADER_SIZE..end];
      RemovePrefix(HEADER_SIZE + length);
      if endOfBufferOffset - |buffer| - HEADER_SIZE - length < source.initialOffset {
        return BadRecord;
      }
      return Record(code, payload, endOfBufferOffset - |buffer| - HEADER_SIZE - length);
    }

    method RemovePrefix(n: nat)
      requires Buffered() && n <= |buffer|
      modifies this`buffer
      ensures Buffered() && Position() == old(Position()) + n
    {
      ghost var p, end := Position(), endOfBufferOffset;
      assert BlockEnd(p) % BLOCK_SIZE == 0;
      assert buffer[n..] == if buffer == [] then [] else source.file[p + n..end];
      if n < |buffer| {
        SameBlock(p, p + n);
      }
      buffer := buffer[n..];
    }

    // Gives up the rest of the buffer
    method DropBuffer(report: bool)
      requires Buffered() && |buffer| >= HEADER_SIZE
      modifies this`buffer, this`reports
      ensures Buffered() && Position() == old(Position()) + |old(buffer)|
      ensures reports == old(reports) + if report then source.Report(old(Position()), |old(buffer)|) else []
    {
      var dropSize := |buffer|;
      RemovePrefix(dropSize);
      if report {
        ReportDrop(dropSize);
      }
    }

    // Where the next call of ReadRecord starts reading: a new reader first skips whole blocks
    ghost function Start(): int
      reads this
    {
      if lastRecordOffset < source.initialOffset then source.FirstBlock() else Position()
    }

    ghost predicate Valid()
      reads this
    {
      && Buffered()
      && (lastRecordOffset < source.initialOffset ==> filePos == 0 && buffer == [] && !eof)
    }

    method SkipToInitialBlock()
      requires Valid() && lastRecordOffset < source.initialOffset
      modifies this`filePos, this`endOfBufferOffset
      ensures Buffered() && Position() == source.FirstBlock()
    {
      var offsetInBlock := source.initialOffset % BLOCK_SIZE;
      var blockStartLocation := source.initialOffset - offsetInBlock;
      if offsetInBlock > BLOCK_SIZE - 6 {
        blockStartLocation := blockStartLocation + BLOCK_SIZE;
      }
      endOfBufferOffset := blockStartLocation;
      if blockStartLocation > 0 {
        filePos := filePos + blockStartLocation;
      }
    }

    // To be called until it fails; a reader that has failed is not called again
    method ReadRecord() returns (record: Option<Bytes>)
      requires Valid()
      modifies this
      ensures var r := source.Records().ReadRecord(old(Start()), old(resyncing), NOTHING, old(reports));
              && (record.None? <==> r.record.None?)
              && (record.Some? ==> Valid() && r.record == Some((record.value, lastRecordOffset)) && Start() == r.next)
              && resyncing == r.resyncing && reports == r.reports
    {
      if lastRecordOffset < source.initialOffset {
        SkipToInitialBlock();
      }
      ghost var p := Position();
      record := None;
      var part := NOTHING;
      var done := false;
      while !done
        invariant Buffered()
        invariant !done ==>
            && lastRecordOffset == old(lastRecordOffset) && (part.inFragment ==> part.start >= source.initialOffset)
            && source.Records().ReadRecord(p, old(resyncing), NOTHING, old(reports)) ==
               source.Records().ReadRecord(Position(), resyncing, part, reports)
        invariant done ==>
            source.Records().ReadRecord(p, old(resyncing), NOTHING, old(reports)) ==
            RecordRead(if record.Some? then Some((record.value, lastRecordOffset)) else None, Position(), resyncing, reports)
        decreases !done, Max(Position(), |source.file|) - Position()
      {
        record, done, part := TakeTurn(part);
      }
    }

    // One turn of ReadRecord's loop
    method TakeTurn(part: Partial) returns (record: Option<Bytes>, done: bool, part': Partial)
      requires Buffered() && (part.inFragment ==> part.start >= source.initialOffset)
      modifies this
      ensures Buffered()
      ensures match source.Records().TurnAt(old(Position()), old(resyncing), part, old(reports))
              case Done(r) =>
                done && r == RecordRead(if record.Some? then Some((record.value, lastRecordOffset)) else None,
                                        Position(), resyncing, reports)
              case More(next, resync, next', said) =>
                && !done && record == None && lastRecordOffset == old(lastRecordOffset)
                && Position() == next && resyncing == resync && part' == next' && reports == said
    {
      var result := ReadPhysicalRecord();
      record, done, part' := Respond(result, part);
    }

    // What the turn does with what was read
    method Respond(result: PhysicalResult, part: Partial) returns (record: Option<Bytes>, done: bool, part': Partial)
      requires Position() >= 0 && (part.inFragment ==> part.start >= source.initialOffset)
      requires result.Record? ==> result.start >= source.initialOffset
      modifies this`resyncing, this`reports, this`lastRecordOffset
      ensures match source.Records().TurnOn(result, Position(), old(resyncing), part, old(reports))
              case Done(r) =>
                done && r == RecordRead(if record.Some? then Some((record.value, lastRecordOffset)) else None,
                                        Position(), resyncing, reports)
              case More(next, resync, next', said) =>
                && !done && record == None && lastRecordOffset == old(lastRecordOffset)
                && Position() == next && resyncing == resync && part' == next' && reports == said
    {
      record, done, part' := None, false, NOTHING;
      match Meaning(result)
      case Eof =>
        resyncing, done := false, true;
      case BadRecord =>
        resyncing := false;
        if part.inFragment {
          ReportDrop(|part.scratch|);
        }
      case Record(code, payload, start) =>
        record, part' := Handle(code, payload, start, part);
        done := record.Some?;
    }

    // The resynchronisation test and the switch of ReadRecord, for a good physical record
    method Handle(code: byte, payload: Bytes, start: nat, part: Partial) returns (record: Option<Bytes>, part': Partial)
      requires start >= source.initialOffset && (part.inFragment ==> part.start >= source.initialOffset)
      requires Position() >= 0
      modifies this`resyncing, this`reports, this`lastRecordOffset
      ensures match source.Records().Step(old(resyncing), part, PhysicalRead(Record(code, payload, start), Position(), []))
              case Return(rec, at, said) =>
                record == Some(rec) && lastRecordOffset == at && !resyncing && reports == old(reports) + said
              case Continue(resync, next, said) =>
                && record == None && lastRecordOffset == old(lastRecordOffset)
                && resyncing == resync && part' == next && reports == old(reports) + said
    {
      record, part' := None, part;
      if resyncing {
        if code == Middle.Code() {
          return;
        } else if code == Last.Code() {
          resyncing := false;
          return;
        } else {
          resyncing := false;
        }
      }
      if code == Full.Code() {
        if part.inFragment && part.scratch != [] {
          ReportDrop(|part.scratch|);
        }
        record, lastRecordOffset := Some(payload), start;
      } else if code == First.Code() {
        if part.inFragment && part.scratch != [] {
          ReportDrop(|part.scratch|);
        }
        part' := Partial(true, payload, start);
      } else if code == Middle.Code() {
        if !part.inFragment {
          ReportDrop(|payload|);
        } else {
          part' := part.(scratch := part.scratch + payload);
        }
      } else if code == Last.Code() {
        if !part.inFragment {
          ReportDrop(|payload|);
        } else {
          record, lastRecordOffset := Some(part.scratch + payload), part.start;
        }
      } else {
        ReportDrop(|payload| + if part.inFragment then |part.scratch| else 0);
        part' := NOTHING;
      }
    }

    // The loop of every user of a reader
    method ReadAll() returns (records: seq<(Bytes, nat)>)
      requires Valid()
      modifies this
      ensures var all := source.Records().ReadAll(old(Start()), old(resyncing), old(reports));
              records == all.records && reports == all.reports
      decreases Max(Start(), |source.file|) - Start()
    {
      var record := ReadRecord();
      if record.None? {
        return [];
      }
      var offset := lastRecordOffset;
      var rest := ReadAll();
      records := [(record.value, offset)] + rest;
    }
  }
}
