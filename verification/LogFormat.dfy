// The record log: 32 KiB blocks of physical records, each a 7-byte header and a payload.
module LogFormat {
  import opened ByteStrings

  // crc32c is any function of the bytes
  type Crc = Bytes -> uint32

  const BLOCK_SIZE := 32768
  const HEADER_SIZE := 7
  const MASK_DELTA := 0xa282ead8

  // crc32c::Mask: a rotation and an addition, which Unmask undoes
  function Mask(crc: uint32): uint32 {
    (crc / 0x8000 + crc % 0x8000 * 0x2_0000 + MASK_DELTA) % 0x1_0000_0000
  }

  function Unmask(masked: uint32): uint32 {
    var rot := (masked - MASK_DELTA) % 0x1_0000_0000;
    rot / 0x2_0000 + rot % 0x2_0000 * 0x8000
  }

  lemma UnmaskMask(crc: uint32)
    ensures Unmask(Mask(crc)) == crc
  {
    var high, low := crc / 0x8000, crc % 0x8000;
    var rot := high + low * 0x2_0000;
    assert (Mask(crc) - MASK_DELTA) % 0x1_0000_0000 == rot;
    assert rot / 0x2_0000 == low && rot % 0x2_0000 == high;
  }

  datatype RecordType = Full | First | Middle | Last {
    function Code(): byte {
      match this
      case Full => 1
      case First => 2
      case Middle => 3
      case Last => 4
    }
  }

  function Physical(crc: Crc, kind: RecordType, payload: Bytes): Bytes
    requires |payload| < 0x1_0000
  {
    EncodeFixed32(Mask(crc([kind.Code()] + payload))) +
    [|payload| % 0x100, |payload| / 0x100, kind.Code()] + payload
  }

  function BlockEnd(p: nat): nat {
    (p / BLOCK_SIZE + 1) * BLOCK_SIZE
  }

  // Where the next header goes: a block's last bytes are left as a trailer when it does not fit
  function HeaderStart(w: nat): nat {
    if BlockEnd(w) - w < HEADER_SIZE then BlockEnd(w) else w
  }

  function Available(w: nat): nat {
    BlockEnd(HeaderStart(w)) - HeaderStart(w) - HEADER_SIZE
  }

  function KindOf(begin: bool, end: bool): RecordType {
    if begin && end then Full else if begin then First else if end then Last else Middle
  }

  // The payload that fits the next physical record
  function FragmentLength(w: nat, data: Bytes): (n: nat)
    ensures n <= |data|
  {
    if |data| < Available(w) then |data| else Available(w)
  }

  function FragmentEnd(w: nat, data: Bytes): nat {
    HeaderStart(w) + HEADER_SIZE + FragmentLength(w, data)
  }

  // Where a record ends whose remaining bytes are data, written from file position w on
  function RecordEnd(w: nat, data: Bytes): (end: nat)
    ensures end >= w + HEADER_SIZE
    decreases |data|, Available(w) == 0
  {
    var n := FragmentLength(w, data);
    if n == |data| then FragmentEnd(w, data) else RecordEnd(FragmentEnd(w, data), data[n..])
  }

  function Zeros(n: nat): Bytes {
    seq(n, _ => 0)
  }

  // The bytes of the rest of a record: trailers, headers and payloads
  function RenderRest(crc: Crc, w: nat, data: Bytes, begin: bool): (b: Bytes)
    ensures |b| == RecordEnd(w, data) - w
    decreases |data|, Available(w) == 0
  {
    var n := FragmentLength(w, data);
    Zeros(HeaderStart(w) - w) + Physical(crc, KindOf(begin, n == |data|), data[..n]) +
    if n == |data| then [] else RenderRest(crc, FragmentEnd(w, data), data[n..], false)
  }

  function RenderRecord(crc: Crc, w: nat, record: Bytes): Bytes {
    RenderRest(crc, w, record, true)
  }

  // The bytes a log gains when the records are added from file position w on
  function Log(crc: Crc, w: nat, records: seq<Bytes>): Bytes
    decreases records
  {
    if records == [] then []
    else
      var b := RenderRecord(crc, w, records[0]);
      b + Log(crc, w + |b|, records[1..])
  }

  lemma Reassociate(a: Bytes, b: Bytes, c: Bytes, d: Bytes)
    ensures a + b + c + d == a + (b + c + d)
  {
  }

  class Writer {
    const crc: Crc
    var dest: Bytes
    var blockOffset: nat

    // Appending past any file length keeps the block structure
    ghost predicate Valid()
      reads this
    {
      blockOffset <= BLOCK_SIZE && blockOffset <= |dest| && (|dest| - blockOffset) % BLOCK_SIZE == 0
    }

    constructor (crc: Crc)
      ensures Valid() && dest == [] && this.crc == crc
    {
      this.crc, dest, blockOffset := crc, [], 0;
    }

    // The writer for a file that already has contents
    constructor Resume(crc: Crc, dest: Bytes)
      ensures Valid() && this.dest == dest && this.crc == crc
    {
      this.crc, this.dest, blockOffset := crc, dest, |dest| % BLOCK_SIZE;
    }

    // A resumed writer emits what an uninterrupted one would: only the file's length matters
    method AddRecord(slice: Bytes)
      requires Valid()
      modifies this
      ensures Valid() && dest == old(dest) + RenderRecord(crc, |old(dest)|, slice)
    {
      var left := slice;
      var begin := true;
      ghost var tail := RenderRecord(crc, |dest|, slice);
      while begin || |left| > 0
        invariant Valid()
        invariant begin || |left| > 0 ==> tail == RenderRest(crc, |dest|, left, begin)
        invariant !begin && left == [] ==> tail == []
        invariant dest + tail == old(dest) + RenderRecord(crc, |old(dest)|, slice)
        decreases |tail|
      {
        left, tail := AddFragment(left, begin);
        begin := false;
      }
    }

    // One turn of AddRecord's do-while loop
    method AddFragment(left: Bytes, begin: bool) returns (left': Bytes, ghost tail: Bytes)
      requires Valid()
      modifies this
      ensures Valid()
      ensures dest + tail == old(dest) + RenderRest(crc, |old(dest)|, left, begin)
      ensures |tail| < |RenderRest(crc, |old(dest)|, left, begin)|
      ensures tail == if left' == [] then [] else RenderRest(crc, |dest|, left', false)
    {
      ghost var w, dest0 := |dest|, dest;
      ghost var n := FragmentLength(w, left);
      ghost var trailer := Zeros(HeaderStart(w) - w);
      tail := if n == |left| then [] else RenderRest(crc, FragmentEnd(w, left), left[n..], false);
      var avail := SwitchBlock();
      var fragmentLength := if |left| < avail then |left| else avail;
      var end := |left| == fragmentLength;
      EmitPhysicalRecord(KindOf(begin, end), left[..fragmentLength]);
      assert |dest| == FragmentEnd(w, left);
      Reassociate(dest0, trailer, Physical(crc, KindOf(begin, end), left[..fragmentLength]), tail);
      left' := left[fragmentLength..];
    }

    // Fills the trailer if the block has no room for a header; returns the room for a payload
    method SwitchBlock() returns (avail: nat)
      requires Valid()
      modifies this
      ensures Valid() && dest == old(dest) + Zeros(HeaderStart(|old(dest)|) - |old(dest)|)
      ensures |dest| == HeaderStart(|old(dest)|)
      ensures avail == Available(|old(dest)|) && blockOffset + HEADER_SIZE + avail == BLOCK_SIZE
    {
      var leftover := BLOCK_SIZE - blockOffset;
      if leftover < HEADER_SIZE {
        if leftover > 0 {
          dest := dest + Zeros(leftover);
        }
        blockOffset := 0;
      }
      avail := BLOCK_SIZE - blockOffset - HEADER_SIZE;
    }

    method EmitPhysicalRecord(kind: RecordType, payload: Bytes)
      requires Valid() && blockOffset + HEADER_SIZE + |payload| <= BLOCK_SIZE
      modifies this
      ensures Valid() && dest == old(dest) + Physical(crc, kind, payload)
      ensures |dest| == |old(dest)| + HEADER_SIZE + |payload|
    {
      var length := |payload|;
      var header := EncodeFixed32(Mask(crc([kind.Code()] + payload))) + [length % 0x100, length / 0x100, kind.Code()];
      dest := dest + header;
      dest := dest + payload;
      assert dest == old(dest) + (header + payload);
      blockOffset := blockOffset + HEADER_SIZE + length;
    }
  }
}
