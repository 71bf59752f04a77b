// Bytes and little-endian integers, shared by the codecs.
module ByteStrings {
  type byte = x: int | 0 <= x < 0x100
  type uint32 = x: int | 0 <= x < 0x1_0000_0000
  type Bytes = seq<byte>

  function EncodeFixed32(v: uint32): Bytes {
    [v % 0x100, v / 0x100 % 0x100, v / 0x100 / 0x100 % 0x100, v / 0x100 / 0x100 / 0x100]
  }

  function DecodeFixed32(b: Bytes): uint32
    requires |b| == 4
  {
    b[0] as int + 0x100 * (b[1] as int + 0x100 * (b[2] as int + 0x100 * (b[3] as int)))
  }

  lemma DecodeEncodeFixed32(v: uint32)
    ensures DecodeFixed32(EncodeFixed32(v)) == v
  {
  }

  // The number whose digits to base 256 these are, the lowest first
  function LittleEndian(b: Bytes): nat {
    if b == [] then 0 else b[0] as nat + 0x100 * LittleEndian(b[1..])
  }

  lemma LittleEndian4(b: Bytes)
    requires |b| == 4
    ensures LittleEndian(b) == b[0] as nat + 0x100 * (b[1] as nat + 0x100 * (b[2] as nat + 0x100 * b[3] as nat))
  {
    var b1 := b[1..];
    var b2 := b1[1..];
    var b3 := b2[1..];
    assert b3[1..] == [] && b1[0] == b[1] && b2[0] == b[2] && b3[0] == b[3];
    assert LittleEndian(b3) == b3[0];
    assert LittleEndian(b2) == b2[0] + 0x100 * LittleEndian(b3);
  }

  lemma Fixed32Means(v: uint32)
    ensures |EncodeFixed32(v)| == 4 && LittleEndian(EncodeFixed32(v)) == v
  {
    var b := EncodeFixed32(v);
    LittleEndian4(b);
  }
}
