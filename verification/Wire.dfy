// nanopb's wire-level integers: varints of 64 and of 32 bits, zigzag and fixed-width values. The
// encoding is that of the Protocol Buffers encoding specification, sections "Base 128 Varints" and
// "Signed Integers".
module Wire {
  import opened ByteStrings

  const TWO28: int := 0x1000_0000
  const TWO31: int := 0x8000_0000
  const TWO32: int := 0x1_0000_0000
  const TWO35: int := 0x8_0000_0000
  const TWO63: int := 0x8000_0000_0000_0000
  const TWO64: int := 0x1_0000_0000_0000_0000

  datatype Parsed<+T> = Ok(value: T, rest: Bytes) | Fail

  // x << k, before anything is lost
  function Shl(x: nat, k: nat): nat {
    if k == 0 then x else 2 * Shl(x, k - 1)
  }

  // Seven bits a byte, the lowest first, the top bit set on all but the last
  function Varint(n: nat): (b: Bytes)
    ensures |b| >= 1
  {
    if n < 0x80 then [n] else [0x80 + n % 0x80] + Varint(n / 0x80)
  }

  // pb_encode_varint
  method EncodeVarint(value: nat) returns (buffer: Bytes)
    requires value < TWO64
    ensures buffer == Varint(value)
  {
    if value <= 0x7F {
      return [value];
    }
    buffer := [];
    var v: nat := value;
    while v > 0
      invariant v > 0 ==> buffer + Varint(v) == Varint(value)
      invariant v == 0 ==> buffer != [] && buffer[|buffer| - 1] >= 0x80 && LastUnset(buffer) == Varint(value)
    {
      ghost var before := buffer;
      var next := v % 0x80 + 0x80;
      buffer := buffer + [next];
      assert buffer[..|buffer| - 1] == before;
      if v >= 0x80 {
        assert before + ([next] + Varint(v / 0x80)) == buffer + Varint(v / 0x80);
      }
      v := v / 0x80;
    }
    buffer := LastUnset(buffer);
  }

  // The last byte without its top bit
  function LastUnset(buffer: Bytes): Bytes
    requires buffer != [] && buffer[|buffer| - 1] >= 0x80
  {
    buffer[..|buffer| - 1] + [buffer[|buffer| - 1] - 0x80]
  }

  lemma {:induction false} ShlAdd(a: nat, b: nat, k: nat)
    ensures Shl(a + b, k) == Shl(a, k) + Shl(b, k)
  {
    if k > 0 {
      ShlAdd(a, b, k - 1);
    }
  }

  lemma {:induction false} ShlStep(x: nat, k: nat)
    ensures Shl(0x80 * x, k) == Shl(x, k + 7)
  {
    if k > 0 {
      ShlStep(x, k - 1);
      assert Shl(x, k + 7) == 2 * Shl(x, k - 1 + 7);
    } else {
      assert k + 7 == 7;
      assert Shl(x, 7) == 2 * Shl(x, 6) && Shl(x, 6) == 2 * Shl(x, 5) && Shl(x, 5) == 2 * Shl(x, 4);
      assert Shl(x, 4) == 2 * Shl(x, 3) && Shl(x, 3) == 2 * Shl(x, 2) && Shl(x, 2) == 2 * Shl(x, 1);
    }
  }

  lemma {:induction false} ShlOrder(a: nat, b: nat, k: nat)
    ensures a < b ==> Shl(a, k) < Shl(b, k)
  {
    if k > 0 {
      ShlOrder(a, b, k - 1);
    }
  }

  lemma ShlSeven(x: nat)
    ensures Shl(x, 7) == 0x80 * x
  {
    ShlStep(x, 0);
  }

  lemma Shl28(x: nat)
    ensures Shl(x, 28) == 0x1000_0000 * x
  {
    ShlStep(x, 21);
    ShlStep(0x80 * x, 14);
    ShlStep(0x4000 * x, 7);
    ShlSeven(0x20_0000 * x);
  }

  lemma Shl63(x: nat)
    ensures Shl(x, 63) == TWO63 * x
  {
    ShlStep(x, 56);
    ShlStep(0x80 * x, 49);
    ShlStep(0x4000 * x, 42);
    ShlStep(0x20_0000 * x, 35);
    ShlStep(0x1000_0000 * x, 28);
    Shl28(0x8_0000_0000 * x);
  }

  lemma Widths()
    ensures Shl(1, 8) == 0x100 && Shl(1, 16) == 0x1_0000 && Shl(1, 32) == TWO32 && Shl(1, 64) == TWO64
  {
    ShlSeven(1);
    assert Shl(1, 8) == 2 * Shl(1, 7);
    ShlStep(1, 7);
    ShlSeven(0x80);
    assert Shl(1, 16) == 2 * Shl(1, 15) && Shl(1, 15) == 2 * Shl(1, 14);
    Shl28(1);
    assert Shl(1, 32) == 2 * Shl(1, 31) && Shl(1, 31) == 2 * Shl(1, 30);
    assert Shl(1, 30) == 2 * Shl(1, 29) && Shl(1, 29) == 2 * Shl(1, 28);
    Shl63(1);
    assert Shl(1, 64) == 2 * Shl(1, 63);
  }

  lemma {:induction false} VarintLength(n: nat, k: nat)
    requires k >= 1 && n < Shl(1, 7 * k)
    ensures |Varint(n)| <= k
  {
    ShlSeven(1);
    if n >= 0x80 {
      ShlStep(1, 7 * k - 7);
      ShlTimes(0x80, 7 * k - 7);
      VarintLength(n / 0x80, k - 1);
    }
  }

  lemma {:induction false} ShlTimes(c: nat, k: nat)
    ensures Shl(c, k) == c * Shl(1, k)
  {
    if k > 0 {
      ShlTimes(c, k - 1);
    }
  }

  lemma VarintAtMostTen(n: nat)
    requires n < TWO64
    ensures |Varint(n)| <= 10
  {
    Shl63(1);
    ShlStep(1, 63);
    Shl63(0x80);
    VarintLength(n, 10);
  }

  // ---- pb_decode_varint ----

  // The loop from a bit position on, with the bits so far; a shifted byte loses the bits past the 64th
  function VarintFrom(input: Bytes, bitpos: nat, result: nat): Parsed<nat>
    decreases |input|
  {
    if bitpos >= 64 || input == [] then Fail
    else
      var b := input[0];
      var r := (result + Shl(b % 0x80, bitpos)) % TWO64;
      if b >= 0x80 then VarintFrom(input[1..], bitpos + 7, r) else Ok(r, input[1..])
  }

  function ParseVarint(input: Bytes): Parsed<nat> {
    VarintFrom(input, 0, 0)
  }

  lemma VarintEnd(input: Bytes, bitpos: nat, r: nat, n: nat)
    requires bitpos < 64 && input != [] && input[0] < 0x80 && n == r + Shl(input[0], bitpos) && n < TWO64
    ensures VarintFrom(input, bitpos, r) == Ok(n, input[1..])
  {
    assert input[0] % 0x80 == input[0];
  }

  // One turn of the loop on a byte with its top bit set
  lemma VarintTurn(input: Bytes, bitpos: nat, r: nat, low: nat, r': nat)
    requires bitpos < 64 && input != [] && input[0] == 0x80 + low && low < 0x80 && r' == r + Shl(low, bitpos) && r' < TWO64
    ensures VarintFrom(input, bitpos, r) == VarintFrom(input[1..], bitpos + 7, r')
  {
    assert input[0] % 0x80 == low;
  }

  // n is what is read and what is left together
  lemma {:induction false} VarintReadBack(n: nat, m: nat, k: nat, r: nat, rest: Bytes)
    requires r < Shl(1, 7 * k) && n == r + Shl(m, 7 * k) && n < TWO64 && k <= 9
    ensures VarintFrom(Varint(m) + rest, 7 * k, r) == Ok(n, rest)
    decreases m
  {
    if m < 0x80 {
      FirstByte(m, rest);
      VarintEnd(Varint(m) + rest, 7 * k, r, n);
    } else {
      var r' := VarintNext(n, m, k, r, rest);
      VarintReadBack(n, m / 0x80, k + 1, r', rest);
    }
  }

  lemma FirstByte(m: nat, rest: Bytes)
    ensures Varint(m) + rest != []
    ensures m < 0x80 ==> (Varint(m) + rest)[0] == m && (Varint(m) + rest)[1..] == rest
    ensures m >= 0x80 ==> (Varint(m) + rest)[0] == 0x80 + m % 0x80 && (Varint(m) + rest)[1..] == Varint(m / 0x80) + rest
  {
  }

  lemma VarintNext(n: nat, m: nat, k: nat, r: nat, rest: Bytes) returns (r': nat)
    requires r < Shl(1, 7 * k) && n == r + Shl(m, 7 * k) && n < TWO64 && k <= 9 && m >= 0x80
    ensures k < 9 && r' < Shl(1, 7 * (k + 1)) && n == r' + Shl(m / 0x80, 7 * (k + 1))
    ensures VarintFrom(Varint(m) + rest, 7 * k, r) == VarintFrom(Varint(m / 0x80) + rest, 7 * (k + 1), r')
  {
    Advance(m, k, r);
    r' := r + Shl(m % 0x80, 7 * k);
    if k == 9 {
      Shl63(m);
    }
    FirstByte(m, rest);
    VarintTurn(Varint(m) + rest, 7 * k, r, m % 0x80, r');
  }

  // Seven more bits
  lemma Advance(m: nat, k: nat, r: nat)
    requires r < Shl(1, 7 * k)
    ensures 7 * (k + 1) == 7 * k + 7
    ensures Shl(m, 7 * k) == Shl(m % 0x80, 7 * k) + Shl(m / 0x80, 7 * (k + 1))
    ensures r + Shl(m % 0x80, 7 * k) < Shl(1, 7 * (k + 1))
  {
    assert 7 * (k + 1) == 7 * k + 7;
    ShlAdd(m % 0x80, 0x80 * (m / 0x80), 7 * k);
    ShlStep(m / 0x80, 7 * k);
    ShlAdd(m % 0x80, 1, 7 * k);
    ShlOrder(m % 0x80 + 1, 0x80, 7 * k);
    ShlStep(1, 7 * k);
  }

  // Every 64-bit value survives
  lemma VarintRoundTrip(n: nat, rest: Bytes)
    requires n < TWO64
    ensures ParseVarint(Varint(n) + rest) == Ok(n, rest)
  {
    VarintReadBack(n, n, 0, 0, rest);
  }

  // ---- pb_decode_varint32 ----

  predicate Overflows(b: byte, bitpos: nat, result: nat) {
    bitpos >= 32 && b % 0x80 != 0 && (result < TWO31 || b != if bitpos < 63 then 0xFF else 0x01)
  }

  function Varint32From(input: Bytes, bitpos: nat, result: nat): Parsed<nat>
    decreases |input|
  {
    if input == [] || Overflows(input[0], bitpos, result) then Fail
    else
      var b := input[0];
      var r := if bitpos >= 32 then result else (result + Shl(b % 0x80, bitpos)) % TWO32;
      if b >= 0x80 then Varint32From(input[1..], bitpos + 7, r)
      else if bitpos == 28 && b / 0x10 != 0 then Fail
      else Ok(r, input[1..])
  }

  function ParseVarint32(input: Bytes): Parsed<nat> {
    if input == [] then Fail
    else if input[0] < 0x80 then Ok(input[0], input[1..])
    else Varint32From(input[1..], 7, input[0] - 0x80)
  }


  // What the first five bytes come to: n is what is read and what is left together
  function FromLow(n: nat, rest: Bytes): Parsed<nat> {
    if n < TWO32 then Ok(n, rest)
    else if n < TWO35 then Fail
    else Varint32From(Varint(n / TWO35) + rest, 35, n % TWO32)
  }

  lemma {:induction false} Below28(k: nat, x: nat)
    requires k <= 4 && x < 0x80
    ensures Shl(1, 7 * k) <= TWO28 && (k < 4 ==> Shl(x, 7 * k) < TWO28)
    decreases 4 - k
  {
    if k == 4 {
      Shl28(1);
    } else {
      Below28(k + 1, 0);
      ShlStep(1, 7 * k);
      ShlOrder(x, 0x80, 7 * k);
      ShlOrder(1, 0x80, 7 * k);
    }
  }

  lemma Times28(m: nat, r: nat, n: nat)
    requires r < TWO28 && n == r + m * TWO28
    ensures n < TWO32 <==> m < 0x10
    ensures n < TWO35 <==> m < 0x80
    ensures (r + m % 0x80 * TWO28) % TWO32 == n % TWO32 && m / 0x80 == n / TWO35
  {
  }

  lemma Turn32(input: Bytes, bitpos: nat, r: nat, low: nat, r': nat)
    requires bitpos < 32 && input != [] && input[0] == 0x80 + low && low < 0x80 && r' == (r + Shl(low, bitpos)) % TWO32
    ensures Varint32From(input, bitpos, r) == Varint32From(input[1..], bitpos + 7, r')
  {
    assert input[0] % 0x80 == low;
  }

  lemma End32(input: Bytes, bitpos: nat, r: nat, r': nat)
    requires bitpos < 32 && input != [] && input[0] < 0x80 && r' == (r + Shl(input[0], bitpos)) % TWO32
    ensures Varint32From(input, bitpos, r) == if bitpos == 28 && input[0] >= 0x10 then Fail else Ok(r', input[1..])
  {
    assert input[0] % 0x80 == input[0];
  }

  // The fifth byte
  lemma FifthByte(n: nat, m: nat, r: nat, rest: Bytes)
    requires r < TWO28 && n == r + Shl(m, 28)
    ensures Varint32From(Varint(m) + rest, 28, r) == FromLow(n, rest)
  {
    Shl28(m);
    Shl28(m % 0x80);
    Times28(m, r, n);
    FirstByte(m, rest);
    if m < 0x80 {
      End32(Varint(m) + rest, 28, r, n % TWO32);
    } else {
      Turn32(Varint(m) + rest, 28, r, m % 0x80, n % TWO32);
    }
  }

  lemma LowNext(n: nat, m: nat, k: nat, r: nat, rest: Bytes) returns (r': nat)
    requires k < 4 && r < Shl(1, 7 * k) && n == r + Shl(m, 7 * k) && m >= 0x80
    ensures r' < Shl(1, 7 * (k + 1)) && n == r' + Shl(m / 0x80, 7 * (k + 1))
    ensures Varint32From(Varint(m) + rest, 7 * k, r) == Varint32From(Varint(m / 0x80) + rest, 7 * (k + 1), r')
  {
    Advance(m, k, r);
    r' := r + Shl(m % 0x80, 7 * k);
    Below28(k, m % 0x80);
    Below28(k + 1, 0);
    FirstByte(m, rest);
    Turn32(Varint(m) + rest, 7 * k, r, m % 0x80, r');
  }

  lemma LowEnd(n: nat, m: nat, k: nat, r: nat, rest: Bytes)
    requires k < 4 && r < Shl(1, 7 * k) && n == r + Shl(m, 7 * k) && m < 0x80
    ensures Varint32From(Varint(m) + rest, 7 * k, r) == FromLow(n, rest)
  {
    Below28(k, m);
    FirstByte(m, rest);
    End32(Varint(m) + rest, 7 * k, r, n);
  }

  lemma {:induction false} LowBits(n: nat, m: nat, k: nat, r: nat, rest: Bytes)
    requires 1 <= k <= 4 && r < Shl(1, 7 * k) && n == r + Shl(m, 7 * k)
    ensures Varint32From(Varint(m) + rest, 7 * k, r) == FromLow(n, rest)
    decreases 4 - k
  {
    if k == 4 {
      Shl28(1);
      FifthByte(n, m, r, rest);
    } else if m < 0x80 {
      LowEnd(n, m, k, r, rest);
    } else {
      var r' := LowNext(n, m, k, r, rest);
      LowBits(n, m / 0x80, k + 1, r', rest);
    }
  }

  // The bytes past the fifth may only carry zeros or a sign
  predicate HighOk(m: nat, j: nat, r: nat)
    decreases 9 - j
  {
    if j >= 9 then m == 1 && r >= TWO31
    else m >= 0x80 && (m % 0x80 == 0 || (m % 0x80 == 0x7F && r >= TWO31)) && HighOk(m / 0x80, j + 1, r)
  }

  // The largest value that can be left with j groups read
  function Left(j: nat): nat
    requires 5 <= j <= 9
  {
    if j == 9 then 2 else if j == 8 then 0x100 else if j == 7 then 0x8000 else if j == 6 then 0x40_0000 else 0x2000_0000
  }

  lemma {:induction false} HighBits(m: nat, j: nat, r: nat, rest: Bytes)
    requires 5 <= j <= 9 && 0 < m < Left(j)
    ensures Varint32From(Varint(m) + rest, 7 * j, r) == if HighOk(m, j, r) then Ok(r, rest) else Fail
    decreases 9 - j
  {
    var input := Varint(m) + rest;
    if m < 0x80 {
      assert input[0] == m && input[1..] == rest;
    } else {
      var low, high := m % 0x80, m / 0x80;
      assert input[0] == 0x80 + low && input[1..] == Varint(high) + rest;
      HighBits(high, j + 1, r, rest);
    }
  }

  // The j-th group of seven bits
  function Group(n: nat, j: nat): nat {
    if j == 0 then n % 0x80 else Group(n / 0x80, j - 1)
  }

  lemma FiveGroups(n: nat)
    ensures n / TWO35 == n / 0x80 / 0x80 / 0x80 / 0x80 / 0x80
  {
    assert n / 0x80 / 0x80 == n / 0x4000;
    assert n / 0x4000 / 0x80 == n / 0x20_0000;
    assert n / 0x20_0000 / 0x80 == n / TWO28;
    assert n / TWO28 / 0x80 == n / TWO35;
  }

  lemma NineGroups(n: nat)
    ensures n / TWO63 == n / TWO35 / 0x80 / 0x80 / 0x80 / 0x80
  {
    assert n / TWO35 / 0x80 == n / 0x400_0000_0000;
    assert n / 0x400_0000_0000 / 0x80 == n / 0x2_0000_0000_0000;
    assert n / 0x2_0000_0000_0000 / 0x80 == n / 0x100_0000_0000_0000;
    assert n / 0x100_0000_0000_0000 / 0x80 == n / TWO63;
  }

  predicate ZerosOrOnes(g: nat) {
    g == 0 || g == 0x7F
  }

  // Bits 32 to 34 are not looked at, and each of the following four groups of seven bits may be all
  // zeros or all ones.
  predicate Fits32(n: nat) {
    n < TWO32 ||
    (n / TWO31 % 2 == 1 && n / TWO63 == 1 &&
     ZerosOrOnes(Group(n, 5)) && ZerosOrOnes(Group(n, 6)) && ZerosOrOnes(Group(n, 7)) && ZerosOrOnes(Group(n, 8)))
  }

  lemma GroupsAbove(n: nat, m: nat)
    requires m == n / TWO35
    ensures Group(n, 5) == m % 0x80 && Group(n, 6) == m / 0x80 % 0x80
    ensures Group(n, 7) == m / 0x80 / 0x80 % 0x80 && Group(n, 8) == m / 0x80 / 0x80 / 0x80 % 0x80
    ensures n / TWO63 == m / 0x80 / 0x80 / 0x80 / 0x80
  {
    FiveGroups(n);
    NineGroups(n);
    GroupDown(n, m, 0);
    GroupDown(n, m, 1);
    GroupDown(n, m, 2);
    GroupDown(n, m, 3);
    var a := m / 0x80;
    assert Group(m, 1) == Group(a, 0);
    assert Group(m, 2) == Group(a, 1) == Group(a / 0x80, 0);
    assert Group(m, 3) == Group(a, 2) == Group(a / 0x80, 1) == Group(a / 0x80 / 0x80, 0);
  }

  lemma GroupDown(n: nat, m: nat, j: nat)
    requires m == n / 0x80 / 0x80 / 0x80 / 0x80 / 0x80
    ensures Group(n, j + 5) == Group(m, j)
  {
    var a := n / 0x80;
    var b := a / 0x80;
    var c := b / 0x80;
    var d := c / 0x80;
    assert Group(n, j + 5) == Group(a, j + 4) == Group(b, j + 3) == Group(c, j + 2) == Group(d, j + 1) == Group(m, j);
  }

  lemma HighOkUnfolded(m: nat, r: nat)
    requires m < 0x2000_0000
    ensures HighOk(m, 5, r) <==>
            r >= TWO31 && m / 0x80 / 0x80 / 0x80 / 0x80 == 1 &&
            ZerosOrOnes(m % 0x80) && ZerosOrOnes(m / 0x80 % 0x80) &&
            ZerosOrOnes(m / 0x80 / 0x80 % 0x80) && ZerosOrOnes(m / 0x80 / 0x80 / 0x80 % 0x80)
  {
    var a := m / 0x80;
    var b := a / 0x80;
    var c := b / 0x80;
    var d := c / 0x80;
    assert HighOk(d, 9, r) <==> d == 1 && r >= TWO31;
    assert HighOk(c, 8, r) <==> c >= 0x80 && (c % 0x80 == 0 || (c % 0x80 == 0x7F && r >= TWO31)) && HighOk(d, 9, r);
    assert HighOk(b, 7, r) <==> b >= 0x80 && (b % 0x80 == 0 || (b % 0x80 == 0x7F && r >= TWO31)) && HighOk(c, 8, r);
    assert HighOk(a, 6, r) <==> a >= 0x80 && (a % 0x80 == 0 || (a % 0x80 == 0x7F && r >= TWO31)) && HighOk(b, 7, r);
  }

  lemma HighGroups(n: nat)
    requires TWO35 <= n < TWO64
    ensures HighOk(n / TWO35, 5, n % TWO32) <==> Fits32(n)
  {
    var m := n / TWO35;
    GroupsAbove(n, m);
    HighOkUnfolded(m, n % TWO32);
    assert n % TWO32 >= TWO31 <==> n / TWO31 % 2 == 1;
  }

  lemma ParsedLow(n: nat, rest: Bytes)
    ensures ParseVarint32(Varint(n) + rest) == FromLow(n, rest)
  {
    var input := Varint(n) + rest;
    if n < 0x80 {
      assert input[0] == n && input[1..] == rest;
    } else {
      assert input[0] == 0x80 + n % 0x80 && input[1..] == Varint(n / 0x80) + rest;
      ShlSeven(1);
      ShlSeven(n / 0x80);
      LowBits(n, n / 0x80, 1, n % 0x80, rest);
    }
  }

  lemma SmallFits(n: nat)
    requires n < TWO35
    ensures Fits32(n) <==> n < TWO32
  {
    assert n / TWO63 == 0;
  }

  lemma FromLowAccepts(n: nat, rest: Bytes)
    requires n < TWO64
    ensures FromLow(n, rest) == if Fits32(n) then Ok(n % TWO32, rest) else Fail
  {
    if n < TWO35 {
      SmallFits(n);
    } else {
      HighBits(n / TWO35, 5, n % TWO32, rest);
      HighGroups(n);
    }
  }

  // Exactly which encoded 64-bit values pb_decode_varint32 takes, and what it makes of them
  lemma Varint32Accepts(n: nat, rest: Bytes)
    requires n < TWO64
    ensures ParseVarint32(Varint(n) + rest) == if Fits32(n) then Ok(n % TWO32, rest) else Fail
  {
    ParsedLow(n, rest);
    FromLowAccepts(n, rest);
  }

  lemma NegativeFits(n: nat)
    requires TWO64 - TWO31 <= n < TWO64
    ensures Fits32(n) && n % TWO32 == n - TWO64 + TWO32
  {
    assert n / TWO35 == 0x1FFF_FFFF;
    GroupsAbove(n, n / TWO35);
    assert n / TWO31 == 0x1_FFFF_FFFF;
  }

  // Values of 32 bits, and negative ones sign-extended to 64 bits, of which it returns the low 32 bits
  lemma Varint32RoundTrip(v: int, rest: Bytes)
    requires -TWO31 <= v < TWO32
    ensures ParseVarint32(Varint(v % TWO64) + rest) == Ok(v % TWO32, rest)
  {
    if v < 0 {
      var n := v + TWO64;
      assert v % TWO64 == n && v % TWO32 == v + TWO32;
      NegativeFits(n);
      Varint32Accepts(n, rest);
    } else {
      assert v % TWO64 == v && v % TWO32 == v;
      Varint32Small(v, rest);
    }
  }

  lemma Varint32Small(n: nat, rest: Bytes)
    requires n < TWO32
    ensures ParseVarint32(Varint(n) + rest) == Ok(n, rest)
  {
    ParsedLow(n, rest);
  }

  // It is not only those that it takes: this one has bits 31 and 63 set and nothing between
  lemma Varint32TakesMore()
    ensures ParseVarint32(Varint(TWO63 + TWO31)) == Ok(TWO31, [])
  {
    var n := TWO63 + TWO31;
    GroupsAbove(n, 0x1000_0000);
    Varint32Accepts(n, []);
    assert Varint(n) + [] == Varint(n);
  }

  // ---- Zigzag ----

  function Unsigned64(v: int): nat
    requires -TWO63 <= v < TWO63
  {
    if v < 0 then v + TWO64 else v
  }

  function Signed64(u: nat): int
    requires u < TWO64
  {
    if u >= TWO63 then u - TWO64 else u
  }

  // pb_encode_svarint: the complement of the shifted value if it is negative
  function ZigZag(v: int): (z: nat)
    requires -TWO63 <= v < TWO63
    ensures z < TWO64
  {
    var shifted := Unsigned64(v) * 2 % TWO64;
    if v < 0 then TWO64 - 1 - shifted else shifted
  }

  // pb_decode_svarint
  function UnZigZag(z: nat): int
    requires z < TWO64
  {
    if z % 2 == 1 then Signed64(TWO64 - 1 - z / 2) else Signed64(z / 2)
  }

  // Small magnitudes get small codes, and both ways undo each other
  lemma ZigZagRoundTrip(v: int)
    requires -TWO63 <= v < TWO63
    ensures UnZigZag(ZigZag(v)) == v && ZigZag(v) == if v < 0 then -2 * v - 1 else 2 * v
  {
  }

  lemma UnZigZagRoundTrip(z: nat)
    requires z < TWO64
    ensures -TWO63 <= UnZigZag(z) < TWO63 && ZigZag(UnZigZag(z)) == z
  {
  }

  // ---- Fixed width ----

  function Fixed64(v: nat): Bytes
    requires v < TWO64
  {
    EncodeFixed32(v % TWO32) + EncodeFixed32(v / TWO32)
  }

  function ParseFixed32(input: Bytes): Parsed<nat> {
    if |input| < 4 then Fail else Ok(DecodeFixed32(input[..4]), input[4..])
  }

  function ParseFixed64(input: Bytes): Parsed<nat> {
    if |input| < 8 then Fail else Ok(DecodeFixed32(input[..4]) + TWO32 * DecodeFixed32(input[4..8]), input[8..])
  }

  lemma Fixed64RoundTrip(v: nat, rest: Bytes)
    requires v < TWO64
    ensures ParseFixed64(Fixed64(v) + rest) == Ok(v, rest)
  {
    var input := Fixed64(v) + rest;
    DecodeEncodeFixed32(v % TWO32);
    DecodeEncodeFixed32(v / TWO32);
    assert input[..4] == EncodeFixed32(v % TWO32) && input[4..8] == EncodeFixed32(v / TWO32) && input[8..] == rest;
  }

  lemma Fixed32RoundTrip(v: nat, rest: Bytes)
    requires v < TWO32
    ensures ParseFixed32(EncodeFixed32(v) + rest) == Ok(v, rest)
  {
    var input := EncodeFixed32(v) + rest;
    DecodeEncodeFixed32(v);
    assert input[..4] == EncodeFixed32(v) && input[4..] == rest;
  }

  // ---- What the bytes say, whoever reads them ----

  // The top bit is set on all its bytes but the last
  predicate IsVarint(b: Bytes) {
    b != [] && b[|b| - 1] < 0x80 && forall k :: 0 <= k < |b| - 1 ==> b[k] >= 0x80
  }

  function VarintValue(b: Bytes): nat {
    if b == [] then 0 else b[0] as nat % 0x80 + 0x80 * VarintValue(b[1..])
  }

  lemma VarintLonger(low: byte, b: Bytes)
    requires low >= 0x80
    ensures VarintValue([low] + b) == low - 0x80 + 0x80 * VarintValue(b)
    ensures IsVarint(b) ==> IsVarint([low] + b)
  {
    var c := [low] + b;
    assert c[1..] == b;
    forall k | 0 <= k < |c| - 1 && IsVarint(b) ensures c[k] >= 0x80 {
      assert k > 0 ==> c[k] == b[k - 1];
    }
  }

  // A varint is one, of that value, and has no zero byte at its end to spare
  lemma {:induction false} VarintMeans(n: nat)
    ensures IsVarint(Varint(n)) && VarintValue(Varint(n)) == n
    ensures |Varint(n)| > 1 ==> Varint(n)[|Varint(n)| - 1] != 0
  {
    if n < 0x80 {
      assert [n][1..] == [];
    } else {
      VarintMeans(n / 0x80);
      VarintLonger(0x80 + n % 0x80, Varint(n / 0x80));
    }
  }

  lemma LittleEndianNext(a: Bytes, b: Bytes)
    requires a != []
    ensures LittleEndian(a + b) == a[0] as nat + 0x100 * LittleEndian(a[1..] + b)
  {
    assert (a + b)[1..] == a[1..] + b;
  }

  lemma LittleEndianJoined(a: Bytes, b: Bytes)
    requires |a| == 4
    ensures LittleEndian(a + b) == LittleEndian(a) + TWO32 * LittleEndian(b)
  {
    var a1 := a[1..];
    var a2 := a1[1..];
    var a3 := a2[1..];
    LittleEndian4(a);
    LittleEndianNext(a, b);
    LittleEndianNext(a1, b);
    LittleEndianNext(a2, b);
    LittleEndianNext(a3, b);
    assert a3[1..] + b == b && a1[0] == a[1] && a2[0] == a[2] && a3[0] == a[3];
  }

  lemma Fixed64Means(v: nat)
    requires v < TWO64
    ensures |Fixed64(v)| == 8 && LittleEndian(Fixed64(v)) == v
  {
    Fixed32Means(v % TWO32);
    Fixed32Means(v / TWO32);
    assert |Fixed64(v)| == 8;
    LittleEndianJoined(EncodeFixed32(v % TWO32), EncodeFixed32(v / TWO32));
  }
}
