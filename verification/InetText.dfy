// The text forms of addresses by themselves: what numbers look like, which addresses are printed with a dotted
// part, and exactly which strings are IPv4 addresses.
module InetText {
  import opened Options
  import opened ByteStrings
  import opened Inet

  // ---- Numbers ----

  // The digits, the most significant first
  function ValueOf(s: string, base: nat): nat {
    if s == [] then 0 else base * ValueOf(s[..|s| - 1], base) + DigitValue(s[|s| - 1])
  }

  function DigitValue(c: char): nat {
    if '0' <= c <= '9' then (c - '0') as nat else if 'a' <= c <= 'f' then 10 + (c - 'a') as nat else 99
  }

  lemma ValueSnoc(s: string, base: nat, c: char)
    ensures ValueOf(s + [c], base) == base * ValueOf(s, base) + DigitValue(c)
  {
    assert (s + [c])[..|s|] == s;
  }

  // Only digits, in lower case, and no zero in front of others
  predicate Shortest(s: string, base: nat) {
    s != [] && (forall k :: 0 <= k < |s| ==> DigitValue(s[k]) < base) && (|s| > 1 ==> s[0] != '0')
  }

  lemma OneMore(s: string, base: nat, d: nat)
    requires base <= 16 && d < base && Shortest(s, base) && s[0] != '0'
    ensures Shortest(s + [Digit(d)], base) && ValueOf(s + [Digit(d)], base) == base * ValueOf(s, base) + d
  {
    ValueSnoc(s, base, Digit(d));
  }

  lemma OneDigit(base: nat, d: nat)
    requires base <= 16 && d < base
    ensures Shortest([Digit(d)], base) && ValueOf([Digit(d)], base) == d && (d > 0 ==> Digit(d) != '0')
  {
    ValueSnoc("", base, Digit(d));
    assert "" + [Digit(d)] == [Digit(d)];
  }

  lemma {:induction false} HexIs(n: nat)
    ensures Shortest(Hex(n), 16) && ValueOf(Hex(n), 16) == n && (n > 0 ==> Hex(n)[0] != '0')
  {
    if n < 16 {
      OneDigit(16, n);
    } else {
      HexIs(n / 16);
      OneMore(Hex(n / 16), 16, n % 16);
    }
  }

  lemma {:induction false} DecIs(n: nat)
    ensures Shortest(Dec(n), 10) && ValueOf(Dec(n), 10) == n && (n > 0 ==> Dec(n)[0] != '0')
  {
    if n < 10 {
      OneDigit(10, n);
    } else {
      DecIs(n / 10);
      OneMore(Dec(n / 10), 10, n % 10);
    }
  }

  // ---- Addresses that hold an IPv4 address ----

  // Section 2.5.5 of RFC 4291: ten zero bytes and two of ones, or twelve zero bytes
  predicate IsMapped(src: Bytes)
    requires |src| == BYTES
  {
    (forall i :: 0 <= i < 10 ==> src[i] == 0) && src[10] == 0xff && src[11] == 0xff
  }

  // The next word is not zero, else it would belong to the zeros left out
  predicate IsCompatible(src: Bytes)
    requires |src| == BYTES
  {
    (forall i :: 0 <= i < 12 ==> src[i] == 0) && (src[12] != 0 || src[13] != 0)
  }

  lemma ZeroWords(src: Bytes, n: nat)
    requires |src| == BYTES && n <= WORDS
    ensures (forall i :: 0 <= i < n ==> ToWords(src)[i] == 0) <==> (forall i :: 0 <= i < 2 * n ==> src[i] == 0)
  {
    var ws := ToWords(src);
    if forall i :: 0 <= i < n ==> ws[i] == 0 {
      forall i | 0 <= i < 2 * n ensures src[i] == 0 {
        assert ws[i / 2] == 0 && (i == 2 * (i / 2) || i == 2 * (i / 2) + 1);
      }
    }
  }

  // The run of zeros at the front, when it is the longest
  lemma FrontRun(ws: seq<word>, best: Run, n: nat)
    requires |ws| == WORDS && IsBest(ws, best) && 5 <= n < WORDS
    requires (forall i :: 0 <= i < n ==> ws[i] == 0) && ws[n] != 0
    ensures best == At(0, n)
  {
    assert IsRun(ws, 0, n);
    assert best.At? ==> IsRun(ws, best.base, best.len);
  }

  // The mapped form is printed as ::ffff: and the dotted address
  lemma MappedText(src: Bytes, best: Run)
    requires |src| == BYTES && IsMapped(src) && IsBest(ToWords(src), best)
    ensures TextOf(ToWords(src), best) == "::ffff:" + Text4(src[12..])
  {
    var ws := ToWords(src);
    ZeroWords(src, 5);
    assert ws[5] == 0xffff;
    FrontRun(ws, best, 5);
    WordBytesBack(src);
    assert Tokens(ws)[..0] == [];
    assert "" + ("::" + ("ffff:" + Text4(src[12..]))) == "::ffff:" + Text4(src[12..]);
  }

  // The compatible form as :: and the dotted address
  lemma CompatibleText(src: Bytes, best: Run)
    requires |src| == BYTES && IsCompatible(src) && IsBest(ToWords(src), best)
    ensures TextOf(ToWords(src), best) == "::" + Text4(src[12..])
  {
    var ws := ToWords(src);
    ZeroWords(src, 6);
    assert ws[6] != 0;
    FrontRun(ws, best, 6);
    WordBytesBack(src);
    assert Tokens(ws)[..0] == [];
    assert "" + ("::" + ("" + Text4(src[12..]))) == "::" + Text4(src[12..]);
  }

  lemma {:induction false} JoinWithoutDot(ts: seq<string>)
    requires forall k :: 0 <= k < |ts| ==> '.' !in ts[k]
    ensures '.' !in Join(ts)
  {
    if |ts| > 1 {
      JoinWithoutDot(ts[1..]);
      assert Join(ts) == ts[0] + (":" + Join(ts[1..]));
    }
  }

  lemma TokensWithoutDot(ws: seq<word>, from: nat, to: nat)
    requires from <= to <= |ws|
    ensures '.' !in Join(Tokens(ws)[from..to])
  {
    var ts := Tokens(ws)[from..to];
    forall k | 0 <= k < |ts| ensures '.' !in ts[k] {
      assert ts[k] == Hex(ws[from + k]);
      HexIs(ws[from + k]);
    }
    JoinWithoutDot(ts);
  }

  // And no other address is printed with a dot in it
  lemma DottedExactly(src: Bytes, best: Run)
    requires |src| == BYTES && IsBest(ToWords(src), best)
    ensures '.' in TextOf(ToWords(src), best) <==> IsMapped(src) || IsCompatible(src)
  {
    var ws := ToWords(src);
    if IsMapped(src) {
      MappedText(src, best);
      DotInside(src[12..]);
    } else if IsCompatible(src) {
      CompatibleText(src, best);
      DotInside(src[12..]);
    } else {
      NotEmbedded(src, best);
      PlainWithoutDot(ws, best);
    }
  }

  lemma DotInside(b: Bytes)
    requires |b| == 4
    ensures '.' in Text4(b)
  {
    assert Text4(b)[|Dec(b[0])|] == '.';
  }

  lemma NotEmbedded(src: Bytes, best: Run)
    requires |src| == BYTES && IsBest(ToWords(src), best) && !IsMapped(src) && !IsCompatible(src)
    ensures !Embeds(ToWords(src), best)
  {
    var ws := ToWords(src);
    ZeroWords(src, 5);
    ZeroWords(src, 6);
    assert ws[5] == 0xffff ==> src[10] == 0xff && src[11] == 0xff;
    assert ws[6] != 0 ==> src[12] != 0 || src[13] != 0;
  }

  lemma PlainWithoutDot(ws: seq<word>, best: Run)
    requires |ws| == WORDS && !Embeds(ws, best) && (best.At? ==> best.base + best.len <= WORDS)
    ensures '.' !in TextOf(ws, best)
  {
    var ts := Tokens(ws);
    if best.NoRun? {
      TokensWithoutDot(ws, 0, WORDS);
      assert ts[0..WORDS] == ts;
    } else {
      var e := best.base + best.len;
      TokensWithoutDot(ws, 0, best.base);
      TokensWithoutDot(ws, e, WORDS);
      assert ts[0..best.base] == ts[..best.base] && ts[e..WORDS] == ts[e..];
      assert TextOf(ws, best) == Join(ts[..best.base]) + ("::" + Join(ts[e..]));
    }
  }

  // ---- Exactly the IPv4 addresses ----

  // What has been read of the text by the loop of inet_pton4
  function ReadSoFar(tmp: Bytes, saw: bool): string
    requires tmp != []
  {
    if |tmp| == 1 then if saw then Dec(tmp[0]) else ""
    else ReadSoFar(tmp[..|tmp| - 1], true) + "." + if saw then Dec(tmp[|tmp| - 1]) else ""
  }

  lemma DecNext(m: nat, d: nat)
    requires d < 10 && m > 0
    ensures Dec(10 * m + d) == Dec(m) + [Digit(d)]
  {
    assert (10 * m + d) / 10 == m && (10 * m + d) % 10 == d;
  }

  lemma DigitRead(tmp: Bytes, saw: bool, d: nat)
    requires tmp != [] && d < 10 && (saw ==> tmp[|tmp| - 1] != 0) && (!saw ==> tmp[|tmp| - 1] == 0) && tmp[|tmp| - 1] * 10 + d <= 255
    ensures ReadSoFar(tmp[..|tmp| - 1] + [tmp[|tmp| - 1] * 10 + d], true) == ReadSoFar(tmp, saw) + [Digit(d)]
  {
    var last := tmp[|tmp| - 1];
    var tmp' := tmp[..|tmp| - 1] + [last * 10 + d];
    if saw {
      DecNext(last, d);
    }
    assert tmp'[..|tmp'| - 1] == tmp[..|tmp| - 1];
  }

  lemma DotRead(tmp: Bytes)
    requires tmp != []
    ensures ReadSoFar(tmp + [0], false) == ReadSoFar(tmp, true) + "."
  {
    assert (tmp + [0])[..|tmp|] == tmp;
    assert ReadSoFar(tmp, true) + "." + "" == ReadSoFar(tmp, true) + ".";
  }

  // Where the loop can stand
  predicate Reading(tmp: Bytes, saw: bool, octets: nat) {
    tmp != [] && octets <= 4 && |tmp| == octets + (if saw then 0 else 1) && (!saw ==> octets < 4 && tmp[|tmp| - 1] == 0)
  }

  lemma DigitIs(c: char)
    requires DecValue(c).Some?
    ensures DecValue(c).value < 10 && Digit(DecValue(c).value) == c
  {
  }

  lemma FirstOff(a: string, src: string)
    requires src != []
    ensures a + [src[0]] + src[1..] == a + src
  {
  }

  lemma {:induction false} ReadsOn(src: string, tmp: Bytes, saw: bool, octets: nat)
    requires Reading(tmp, saw, octets) && Parse4(src, tmp, saw, octets).Some?
    ensures var b := Parse4(src, tmp, saw, octets).value;
            |b| == 4 && ReadSoFar(b, true) == ReadSoFar(tmp, saw) + src
    decreases |src|
  {
    if src == [] {
      assert ReadSoFar(tmp, saw) + src == ReadSoFar(tmp, saw);
    } else {
      FirstOff(ReadSoFar(tmp, saw), src);
      if DecValue(src[0]).Some? {
        var d := DecValue(src[0]).value;
        DigitIs(src[0]);
        DigitRead(tmp, saw, d);
        ReadsOn(src[1..], tmp[..|tmp| - 1] + [tmp[|tmp| - 1] * 10 + d], true, if saw then octets else octets + 1);
      } else {
        DotRead(tmp);
        ReadsOn(src[1..], tmp + [0], false, octets);
      }
    }
  }

  lemma Assoc(a: string, b: string, c: string)
    ensures a + b + c == a + (b + c)
  {
  }

  lemma Dotted(w: string, x: string, y: string, z: string, dot: string)
    ensures w + dot + x + dot + y + dot + z == w + (dot + (x + (dot + (y + (dot + z)))))
  {
    Assoc(w + dot + x + dot + y, dot, z);
    Assoc(w + dot + x + dot, y, dot + z);
    Assoc(w + dot + x, dot, y + (dot + z));
    Assoc(w + dot, x, dot + (y + (dot + z)));
    Assoc(w, dot, x + (dot + (y + (dot + z))));
  }

  lemma FourRead(b: Bytes)
    requires |b| == 4
    ensures ReadSoFar(b, true) == Text4(b)
  {
    var b3 := b[..3];
    var b2 := b3[..2];
    var b1 := b2[..1];
    assert b3[2] == b[2] && b2[1] == b[1] && b1[0] == b[0];
    assert ReadSoFar(b1, true) == Dec(b[0]);
    assert ReadSoFar(b2, true) == Dec(b[0]) + "." + Dec(b[1]);
    assert ReadSoFar(b3, true) == Dec(b[0]) + "." + Dec(b[1]) + "." + Dec(b[2]);
    assert ReadSoFar(b, true) == Dec(b[0]) + "." + Dec(b[1]) + "." + Dec(b[2]) + "." + Dec(b[3]);
    Dotted(Dec(b[0]), Dec(b[1]), Dec(b[2]), Dec(b[3]), ".");
  }

  // A string is an IPv4 address exactly if it is how one is printed
  lemma Pton4Exactly(s: string, b: Bytes)
    requires |b| == 4
    ensures Pton4(s) == Some(b) <==> s == Text4(b)
  {
    RoundTrip4(b);
    if Pton4(s) == Some(b) {
      ReadsOn(s, [0], false, 0);
      FourRead(b);
      assert ReadSoFar([0], false) + s == s;
    }
  }

  lemma Pton4HasFour(s: string)
    requires Pton4(s).Some?
    ensures |Pton4(s).value| == 4
  {
    ReadsOn(s, [0], false, 0);
  }
}
