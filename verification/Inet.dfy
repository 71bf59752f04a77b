// libuv's text form of IPv4 and IPv6 addresses: what inet_ntop4 and inet_ntop6 print, section 2.2 of
// RFC 4291 and section 4 of RFC 5952, and how inet_pton4 and inet_pton6 read it.
module Inet {
  import opened Options
  import opened ByteStrings

  type word = x: int | 0 <= x < 0x1_0000

  // ---- Digits ----

  function Digit(d: nat): char
    requires d < 16
  {
    if d < 10 then '0' + d as char else 'a' + (d - 10) as char
  }

  // strchr in the lower- and then in the upper-case digits
  function HexValue(c: char): Option<nat> {
    if '0' <= c <= '9' then Some((c - '0') as nat)
    else if 'a' <= c <= 'f' then Some((c - 'a') as nat + 10)
    else if 'A' <= c <= 'F' then Some((c - 'A') as nat + 10)
    else None
  }

  function DecValue(c: char): Option<nat> {
    if '0' <= c <= '9' then Some((c - '0') as nat) else None
  }

  lemma DigitBack(d: nat)
    requires d < 16
    ensures HexValue(Digit(d)) == Some(d) && Digit(d) != ':' && Digit(d) != '.'
    ensures d < 10 ==> DecValue(Digit(d)) == Some(d)
  {
  }

  // %x and %u
  function Hex(n: nat): (s: string)
    ensures s != []
  {
    if n < 16 then [Digit(n)] else Hex(n / 16) + [Digit(n % 16)]
  }

  function Dec(n: nat): (s: string)
    ensures s != []
  {
    if n < 10 then [Digit(n)] else Dec(n / 10) + [Digit(n % 10)]
  }

  // ---- IPv4 ----

  function Text4(b: Bytes): string
    requires |b| == 4
  {
    Dec(b[0]) + ("." + (Dec(b[1]) + ("." + (Dec(b[2]) + ("." + Dec(b[3]))))))
  }

  // The loop of inet_pton4: the octets so far, the last one unfinished
  function Parse4(src: string, tmp: Bytes, saw: bool, octets: nat): Option<Bytes>
    requires tmp != []
    decreases |src|
  {
    if src == [] then if octets < 4 then None else Some(tmp)
    else
      var last := tmp[|tmp| - 1];
      match DecValue(src[0])
      case Some(d) =>
        if (saw && last == 0) || last * 10 + d > 255 || (!saw && octets + 1 > 4) then None
        else Parse4(src[1..], tmp[..|tmp| - 1] + [last * 10 + d], true, if saw then octets else octets + 1)
      case None =>
        if src[0] == '.' && saw && octets != 4 then Parse4(src[1..], tmp + [0], false, octets) else None
  }

  function Pton4(src: string): Option<Bytes> {
    Parse4(src, [0], false, 0)
  }

  method InetPton4(src: string) returns (r: Option<Bytes>)
    ensures r == Pton4(src)
  {
    var sawDigit, octets := false, 0;
    var tmp: Bytes := [0];
    var i := 0;
    while i < |src|
      invariant 0 <= i <= |src| && tmp != [] && octets >= 0
      invariant Pton4(src) == Parse4(src[i..], tmp, sawDigit, octets)
    {
      var ch := src[i];
      assert src[i..][0] == ch && src[i..][1..] == src[i + 1..];
      i := i + 1;
      var pch := DecValue(ch);
      var last: int := tmp[|tmp| - 1];
      if pch.Some? {
        var nw: int := last * 10 + pch.value;
        if sawDigit && last == 0 {
          return None;
        }
        if nw > 255 {
          return None;
        }
        tmp := tmp[..|tmp| - 1] + [nw];
        if !sawDigit {
          octets := octets + 1;
          if octets > 4 {
            return None;
          }
          sawDigit := true;
        }
      } else if ch == '.' && sawDigit {
        if octets == 4 {
          return None;
        }
        tmp := tmp + [0];
        sawDigit := false;
      } else {
        return None;
      }
    }
    if octets < 4 {
      return None;
    }
    return Some(tmp);
  }

  lemma TwoDigits(n: nat, rest: string)
    requires 10 <= n < 100
    ensures Dec(n) + rest == [Digit(n / 10)] + ([Digit(n % 10)] + rest)
  {
    assert Dec(n / 10) == [Digit(n / 10)];
  }

  lemma ThreeDigits(n: nat, rest: string)
    requires 100 <= n < 1000
    ensures Dec(n) + rest == [Digit(n / 100)] + ([Digit(n / 10 % 10)] + ([Digit(n % 10)] + rest))
  {
    TwoDigits(n / 10, [Digit(n % 10)] + rest);
    assert n / 10 / 10 == n / 100;
    assert Dec(n) + rest == Dec(n / 10) + ([Digit(n % 10)] + rest);
  }

  // An octet read back
  lemma {:induction false} DecBack(n: nat, rest: string, tmp: Bytes, octets: nat)
    requires n < 256 && octets < 4
    ensures Parse4(Dec(n) + rest, tmp + [0], false, octets) == Parse4(rest, tmp + [n], true, octets + 1)
  {
    if n < 10 {
      assert Dec(n) + rest == [Digit(n)] + rest;
      DecDigit(n, rest, tmp, 0, false, octets);
    } else if n < 100 {
      TwoDigits(n, rest);
      DecDigit(n / 10, [Digit(n % 10)] + rest, tmp, 0, false, octets);
      DecDigit(n % 10, rest, tmp, n / 10, true, octets + 1);
    } else {
      ThreeDigits(n, rest);
      assert n / 100 * 10 + n / 10 % 10 == n / 10;
      DecDigit(n / 100, [Digit(n / 10 % 10)] + ([Digit(n % 10)] + rest), tmp, 0, false, octets);
      DecDigit(n / 10 % 10, [Digit(n % 10)] + rest, tmp, n / 100, true, octets + 1);
      DecDigit(n % 10, rest, tmp, n / 10, true, octets + 1);
    }
  }

  lemma DecDigit(d: nat, rest: string, tmp: Bytes, m: byte, saw: bool, octets: nat)
    requires d < 10 && m * 10 + d < 256 && (saw ==> m != 0) && (!saw ==> octets < 4)
    ensures Parse4([Digit(d)] + rest, tmp + [m], saw, octets) ==
            Parse4(rest, tmp + [m * 10 + d], true, if saw then octets else octets + 1)
  {
    DigitBack(d);
    var src := [Digit(d)] + rest;
    assert src[0] == Digit(d) && src[1..] == rest;
    assert (tmp + [m])[..|tmp|] == tmp;
  }

  lemma Dot(rest: string, tmp: Bytes, octets: nat)
    requires tmp != [] && octets != 4
    ensures Parse4("." + rest, tmp, true, octets) == Parse4(rest, tmp + [0], false, octets)
  {
    var src := "." + rest;
    assert src[0] == '.' && src[1..] == rest;
  }

  lemma Octet(n: nat, rest: string, tmp: Bytes, octets: nat)
    requires n < 256 && octets < 3
    ensures Parse4(Dec(n) + ("." + rest), tmp + [0], false, octets) == Parse4(rest, tmp + [n] + [0], false, octets + 1)
  {
    DecBack(n, "." + rest, tmp, octets);
    Dot(rest, tmp + [n], octets + 1);
  }

  lemma RoundTrip4(b: Bytes)
    requires |b| == 4
    ensures Pton4(Text4(b)) == Some(b)
  {
    var r3 := Dec(b[3]);
    var r2 := Dec(b[2]) + ("." + r3);
    var r1 := Dec(b[1]) + ("." + r2);
    var t0: Bytes := [];
    var t1 := t0 + [b[0]];
    var t2 := t1 + [b[1]];
    var t3 := t2 + [b[2]];
    assert t0 + [0] == [0];
    Octet(b[0], r1, t0, 0);
    Octet(b[1], r2, t1, 1);
    Octet(b[2], r3, t2, 2);
    assert r3 == Dec(b[3]) + "";
    DecBack(b[3], "", t3, 3);
    assert t3 + [b[3]] == b;
  }

  // ---- IPv6: printing ----

  const WORDS := 8
  const BYTES := 16

  // The low sixteen bits, high byte first
  function TwoBytes(val: nat): (b: Bytes)
    ensures |b| == 2
  {
    [val / 0x100 % 0x100, val % 0x100]
  }

  function WordBytes(ws: seq<word>): (b: Bytes)
    ensures |b| == 2 * |ws|
  {
    seq(2 * |ws|, i requires 0 <= i < 2 * |ws| => if i % 2 == 0 then ws[i / 2] / 0x100 else ws[i / 2] % 0x100)
  }

  lemma WordBytesSplit(ws: seq<word>, i: nat)
    requires i <= |ws|
    ensures WordBytes(ws) == WordBytes(ws[..i]) + WordBytes(ws[i..])
  {
    var a, b := WordBytes(ws[..i]), WordBytes(ws[i..]);
    forall k | 0 <= k < 2 * |ws| ensures WordBytes(ws)[k] == (a + b)[k] {
      if k >= 2 * i {
        assert (k - 2 * i) / 2 == k / 2 - i && (k - 2 * i) % 2 == k % 2;
      }
    }
  }

  lemma OneWord(w: word)
    ensures WordBytes([w]) == TwoBytes(w)
  {
  }

  // The words in hexadecimal
  function Tokens(ws: seq<word>): (ts: seq<string>)
    ensures |ts| == |ws|
  {
    seq(|ws|, i requires 0 <= i < |ws| => Hex(ws[i]))
  }

  function Join(ts: seq<string>): string {
    if ts == [] then "" else if |ts| == 1 then ts[0] else ts[0] + (":" + Join(ts[1..]))
  }

  // A run of zero words that cannot be made longer
  ghost predicate IsRun(ws: seq<word>, base: nat, len: nat) {
    && len > 0 && base + len <= |ws|
    && (forall i :: base <= i < base + len ==> ws[i] == 0)
    && (base > 0 ==> ws[base - 1] != 0)
    && (base + len < |ws| ==> ws[base + len] != 0)
  }

  datatype Run = NoRun | At(base: nat, len: nat)

  // The first of the longest runs of at least two zero words
  ghost predicate IsBest(ws: seq<word>, best: Run) {
    if best.NoRun? then forall base: nat, len: nat :: IsRun(ws, base, len) ==> len < 2
    else
      && best.len >= 2 && IsRun(ws, best.base, best.len)
      && forall base: nat, len: nat :: IsRun(ws, base, len) ==> len <= best.len && (base < best.base ==> len < best.len)
  }

  // An IPv4 address in the last two words: the compatible form, or the mapped one
  predicate Embeds(ws: seq<word>, best: Run)
    requires |ws| == WORDS
  {
    best.At? && best.base == 0 && (best.len == 6 || (best.len == 5 && ws[5] == 0xffff))
  }

  function Tail(ws: seq<word>, best: Run): string
    requires |ws| == WORDS && best.At? && best.base + best.len <= WORDS
  {
    if Embeds(ws, best) then (if best.len == 6 then "" else "ffff:") + Text4(WordBytes(ws[6..]))
    else Join(Tokens(ws)[best.base + best.len..])
  }

  function TextOf(ws: seq<word>, best: Run): string
    requires |ws| == WORDS && (best.At? ==> best.base + best.len <= WORDS)
  {
    if best.NoRun? then Join(Tokens(ws)) else Join(Tokens(ws)[..best.base]) + ("::" + Tail(ws, best))
  }

  function ToWords(src: Bytes): (ws: seq<word>)
    requires |src| == BYTES
    ensures |ws| == WORDS
  {
    seq(WORDS, i requires 0 <= i < WORDS => (src[2 * i] as int) * 0x100 + src[2 * i + 1] as int)
  }

  // The scan of inet_ntop6: the current run, if any, and the best before it
  ghost predicate Scanned(ws: seq<word>, i: nat, best: Run, cur: Run) {
    && i <= |ws|
    && (cur.At? ==> cur.len > 0 && cur.base + cur.len == i && (forall j :: cur.base <= j < i ==> ws[j] == 0) && (cur.base > 0 ==> ws[cur.base - 1] != 0))
    && (cur.NoRun? ==> i == 0 || ws[i - 1] != 0)
    && (best.At? ==> best.base + best.len < i && IsRun(ws, best.base, best.len))
    && (forall base: nat, len: nat :: IsRun(ws, base, len) && base + len < i ==>
          best.At? && len <= best.len && (base < best.base ==> len < best.len))
  }

  method FindBest(ws: seq<word>) returns (best: Run)
    ensures IsBest(ws, best)
  {
    var cur := NoRun;
    best := NoRun;
    var i: nat := 0;
    while i < |ws|
      invariant Scanned(ws, i, best, cur)
    {
      if ws[i] == 0 {
        cur := if cur.NoRun? then At(i, 1) else At(cur.base, cur.len + 1);
      } else if cur.At? {
        RunEnds(ws, i, best, cur);
        if best.NoRun? || cur.len > best.len {
          best := cur;
        }
        cur := NoRun;
      }
      i := i + 1;
    }
    if cur.At? {
      RunEnds(ws, i, best, cur);
      if best.NoRun? || cur.len > best.len {
        best := cur;
      }
    }
    if best.At? && best.len < 2 {
      best := NoRun;
    }
  }

  // The run that ends at i is the current one
  lemma RunEnds(ws: seq<word>, i: nat, best: Run, cur: Run)
    requires Scanned(ws, i, best, cur) && cur.At? && (i < |ws| ==> ws[i] != 0)
    ensures IsRun(ws, cur.base, cur.len)
    ensures forall base: nat, len: nat :: IsRun(ws, base, len) && base + len == i ==> base == cur.base && len == cur.len
  {
    forall base: nat, len: nat | IsRun(ws, base, len) && base + len == i ensures base == cur.base {
      assert cur.base > 0 ==> ws[cur.base - 1] != 0;
      assert base > 0 ==> ws[base - 1] != 0;
    }
  }

  // ---- The printing loop ----

  function Piece(ts: seq<string>, best: Run, i: nat): string
    requires i < |ts|
  {
    if best.At? && best.base <= i < best.base + best.len then if i == best.base then ":" else ""
    else (if i != 0 then ":" else "") + ts[i]
  }

  function Printed(ts: seq<string>, best: Run, i: nat): string
    requires i <= |ts|
  {
    if i == 0 then "" else Printed(ts, best, i - 1) + Piece(ts, best, i - 1)
  }

  lemma {:induction false} JoinSnoc(ts: seq<string>, w: string)
    ensures Join(ts + [w]) == if ts == [] then w else Join(ts) + ":" + w
  {
    if |ts| > 0 {
      JoinSnoc(ts[1..], w);
      assert (ts + [w])[1..] == ts[1..] + [w];
    }
  }

  lemma {:induction false} PrintedBefore(ts: seq<string>, best: Run, i: nat)
    requires i <= |ts| && (best.At? ==> i <= best.base)
    ensures Printed(ts, best, i) == Join(ts[..i])
  {
    if i == 1 {
      assert ts[..1] == [ts[0]];
      assert Printed(ts, best, 0) == "";
    } else if i > 1 {
      PrintedBefore(ts, best, i - 1);
      JoinLast(ts, 0, i);
      assert ts[0..i] == ts[..i] && ts[0..i - 1] == ts[..i - 1];
      SepLast(Join(ts[..i - 1]), ts[i - 1]);
    }
  }

  lemma SepLast(j: string, h: string)
    ensures j + (":" + h) == j + ":" + h
  {
  }

  lemma {:induction false} PrintedInside(ts: seq<string>, best: Run, i: nat)
    requires best.At? && best.base < i <= best.base + best.len <= |ts|
    ensures Printed(ts, best, i) == Join(ts[..best.base]) + ":"
  {
    if i == best.base + 1 {
      PrintedBefore(ts, best, best.base);
    } else {
      PrintedInside(ts, best, i - 1);
    }
  }

  lemma PrintedNext(ts: seq<string>, best: Run, i: nat)
    requires best.At? && best.len > 0 && best.base + best.len == i < |ts|
    ensures Printed(ts, best, i + 1) == Join(ts[..best.base]) + "::" + ts[i]
  {
    PrintedInside(ts, best, i);
    Colons(Join(ts[..best.base]), ts[i]);
  }

  lemma Colons(j: string, h: string)
    ensures j + ":" + (":" + h) == j + "::" + h && j + "::" + h == j + ("::" + h)
  {
  }

  lemma Longer(j: string, mid: string, h: string)
    ensures j + mid + (":" + h) == j + (mid + ":" + h)
  {
  }

  lemma PrintedStep(ts: seq<string>, best: Run, i: nat, j: string)
    requires best.At? && best.len > 0 && best.base + best.len < i < |ts| && j == Join(ts[..best.base]) + "::"
    requires Printed(ts, best, i) == j + Join(ts[best.base + best.len..i])
    ensures Printed(ts, best, i + 1) == j + Join(ts[best.base + best.len..i + 1])
  {
    JoinLast(ts, best.base + best.len, i + 1);
    Longer(j, Join(ts[best.base + best.len..i]), ts[i]);
  }

  lemma {:induction false} PrintedAfter(ts: seq<string>, best: Run, i: nat)
    requires best.At? && best.len > 0 && best.base + best.len < i <= |ts|
    ensures Printed(ts, best, i) == Join(ts[..best.base]) + "::" + Join(ts[best.base + best.len..i])
  {
    var a := best.base + best.len;
    if i == a + 1 {
      assert ts[a..i] == [ts[i - 1]];
      PrintedNext(ts, best, a);
    } else {
      PrintedAfter(ts, best, i - 1);
      PrintedStep(ts, best, i - 1, Join(ts[..best.base]) + "::");
    }
  }

  lemma JoinLast(ts: seq<string>, a: nat, i: nat)
    requires a + 1 < i <= |ts|
    ensures Join(ts[a..i]) == Join(ts[a..i - 1]) + ":" + ts[i - 1]
  {
    assert ts[a..i] == ts[a..i - 1] + [ts[i - 1]];
    JoinSnoc(ts[a..i - 1], ts[i - 1]);
  }

  lemma PieceAppended(ts: seq<string>, best: Run, i: nat, before: string)
    requires i < |ts| && !(best.At? && best.base <= i < best.base + best.len) && before == Printed(ts, best, i)
    ensures before + (if i != 0 then ":" else "") + ts[i] == Printed(ts, best, i + 1)
  {
    assert before + (if i != 0 then ":" else "") + ts[i] == before + ((if i != 0 then ":" else "") + ts[i]);
  }

  lemma PieceInside(ts: seq<string>, best: Run, i: nat, before: string)
    requires i < |ts| && best.At? && best.base <= i < best.base + best.len && before == Printed(ts, best, i)
    ensures before + (if i == best.base then ":" else "") == Printed(ts, best, i + 1)
  {
  }

  // inet_ntop6: UV_ENOSPC if the text and its terminator do not fit the buffer
  method InetNtop6(src: Bytes, size: nat) returns (dst: Option<string>, ghost best: Run)
    requires |src| == BYTES
    ensures IsBest(ToWords(src), best)
    ensures dst == if |TextOf(ToWords(src), best)| < size then Some(TextOf(ToWords(src), best)) else None
  {
    var text;
    text, best := Print6(src);
    dst := if |text| + 1 > size then None else Some(text);
  }

  // The text, printed to the local buffer
  method Print6(src: Bytes) returns (text: string, ghost best: Run)
    requires |src| == BYTES
    ensures IsBest(ToWords(src), best) && text == TextOf(ToWords(src), best)
  {
    var words := ToWords(src);
    var run := FindBest(words);
    best := run;
    text := "";
    var i := 0;
    while i < WORDS
      invariant 0 <= i <= WORDS && text == Printed(Tokens(words), run, i)
      invariant Embeds(words, run) ==> i <= 6
    {
      if run.At? && run.base <= i < run.base + run.len {
        PieceInside(Tokens(words), run, i, text);
        text := text + if i == run.base then ":" else "";
        i := i + 1;
        continue;
      }
      ghost var before := text;
      text := text + if i != 0 then ":" else "";
      // the source also lists runs of seven words, but those cover word 6 and do not get here
      if i == 6 && run.At? && run.base == 0 && (run.len == 6 || (run.len == 5 && words[5] == 0xffff)) {
        EmbeddedText(src, words, run);
        text := text + Text4(src[12..]);
        return;
      }
      text := text + Hex(words[i]);
      PieceAppended(Tokens(words), run, i, before);
      i := i + 1;
    }
    if run.At? && run.base + run.len == WORDS {
      text := text + ":";
    }
    PlainText(words, run);
  }

  lemma WordBytesBack(src: Bytes)
    requires |src| == BYTES
    ensures WordBytes(ToWords(src)[6..]) == src[12..] && WordBytes(ToWords(src)) == src
  {
    var ws := ToWords(src);
    forall k | 0 <= k < BYTES ensures WordBytes(ws)[k] == src[k] {
      TwoParts(src[k / 2 * 2], src[k / 2 * 2 + 1]);
    }
    WordBytesSplit(ws, 6);
    assert WordBytes(ws)[12..] == WordBytes(ws[6..]);
  }

  lemma TwoParts(a: byte, b: byte)
    ensures ((a as int) * 0x100 + b as int) / 0x100 == a as int && ((a as int) * 0x100 + b as int) % 0x100 == b as int
  {
  }

  lemma EmbeddedText(src: Bytes, ws: seq<word>, best: Run)
    requires |src| == BYTES && ws == ToWords(src) && Embeds(ws, best)
    ensures Printed(Tokens(ws), best, 6) + ":" + Text4(src[12..]) == TextOf(ws, best)
  {
    WordBytesBack(src);
    var ts, v := Tokens(ws), Text4(src[12..]);
    assert ts[..0] == [];
    if best.len == 6 {
      PrintedInside(ts, best, 6);
      Colons("", v);
    } else {
      PrintedAfter(ts, best, 6);
      assert ts[5..6] == [Hex(0xffff)];
      HexFfff();
      Mapped(v);
    }
  }

  lemma Mapped(v: string)
    ensures "" + "::" + "ffff" + ":" + v == "" + ("::" + ("ffff:" + v))
  {
  }

  lemma HexFfff()
    ensures Hex(0xffff) == "ffff"
  {
    assert Hex(0xf) == "f" && Hex(0xff) == "ff" && Hex(0xfff) == "fff";
  }

  lemma PlainText(ws: seq<word>, best: Run)
    requires |ws| == WORDS && !Embeds(ws, best) && (best.At? ==> best.len > 0 && best.base + best.len <= WORDS)
    ensures Printed(Tokens(ws), best, WORDS) + (if best.At? && best.base + best.len == WORDS then ":" else "") == TextOf(ws, best)
  {
    var ts := Tokens(ws);
    if best.NoRun? {
      PrintedBefore(ts, best, WORDS);
      assert ts[..WORDS] == ts;
    } else if best.base + best.len == WORDS {
      PrintedInside(ts, best, WORDS);
      assert ts[WORDS..] == [];
      Colons(Join(ts[..best.base]), "");
    } else {
      PrintedAfter(ts, best, WORDS);
      assert ts[best.base + best.len..WORDS] == ts[best.base + best.len..];
      Colons(Join(ts[..best.base]), Join(ts[best.base + best.len..]));
    }
  }

  // ---- IPv6: reading ----

  // What has been read: the bytes, and where among them the double colon stood
  datatype Read6 = Bad | Read(tmp: Bytes, colon: Option<nat>)

  // The loop of inet_pton6, and the last word after it. cur is where the current token starts.
  function Parse6(src: string, cur: string, tmp: Bytes, colon: Option<nat>, seen: nat, val: nat): (r: Read6)
    requires colon.Some? ==> colon.value <= |tmp|
    ensures r.Read? && r.colon.Some? ==> r.colon.value <= |r.tmp|
    decreases |src|
  {
    if src == [] then
      if seen == 0 then Read(tmp, colon)
      else if |tmp| + 2 > BYTES then Bad
      else Read(tmp + TwoBytes(val), colon)
    else match HexValue(src[0])
      case Some(d) => if seen + 1 > 4 then Bad else Parse6(src[1..], cur, tmp, colon, seen + 1, val * 16 + d)
      case None =>
        if src[0] == ':' then
          if seen == 0 then if colon.Some? then Bad else Parse6(src[1..], src[1..], tmp, Some(|tmp|), 0, val)
          else if src[1..] == [] || |tmp| + 2 > BYTES then Bad
          else Parse6(src[1..], src[1..], tmp + TwoBytes(val), colon, 0, 0)
        else if src[0] == '.' && |tmp| + 4 <= BYTES then
          match Pton4(cur)
          case Some(b) => Read(tmp + b, colon)
          case None => Bad
        else Bad
  }

  // The bytes after the double colon go to the end
  function Expand(r: Read6): Option<Bytes>
    requires r.Read? && r.colon.Some? ==> r.colon.value <= |r.tmp|
  {
    match r
    case Bad => None
    case Read(tmp, None) => if |tmp| == BYTES then Some(tmp) else None
    case Read(tmp, Some(c)) =>
      if |tmp| >= BYTES then None
      else Some(tmp[..c] + seq(BYTES - |tmp|, _ => 0) + tmp[c..])
  }

  function Pton6(src: string): Option<Bytes> {
    if src != [] && src[0] == ':' && (|src| == 1 || src[1] != ':') then None
    else
      var s := if src != [] && src[0] == ':' then src[1..] else src;
      Expand(Parse6(s, s, [], None, 0, 0))
  }

  // inet_pton6
  method InetPton6(src: string) returns (r: Option<Bytes>)
    ensures r == Pton6(src)
  {
    var s := src;
    if |src| > 0 && src[0] == ':' {
      if |src| == 1 || src[1] != ':' {
        return None;
      }
      s := src[1..];
    }
    var read := ReadWords(s);
    if read.Bad? {
      return None;
    }
    var n := |read.tmp|;
    if n > BYTES || (read.colon.Some? && n == BYTES) || (read.colon.None? && n != BYTES) {
      return None;
    }
    var tmp := new byte[BYTES](i => if 0 <= i < n then read.tmp[i] else 0);
    assert tmp[..n] == read.tmp;
    if read.colon.Some? {
      assert tmp[..read.colon.value] == read.tmp[..read.colon.value] && tmp[read.colon.value..n] == read.tmp[read.colon.value..];
      Shift(tmp, read.colon.value, n);
    } else {
      assert tmp[..] == read.tmp;
    }
    return Some(tmp[..]);
  }

  // The shift by hand: the bytes from colonp on move to the end, zeros take their place
  method Shift(tmp: array<byte>, c: nat, tp: nat)
    requires tmp.Length == BYTES && c <= tp < BYTES
    requires forall i :: tp <= i < BYTES ==> tmp[i] == 0
    modifies tmp
    ensures tmp[..] == old(tmp[..c]) + seq(BYTES - tp, _ => 0) + old(tmp[c..tp])
  {
    var n := tp - c;
    var i := 1;
    while i <= n
      invariant 1 <= i <= n + 1
      invariant forall k :: 0 <= k < tp - i + 1 ==> tmp[k] == old(tmp[k])
      invariant forall k :: tp - i + 1 <= k < BYTES - i + 1 ==> tmp[k] == 0
      invariant forall k :: BYTES - i + 1 <= k < BYTES ==> tmp[k] == old(tmp[k - (BYTES - tp)])
    {
      tmp[BYTES - i] := tmp[c + n - i];
      tmp[c + n - i] := 0;
      i := i + 1;
    }
    ghost var shifted := old(tmp[..c]) + seq(BYTES - tp, _ => 0) + old(tmp[c..tp]);
    assert |shifted| == BYTES;
    forall k | 0 <= k < BYTES ensures tmp[k] == shifted[k] {}
    assert tmp[..] == shifted;
  }

  method ReadWords(s: string) returns (r: Read6)
    ensures r == Parse6(s, s, [], None, 0, 0)
  {
    var cur: string, tmp: Bytes, colon: Option<nat>, seen: nat, val: nat := s, [], None, 0, 0;
    var i := 0;
    while i < |s|
      invariant 0 <= i <= |s| && (colon.Some? ==> colon.value <= |tmp|)
      invariant Parse6(s, s, [], None, 0, 0) == Parse6(s[i..], cur, tmp, colon, seen, val)
    {
      var ch := s[i];
      assert s[i..][0] == ch && s[i..][1..] == s[i + 1..];
      i := i + 1;
      var pch := HexValue(ch);
      if pch.Some? {
        val := val * 16 + pch.value;
        seen := seen + 1;
        if seen > 4 {
          return Bad;
        }
        continue;
      }
      if ch == ':' {
        cur := s[i..];
        if seen == 0 {
          if colon.Some? {
            return Bad;
          }
          colon := Some(|tmp|);
          continue;
        } else if i == |s| {
          return Bad;
        }
        if |tmp| + 2 > BYTES {
          return Bad;
        }
        tmp := tmp + TwoBytes(val);
        seen, val := 0, 0;
        continue;
      }
      if ch == '.' && |tmp| + 4 <= BYTES {
        var b := InetPton4(cur);
        if b.Some? {
          return Read(tmp + b.value, colon);
        }
      }
      return Bad;
    }
    if seen > 0 {
      if |tmp| + 2 > BYTES {
        return Bad;
      }
      tmp := tmp + TwoBytes(val);
    }
    return Read(tmp, colon);
  }

  // ---- Reading back what is printed ----

  // A hexadecimal word in front of something
  lemma HexBack(w: word, rest: string, cur: string, tmp: Bytes, colon: Option<nat>) returns (k: nat)
    requires colon.Some? ==> colon.value <= |tmp|
    ensures 0 < k <= 4
    ensures Parse6(Hex(w) + rest, cur, tmp, colon, 0, 0) == Parse6(rest, cur, tmp, colon, k, w)
  {
    k := if w < 0x10 then 1 else if w < 0x100 then 2 else if w < 0x1000 then 3 else 4;
    assert Pow16(1) == 0x10 && Pow16(2) == 0x100 && Pow16(3) == 0x1000 && Pow16(4) == 0x1_0000;
    HexDigits(w, k, rest, cur, tmp, colon, 0);
  }

  function Pow16(k: nat): nat {
    if k == 0 then 1 else 16 * Pow16(k - 1)
  }

  lemma {:induction false} HexDigits(n: nat, k: nat, rest: string, cur: string, tmp: Bytes, colon: Option<nat>, seen: nat)
    requires colon.Some? ==> colon.value <= |tmp|
    requires 0 < k && seen + k <= 4 && n < Pow16(k) && (k > 1 ==> n >= Pow16(k - 1))
    ensures Parse6(Hex(n) + rest, cur, tmp, colon, seen, 0) == Parse6(rest, cur, tmp, colon, seen + k, n)
  {
    var d := n % 16;
    if k == 1 {
      assert n < 16;
      HexDigit(n, rest, cur, tmp, colon, seen, 0);
    } else {
      assert n >= 16;
      HexDigits(n / 16, k - 1, [Digit(d)] + rest, cur, tmp, colon, seen);
      assert Hex(n) + rest == Hex(n / 16) + ([Digit(d)] + rest);
      HexDigit(d, rest, cur, tmp, colon, seen + k - 1, n / 16);
    }
  }

  lemma HexDigit(d: nat, rest: string, cur: string, tmp: Bytes, colon: Option<nat>, seen: nat, val: nat)
    requires (colon.Some? ==> colon.value <= |tmp|) && d < 16 && seen < 4
    ensures Parse6([Digit(d)] + rest, cur, tmp, colon, seen, val) == Parse6(rest, cur, tmp, colon, seen + 1, val * 16 + d)
  {
    DigitBack(d);
    var src := [Digit(d)] + rest;
    assert src[0] == Digit(d) && src[1..] == rest;
  }

  lemma Separator(rest: string, cur: string, tmp: Bytes, colon: Option<nat>, seen: nat, val: nat)
    requires (colon.Some? ==> colon.value <= |tmp|) && seen > 0 && rest != [] && |tmp| + 2 <= BYTES
    ensures Parse6(":" + rest, cur, tmp, colon, seen, val) == Parse6(rest, rest, tmp + TwoBytes(val), colon, 0, 0)
  {
    var src := ":" + rest;
    assert src[0] == ':' && src[1..] == rest && HexValue(':') == None;
  }

  lemma DoubleColon(rest: string, cur: string, tmp: Bytes, val: nat)
    ensures Parse6(":" + rest, cur, tmp, None, 0, val) == Parse6(rest, rest, tmp, Some(|tmp|), 0, val)
  {
    var src := ":" + rest;
    assert src[0] == ':' && src[1..] == rest && HexValue(':') == None;
  }

  // Words separated by colons, up to the last one, which is left as the value read
  lemma {:induction false} WordsBack(ws: seq<word>, rest: string, cur: string, tmp: Bytes, colon: Option<nat>) returns (cur': string, k: nat)
    requires (colon.Some? ==> colon.value <= |tmp|) && ws != [] && |tmp| + 2 * |ws| <= BYTES
    ensures 0 < k <= 4 && (|ws| == 1 ==> cur' == cur)
    ensures Parse6(Join(Tokens(ws)) + rest, cur, tmp, colon, 0, 0) ==
            Parse6(rest, cur', tmp + WordBytes(ws[..|ws| - 1]), colon, k, ws[|ws| - 1])
    decreases |ws|
  {
    var ts := Tokens(ws);
    if |ws| == 1 {
      k := HexBack(ws[0], rest, cur, tmp, colon);
      cur' := cur;
      assert ws[..0] == [] && tmp + WordBytes([]) == tmp;
    } else {
      assert Tokens(ws[1..]) == ts[1..];
      var more := Join(ts[1..]) + rest;
      var k0 := HexBack(ws[0], ":" + more, cur, tmp, colon);
      assert Join(ts) + rest == Hex(ws[0]) + (":" + more);
      JoinNotEmpty(ws[1..]);
      Separator(more, cur, tmp, colon, k0, ws[0]);
      cur', k := WordsBack(ws[1..], rest, more, tmp + TwoBytes(ws[0]), colon);
      OneMoreWord(ws, tmp);
    }
  }

  lemma JoinNotEmpty(ws: seq<word>)
    requires ws != []
    ensures Join(Tokens(ws)) != []
  {
    assert Tokens(ws)[0] == Hex(ws[0]);
  }

  lemma OneMoreWord(ws: seq<word>, tmp: Bytes)
    requires |ws| > 1
    ensures tmp + TwoBytes(ws[0]) + WordBytes(ws[1..][..|ws| - 2]) == tmp + WordBytes(ws[..|ws| - 1])
    ensures ws[1..][|ws| - 2] == ws[|ws| - 1]
  {
    var init := ws[..|ws| - 1];
    WordBytesSplit(init, 1);
    assert init[..1] == [ws[0]] && init[1..] == ws[1..][..|ws| - 2];
    OneWord(ws[0]);
  }

  lemma LastWord(ws: seq<word>, tmp: Bytes)
    requires ws != []
    ensures tmp + WordBytes(ws) == tmp + WordBytes(ws[..|ws| - 1]) + TwoBytes(ws[|ws| - 1])
  {
    WordBytesSplit(ws, |ws| - 1);
    assert ws[|ws| - 1..] == [ws[|ws| - 1]];
    OneWord(ws[|ws| - 1]);
  }

  // Words to the end of the string
  lemma AllWordsBack(ws: seq<word>, cur: string, tmp: Bytes, colon: Option<nat>)
    requires (colon.Some? ==> colon.value <= |tmp|) && |tmp| + 2 * |ws| <= BYTES
    ensures Parse6(Join(Tokens(ws)), cur, tmp, colon, 0, 0) == Read(tmp + WordBytes(ws), colon)
  {
    if ws == [] {
      assert tmp + [] == tmp;
    } else {
      assert Join(Tokens(ws)) + "" == Join(Tokens(ws));
      var cur', k := WordsBack(ws, "", cur, tmp, colon);
      LastWord(ws, tmp);
    }
  }

  // The digits of an octet, read as hexadecimal ones
  lemma DecAsHex(n: nat, rest: string, cur: string, tmp: Bytes, colon: Option<nat>) returns (k: nat, v: nat)
    requires n < 256 && (colon.Some? ==> colon.value <= |tmp|)
    ensures Parse6(Dec(n) + rest, cur, tmp, colon, 0, 0) == Parse6(rest, cur, tmp, colon, k, v)
  {
    if n < 10 {
      assert Dec(n) == [Digit(n)];
      HexDigit(n, rest, cur, tmp, colon, 0, 0);
      k, v := 1, n;
    } else if n < 100 {
      TwoDigits(n, rest);
      v := TwoAsHex(n / 10, n % 10, rest, cur, tmp, colon, 0, 0);
      k := 2;
    } else {
      ThreeDigits(n, rest);
      HexDigit(n / 100, [Digit(n / 10 % 10)] + ([Digit(n % 10)] + rest), cur, tmp, colon, 0, 0);
      v := TwoAsHex(n / 10 % 10, n % 10, rest, cur, tmp, colon, 1, n / 100);
      k := 3;
    }
  }

  lemma TwoAsHex(a: nat, b: nat, rest: string, cur: string, tmp: Bytes, colon: Option<nat>, seen: nat, val: nat) returns (v: nat)
    requires a < 10 && b < 10 && seen < 3 && (colon.Some? ==> colon.value <= |tmp|)
    ensures Parse6([Digit(a)] + ([Digit(b)] + rest), cur, tmp, colon, seen, val) == Parse6(rest, cur, tmp, colon, seen + 2, v)
  {
    HexDigit(a, [Digit(b)] + rest, cur, tmp, colon, seen, val);
    HexDigit(b, rest, cur, tmp, colon, seen + 1, val * 16 + a);
    v := (val * 16 + a) * 16 + b;
  }

  // An embedded IPv4 address at the end
  lemma EmbeddedBack(b: Bytes, tmp: Bytes, colon: Option<nat>)
    requires |b| == 4 && |tmp| + 4 <= BYTES && (colon.Some? ==> colon.value <= |tmp|)
    ensures Parse6(Text4(b), Text4(b), tmp, colon, 0, 0) == Read(tmp + b, colon)
  {
    var rest := Dec(b[1]) + ("." + (Dec(b[2]) + ("." + Dec(b[3]))));
    var k, v := DecAsHex(b[0], "." + rest, Text4(b), tmp, colon);
    var src := "." + rest;
    assert src[0] == '.' && HexValue('.') == None;
    RoundTrip4(b);
  }

  // ---- The round trip ----

  lemma TailBack(ws: seq<word>, best: Run, cur: string, tmp: Bytes)
    requires |ws| == WORDS && best.At? && best.len >= 1 && best.base + best.len <= WORDS && |tmp| == 2 * best.base
    requires cur == Tail(ws, best)
    ensures Parse6(Tail(ws, best), cur, tmp, Some(|tmp|), 0, 0) ==
            Read(tmp + WordBytes(ws[best.base + best.len..]), Some(|tmp|))
  {
    var rest := ws[best.base + best.len..];
    if !Embeds(ws, best) {
      assert Tokens(ws)[best.base + best.len..] == Tokens(rest);
      AllWordsBack(rest, cur, tmp, Some(|tmp|));
    } else {
      var v := WordBytes(ws[6..]);
      if best.len == 6 {
        assert "" + Text4(v) == Text4(v);
        EmbeddedBack(v, tmp, Some(|tmp|));
      } else {
        MappedBack(ws, cur, tmp);
      }
    }
  }

  lemma MappedBack(ws: seq<word>, cur: string, tmp: Bytes)
    requires |ws| == WORDS && ws[5] == 0xffff && tmp == []
    ensures Parse6("ffff:" + Text4(WordBytes(ws[6..])), cur, tmp, Some(0), 0, 0) == Read(tmp + WordBytes(ws[5..]), Some(0))
  {
    var v := Text4(WordBytes(ws[6..]));
    HexFfff();
    assert "ffff:" + v == Hex(0xffff) + (":" + v);
    var k := HexBack(0xffff, ":" + v, cur, tmp, Some(0));
    assert v != [];
    Separator(v, cur, tmp, Some(0), k, 0xffff);
    EmbeddedBack(WordBytes(ws[6..]), tmp + TwoBytes(0xffff), Some(0));
    var last := ws[5..];
    WordBytesSplit(last, 1);
    assert last[..1] == [ws[5]] && last[1..] == ws[6..];
    OneWord(0xffff);
    assert tmp + TwoBytes(0xffff) + WordBytes(ws[6..]) == tmp + WordBytes(last);
  }

  lemma ZeroBytes(ws: seq<word>)
    requires forall i :: 0 <= i < |ws| ==> ws[i] == 0
    ensures WordBytes(ws) == seq(2 * |ws|, _ => 0)
  {
  }

  lemma ExpandParts(a: Bytes, b: Bytes)
    requires |a| + |b| < BYTES
    ensures Expand(Read(a + b, Some(|a|))) == Some(a + seq(BYTES - |a| - |b|, _ => 0) + b)
  {
    assert (a + b)[..|a|] == a && (a + b)[|a|..] == b;
  }

  lemma ThreeParts(ws: seq<word>, b: nat, e: nat)
    requires b <= e <= |ws|
    ensures WordBytes(ws) == WordBytes(ws[..b]) + WordBytes(ws[b..e]) + WordBytes(ws[e..])
  {
    WordBytesSplit(ws, e);
    WordBytesSplit(ws[..e], b);
    assert ws[..e][..b] == ws[..b] && ws[..e][b..] == ws[b..e];
  }

  // Putting the run of zeros back
  lemma Expanded(ws: seq<word>, best: Run)
    requires |ws| == WORDS && best.At? && IsRun(ws, best.base, best.len)
    ensures Expand(Read(WordBytes(ws[..best.base]) + WordBytes(ws[best.base + best.len..]), Some(2 * best.base))) == Some(WordBytes(ws))
  {
    var b, e := best.base, best.base + best.len;
    ThreeParts(ws, b, e);
    ZeroBytes(ws[b..e]);
    ExpandParts(WordBytes(ws[..b]), WordBytes(ws[e..]));
  }

  // Any run of zero words may stand for the double colon
  lemma TextBack(ws: seq<word>, best: Run)
    requires |ws| == WORDS && (best.At? ==> IsRun(ws, best.base, best.len))
    ensures Pton6(TextOf(ws, best)) == Some(WordBytes(ws))
  {
    if best.NoRun? {
      PlainBack(ws, TextOf(ws, best));
    } else if best.base == 0 {
      LeadingBack(ws, best, TextOf(ws, best));
    } else {
      MiddleBack(ws, best, TextOf(ws, best));
    }
  }

  lemma PlainBack(ws: seq<word>, s: string)
    requires |ws| == WORDS && s == Join(Tokens(ws))
    ensures Pton6(s) == Some(WordBytes(ws))
  {
    NoColonFirst(ws);
    AllWordsBack(ws, s, [], None);
    assert [] + WordBytes(ws) == WordBytes(ws);
  }

  lemma LeadingBack(ws: seq<word>, best: Run, s: string)
    requires |ws| == WORDS && best.At? && best.base == 0 && IsRun(ws, best.base, best.len) && s == TextOf(ws, best)
    ensures Pton6(s) == Some(WordBytes(ws))
  {
    var tail := Tail(ws, best);
    assert Tokens(ws)[..0] == [];
    assert s == "" + ("::" + tail);
    ColonsFirst(s, tail);
    TailBack(ws, best, tail, []);
    assert ws[..0] == [] && [] + WordBytes(ws[best.len..]) == WordBytes(ws[best.len..]);
    Expanded(ws, best);
  }

  lemma ColonsFirst(s: string, tail: string)
    requires s == "" + ("::" + tail)
    ensures Pton6(s) == Expand(Parse6(tail, tail, [], Some(0), 0, 0))
  {
    assert s[0] == ':' && s[1] == ':' && s[1..] == ":" + tail;
    DoubleColon(tail, s[1..], [], 0);
  }

  lemma NoColonFirst(ws: seq<word>)
    requires ws != []
    ensures Join(Tokens(ws)) != [] && Join(Tokens(ws))[0] != ':'
  {
    assert Tokens(ws)[0] == Hex(ws[0]);
    HexFirst(ws[0]);
  }

  lemma {:induction false} HexFirst(n: nat)
    ensures Hex(n)[0] != ':'
  {
    if n >= 16 {
      HexFirst(n / 16);
    }
  }

  lemma MiddleBack(ws: seq<word>, best: Run, s: string)
    requires |ws| == WORDS && best.At? && best.base > 0 && IsRun(ws, best.base, best.len) && s == TextOf(ws, best)
    ensures Pton6(s) == Some(WordBytes(ws))
  {
    var first, tail := ws[..best.base], Tail(ws, best);
    NoColonFirst(first);
    MiddleText(ws, best);
    var cur, k := WordsBack(first, ":" + (":" + tail), s, [], None);
    MiddleColons(first, tail, cur, k);
    TailBack(ws, best, tail, WordBytes(first));
    Expanded(ws, best);
  }

  lemma MiddleText(ws: seq<word>, best: Run)
    requires |ws| == WORDS && best.At? && best.base + best.len <= WORDS
    ensures TextOf(ws, best) == Join(Tokens(ws[..best.base])) + (":" + (":" + Tail(ws, best)))
  {
    assert Tokens(ws)[..best.base] == Tokens(ws[..best.base]);
    assert "::" + Tail(ws, best) == ":" + (":" + Tail(ws, best));
  }

  lemma MiddleColons(first: seq<word>, tail: string, cur: string, k: nat)
    requires 0 < |first| < WORDS && 0 < k
    ensures var init := WordBytes(first[..|first| - 1]);
            Parse6(":" + (":" + tail), cur, [] + init, None, k, first[|first| - 1]) ==
            Parse6(tail, tail, WordBytes(first), Some(|WordBytes(first)|), 0, 0)
  {
    var init, last := WordBytes(first[..|first| - 1]), first[|first| - 1];
    LastWord(first, []);
    assert [] + init == init && [] + WordBytes(first) == WordBytes(first);
    Separator(":" + tail, cur, init, None, k, last);
    DoubleColon(tail, ":" + tail, WordBytes(first), 0);
  }

  // inet_pton6 inverts inet_ntop6
  lemma RoundTrip6(src: Bytes, best: Run)
    requires |src| == BYTES && IsBest(ToWords(src), best)
    ensures Pton6(TextOf(ToWords(src), best)) == Some(src)
  {
    TextBack(ToWords(src), best);
    WordBytesBack(src);
  }

  // ---- uv_inet_pton ----

  function ZoneAt(src: string): (i: nat)
    ensures i <= |src|
  {
    if src == [] || src[0] == '%' then 0 else 1 + ZoneAt(src[1..])
  }

  // A zone after a percent sign is cut off, if what comes before it fits the buffer
  function UvInetPton6(src: string): Option<Bytes> {
    var i := ZoneAt(src);
    if i < |src| && i > 45 then None else Pton6(src[..i])
  }

  lemma {:induction false} ZoneIgnored(s: string, zone: string)
    requires forall i :: 0 <= i < |s| ==> s[i] != '%'
    ensures ZoneAt(s + "%" + zone) == |s| && ZoneAt(s) == |s|
    ensures |s| <= 45 ==> UvInetPton6(s + "%" + zone) == Pton6(s) == UvInetPton6(s)
  {
    var src := s + "%" + zone;
    if s == [] {
      assert src[0] == '%';
    } else {
      ZoneIgnored(s[1..], zone);
      assert src[0] == s[0] && src[1..] == s[1..] + "%" + zone;
    }
    assert src[..|s|] == s && s[..|s|] == s;
  }
}
