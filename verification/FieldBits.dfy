// The bitmap in which pb_decode_noinit records the required fields it has seen: two words of 32 bits.
module FieldBits {
  // A shift amount below 64
  function Index(n: nat): bv32 {
    if n == 0 then 0 else 2 * Index(n / 2) + if n % 2 == 1 then 1 else 0
  }

  lemma {:induction false} IndexBound(n: nat)
    ensures n < 2 ==> Index(n) < 2
    ensures n < 4 ==> Index(n) < 4
    ensures n < 8 ==> Index(n) < 8
    ensures n < 16 ==> Index(n) < 16
    ensures n < 32 ==> Index(n) < 32
    ensures n < 64 ==> Index(n) < 64
  {
    if n > 0 {
      IndexBound(n / 2);
    }
  }

  lemma {:induction false} IndexOrder(i: nat, j: nat)
    requires i < j < 64
    ensures Index(i) < Index(j)
  {
    IndexBound(i / 2);
    IndexBound(j / 2);
    if i / 2 < j / 2 {
      IndexOrder(i / 2, j / 2);
    }
  }

  lemma {:induction false} IndexNext(n: nat)
    ensures Index(n + 1) == Index(n) + 1
  {
    if n % 2 == 1 {
      IndexNext(n / 2);
    }
  }

  lemma {:induction false} IndexRest(n: nat)
    requires n <= 32
    ensures Index(32 - n) == 32 - Index(n)
  {
    if n > 0 {
      IndexRest(n - 1);
      IndexNext(n - 1);
      IndexNext(32 - n);
    }
  }

  predicate Bit(w: bv32, k: nat)
    requires k < 32
  {
    IndexBound(k);
    (w >> Index(k)) & 1 == 1
  }

  const ALL_BITS: bv32 := 0xFFFF_FFFF

  // allbits >> (32 - n)
  function Mask(n: nat): bv32
    requires 0 < n <= 32
  {
    IndexBound(32 - n);
    ALL_BITS >> Index(32 - n)
  }

  function Marked(w: bv32, i: nat): bv32
    requires i < 32
  {
    IndexBound(i);
    w | (1 << Index(i))
  }

  lemma MarkedBit(w: bv32, i: nat, k: nat)
    requires i < 32 && k < 32
    ensures Bit(Marked(w, i), k) <==> k == i || Bit(w, k)
  {
    IndexBound(i);
    IndexBound(k);
    if i < k {
      IndexOrder(i, k);
    } else if k < i {
      IndexOrder(k, i);
    }
  }

  lemma IndexLess(k: nat, n: nat)
    requires k < 64 && n < 64
    ensures Index(k) < Index(n) <==> k < n
  {
    if k < n {
      IndexOrder(k, n);
    } else if n < k {
      IndexOrder(n, k);
    }
  }

  lemma MaskBit(n: nat, k: nat)
    requires 0 < n <= 32 && k < 32
    ensures Bit(Mask(n), k) <==> k < n
  {
    IndexBound(k);
    IndexLess(0, n);
    IndexLess(k, n);
    IndexRest(n);
    IndexRest(0);
    IndexLess(32, n);
    MaskShift(Index(n), Index(k), Index(32 - n));
  }

  lemma MaskShift(n: bv32, k: bv32, m: bv32)
    requires 0 < n <= 32 && k < 32 && m == 32 - n
    ensures ((ALL_BITS >> m) >> k) & 1 == 1 <==> k < n
  {
  }

  // Words with the same bits are the same
  lemma {:induction false} SameBits(w: bv32, v: bv32, n: nat, m: bv32)
    requires n <= 32 && m == Index(n) && m <= 32 && w >> m == v >> m
    requires forall k :: 0 <= k < n ==> (Bit(w, k) <==> Bit(v, k))
    ensures w == v
  {
    if n > 0 {
      var l := SameTop(w, v, n, m);
      SameBits(w, v, n - 1, l);
    }
  }

  lemma SameTop(w: bv32, v: bv32, n: nat, m: bv32) returns (l: bv32)
    requires 0 < n <= 32 && m == Index(n) && m <= 32 && w >> m == v >> m
    requires Bit(w, n - 1) <==> Bit(v, n - 1)
    ensures l == Index(n - 1) && l <= 32 && w >> l == v >> l
  {
    l := Index(n - 1);
    IndexBound(n - 1);
    IndexNext(n - 1);
    TopBit(w, v, l, m);
  }

  lemma TopBit(w: bv32, v: bv32, l: bv32, m: bv32)
    requires l < 32 && m == l + 1 && w >> m == v >> m && ((w >> l) & 1 == 1 <==> (v >> l) & 1 == 1)
    ensures w >> l == v >> l
  {
  }

  // A word is the mask of its first n bits exactly if just these are set
  lemma IsMask(w: bv32, n: nat)
    requires 0 < n <= 32 && forall k :: n <= k < 32 ==> !Bit(w, k)
    ensures w == Mask(n) <==> forall k :: 0 <= k < n ==> Bit(w, k)
  {
    forall k | 0 <= k < 32 ensures Bit(Mask(n), k) <==> k < n {
      MaskBit(n, k);
    }
    if forall k :: 0 <= k < n ==> Bit(w, k) {
      IndexRest(0);
      SameBits(w, Mask(n), 32, Index(32));
    }
  }

  lemma FullMask()
    ensures Mask(32) == ALL_BITS
  {
  }

  lemma NoBits(k: nat)
    requires k < 32
    ensures !Bit(0, k)
  {
    IndexBound(k);
  }

  class FieldsSeen {
    const words: array<bv32>

    constructor ()
      ensures fresh(words) && words.Length == 2 && Marks() == {}
    {
      words := new bv32[2](_ => 0);
      new;
      forall k | 0 <= k < 32 ensures !Bit(0, k) {
        NoBits(k);
      }
    }

    ghost function Marks(): set<nat>
      reads words
      requires words.Length == 2
    {
      set k | 0 <= k < 64 && Bit(words[k / 32], k % 32)
    }

    method Mark(i: nat)
      requires words.Length == 2 && i < 64
      modifies words
      ensures Marks() == old(Marks()) + {i}
    {
      ghost var before := words[i / 32];
      words[i / 32] := Marked(words[i / 32], i % 32);
      forall k | 0 <= k < 64 ensures Bit(words[k / 32], k % 32) <==> k == i || old(Bit(words[k / 32], k % 32)) {
        if k / 32 == i / 32 {
          MarkedBit(before, i % 32, k % 32);
        }
      }
    }

    method WholeWordSeen(i: nat) returns (all: bool)
      requires words.Length == 2 && i < 2
      ensures all <==> forall k :: 32 * i <= k < 32 * i + 32 ==> k in Marks()
    {
      Word(i);
      IsMask(words[i], 32);
      FullMask();
      all := words[i] == ALL_BITS;
    }

    // Whether the first n fields of word i, and so no others of it, have been seen
    method WordSeen(i: nat, n: nat) returns (all: bool)
      requires words.Length == 2 && i < 2 && 0 < n <= 32
      requires forall k :: 32 * i + n <= k < 32 * i + 32 ==> k !in Marks()
      ensures all <==> forall k :: 32 * i <= k < 32 * i + n ==> k in Marks()
    {
      Word(i);
      IsMask(words[i], n);
      all := words[i] == Mask(n);
    }

    // Whether the first count fields, and so no others, have been seen: whole words, then what is left
    method AllSeen(count: nat) returns (all: bool)
      requires words.Length == 2 && count <= 64 && forall k :: k in Marks() ==> k < count
      ensures all <==> forall k :: 0 <= k < count ==> k in Marks()
    {
      var i := 0;
      all := true;
      while i < count / 32 && all
        invariant 0 <= i <= count / 32
        invariant all <==> forall k :: 0 <= k < 32 * i ==> k in Marks()
      {
        all := WholeWordSeen(i);
        i := i + 1;
      }
      if all && count % 32 != 0 {
        all := WordSeen(i, count % 32);
      }
    }

    lemma Word(i: nat)
      requires words.Length == 2 && i < 2
      ensures forall k :: 0 <= k < 32 ==> (Bit(words[i], k) <==> 32 * i + k in Marks())
      ensures forall k :: 32 * i <= k < 32 * i + 32 ==> (k in Marks() <==> Bit(words[i], k - 32 * i))
    {
    }
  }
}
