// Intrusive circular lists: libuv's queue.h and LevelDB's SnapshotList.
module Rings {
  class Link {
    var next: Link
    var prev: Link
    const sequence: nat  // of a snapshot; libuv's queues have no use for it

    constructor (sequence: nat)
      ensures this.sequence == sequence && Ring([this])
    {
      next, prev, this.sequence := this, this, sequence;
    }
  }

  function After(n: nat, i: nat): nat {
    if i + 1 < n then i + 1 else 0
  }

  function Before(n: nat, i: nat): nat {
    if i > 0 then i - 1 else if n > 0 then n - 1 else 0
  }

  ghost predicate Distinct(s: seq<Link>) {
    forall i, j :: 0 <= i < j < |s| ==> s[i] != s[j]
  }

  // The links lead from each of s to the one after it, and from the last to the first
  ghost predicate Forward(s: seq<Link>)
    reads s
  {
    forall i {:trigger s[i].next} :: 0 <= i < |s| ==> s[i].next == s[After(|s|, i)]
  }

  ghost predicate Backward(s: seq<Link>)
    reads s
  {
    forall i {:trigger s[i].prev} :: 0 <= i < |s| ==> s[i].prev == s[Before(|s|, i)]
  }

  // s, in order, is a whole ring: its links go around it both ways
  ghost predicate Ring(s: seq<Link>)
    reads s
  {
    s != [] && Distinct(s) && Forward(s) && Backward(s)
  }

  // Both ways are the same way
  lemma BackAndForth(s: seq<Link>, i: nat)
    requires Ring(s) && i < |s|
    ensures s[i].next in s && s[i].prev in s && s[i].next.prev == s[i] && s[i].prev.next == s[i]
  {
    assert s[i].next == s[After(|s|, i)] && s[i].prev == s[Before(|s|, i)];
    assert s[After(|s|, i)].prev == s[i] && s[Before(|s|, i)].next == s[i];
  }

  // QUEUE_EMPTY
  method Empty(h: Link, ghost s: seq<Link>) returns (empty: bool)
    requires Ring(s) && s[0] == h
    ensures empty <==> |s| == 1
  {
    assert s[0].next == s[After(|s|, 0)];
    empty := h == h.next;
  }

  // QUEUE_HEAD
  method Head(h: Link, ghost s: seq<Link>) returns (q: Link)
    requires Ring(s) && s[0] == h
    ensures |s| > 1 ==> q == s[1]
  {
    assert s[0].next == s[After(|s|, 0)];
    q := h.next;
  }

  // QUEUE_INSERT_TAIL
  method InsertTail(h: Link, q: Link, ghost s: seq<Link>)
    requires Ring(s) && s[0] == h && q !in s
    modifies s, q
    ensures Ring(s + [q])
  {
    ghost var n := |s|;
    ghost var last := s[n - 1];
    assert s[0].prev == last;
    q.next := h;
    q.prev := h.prev;
    q.prev.next := q;
    h.prev := q;
    ghost var s' := s + [q];
    assert s'[n] == q && forall i :: 0 <= i < n ==> s'[i] == s[i];
    forall i | 0 <= i < |s'| ensures s'[i].next == s'[After(|s'|, i)] {
      assert i < n - 1 ==> s[i] != last && s[i] != q;
    }
    forall i | 0 <= i < |s'| ensures s'[i].prev == s'[Before(|s'|, i)] {
      assert 0 < i < n ==> s[i] != h && s[i] != q;
    }
  }

  ghost function Without(s: seq<Link>, i: nat): (r: seq<Link>)
    requires i < |s|
    ensures |r| == |s| - 1 && forall j :: 0 <= j < |r| ==> r[j] == s[if j < i then j else j + 1]
  {
    s[..i] + s[i + 1..]
  }

  // QUEUE_REMOVE
  method Remove(q: Link, ghost s: seq<Link>, ghost i: nat)
    requires Ring(s) && 0 < i < |s| && s[i] == q
    modifies s
    ensures Ring(Without(s, i)) && q.next == old(q.next) && q.prev == old(q.prev)
  {
    ghost var n := |s|;
    ghost var p, r := s[i - 1], s[After(n, i)];
    assert s[i].prev == p && s[i].next == r;
    q.prev.next := q.next;
    q.next.prev := q.prev;
    ghost var s' := Without(s, i);
    forall j | 0 <= j < |s'| ensures s'[j].next == s'[After(|s'|, j)] {
      ghost var k := if j < i then j else j + 1;
      assert s'[j] == s[k] && (k != i - 1 ==> s[k] != p);
    }
    forall j | 0 <= j < |s'| ensures s'[j].prev == s'[Before(|s'|, j)] {
      ghost var k := if j < i then j else j + 1;
      assert s'[j] == s[k] && (k != After(n, i) ==> s[k] != r);
    }
  }

  // QUEUE_INIT
  method Init(q: Link)
    modifies q
    ensures Ring([q])
  {
    q.next := q;
    q.prev := q;
  }

  // QUEUE_SPLIT: everything from q, the k-th, on goes to n
  method Split(h: Link, q: Link, n: Link, ghost s: seq<Link>, ghost k: nat)
    requires Ring(s) && 0 < k < |s| && s[0] == h && s[k] == q && n !in s
    modifies s, n
    ensures Ring(s[..k]) && Ring([n] + s[k..])
  {
    Cut(h, q, n, s, k);
    ClosesFirst(s, k);
    ClosesWith(n, s, k);
  }

  // Between the ends the links stay as they are
  method Cut(h: Link, q: Link, n: Link, ghost s: seq<Link>, ghost k: nat)
    requires Ring(s) && 0 < k < |s| && s[0] == h && s[k] == q && n !in s
    modifies s, n
    ensures forall i {:trigger s[i].next} :: 0 <= i < |s| - 1 && i != k - 1 ==> s[i].next == s[i + 1]
    ensures forall i {:trigger s[i].prev} :: 0 < i < |s| && i != k ==> s[i].prev == s[i - 1]
    ensures s[k - 1].next == s[0] && s[0].prev == s[k - 1]
    ensures n.next == s[k] && s[k].prev == n && s[|s| - 1].next == n && n.prev == s[|s| - 1]
  {
    ghost var last, p := s[|s| - 1], s[k - 1];
    assert s[0].prev == last && s[k].prev == p;
    SplitLinks(h, q, n, s, last, p);
    forall i | 0 <= i < |s| - 1 && i != k - 1 ensures s[i].next == s[i + 1] {
      assert s[i] != p && s[i] != last;
    }
    forall i | 0 < i < |s| && i != k ensures s[i].prev == s[i - 1] {
      assert s[i] != h && s[i] != q;
    }
  }

  lemma ClosesFirst(s: seq<Link>, k: nat)
    requires Distinct(s) && 0 < k < |s|
    requires forall i {:trigger s[i].next} :: 0 <= i < k - 1 ==> s[i].next == s[i + 1]
    requires forall i {:trigger s[i].prev} :: 0 < i < k ==> s[i].prev == s[i - 1]
    requires s[k - 1].next == s[0] && s[0].prev == s[k - 1]
    ensures Ring(s[..k])
  {
    Closes(s[..k]);
  }

  lemma ClosesWith(n: Link, s: seq<Link>, k: nat)
    requires Distinct(s) && 0 < k < |s| && n !in s
    requires forall i {:trigger s[i].next} :: k <= i < |s| - 1 ==> s[i].next == s[i + 1]
    requires forall i {:trigger s[i].prev} :: k < i < |s| ==> s[i].prev == s[i - 1]
    requires n.next == s[k] && s[k].prev == n && s[|s| - 1].next == n && n.prev == s[|s| - 1]
    ensures Ring([n] + s[k..])
  {
    var b := [n] + s[k..];
    assert forall i :: 0 < i < |b| ==> b[i] == s[k + i - 1];
    Closes(b);
  }

  // A chain whose ends are linked to each other
  lemma Closes(s: seq<Link>)
    requires s != [] && Distinct(s)
    requires forall i {:trigger s[i].next} :: 0 <= i < |s| - 1 ==> s[i].next == s[i + 1]
    requires forall i {:trigger s[i].prev} :: 0 < i < |s| ==> s[i].prev == s[i - 1]
    requires s[|s| - 1].next == s[0] && s[0].prev == s[|s| - 1]
    ensures Ring(s)
  {
  }

  method SplitLinks(h: Link, q: Link, n: Link, ghost s: seq<Link>, ghost last: Link, ghost p: Link)
    requires h in s && q in s && h != q && n !in s && last in s && p in s && p != last && h.prev == last && q.prev == p
    modifies s, n
    ensures n.prev == last && last.next == n && n.next == q && h.prev == p && p.next == h && q.prev == n
    ensures forall x {:trigger x.next} :: x in s && x != last && x != p ==> x.next == old(x.next)
    ensures forall x {:trigger x.prev} :: x in s && x != h && x != q ==> x.prev == old(x.prev)
  {
    n.prev := h.prev;
    n.prev.next := n;
    n.next := q;
    h.prev := q.prev;
    h.prev.next := h;
    q.prev := n;
  }

  // QUEUE_MOVE
  method Move(h: Link, n: Link, ghost s: seq<Link>)
    requires Ring(s) && s[0] == h && n !in s
    modifies s, n
    ensures Ring([h]) && Ring([n] + s[1..])
  {
    var empty := Empty(h, s);
    if empty {
      Init(n);
      assert s == [h] && [n] + s[1..] == [n];
    } else {
      var q := Head(h, s);
      Split(h, q, n, s, 1);
      assert s[..1] == [h];
    }
  }
}
