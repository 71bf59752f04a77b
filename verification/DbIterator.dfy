// DBIter: collapses the versions seen by an internal iterator into one user entry per key, and can
// change direction at any time.
module DbIterator {
  import opened Options
  import opened Entries

  // The merged iterator below DBIter, over entries sorted by InternalKeyComparator. It is invalid
  // before the first and after the last entry.
  class InternalIterator {
    const entries: seq<Entry>
    var pos: int

    constructor (entries: seq<Entry>)
      ensures this.entries == entries && pos == -1
    {
      this.entries, pos := entries, -1;
    }

    predicate Valid()
      reads this
    {
      0 <= pos < |entries|
    }

    method SeekToFirst()
      modifies this
      ensures pos == 0
    {
      pos := 0;
    }

    method SeekToLast()
      modifies this
      ensures pos == |entries| - 1
    {
      pos := |entries| - 1;
    }

    method Next()
      requires Valid()
      modifies this
      ensures pos == old(pos) + 1
    {
      pos := pos + 1;
    }

    method Prev()
      requires Valid()
      modifies this
      ensures pos == old(pos) - 1
    {
      pos := pos - 1;
    }

    // The first entry at or after the internal key (target, sequence, kValueTypeForSeek)
    method Seek(target: int, sequence: nat)
      modifies this
      ensures SeekPosition(entries, sequence, target, pos)
    {
      pos := 0;
      while pos < |entries| && Precedes(entries[pos], target, sequence)
        invariant 0 <= pos <= |entries|
        invariant forall q :: 0 <= q < pos ==> Precedes(entries[q], target, sequence)
      {
        pos := pos + 1;
      }
    }
  }

  predicate Precedes(e: Entry, target: int, sequence: nat) {
    Before(e, Entry(target, sequence, Value, ""))
  }

  // Position p holds the newest entry a reader at sequence s sees for its key, and it is a value
  ghost predicate LiveAt(es: seq<Entry>, s: nat, p: int) {
    && 0 <= p < |es|
    && es[p].sequence <= s
    && es[p].kind.Value?
    && forall q :: 0 <= q < p && es[q].key == es[p].key ==> es[q].sequence > s
  }

  ghost predicate Increasing(ps: seq<int>) {
    forall i, j :: 0 <= i < j < |ps| ==> ps[i] < ps[j]
  }

  // The live positions below n, in order
  ghost function LiveBelow(es: seq<Entry>, s: nat, n: nat): (ps: seq<int>)
    requires n <= |es|
    ensures Increasing(ps)
    ensures forall i :: 0 <= i < |ps| ==> ps[i] < n && LiveAt(es, s, ps[i])
    ensures forall p :: p < n && LiveAt(es, s, p) ==> p in ps
  {
    if n == 0 then []
    else LiveBelow(es, s, n - 1) + if LiveAt(es, s, n - 1) then [n - 1] else []
  }

  ghost function Live(es: seq<Entry>, s: nat): seq<int> {
    LiveBelow(es, s, |es|)
  }

  // What the user sees: the (key, value) pairs in key order
  ghost function View(es: seq<Entry>, s: nat): (v: seq<(int, string)>)
    ensures |v| == |Live(es, s)|
    ensures forall i :: 0 <= i < |v| ==> v[i] == (es[Live(es, s)[i]].key, es[Live(es, s)[i]].value)
  {
    var ps := Live(es, s);
    seq(|ps|, i requires 0 <= i < |ps| => (es[ps[i]].key, es[ps[i]].value))
  }

  // The view is the database at sequence s: strictly increasing in its keys, holding exactly the keys
  // whose newest visible entry is a value, each with that value.
  lemma ViewSorted(es: seq<Entry>, s: nat)
    requires Sorted(es)
    ensures forall i, j :: 0 <= i < j < |View(es, s)| ==> View(es, s)[i].0 < View(es, s)[j].0
  {
    var ps := Live(es, s);
    forall i, j | 0 <= i < j < |ps| ensures es[ps[i]].key < es[ps[j]].key {
      assert Before(es[ps[i]], es[ps[j]]);
      assert LiveAt(es, s, ps[i]) && LiveAt(es, s, ps[j]);
    }
  }

  lemma ViewIsRead(es: seq<Entry>, s: nat, k: int, v: string)
    requires Sorted(es) && Unique(Elements(es))
    ensures (k, v) in View(es, s) <==> Read(Elements(es), k, s) == Some(v)
  {
    var db, ps := Elements(es), Live(es, s);
    if (k, v) in View(es, s) {
      var i :| 0 <= i < |ps| && View(es, s)[i] == (k, v);
      LiveIsNewest(es, s, ps[i]);
      ReadNewest(db, k, s, es[ps[i]]);
    }
    if Read(db, k, s) == Some(v) {
      var n :| Newest(db, k, s, n);
      ReadNewest(db, k, s, n);
      var p :| 0 <= p < |es| && es[p] == n;
      assert LiveAt(es, s, p) by {
        forall q | 0 <= q < p && es[q].key == k ensures es[q].sequence > s {
          assert Before(es[q], es[p]);
          if es[q].sequence <= s {
            assert es[q] in db && IsVisible(es[q], k, s);
            assert false;
          }
        }
      }
      var i :| 0 <= i < |ps| && ps[i] == p;
      assert View(es, s)[i] == (k, v);
    }
  }

  lemma LiveIsNewest(es: seq<Entry>, s: nat, p: int)
    requires Sorted(es) && LiveAt(es, s, p)
    ensures Newest(Elements(es), es[p].key, s, es[p])
  {
    forall f | f in Elements(es) && IsVisible(f, es[p].key, s) ensures f.sequence <= es[p].sequence {
      var q :| 0 <= q < |es| && es[q] == f;
      if p < q {
        assert Before(es[p], es[q]);
      }
    }
  }

  // The forward scan of FindNextUserEntry: standing at pos, hiding keys up to skip, it has yet to
  // return the live positions from index c on.
  ghost predicate ForwardScan(es: seq<Entry>, s: nat, pos: int, skip: Option<int>, c: int) {
    && 0 <= c <= |Live(es, s)| && 0 <= pos <= |es|
    && (forall j :: 0 <= j < |Live(es, s)| ==>
          (c <= j <==> pos <= Live(es, s)[j] && !Hides(skip, es[Live(es, s)[j]].key)))
    && (skip.Some? ==> forall p :: pos <= p < |es| && es[p].sequence <= s ==> es[p].key >= skip.value)
    && (forall q :: 0 <= q < pos < |es| && es[q].sequence <= s && es[q].key == es[pos].key ==>
          Hides(skip, es[q].key))
  }

  predicate Hides(skip: Option<int>, key: int) {
    skip.Some? && key <= skip.value
  }

  predicate Yields(e: Entry, s: nat, skip: Option<int>) {
    e.sequence <= s && e.kind.Value? && !Hides(skip, e.key)
  }

  lemma ForwardDeletion(es: seq<Entry>, s: nat, pos: int, skip: Option<int>, c: int)
    requires Sorted(es) && ForwardScan(es, s, pos, skip, c) && pos < |es|
    requires es[pos].sequence <= s && es[pos].kind.Deletion?
    ensures ForwardScan(es, s, pos + 1, Some(es[pos].key), c)
  {
    var e, ps := es[pos], Live(es, s);
    forall j | 0 <= j < |ps|
      ensures c <= j <==> pos + 1 <= ps[j] && !Hides(Some(e.key), es[ps[j]].key)
    {
      var p := ps[j];
      assert LiveAt(es, s, p);
      assert p == pos || (if p < pos then Before(es[p], e) else Before(e, es[p]));
    }
    assert forall p :: pos < p < |es| ==> Before(e, es[p]);
    SameKeyAdjacent(es, s, pos);
  }

  // Equal keys are adjacent in a sorted sequence
  lemma SameKeyAdjacent(es: seq<Entry>, s: nat, pos: int)
    requires Sorted(es) && 0 <= pos < |es|
    ensures forall q :: 0 <= q < pos && pos + 1 < |es| && es[q].key == es[pos + 1].key ==> es[q].key == es[pos].key
  {
    assert pos + 1 < |es| ==> Before(es[pos], es[pos + 1]);
    assert forall q :: 0 <= q < pos ==> Before(es[q], es[pos]);
  }

  lemma ForwardPass(es: seq<Entry>, s: nat, pos: int, skip: Option<int>, c: int)
    requires Sorted(es) && ForwardScan(es, s, pos, skip, c) && pos < |es|
    requires !(es[pos].sequence <= s && es[pos].kind.Deletion?) && !Yields(es[pos], s, skip)
    ensures ForwardScan(es, s, pos + 1, skip, c)
  {
    assert forall j :: 0 <= j < |Live(es, s)| ==> LiveAt(es, s, Live(es, s)[j]);
    SameKeyAdjacent(es, s, pos);
  }

  lemma ForwardAhead(es: seq<Entry>, s: nat, pos: int, skip: Option<int>, c: int)
    requires ForwardScan(es, s, pos, skip, c)
    ensures c < |Live(es, s)| ==> pos < |es|
  {
    if c < |Live(es, s)| {
      assert LiveAt(es, s, Live(es, s)[c]);
    }
  }

  lemma ForwardFound(es: seq<Entry>, s: nat, pos: int, skip: Option<int>, c: int)
    requires Sorted(es) && ForwardScan(es, s, pos, skip, c) && pos < |es|
    requires Yields(es[pos], s, skip)
    ensures c < |Live(es, s)| && Live(es, s)[c] == pos
  {
    assert LiveAt(es, s, pos);
    var j :| 0 <= j < |Live(es, s)| && Live(es, s)[j] == pos;
  }

  ghost predicate SeekPosition(es: seq<Entry>, s: nat, target: int, pos: int) {
    && 0 <= pos <= |es|
    && (forall q :: 0 <= q < pos ==> Precedes(es[q], target, s))
    && (pos < |es| ==> !Precedes(es[pos], target, s))
  }

  lemma SeekSkips(es: seq<Entry>, s: nat, target: int, pos: int, p: int)
    requires Sorted(es) && SeekPosition(es, s, target, pos) && LiveAt(es, s, p)
    ensures es[p].key >= target <==> pos <= p
  {
    if pos < p {
      assert Before(es[pos], es[p]);
    }
  }

  // Seeking to (target, s) skips exactly the live positions with smaller keys
  lemma SeekStart(es: seq<Entry>, s: nat, target: int, pos: int) returns (i: int)
    requires Sorted(es) && SeekPosition(es, s, target, pos)
    ensures i == IndexAtLeast(View(es, s), target) && ForwardScan(es, s, pos, None, i)
    ensures pos == |es| ==> i == |Live(es, s)|
  {
    ViewSorted(es, s);
    i := IndexAtLeast(View(es, s), target);
    SeekSplits(es, s, target, pos, i);
    ForwardAhead(es, s, pos, None, i);
  }

  lemma SeekSplits(es: seq<Entry>, s: nat, target: int, pos: int, i: nat)
    requires Sorted(es) && SeekPosition(es, s, target, pos)
    requires i == IndexAtLeast(View(es, s), target)
    requires forall a, b :: 0 <= a < b < |View(es, s)| ==> View(es, s)[a].0 < View(es, s)[b].0
    ensures forall j :: 0 <= j < |Live(es, s)| ==> (i <= j <==> pos <= Live(es, s)[j])
  {
    var ps, v := Live(es, s), View(es, s);
    forall j | 0 <= j < |ps| ensures i <= j <==> pos <= ps[j] {
      SeekSkips(es, s, target, pos, ps[j]);
      assert v[j].0 == es[ps[j]].key;
    }
  }

  // The backward scan of FindPrevUserEntry: v is the position the saved key and value come from, or
  // -1 when value_type is kTypeDeletion; c counts the live positions at or before its start.
  ghost predicate BackwardScan(es: seq<Entry>, s: nat, pos: int, v: int, c: int) {
    && 0 <= c <= |Live(es, s)| && -1 <= pos < |es|
    && (v == -1 || (pos < v < |es| && es[v].sequence <= s && es[v].kind.Value?
                    && forall q :: pos < q < v ==> es[q].sequence > s))
    && (forall j :: 0 <= j < c ==> Live(es, s)[j] <= if v == -1 then pos else v)
  }

  predicate Stops(es: seq<Entry>, s: nat, pos: int, v: int)
    requires 0 <= pos < |es| && v < |es|
  {
    v >= 0 && es[pos].sequence <= s && es[pos].key < es[v].key
  }

  lemma BackwardStep(es: seq<Entry>, s: nat, pos: int, v: int, c: int)
    requires Sorted(es) && BackwardScan(es, s, pos, v, c) && pos >= 0 && !Stops(es, s, pos, v)
    ensures es[pos].sequence > s ==> BackwardScan(es, s, pos - 1, v, c)
    ensures es[pos].sequence <= s && es[pos].kind.Deletion? ==> BackwardScan(es, s, pos - 1, -1, c)
    ensures es[pos].sequence <= s && es[pos].kind.Value? ==> BackwardScan(es, s, pos - 1, pos, c)
  {
    forall j | 0 <= j < c
      ensures es[pos].sequence <= s ==> Live(es, s)[j] <= pos
      ensures es[pos].sequence > s || es[pos].kind.Deletion? ==> Live(es, s)[j] != pos
    {
      assert LiveAt(es, s, Live(es, s)[j]);
      if v >= 0 {
        assert Before(es[pos], es[v]);
      }
    }
  }

  lemma BackwardFound(es: seq<Entry>, s: nat, pos: int, v: int, c: int)
    requires Sorted(es) && BackwardScan(es, s, pos, v, c) && v >= 0
    requires pos >= 0 ==> Stops(es, s, pos, v)
    requires forall j :: 0 <= j < |Live(es, s)| && Live(es, s)[j] <= v ==> j < c
    ensures 0 < c && Live(es, s)[c - 1] == v
  {
    assert pos >= 0 ==> forall q :: 0 <= q < pos ==> Before(es[q], es[pos]);
    assert LiveAt(es, s, v);
    var j :| 0 <= j < |Live(es, s)| && Live(es, s)[j] == v;
  }

  // The first index whose key is at least target, or the length
  ghost function IndexAtLeast(v: seq<(int, string)>, target: int): (i: int)
    ensures 0 <= i <= |v|
    ensures forall j :: 0 <= j < i ==> v[j].0 < target
    ensures i < |v| ==> v[i].0 >= target
  {
    if v == [] || v[0].0 >= target then 0 else 1 + IndexAtLeast(v[1..], target)
  }

  datatype Move = SeekToFirst | SeekToLast | Seek(target: int) | Next | Prev

  // A cursor over the view: an index, or -1 when it is not valid
  ghost function Moved(v: seq<(int, string)>, at: int, move: Move): (to: int)
    ensures -1 <= at < |v| ==> -1 <= to < |v|
  {
    match move
    case SeekToFirst => if |v| > 0 then 0 else -1
    case SeekToLast => |v| - 1
    case Seek(target) => var i := IndexAtLeast(v, target); if i < |v| then i else -1
    case Next => if at + 1 < |v| then at + 1 else -1
    case Prev => if at > -1 then at - 1 else -1
  }

  // Next and Prev may only be called while the iterator is valid
  ghost predicate Legal(v: seq<(int, string)>, at: int, moves: seq<Move>)
    decreases moves
  {
    moves == [] ||
    ((moves[0].Next? || moves[0].Prev? ==> at >= 0) && Legal(v, Moved(v, at, moves[0]), moves[1..]))
  }

  // What a caller sees after each move: nothing, or a key and its value
  ghost function Observed(v: seq<(int, string)>, at: int, moves: seq<Move>): seq<Option<(int, string)>>
    requires -1 <= at < |v|
    decreases moves
  {
    if moves == [] then []
    else
      var to := Moved(v, at, moves[0]);
      [if to >= 0 then Some(v[to]) else None] + Observed(v, to, moves[1..])
  }

  datatype Direction = Forward | Reverse

  class DBIter {
    const iter: InternalIterator
    const sequence: nat
    var savedKey: Option<int>    // the current key when direction == Reverse; None when cleared
    var savedValue: string       // the current value when direction == Reverse
    var direction: Direction
    var valid: bool
    ghost var cursor: int        // index into View

    ghost function Es(): seq<Entry> { iter.entries }

    ghost function Positions(): seq<int> { Live(Es(), sequence) }

    ghost predicate Consistent()
      reads this, iter
    {
      && Sorted(Es())
      && (valid ==>
            && 0 <= cursor < |Positions()|
            && (direction == Forward ==> iter.pos == Positions()[cursor])
            && (direction == Reverse ==> JustBefore(iter.pos, Positions()[cursor])))
    }

    // In reverse the internal iterator stands on a smaller user key, with nothing visible
    // between it and the entry (at p) that the saved key and value come from.
    ghost predicate JustBefore(pos: int, p: int)
      reads this
      requires 0 <= p < |Es()|
    {
      && savedKey == Some(Es()[p].key) && savedValue == Es()[p].value
      && -1 <= pos < p
      && (pos >= 0 ==> Es()[pos].key < Es()[p].key)
      && (forall q :: pos < q < p ==> Es()[q].sequence > sequence)
    }

    constructor (iter: InternalIterator, sequence: nat)
      requires Sorted(iter.entries)
      ensures this.iter == iter && this.sequence == sequence
      ensures Consistent() && !valid
    {
      this.iter, this.sequence := iter, sequence;
      savedKey, savedValue, direction, valid := None, "", Forward, false;
      cursor := 0;
    }

    function Key(): (k: int)
      requires valid && Consistent()
      reads this, iter
      ensures k == View(Es(), sequence)[cursor].0
    {
      if direction == Forward then iter.entries[iter.pos].key else savedKey.value
    }

    function Value(): (v: string)
      requires valid && Consistent()
      reads this, iter
      ensures v == View(Es(), sequence)[cursor].1
    {
      if direction == Forward then iter.entries[iter.pos].value else savedValue
    }

    // The iterator's status after a move to index i of the view
    ghost predicate At(i: int)
      reads this, iter
    {
      Consistent() && if 0 <= i < |Positions()| then valid && cursor == i else !valid
    }

    method Next()
      requires Consistent() && valid
      modifies this, iter
      ensures At(old(cursor) + 1)
    {
      ghost var ps := Positions();
      assert LiveAt(Es(), sequence, ps[cursor]);
      if direction == Reverse {
        direction := Forward;
        ghost var before := iter.pos;
        if !iter.Valid() {
          iter.SeekToFirst();
        } else {
          iter.Next();
        }
        assert iter.pos == before + 1 <= ps[cursor];
        if !iter.Valid() {
          assert false;  // the entry of the saved key lies ahead
        }
        forall p | iter.pos <= p < |Es()| && Es()[p].sequence <= sequence
          ensures Es()[p].key >= savedKey.value
        {
          assert p < ps[cursor] || p == ps[cursor] || Before(Es()[ps[cursor]], Es()[p]);
        }
        forall q | 0 <= q < iter.pos ensures Es()[q].key < savedKey.value {
          assert q == before || Before(Es()[q], Es()[before]);
        }
      } else {
        savedKey := Some(iter.entries[iter.pos].key);
        assert forall q :: 0 <= q < iter.pos ==> Before(Es()[q], Es()[iter.pos]);
        assert forall q :: iter.pos < q < |Es()| ==> Before(Es()[iter.pos], Es()[q]);
      }
      LiveOrder(cursor);
      FindNextUserEntry(true, cursor + 1);
    }

    // Live positions are ordered like the keys they hold
    lemma LiveOrder(c: int)
      requires Sorted(Es()) && 0 <= c < |Positions()|
      ensures forall j :: 0 <= j <= c ==> Es()[Positions()[j]].key <= Es()[Positions()[c]].key
      ensures forall j :: c < j < |Positions()| ==> Es()[Positions()[j]].key > Es()[Positions()[c]].key
      ensures forall j :: 0 <= j < c ==> Es()[Positions()[j]].key < Es()[Positions()[c]].key
    {
      ViewSorted(Es(), sequence);
      var v := View(Es(), sequence);
      assert forall j :: 0 <= j < |v| ==> v[j].0 == Es()[Positions()[j]].key;
    }

    ghost function Skip(skipping: bool): Option<int>
      reads this
    {
      if skipping then savedKey else None
    }

    // Finds the entry at index c of the view, the first one the scan has yet to return. Its caller
    // has checked that the internal iterator is valid, so the do-while loop is a while loop.
    method FindNextUserEntry(skipping0: bool, ghost c: int)
      requires Sorted(Es()) && iter.Valid() && direction == Forward
      requires skipping0 ==> savedKey.Some?
      requires ForwardScan(Es(), sequence, iter.pos, Skip(skipping0), c)
      modifies this, iter
      ensures At(c)
    {
      ghost var es, s, pos, skip := Es(), sequence, iter.pos, Skip(skipping0);
      var skipping := skipping0;
      while iter.Valid()
        invariant direction == Forward && skip == Skip(skipping) && (skipping ==> savedKey.Some?)
        invariant iter.pos == pos
        invariant ForwardScan(es, s, pos, skip, c)
        decreases |es| - iter.pos
      {
        var ikey := iter.entries[iter.pos];
        if ikey.sequence <= sequence {
          match ikey.kind
          case Deletion =>
            ForwardDeletion(es, s, pos, skip, c);
            savedKey := Some(ikey.key);
            skipping := true;
            skip := Some(ikey.key);
          case Value =>
            if skipping && ikey.key <= savedKey.value {
              ForwardPass(es, s, pos, skip, c);
            } else {
              ForwardFound(es, s, pos, skip, c);
              valid := true;
              savedKey := None;
              cursor := c;
              return;
            }
        } else {
          ForwardPass(es, s, pos, skip, c);
        }
        iter.Next();
        pos := pos + 1;
      }
      ForwardAhead(es, s, pos, skip, c);
      savedKey := None;
      valid := false;
    }

    method Prev()
      requires Consistent() && valid
      modifies this, iter
      ensures At(old(cursor) - 1)
    {
      ghost var ps := Positions();
      assert LiveAt(Es(), sequence, ps[cursor]);
      LiveOrder(cursor);
      if direction == Forward {
        savedKey := Some(iter.entries[iter.pos].key);
        ghost var previous := if cursor > 0 then ps[cursor - 1] else -1;
        while true
          invariant previous < iter.pos
          invariant unchanged(this`valid) && direction == Forward && cursor == old(cursor)
          invariant savedKey == Some(Es()[ps[cursor]].key)
          invariant iter.Valid() && iter.pos <= ps[cursor]
          invariant forall q :: iter.pos <= q <= ps[cursor] ==> Es()[q].key == savedKey.value
          decreases iter.pos
        {
          iter.Prev();
          if !iter.Valid() {
            valid := false;
            savedKey := None;
            savedValue := "";
            return;
          }
          assert Before(Es()[iter.pos], Es()[ps[cursor]]);
          if iter.entries[iter.pos].key < savedKey.value {
            break;
          }
        }
        direction := Reverse;
      }
      forall j | 0 <= j < |ps| ensures j < cursor <==> ps[j] <= iter.pos {
        if j < cursor {
          assert ps[j] < ps[cursor] && LiveAt(Es(), sequence, ps[j]);
        } else {
          assert ps[cursor] <= ps[j];
        }
      }
      FindPrevUserEntry(cursor);
    }

    // Finds the entry at index c - 1 of the view, where c counts the live positions up to here
    method FindPrevUserEntry(ghost c: int)
      requires Sorted(Es()) && direction == Reverse
      requires -1 <= iter.pos < |Es()| && 0 <= c <= |Positions()|
      requires forall j :: 0 <= j < |Positions()| ==> (j < c <==> Positions()[j] <= iter.pos)
      modifies this, iter
      ensures At(c - 1)
    {
      ghost var start, v := iter.pos, -1;
      var valueType := Deletion;
      while iter.Valid()
        invariant iter.pos <= start && direction == Reverse && -1 <= v <= start
        invariant BackwardScan(Es(), sequence, iter.pos, v, c)
        invariant valueType == Deletion <==> v == -1
        invariant v >= 0 ==> savedKey == Some(Es()[v].key) && savedValue == Es()[v].value
        decreases iter.pos
      {
        var ikey := iter.entries[iter.pos];
        if ikey.sequence <= sequence && valueType != Deletion && ikey.key < savedKey.value {
          break;
        }
        BackwardStep(Es(), sequence, iter.pos, v, c);
        if ikey.sequence <= sequence {
          valueType := ikey.kind;
          if valueType == Deletion {
            savedKey, savedValue, v := None, "", -1;
          } else {
            savedKey, savedValue, v := Some(ikey.key), ikey.value, iter.pos;
          }
        }
        iter.Prev();
      }
      if valueType == Deletion {
        assert c > 0 ==> LiveAt(Es(), sequence, Positions()[c - 1]);
        valid := false;
        savedKey := None;
        savedValue := "";
        direction := Forward;
      } else {
        BackwardFound(Es(), sequence, iter.pos, v, c);
        valid := true;
        cursor := c - 1;
      }
    }

    method Seek(target: int)
      requires Consistent()
      modifies this, iter
      ensures At(IndexAtLeast(View(Es(), sequence), target))
    {
      direction := Forward;
      savedValue := "";
      savedKey := None;
      iter.Seek(target, sequence);
      ghost var es, s, pos := Es(), sequence, iter.pos;
      ghost var i := SeekStart(es, s, target, pos);
      assert iter.pos == pos && ForwardScan(es, s, pos, None, i);
      if iter.Valid() {
        FindNextUserEntry(false, i);
      } else {
        valid := false;
      }
    }

    method SeekToFirst()
      requires Consistent()
      modifies this, iter
      ensures At(0)
    {
      direction := Forward;
      savedValue := "";
      iter.SeekToFirst();
      if iter.Valid() {
        FindNextUserEntry(false, 0);
      } else {
        valid := false;
      }
    }

    method SeekToLast()
      requires Consistent()
      modifies this, iter
      ensures At(|View(Es(), sequence)| - 1)
    {
      direction := Reverse;
      savedValue := "";
      iter.SeekToLast();
      FindPrevUserEntry(|Positions()|);
    }

    ghost function Index(): int
      reads this
    {
      if valid then cursor else -1
    }

    // Any interleaving of moves, direction switches included, shows exactly what a cursor over the
    // view would show
    method Run(moves: seq<Move>) returns (seen: seq<Option<(int, string)>>)
      requires Consistent() && Legal(View(Es(), sequence), Index(), moves)
      modifies this, iter
      decreases moves
      ensures Consistent()
      ensures seen == Observed(View(Es(), sequence), old(Index()), moves)
    {
      if moves == [] {
        return [];
      }
      Perform(moves[0]);
      var first := if valid then Some((Key(), Value())) else None;
      var rest := Run(moves[1..]);
      seen := [first] + rest;
    }

    method Perform(move: Move)
      requires Consistent() && (move.Next? || move.Prev? ==> valid)
      modifies this, iter
      ensures Consistent() && Index() == Moved(View(Es(), sequence), old(Index()), move)
    {
      match move
      case SeekToFirst => SeekToFirst();
      case SeekToLast => SeekToLast();
      case Seek(target) => Seek(target);
      case Next => Next();
      case Prev => Prev();
    }
  }
}
