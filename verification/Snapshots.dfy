// SnapshotList: the live snapshots, oldest first, on a circular list with a dummy head.
module Snapshots {
  import opened Rings

  class SnapshotList {
    const head: Link
    ghost var list: seq<Link>

    ghost predicate Valid()
      reads this, [head] + list
    {
      Ring([head] + list) && Ascending(list)
    }

    constructor ()
      ensures Valid() && list == [] && fresh(head)
    {
      head := new Link(0);
      list := [];
    }

    method IsEmpty() returns (empty: bool)
      requires Valid()
      ensures empty <==> list == []
    {
      empty := Rings.Empty(head, [head] + list);
    }

    // No live snapshot is older
    method Oldest() returns (s: Link)
      requires Valid() && list != []
      ensures s == list[0] && forall i :: 0 <= i < |list| ==> s.sequence <= list[i].sequence
    {
      s := Head(head, [head] + list);
    }

    method Newest() returns (s: Link)
      requires Valid() && list != []
      ensures s == list[|list| - 1] && forall i :: 0 <= i < |list| ==> list[i].sequence <= s.sequence
    {
      ghost var ring := [head] + list;
      assert ring[0].prev == ring[Rings.Before(|ring|, 0)];
      s := head.prev;
    }

    // The newest snapshot goes to the end
    method New(sequence: nat) returns (snapshot: Link)
      requires Valid() && (list != [] ==> list[|list| - 1].sequence <= sequence)
      modifies this, [head] + list
      ensures Valid() && fresh(snapshot) && snapshot.sequence == sequence && list == old(list) + [snapshot]
    {
      snapshot := new Link(sequence);
      ghost var ring := [head] + list;
      InsertTail(head, snapshot, ring);
      list := list + [snapshot];
      assert [head] + list == ring + [snapshot];
    }

    method Delete(snapshot: Link, ghost i: nat)
      requires Valid() && i < |list| && list[i] == snapshot
      modifies this, [head] + list
      ensures Valid() && list == old(list)[..i] + old(list)[i + 1..]
    {
      ghost var ring, rest := [head] + list, list[..i] + list[i + 1..];
      StillAscending(list, i);
      assert Without(ring, i + 1) == [head] + rest;
      Remove(snapshot, ring, i + 1);
      list := rest;
    }
  }

  ghost predicate Ascending(list: seq<Link>) {
    forall i, j :: 0 <= i < j < |list| ==> list[i].sequence <= list[j].sequence
  }

  // Releasing any snapshot leaves the oldest one at least as new
  lemma StillAscending(list: seq<Link>, i: nat)
    requires Ascending(list) && i < |list|
    ensures var rest := list[..i] + list[i + 1..];
            Ascending(rest) && (rest != [] ==> rest[0].sequence >= list[0].sequence)
  {
    var rest := list[..i] + list[i + 1..];
    assert forall j :: 0 <= j < |rest| ==> rest[j] == list[if j < i then j else j + 1];
  }
}
