// The pointer-linked binary min heap of heap-inl.h, ordered by timer_less_than.
module TimerHeap {
  datatype Deadline = Deadline(timeout: nat, startId: nat)

  // timer_less_than
  predicate Earlier(a: Deadline, b: Deadline) {
    a.timeout < b.timeout || (a.timeout == b.timeout && a.startId < b.startId)
  }

  class Node {
    var left: Node?
    var right: Node?
    var parent: Node?
    const deadline: Deadline   // fixed while the node is in a heap
    ghost var index: nat   // its position in the tree, level by level

    constructor (deadline: Deadline)
      ensures this.deadline == deadline
    {
      this.deadline := deadline;
      left, right, parent := null, null, null;
    }
  }

  // Positions in a complete binary tree, the root being 0
  function LeftOf(i: nat): nat { 2 * i + 1 }
  function RightOf(i: nat): nat { 2 * i + 2 }
  function ParentOf(i: nat): nat requires i > 0 { (i - 1) / 2 }

  function At(s: seq<Node>, i: nat): Node? {
    if i < |s| then s[i] else null
  }

  // The links of a complete tree whose nodes are s, level by level
  ghost predicate Linked(s: seq<Node>)
    reads s`index, s`left, s`right, s`parent
  {
    Numbered(s) && LinkedDown(s) && LinkedUp(s)
  }

  ghost predicate Numbered(s: seq<Node>)
    reads s`index
  {
    forall i {:trigger s[i]} :: 0 <= i < |s| ==> s[i].index == i
  }

  ghost predicate LinkedDown(s: seq<Node>)
    reads s`left, s`right
  {
    && (forall i {:trigger s[i].left} :: 0 <= i < |s| ==> s[i].left == At(s, LeftOf(i)))
    && (forall i {:trigger s[i].right} :: 0 <= i < |s| ==> s[i].right == At(s, RightOf(i)))
  }

  ghost predicate LinkedUp(s: seq<Node>)
    reads s`parent
  {
    forall i {:trigger s[i].parent} :: 0 <= i < |s| ==> s[i].parent == if i == 0 then null else s[ParentOf(i)]
  }

  // The set of the nodes of a tree
  ghost predicate Holds(members: set<Node>, s: seq<Node>) {
    (forall n :: n in members ==> n in s) && (forall n :: n in s ==> n in members)
  }

  lemma HoldsSwapped(members: set<Node>, s: seq<Node>, i: nat, j: nat)
    requires Holds(members, s) && i < |s| && j < |s|
    ensures Holds(members, s[i := s[j]][j := s[i]])
  {
    var s' := s[i := s[j]][j := s[i]];
    forall n | n in members ensures n in s' {
      var k :| 0 <= k < |s| && s[k] == n;
      assert s'[if k == i then j else if k == j then i else k] == n;
    }
  }

  lemma HoldsExtended(members: set<Node>, s: seq<Node>, n: Node)
    requires Holds(members, s)
    ensures Holds(members + {n}, s + [n])
  {
    assert (s + [n])[|s|] == n;
  }

  lemma HoldsReplaced(members: set<Node>, s: seq<Node>, r: nat, child: Node)
    requires Holds(members, s) && r < |s| && child !in members
    requires forall k {:trigger s[k]} :: 0 <= k < |s| && k != r ==> s[k] != s[r]
    ensures Holds(members - {s[r]} + {child}, s[r := child])
  {
    var s', members' := s[r := child], members - {s[r]} + {child};
    forall n | n in members' ensures n in s' {
      if n == child {
        assert s'[r] == child;
      } else {
        var k :| 0 <= k < |s| && s[k] == n;
        assert s'[k] == n;
      }
    }
    forall n | n in s' ensures n in members' {
      var k :| 0 <= k < |s'| && s'[k] == n;
      assert k == r || s[k] in s;
    }
  }

  predicate Sooner(a: Node, b: Node) {
    Earlier(a.deadline, b.deadline)
  }

  ghost predicate InOrder(s: seq<Node>, i: nat)
    requires 0 < i < |s|
  {
    !Sooner(s[i], s[ParentOf(i)])
  }

  ghost predicate Ordered(s: seq<Node>) {
    forall i {:trigger InOrder(s, i)} :: 0 < i < |s| ==> InOrder(s, i)
  }

  // The root is minimal
  lemma {:induction false} RootEarliest(s: seq<Node>, i: nat)
    requires Ordered(s) && i < |s|
    ensures !Sooner(s[i], s[0])
  {
    if i > 0 {
      assert InOrder(s, i);
      RootEarliest(s, ParentOf(i));
    }
  }

  // The children of position at are in order with its parent
  ghost predicate Across(s: seq<Node>, at: nat)
    requires at < |s|
  {
    forall i {:trigger s[i]} :: 0 < i < |s| && at > 0 && ParentOf(i) == at ==> !Sooner(s[i], s[ParentOf(at)])
  }

  // Ordered but for the link from position at to its parent
  ghost predicate OrderedButUp(s: seq<Node>, at: nat)
    requires at < |s|
  {
    (forall i {:trigger InOrder(s, i)} :: 0 < i < |s| && i != at ==> InOrder(s, i)) && Across(s, at)
  }

  // Ordered but for all links of position at
  ghost predicate OrderedBut(s: seq<Node>, at: nat)
    requires at < |s|
  {
    && (forall i {:trigger InOrder(s, i)} :: 0 < i < |s| && i != at && ParentOf(i) != at ==> InOrder(s, i))
    && Across(s, at)
  }

  function Exchange<T>(s: seq<T>, i: nat, j: nat): seq<T>
    requires i < |s| && j < |s|
  {
    s[i := s[j]][j := s[i]]
  }

  lemma SiftUpStep(s: seq<Node>, at: nat)
    requires 0 < at < |s| && OrderedButUp(s, at) && !InOrder(s, at)
    ensures OrderedButUp(Exchange(s, ParentOf(at), at), ParentOf(at))
  {
    var p, s' := ParentOf(at), Exchange(s, ParentOf(at), at);
    forall i {:trigger InOrder(s', i)} | 0 < i < |s| && i != p ensures InOrder(s', i) {
      assert i == at || InOrder(s, i);
    }
    forall i {:trigger s'[i]} | 0 < i < |s| && p > 0 && ParentOf(i) == p
      ensures !Sooner(s'[i], s'[ParentOf(p)])
    {
      assert InOrder(s, p) && (i == at || InOrder(s, i));
    }
  }

  lemma SiftDownStep(s: seq<Node>, at: nat, c: nat)
    requires 0 < c < |s| && ParentOf(c) == at && OrderedBut(s, at) && !InOrder(s, c)
    requires forall i :: (i == LeftOf(at) || i == RightOf(at)) && i < |s| ==> !Sooner(s[i], s[c])
    ensures OrderedBut(Exchange(s, at, c), c)
  {
    var s' := Exchange(s, at, c);
    forall i {:trigger InOrder(s', i)} | 0 < i < |s| && i != c && ParentOf(i) != c ensures InOrder(s', i) {
      assert InOrder(s, i) || i == at || ParentOf(i) == at;
    }
    forall i {:trigger s'[i]} | 0 < i < |s| && ParentOf(i) == c ensures !Sooner(s'[i], s'[at]) {
      assert InOrder(s, i);
    }
  }

  lemma SiftedDown(s: seq<Node>, at: nat)
    requires at < |s| && OrderedBut(s, at)
    requires LeftOf(at) < |s| ==> InOrder(s, LeftOf(at))
    requires RightOf(at) < |s| ==> InOrder(s, RightOf(at))
    ensures OrderedButUp(s, at)
  {
    forall i {:trigger InOrder(s, i)} | 0 < i < |s| && i != at ensures InOrder(s, i) {
      assert ParentOf(i) == at ==> i == LeftOf(at) || i == RightOf(at);
    }
  }

  // A new last leaf disturbs only its own link
  lemma Extended(s: seq<Node>, d: Node)
    requires Ordered(s)
    ensures OrderedButUp(s + [d], |s|)
  {
    var s' := s + [d];
    forall i {:trigger InOrder(s', i)} | 0 < i < |s| ensures InOrder(s', i) {
      assert InOrder(s, i);
    }
  }

  // Removing the last leaf disturbs nothing
  lemma Shortened(s: seq<Node>)
    requires Ordered(s) && s != []
    ensures Ordered(s[..|s| - 1])
  {
    var s' := s[..|s| - 1];
    forall i {:trigger InOrder(s', i)} | 0 < i < |s'| ensures InOrder(s', i) {
      assert InOrder(s, i);
    }
  }

  // Putting another node at position at disturbs only that position's links
  lemma ReplacedAt(s: seq<Node>, at: nat, d: Node)
    requires at < |s| && Ordered(s)
    ensures OrderedBut(s[at := d], at)
  {
    var s' := s[at := d];
    forall i {:trigger InOrder(s', i)} | 0 < i < |s| && i != at && ParentOf(i) != at ensures InOrder(s', i) {
      assert InOrder(s, i);
    }
    forall i {:trigger s'[i]} | 0 < i < |s| && at > 0 && ParentOf(i) == at
      ensures !Sooner(s'[i], s'[ParentOf(at)])
    {
      assert InOrder(s, i) && InOrder(s, at);
    }
  }

  lemma ExtendedDown(s: seq<Node>, n: Node, h: nat)
    requires n.left == null && n.right == null
    requires h == if s == [] then 0 else ParentOf(|s|)
    requires forall k {:trigger s[k].left} :: 0 <= k < |s| ==>
               s[k].left == if k == h && |s| == LeftOf(h) then n else At(s, LeftOf(k))
    requires forall k {:trigger s[k].right} :: 0 <= k < |s| ==>
               s[k].right == if k == h && |s| == RightOf(h) then n else At(s, RightOf(k))
    ensures LinkedDown(s + [n])
  {
  }

  // The position reached from position q (counting from 1) by k more bits of path, lowest first
  function Target(q: nat, path: nat, k: nat): nat
    decreases k
  {
    if k == 0 then q else Target(2 * q + path % 2, path / 2, k - 1)
  }

  lemma {:induction false} TargetBelow(q: nat, path: nat, k: nat)
    ensures q <= Target(q, path, k) && (k > 0 ==> 2 * q <= Target(q, path, k))
    ensures k > 0 && q > 0 ==> 2 * q + path % 2 <= Target(q, path, k)
    decreases k
  {
    if k > 0 {
      TargetBelow(2 * q + path % 2, path / 2, k - 1);
    }
  }

  // The path from the root to position n is the bits of n below the highest one
  method PathTo(n: nat) returns (path: nat, k: nat)
    requires n > 0
    ensures Target(1, path, k) == n
  {
    path, k := 0, 0;
    var m := n;
    while m >= 2
      invariant m > 0 && Target(m, path, k) == n
    {
      assert (2 * path + m % 2) % 2 == m % 2 && (2 * path + m % 2) / 2 == path;
      path := 2 * path + m % 2;
      m, k := m / 2, k + 1;
    }
  }

  // A pointer to a pointer: to the root, or to a node's left or right link
  datatype Ref = RootRef | LeftRef(node: Node) | RightRef(node: Node)

  ghost function RefOf(s: seq<Node>, q: nat): Ref
    requires 1 < q ==> q / 2 - 1 < |s|
  {
    if q <= 1 then RootRef else if q % 2 == 0 then LeftRef(s[q / 2 - 1]) else RightRef(s[q / 2 - 1])
  }

  class Heap {
    var min: Node?
    var nelts: nat
    ghost var nodes: seq<Node>   // the tree level by level
    ghost var members: set<Node>

    ghost predicate WellLinked()
      reads this, members
    {
      Holds(members, nodes) && nelts == |nodes| && min == At(nodes, 0) && Linked(nodes)
    }

    ghost predicate Valid()
      reads this, members
    {
      WellLinked() && Ordered(nodes)
    }

    constructor ()
      ensures Valid() && members == {}
    {
      min, nelts, nodes, members := null, 0, [], {};
    }

    function Load(ref: Ref): Node?
      reads this, if ref.RootRef? then {} else {ref.node}
    {
      match ref
      case RootRef => min
      case LeftRef(n) => n.left
      case RightRef(n) => n.right
    }

    ghost function Owner(ref: Ref): set<Node> {
      if ref.RootRef? then {} else {ref.node}
    }

    method Store(ref: Ref, n: Node?)
      modifies this`min, Owner(ref)`left, Owner(ref)`right
      ensures min == if ref.RootRef? then n else old(min)
      ensures ref.LeftRef? ==> ref.node.left == n && ref.node.right == old(ref.node.right)
      ensures ref.RightRef? ==> ref.node.right == n && ref.node.left == old(ref.node.left)
    {
      match ref
      case RootRef => min := n;
      case LeftRef(m) => m.left := n;
      case RightRef(m) => m.right := n;
    }

    // Walks from the root along path; stops at the slot of position n, and returns the slot before it
    method Walk(path0: nat, k0: nat, ghost n: nat) returns (parent: Ref, child: Ref)
      requires WellLinked() && 0 < n <= |nodes| + 1 && Target(1, path0, k0) == n
      ensures child == RefOf(nodes, n)
      ensures parent == if n == 1 then RootRef else RefOf(nodes, n / 2)
    {
      var path, k := path0, k0;
      ghost var q := 1;
      parent, child := RootRef, RootRef;
      while k > 0
        invariant q > 0 && Target(q, path, k) == n && q <= n && (q > 1 ==> q / 2 <= |nodes|)
        invariant child == RefOf(nodes, q)
        invariant parent == if q == 1 then RootRef else RefOf(nodes, q / 2)
      {
        TargetBelow(q, path, k);
        assert Load(child) == nodes[q - 1];
        parent := child;
        if path % 2 == 1 {
          child := RightRef(Load(child));
        } else {
          child := LeftRef(Load(child));
        }
        q := 2 * q + path % 2;
        path, k := path / 2, k - 1;
      }
    }

    method Insert(node: Node)
      requires Valid() && node !in members
      modifies this, node`left, node`right, node`parent, node`index
      modifies members`left, members`right, members`parent, members`index
      ensures Valid() && nelts == old(nelts) + 1 && members == old(members) + {node}
    {
      node.left, node.right, node.parent := null, null, null;
      var path, k := PathTo(1 + nelts);
      var parent, child := Walk(path, k, |nodes| + 1);
      Attach(node, parent, child);
      SiftUp(node);
    }

    // Makes node the last leaf
    method Attach(node: Node, parent: Ref, child: Ref)
      requires Valid() && node !in members && node.left == null && node.right == null
      requires child == RefOf(nodes, |nodes| + 1)
      requires parent == if nodes == [] then RootRef else RefOf(nodes, (|nodes| + 1) / 2)
      modifies this, node`parent, node`index, members`left, members`right
      ensures WellLinked() && nelts == old(nelts) + 1 && members == old(members) + {node}
      ensures OrderedButUp(nodes, node.index)
    {
      assert forall k {:trigger nodes[k]} :: 0 <= k < |nodes| ==> nodes[k] != node;
      ghost var s := nodes + [node];
      AttachLinks(node, parent, child);
      Extended(nodes, node);
      HoldsExtended(members, nodes, node);
      node.index := |nodes|;
      assert Linked(s) && At(s, 0) == s[0];
      nelts := nelts + 1;
      nodes := s;
      members := members + {node};
      assert Linked(s);
    }

    method AttachLinks(node: Node, parent: Ref, child: Ref)
      requires WellLinked() && node !in members && node.left == null && node.right == null
      requires child == RefOf(nodes, |nodes| + 1)
      requires parent == if nodes == [] then RootRef else RefOf(nodes, (|nodes| + 1) / 2)
      modifies this`min, node`parent, members`left, members`right
      ensures LinkedDown(nodes + [node]) && LinkedUp(nodes + [node]) && min == (nodes + [node])[0]
      ensures node.left == null && node.right == null
    {
      ghost var s, h := nodes, if nodes == [] then 0 else ParentOf(|nodes|);
      assert s != [] ==> child == if |s| == LeftOf(h) then LeftRef(s[h]) else RightRef(s[h]);
      assert Load(parent) == if s == [] then null else s[h];
      node.parent := Load(parent);
      Store(child, node);
      forall k {:trigger s[k].left} | 0 <= k < |s| && !(k == h && |s| == LeftOf(h)) ensures s[k].left == At(s, LeftOf(k)) {
        assert old(s[k].left) == At(s, LeftOf(k)) && s[k].index == k;
      }
      forall k {:trigger s[k].right} | 0 <= k < |s| && !(k == h && |s| == RightOf(h)) ensures s[k].right == At(s, RightOf(k)) {
        assert old(s[k].right) == At(s, RightOf(k)) && s[k].index == k;
      }
      ExtendedDown(s, node, h);
      ghost var s' := s + [node];
      forall k {:trigger s'[k].parent} | 0 <= k < |s'| ensures s'[k].parent == if k == 0 then null else s'[ParentOf(k)] {
        assert k < |s| ==> s'[k] == s[k] && s[k].parent == old(s[k].parent);
      }
    }

    // OrderedButUp at node's place becomes order everywhere
    method SiftUp(node: Node)
      requires WellLinked() && node in members && node.index < |nodes| && OrderedButUp(nodes, node.index)
      modifies this`min, this`nodes, members`left, members`right, members`parent, members`index
      ensures Valid()
    {
      while node.parent != null && Earlier(node.deadline, node.parent.deadline)
        invariant WellLinked() && node in members && node.index < |nodes| && OrderedButUp(nodes, node.index)
        decreases node.index
      {
        ghost var at := Place(node);
        SiftUpStep(nodes, at);
        Swap(node.parent, node, ParentOf(at), at);
        assert nodes[ParentOf(at)] == node;
      }
      ghost var at := Place(node);
      assert at > 0 ==> InOrder(nodes, at);
    }

    method Remove(node: Node)
      requires Valid() && (nelts == 0 || node in members)
      modifies this, members`left, members`right, members`parent, members`index
      ensures Valid() && members == old(members) - {node}
      ensures nelts == if old(nelts) == 0 then 0 else old(nelts) - 1
    {
      if nelts == 0 {
        return;
      }
      var path, k := PathTo(nelts);
      var _, max := Walk(path, k, |nodes|);
      var child := Detach(max);
      if child == node {
        // the root link, if child was the root, is already cleared
        return;
      }
      Refill(node, child);
    }

    // The detached child takes node's place, and finds its own from there
    method Refill(node: Node, child: Node)
      requires Valid() && node in members && child !in members
      modifies this, child`left, child`right, child`parent, child`index
      modifies members`left, members`right, members`parent, members`index
      ensures Valid() && nelts == old(nelts) && members == old(members) - {node} + {child}
    {
      Replace(node, child);
      SiftDown(child);
      SiftUp(child);
    }

    method Dequeue()
      requires Valid() && nelts > 0
      modifies this, members`left, members`right, members`parent, members`index
      ensures Valid() && nelts == old(nelts) - 1 && members == old(members) - {old(min)}
    {
      Remove(min);
    }

    // Unlinks the last leaf
    method Detach(max: Ref) returns (child: Node)
      requires Valid() && nodes != [] && max == RefOf(nodes, |nodes|)
      modifies this, members`left, members`right
      ensures Valid() && nelts == old(nelts) - 1
      ensures child in old(members) && members == old(members) - {child}
    {
      ghost var s, n := nodes, |nodes| - 1;
      Shortened(s);
      child := DetachLinks(max);
      assert forall k {:trigger s[k]} :: 0 <= k < n ==> s[k] != child;
      nelts := nelts - 1;
      nodes := s[..n];
      members := members - {child};
      assert forall m :: m in s ==> m in nodes || m == child;
    }

    method DetachLinks(max: Ref) returns (child: Node)
      requires WellLinked() && nodes != [] && max == RefOf(nodes, |nodes|)
      modifies this`min, members`left, members`right
      ensures child == nodes[|nodes| - 1]
      ensures LinkedDown(nodes[..|nodes| - 1]) && LinkedUp(nodes[..|nodes| - 1]) && min == At(nodes[..|nodes| - 1], 0)
    {
      ghost var s, n := nodes, |nodes| - 1;
      ghost var h := if n == 0 then 0 else ParentOf(n);
      assert n > 0 ==> max == if n == LeftOf(h) then LeftRef(s[h]) else RightRef(s[h]);
      assert n > 0 ==> s[h].left == At(s, LeftOf(h)) && s[h].right == At(s, RightOf(h));
      child := Load(max);
      Store(max, null);
      forall k {:trigger s[k].left} | 0 <= k < n ensures s[k].left == At(s[..n], LeftOf(k)) {
        assert old(s[k].left) == At(s, LeftOf(k)) && s[k].index == k;
      }
      forall k {:trigger s[k].right} | 0 <= k < n ensures s[k].right == At(s[..n], RightOf(k)) {
        assert old(s[k].right) == At(s, RightOf(k)) && s[k].index == k;
      }
    }

    // Puts child where node is
    method Replace(node: Node, child: Node)
      requires Valid() && node in members && child !in members
      modifies this, child`left, child`right, child`parent, child`index
      modifies members`left, members`right, members`parent
      ensures WellLinked() && nelts == old(nelts) && members == old(members) - {node} + {child}
      ensures child.index < |nodes| && OrderedBut(nodes, child.index)
    {
      ghost var r := Place(node);
      ghost var s := nodes;
      assert forall k {:trigger s[k]} :: 0 <= k < |s| ==> s[k] != child && (k != r ==> s[k] != node);
      HoldsReplaced(members, s, r, child);
      ReplacedAt(s, r, child);
      ReplaceLinks(node, child, Spot(s, r, child));
      child.index := r;
      nodes := s[r := child];
      members := members - {node} + {child};
    }

    method ReplaceLinks(node: Node, child: Node, ghost at: Spot)
      requires WellLinked() && at.s == nodes && at.r < |nodes| && nodes[at.r] == node && at.child == child
      requires child !in members
      modifies this`min, child`left, child`right, child`parent, members`left, members`right, members`parent
      ensures LinkedDown(at.Replaced()) && LinkedUp(at.Replaced()) && min == at.Replaced()[0]
    {
      IsBelow(nodes, at.r);
      assert node.parent == if at.r == 0 then null else nodes[ParentOf(at.r)];
      if at.r > 0 {
        IsAbove(nodes, at.r);
      }
      TakeOver(node, child);
      ReplacedDown(at);
      ReplacedUp(at);
    }

    // child takes over node's links
    method TakeOver(node: Node, child: Node)
      requires child != node && child !in {node.left, node.right, node.parent}
      requires node.left != node && node.right != node && node.parent != node
      requires node.left != null ==> node.left != node.parent && node.left != node.right
      requires node.right != null ==> node.right != node.parent
      requires node.parent != null ==> (node.parent.left == node) != (node.parent.right == node)
      modifies this`min, {child, node.parent}`left, {child, node.parent}`right, {child, node.left, node.right}`parent
      ensures child.left == old(node.left) && child.right == old(node.right) && child.parent == old(node.parent)
      ensures forall n: Node? :: n in old({node.left, node.right}) && n != null ==> n.parent == child
      ensures var g := old(node.parent);
              if g == null then min == child else
                && min == old(min)
                && g.left == (if old(g.left) == node then child else old(g.left))
                && g.right == (if old(g.right) == node then child else old(g.right))
    {
      child.left, child.right, child.parent := node.left, node.right, node.parent;
      SetParent(child.left, child);
      SetParent(child.right, child);
      ReplaceBelow(node.parent, node, child);
    }

    // OrderedBut at child's place becomes OrderedButUp at the place it ends up in
    method SiftDown(child: Node)
      requires WellLinked() && child in members && child.index < |nodes| && OrderedBut(nodes, child.index)
      modifies this`min, this`nodes, members`left, members`right, members`parent, members`index
      ensures WellLinked() && child.index < |nodes| && OrderedButUp(nodes, child.index)
    {
      while true
        invariant WellLinked() && child in members && child.index < |nodes| && OrderedBut(nodes, child.index)
        decreases |nodes| - child.index
      {
        ghost var at := Place(child);
        var smallest := Smallest(child);
        if smallest == child {
          SiftedDown(nodes, at);
          return;
        }
        ghost var c := smallest.index;
        SiftDownStep(nodes, at, c);
        Swap(child, smallest, at, c);
        assert nodes[c] == child;
      }
    }

    // The smallest of a node and its children
    method Smallest(child: Node) returns (smallest: Node)
      requires WellLinked() && child in members
      ensures child.index < |nodes| && nodes[child.index] == child
      ensures smallest == child ==> forall i :: (i == LeftOf(child.index) || i == RightOf(child.index)) && i < |nodes| ==>
                InOrder(nodes, i)
      ensures smallest != child ==>
                && 0 < smallest.index < |nodes| && nodes[smallest.index] == smallest
                && ParentOf(smallest.index) == child.index && !InOrder(nodes, smallest.index)
                && forall i :: (i == LeftOf(child.index) || i == RightOf(child.index)) && i < |nodes| ==>
                     !Sooner(nodes[i], smallest)
    {
      ghost var at := Place(child);
      smallest := child;
      if child.left != null && Sooner(child.left, smallest) {
        smallest := child.left;
      }
      if child.right != null && Sooner(child.right, smallest) {
        smallest := child.right;
      }
    }

    // Where a member stands
    lemma Place(node: Node) returns (at: nat)
      requires WellLinked() && node in members
      ensures at == node.index < |nodes| && nodes[at] == node
      ensures node.left == At(nodes, LeftOf(at)) && node.right == At(nodes, RightOf(at))
      ensures node.parent == if at == 0 then null else nodes[ParentOf(at)]
    {
      var k :| 0 <= k < |nodes| && nodes[k] == node;
      at := k;
      assert nodes[k].left == At(nodes, LeftOf(k)) && nodes[k].right == At(nodes, RightOf(k));
      assert nodes[k].parent == if k == 0 then null else nodes[ParentOf(k)];
    }

    // parent at i and child at j exchange places in nodes
    method Swap(parent: Node, child: Node, ghost i: nat, ghost j: nat)
      requires WellLinked() && i < |nodes| && 0 < j < |nodes| && ParentOf(j) == i
      requires nodes[i] == parent && nodes[j] == child
      modifies this`min, this`nodes, members`left, members`right, members`parent, members`index
      ensures WellLinked() && nodes == old(nodes)[i := child][j := parent]
    {
      ghost var s' := nodes[i := child][j := parent];
      HoldsSwapped(members, nodes, i, j);
      SwapLinks(parent, child, Edge(nodes, i, j));
      nodes := s';
      parent.index, child.index := j, i;
    }

    // heap_node_swap exchanges the two nodes' places in the tree
    method SwapLinks(parent: Node, child: Node, ghost at: Edge)
      requires WellLinked() && at.s == nodes && at.Within() && nodes[at.i] == parent && nodes[at.j] == child
      modifies this`min, members`left, members`right, members`parent
      ensures LinkedDown(at.Swapped()) && LinkedUp(at.Swapped()) && min == at.Swapped()[0]
    {
      Family(nodes, at.i, at.j);
      Rewire(parent, child);
      RewiredDown(at);
      RewiredUp(at);
    }

    // The pointer updates of heap_node_swap
    method Rewire(parent: Node, child: Node)
      requires Related(parent, child)
      requires parent.parent == null ==> min == parent
      modifies this`min
      modifies {parent, child, parent.parent}`left, {parent, child, parent.parent}`right
      modifies {parent, child, parent.left, parent.right, child.left, child.right}`parent
      ensures parent.left == old(child.left) && parent.right == old(child.right) && parent.parent == child
      ensures child.left == (if old(parent.left) == child then parent else old(parent.left))
      ensures child.right == (if old(parent.right) == child then parent else old(parent.right))
      ensures child.parent == old(parent.parent)
      ensures var g := old(parent.parent);
              if g == null then min == child else
                && min == old(min)
                && g.left == (if old(g.left) == parent then child else old(g.left))
                && g.right == (if old(g.right) == parent then child else old(g.right))
      ensures forall n: Node? :: n in old({parent.left, parent.right}) && n != null && n != child ==> n.parent == child
      ensures forall n: Node? :: n in old({child.left, child.right}) && n != null ==> n.parent == parent
    {
      ghost var g, l, r := parent.parent, child.left, child.right;
      ghost var other := if parent.left == child then parent.right else parent.left;
      assert g != parent && g != child && other != parent && other != child;
      assert l != null ==> l != parent && l != child && l != g && l != other && l != r;
      assert r != null ==> r != parent && r != child && r != g && r != other;
      assert g != null ==> g != other;
      var sibling := ExchangeLinks(parent, child);
      SetParent(sibling, child);
      SetParent(parent.left, parent);
      SetParent(parent.right, parent);
      ReplaceBelow(child.parent, parent, child);
    }

    // Copies the links crosswise; afterwards each of the two points to the other where it must
    method ExchangeLinks(parent: Node, child: Node) returns (sibling: Node?)
      requires parent != child && (parent.left == child) != (parent.right == child)
      modifies {parent, child}`left, {parent, child}`right, {parent, child}`parent
      ensures parent.left == old(child.left) && parent.right == old(child.right) && parent.parent == child
      ensures child.parent == old(parent.parent)
      ensures if old(parent.left) == child
              then child.left == parent && child.right == sibling == old(parent.right)
              else child.right == parent && child.left == sibling == old(parent.left)
    {
      var left, right, up := parent.left, parent.right, parent.parent;
      parent.left, parent.right, parent.parent := child.left, child.right, child.parent;
      child.left, child.right, child.parent := left, right, up;
      parent.parent := child;
      if child.left == child {
        child.left := parent;
        sibling := child.right;
      } else {
        child.right := parent;
        sibling := child.left;
      }
    }

    method SetParent(n: Node?, parent: Node)
      modifies {n}`parent
      ensures n != null ==> n.parent == parent
    {
      if n != null {
        n.parent := parent;
      }
    }

    // What pointed down to node now points to other
    method ReplaceBelow(up: Node?, node: Node, other: Node)
      requires up != null ==> (up.left == node) != (up.right == node)
      modifies this`min, {up}`left, {up}`right
      ensures if up == null then min == other else
                && min == old(min)
                && up.left == (if old(up.left) == node then other else old(up.left))
                && up.right == (if old(up.right) == node then other else old(up.right))
    {
      if up == null {
        min := other;
      } else if up.left == node {
        up.left := other;
      } else {
        up.right := other;
      }
    }
  }

  // A parent at i and its child at j
  datatype Edge = Edge(s: seq<Node>, i: nat, j: nat) {
    ghost predicate Within() {
      i < |s| && 0 < j < |s| && ParentOf(j) == i
    }

    ghost function Swapped(): seq<Node>
      requires Within()
    {
      s[i := s[j]][j := s[i]]
    }
  }

  // A position whose node is replaced by child
  datatype Spot = Spot(s: seq<Node>, r: nat, child: Node) {
    ghost function Replaced(): seq<Node>
      requires r < |s|
    {
      s[r := child]
    }
  }

  // The links down after child took over the links of the node at r
  twostate lemma ReplacedDown(at: Spot)
    requires at.r < |at.s| && old(Linked(at.s)) && at.child !in at.s
    requires at.child.left == old(at.s[at.r].left) && at.child.right == old(at.s[at.r].right)
    requires forall n :: n in at.s && n != old(at.s[at.r].parent) ==> n.left == old(n.left) && n.right == old(n.right)
    requires var g := old(at.s[at.r].parent);
             g == null ||
             (&& g.left == (if old(g.left) == at.s[at.r] then at.child else old(g.left))
              && g.right == (if old(g.right) == at.s[at.r] then at.child else old(g.right)))
    ensures LinkedDown(at.Replaced())
  {
    var s, r, s' := at.s, at.r, at.Replaced();
    assert old(s[r].parent) == if r == 0 then null else s[ParentOf(r)];
    assert old(s[r].index) == r;
    forall k {:trigger s'[k].left, s'[k].right} | 0 <= k < |s|
      ensures s'[k].left == At(s', LeftOf(k)) && s'[k].right == At(s', RightOf(k))
    {
      assert old(s[k].left) == At(s, LeftOf(k)) && old(s[k].right) == At(s, RightOf(k)) && old(s[k].index) == k;
      assert s[k] in s;
    }
  }

  twostate lemma ReplacedUp(at: Spot)
    requires at.r < |at.s| && old(Linked(at.s)) && at.child !in at.s
    requires at.child.parent == old(at.s[at.r].parent)
    requires forall n: Node? :: n in old({at.s[at.r].left, at.s[at.r].right}) && n != null ==> n.parent == at.child
    requires forall n | n in at.s && n !in old({at.s[at.r].left, at.s[at.r].right}) :: n.parent == old(n.parent)
    ensures LinkedUp(at.Replaced())
  {
    var s, r, s' := at.s, at.r, at.Replaced();
    assert old(s[r].left) == At(s, LeftOf(r)) && old(s[r].right) == At(s, RightOf(r));
    assert old(s[r].index) == r && old(s[r].parent) == if r == 0 then null else s[ParentOf(r)];
    forall k {:trigger s'[k].parent} | 0 <= k < |s|
      ensures s'[k].parent == if k == 0 then null else s'[ParentOf(k)]
    {
      assert old(s[k].parent) == (if k == 0 then null else s[ParentOf(k)]) && old(s[k].index) == k;
      assert s[k] in s;
    }
  }

  // The links down after heap_node_swap's rewiring
  twostate lemma RewiredDown(at: Edge)
    requires at.Within() && old(Linked(at.s))
    requires at.s[at.i].left == old(at.s[at.j].left) && at.s[at.i].right == old(at.s[at.j].right)
    requires at.s[at.j].left == if old(at.s[at.i].left) == at.s[at.j] then at.s[at.i] else old(at.s[at.i].left)
    requires at.s[at.j].right == if old(at.s[at.i].right) == at.s[at.j] then at.s[at.i] else old(at.s[at.i].right)
    requires forall n :: n in at.s && n != at.s[at.i] && n != at.s[at.j] && n != old(at.s[at.i].parent) ==>
               n.left == old(n.left) && n.right == old(n.right)
    requires var g := old(at.s[at.i].parent);
             g == null ||
             (&& g.left == (if old(g.left) == at.s[at.i] then at.s[at.j] else old(g.left))
              && g.right == (if old(g.right) == at.s[at.i] then at.s[at.j] else old(g.right)))
    ensures LinkedDown(at.Swapped())
  {
    var s, i, j := at.s, at.i, at.j;
    forall k {:trigger s[k].left, s[k].right} | 0 <= k < |s| && k != i && k != j
      ensures s[k].left == At(s, LeftOf(k)) || (LeftOf(k) == i && s[k].left == s[j])
      ensures s[k].right == At(s, RightOf(k)) || (RightOf(k) == i && s[k].right == s[j])
    {
      assert old(s[k].left) == At(s, LeftOf(k)) && old(s[k].right) == At(s, RightOf(k)) && old(s[k].index) == k;
    }
    assert old(s[i].left) == At(s, LeftOf(i)) && old(s[i].right) == At(s, RightOf(i));
    assert old(s[j].left) == At(s, LeftOf(j)) && old(s[j].right) == At(s, RightOf(j));
    assert old(s[i].index) == i && old(s[j].index) == j;
    if i > 0 {
      var h := ParentOf(i);
      assert old(s[i].parent) == s[h] && old(s[h].left) == At(s, LeftOf(h)) && old(s[h].right) == At(s, RightOf(h));
    }
    DownLinks(s, i, j);
  }

  // The links up after heap_node_swap's rewiring
  twostate lemma RewiredUp(at: Edge)
    requires at.Within() && old(Linked(at.s))
    requires at.s[at.i].parent == at.s[at.j] && at.s[at.j].parent == old(at.s[at.i].parent)
    requires forall n: Node? :: n in old({at.s[at.i].left, at.s[at.i].right}) && n != null && n != at.s[at.j] ==>
               n.parent == at.s[at.j]
    requires forall n: Node? :: n in old({at.s[at.j].left, at.s[at.j].right}) && n != null ==> n.parent == at.s[at.i]
    requires forall n | n in at.s && n != at.s[at.i] && n != at.s[at.j] &&
                        n !in old({at.s[at.i].left, at.s[at.i].right, at.s[at.j].left, at.s[at.j].right})
               :: n.parent == old(n.parent)
    ensures LinkedUp(at.Swapped())
  {
    var s, i, j := at.s, at.i, at.j;
    assert old(s[i].left) == At(s, LeftOf(i)) && old(s[i].right) == At(s, RightOf(i));
    assert old(s[j].left) == At(s, LeftOf(j)) && old(s[j].right) == At(s, RightOf(j));
    assert old(s[i].index) == i && old(s[j].index) == j;
    forall k {:trigger s[k].parent} | 0 <= k < |s| && k != i && k != j
      ensures s[k].parent == if k == 0 then null else if ParentOf(k) == i then s[j]
                             else if ParentOf(k) == j then s[i] else s[ParentOf(k)]
    {
      assert old(s[k].parent) == (if k == 0 then null else s[ParentOf(k)]) && old(s[k].index) == k;
      assert s[k] in s;
    }
    UpLinks(s, i, j);
  }

  // The links down once those of positions i and j, and the one above i, are rewired
  lemma DownLinks(s: seq<Node>, i: nat, j: nat)
    requires i < |s| && 0 < j < |s| && ParentOf(j) == i
    requires s[i].left == At(s, LeftOf(j)) && s[i].right == At(s, RightOf(j))
    requires s[j].left == if j == LeftOf(i) then s[i] else At(s, LeftOf(i))
    requires s[j].right == if j == RightOf(i) then s[i] else At(s, RightOf(i))
    requires forall k {:trigger s[k].left} :: 0 <= k < |s| && k != i && k != j ==>
               s[k].left == At(s, LeftOf(k)) || (LeftOf(k) == i && s[k].left == s[j])
    requires forall k {:trigger s[k].right} :: 0 <= k < |s| && k != i && k != j ==>
               s[k].right == At(s, RightOf(k)) || (RightOf(k) == i && s[k].right == s[j])
    requires i > 0 ==> if i == LeftOf(ParentOf(i)) then s[ParentOf(i)].left == s[j] else s[ParentOf(i)].right == s[j]
    ensures LinkedDown(s[i := s[j]][j := s[i]])
  {
    var s' := s[i := s[j]][j := s[i]];
    forall k {:trigger s'[k].left} | 0 <= k < |s| ensures s'[k].left == At(s', LeftOf(k)) {
      assert k != i && k != j ==> s'[k] == s[k];
    }
    forall k {:trigger s'[k].right} | 0 <= k < |s| ensures s'[k].right == At(s', RightOf(k)) {
      assert k != i && k != j ==> s'[k] == s[k];
    }
  }

  // The links up
  lemma UpLinks(s: seq<Node>, i: nat, j: nat)
    requires i < |s| && 0 < j < |s| && ParentOf(j) == i
    requires s[i].parent == s[j] && s[j].parent == if i == 0 then null else s[ParentOf(i)]
    requires forall k {:trigger s[k].parent} :: 0 < k < |s| && k != j && ParentOf(k) == i ==> s[k].parent == s[j]
    requires forall k {:trigger s[k].parent} :: 0 < k < |s| && ParentOf(k) == j ==> s[k].parent == s[i]
    requires forall k {:trigger s[k].parent} :: 0 <= k < |s| && k != i && k != j && (k == 0 || (ParentOf(k) != i && ParentOf(k) != j)) ==>
               s[k].parent == if k == 0 then null else s[ParentOf(k)]
    ensures LinkedUp(s[i := s[j]][j := s[i]])
  {
  }

  ghost predicate Indexed(n: Node?, k: nat)
    reads n
  {
    n == null || n.index == k
  }

  // How a parent and its child stand to their kin
  ghost predicate Related(parent: Node, child: Node)
    reads *
  {
    var i, j := parent.index, child.index;
    && child.parent == parent
    && (if j == LeftOf(i) then parent.left == child && Indexed(parent.right, RightOf(i))
        else j == RightOf(i) && parent.right == child && Indexed(parent.left, LeftOf(i)))
    && Indexed(child.left, LeftOf(j)) && Indexed(child.right, RightOf(j))
    && (i == 0 <==> parent.parent == null)
    && (i > 0 ==> Above(parent.parent, parent))
    && Below(parent, parent.left) && Below(parent, parent.right)
    && Below(child, child.left) && Below(child, child.right)
  }

  ghost predicate Above(g: Node, n: Node)
    reads g, n, g.left, g.right, g.parent
    requires n.index > 0
  {
    && g.index == ParentOf(n.index)
    && (if n.index == LeftOf(g.index) then g.left == n && Indexed(g.right, RightOf(g.index))
        else g.right == n && Indexed(g.left, LeftOf(g.index)))
    && (g.index > 0 ==> Indexed(g.parent, ParentOf(g.index)))
    && (g.index == 0 ==> g.parent == null)
  }

  ghost predicate Below(p: Node, n: Node?)
    reads n, if n == null then {} else {n.left, n.right}
  {
    n != null ==> n.parent == p && Indexed(n.left, LeftOf(n.index)) && Indexed(n.right, RightOf(n.index))
  }

  lemma Family(s: seq<Node>, i: nat, j: nat)
    requires Linked(s) && i < |s| && 0 < j < |s| && ParentOf(j) == i
    ensures Related(s[i], s[j])
  {
    if i > 0 {
      IsAbove(s, i);
    }
    IsBelow(s, i);
    IsBelow(s, j);
    assert s[j].parent == s[i];
  }

  lemma IsAbove(s: seq<Node>, i: nat)
    requires Linked(s) && 0 < i < |s|
    ensures s[i].parent == s[ParentOf(i)] && Above(s[ParentOf(i)], s[i])
  {
    var h := ParentOf(i);
    assert i == LeftOf(h) || i == RightOf(h);
    assert s[h].left == At(s, LeftOf(h)) && s[h].right == At(s, RightOf(h));
    assert s[h].parent == if h == 0 then null else s[ParentOf(h)];
  }

  lemma IsBelow(s: seq<Node>, i: nat)
    requires Linked(s) && i < |s|
    ensures s[i].left == At(s, LeftOf(i)) && s[i].right == At(s, RightOf(i))
    ensures Below(s[i], s[i].left) && Below(s[i], s[i].right)
  {
    forall c | c in {LeftOf(i), RightOf(i)} && c < |s| ensures Below(s[i], s[c]) {
      assert s[c].left == At(s, LeftOf(c)) && s[c].right == At(s, RightOf(c));
    }
  }
}
