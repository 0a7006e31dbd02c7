/**
 Breadth-first search of a binary tree through a circular doubly linked queue
 (tree_7_breadth_first_search.c), against printing one level at a time by plain recursion
 (13-ejudjement-day-2/tree.c).
 */
module TreeLevels {
  import opened Collections

  datatype Tree = Empty | Node(val: int, left: Tree, right: Tree)

  // ---------- the two orders as functions ----------

  /** tree_print of tree.c: the values at one height, left to right. */
  function TreePrint(t: Tree, currentHeight: nat, heightFilter: nat): seq<int>
    requires t.Node?
    decreases t
  {
    if currentHeight == heightFilter then [t.val]
    else if currentHeight < heightFilter then
      (if t.left.Node? then TreePrint(t.left, currentHeight + 1, heightFilter) else []) +
      (if t.right.Node? then TreePrint(t.right, currentHeight + 1, heightFilter) else [])
    else []
  }

  /** What printing the heights 0, 1, ... below n gives. */
  function LevelByLevel(t: Tree, n: nat): seq<int>
    requires t.Node?
  {
    if n == 0 then [] else LevelByLevel(t, n - 1) + TreePrint(t, 0, n - 1)
  }

  /** The values with their heights in the order of the tree, from the leftmost to the rightmost. */
  function InOrder(t: Tree, height: nat): seq<(int, nat)> {
    if t.Empty? then []
    else InOrder(t.left, height + 1) + [(t.val, height)] + InOrder(t.right, height + 1)
  }

  /** The values of one height among them. */
  function OfHeight(s: seq<(int, nat)>, h: nat): seq<int> {
    if s == [] then [] else (if s[0].1 == h then [s[0].0] else []) + OfHeight(s[1..], h)
  }

  lemma {:induction false} OfHeightConcat(s: seq<(int, nat)>, r: seq<(int, nat)>, h: nat)
    ensures OfHeight(s + r, h) == OfHeight(s, h) + OfHeight(r, h)
  {
    if s == [] {
      assert s + r == r;
    } else {
      OfHeightConcat(s[1..], r, h);
      OneMoreOfHeight(s, r, h);
      Associative(if s[0].1 == h then [s[0].0] else [], OfHeight(s[1..], h), OfHeight(r, h));
    }
  }

  lemma OneMoreOfHeight(s: seq<(int, nat)>, r: seq<(int, nat)>, h: nat)
    requires s != []
    ensures OfHeight(s + r, h) == (if s[0].1 == h then [s[0].0] else []) + OfHeight(s[1..] + r, h)
  {
    assert (s + r)[1..] == s[1..] + r;
  }

  /** Below a height there are only greater ones. */
  lemma {:induction false} DeeperInOrder(t: Tree, height: nat, h: nat)
    requires h < height
    ensures OfHeight(InOrder(t, height), h) == []
  {
    if t.Node? {
      DeeperInOrder(t.left, height + 1, h);
      DeeperInOrder(t.right, height + 1, h);
      InOrderSplits(t, height, h);
    }
  }

  lemma InOrderSplits(t: Tree, height: nat, h: nat)
    requires t.Node?
    ensures OfHeight(InOrder(t, height), h) ==
      OfHeight(InOrder(t.left, height + 1), h) + (if height == h then [t.val] else []) +
      OfHeight(InOrder(t.right, height + 1), h)
  {
    OfHeightConcat(InOrder(t.left, height + 1), [(t.val, height)], h);
    OfHeightConcat(InOrder(t.left, height + 1) + [(t.val, height)], InOrder(t.right, height + 1), h);
    assert [(t.val, height)][1..] == [];
    assert OfHeight([(t.val, height)], h) == if height == h then [t.val] else [];
  }

  /** One height is printed from the leftmost value to the rightmost. */
  lemma {:induction false} PrintedLeftToRight(t: Tree, height: nat, h: nat)
    requires t.Node?
    ensures TreePrint(t, height, h) == OfHeight(InOrder(t, height), h)
    decreases t
  {
    InOrderSplits(t, height, h);
    if height < h {
      if t.left.Node? {
        PrintedLeftToRight(t.left, height + 1, h);
      }
      if t.right.Node? {
        PrintedLeftToRight(t.right, height + 1, h);
      }
      NothingBetween(OfHeight(InOrder(t.left, height + 1), h), OfHeight(InOrder(t.right, height + 1), h));
    } else {
      DeeperInOrder(t.left, height + 1, h);
      DeeperInOrder(t.right, height + 1, h);
      NothingAround(if height == h then [t.val] else []);
    }
  }

  lemma NothingBetween(a: seq<int>, b: seq<int>)
    ensures a + [] + b == a + b
  {}

  lemma NothingAround(a: seq<int>)
    ensures [] + a + [] == a
  {}

  function Height(t: Tree): nat {
    if t.Empty? then 0 else 1 + if Height(t.left) < Height(t.right) then Height(t.right) else Height(t.left)
  }

  function Size(t: Tree): nat {
    if t.Empty? then 0 else 1 + Size(t.left) + Size(t.right)
  }

  function TotalSize(q: seq<Tree>): nat {
    if q == [] then 0 else Size(q[0]) + TotalSize(q[1..])
  }

  predicate AllNodes(q: seq<Tree>) {
    forall i :: 0 <= i < |q| ==> q[i].Node?
  }

  /** The children that are there. */
  function Children(t: Tree): (q: seq<Tree>)
    requires t.Node?
    ensures AllNodes(q)
  {
    (if t.left.Node? then [t.left] else []) + (if t.right.Node? then [t.right] else [])
  }

  lemma {:induction false} TotalSizeConcat(p: seq<Tree>, q: seq<Tree>)
    ensures TotalSize(p + q) == TotalSize(p) + TotalSize(q)
  {
    if p == [] {
      assert p + q == q;
    } else {
      assert (p + q)[1..] == p[1..] + q;
      TotalSizeConcat(p[1..], q);
    }
  }

  lemma ChildrenAreSmaller(t: Tree)
    requires t.Node?
    ensures TotalSize(Children(t)) == Size(t) - 1
  {
    TotalSizeConcat(if t.left.Node? then [t.left] else [], if t.right.Node? then [t.right] else []);
    assert [t.left][1..] == [] && [t.right][1..] == [];
  }

  /** The queue after its first tree has been replaced by that tree's children at the end. */
  function NextQueue(q: seq<Tree>): (r: seq<Tree>)
    requires q != [] && AllNodes(q)
    ensures AllNodes(r) && TotalSize(r) < TotalSize(q)
  {
    TotalSizeConcat(q[1..], Children(q[0]));
    ChildrenAreSmaller(q[0]);
    q[1..] + Children(q[0])
  }

  /** The search with a queue of trees: visit the first, append its children. */
  function Search(q: seq<Tree>): seq<int>
    requires AllNodes(q)
    decreases TotalSize(q)
  {
    if q == [] then [] else [q[0].val] + Search(NextQueue(q))
  }

  // ---------- they agree ----------

  function Roots(q: seq<Tree>): seq<int>
    requires AllNodes(q)
  {
    if q == [] then [] else [q[0].val] + Roots(q[1..])
  }

  function AllChildren(q: seq<Tree>): (r: seq<Tree>)
    requires AllNodes(q)
    ensures AllNodes(r)
  {
    if q == [] then [] else Children(q[0]) + AllChildren(q[1..])
  }

  /** The values h levels below the roots of a forest. */
  function ForestLevel(q: seq<Tree>, h: nat): seq<int>
    requires AllNodes(q)
  {
    if q == [] then [] else TreePrint(q[0], 0, h) + ForestLevel(q[1..], h)
  }

  /** A queue that starts with `a` visits the roots of `a` and is left with the rest and their children. */
  lemma {:induction false} OneLevel(a: seq<Tree>, b: seq<Tree>)
    requires AllNodes(a) && AllNodes(b)
    ensures Search(a + b) == Roots(a) + Search(b + AllChildren(a))
    decreases |a|
  {
    if a == [] {
      assert a + b == b && b + AllChildren(a) == b;
    } else {
      var c := Children(a[0]);
      var rest := AllChildren(a[1..]);
      OneLevel(a[1..], b + c);
      VisitFirst(a, b);
      assert (b + c) + rest == b + (c + rest);
      assert [a[0].val] + (Roots(a[1..]) + Search(b + (c + rest))) ==
        ([a[0].val] + Roots(a[1..])) + Search(b + (c + rest));
    }
  }

  lemma VisitFirst(a: seq<Tree>, b: seq<Tree>)
    requires a != [] && AllNodes(a) && AllNodes(b)
    ensures Search(a + b) == [a[0].val] + Search(a[1..] + (b + Children(a[0])))
  {
    FirstLeaves(a, b, Children(a[0]));
    assert (a + b)[0] == a[0];
  }

  lemma FirstLeaves(a: seq<Tree>, b: seq<Tree>, c: seq<Tree>)
    requires a != []
    ensures (a + b)[1..] + c == a[1..] + (b + c)
  {}

  lemma WholeLevel(q: seq<Tree>)
    requires AllNodes(q)
    ensures Search(q) == Roots(q) + Search(AllChildren(q))
  {
    OneLevel(q, []);
    assert q + [] == q && [] + AllChildren(q) == AllChildren(q);
  }

  /** Only the difference of the two heights matters. */
  lemma {:induction false} PrintIsRelative(t: Tree, current: nat, filter: nat, shift: nat)
    requires t.Node?
    ensures TreePrint(t, current + shift, filter + shift) == TreePrint(t, current, filter)
    decreases t
  {
    if current < filter {
      if t.left.Node? {
        PrintIsRelative(t.left, current + 1, filter, shift);
      }
      if t.right.Node? {
        PrintIsRelative(t.right, current + 1, filter, shift);
      }
    }
  }

  lemma {:induction false} ForestLevelConcat(p: seq<Tree>, q: seq<Tree>, h: nat)
    requires AllNodes(p) && AllNodes(q)
    ensures ForestLevel(p + q, h) == ForestLevel(p, h) + ForestLevel(q, h)
  {
    if p == [] {
      assert p + q == q;
    } else {
      assert (p + q)[1..] == p[1..] + q;
      ForestLevelConcat(p[1..], q, h);
    }
  }

  lemma ChildrenLevel(t: Tree, h: nat)
    requires t.Node?
    ensures ForestLevel(Children(t), h) == TreePrint(t, 0, h + 1)
  {
    var l, r := if t.left.Node? then [t.left] else [], if t.right.Node? then [t.right] else [];
    ForestLevelConcat(l, r, h);
    if t.left.Node? {
      PrintIsRelative(t.left, 0, h, 1);
      assert [t.left][1..] == [];
      assert ForestLevel(l, h) == TreePrint(t.left, 0, h) + [];
    }
    if t.right.Node? {
      PrintIsRelative(t.right, 0, h, 1);
      assert [t.right][1..] == [];
      assert ForestLevel(r, h) == TreePrint(t.right, 0, h) + [];
    }
  }

  /** One level further down is the same level of the children. */
  lemma {:induction false} NextLevel(q: seq<Tree>, h: nat)
    requires AllNodes(q)
    ensures ForestLevel(AllChildren(q), h) == ForestLevel(q, h + 1)
  {
    if q != [] {
      ForestLevelConcat(Children(q[0]), AllChildren(q[1..]), h);
      ChildrenLevel(q[0], h);
      NextLevel(q[1..], h);
    }
  }

  lemma {:induction false} RootsAreLevelZero(q: seq<Tree>)
    requires AllNodes(q)
    ensures ForestLevel(q, 0) == Roots(q)
  {
    if q != [] {
      RootsAreLevelZero(q[1..]);
    }
  }

  /** The levels from `first` on, n of them. */
  function Levels(q: seq<Tree>, first: nat, n: nat): seq<int>
    requires AllNodes(q)
  {
    if n == 0 then [] else Levels(q, first, n - 1) + ForestLevel(q, first + n - 1)
  }

  /** The levels of one forest are those of another from the next one on. */
  lemma {:induction false} LevelsShifted(kids: seq<Tree>, q: seq<Tree>, first: nat, n: nat)
    requires AllNodes(kids) && AllNodes(q)
    requires forall h: nat :: ForestLevel(kids, h) == ForestLevel(q, h + 1)
    ensures Levels(kids, first, n) == Levels(q, first + 1, n)
  {
    if n > 0 {
      LevelsShifted(kids, q, first, n - 1);
      var h := first + n - 1;
      assert ForestLevel(kids, h) == ForestLevel(q, h + 1);
    }
  }

  lemma LevelsOfChildren(q: seq<Tree>, first: nat, n: nat)
    requires AllNodes(q)
    ensures Levels(AllChildren(q), first, n) == Levels(q, first + 1, n)
  {
    forall h: nat
      ensures ForestLevel(AllChildren(q), h) == ForestLevel(q, h + 1)
    {
      NextLevel(q, h);
    }
    LevelsShifted(AllChildren(q), q, first, n);
  }

  lemma {:induction false} LevelsFromFront(q: seq<Tree>, first: nat, n: nat)
    requires AllNodes(q)
    ensures Levels(q, first, n + 1) == ForestLevel(q, first) + Levels(q, first + 1, n)
  {
    if n == 0 {
      OneLevelOnly(q, first);
    } else {
      LevelsFromFront(q, first, n - 1);
      Associative(ForestLevel(q, first), Levels(q, first + 1, n - 1), ForestLevel(q, first + n));
    }
  }

  lemma OneLevelOnly(q: seq<Tree>, first: nat)
    requires AllNodes(q)
    ensures Levels(q, first, 1) == ForestLevel(q, first) + []
  {
    assert Levels(q, first, 0) == [];
  }

  lemma Associative(a: seq<int>, b: seq<int>, c: seq<int>)
    ensures (a + b) + c == a + (b + c)
  {}

  predicate LowForest(q: seq<Tree>, n: nat) {
    forall i :: 0 <= i < |q| ==> Height(q[i]) <= n
  }

  lemma {:induction false} ChildrenAreLower(q: seq<Tree>, n: nat)
    requires AllNodes(q) && LowForest(q, n + 1)
    ensures LowForest(AllChildren(q), n)
  {
    if q != [] {
      assert Height(q[0]) <= n + 1;
      assert LowForest(Children(q[0]), n);
      ChildrenAreLower(q[1..], n);
    }
  }

  /** The roots first, then the levels of the children. */
  lemma LevelsPeel(q: seq<Tree>, n: nat)
    requires AllNodes(q)
    ensures Levels(q, 0, n + 1) == Roots(q) + Levels(AllChildren(q), 0, n)
  {
    LevelsOfChildren(q, 0, n);
    RootsAreLevelZero(q);
    LevelsFromFront(q, 0, n);
  }

  lemma {:induction false} SearchByLevels(q: seq<Tree>, n: nat)
    requires AllNodes(q) && LowForest(q, n)
    ensures Search(q) == Levels(q, 0, n)
    decreases n
  {
    if n > 0 {
      WholeLevel(q);
      ChildrenAreLower(q, n - 1);
      SearchByLevels(AllChildren(q), n - 1);
      LevelsPeel(q, n - 1);
    }
  }

  lemma {:induction false} LevelsOfOne(t: Tree, n: nat)
    requires t.Node?
    ensures Levels([t], 0, n) == LevelByLevel(t, n)
  {
    if n > 0 {
      LevelsOfOne(t, n - 1);
      assert [t][1..] == [];
      assert ForestLevel([t], n - 1) == TreePrint(t, 0, n - 1) + [];
    }
  }

  /** The search visits the tree level by level; heights from the tree's own on print nothing. */
  lemma SearchIsLevelByLevel(t: Tree, n: nat)
    requires t.Node? && Height(t) <= n
    ensures Search([t]) == LevelByLevel(t, n)
  {
    SearchByLevels([t], n);
    LevelsOfOne(t, n);
  }

  function Contents(t: Tree): multiset<int> {
    if t.Empty? then multiset{} else Contents(t.left) + multiset{t.val} + Contents(t.right)
  }

  function ForestContents(q: seq<Tree>): multiset<int> {
    if q == [] then multiset{} else Contents(q[0]) + ForestContents(q[1..])
  }

  lemma {:induction false} ForestContentsConcat(p: seq<Tree>, q: seq<Tree>)
    ensures ForestContents(p + q) == ForestContents(p) + ForestContents(q)
  {
    if p == [] {
      assert p + q == q;
    } else {
      assert (p + q)[1..] == p[1..] + q;
      ForestContentsConcat(p[1..], q);
    }
  }

  lemma ChildrenContents(t: Tree)
    requires t.Node?
    ensures Contents(t) == multiset{t.val} + ForestContents(Children(t))
  {
    ForestContentsConcat(if t.left.Node? then [t.left] else [], if t.right.Node? then [t.right] else []);
    ContentsOfOne(t.left);
    ContentsOfOne(t.right);
  }

  lemma ContentsOfOne(t: Tree)
    ensures ForestContents([t]) == Contents(t)
  {
    assert [t][1..] == [];
  }

  /** Every node is visited once. */
  lemma {:induction false} SearchVisitsEachOnce(q: seq<Tree>)
    requires AllNodes(q)
    ensures multiset(Search(q)) == ForestContents(q)
    decreases TotalSize(q)
  {
    if q != [] {
      SearchVisitsEachOnce(NextQueue(q));
      ForestContentsConcat(q[1..], Children(q[0]));
      ChildrenContents(q[0]);
    }
  }

  // ---------- the linked queue ----------

  class ListNode {
    var next: ListNode?
    var prev: ListNode?
    const data: Tree

    constructor (data: Tree)
      ensures this.data == data
    {
      this.data := data;
      next, prev := null, null;
    }
  }

  function After(i: nat, n: nat): nat {
    if i + 1 < n then i + 1 else 0
  }

  /** The nodes form one ring, in this order, linked both ways. */
  ghost predicate Ring(nodes: seq<ListNode>)
    reads nodes
  {
    && |nodes| >= 1
    && (forall i, j :: 0 <= i < j < |nodes| ==> nodes[i] != nodes[j])
    && (forall i :: 0 <= i < |nodes| ==> nodes[i].next == nodes[After(i, |nodes|)])
    && (forall i :: 0 <= i < |nodes| ==> nodes[After(i, |nodes|)].prev == nodes[i])
  }

  method ListInit(list: ListNode)
    modifies list
    ensures Ring([list])
  {
    list.prev := list;
    list.next := list;
  }

  /** Before the first node of the ring is at its end. */
  method ListInsertBefore(list: ListNode, t: ListNode, ghost nodes: seq<ListNode>)
    requires Ring(nodes) && nodes[0] == list && t !in nodes
    modifies nodes, t
    ensures Ring(nodes + [t])
  {
    ghost var last := |nodes| - 1;
    assert After(last, |nodes|) == 0 && list.prev == nodes[last];
    t.prev := list.prev;
    t.next := list;
    t.prev.next := t;
    t.next.prev := t;
    ghost var more := nodes + [t];
    forall i | 0 <= i < |more|
      ensures more[i].next == more[After(i, |more|)] && more[After(i, |more|)].prev == more[i]
    {
      if i < last {
        assert more[i] == nodes[i] && more[i + 1] == nodes[i + 1] && After(i, |nodes|) == i + 1;
        assert nodes[After(i, |nodes|)].prev == nodes[i];
      }
    }
  }

  /** Unlinks the node after the first. */
  method ListRemove(t: ListNode, ghost nodes: seq<ListNode>)
    requires Ring(nodes) && |nodes| >= 2 && nodes[1] == t
    modifies nodes
    ensures Ring([nodes[0]] + nodes[2..])
  {
    ghost var n := |nodes|;
    assert After(0, n) == 1 && nodes[After(0, n)].prev == nodes[0];
    assert nodes[1].next == nodes[After(1, n)];
    var prev, next := t.prev, t.next;
    prev.next := next;
    next.prev := prev;
    ghost var less := [nodes[0]] + nodes[2..];
    forall i | 0 <= i < |less|
      ensures less[i].next == less[After(i, |less|)] && less[After(i, |less|)].prev == less[i]
    {
      if i > 0 {
        assert less[i] == nodes[i + 1];
        assert nodes[i + 1].next == nodes[After(i + 1, n)] && nodes[After(i + 1, n)].prev == nodes[i + 1];
      }
    }
  }

  predicate ListIsEmpty(list: ListNode)
    reads list
  {
    list.prev == list && list.next == list
  }

  ghost function Queued(nodes: seq<ListNode>): (q: seq<Tree>)
    ensures |q| == if nodes == [] then 0 else |nodes| - 1
  {
    if nodes == [] then [] else seq(|nodes| - 1, i requires 0 <= i < |nodes| - 1 => nodes[i + 1].data)
  }

  method ListPushBack(list: ListNode, d: Tree, ghost nodes: seq<ListNode>) returns (node: ListNode)
    requires Ring(nodes) && nodes[0] == list
    modifies nodes
    ensures fresh(node) && node.data == d && Ring(nodes + [node])
    ensures Queued(nodes + [node]) == Queued(nodes) + [d]
  {
    node := new ListNode(d);
    ListInsertBefore(list, node, nodes);
  }

  /** Appends a child that is there. */
  method PushIfNode(list: ListNode, child: Tree, ghost nodes: seq<ListNode>) returns (ghost more: seq<ListNode>)
    requires Ring(nodes) && nodes[0] == list
    modifies nodes
    ensures Ring(more) && nodes <= more && forall i :: |nodes| <= i < |more| ==> fresh(more[i])
    ensures Queued(more) == Queued(nodes) + if child.Node? then [child] else []
  {
    more := nodes;
    if child.Node? {
      var node := ListPushBack(list, child, nodes);
      more := nodes + [node];
    }
  }

  /** Appends the children that are there. */
  method PushChildren(list: ListNode, item: Tree, ghost nodes: seq<ListNode>) returns (ghost more: seq<ListNode>)
    requires Ring(nodes) && nodes[0] == list && item.Node?
    modifies nodes
    ensures Ring(more) && nodes <= more && forall i :: 0 <= i < |more| ==> more[i] in nodes || fresh(more[i])
    ensures Queued(more) == Queued(nodes) + Children(item)
  {
    ghost var half := PushIfNode(list, item.left, nodes);
    more := PushIfNode(list, item.right, half);
    LeftThenRight(Queued(nodes), item);
  }

  lemma LeftThenRight(q: seq<Tree>, item: Tree)
    requires item.Node?
    ensures (q + if item.left.Node? then [item.left] else []) + (if item.right.Node? then [item.right] else [])
         == q + Children(item)
  {}

  /** One turn of the loop, apart from the callback: the front leaves the queue, its children enter. */
  method AdvanceQueue(queue: ListNode, current: ListNode, ghost nodes: seq<ListNode>)
    returns (next: ListNode, ghost rest: seq<ListNode>)
    requires Ring(nodes) && |nodes| >= 2 && nodes[0] == queue && nodes[1] == current && AllNodes(Queued(nodes))
    modifies nodes
    ensures Ring(rest) && rest[0] == queue && next == rest[After(0, |rest|)]
    ensures Queued(rest) == NextQueue(Queued(nodes))
    ensures forall i :: 0 <= i < |rest| ==> rest[i] in nodes || fresh(rest[i])
  {
    ghost var q := Queued(nodes);
    var item := current.data;
    assert q[0] == item;
    ghost var more := PushChildren(queue, item, nodes);
    next := current.next;
    assert more[1] == current && next == more[After(1, |more|)];
    ListRemove(current, more);
    rest := [more[0]] + more[2..];
    QueueAdvances(more, q, item, rest);
  }

  method StartQueue(tree: Tree) returns (queue: ListNode, current: ListNode, ghost nodes: seq<ListNode>)
    ensures Ring(nodes) && nodes == [queue, current] && fresh(queue) && fresh(current)
    ensures Queued(nodes) == [tree]
  {
    queue := new ListNode(Empty);
    ListInit(queue);
    current := ListPushBack(queue, tree, [queue]);
    nodes := [queue, current];
    assert nodes == [queue] + [current];
  }

  /**
   tree_breadth_first_search: what the callback is given, in order. The null pointer that stands for
   the empty tree is put into the queue like any other and looked through: there is no result.
   */
  method BreadthFirstSearch(tree: Tree) returns (visited: Option<seq<int>>)
    ensures visited.None? <==> tree.Empty?
    ensures visited.Some? ==> visited.value == Search([tree]) == LevelByLevel(tree, Height(tree))
  {
    var queue, current;
    ghost var nodes;
    queue, current, nodes := StartQueue(tree);
    assert current.data == Queued(nodes)[0];
    if current.data.Empty? {
      return None;
    }
    SearchIsLevelByLevel(tree, Height(tree));
    StartVisiting(tree);
    var seen := VisitAll(tree, queue, current, nodes);
    visited := Some(seen);
  }

  /** The loop over the queue. */
  method VisitAll(tree: Tree, queue: ListNode, first: ListNode, ghost start: seq<ListNode>) returns (visited: seq<int>)
    requires Ring(start) && start == [queue, first] && Queued(start) == [tree] && Visiting(tree, [], [tree])
    modifies start
    ensures visited == Search([tree]) && ListIsEmpty(queue)
  {
    visited := [];
    var current := first;
    ghost var nodes := start;
    while current != queue
      invariant Ring(nodes) && nodes[0] == queue
      invariant forall i :: 0 <= i < |nodes| ==> nodes[i] in start || fresh(nodes[i])
      invariant current == nodes[After(0, |nodes|)]
      invariant Visiting(tree, visited, Queued(nodes))
      decreases TotalSize(Queued(nodes))
    {
      assert current.data == Queued(nodes)[0];
      VisitNext(tree, visited, Queued(nodes));
      visited := visited + [current.data.val];
      current, nodes := AdvanceQueue(queue, current, nodes);
    }
    NothingLeft(tree, visited);
  }

  /** What has been visited, followed by the search from the queue, is the search from the tree. */
  ghost predicate Visiting(tree: Tree, visited: seq<int>, q: seq<Tree>) {
    tree.Node? && AllNodes(q) && visited + Search(q) == Search([tree])
  }

  lemma StartVisiting(tree: Tree)
    requires tree.Node?
    ensures Visiting(tree, [], [tree])
  {}

  lemma VisitNext(tree: Tree, visited: seq<int>, q: seq<Tree>)
    requires Visiting(tree, visited, q) && q != []
    ensures Visiting(tree, visited + [q[0].val], NextQueue(q))
  {
    assert visited + ([q[0].val] + Search(NextQueue(q))) == (visited + [q[0].val]) + Search(NextQueue(q));
  }

  lemma NothingLeft(tree: Tree, visited: seq<int>)
    requires Visiting(tree, visited, [])
    ensures visited == Search([tree])
  {}

  lemma QueueAdvances(more: seq<ListNode>, q: seq<Tree>, item: Tree, nodes: seq<ListNode>)
    requires |more| >= 2 && more[1].data == item && item.Node? && AllNodes(q) && |q| >= 1 && q[0] == item
    requires Queued(more) == q + Children(item) && nodes == [more[0]] + more[2..]
    ensures Queued(nodes) == NextQueue(q)
  {
    forall i | 0 <= i < |nodes| - 1
      ensures Queued(nodes)[i] == Queued(more)[i + 1]
    {
      assert nodes[i + 1] == more[i + 2];
    }
    assert (q + Children(item))[1..] == NextQueue(q);
    assert Queued(nodes) == Queued(more)[1..];
  }
}
