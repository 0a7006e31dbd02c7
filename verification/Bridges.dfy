/**
 Bridge finding by depth-first search, eljudge/090.cpp `dfs_bridges` and its driver loop: `tin` is
 the time of entry, `fup[v]` the earliest entry time that the subtree of v reaches by an edge other
 than the one to its parent, and an edge to a child is recorded when the child cannot reach as far
 up as its parent.
 */
module Bridges {

  /** Neighbour sets, as read from the input. */
  type Graph = seq<set<nat>>

  /** A simple undirected graph. */
  ghost predicate IsGraph(g: Graph) {
    forall u: nat, w: nat {:trigger w in g[u]} :: u < |g| && w in g[u] ==> w < |g| && w != u && u in g[w]
  }

  // ---------- what a bridge is ----------

  predicate SameEdge(x: nat, y: nat, u: nat, w: nat) {
    (u == x && w == y) || (u == y && w == x)
  }

  /** A path that does not use the edge between x and y. */
  ghost predicate IsPath(g: Graph, x: nat, y: nat, s: seq<nat>) {
    && |s| >= 1
    && (forall i :: 0 <= i < |s| ==> s[i] < |g|)
    && (forall i :: 0 <= i < |s| - 1 ==> s[i + 1] in g[s[i]] && !SameEdge(x, y, s[i], s[i + 1]))
  }

  ghost predicate ConnectedWithout(g: Graph, x: nat, y: nat, u: nat, w: nat) {
    exists s :: IsPath(g, x, y, s) && s[0] == u && s[|s| - 1] == w
  }

  /** An edge whose removal disconnects its endpoints. */
  ghost predicate IsBridge(g: Graph, x: nat, y: nat) {
    x < |g| && y in g[x] && !ConnectedWithout(g, x, y, x, y)
  }

  lemma Joined(g: Graph, x: nat, y: nat, u: nat, w: nat, z: nat)
    requires ConnectedWithout(g, x, y, u, w) && ConnectedWithout(g, x, y, w, z)
    ensures ConnectedWithout(g, x, y, u, z)
  {
    var s :| IsPath(g, x, y, s) && s[0] == u && s[|s| - 1] == w;
    var t :| IsPath(g, x, y, t) && t[0] == w && t[|t| - 1] == z;
    var both := s + t[1..];
    assert IsPath(g, x, y, both) && both[0] == u && both[|both| - 1] == z;
  }

  lemma OneStep(g: Graph, x: nat, y: nat, u: nat, w: nat)
    requires IsGraph(g) && u < |g| && w in g[u] && !SameEdge(x, y, u, w)
    ensures ConnectedWithout(g, x, y, u, w)
  {
    assert IsPath(g, x, y, [u, w]) && [u, w][0] == u && [u, w][|[u, w]| - 1] == w;
  }

  lemma NoStep(g: Graph, x: nat, y: nat, u: nat)
    requires u < |g|
    ensures ConnectedWithout(g, x, y, u, u)
  {
    assert IsPath(g, x, y, [u]) && [u][0] == u && [u][|[u]| - 1] == u;
  }

  lemma {:induction false} ReversedPath(g: Graph, x: nat, y: nat, s: seq<nat>)
    requires IsGraph(g) && IsPath(g, x, y, s)
    ensures ConnectedWithout(g, x, y, s[|s| - 1], s[0])
    decreases |s|
  {
    if |s| == 1 {
      NoStep(g, x, y, s[0]);
    } else {
      ReversedPath(g, x, y, s[1..]);
      assert s[0] in g[s[1]] && !SameEdge(x, y, s[1], s[0]);
      OneStep(g, x, y, s[1], s[0]);
      Joined(g, x, y, s[|s| - 1], s[1], s[0]);
    }
  }

  lemma Reversed(g: Graph, x: nat, y: nat, u: nat, w: nat)
    requires IsGraph(g) && ConnectedWithout(g, x, y, u, w)
    ensures ConnectedWithout(g, x, y, w, u)
  {
    var s :| IsPath(g, x, y, s) && s[0] == u && s[|s| - 1] == w;
    ReversedPath(g, x, y, s);
  }

  lemma ConnectedFlip(g: Graph, x: nat, y: nat)
    requires IsGraph(g) && ConnectedWithout(g, x, y, x, y)
    ensures ConnectedWithout(g, y, x, y, x)
  {
    Reversed(g, x, y, x, y);
    var s :| IsPath(g, x, y, s) && s[0] == y && s[|s| - 1] == x;
    assert IsPath(g, y, x, s);
  }

  lemma BridgeIsSymmetric(g: Graph, x: nat, y: nat)
    requires IsGraph(g) && IsBridge(g, x, y)
    ensures IsBridge(g, y, x)
  {
    if ConnectedWithout(g, y, x, y, x) {
      ConnectedFlip(g, y, x);
    }
  }

  /** A set that no edge but {x, y} leaves is left by no path without that edge. */
  lemma {:induction false} NoPathIn(g: Graph, x: nat, y: nat, inside: set<nat>, s: seq<nat>)
    requires IsGraph(g) && IsPath(g, x, y, s) && s[0] !in inside
    requires forall u, w :: u in inside && u < |g| && w in g[u] && w !in inside ==> SameEdge(x, y, u, w)
    ensures s[|s| - 1] !in inside
    decreases |s|
  {
    if |s| > 1 {
      assert s[0] in g[s[1]];
      NoPathIn(g, x, y, inside, s[1..]);
    }
  }

  /** Connected by a path inside a set of vertices. */
  ghost predicate InnerPath(g: Graph, inside: set<nat>, s: seq<nat>) {
    && |s| >= 1
    && (forall i :: 0 <= i < |s| ==> s[i] < |g| && s[i] in inside)
    && (forall i :: 0 <= i < |s| - 1 ==> s[i + 1] in g[s[i]])
  }

  ghost predicate ConnectedWithin(g: Graph, inside: set<nat>, u: nat, w: nat) {
    exists s :: InnerPath(g, inside, s) && s[0] == u && s[|s| - 1] == w
  }

  /** A path inside a set that does not hold both x and y does not use their edge. */
  lemma WithinAvoids(g: Graph, inside: set<nat>, x: nat, y: nat, u: nat, w: nat)
    requires ConnectedWithin(g, inside, u, w) && !(x in inside && y in inside)
    ensures ConnectedWithout(g, x, y, u, w)
  {
    var s :| InnerPath(g, inside, s) && s[0] == u && s[|s| - 1] == w;
    assert IsPath(g, x, y, s);
  }

  lemma WithinMore(g: Graph, inside: set<nat>, more: set<nat>, u: nat, w: nat)
    requires ConnectedWithin(g, inside, u, w) && inside <= more
    ensures ConnectedWithin(g, more, u, w)
  {
    var s :| InnerPath(g, inside, s) && s[0] == u && s[|s| - 1] == w;
    assert InnerPath(g, more, s);
  }

  lemma WithinPrepend(g: Graph, inside: set<nat>, more: set<nat>, v: nat, u: nat, w: nat)
    requires ConnectedWithin(g, inside, u, w) && inside <= more && v in more && v < |g| && u in g[v]
    ensures ConnectedWithin(g, more, v, w)
  {
    var s :| InnerPath(g, inside, s) && s[0] == u && s[|s| - 1] == w;
    var t := [v] + s;
    assert InnerPath(g, more, t) && t[0] == v && t[|t| - 1] == w;
  }

  lemma WithinSelf(g: Graph, inside: set<nat>, v: nat)
    requires v in inside && v < |g|
    ensures ConnectedWithin(g, inside, v, v)
  {
    assert InnerPath(g, inside, [v]) && [v][0] == v && [v][|[v]| - 1] == v;
  }

  // ---------- the search ----------

  /** The global variables of the search. */
  datatype Marks = Marks(used: seq<bool>, tin: seq<int>, fup: seq<int>, timer: int, bridges: seq<(nat, nat)>)

  ghost predicate Sized(g: Graph, m: Marks) {
    |m.used| == |m.tin| == |m.fup| == |g|
  }

  predicate Used(m: Marks, x: nat) {
    x < |m.used| && m.used[x]
  }

  /** The vertices entered between two moments. */
  ghost function Fresh(b: Marks, m: Marks): set<nat> {
    set x | 0 <= x < |m.used| && m.used[x] && !Used(b, x)
  }

  /**
   `stack` holds the vertices whose calls are still running, outermost first. Everything else that
   has been entered is finished: all its neighbours have been entered.
   */
  ghost predicate Inv(g: Graph, m: Marks, stack: seq<nat>) {
    && Sized(g, m) && IsGraph(g)
    && (forall x :: 0 <= x < |g| && m.used[x] ==> m.tin[x] < m.timer)
    && (forall i :: 0 <= i < |stack| ==> Used(m, stack[i]))
    && (forall i, j :: 0 <= i < j < |stack| ==> m.tin[stack[i]] < m.tin[stack[j]])
    && (forall i :: 0 <= i < |stack| - 1 ==> stack[i + 1] in g[stack[i]])
    && (forall x: nat, w: nat {:trigger w in g[x]} :: Used(m, x) && x !in stack && w in g[x] ==> Used(m, w))
  }

  /** From b to m: nothing entered before has changed, and v is the first vertex entered since. */
  ghost predicate Grown(g: Graph, b: Marks, m: Marks, v: nat) {
    && Sized(g, b) && Sized(g, m) && v in Fresh(b, m) && b.timer <= m.timer
    && (forall x: nat :: Used(b, x) ==> m.used[x] && m.tin[x] == b.tin[x] && m.fup[x] == b.fup[x])
    && m.tin[v] == b.timer
    && (forall x :: x in Fresh(b, m) && x != v ==> m.tin[v] < m.tin[x])
    && (forall x :: x in Fresh(b, m) ==> ConnectedWithin(g, Fresh(b, m), v, x))
  }

  /** An edge from a vertex entered since b back to one entered before, other than v's to p. */
  ghost predicate BackEdge(g: Graph, b: Marks, m: Marks, v: nat, p: int, x: nat, w: nat) {
    x in Fresh(b, m) && x < |g| && w in g[x] && Used(b, w) && !(x == v && w == p)
  }

  /** fup[v] is the earliest entry time that back edges reach; v's edges in `rest` do not count yet. */
  ghost predicate Low(g: Graph, b: Marks, m: Marks, v: nat, p: int, rest: set<nat>) {
    && Sized(g, m) && v < |g| && m.fup[v] <= m.tin[v]
    && (forall x: nat, w: nat :: BackEdge(g, b, m, v, p, x, w) && !(x == v && w in rest) && w < |g| ==>
      m.fup[v] <= m.tin[w])
    && (m.fup[v] < m.tin[v] ==>
         exists x: nat, w: nat :: BackEdge(g, b, m, v, p, x, w) && w < |g| && m.tin[w] == m.fup[v])
  }

  /** What has been recorded since b: the bridges among the vertices entered since, each once. */
  ghost predicate Recorded(g: Graph, b: Marks, m: Marks, v: nat) {
    && |b.bridges| <= |m.bridges| && m.bridges[..|b.bridges|] == b.bridges
    && (forall i :: |b.bridges| <= i < |m.bridges| ==> NewBridge(g, b, m, v, m.bridges[i]))
    && (forall i, j :: |b.bridges| <= i < j < |m.bridges| ==> m.bridges[i].1 != m.bridges[j].1)
    && (forall x, y :: x in Fresh(b, m) && y in Fresh(b, m) && IsBridge(g, x, y) ==> Listed(b, m, x, y))
  }

  ghost predicate NewBridge(g: Graph, b: Marks, m: Marks, v: nat, e: (nat, nat)) {
    && e.0 in Fresh(b, m) && e.1 in Fresh(b, m) && e.1 != v
    && e.0 < |m.tin| && e.1 < |m.tin| && m.tin[e.0] < m.tin[e.1]
    && IsBridge(g, e.0, e.1)
  }

  /** The edge has been recorded since b, in either direction. */
  ghost predicate Listed(b: Marks, m: Marks, x: nat, y: nat) {
    exists i :: |b.bridges| <= i < |m.bridges| && SameEdge(x, y, m.bridges[i].0, m.bridges[i].1)
  }

  /** A vertex entered just now has no finished neighbour: its earlier neighbours are on the stack. */
  lemma EarlierNeighbourIsOnStack(g: Graph, b: Marks, m: Marks, stack: seq<nat>, x: nat, w: nat)
    requires Inv(g, b, stack) && x in Fresh(b, m) && x < |g| && w in g[x] && Used(b, w)
    ensures w in stack
  {
    assert x in g[w];
  }

  ghost function OnStack(stack: seq<nat>): set<nat> {
    set x | x in stack
  }

  /** Along the stack. */
  lemma {:induction false} StackPath(g: Graph, m: Marks, stack: seq<nat>, i: nat)
    requires Inv(g, m, stack) && i < |stack|
    ensures ConnectedWithin(g, OnStack(stack), stack[i], stack[|stack| - 1])
  {
    var s := stack[i..];
    assert InnerPath(g, OnStack(stack), s) && s[0] == stack[i] && s[|s| - 1] == stack[|stack| - 1];
  }

  /** Entering v. */
  function Enter(m: Marks, v: nat): Marks
    requires v < |m.used| == |m.tin| == |m.fup|
  {
    m.(used := m.used[v := true], tin := m.tin[v := m.timer], fup := m.fup[v := m.timer], timer := m.timer + 1)
  }

  lemma EnteredInv(g: Graph, b: Marks, v: nat, stack: seq<nat>)
    requires Inv(g, b, stack) && v < |g| && !b.used[v]
    requires stack != [] ==> v in g[stack[|stack| - 1]]
    ensures Inv(g, Enter(b, v), stack + [v])
  {
    var m := Enter(b, v);
    forall x: nat, w: nat {:trigger w in g[x]} | Used(m, x) && x !in stack + [v] && w in g[x]
      ensures Used(m, w)
    {
      assert (stack + [v])[|stack|] == v;
      assert Used(b, x) && x !in stack;
    }
  }

  lemma EnteredRest(g: Graph, b: Marks, v: nat, p: int)
    requires Sized(g, b) && IsGraph(g) && v < |g| && !b.used[v]
    ensures Grown(g, b, Enter(b, v), v)
    ensures Low(g, b, Enter(b, v), v, p, g[v]) && Recorded(g, b, Enter(b, v), v)
  {
    var m := Enter(b, v);
    assert Fresh(b, m) == {v};
    WithinSelf(g, {v}, v);
  }

  function Min(a: int, b: int): int {
    if b < a then b else a
  }

  /** fup[v] = min(fup[v], reach). */
  function Lower(m: Marks, v: nat, reach: int): Marks
    requires v < |m.fup|
  {
    m.(fup := m.fup[v := Min(m.fup[v], reach)])
  }

  /** A neighbour that has been entered already, other than the parent. */
  lemma SeenUsed(g: Graph, b: Marks, m: Marks, v: nat, p: int, rest: set<nat>, to: nat)
    requires Grown(g, b, m, v) && Low(g, b, m, v, p, rest) && v < |g|
    requires to in g[v] && to in rest && to < |g| && Used(m, to) && to != p
    ensures Low(g, b, Lower(m, v, m.tin[to]), v, p, rest - {to})
  {
    var m' := Lower(m, v, m.tin[to]);
    assert Fresh(b, m') == Fresh(b, m);
    if m.tin[to] < m.fup[v] {
      assert BackEdge(g, b, m', v, p, v, to);
    } else if m'.fup[v] < m'.tin[v] {
      var x: nat, w: nat :| BackEdge(g, b, m, v, p, x, w) && w < |g| && m.tin[w] == m.fup[v];
      assert BackEdge(g, b, m', v, p, x, w);
    }
    forall x: nat, w: nat | BackEdge(g, b, m', v, p, x, w) && !(x == v && w in rest - {to}) && w < |g|
      ensures m'.fup[v] <= m'.tin[w]
    {
      assert BackEdge(g, b, m, v, p, x, w);
    }
  }

  /** The parent does not count. */
  lemma SeenParent(g: Graph, b: Marks, m: Marks, v: nat, p: int, rest: set<nat>, to: nat)
    requires Low(g, b, m, v, p, rest) && to == p
    ensures Low(g, b, m, v, p, rest - {to})
  {}

  // A child's call: m before it, c after it; b is where the call for v began.

  ghost predicate ChildDone(g: Graph, b: Marks, m: Marks, c: Marks, v: nat, to: nat, stack: seq<nat>) {
    && Inv(g, b, stack) && Inv(g, m, stack + [v]) && Inv(g, c, stack + [v])
    && v < |g| && to in g[v] && Grown(g, b, m, v) && Grown(g, m, c, to)
    && Low(g, m, c, to, v, {}) && Recorded(g, b, m, v) && Recorded(g, m, c, to)
  }

  lemma ChildFresh(g: Graph, b: Marks, m: Marks, c: Marks, v: nat, to: nat, stack: seq<nat>)
    requires ChildDone(g, b, m, c, v, to, stack)
    ensures Fresh(b, c) == Fresh(b, m) + Fresh(m, c) && Fresh(b, m) !! Fresh(m, c)
    ensures v !in Fresh(m, c) && c.tin[v] == m.tin[v] < c.tin[to]
    ensures forall x :: x in stack + [v] ==> x !in Fresh(m, c) && x < |g| && c.tin[x] == m.tin[x] <= c.tin[v]
  {
    assert (stack + [v])[|stack|] == v;
    assert Used(m, v);
    forall x | x in stack + [v]
      ensures x !in Fresh(m, c) && x < |g| && c.tin[x] == m.tin[x] <= c.tin[v]
    {
      var i :| 0 <= i < |stack + [v]| && (stack + [v])[i] == x;
      assert Used(m, (stack + [v])[i]);
    }
  }

  /** Everything the child's subtree is adjacent to, outside itself, is on the stack. */
  lemma ChildBorder(g: Graph, b: Marks, m: Marks, c: Marks, v: nat, to: nat, stack: seq<nat>, x: nat, w: nat)
    requires ChildDone(g, b, m, c, v, to, stack) && x in Fresh(m, c) && w in g[x] && w !in Fresh(m, c)
    ensures w in stack + [v]
  {
    ChildFresh(g, b, m, c, v, to, stack);
    assert Used(c, w);
    EarlierNeighbourIsOnStack(g, m, c, stack + [v], x, w);
  }

  /** A child that cannot reach as far up as v hangs on the edge alone. */
  lemma ChildSeparated(g: Graph, b: Marks, m: Marks, c: Marks, v: nat, to: nat, stack: seq<nat>)
    requires ChildDone(g, b, m, c, v, to, stack) && c.fup[to] > c.tin[v]
    ensures IsBridge(g, v, to)
  {
    ChildFresh(g, b, m, c, v, to, stack);
    var inside := Fresh(m, c);
    forall u, w | u in inside && u < |g| && w in g[u] && w !in inside
      ensures SameEdge(v, to, u, w)
    {
      ChildBorder(g, b, m, c, v, to, stack, u, w);
      assert BackEdge(g, m, c, to, v, u, w) || (u == to && w == v);
    }
    forall s | IsPath(g, v, to, s) && s[0] == v
      ensures s[|s| - 1] != to
    {
      NoPathIn(g, v, to, inside, s);
    }
  }

  /** A child that can reach v or beyond has another way there. */
  lemma ChildConnected(g: Graph, b: Marks, m: Marks, c: Marks, v: nat, to: nat, stack: seq<nat>)
    requires ChildDone(g, b, m, c, v, to, stack) && c.fup[to] <= c.tin[v]
    ensures ConnectedWithout(g, v, to, v, to)
  {
    ChildFresh(g, b, m, c, v, to, stack);
    var x: nat, w: nat :| BackEdge(g, m, c, to, v, x, w) && w < |g| && c.tin[w] == c.fup[to];
    ChildBorder(g, b, m, c, v, to, stack, x, w);
    var whole := stack + [v];
    var i :| 0 <= i < |whole| && whole[i] == w;
    StackPath(g, m, whole, i);
    WithinAvoids(g, OnStack(whole), v, to, w, v);
    Reversed(g, v, to, w, v);
    OneStep(g, v, to, w, x);
    Joined(g, v, to, v, w, x);
    WithinAvoids(g, Fresh(m, c), v, to, to, x);
    Reversed(g, v, to, to, x);
    Joined(g, v, to, v, x, to);
  }

  /** The test `fup[to] > tin[v]` is exact. */
  lemma ChildTest(g: Graph, b: Marks, m: Marks, c: Marks, v: nat, to: nat, stack: seq<nat>)
    requires ChildDone(g, b, m, c, v, to, stack)
    ensures v < |c.tin| && to < |c.fup|
    ensures c.fup[to] > c.tin[v] <==> IsBridge(g, v, to)
  {
    if c.fup[to] > c.tin[v] {
      ChildSeparated(g, b, m, c, v, to, stack);
    } else {
      ChildConnected(g, b, m, c, v, to, stack);
    }
  }

  /** An edge from v into the child's subtree, other than to the child, is not a bridge. */
  lemma OtherEdgeToSubtree(g: Graph, b: Marks, m: Marks, c: Marks, v: nat, to: nat, stack: seq<nat>, y: nat)
    requires ChildDone(g, b, m, c, v, to, stack) && y in Fresh(m, c) && y in g[v] && y != to
    ensures !IsBridge(g, v, y)
  {
    ChildFresh(g, b, m, c, v, to, stack);
    OneStep(g, v, y, v, to);
    WithinAvoids(g, Fresh(m, c), v, y, to, y);
    Joined(g, v, y, v, to, y);
  }

  /** What the marks are once the child's call and the test after it are over. */
  function AfterChild(c: Marks, v: nat, to: nat): Marks
    requires v < |c.fup| == |c.tin| && to < |c.fup|
  {
    var m := Lower(c, v, c.fup[to]);
    if c.fup[to] > c.tin[v] then m.(bridges := m.bridges + [(v, to)]) else m
  }

  lemma ChildGrown(g: Graph, b: Marks, m: Marks, c: Marks, v: nat, to: nat, stack: seq<nat>)
    requires ChildDone(g, b, m, c, v, to, stack)
    ensures to < |g| && Grown(g, b, AfterChild(c, v, to), v) && Inv(g, AfterChild(c, v, to), stack + [v])
    ensures Fresh(b, AfterChild(c, v, to)) == Fresh(b, c)
  {
    ChildFresh(g, b, m, c, v, to, stack);
    var t := AfterChild(c, v, to);
    assert Fresh(b, t) == Fresh(b, c);
    forall x | x in Fresh(b, t)
      ensures ConnectedWithin(g, Fresh(b, t), v, x)
      ensures x != v ==> t.tin[v] < t.tin[x]
    {
      if x in Fresh(b, m) {
        WithinMore(g, Fresh(b, m), Fresh(b, t), v, x);
      } else {
        WithinPrepend(g, Fresh(m, c), Fresh(b, t), v, to, x);
      }
    }
  }

  lemma ChildLowWitness(g: Graph, b: Marks, m: Marks, c: Marks, v: nat, p: int, to: nat, stack: seq<nat>,
                        x: nat, w: nat)
    requires ChildDone(g, b, m, c, v, to, stack)
    requires BackEdge(g, m, c, to, v, x, w) && w < |g| && c.tin[w] < c.tin[v]
    ensures BackEdge(g, b, c, v, p, x, w)
  {
    ChildFresh(g, b, m, c, v, to, stack);
    assert w !in Fresh(b, m);
  }

  /** If the minimum is above v, some back edge reaches it. */
  lemma ChildLowReached(g: Graph, b: Marks, m: Marks, c: Marks, v: nat, p: int, rest: set<nat>,
                        to: nat, stack: seq<nat>)
    requires ChildDone(g, b, m, c, v, to, stack) && Low(g, b, m, v, p, rest) && to < |g|
    requires AfterChild(c, v, to).fup[v] < c.tin[v]
    ensures exists x: nat, w: nat ::
      BackEdge(g, b, AfterChild(c, v, to), v, p, x, w) && w < |g| && c.tin[w] == AfterChild(c, v, to).fup[v]
  {
    ChildFresh(g, b, m, c, v, to, stack);
    var t := AfterChild(c, v, to);
    assert Fresh(b, t) == Fresh(b, c);
    if c.fup[to] < c.fup[v] {
      var x: nat, w: nat :| BackEdge(g, m, c, to, v, x, w) && w < |g| && c.tin[w] == c.fup[to];
      ChildLowWitness(g, b, m, c, v, p, to, stack, x, w);
      assert BackEdge(g, b, t, v, p, x, w) && t.tin[w] == t.fup[v];
    } else {
      var x: nat, w: nat :| BackEdge(g, b, m, v, p, x, w) && w < |g| && m.tin[w] == m.fup[v];
      assert BackEdge(g, b, t, v, p, x, w) && t.tin[w] == t.fup[v];
    }
  }

  lemma ChildLow(g: Graph, b: Marks, m: Marks, c: Marks, v: nat, p: int, rest: set<nat>, to: nat, stack: seq<nat>)
    requires ChildDone(g, b, m, c, v, to, stack) && Low(g, b, m, v, p, rest)
    ensures to < |g| && Low(g, b, AfterChild(c, v, to), v, p, rest - {to})
  {
    ChildFresh(g, b, m, c, v, to, stack);
    var t := AfterChild(c, v, to);
    assert Fresh(b, t) == Fresh(b, c);
    if t.fup[v] < t.tin[v] {
      ChildLowReached(g, b, m, c, v, p, rest, to, stack);
    }
    forall x: nat, w: nat | BackEdge(g, b, t, v, p, x, w) && !(x == v && w in rest - {to}) && w < |g|
      ensures t.fup[v] <= t.tin[w]
    {
      if x in Fresh(m, c) {
        assert BackEdge(g, m, c, to, v, x, w);
      } else {
        assert BackEdge(g, b, m, v, p, x, w);
      }
    }
  }

  lemma ListedLater(b: Marks, m: Marks, c: Marks, x: nat, y: nat)
    requires Listed(b, m, x, y) && |m.bridges| <= |c.bridges| && c.bridges[..|m.bridges|] == m.bridges
    ensures Listed(b, c, x, y)
  {
    var i :| |b.bridges| <= i < |m.bridges| && SameEdge(x, y, m.bridges[i].0, m.bridges[i].1);
    assert c.bridges[i] == c.bridges[..|m.bridges|][i];
  }

  lemma ListedEarlier(b: Marks, m: Marks, c: Marks, x: nat, y: nat)
    requires Listed(m, c, x, y) && |b.bridges| <= |m.bridges|
    ensures Listed(b, c, x, y)
  {
    var i :| |m.bridges| <= i < |c.bridges| && SameEdge(x, y, c.bridges[i].0, c.bridges[i].1);
    assert |b.bridges| <= i < |c.bridges|;
  }

  lemma AfterChildBridges(c: Marks, v: nat, to: nat)
    requires v < |c.fup| == |c.tin| && to < |c.fup|
    ensures var t := AfterChild(c, v, to); |c.bridges| <= |t.bridges| && t.bridges[..|c.bridges|] == c.bridges
    ensures forall i :: 0 <= i < |c.bridges| ==> AfterChild(c, v, to).bridges[i] == c.bridges[i]
  {}

  /** A bridge between a vertex entered before the child and one below it is the edge to the child. */
  lemma BridgeToSubtree(g: Graph, b: Marks, m: Marks, c: Marks, v: nat, to: nat, stack: seq<nat>, x: nat, y: nat)
    requires ChildDone(g, b, m, c, v, to, stack) && x in Fresh(b, m) && y in Fresh(m, c) && IsBridge(g, x, y)
    ensures x == v && y == to && to < |c.fup| && c.fup[to] > c.tin[v]
  {
    ChildFresh(g, b, m, c, v, to, stack);
    EarlierNeighbourIsOnStack(g, m, c, stack + [v], y, x);
    assert x !in stack;
    if y != to {
      OtherEdgeToSubtree(g, b, m, c, v, to, stack, y);
    }
    ChildTest(g, b, m, c, v, to, stack);
  }

  lemma ChildComplete(g: Graph, b: Marks, m: Marks, c: Marks, v: nat, to: nat, stack: seq<nat>, x: nat, y: nat)
    requires ChildDone(g, b, m, c, v, to, stack) && to < |g|
    requires x in Fresh(b, c) && y in Fresh(b, c) && IsBridge(g, x, y)
    ensures Listed(b, AfterChild(c, v, to), x, y)
  {
    ChildFresh(g, b, m, c, v, to, stack);
    var t := AfterChild(c, v, to);
    AfterChildBridges(c, v, to);
    if x in Fresh(b, m) && y in Fresh(b, m) {
      ListedLater(b, m, c, x, y);
      ListedLater(b, c, t, x, y);
    } else if x in Fresh(m, c) && y in Fresh(m, c) {
      ListedEarlier(b, m, c, x, y);
      ListedLater(b, c, t, x, y);
    } else {
      if x in Fresh(b, m) {
        BridgeToSubtree(g, b, m, c, v, to, stack, x, y);
      } else {
        BridgeIsSymmetric(g, x, y);
        BridgeToSubtree(g, b, m, c, v, to, stack, y, x);
      }
      assert t.bridges[|c.bridges|] == (v, to);
    }
  }

  /** An entry recorded before the child's call. */
  lemma SoundEarlier(g: Graph, b: Marks, m: Marks, c: Marks, v: nat, to: nat, stack: seq<nat>, i: nat)
    requires ChildDone(g, b, m, c, v, to, stack) && to < |g| && |b.bridges| <= i < |m.bridges|
    ensures c.bridges[i] == m.bridges[i] && c.bridges[i].1 in Fresh(b, m)
    ensures NewBridge(g, b, c, v, c.bridges[i])
  {
    ChildFresh(g, b, m, c, v, to, stack);
    assert c.bridges[i] == c.bridges[..|m.bridges|][i];
    assert NewBridge(g, b, m, v, m.bridges[i]);
    assert Used(m, m.bridges[i].0) && Used(m, m.bridges[i].1);
  }

  /** An entry recorded during the child's call. */
  lemma SoundBelow(g: Graph, b: Marks, m: Marks, c: Marks, v: nat, to: nat, stack: seq<nat>, i: nat)
    requires ChildDone(g, b, m, c, v, to, stack) && to < |g| && |m.bridges| <= i < |c.bridges|
    ensures c.bridges[i].1 in Fresh(m, c) - {to}
    ensures NewBridge(g, b, c, v, c.bridges[i])
  {
    ChildFresh(g, b, m, c, v, to, stack);
    assert NewBridge(g, m, c, to, c.bridges[i]);
  }

  lemma NewBridgeAfterChild(g: Graph, b: Marks, c: Marks, v: nat, to: nat, e: (nat, nat))
    requires Sized(g, c) && v < |g| && to < |g| && NewBridge(g, b, c, v, e)
    ensures NewBridge(g, b, AfterChild(c, v, to), v, e)
  {
    assert Fresh(b, AfterChild(c, v, to)) == Fresh(b, c);
  }

  /** Which part of the list an entry comes from. */
  lemma ChildSound(g: Graph, b: Marks, m: Marks, c: Marks, v: nat, to: nat, stack: seq<nat>, i: nat)
    requires ChildDone(g, b, m, c, v, to, stack) && to < |g|
    requires |b.bridges| <= i < |AfterChild(c, v, to).bridges|
    ensures NewBridge(g, b, AfterChild(c, v, to), v, AfterChild(c, v, to).bridges[i])
    ensures i < |m.bridges| ==> AfterChild(c, v, to).bridges[i].1 in Fresh(b, m)
    ensures |m.bridges| <= i < |c.bridges| ==> AfterChild(c, v, to).bridges[i].1 in Fresh(m, c) - {to}
    ensures |c.bridges| <= i ==> AfterChild(c, v, to).bridges[i].1 == to
  {
    AfterChildBridges(c, v, to);
    if i < |c.bridges| {
      if i < |m.bridges| {
        SoundEarlier(g, b, m, c, v, to, stack, i);
      } else {
        SoundBelow(g, b, m, c, v, to, stack, i);
      }
      NewBridgeAfterChild(g, b, c, v, to, c.bridges[i]);
    } else {
      ChildFresh(g, b, m, c, v, to, stack);
      ChildTest(g, b, m, c, v, to, stack);
      NewBridgeAfterChild(g, b, c, v, to, (v, to));
    }
  }

  lemma ChildOnce(g: Graph, b: Marks, m: Marks, c: Marks, v: nat, to: nat, stack: seq<nat>, i: nat, j: nat)
    requires ChildDone(g, b, m, c, v, to, stack) && to < |g|
    requires |b.bridges| <= i < j < |AfterChild(c, v, to).bridges|
    ensures AfterChild(c, v, to).bridges[i].1 != AfterChild(c, v, to).bridges[j].1
  {
    ChildFresh(g, b, m, c, v, to, stack);
    ChildSound(g, b, m, c, v, to, stack, i);
    ChildSound(g, b, m, c, v, to, stack, j);
    AfterChildBridges(c, v, to);
    var t := AfterChild(c, v, to);
    if j < |m.bridges| {
      assert t.bridges[i] == c.bridges[..|m.bridges|][i] == m.bridges[i];
      assert t.bridges[j] == c.bridges[..|m.bridges|][j] == m.bridges[j];
    } else if |m.bridges| <= i && j < |c.bridges| {
      assert t.bridges[i] == c.bridges[i] && t.bridges[j] == c.bridges[j];
    }
  }

  /** Everything recorded so far is a bridge, once. */
  lemma ChildAllSound(g: Graph, b: Marks, m: Marks, c: Marks, v: nat, to: nat, stack: seq<nat>)
    requires ChildDone(g, b, m, c, v, to, stack) && to < |g|
    ensures var t := AfterChild(c, v, to);
      && (forall i :: |b.bridges| <= i < |t.bridges| ==> NewBridge(g, b, t, v, t.bridges[i]))
      && (forall i, j :: |b.bridges| <= i < j < |t.bridges| ==> t.bridges[i].1 != t.bridges[j].1)
  {
    var t := AfterChild(c, v, to);
    forall i | |b.bridges| <= i < |t.bridges|
      ensures NewBridge(g, b, t, v, t.bridges[i])
    {
      ChildSound(g, b, m, c, v, to, stack, i);
    }
    forall i, j | |b.bridges| <= i < j < |t.bridges|
      ensures t.bridges[i].1 != t.bridges[j].1
    {
      ChildOnce(g, b, m, c, v, to, stack, i, j);
    }
  }

  lemma ChildRecorded(g: Graph, b: Marks, m: Marks, c: Marks, v: nat, to: nat, stack: seq<nat>)
    requires ChildDone(g, b, m, c, v, to, stack)
    ensures to < |g| && Recorded(g, b, AfterChild(c, v, to), v)
  {
    ChildGrown(g, b, m, c, v, to, stack);
    var t := AfterChild(c, v, to);
    AfterChildBridges(c, v, to);
    ChildAllSound(g, b, m, c, v, to, stack);
    forall x, y | x in Fresh(b, t) && y in Fresh(b, t) && IsBridge(g, x, y)
      ensures Listed(b, t, x, y)
    {
      ChildComplete(g, b, m, c, v, to, stack, x, y);
    }
    assert t.bridges[..|b.bridges|] == c.bridges[..|m.bridges|][..|b.bridges|];
  }

  lemma LoweredRecorded(g: Graph, b: Marks, m: Marks, v: nat, reach: int)
    requires v < |m.fup| && Recorded(g, b, m, v)
    ensures Recorded(g, b, Lower(m, v, reach), v)
  {
    var t := Lower(m, v, reach);
    assert Fresh(b, t) == Fresh(b, m);
    forall i | |b.bridges| <= i < |t.bridges|
      ensures NewBridge(g, b, t, v, t.bridges[i])
    {
      assert NewBridge(g, b, m, v, m.bridges[i]);
    }
    forall x, y | x in Fresh(b, t) && y in Fresh(b, t) && IsBridge(g, x, y)
      ensures Listed(b, t, x, y)
    {
      assert Listed(b, m, x, y);
      var i :| |b.bridges| <= i < |m.bridges| && SameEdge(x, y, m.bridges[i].0, m.bridges[i].1);
      assert SameEdge(x, y, t.bridges[i].0, t.bridges[i].1);
    }
  }

  /** Marks that differ in fup[v] alone. */
  lemma LoweredKeeps(g: Graph, b: Marks, m: Marks, v: nat, stack: seq<nat>, reach: int)
    requires Grown(g, b, m, v) && v < |g|
    ensures Grown(g, b, Lower(m, v, reach), v)
    ensures Inv(g, m, stack) ==> Inv(g, Lower(m, v, reach), stack)
    ensures Recorded(g, b, m, v) ==> Recorded(g, b, Lower(m, v, reach), v)
  {
    assert Fresh(b, Lower(m, v, reach)) == Fresh(b, m);
    if Recorded(g, b, m, v) {
      LoweredRecorded(g, b, m, v, reach);
    }
  }

  /** The call for v, with the neighbours in `rest` still to be looked at. */
  ghost predicate Scanning(g: Graph, b: Marks, m: Marks, v: nat, p: int, rest: set<nat>, stack: seq<nat>) {
    && Inv(g, b, stack) && Inv(g, m, stack + [v]) && Grown(g, b, m, v)
    && Low(g, b, m, v, p, rest) && Recorded(g, b, m, v)
    && rest <= g[v] && LookedAt(g, m.used, v, rest)
  }

  /** All neighbours of v outside `rest` have been entered. */
  ghost predicate LookedAt(g: Graph, used: seq<bool>, v: nat, rest: set<nat>) {
    v < |g| && forall w :: w in g[v] && w !in rest ==> w < |used| && used[w]
  }

  lemma ScanStarts(g: Graph, b: Marks, v: nat, p: int, stack: seq<nat>)
    requires Inv(g, b, stack) && v < |g| && !b.used[v]
    requires stack != [] ==> v in g[stack[|stack| - 1]]
    ensures Scanning(g, b, Enter(b, v), v, p, g[v], stack)
    ensures |Unused(Enter(b, v))| < |Unused(b)|
  {
    EnteredInv(g, b, v, stack);
    EnteredRest(g, b, v, p);
    assert Unused(Enter(b, v)) == Unused(b) - {v} && v in Unused(b);
  }

  lemma ScanParent(g: Graph, b: Marks, m: Marks, v: nat, p: int, rest: set<nat>, stack: seq<nat>, to: nat)
    requires Scanning(g, b, m, v, p, rest, stack) && to in rest && to == p && Used(b, to)
    ensures Scanning(g, b, m, v, p, rest - {to}, stack)
  {
    SeenParent(g, b, m, v, p, rest, to);
  }

  lemma ScanUsed(g: Graph, b: Marks, m: Marks, v: nat, p: int, rest: set<nat>, stack: seq<nat>, to: nat)
    requires Scanning(g, b, m, v, p, rest, stack) && to in rest && to != p && Used(m, to)
    ensures Scanning(g, b, Lower(m, v, m.tin[to]), v, p, rest - {to}, stack)
  {
    SeenUsed(g, b, m, v, p, rest, to);
    LoweredKeeps(g, b, m, v, stack + [v], m.tin[to]);
  }

  lemma ScanChild(g: Graph, b: Marks, m: Marks, c: Marks, v: nat, p: int, rest: set<nat>, stack: seq<nat>, to: nat)
    requires Scanning(g, b, m, v, p, rest, stack) && to in rest && ChildDone(g, b, m, c, v, to, stack)
    ensures to < |g| && Scanning(g, b, AfterChild(c, v, to), v, p, rest - {to}, stack)
  {
    ChildGrown(g, b, m, c, v, to, stack);
    ChildLow(g, b, m, c, v, p, rest, to, stack);
    ChildRecorded(g, b, m, c, v, to, stack);
    ScanChildUsed(g, b, m, c, v, rest, stack, to);
  }

  lemma ScanChildUsed(g: Graph, b: Marks, m: Marks, c: Marks, v: nat, rest: set<nat>, stack: seq<nat>, to: nat)
    requires ChildDone(g, b, m, c, v, to, stack) && to < |g|
    requires LookedAt(g, m.used, v, rest)
    ensures LookedAt(g, c.used, v, rest - {to})
  {
    assert to in Fresh(m, c);
    forall w | w in g[v] && w !in rest - {to}
      ensures w < |c.used| && c.used[w]
    {
      assert w != to ==> Used(m, w);
    }
  }

  /** With all neighbours looked at, v is finished. */
  lemma ScanEnds(g: Graph, b: Marks, m: Marks, v: nat, p: int, stack: seq<nat>)
    requires Scanning(g, b, m, v, p, {}, stack)
    ensures Inv(g, m, stack)
  {
    forall i | 0 <= i < |stack|
      ensures Used(m, stack[i])
    {
      assert (stack + [v])[i] == stack[i];
    }
  }

  /** The vertices not entered yet. */
  ghost function Unused(m: Marks): set<nat> {
    set x | 0 <= x < |m.used| && !m.used[x]
  }

  lemma UnusedShrinks(m: Marks, c: Marks)
    requires |m.used| == |c.used| && forall x: nat :: Used(m, x) ==> Used(c, x)
    ensures |Unused(c)| <= |Unused(m)|
  {
    forall x | x in Unused(c)
      ensures x in Unused(m)
    {
      assert Used(m, x) ==> Used(c, x);
    }
    SubsetSize(Unused(c), Unused(m));
  }

  lemma {:induction false} SubsetSize(a: set<nat>, b: set<nat>)
    requires a <= b
    ensures |a| <= |b|
    decreases |a|
  {
    if a != {} {
      var x :| x in a;
      SubsetSize(a - {x}, b - {x});
    }
  }

  // ---------- the order of entry and the tree of calls ----------

  /**
   `order` lists the vertices as their calls began, and `tin` is the place in it; `parents` holds the
   second argument of each call. Whatever is recorded is an edge from a parent to its child.
   */
  ghost predicate Traced(m: Marks, order: seq<nat>, parents: seq<int>) {
    && |m.used| == |m.tin| == |parents| && |order| == m.timer
    && (forall k :: 0 <= k < |order| ==> Used(m, order[k]) && m.tin[order[k]] == k)
    && (forall x: nat :: Used(m, x) ==> 0 <= m.tin[x] < |order| && order[m.tin[x]] == x)
    && (forall i :: 0 <= i < |m.bridges| ==> Used(m, m.bridges[i].1) && parents[m.bridges[i].1] == m.bridges[i].0)
  }

  /** The calls begun before b have the parents they had. */
  ghost predicate SameParents(b: Marks, before: seq<int>, parents: seq<int>) {
    |parents| == |before| == |b.used| && forall x: nat :: Used(b, x) ==> parents[x] == before[x]
  }

  lemma TracedEnter(m: Marks, order: seq<nat>, parents: seq<int>, v: nat, p: int)
    requires Traced(m, order, parents) && v < |m.used| == |m.fup| && !m.used[v]
    ensures Traced(Enter(m, v), order + [v], parents[v := p]) && SameParents(m, parents, parents[v := p])
  {
    var t := Enter(m, v);
    forall x: nat | Used(t, x)
      ensures 0 <= t.tin[x] < |order| + 1 && (order + [v])[t.tin[x]] == x
    {
      assert x != v ==> Used(m, x);
    }
  }

  lemma TracedAfterChild(c: Marks, order: seq<nat>, parents: seq<int>, v: nat, to: nat)
    requires Traced(c, order, parents) && v < |c.fup| == |c.tin| && Used(c, to) && parents[to] == v
    ensures Traced(AfterChild(c, v, to), order, parents)
  {
    var t := AfterChild(c, v, to);
    forall i | 0 <= i < |t.bridges|
      ensures Used(t, t.bridges[i].1) && parents[t.bridges[i].1] == t.bridges[i].0
    {
      assert i < |c.bridges| ==> t.bridges[i] == c.bridges[i] && Used(c, c.bridges[i].1);
    }
  }

  lemma SameParentsLater(b: Marks, m: Marks, p0: seq<int>, p1: seq<int>, p2: seq<int>)
    requires SameParents(b, p0, p1) && SameParents(m, p1, p2) && forall x: nat :: Used(b, x) ==> Used(m, x)
    ensures SameParents(b, p0, p2)
  {}

  class Search {
    const g: Graph
    var used: seq<bool>
    var tin: seq<int>
    var fup: seq<int>
    var timer: int
    var bridges: seq<(nat, nat)>
    ghost var order: seq<nat>
    ghost var parents: seq<int>

    constructor (g: Graph)
      ensures this.g == g && Now() == Marks(used, tin, fup, 0, []) && Traced(Now(), order, parents)
      ensures used == seq(|g|, _ => false) && |tin| == |fup| == |g|
    {
      this.g := g;
      used := seq(|g|, _ => false);
      tin := seq(|g|, _ => 0);
      fup := seq(|g|, _ => 100000000);
      timer := 0;
      bridges := [];
      order := [];
      parents := seq(|g|, _ => -1);
    }

    ghost function Now(): Marks
      reads this
    {
      Marks(used, tin, fup, timer, bridges)
    }

    method EnterVertex(v: nat, ghost p: int)
      requires v < |used| == |tin| == |fup| && !used[v] && Traced(Now(), order, parents)
      modifies this
      ensures Now() == Enter(old(Now()), v) && |Unused(Now())| < |Unused(old(Now()))|
      ensures Traced(Now(), order, parents) && parents == old(parents)[v := p]
      ensures SameParents(old(Now()), old(parents), parents)
    {
      ghost var b := Now();
      TracedEnter(b, order, parents, v, p);
      order, parents := order + [v], parents[v := p];
      used := used[v := true];
      tin := tin[v := timer];
      fup := fup[v := timer];
      timer := timer + 1;
      assert Unused(Now()) == Unused(b) - {v} && v in Unused(b);
    }

    /** A neighbour that has been entered already: the minimum with its time of entry. */
    method LowerTo(v: nat, to: nat)
      requires v < |fup| && to < |tin| && Traced(Now(), order, parents)
      modifies this`fup
      ensures Now() == Lower(old(Now()), v, tin[to]) && Traced(Now(), order, parents)
      ensures |Unused(Now())| == |Unused(old(Now()))|
    {
      ghost var b := Now();
      fup := fup[v := Min(fup[v], tin[to])];
      assert Unused(Now()) == Unused(b);
    }

    /** After the child's call: the minimum with its fup, and the test that records the edge. */
    method LeaveChild(v: nat, to: nat)
      requires v < |fup| == |tin| && to < |fup|
      requires Traced(Now(), order, parents) && Used(Now(), to) && parents[to] == v
      modifies this`fup, this`bridges
      ensures Now() == AfterChild(old(Now()), v, to) && Traced(Now(), order, parents)
    {
      TracedAfterChild(Now(), order, parents, v, to);
      fup := fup[v := Min(fup[v], fup[to])];
      if fup[to] > tin[v] {
        bridges := bridges + [(v, to)];
      }
    }

    /**
     After the call everything reachable without the stack has been entered, fup[v] is exact, and
     the bridges among the vertices entered have been recorded.
     */
    method DfsBridges(v: nat, p: int, ghost stack: seq<nat>)
      requires Inv(g, Now(), stack) && v < |g| && !used[v] && Traced(Now(), order, parents)
      requires if stack == [] then p == -1 else p == stack[|stack| - 1] && v in g[stack[|stack| - 1]]
      modifies this
      ensures Inv(g, Now(), stack) && Grown(g, old(Now()), Now(), v)
      ensures Low(g, old(Now()), Now(), v, p, {}) && Recorded(g, old(Now()), Now(), v)
      ensures Traced(Now(), order, parents) && SameParents(old(Now()), old(parents), parents) && parents[v] == p
      decreases |Unused(Now())|, 0
    {
      ghost var b := Now();
      ScanStarts(g, b, v, p, stack);
      EnterVertex(v, p);
      var rest := g[v];
      while rest != {}
        invariant Scanning(g, b, Now(), v, p, rest, stack)
        invariant |Unused(Now())| < |Unused(b)|
        invariant Traced(Now(), order, parents) && SameParents(b, old(parents), parents) && parents[v] == p
        decreases |rest|
      {
        var to :| to in rest;
        ghost var m, before := Now(), parents;
        LookAt(v, to, p, b, rest, stack);
        SameParentsLater(b, m, old(parents), before, parents);
        assert Used(m, v);
        rest := rest - {to};
      }
      ScanEnds(g, b, Now(), v, p, stack);
    }

    /** One turn of the loop over the neighbours of v. */
    method LookAt(v: nat, to: nat, p: int, ghost b: Marks, ghost rest: set<nat>, ghost stack: seq<nat>)
      requires Scanning(g, b, Now(), v, p, rest, stack) && to in rest
      requires if stack == [] then p == -1 else p == stack[|stack| - 1]
      requires Traced(Now(), order, parents)
      modifies this
      ensures Scanning(g, b, Now(), v, p, rest - {to}, stack)
      ensures |Unused(Now())| <= |Unused(old(Now()))|
      ensures Traced(Now(), order, parents) && SameParents(old(Now()), old(parents), parents)
      decreases |Unused(Now())|, 2
    {
      if to == p {
        ScanParent(g, b, Now(), v, p, rest, stack, to);
      } else if used[to] {
        ScanUsed(g, b, Now(), v, p, rest, stack, to);
        LowerTo(v, to);
      } else {
        VisitChild(v, to, p, b, rest, stack);
      }
    }

    method VisitChild(v: nat, to: nat, p: int, ghost b: Marks, ghost rest: set<nat>, ghost stack: seq<nat>)
      requires Scanning(g, b, Now(), v, p, rest, stack) && to in rest && !Used(Now(), to)
      requires Traced(Now(), order, parents)
      modifies this
      ensures Scanning(g, b, Now(), v, p, rest - {to}, stack)
      ensures |Unused(Now())| <= |Unused(old(Now()))|
      ensures Traced(Now(), order, parents) && SameParents(old(Now()), old(parents), parents)
      decreases |Unused(Now())|, 1
    {
      ghost var m := Now();
      assert (stack + [v])[|stack + [v]| - 1] == v;
      DfsBridges(to, v, stack + [v]);
      ghost var c := Now();
      UnusedShrinks(m, c);
      ScanChild(g, b, m, c, v, p, rest, stack, to);
      LeaveChild(v, to);
    }

    /** One search of the driver loop. */
    method SearchFrom(i: nat)
      requires Searched(g, Now()) && i < |g| && !used[i] && Traced(Now(), order, parents)
      modifies this
      ensures Searched(g, Now()) && Used(Now(), i) && forall x: nat :: Used(old(Now()), x) ==> Used(Now(), x)
      ensures Traced(Now(), order, parents)
    {
      ghost var b := Now();
      DfsBridges(i, -1, []);
      ComponentSearched(g, b, Now(), i);
    }

    /**
     The driver: afterwards `bridges` holds exactly the bridges of the graph, each once, as pairs of a
     parent and its child in the tree of calls. `order` lists every vertex once, as the calls began.
     */
    method FindBridges()
      requires IsGraph(g) && Sized(g, Now()) && Now() == Marks(seq(|g|, _ => false), tin, fup, 0, [])
      requires Traced(Now(), order, parents)
      modifies this
      ensures |tin| == |parents| == |g| && forall e :: e in bridges ==> e.1 < |g| && parents[e.1] == e.0
      ensures forall k :: 0 <= k < |order| ==> order[k] < |g| && tin[order[k]] == k
      ensures forall x :: 0 <= x < |g| ==> 0 <= tin[x] < |order| && order[tin[x]] == x
      ensures forall e :: e in bridges ==> IsBridge(g, e.0, e.1) && tin[e.0] < tin[e.1]
      ensures forall x: nat, y: nat :: IsBridge(g, x, y) ==> exists e :: e in bridges && SameEdge(x, y, e.0, e.1)
      ensures forall i, j | 0 <= i < j < |bridges| :: !SameEdge(bridges[i].0, bridges[i].1, bridges[j].0, bridges[j].1)
    {
      for i := 0 to |g|
        invariant Searched(g, Now()) && forall x :: 0 <= x < i ==> Used(Now(), x)
        invariant Traced(Now(), order, parents)
      {
        if !used[i] {
          SearchFrom(i);
        }
      }
      AllSearched(g, Now());
    }
  }

  /** Between calls from the driver: the bridges among the vertices entered are listed, each once. */
  ghost predicate Searched(g: Graph, m: Marks) {
    && Inv(g, m, [])
    && (forall i :: 0 <= i < |m.bridges| ==> GoodBridge(g, m, m.bridges[i]))
    && (forall i, j :: 0 <= i < j < |m.bridges| ==> m.bridges[i].1 != m.bridges[j].1)
    && (forall x, y :: Used(m, x) && Used(m, y) && IsBridge(g, x, y) ==> InList(m, x, y))
  }

  ghost predicate GoodBridge(g: Graph, m: Marks, e: (nat, nat)) {
    Sized(g, m) && Used(m, e.0) && Used(m, e.1) && m.tin[e.0] < m.tin[e.1] && IsBridge(g, e.0, e.1)
  }

  ghost predicate InList(m: Marks, x: nat, y: nat) {
    exists i :: 0 <= i < |m.bridges| && SameEdge(x, y, m.bridges[i].0, m.bridges[i].1)
  }

  /** One more component. */
  lemma ComponentSearched(g: Graph, b: Marks, m: Marks, v: nat)
    requires Searched(g, b) && Inv(g, m, []) && Grown(g, b, m, v) && Recorded(g, b, m, v)
    ensures Searched(g, m)
  {
    forall i | 0 <= i < |m.bridges|
      ensures GoodBridge(g, m, m.bridges[i])
      ensures if i < |b.bridges| then Used(b, m.bridges[i].1) else m.bridges[i].1 in Fresh(b, m)
    {
      if i < |b.bridges| {
        assert m.bridges[i] == m.bridges[..|b.bridges|][i];
        assert GoodBridge(g, b, b.bridges[i]);
      } else {
        assert NewBridge(g, b, m, v, m.bridges[i]);
      }
    }
    forall i, j | 0 <= i < j < |m.bridges|
      ensures m.bridges[i].1 != m.bridges[j].1
    {
      if j < |b.bridges| {
        assert m.bridges[i] == m.bridges[..|b.bridges|][i] && m.bridges[j] == m.bridges[..|b.bridges|][j];
      }
    }
    forall x, y | Used(m, x) && Used(m, y) && IsBridge(g, x, y)
      ensures InList(m, x, y)
    {
      ComponentComplete(g, b, m, v, x, y);
    }
  }

  lemma ComponentComplete(g: Graph, b: Marks, m: Marks, v: nat, x: nat, y: nat)
    requires Searched(g, b) && Sized(g, m) && Grown(g, b, m, v) && Recorded(g, b, m, v)
    requires Used(m, x) && Used(m, y) && IsBridge(g, x, y)
    ensures InList(m, x, y)
  {
    if Used(b, x) || Used(b, y) {
      assert x in g[y];
      assert Used(b, x) && Used(b, y);
      assert InList(b, x, y);
      var i :| 0 <= i < |b.bridges| && SameEdge(x, y, b.bridges[i].0, b.bridges[i].1);
      assert m.bridges[i] == m.bridges[..|b.bridges|][i];
    } else {
      assert Listed(b, m, x, y);
      var i :| |b.bridges| <= i < |m.bridges| && SameEdge(x, y, m.bridges[i].0, m.bridges[i].1);
    }
  }

  lemma AllSearched(g: Graph, m: Marks)
    requires Searched(g, m) && forall x :: 0 <= x < |g| ==> Used(m, x)
    ensures forall e :: e in m.bridges ==> IsBridge(g, e.0, e.1) && e.1 < |g| && m.tin[e.0] < m.tin[e.1]
    ensures forall x: nat, y: nat :: IsBridge(g, x, y) ==> exists e :: e in m.bridges && SameEdge(x, y, e.0, e.1)
    ensures forall i, j | 0 <= i < j < |m.bridges| ::
      !SameEdge(m.bridges[i].0, m.bridges[i].1, m.bridges[j].0, m.bridges[j].1)
  {
    forall e | e in m.bridges
      ensures GoodBridge(g, m, e)
    {
      var i :| 0 <= i < |m.bridges| && m.bridges[i] == e;
    }
    forall x: nat, y: nat | IsBridge(g, x, y)
      ensures exists e :: e in m.bridges && SameEdge(x, y, e.0, e.1)
    {
      assert y < |g|;
      assert InList(m, x, y);
      var i :| 0 <= i < |m.bridges| && SameEdge(x, y, m.bridges[i].0, m.bridges[i].1);
      assert m.bridges[i] in m.bridges;
    }
    forall i, j | 0 <= i < j < |m.bridges|
      ensures !SameEdge(m.bridges[i].0, m.bridges[i].1, m.bridges[j].0, m.bridges[j].1)
    {
      assert GoodBridge(g, m, m.bridges[i]) && GoodBridge(g, m, m.bridges[j]);
    }
  }
}
