/**
 Dijkstra's algorithm as in 8-seminar-graph/dijkstra.cpp: repeatedly mark the unmarked vertex with
 the least answer and relax its edges, in 32-bit unsigned arithmetic, UINT_MAX standing for "not
 reached".
 */
module ShortestPaths {

  const UINT_MAX: nat := 0xFFFF_FFFF

  /** Addition of C++ unsigned values. */
  function AddUnsigned(a: nat, b: nat): nat {
    (a + b) % (UINT_MAX + 1)
  }

  datatype Edge = Edge(a: nat, b: nat, length: nat)

  /** For each vertex its edges as (target, length). */
  type Graph = seq<seq<(nat, nat)>>

  /** An input edge may be used in both directions. */
  ghost predicate Linked(es: seq<Edge>, u: nat, w: nat, l: nat) {
    Edge(u, w, l) in es || Edge(w, u, l) in es
  }

  predicate InRange(g: Graph) {
    forall u, i :: 0 <= u < |g| && 0 <= i < |g[u]| ==> g[u][i].0 < |g|
  }

  method BuildGraph(n: nat, es: seq<Edge>) returns (g: Graph)
    requires forall i :: 0 <= i < |es| ==> es[i].a < n && es[i].b < n
    ensures |g| == n && InRange(g)
    ensures forall u: nat, w: nat, l: nat :: u < n ==> ((w, l) in g[u] <==> Linked(es, u, w, l))
  {
    g := seq(n, _ => []);
    for i := 0 to |es|
      invariant |g| == n && InRange(g)
      invariant forall u: nat, w: nat, l: nat :: u < n ==> ((w, l) in g[u] <==> Linked(es[..i], u, w, l))
    {
      var e := es[i];
      assert es[..i + 1] == es[..i] + [e];
      g := g[e.a := g[e.a] + [(e.b, e.length)]];
      g := g[e.b := g[e.b] + [(e.a, e.length)]];
    }
    assert es[..|es|] == es;
  }

  // ---------- distances ----------

  /** Some walk of k edges from s to v has length d. */
  ghost predicate Reaches(g: Graph, s: nat, v: nat, d: nat, k: nat)
    decreases k, 0
  {
    if k == 0 then v == s && d == 0
    else exists u: nat, l: nat :: LastEdge(g, s, v, d, k, u, l)
  }

  ghost predicate LastEdge(g: Graph, s: nat, v: nat, d: nat, k: nat, u: nat, l: nat)
    requires k > 0
    decreases k - 1, 1
  {
    u < |g| && (v, l) in g[u] && l <= d && Reaches(g, s, u, d - l, k - 1)
  }

  ghost predicate Reachable(g: Graph, s: nat, v: nat) {
    exists d: nat, k: nat :: Reaches(g, s, v, d, k)
  }

  ghost predicate Attained(g: Graph, s: nat, v: nat, d: nat) {
    exists k: nat :: Reaches(g, s, v, d, k)
  }

  /** d is the length of a walk to v, and no walk to v is shorter. */
  ghost predicate IsDistance(g: Graph, s: nat, v: nat, d: nat) {
    Attained(g, s, v, d) && forall e: nat :: Attained(g, s, v, e) ==> d <= e
  }

  /** Lengths are C++ unsigned values. */
  predicate Unsigned(g: Graph) {
    forall u, i :: 0 <= u < |g| && 0 <= i < |g[u]| ==> g[u][i].1 <= 0xffff_ffff
  }

  /** An edge of length l from a vertex at distance d: the sum fits, or wraps to no less than w's distance. */
  ghost predicate Harmless(g: Graph, s: nat, d: nat, w: nat, l: nat) {
    || d + l < 0xffff_ffff
    || exists e: nat :: IsDistance(g, s, w, e) && e < 0xffff_ffff && e <= (d + l) % 0x1_0000_0000
  }

  /** No edge out of a vertex that can be reached does any harm by wrapping around. */
  ghost predicate NoHarm(g: Graph, s: nat) {
    forall u: nat, d: nat, i: nat :: u < |g| && i < |g[u]| && IsDistance(g, s, u, d) ==>
      Harmless(g, s, d, g[u][i].0, g[u][i].1)
  }

  /** One edge more than a shortest walk still fits below UINT_MAX: then nothing wraps at all. */
  ghost predicate NoOverflow(g: Graph, s: nat) {
    forall u: nat, d: nat, i: nat :: u < |g| && i < |g[u]| && IsDistance(g, s, u, d) ==> d + g[u][i].1 < 0xffff_ffff
  }

  lemma OneDistance(g: Graph, s: nat, v: nat, d: nat, e: nat)
    requires IsDistance(g, s, v, d) && IsDistance(g, s, v, e)
    ensures d == e
  {}

  /** Whatever can be reached has a distance. */
  lemma {:induction false} DistanceExists(g: Graph, s: nat, v: nat, d: nat) returns (e: nat)
    requires Attained(g, s, v, d)
    ensures IsDistance(g, s, v, e) && e <= d
    decreases d
  {
    if IsDistance(g, s, v, d) {
      return d;
    }
    var f: nat :| Attained(g, s, v, f) && f < d;
    e := DistanceExists(g, s, v, f);
  }

  // ---------- what the loop keeps ----------

  /** Answers are lengths of walks; the edges of marked vertices are relaxed; marked come first. */
  ghost predicate Settled(g: Graph, s: nat, answer: seq<nat>, marked: seq<bool>) {
    && |answer| == |marked| == |g| && InRange(g) && s < |g| && answer[s] == 0
    && (forall v :: 0 <= v < |g| ==> answer[v] <= UINT_MAX)
    && (forall v: nat :: v < |g| && answer[v] < UINT_MAX ==> Attained(g, s, v, answer[v]))
    && (forall m: nat :: m < |g| && marked[m] ==> answer[m] < UINT_MAX && Relaxed(g, answer, m))
    && (forall m, u :: 0 <= m < |g| && 0 <= u < |g| && marked[m] && !marked[u] ==> answer[m] <= answer[u])
  }

  ghost predicate Relaxed(g: Graph, answer: seq<nat>, m: nat)
    requires m < |g| == |answer| && InRange(g)
  {
    forall i :: 0 <= i < |g[m]| ==> answer[g[m][i].0] <= answer[m] + g[m][i].1
  }

  /** A walk is at least as long as the answer at its end, or as the least unmarked answer. */
  lemma {:induction false} WalksAreLong(g: Graph, s: nat, answer: seq<nat>, marked: seq<bool>, bound: nat,
                                        v: nat, d: nat, k: nat)
    requires Settled(g, s, answer, marked) && Reaches(g, s, v, d, k)
    requires forall u :: 0 <= u < |g| && !marked[u] ==> bound <= answer[u]
    ensures v < |g| && (answer[v] <= d || bound <= d)
    decreases k
  {
    if k > 0 {
      var u: nat, l: nat :| LastEdge(g, s, v, d, k, u, l);
      WalksAreLong(g, s, answer, marked, bound, u, d - l, k - 1);
      var i :| 0 <= i < |g[u]| && g[u][i] == (v, l);
      assert marked[u] ==> Relaxed(g, answer, u);
    }
  }

  /** Answers up to the least unmarked one are distances. */
  lemma LeastIsDistance(g: Graph, s: nat, answer: seq<nat>, marked: seq<bool>, bound: nat, v: nat)
    requires Settled(g, s, answer, marked) && v < |g| && answer[v] <= bound && answer[v] < UINT_MAX
    requires forall u :: 0 <= u < |g| && !marked[u] ==> bound <= answer[u]
    ensures IsDistance(g, s, v, answer[v])
  {
    forall e: nat | Attained(g, s, v, e)
      ensures answer[v] <= e
    {
      var k: nat :| Reaches(g, s, v, e, k);
      WalksAreLong(g, s, answer, marked, bound, v, e, k);
    }
  }

  /** The edges of marked vertices were harmless. */
  ghost predicate MarkedHarmless(g: Graph, s: nat, answer: seq<nat>, marked: seq<bool>)
    requires |answer| == |marked| == |g|
  {
    forall m: nat, i: nat :: m < |g| && marked[m] && i < |g[m]| ==> Harmless(g, s, answer[m], g[m][i].0, g[m][i].1)
  }

  /** All is well so far. */
  ghost predicate Good(g: Graph, s: nat, answer: seq<nat>, marked: seq<bool>) {
    Settled(g, s, answer, marked) && MarkedHarmless(g, s, answer, marked)
  }

  /** Some answer is below the distance, or some distance is not below UINT_MAX. */
  ghost predicate Spoiled(g: Graph, s: nat, answer: seq<nat>) {
    |answer| == |g| && exists v: nat, e: nat :: v < |g| && IsDistance(g, s, v, e) && (answer[v] < e || UINT_MAX <= e)
  }

  /** Answers only go down, so this is for good. */
  lemma StaysSpoiled(g: Graph, s: nat, answer: seq<nat>, next: seq<nat>)
    requires Spoiled(g, s, answer) && |next| == |answer| && forall v :: 0 <= v < |g| ==> next[v] <= answer[v]
    ensures Spoiled(g, s, next)
  {
    var v: nat, e: nat :| v < |g| && IsDistance(g, s, v, e) && (answer[v] < e || UINT_MAX <= e);
    assert next[v] < e || UINT_MAX <= e;
  }

  ghost predicate Bad(g: Graph, s: nat, answer: seq<nat>) {
    Spoiled(g, s, answer) && !NoHarm(g, s)
  }

  /** With everything of a finite answer marked, whatever is reachable has a finite answer. */
  lemma {:induction false} ReachableIsFinite(g: Graph, s: nat, answer: seq<nat>, marked: seq<bool>,
                                             v: nat, d: nat, k: nat)
    requires Good(g, s, answer, marked) && Reaches(g, s, v, d, k)
    requires forall u :: 0 <= u < |g| && !marked[u] ==> answer[u] == UINT_MAX
    ensures v < |g| && answer[v] < UINT_MAX
    decreases k
  {
    if k > 0 {
      var u: nat, l: nat :| LastEdge(g, s, v, d, k, u, l);
      ReachableIsFinite(g, s, answer, marked, u, d - l, k - 1);
      var i :| 0 <= i < |g[u]| && g[u][i] == (v, l);
      assert Harmless(g, s, answer[u], v, l);
      if answer[u] + l < UINT_MAX {
        assert Relaxed(g, answer, u);
      } else {
        var e: nat :| IsDistance(g, s, v, e) && e < UINT_MAX;
        var k': nat :| Reaches(g, s, v, e, k');
        WalksAreLong(g, s, answer, marked, UINT_MAX, v, e, k');
      }
    }
  }

  /** What the program prints for a vertex. */
  ghost predicate IsAnswer(g: Graph, s: nat, v: nat, a: nat) {
    if Reachable(g, s, v) then IsDistance(g, s, v, a) && a < 0xffff_ffff else a == 0xffff_ffff
  }

  ghost predicate AllRight(g: Graph, s: nat, answer: seq<nat>) {
    |answer| == |g| && forall v: nat :: v < |g| ==> IsAnswer(g, s, v, answer[v])
  }

  lemma FinishedAnswers(g: Graph, s: nat, answer: seq<nat>, marked: seq<bool>)
    requires Good(g, s, answer, marked)
    requires forall u :: 0 <= u < |g| && !marked[u] ==> answer[u] == UINT_MAX
    ensures AllRight(g, s, answer)
  {
    forall v: nat | v < |g|
      ensures IsAnswer(g, s, v, answer[v])
    {
      if Reachable(g, s, v) {
        var d: nat, k: nat :| Reaches(g, s, v, d, k);
        ReachableIsFinite(g, s, answer, marked, v, d, k);
      }
      if answer[v] < UINT_MAX {
        LeastIsDistance(g, s, answer, marked, UINT_MAX, v);
        var k: nat :| Reaches(g, s, v, answer[v], k);
      }
    }
  }

  /** If the answers are right, every reachable vertex was marked at its distance, and its edges were harmless. */
  lemma FinishedHarmless(g: Graph, s: nat, answer: seq<nat>, marked: seq<bool>)
    requires Good(g, s, answer, marked) && AllRight(g, s, answer)
    requires forall u :: 0 <= u < |g| && !marked[u] ==> answer[u] == UINT_MAX
    ensures NoHarm(g, s)
  {
    forall u: nat, d: nat, i: nat | u < |g| && i < |g[u]| && IsDistance(g, s, u, d)
      ensures Harmless(g, s, d, g[u][i].0, g[u][i].1)
    {
      var k: nat :| Reaches(g, s, u, d, k);
      assert IsAnswer(g, s, u, answer[u]);
      OneDistance(g, s, u, d, answer[u]);
    }
  }

  lemma SpoiledIsWrong(g: Graph, s: nat, answer: seq<nat>)
    requires Spoiled(g, s, answer)
    ensures !AllRight(g, s, answer)
  {
    var v: nat, e: nat :| v < |g| && IsDistance(g, s, v, e) && (answer[v] < e || UINT_MAX <= e);
    var k: nat :| Reaches(g, s, v, e, k);
    if IsAnswer(g, s, v, answer[v]) {
      OneDistance(g, s, v, e, answer[v]);
    }
  }

  /** When the loop ends, the answers are right if and only if no edge does any harm. */
  lemma Verdict(g: Graph, s: nat, answer: seq<nat>, marked: seq<bool>)
    requires |answer| == |marked| == |g| && (Good(g, s, answer, marked) || Bad(g, s, answer))
    requires forall u :: 0 <= u < |g| && !marked[u] ==> answer[u] == UINT_MAX
    ensures AllRight(g, s, answer) <==> NoHarm(g, s)
  {
    if Good(g, s, answer, marked) {
      FinishedAnswers(g, s, answer, marked);
      FinishedHarmless(g, s, answer, marked);
    } else {
      SpoiledIsWrong(g, s, answer);
    }
  }

  /** Sums that fit are harmless. */
  lemma NoOverflowIsNoHarm(g: Graph, s: nat)
    requires NoOverflow(g, s)
    ensures NoHarm(g, s)
  {
    forall u: nat, d: nat, i: nat | u < |g| && i < |g[u]| && IsDistance(g, s, u, d)
      ensures Harmless(g, s, d, g[u][i].0, g[u][i].1)
    {
      assert d + g[u][i].1 < UINT_MAX;
    }
  }

  lemma LongWay(g: Graph, s: nat, v: nat, d: nat, k: nat)
    requires g == [[(1, UINT_MAX)], [(0, UINT_MAX)]] && s == 0 && v == 1 && Reaches(g, s, v, d, k)
    ensures UINT_MAX <= d
  {
    assert forall u, i :: 0 <= u < |g| && 0 <= i < |g[u]| ==> g[u][i].1 == UINT_MAX;
    var u: nat, l: nat :| LastEdge(g, s, v, d, k, u, l);
    assert l == UINT_MAX;
  }

  /** Two vertices and an edge of length UINT_MAX: the second is reached, but cannot be told from one that is not. */
  lemma LongEdgeMisleads(g: Graph)
    requires g == [[(1, UINT_MAX)], [(0, UINT_MAX)]]
    ensures InRange(g) && Unsigned(g) && !NoHarm(g, 0)
  {
    forall e: nat, k: nat | Reaches(g, 0, 1, e, k)
      ensures UINT_MAX <= e
    {
      LongWay(g, 0, 1, e, k);
    }
    assert Reaches(g, 0, 0, 0, 0);
    assert IsDistance(g, 0, 0, 0) && g[0][0] == (1, UINT_MAX);
    assert !Harmless(g, 0, 0, 1, UINT_MAX);
  }

  // ---------- the algorithm ----------

  /** Picks an unmarked vertex with the least answer; there is one as long as any is unmarked. */
  method PickVertex(answer: array<nat>, marked: array<bool>) returns (current: nat)
    requires answer.Length == marked.Length
    requires exists v :: 0 <= v < marked.Length && !marked[v]
    ensures current < marked.Length && !marked[current]
    ensures forall v :: 0 <= v < marked.Length && !marked[v] ==> answer[current] <= answer[v]
  {
    var found := false;
    current := 0;
    for it := 0 to answer.Length
      invariant found ==> current < it && !marked[current]
      invariant !found ==> forall v :: 0 <= v < it ==> marked[v]
      invariant found ==> forall v :: 0 <= v < it && !marked[v] ==> answer[current] <= answer[v]
    {
      if !marked[it] {
        if !found || answer[it] < answer[current] {
          found, current := true, it;
        }
      }
    }
  }

  /** Marking the least unmarked vertex. Its own edges are still to be relaxed, from the i-th on. */
  ghost predicate Relaxing(g: Graph, s: nat, answer: seq<nat>, marked: seq<bool>, c: nat, i: nat) {
    && |answer| == |marked| == |g| && InRange(g) && s < |g| && answer[s] == 0
    && c < |g| && marked[c] && answer[c] < UINT_MAX && i <= |g[c]|
    && (forall v :: 0 <= v < |g| ==> answer[v] <= UINT_MAX)
    && (forall v: nat :: v < |g| && answer[v] < UINT_MAX ==> Attained(g, s, v, answer[v]))
    && (forall m: nat :: m < |g| && marked[m] ==> answer[m] <= answer[c] && (m != c ==> Relaxed(g, answer, m)))
    && (forall u :: 0 <= u < |g| && !marked[u] ==> answer[c] <= answer[u])
    && (forall j :: 0 <= j < i ==> answer[g[c][j].0] <= answer[c] + g[c][j].1)
  }

  /** The edges relaxed were harmless, c's answer is its distance, and whatever is nearer is known to be. */
  ghost predicate RelaxingWell(g: Graph, s: nat, answer: seq<nat>, marked: seq<bool>, c: nat, i: nat) {
    && Relaxing(g, s, answer, marked, c, i) && IsDistance(g, s, c, answer[c])
    && (forall m: nat, j: nat :: m < |g| && marked[m] && j < |g[m]| && (m == c ==> j < i) ==>
         Harmless(g, s, answer[m], g[m][j].0, g[m][j].1))
    && (forall w: nat, e: nat :: w < |g| && IsDistance(g, s, w, e) && e < answer[c] ==> answer[w] <= e)
  }

  lemma StartRelaxing(g: Graph, s: nat, answer: seq<nat>, marked: seq<bool>, c: nat)
    requires Good(g, s, answer, marked) && c < |g| && !marked[c] && answer[c] < UINT_MAX
    requires forall v :: 0 <= v < |g| && !marked[v] ==> answer[c] <= answer[v]
    ensures RelaxingWell(g, s, answer, marked[c := true], c, 0)
  {
    LeastIsDistance(g, s, answer, marked, answer[c], c);
    forall w: nat, e: nat | w < |g| && IsDistance(g, s, w, e) && e < answer[c]
      ensures answer[w] <= e
    {
      var k: nat :| Reaches(g, s, w, e, k);
      WalksAreLong(g, s, answer, marked, answer[c], w, e, k);
    }
  }

  lemma ExtendWalk(g: Graph, s: nat, c: nat, d: nat, i: nat)
    requires c < |g| && i < |g[c]| && Attained(g, s, c, d)
    ensures Attained(g, s, g[c][i].0, d + g[c][i].1)
  {
    var k: nat :| Reaches(g, s, c, d, k);
    var (w, l) := g[c][i];
    assert LastEdge(g, s, w, d + l, k + 1, c, l);
    assert Reaches(g, s, w, d + l, k + 1);
  }

  function Min(a: nat, b: nat): nat {
    if b < a then b else a
  }

  lemma RelaxOne(g: Graph, s: nat, answer: seq<nat>, marked: seq<bool>, c: nat, i: nat, reach: nat)
    requires Relaxing(g, s, answer, marked, c, i) && i < |g[c]|
    requires reach == answer[c] + g[c][i].1 < UINT_MAX
    ensures var w := g[c][i].0; Relaxing(g, s, answer[w := Min(answer[w], reach)], marked, c, i + 1)
    ensures marked[g[c][i].0] ==> answer[g[c][i].0] <= reach
  {
    var w := g[c][i].0;
    var next := answer[w := Min(answer[w], reach)];
    ExtendWalk(g, s, c, answer[c], i);
    assert marked[w] ==> next == answer;
    forall m: nat | m < |g| && marked[m] && m != c
      ensures Relaxed(g, next, m)
    {
      assert Relaxed(g, answer, m);
    }
  }

  /** A sum that fits. */
  lemma RelaxFitting(g: Graph, s: nat, answer: seq<nat>, marked: seq<bool>, c: nat, i: nat, reach: nat)
    requires RelaxingWell(g, s, answer, marked, c, i) && i < |g[c]|
    requires reach == answer[c] + g[c][i].1 < UINT_MAX
    ensures var w := g[c][i].0; RelaxingWell(g, s, answer[w := Min(answer[w], reach)], marked, c, i + 1)
  {
    RelaxOne(g, s, answer, marked, c, i, reach);
    var w := g[c][i].0;
    var next := answer[w := Min(answer[w], reach)];
    assert forall m: nat :: m < |g| && marked[m] ==> next[m] == answer[m];
  }

  /** A sum that wraps without harm changes nothing: the target is nearer and known to be. */
  lemma RelaxWrapping(g: Graph, s: nat, answer: seq<nat>, marked: seq<bool>, c: nat, i: nat, reach: nat)
    requires RelaxingWell(g, s, answer, marked, c, i) && i < |g[c]| && g[c][i].1 <= UINT_MAX
    requires reach == AddUnsigned(answer[c], g[c][i].1) && UINT_MAX <= answer[c] + g[c][i].1
    requires Harmless(g, s, answer[c], g[c][i].0, g[c][i].1)
    ensures var w := g[c][i].0; answer[w := Min(answer[w], reach)] == answer
    ensures RelaxingWell(g, s, answer, marked, c, i + 1)
  {
    var (w, l) := g[c][i];
    if UINT_MAX < answer[c] + l {
      assert reach == answer[c] + l - (UINT_MAX + 1) < answer[c];
      var e: nat :| IsDistance(g, s, w, e) && e <= reach;
    }
  }

  /** A sum that wraps with harm leaves an answer below the distance for good. */
  lemma RelaxSpoils(g: Graph, s: nat, answer: seq<nat>, marked: seq<bool>, c: nat, i: nat, reach: nat)
    requires RelaxingWell(g, s, answer, marked, c, i) && i < |g[c]|
    requires reach == AddUnsigned(answer[c], g[c][i].1)
    requires !Harmless(g, s, answer[c], g[c][i].0, g[c][i].1)
    ensures var w := g[c][i].0; Bad(g, s, answer[w := Min(answer[w], reach)])
  {
    var (w, l) := g[c][i];
    ExtendWalk(g, s, c, answer[c], i);
    var e := DistanceExists(g, s, w, answer[c] + l);
    var next := answer[w := Min(answer[w], reach)];
    assert next[w] < e || UINT_MAX <= e;
  }

  lemma EndRelaxing(g: Graph, s: nat, answer: seq<nat>, marked: seq<bool>, c: nat)
    requires c < |g| && RelaxingWell(g, s, answer, marked, c, |g[c]|)
    ensures Good(g, s, answer, marked)
  {}

  /** One edge: well, and without harm, or else the answers are spoiled. */
  method RelaxEdge(g: Graph, ghost s: nat, answer: array<nat>, ghost marked: seq<bool>, c: nat, it: nat)
    requires answer.Length == |marked| == |g| && InRange(g) && Unsigned(g) && c < |g| && it < |g[c]|
    requires RelaxingWell(g, s, answer[..], marked, c, it) || Bad(g, s, answer[..])
    requires forall v :: 0 <= v < |g| ==> answer[v] <= UINT_MAX
    modifies answer
    ensures RelaxingWell(g, s, answer[..], marked, c, it + 1) || Bad(g, s, answer[..])
    ensures forall v :: 0 <= v < |g| ==> answer[v] <= UINT_MAX
  {
    var (w, l) := g[c][it];
    var reach := AddUnsigned(answer[c], l);
    ghost var before := answer[..];
    answer[w] := Min(answer[w], reach);
    assert answer[..] == before[w := Min(before[w], reach)];
    if !RelaxingWell(g, s, before, marked, c, it) {
      StaysSpoiled(g, s, before, answer[..]);
    } else if !Harmless(g, s, before[c], w, l) {
      RelaxSpoils(g, s, before, marked, c, it, reach);
    } else if before[c] + l < UINT_MAX {
      RelaxFitting(g, s, before, marked, c, it, reach);
    } else {
      RelaxWrapping(g, s, before, marked, c, it, reach);
    }
  }

  method RelaxEdges(g: Graph, ghost s: nat, answer: array<nat>, ghost marked: seq<bool>, c: nat)
    requires answer.Length == |marked| == |g| && InRange(g) && Unsigned(g) && c < |g|
    requires RelaxingWell(g, s, answer[..], marked, c, 0) || Bad(g, s, answer[..])
    requires forall v :: 0 <= v < |g| ==> answer[v] <= UINT_MAX
    modifies answer
    ensures Good(g, s, answer[..], marked) || Bad(g, s, answer[..])
    ensures forall v :: 0 <= v < |g| ==> answer[v] <= UINT_MAX
  {
    for it := 0 to |g[c]|
      invariant RelaxingWell(g, s, answer[..], marked, c, it) || Bad(g, s, answer[..])
      invariant forall v :: 0 <= v < |g| ==> answer[v] <= UINT_MAX
    {
      RelaxEdge(g, s, answer, marked, c, it);
    }
    if RelaxingWell(g, s, answer[..], marked, c, |g[c]|) {
      EndRelaxing(g, s, answer[..], marked, c);
    }
  }

  ghost function Unmarked(marked: seq<bool>): set<nat> {
    set v | 0 <= v < |marked| && !marked[v]
  }

  ghost function Below(n: nat): (r: set<nat>)
    ensures |r| == n && forall v :: v in r <==> 0 <= v < n
  {
    if n == 0 then {} else Below(n - 1) + {n - 1}
  }

  lemma UnmarkedSize(n: nat)
    ensures |Unmarked(seq(n, _ => false))| == n
  {
    assert Unmarked(seq(n, _ => false)) == Below(n);
  }

  lemma InitiallyGood(g: Graph, s: nat)
    requires InRange(g) && s < |g|
    ensures Good(g, s, seq(|g|, _ => UINT_MAX)[s := 0], seq(|g|, _ => false))
  {
    assert Reaches(g, s, s, 0, 0);
  }

  lemma SomeUnmarked(marked: seq<bool>)
    requires Unmarked(marked) != {}
    ensures exists v :: 0 <= v < |marked| && !marked[v]
  {
    var v :| v in Unmarked(marked);
  }

  /** One turn of the main loop; `pointless` when the search is broken off. */
  method MarkNext(g: Graph, ghost s: nat, answer: array<nat>, marked: array<bool>) returns (pointless: bool)
    requires answer.Length == marked.Length == |g| && InRange(g) && Unsigned(g)
    requires Good(g, s, answer[..], marked[..]) || Bad(g, s, answer[..])
    requires forall v :: 0 <= v < |g| ==> answer[v] <= UINT_MAX
    requires Unmarked(marked[..]) != {}
    modifies answer, marked
    ensures Good(g, s, answer[..], marked[..]) || Bad(g, s, answer[..])
    ensures forall v :: 0 <= v < |g| ==> answer[v] <= UINT_MAX
    ensures pointless ==> forall u :: 0 <= u < |g| && !marked[u] ==> answer[u] == UINT_MAX
    ensures !pointless ==> |Unmarked(marked[..])| == |Unmarked(old(marked[..]))| - 1
  {
    SomeUnmarked(marked[..]);
    var current := PickVertex(answer, marked);
    if answer[current] == UINT_MAX {
      return true;
    }
    ghost var before := marked[..];
    if Good(g, s, answer[..], before) {
      StartRelaxing(g, s, answer[..], before, current);
    }
    marked[current] := true;
    assert marked[..] == before[current := true];
    assert Unmarked(marked[..]) == Unmarked(before) - {current} && current in Unmarked(before);
    RelaxEdges(g, s, answer, marked[..], current);
    pointless := false;
  }

  /**
   For every graph: every vertex ends up with its distance from s, or with UINT_MAX exactly if it
   cannot be reached, if and only if no edge does any harm by wrapping around. Giving up at the
   first least answer of UINT_MAX loses nothing.
   */
  method Dijkstra(g: Graph, s: nat) returns (answer: array<nat>)
    requires InRange(g) && Unsigned(g) && s < |g|
    ensures answer.Length == |g|
    ensures AllRight(g, s, answer[..]) <==> NoHarm(g, s)
    ensures NoOverflow(g, s) ==> AllRight(g, s, answer[..])
  {
    var vertices := |g|;
    answer := new nat[vertices](_ => UINT_MAX);
    var marked := new bool[vertices](_ => false);
    answer[s] := 0;
    InitiallyGood(g, s);
    assert answer[..] == seq(|g|, _ => UINT_MAX)[s := 0] && marked[..] == seq(|g|, _ => false);
    UnmarkedSize(vertices);
    if NoOverflow(g, s) {
      NoOverflowIsNoHarm(g, s);
    }
    for iter := 0 to vertices
      invariant Good(g, s, answer[..], marked[..]) || Bad(g, s, answer[..])
      invariant forall v :: 0 <= v < |g| ==> answer[v] <= UINT_MAX
      invariant |Unmarked(marked[..])| == vertices - iter
    {
      var pointless := MarkNext(g, s, answer, marked);
      if pointless {
        Verdict(g, s, answer[..], marked[..]);
        return;
      }
    }
    forall v | 0 <= v < |g|
      ensures marked[v]
    {
      assert v !in Unmarked(marked[..]);
    }
    Verdict(g, s, answer[..], marked[..]);
  }
}
