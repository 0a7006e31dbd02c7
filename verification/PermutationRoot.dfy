/**
 The square root of a permutation, eljudge/070.cpp: cut the permutation into cycles, sort them by
 length, turn each odd cycle by half its length and interleave even cycles of equal length in
 pairs. Prints 0 when an even cycle finds no partner.
 */
module PermutationRoot {
  import opened Collections
  import opened Modular

  ghost predicate InRange(a: seq<nat>) {
    forall x :: 0 <= x < |a| ==> a[x] < |a|
  }

  ghost predicate IsPermutation(a: seq<nat>) {
    InRange(a) && forall x, y :: 0 <= x < |a| && 0 <= y < |a| && a[x] == a[y] ==> x == y
  }

  /** `s` applied twice is `a`. */
  ghost predicate IsRoot(a: seq<nat>, s: seq<nat>) {
    && |s| == |a| && InRange(s)
    && (forall x {:trigger a[x]} :: 0 <= x < |a| ==> s[s[x]] == a[x])
  }

  // ---------- cycles ----------

  datatype Loop = Loop(start: nat, length: nat)

  /** The element `k` applications of `a` away from `x`. */
  ghost function Iter(a: seq<nat>, x: nat, k: nat): (y: nat)
    requires InRange(a) && x < |a|
    ensures y < |a|
  {
    if k == 0 then x else a[Iter(a, x, k - 1)]
  }

  /** The elements of a loop in order. */
  ghost function Walk(a: seq<nat>, l: Loop): (w: seq<nat>)
    requires InRange(a) && l.start < |a|
    ensures |w| == l.length
  {
    seq(l.length, j requires 0 <= j < l.length => Iter(a, l.start, j))
  }

  /** Where position `p` of a cycle of length `n` goes. */
  function Turn(p: nat, n: nat): nat {
    if p + 1 < n then p + 1 else 0
  }

  ghost predicate Distinct(w: seq<nat>) {
    forall j, k :: 0 <= j < k < |w| ==> w[j] != w[k]
  }

  /** The loop is a whole cycle: it comes back to its start after `length` steps and not before. */
  ghost predicate IsCycle(a: seq<nat>, l: Loop) {
    && InRange(a) && l.start < |a| && 1 <= l.length
    && Iter(a, l.start, l.length) == l.start
    && Distinct(Walk(a, l))
  }

  ghost predicate On(a: seq<nat>, l: Loop, x: nat) {
    InRange(a) && l.start < |a| && x in Walk(a, l)
  }

  ghost predicate Covered(a: seq<nat>, loops: seq<Loop>, x: nat) {
    exists i :: 0 <= i < |loops| && On(a, loops[i], x)
  }

  /** The loops are cycles without a common element. */
  ghost predicate Separate(a: seq<nat>, loops: seq<Loop>) {
    && (forall i :: 0 <= i < |loops| ==> IsCycle(a, loops[i]))
    && (forall i, j, x :: 0 <= i < j < |loops| && On(a, loops[i], x) ==> !On(a, loops[j], x))
  }

  ghost predicate Decomposition(a: seq<nat>, loops: seq<Loop>) {
    Separate(a, loops) && forall x :: 0 <= x < |a| ==> Covered(a, loops, x)
  }

  lemma WalkTurns(a: seq<nat>, l: Loop, j: nat)
    requires IsCycle(a, l) && j < l.length
    ensures Walk(a, l)[j] < |a| && a[Walk(a, l)[j]] == Walk(a, l)[Turn(j, l.length)]
  {
    assert Iter(a, l.start, j + 1) == a[Iter(a, l.start, j)];
  }

  /** Applying `a` does not leave a cycle, nor enter it from outside. */
  lemma CycleIsClosed(a: seq<nat>, l: Loop, x: nat)
    requires IsPermutation(a) && IsCycle(a, l) && x < |a|
    ensures On(a, l, a[x]) <==> On(a, l, x)
  {
    var w := Walk(a, l);
    if On(a, l, x) {
      var j :| 0 <= j < |w| && w[j] == x;
      WalkTurns(a, l, j);
    }
    if On(a, l, a[x]) {
      var j :| 0 <= j < |w| && w[j] == a[x];
      var before := if j == 0 then l.length - 1 else j - 1;
      WalkTurns(a, l, before);
      assert a[w[before]] == a[x];
      assert x == w[before];
    }
  }

  lemma CoveredIsClosed(a: seq<nat>, loops: seq<Loop>, x: nat)
    requires IsPermutation(a) && Separate(a, loops) && x < |a|
    ensures Covered(a, loops, a[x]) <==> Covered(a, loops, x)
  {
    forall i | 0 <= i < |loops|
      ensures On(a, loops[i], a[x]) <==> On(a, loops[i], x)
    {
      CycleIsClosed(a, loops[i], x);
    }
  }

  lemma CoveredSnoc(a: seq<nat>, loops: seq<Loop>, l: Loop, x: nat)
    ensures Covered(a, loops + [l], x) <==> Covered(a, loops, x) || On(a, l, x)
  {
    var more := loops + [l];
    if Covered(a, loops, x) {
      var i :| 0 <= i < |loops| && On(a, loops[i], x);
      assert more[i] == loops[i];
    }
    if On(a, l, x) {
      assert more[|loops|] == l;
    }
  }

  lemma SeparateSnoc(a: seq<nat>, loops: seq<Loop>, l: Loop)
    requires Separate(a, loops) && IsCycle(a, l)
    requires forall x :: On(a, l, x) ==> !Covered(a, loops, x)
    ensures Separate(a, loops + [l])
  {
    var more := loops + [l];
    forall i, j, x | 0 <= i < j < |more| && On(a, more[i], x)
      ensures !On(a, more[j], x)
    {
      assert more[i] == loops[i];
      assert Covered(a, loops, x);
    }
  }

  /** A walk that meets one of its own elements again has come back to its start. */
  lemma WalkReturns(a: seq<nat>, l: Loop)
    requires IsPermutation(a) && l.start < |a| && 1 <= l.length && Distinct(Walk(a, l))
    requires On(a, l, Iter(a, l.start, l.length))
    ensures IsCycle(a, l)
  {
    var w := Walk(a, l);
    forall j | 0 < j < |w|
      ensures w[j] != Iter(a, l.start, l.length)
    {
      NotInside(a, l, j);
    }
    var j :| 0 <= j < |w| && w[j] == Iter(a, l.start, l.length);
    assert j == 0;
  }

  /** It cannot come back to any other element, which would have two predecessors. */
  lemma NotInside(a: seq<nat>, l: Loop, j: nat)
    requires IsPermutation(a) && l.start < |a| && Distinct(Walk(a, l)) && 0 < j < l.length
    ensures Iter(a, l.start, j) != Iter(a, l.start, l.length)
  {
    OnePredecessor(a, l.start, j - 1, l.length - 1);
    assert Walk(a, l)[j - 1] != Walk(a, l)[l.length - 1];
  }

  lemma OnePredecessor(a: seq<nat>, start: nat, j: nat, k: nat)
    requires IsPermutation(a) && start < |a|
    ensures Iter(a, start, j + 1) == Iter(a, start, k + 1) ==> Iter(a, start, j) == Iter(a, start, k)
  {
    assert Iter(a, start, j + 1) == a[Iter(a, start, j)] && Iter(a, start, k + 1) == a[Iter(a, start, k)];
  }

  lemma WalkSnoc(a: seq<nat>, start: nat, k: nat)
    requires InRange(a) && start < |a|
    ensures Walk(a, Loop(start, k + 1)) == Walk(a, Loop(start, k)) + [Iter(a, start, k)]
  {}

  ghost function Unmarked(enabled: seq<bool>): set<nat> {
    set x | 0 <= x < |enabled| && !enabled[x]
  }

  lemma MarkingOne(enabled: seq<bool>, x: nat)
    requires x < |enabled| && !enabled[x]
    ensures Unmarked(enabled[x := true]) == Unmarked(enabled) - {x} && x in Unmarked(enabled)
  {}

  /** The walk from `start` has made `length` steps and stands at `current`, on a cycle not seen before. */
  ghost predicate Marking(a: seq<nat>, enabled: seq<bool>, loops: seq<Loop>, start: nat, length: nat,
                          current: nat, marked: seq<bool>) {
    && InRange(a) && start < |a| && |marked| == |enabled| == |a|
    && current == Iter(a, start, length) && Distinct(Walk(a, Loop(start, length)))
    && (forall x :: 0 <= x < |a| ==> (marked[x] <==> enabled[x] || On(a, Loop(start, length), x)))
    && !Covered(a, loops, current)
    && (forall x :: On(a, Loop(start, length), x) ==> !Covered(a, loops, x))
    && (On(a, Loop(start, length), current) ==> current == start && length > 0)
  }

  lemma MarkStarts(a: seq<nat>, enabled: seq<bool>, loops: seq<Loop>, start: nat)
    requires InRange(a) && |enabled| == |a| && start < |a| && !Covered(a, loops, start)
    ensures Marking(a, enabled, loops, start, 0, start, enabled)
  {}

  /** The walk has one element more, which was not on it. */
  lemma WalkLonger(a: seq<nat>, l: Loop, current: nat)
    requires InRange(a) && l.start < |a| && current == Iter(a, l.start, l.length)
    requires Distinct(Walk(a, l)) && !On(a, l, current)
    ensures Distinct(Walk(a, Loop(l.start, l.length + 1)))
    ensures forall x :: On(a, Loop(l.start, l.length + 1), x) <==> On(a, l, x) || x == current
  {
    WalkSnoc(a, l.start, l.length);
  }

  /** One turn of the loop: the current element is marked, and left for its successor. */
  lemma MarkContinues(a: seq<nat>, enabled: seq<bool>, loops: seq<Loop>, start: nat, length: nat,
                      current: nat, marked: seq<bool>)
    requires IsPermutation(a) && Separate(a, loops) && Marking(a, enabled, loops, start, length, current, marked)
    requires !On(a, Loop(start, length), current)
    ensures Marking(a, enabled, loops, start, length + 1, a[current], marked[current := true])
  {
    WalkLonger(a, Loop(start, length), current);
    CoveredIsClosed(a, loops, current);
    if On(a, Loop(start, length + 1), a[current]) {
      WalkReturns(a, Loop(start, length + 1));
    }
  }

  /** The walk along one cycle: it marks exactly the elements of that cycle. */
  method MarkLoop(a: seq<nat>, enabled: seq<bool>, start: nat, ghost loops: seq<Loop>)
    returns (length: nat, marked: seq<bool>)
    requires IsPermutation(a) && Separate(a, loops) && |enabled| == |a| && start < |a| && !enabled[start]
    requires forall x :: 0 <= x < |a| ==> (enabled[x] <==> Covered(a, loops, x))
    ensures IsCycle(a, Loop(start, length)) && |marked| == |a|
    ensures forall x :: On(a, Loop(start, length), x) ==> !Covered(a, loops, x)
    ensures forall x :: 0 <= x < |a| ==> (marked[x] <==> enabled[x] || On(a, Loop(start, length), x))
  {
    marked := enabled;
    length := 0;
    var current := start;
    MarkStarts(a, enabled, loops, start);
    while length == 0 || current != start
      invariant Marking(a, enabled, loops, start, length, current, marked)
      invariant current == start && length > 0 ==> IsCycle(a, Loop(start, length))
      decreases |Unmarked(marked)|
    {
      MarkContinues(a, enabled, loops, start, length, current, marked);
      MarkingOne(marked, current);
      marked := marked[current := true];
      length := length + 1;
      current := a[current];
    }
  }

  /** The first part of the program: cut the permutation into cycles. */
  method FindLoops(a: seq<nat>) returns (loops: seq<Loop>)
    requires IsPermutation(a)
    ensures Decomposition(a, loops)
  {
    var enabled := seq(|a|, _ => false);
    loops := [];
    for i := 0 to |a|
      invariant |enabled| == |a| && Separate(a, loops)
      invariant forall x :: 0 <= x < |a| ==> (enabled[x] <==> Covered(a, loops, x))
      invariant forall x :: 0 <= x < i ==> enabled[x]
    {
      if !enabled[i] {
        var loopLength, marked := MarkLoop(a, enabled, i, loops);
        var now := Loop(i, loopLength);
        SeparateSnoc(a, loops, now);
        forall x | 0 <= x < |a|
          ensures marked[x] <==> Covered(a, loops + [now], x)
        {
          CoveredSnoc(a, loops, now, x);
        }
        assert On(a, now, Walk(a, now)[0]);
        enabled := marked;
        loops := loops + [now];
      }
    }
  }

  // ---------- sorting ----------

  ghost predicate SortedByLength(loops: seq<Loop>) {
    forall i, j :: 0 <= i < j < |loops| ==> loops[i].length <= loops[j].length
  }

  method InsertByLength(sorted: seq<Loop>, x: Loop) returns (more: seq<Loop>)
    requires SortedByLength(sorted)
    ensures SortedByLength(more) && multiset(more) == multiset(sorted) + multiset{x}
  {
    var k := |sorted|;
    while 0 < k && x.length < sorted[k - 1].length
      invariant 0 <= k <= |sorted|
      invariant forall j :: k <= j < |sorted| ==> x.length < sorted[j].length
      decreases k
    {
      k := k - 1;
    }
    InsertionKeepsOrder(sorted, k, x);
    InsertionAddsOne(sorted, k, x);
    more := sorted[..k] + [x] + sorted[k..];
  }

  lemma InsertionKeepsOrder(sorted: seq<Loop>, k: nat, x: Loop)
    requires SortedByLength(sorted) && k <= |sorted|
    requires forall j :: k <= j < |sorted| ==> x.length < sorted[j].length
    requires k > 0 ==> sorted[k - 1].length <= x.length
    ensures SortedByLength(sorted[..k] + [x] + sorted[k..])
  {
    forall j | 0 <= j < k
      ensures sorted[j].length <= x.length
    {
      assert j < k - 1 ==> sorted[j].length <= sorted[k - 1].length;
    }
  }

  lemma InsertionAddsOne(sorted: seq<Loop>, k: nat, x: Loop)
    requires k <= |sorted|
    ensures multiset(sorted[..k] + [x] + sorted[k..]) == multiset(sorted) + multiset{x}
  {
    assert sorted == sorted[..k] + sorted[k..];
  }

  /** Any sort will do: the rest uses only that the result is an ordered rearrangement. */
  method SortLoops(loops: seq<Loop>) returns (sorted: seq<Loop>)
    ensures SortedByLength(sorted) && multiset(sorted) == multiset(loops)
  {
    sorted := [];
    for i := 0 to |loops|
      invariant SortedByLength(sorted) && multiset(sorted) == multiset(loops[..i])
    {
      assert loops[..i + 1] == loops[..i] + [loops[i]];
      sorted := InsertByLength(sorted, loops[i]);
    }
    assert loops[..|loops|] == loops;
  }

  lemma {:induction false} TwiceInMultiset(s: seq<Loop>, i: nat, j: nat)
    requires i < j < |s| && s[i] == s[j]
    ensures multiset(s)[s[i]] >= 2
  {
    assert s == s[..j] + [s[j]] + s[j + 1..];
    assert s[i] in s[..j];
  }

  lemma {:induction false} TwiceInSequence(s: seq<Loop>, x: Loop) returns (i: nat, j: nat)
    requires multiset(s)[x] >= 2
    ensures i < j < |s| && s[i] == s[j] == x
  {
    i :| 0 <= i < |s| && s[i] == x;
    var rest := s[..i] + s[i + 1..];
    assert s == s[..i] + [s[i]] + s[i + 1..];
    assert x in multiset(rest);
    assert x in rest;
    var k :| 0 <= k < |rest| && rest[k] == x;
    j := if k < i then k else k + 1;
    if j < i {
      i, j := j, i;
    }
  }

  lemma RearrangedDecomposition(a: seq<nat>, loops: seq<Loop>, sorted: seq<Loop>)
    requires Decomposition(a, loops) && multiset(sorted) == multiset(loops)
    ensures Decomposition(a, sorted)
  {
    forall l | l in sorted
      ensures l in loops
    {
      assert l in multiset(sorted);
    }
    forall i | 0 <= i < |sorted|
      ensures IsCycle(a, sorted[i])
    {
      assert sorted[i] in loops;
    }
    forall i, j, x | 0 <= i < j < |sorted| && On(a, sorted[i], x)
      ensures !On(a, sorted[j], x)
    {
      if sorted[i] == sorted[j] {
        TwiceInMultiset(sorted, i, j);
        var k, m := TwiceInSequence(loops, sorted[i]);
      } else {
        assert sorted[i] in loops && sorted[j] in loops;
        var k :| 0 <= k < |loops| && loops[k] == sorted[i];
        var m :| 0 <= m < |loops| && loops[m] == sorted[j];
      }
    }
    forall x | 0 <= x < |a|
      ensures Covered(a, sorted, x)
    {
      assert Covered(a, loops, x);
      var i :| 0 <= i < |loops| && On(a, loops[i], x);
      assert loops[i] in multiset(loops);
      assert loops[i] in sorted;
      var j :| 0 <= j < |sorted| && sorted[j] == loops[i];
      assert On(a, sorted[j], x);
    }
  }

  // ---------- building the root ----------

  method LoopPlane(a: seq<nat>, l: Loop) returns (plane: seq<nat>)
    requires InRange(a) && l.start < |a|
    ensures plane == Walk(a, l)
  {
    plane := [];
    var cur := l.start;
    for j := 0 to l.length
      invariant plane == Walk(a, Loop(l.start, j)) && cur == Iter(a, l.start, j)
    {
      WalkSnoc(a, l.start, j);
      plane := plane + [cur];
      cur := a[cur];
    }
  }

  /** `j + by` around a circle of `n` places. */
  function Shift(j: nat, turn: nat, n: nat): nat
    requires j < n && turn <= n
  {
    if j + turn < n then j + turn else j + turn - n
  }

  lemma ShiftIsModulo(j: nat, turn: nat, n: nat)
    requires j < n && turn <= n
    ensures (j + turn) % n == Shift(j, turn, n) < n
  {
    if n <= j + turn {
      ModuloShift(j + turn - n, n, 1);
    }
  }

  /** `r` keeps x on its loops and squares to `a` there. */
  ghost predicate RootAt(a: seq<nat>, r: seq<nat>, x: nat) {
    x < |r| == |a| && r[x] < |a| && r[r[x]] == a[x]
  }

  /** Turning a cycle of odd length by (length + 1) / 2 gives a root of it. */
  lemma OddTurn(a: seq<nat>, l: Loop, r: seq<nat>, q: nat)
    requires IsCycle(a, l) && l.length % 2 == 1 && |r| == |a| && q < l.length
    requires forall j :: 0 <= j < l.length ==>
      r[Walk(a, l)[Shift(j, (l.length + 1) / 2, l.length)]] == Walk(a, l)[Turn(j, l.length)]
    ensures On(a, l, r[Walk(a, l)[q]]) && RootAt(a, r, Walk(a, l)[q])
  {
    var n, w, swift := l.length, Walk(a, l), (l.length + 1) / 2;
    var j := Shift(q, n - swift, n);
    assert Shift(j, swift, n) == q;
    var q2 := Turn(j, n);
    assert r[w[q]] == w[q2];
    var j2 := Shift(q2, n - swift, n);
    assert Shift(j2, swift, n) == q2;
    assert r[w[q2]] == w[Turn(j2, n)];
    assert Turn(j2, n) == Turn(q, n);
    WalkTurns(a, l, q);
  }

  method RootOddLoop(a: seq<nat>, l: Loop, result: seq<nat>) returns (r: seq<nat>)
    requires IsCycle(a, l) && l.length % 2 == 1 && |result| == |a|
    ensures |r| == |a|
    ensures forall x :: 0 <= x < |a| && !On(a, l, x) ==> r[x] == result[x]
    ensures forall x: nat :: On(a, l, x) ==> RootAt(a, r, x) && On(a, l, r[x])
  {
    r := result;
    var loopPlane := LoopPlane(a, l);
    var swift := (|loopPlane| + 1) / 2;
    for j := 0 to |loopPlane|
      invariant |r| == |a|
      invariant forall x :: 0 <= x < |a| && !On(a, l, x) ==> r[x] == result[x]
      invariant forall k :: 0 <= k < j ==> r[loopPlane[Shift(k, swift, l.length)]] == loopPlane[Turn(k, l.length)]
    {
      ShiftIsModulo(j, swift, l.length);
      WalkTurns(a, l, j);
      ShiftsDiffer(loopPlane, swift, j);
      r := r[loopPlane[(j + swift) % l.length] := a[loopPlane[j]]];
    }
    OddTurns(a, l, r);
  }

  lemma ShiftsDiffer(w: seq<nat>, turn: nat, j: nat)
    requires Distinct(w) && j < |w| && turn <= |w|
    ensures forall k :: 0 <= k < j ==> w[Shift(k, turn, |w|)] != w[Shift(j, turn, |w|)]
  {
    forall k | 0 <= k < j
      ensures w[Shift(k, turn, |w|)] != w[Shift(j, turn, |w|)]
    {
      assert Shift(k, turn, |w|) != Shift(j, turn, |w|);
    }
  }

  lemma OddTurns(a: seq<nat>, l: Loop, r: seq<nat>)
    requires IsCycle(a, l) && l.length % 2 == 1 && |r| == |a|
    requires forall j :: 0 <= j < l.length ==>
      r[Walk(a, l)[Shift(j, (l.length + 1) / 2, l.length)]] == Walk(a, l)[Turn(j, l.length)]
    ensures forall x: nat :: On(a, l, x) ==> RootAt(a, r, x) && On(a, l, r[x])
  {
    forall x: nat | On(a, l, x)
      ensures RootAt(a, r, x) && On(a, l, r[x])
    {
      var q :| 0 <= q < l.length && Walk(a, l)[q] == x;
      OddTurn(a, l, r, q);
    }
  }

  /** Two cycles taken alternately. */
  ghost predicate Interleaved(w1: seq<nat>, w2: seq<nat>, m: seq<nat>) {
    && |w1| == |w2| && |m| == 2 * |w1|
    && (forall j :: 0 <= j < |w1| ==> m[2 * j] == w1[j] && m[2 * j + 1] == w2[j])
  }

  lemma InterleavedDistinct(a: seq<nat>, l1: Loop, l2: Loop, m: seq<nat>)
    requires IsCycle(a, l1) && IsCycle(a, l2) && Interleaved(Walk(a, l1), Walk(a, l2), m)
    requires forall x :: On(a, l1, x) ==> !On(a, l2, x)
    ensures Distinct(m)
  {
    var w1, w2 := Walk(a, l1), Walk(a, l2);
    forall j, k | 0 <= j < k < |m|
      ensures m[j] != m[k]
    {
      assert m[j] == if j % 2 == 0 then w1[j / 2] else w2[j / 2];
      assert m[k] == if k % 2 == 0 then w1[k / 2] else w2[k / 2];
      assert j % 2 == k % 2 ==> j / 2 < k / 2;
      assert j % 2 == 0 ==> On(a, l1, m[j]);
      assert j % 2 == 1 ==> On(a, l2, m[j]);
      assert k % 2 == 0 ==> On(a, l1, m[k]);
      assert k % 2 == 1 ==> On(a, l2, m[k]);
    }
  }

  /** Two steps along the interleaved list are one step along the cycle. */
  lemma PairTurn(a: seq<nat>, l1: Loop, l2: Loop, m: seq<nat>, r: seq<nat>, q: nat)
    requires IsCycle(a, l1) && IsCycle(a, l2) && l1.length == l2.length && |r| == |a| && q < |m|
    requires Interleaved(Walk(a, l1), Walk(a, l2), m)
    requires forall j :: 0 <= j < |m| ==> m[j] < |a| && r[m[j]] == m[Turn(j, |m|)]
    ensures RootAt(a, r, m[q])
    ensures On(a, l1, r[m[q]]) || On(a, l2, r[m[q]])
  {
    var n, half := l1.length, q / 2;
    var w1, w2 := Walk(a, l1), Walk(a, l2);
    WalkTurns(a, l1, half);
    WalkTurns(a, l2, half);
    var next := Turn(half, n);
    assert q == 2 * half || q == 2 * half + 1;
    assert Turn(Turn(q, |m|), |m|) == 2 * next + (q - 2 * half);
    assert m[2 * next] == w1[next] && m[2 * next + 1] == w2[next];
    assert q == 2 * half ==> r[m[q]] == w2[half];
    assert q == 2 * half + 1 ==> r[m[q]] == w1[next];
  }

  lemma PairTurns(a: seq<nat>, l1: Loop, l2: Loop, m: seq<nat>, r: seq<nat>)
    requires IsCycle(a, l1) && IsCycle(a, l2) && l1.length == l2.length && |r| == |a|
    requires Interleaved(Walk(a, l1), Walk(a, l2), m)
    requires forall j :: 0 <= j < |m| ==> m[j] < |a| && r[m[j]] == m[Turn(j, |m|)]
    ensures forall x: nat :: On(a, l1, x) || On(a, l2, x) ==> RootAt(a, r, x) && (On(a, l1, r[x]) || On(a, l2, r[x]))
  {
    var w1, w2 := Walk(a, l1), Walk(a, l2);
    forall x: nat | On(a, l1, x) || On(a, l2, x)
      ensures RootAt(a, r, x) && (On(a, l1, r[x]) || On(a, l2, r[x]))
    {
      if On(a, l1, x) {
        var h :| 0 <= h < |w1| && w1[h] == x;
        PairTurn(a, l1, l2, m, r, 2 * h);
      } else {
        var h :| 0 <= h < |w2| && w2[h] == x;
        PairTurn(a, l1, l2, m, r, 2 * h + 1);
      }
    }
  }

  method MergeLists(w1: seq<nat>, w2: seq<nat>) returns (m: seq<nat>)
    requires |w1| == |w2|
    ensures Interleaved(w1, w2, m)
  {
    m := [];
    for j := 0 to |w1| * 2
      invariant |m| == j
      invariant forall k :: 0 <= k < j ==> m[k] == if k % 2 == 0 then w1[k / 2] else w2[k / 2]
    {
      m := m + [if j % 2 == 0 then w1[j / 2] else w2[j / 2]];
    }
  }

  lemma InterleavedMembers(a: seq<nat>, l1: Loop, l2: Loop, m: seq<nat>)
    requires InRange(a) && l1.start < |a| && l2.start < |a| && Interleaved(Walk(a, l1), Walk(a, l2), m)
    ensures forall j :: 0 <= j < |m| ==> m[j] < |a| && (On(a, l1, m[j]) || On(a, l2, m[j]))
  {
    var w1, w2 := Walk(a, l1), Walk(a, l2);
    forall j | 0 <= j < |m|
      ensures m[j] < |a| && (On(a, l1, m[j]) || On(a, l2, m[j]))
    {
      assert m[j] == if j % 2 == 0 then w1[j / 2] else w2[j / 2];
    }
  }

  /** Makes `m` one cycle of the result. */
  method LinkCircle(m: seq<nat>, result: seq<nat>) returns (r: seq<nat>)
    requires Distinct(m) && forall j :: 0 <= j < |m| ==> m[j] < |result|
    ensures |r| == |result|
    ensures forall x: nat :: x < |r| && x !in m ==> r[x] == result[x]
    ensures forall k :: 0 <= k < |m| ==> r[m[k]] == m[Turn(k, |m|)]
  {
    r := result;
    for j := 0 to |m|
      invariant |r| == |result|
      invariant forall x: nat :: x < |r| && x !in m ==> r[x] == result[x]
      invariant forall k :: 0 <= k < j ==> r[m[k]] == m[Turn(k, |m|)]
    {
      ShiftIsModulo(j, 1, |m|);
      r := r[m[j] := m[(j + 1) % |m|]];
    }
  }

  method RootLoopPair(a: seq<nat>, l1: Loop, l2: Loop, result: seq<nat>) returns (r: seq<nat>)
    requires IsCycle(a, l1) && IsCycle(a, l2) && l1.length == l2.length && |result| == |a|
    requires forall x: nat :: On(a, l1, x) ==> !On(a, l2, x)
    ensures |r| == |a|
    ensures forall x :: 0 <= x < |a| && !On(a, l1, x) && !On(a, l2, x) ==> r[x] == result[x]
    ensures forall x: nat :: On(a, l1, x) || On(a, l2, x) ==> RootAt(a, r, x) && (On(a, l1, r[x]) || On(a, l2, r[x]))
  {
    var loopPlane1 := LoopPlane(a, l1);
    var loopPlane2 := LoopPlane(a, l2);
    var mergeList := MergeLists(loopPlane1, loopPlane2);
    InterleavedDistinct(a, l1, l2, mergeList);
    InterleavedMembers(a, l1, l2, mergeList);
    r := LinkCircle(mergeList, result);
    PairTurns(a, l1, l2, mergeList, r);
  }

  // ---------- when there is no root ----------

  /** A root commutes with the permutation, hence with its iterates. */
  lemma {:induction false} RootCommutes(a: seq<nat>, s: seq<nat>, x: nat, k: nat)
    requires InRange(a) && IsRoot(a, s) && x < |a|
    ensures s[Iter(a, x, k)] == Iter(a, s[x], k)
  {
    if k > 0 {
      RootCommutes(a, s, x, k - 1);
      var y := Iter(a, x, k - 1);
      assert s[a[y]] == s[s[s[y]]] == a[s[y]];
    }
  }

  /** Walking on from a place of a cycle. */
  lemma {:induction false} IterOnCycle(a: seq<nat>, l: Loop, q: nat, k: nat)
    requires IsCycle(a, l) && q < l.length
    ensures Iter(a, Walk(a, l)[q], k) == Walk(a, l)[(q + k) % l.length]
  {
    if k == 0 {
      assert (q + 0) % l.length == q by {
        DivisionIsUnique(q, l.length, 0, q);
      }
    } else {
      IterOnCycle(a, l, q, k - 1);
      var p := (q + k - 1) % l.length;
      WalkTurns(a, l, p);
      NextPlace(q + k - 1, l.length);
    }
  }

  lemma NextPlace(k: nat, n: nat)
    requires 1 <= n
    ensures (k + 1) % n == Turn(k % n, n)
  {
    if k % n + 1 < n {
      DivisionIsUnique(k + 1, n, k / n, k % n + 1);
    } else {
      DivisionIsUnique(k + 1, n, k / n + 1, 0);
    }
  }

  lemma FullTurn(a: seq<nat>, l: Loop, x: nat)
    requires IsCycle(a, l) && On(a, l, x)
    ensures Iter(a, x, l.length) == x
  {
    var p :| 0 <= p < l.length && Walk(a, l)[p] == x;
    IterOnCycle(a, l, p, l.length);
    ModuloShift(p, l.length, 1);
    DivisionIsUnique(p, l.length, 0, p);
  }

  lemma ReturnDivides(a: seq<nat>, m: Loop, y: nat, k: nat)
    requires IsCycle(a, m) && On(a, m, y) && Iter(a, y, k) == y
    ensures k % m.length == 0
  {
    var q :| 0 <= q < m.length && Walk(a, m)[q] == y;
    IterOnCycle(a, m, q, k);
    assert (q + k) % m.length == q;
    DivisionIsUnique(k, m.length, (q + k) / m.length, 0);
  }

  /** If a root takes an element of cycle l to cycle m, the length of m divides that of l. */
  lemma ImageLengthDivides(a: seq<nat>, s: seq<nat>, l: Loop, m: Loop, x: nat)
    requires IsRoot(a, s) && IsCycle(a, l) && IsCycle(a, m) && On(a, l, x) && On(a, m, s[x])
    ensures l.length % m.length == 0
  {
    FullTurn(a, l, x);
    RootCommutes(a, s, x, l.length);
    ReturnDivides(a, m, s[x], l.length);
  }

  lemma MutualDivisors(n: nat, m: nat)
    requires 1 <= n && 1 <= m && n % m == 0 && m % n == 0
    ensures n == m
  {
    var c, d := n / m, m / n;
    assert n == c * m && m == d * n;
    if c >= 2 {
      MultipleIsFar(c - 1, m);
    } else {
      assert c == 1 || c == 0;
      assert c == 0 ==> n == 0;
    }
  }

  ghost function LoopOf(a: seq<nat>, loops: seq<Loop>, x: nat): (i: nat)
    requires Covered(a, loops, x)
    ensures i < |loops| && On(a, loops[i], x)
  {
    var i :| 0 <= i < |loops| && On(a, loops[i], x);
    i
  }

  /** Any element of a cycle is reached from any other. */
  lemma ReachOnCycle(a: seq<nat>, l: Loop, p: nat, q: nat) returns (k: nat)
    requires IsCycle(a, l) && p < l.length && q < l.length
    ensures k == (if p <= q then q - p else q - p + l.length) && Iter(a, Walk(a, l)[p], k) == Walk(a, l)[q]
  {
    k := if p <= q then q - p else q - p + l.length;
    IterOnCycle(a, l, p, k);
    DivisionIsUnique(p + k, l.length, if p <= q then 0 else 1, q);
  }

  lemma StaysOnCycle(a: seq<nat>, l: Loop, x: nat, k: nat)
    requires IsCycle(a, l) && On(a, l, x)
    ensures On(a, l, Iter(a, x, k))
  {
    var p :| 0 <= p < l.length && Walk(a, l)[p] == x;
    IterOnCycle(a, l, p, k);
  }

  /** A root takes cycles to cycles, of the same length, and takes the image back. */
  lemma ImageCycle(a: seq<nat>, s: seq<nat>, l: Loop, m: Loop, x: nat, y: nat)
    requires IsPermutation(a) && IsRoot(a, s) && IsCycle(a, l) && IsCycle(a, m)
    requires On(a, l, x) && On(a, m, s[x]) && On(a, m, y)
    ensures On(a, l, s[y]) && l.length == m.length
  {
    var p :| 0 <= p < m.length && Walk(a, m)[p] == s[x];
    var q :| 0 <= q < m.length && Walk(a, m)[q] == y;
    var k := ReachOnCycle(a, m, p, q);
    RootCommutes(a, s, s[x], k);
    CycleIsClosed(a, l, x);
    StaysOnCycle(a, l, a[x], k);
    ImageLengthDivides(a, s, l, m, x);
    ImageLengthDivides(a, s, m, l, s[x]);
    MutualDivisors(l.length, m.length);
  }

  lemma EvenNotOdd(n: nat, c: int, d: int)
    requires n % 2 == 0
    ensures 2 * d - 1 != c * n
  {
    assert c * n == 2 * (c * (n / 2));
  }

  /** On a circle of even size two equal moves never add up to a single step. */
  lemma TwoEqualMoves(n: nat, p: nat, q: nat, k: nat)
    requires p < n && q < n && n % 2 == 0 && k == if p <= q then q - p else q - p + n
    ensures (q + k) % n != Turn(p, n)
  {
    var m := (q + k) / n;
    var turns := (if p <= q then 0 else 1) + (if p + 1 < n then 0 else 1);
    EvenNotOdd(n, m - turns, q - p);
    assert (m - turns) * n == m * n - turns * n;
    assert turns * n == (if p <= q then 0 else n) + (if p + 1 < n then 0 else n);
    assert q + k == m * n + (q + k) % n;
  }

  /** A root cannot take a cycle of even length to itself. */
  lemma NoFixedEvenCycle(a: seq<nat>, s: seq<nat>, l: Loop, x: nat)
    requires IsPermutation(a) && IsRoot(a, s) && IsCycle(a, l) && l.length % 2 == 0 && On(a, l, x)
    ensures !On(a, l, s[x])
  {
    if On(a, l, s[x]) {
      var n, w := l.length, Walk(a, l);
      var p :| 0 <= p < n && w[p] == x;
      var q :| 0 <= q < n && w[q] == s[x];
      var k := ReachOnCycle(a, l, p, q);
      RootCommutes(a, s, x, k);
      IterOnCycle(a, l, q, k);
      WalkTurns(a, l, p);
      TwoEqualMoves(n, p, q, k);
    }
  }

  ghost predicate Mutual(partner: nat -> nat, group: set<nat>, i: nat) {
    partner(i) in group && partner(i) != i && partner(partner(i)) == i
  }

  /** A finite set on which partners are mutual and never fixed has even size. */
  lemma {:induction false} EvenPairs(group: set<nat>, partner: nat -> nat)
    requires forall i :: i in group ==> Mutual(partner, group, i)
    ensures |group| % 2 == 0
    decreases |group|
  {
    if group != {} {
      var i :| i in group;
      assert Mutual(partner, group, i);
      var rest := group - {i, partner(i)};
      assert group == rest + {i, partner(i)};
      forall k | k in rest
        ensures Mutual(partner, rest, k)
      {
        assert Mutual(partner, group, k);
      }
      EvenPairs(rest, partner);
      assert |group| == |rest| + 2;
    }
  }

  ghost function Range(lo: nat, hi: nat): (r: set<nat>)
    requires lo <= hi
    ensures |r| == hi - lo && forall x :: x in r <==> lo <= x < hi
    decreases hi - lo
  {
    if lo == hi then {} else Range(lo, hi - 1) + {hi - 1}
  }

  /** If a root exists, the cycles of one even length pair up. */
  lemma EvenGroup(a: seq<nat>, s: seq<nat>, loops: seq<Loop>, lo: nat, hi: nat, n: nat)
    requires IsPermutation(a) && IsRoot(a, s) && Decomposition(a, loops) && lo <= hi <= |loops| && n % 2 == 0
    requires forall i :: 0 <= i < |loops| ==> (loops[i].length == n <==> lo <= i < hi)
    ensures (hi - lo) % 2 == 0
  {
    AllPaired(a, s, loops, lo, hi, n);
    EvenRange(lo, hi, Partner(a, s, loops));
  }

  lemma EvenRange(lo: nat, hi: nat, partner: nat -> nat)
    requires lo <= hi && forall i :: i in Range(lo, hi) ==> Mutual(partner, Range(lo, hi), i)
    ensures (hi - lo) % 2 == 0
  {
    EvenPairs(Range(lo, hi), partner);
  }

  lemma AllPaired(a: seq<nat>, s: seq<nat>, loops: seq<Loop>, lo: nat, hi: nat, n: nat)
    requires IsPermutation(a) && IsRoot(a, s) && Decomposition(a, loops) && lo <= hi <= |loops| && n % 2 == 0
    requires forall i :: 0 <= i < |loops| ==> (loops[i].length == n <==> lo <= i < hi)
    ensures forall i :: i in Range(lo, hi) ==> Mutual(Partner(a, s, loops), Range(lo, hi), i)
  {
    forall i | i in Range(lo, hi)
      ensures Mutual(Partner(a, s, loops), Range(lo, hi), i)
    {
      PartnerInGroup(a, s, loops, lo, hi, n, i);
    }
  }

  ghost function PartnerOf(a: seq<nat>, s: seq<nat>, loops: seq<Loop>, i: nat): nat {
    if i < |loops| && loops[i].start < |s| && Covered(a, loops, s[loops[i].start])
    then LoopOf(a, loops, s[loops[i].start]) else 0
  }

  /** The loop to which the root `s` takes the i-th one. */
  ghost function Partner(a: seq<nat>, s: seq<nat>, loops: seq<Loop>): nat -> nat {
    (i: nat) => PartnerOf(a, s, loops, i)
  }

  lemma PartnerInGroup(a: seq<nat>, s: seq<nat>, loops: seq<Loop>, lo: nat, hi: nat, n: nat, i: nat)
    requires IsPermutation(a) && IsRoot(a, s) && Decomposition(a, loops) && lo <= i < hi <= |loops| && n % 2 == 0
    requires forall i :: 0 <= i < |loops| ==> (loops[i].length == n <==> lo <= i < hi)
    ensures Mutual(Partner(a, s, loops), Range(lo, hi), i)
  {
    assert IsCycle(a, loops[i]);
    var j := PartnerOf(a, s, loops, i);
    PartnerLoop(a, s, loops, i, j);
    assert IsCycle(a, loops[j]);
    assert PartnerOf(a, s, loops, j) == i;
  }

  lemma PartnerLoop(a: seq<nat>, s: seq<nat>, loops: seq<Loop>, i: nat, j: nat)
    requires IsPermutation(a) && IsRoot(a, s) && Decomposition(a, loops) && i < |loops|
    requires loops[i].length % 2 == 0
    requires Covered(a, loops, s[loops[i].start]) && j == LoopOf(a, loops, s[loops[i].start])
    ensures j != i && loops[j].length == loops[i].length
    ensures Covered(a, loops, s[loops[j].start]) && LoopOf(a, loops, s[loops[j].start]) == i
  {
    var l, m := loops[i], loops[j];
    assert Walk(a, l)[0] == l.start && Walk(a, m)[0] == m.start;
    ImageCycle(a, s, l, m, l.start, m.start);
    if j == i {
      NoFixedEvenCycle(a, s, l, l.start);
    }
    assert On(a, l, s[m.start]);
  }

  // ---------- the program ----------

  /** Where the run of loops as long as the i-th one begins. */
  function GroupStart(loops: seq<Loop>, i: nat): (lo: nat)
    requires i < |loops|
    ensures lo <= i && forall k :: lo <= k <= i ==> loops[k].length == loops[i].length
    ensures lo > 0 ==> loops[lo - 1].length != loops[i].length
  {
    if i > 0 && loops[i - 1].length == loops[i].length then GroupStart(loops, i - 1) else i
  }

  lemma GroupExtent(loops: seq<Loop>, i: nat)
    requires SortedByLength(loops) && i < |loops|
    requires i + 1 < |loops| ==> loops[i + 1].length != loops[i].length
    ensures forall k :: 0 <= k < |loops| ==> (loops[k].length == loops[i].length <==> GroupStart(loops, i) <= k < i + 1)
  {
    var lo := GroupStart(loops, i);
    forall k | 0 <= k < |loops|
      ensures loops[k].length == loops[i].length <==> lo <= k < i + 1
    {
      if k > i {
        assert loops[i].length < loops[i + 1].length;
        assert k == i + 1 || loops[i + 1].length <= loops[k].length;
      } else if k < lo {
        assert loops[lo - 1].length < loops[i].length;
        assert k == lo - 1 || loops[k].length <= loops[lo - 1].length;
      }
    }
  }

  /** An even loop that is the last of its group and has an even number before it rules out a root. */
  lemma Unpaired(a: seq<nat>, loops: seq<Loop>, i: nat)
    requires IsPermutation(a) && Decomposition(a, loops) && SortedByLength(loops) && i < |loops|
    requires loops[i].length % 2 == 0 && (i - GroupStart(loops, i)) % 2 == 0
    requires i + 1 < |loops| ==> loops[i + 1].length != loops[i].length
    ensures forall s :: !IsRoot(a, s)
  {
    var lo := GroupStart(loops, i);
    GroupExtent(loops, i);
    forall s: seq<nat>
      ensures !IsRoot(a, s)
    {
      if IsRoot(a, s) {
        EvenGroup(a, s, loops, lo, i + 1, loops[i].length);
      }
    }
  }

  /** The result squares to `a` on the first `i` loops and keeps to them. */
  ghost predicate RootUpTo(a: seq<nat>, loops: seq<Loop>, i: nat, r: seq<nat>) {
    |r| == |a| && i <= |loops| && InRange(a) &&
    forall x: nat, k :: 0 <= k < i && On(a, loops[k], x) ==> RootAt(a, r, x) && Covered(a, loops[..i], r[x])
  }

  lemma CoveredPrefix(a: seq<nat>, loops: seq<Loop>, i: nat, k: nat, x: nat)
    requires k < i <= |loops| && On(a, loops[k], x)
    ensures Covered(a, loops[..i], x)
  {
    assert loops[..i][k] == loops[k];
  }

  /** Rewriting the result on later loops does not disturb the earlier ones. */
  lemma RootExtends(a: seq<nat>, loops: seq<Loop>, i: nat, j: nat, r: seq<nat>, t: seq<nat>)
    requires Separate(a, loops) && RootUpTo(a, loops, i, r) && i <= j <= |loops| && |t| == |a|
    requires forall x: nat :: x < |a| && !Covered(a, loops[i..j], x) ==> t[x] == r[x]
    requires forall x: nat, k :: i <= k < j && On(a, loops[k], x) ==> RootAt(a, t, x) && Covered(a, loops[i..j], t[x])
    ensures RootUpTo(a, loops, j, t)
  {
    forall x: nat, k | 0 <= k < j && On(a, loops[k], x)
      ensures RootAt(a, t, x) && Covered(a, loops[..j], t[x])
    {
      if k < i {
        RootOnEarlier(a, loops, i, j, k, r, t, x);
      } else {
        CoveredLonger(a, loops, i, j, t[x]);
      }
    }
  }

  lemma CoveredLonger(a: seq<nat>, loops: seq<Loop>, i: nat, j: nat, x: nat)
    requires i <= j <= |loops| && Covered(a, loops[i..j], x)
    ensures Covered(a, loops[..j], x)
  {
    var m :| 0 <= m < j - i && On(a, loops[i..j][m], x);
    CoveredPrefix(a, loops, j, i + m, x);
  }

  lemma RootOnEarlier(a: seq<nat>, loops: seq<Loop>, i: nat, j: nat, k: nat, r: seq<nat>, t: seq<nat>, x: nat)
    requires Separate(a, loops) && k < i <= j <= |loops| && |t| == |a| && On(a, loops[k], x)
    requires RootAt(a, r, x) && Covered(a, loops[..i], r[x])
    requires forall x: nat :: x < |a| && !Covered(a, loops[i..j], x) ==> t[x] == r[x]
    ensures RootAt(a, t, x) && Covered(a, loops[..j], t[x])
  {
    Untouched(a, loops, i, j, k, x);
    var m :| 0 <= m < i && On(a, loops[..i][m], r[x]);
    Untouched(a, loops, i, j, m, r[x]);
    CoveredPrefix(a, loops, j, m, r[x]);
  }

  lemma Untouched(a: seq<nat>, loops: seq<Loop>, i: nat, j: nat, k: nat, x: nat)
    requires Separate(a, loops) && k < i <= j <= |loops| && On(a, loops[k], x)
    ensures !Covered(a, loops[i..j], x)
  {
    forall m | 0 <= m < j - i
      ensures !On(a, loops[i..j][m], x)
    {
      assert loops[i..j][m] == loops[i + m];
    }
  }

  lemma CoveredOne(a: seq<nat>, loops: seq<Loop>, i: nat, x: nat)
    requires i < |loops|
    ensures Covered(a, loops[i..i + 1], x) <==> On(a, loops[i], x)
  {
    assert loops[i..i + 1] == [loops[i]];
    if On(a, loops[i], x) {
      assert loops[i..i + 1][0] == loops[i];
    }
  }

  lemma CoveredTwo(a: seq<nat>, loops: seq<Loop>, i: nat, x: nat)
    requires i + 1 < |loops|
    ensures Covered(a, loops[i..i + 2], x) <==> On(a, loops[i], x) || On(a, loops[i + 1], x)
  {
    assert loops[i..i + 2] == [loops[i]] + [loops[i + 1]];
    CoveredSnoc(a, [loops[i]], loops[i + 1], x);
    CoveredOne(a, loops, i, x);
    assert loops[i..i + 1] == [loops[i]];
  }

  /** One cycle of odd length after the first i loops. */
  method AddOddLoop(a: seq<nat>, loops: seq<Loop>, i: nat, r: seq<nat>) returns (t: seq<nat>)
    requires Separate(a, loops) && RootUpTo(a, loops, i, r) && i < |loops| && loops[i].length % 2 == 1
    ensures RootUpTo(a, loops, i + 1, t)
  {
    t := RootOddLoop(a, loops[i], r);
    forall x: nat
      ensures Covered(a, loops[i..i + 1], x) <==> On(a, loops[i], x)
    {
      CoveredOne(a, loops, i, x);
    }
    RootExtends(a, loops, i, i + 1, r, t);
  }

  /** Two cycles of the same length after the first i loops. */
  method AddLoopPair(a: seq<nat>, loops: seq<Loop>, i: nat, r: seq<nat>) returns (t: seq<nat>)
    requires Separate(a, loops) && RootUpTo(a, loops, i, r) && i + 1 < |loops| && loops[i].length == loops[i + 1].length
    ensures RootUpTo(a, loops, i + 2, t)
  {
    t := RootLoopPair(a, loops[i], loops[i + 1], r);
    forall x: nat
      ensures Covered(a, loops[i..i + 2], x) <==> On(a, loops[i], x) || On(a, loops[i + 1], x)
    {
      CoveredTwo(a, loops, i, x);
    }
    RootExtends(a, loops, i, i + 2, r, t);
  }

  lemma WholeRoot(a: seq<nat>, loops: seq<Loop>, r: seq<nat>)
    requires Decomposition(a, loops) && RootUpTo(a, loops, |loops|, r)
    ensures IsRoot(a, r)
  {
    forall x | 0 <= x < |a|
      ensures r[x] < |a| && r[r[x]] == a[x]
    {
      assert Covered(a, loops, x);
      var k :| 0 <= k < |loops| && On(a, loops[k], x);
      assert RootAt(a, r, x);
    }
  }

  /** Loops are paired from the beginning of each group of even loops. */
  predicate PairsAligned(loops: seq<Loop>, i: nat) {
    i < |loops| && loops[i].length % 2 == 0 ==> (i - GroupStart(loops, i)) % 2 == 0
  }

  lemma AlignedAfterOdd(loops: seq<Loop>, i: nat)
    requires i < |loops| && loops[i].length % 2 == 1
    ensures PairsAligned(loops, i + 1)
  {}

  lemma AlignedAfterPair(loops: seq<Loop>, i: nat)
    requires i + 1 < |loops| && loops[i].length % 2 == 0 && PairsAligned(loops, i) &&
      loops[i + 1].length == loops[i].length
    ensures PairsAligned(loops, i + 2)
  {
    if i + 2 < |loops| && loops[i + 2].length == loops[i].length {
      assert GroupStart(loops, i + 2) == GroupStart(loops, i + 1) == GroupStart(loops, i);
    }
  }

  /** One turn of the program's main loop; `paired` is false when an even cycle finds no partner. */
  method AddLoops(a: seq<nat>, loops: seq<Loop>, i: nat, r: seq<nat>) returns (paired: bool, next: nat, t: seq<nat>)
    requires IsPermutation(a) && Decomposition(a, loops) && SortedByLength(loops)
    requires i < |loops| && RootUpTo(a, loops, i, r) && PairsAligned(loops, i)
    ensures paired ==> i < next <= |loops| && RootUpTo(a, loops, next, t) && PairsAligned(loops, next)
    ensures !paired ==> forall s :: !IsRoot(a, s)
  {
    paired, next, t := true, i, r;
    if loops[i].length % 2 == 1 {
      AlignedAfterOdd(loops, i);
      t := AddOddLoop(a, loops, i, r);
      next := i + 1;
    } else {
      if i < |loops| - 1 && loops[i + 1].length == loops[i].length {
        AlignedAfterPair(loops, i);
        t := AddLoopPair(a, loops, i, r);
        next := i + 2;
      } else {
        Unpaired(a, loops, i);
        paired := false;
      }
    }
  }

  /** Prints a root exactly when the permutation has one; None stands for the printed 0. */
  method SquareRoot(a: seq<nat>) returns (result: Option<seq<nat>>)
    requires IsPermutation(a)
    ensures result.Some? ==> IsRoot(a, result.value)
    ensures result.None? ==> forall s :: !IsRoot(a, s)
  {
    var found := FindLoops(a);
    var loops := SortLoops(found);
    RearrangedDecomposition(a, found, loops);
    var r := seq(|a|, _ => 0);
    var i := 0;
    while i < |loops|
      invariant i <= |loops| && RootUpTo(a, loops, i, r)
      invariant PairsAligned(loops, i)
    {
      var paired;
      paired, i, r := AddLoops(a, loops, i, r);
      if !paired {
        return None;
      }
    }
    WholeRoot(a, loops, r);
    return Some(r);
  }
}
