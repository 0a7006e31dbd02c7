/**
 The tournament table of eljudge/003.cpp: players are swapped with their neighbours until everybody
 has won against the next one.
 */
module Tournament {

  const UNKNOWN: char := '\0'

  /** What was read: for player i, the results against the players before i, then one more character. */
  predicate IsTriangle(rows: seq<string>) {
    forall i :: 0 <= i < |rows| ==> |rows[i]| == i + 1
  }

  /** Player x beat player y: a '+' in the row of the later player if that is x, and a '-' if it is y. */
  predicate Beat(rows: seq<string>, x: nat, y: nat)
    requires IsTriangle(rows) && x < |rows| && y < |rows|
  {
    if y < x then rows[x][y] == '+' else x < y && rows[y][x] == '-'
  }

  /** The other player's view of a result. */
  function Opposite(ch: char): char {
    if ch == '+' then '-' else if ch == '-' then '+' else UNKNOWN
  }

  /** The result of player i against player j. */
  function Result(rows: seq<string>, i: nat, j: nat): char
    requires IsTriangle(rows) && i < |rows| && j < |rows|
  {
    if i == j then ' '
    else if j < i then Opposite(Opposite(rows[i][j]))
    else Opposite(rows[j][i])
  }

  ghost predicate IsTable(v: array2<char>, rows: seq<string>)
    requires IsTriangle(rows)
    reads v
  {
    && v.Length0 == v.Length1 == |rows|
    && forall i, j :: 0 <= i < |rows| && 0 <= j < |rows| ==> v[i, j] == Result(rows, i, j)
  }

  /** One player's loss is the other player's win. */
  lemma LossIsWin(rows: seq<string>, i: nat, j: nat)
    requires IsTriangle(rows) && i < |rows| && j < |rows|
    ensures Result(rows, i, j) == '-' <==> Result(rows, j, i) == '+'
  {}

  /** The results are those read off the characters. */
  lemma ResultsAreRead(rows: seq<string>, i: nat, j: nat)
    requires IsTriangle(rows) && i < |rows| && j < |rows|
    ensures Result(rows, i, j) == '+' <==> Beat(rows, i, j)
    ensures Result(rows, i, j) == '-' <==> Beat(rows, j, i)
  {}

  method ReadTable(rows: seq<string>) returns (v: array2<char>)
    requires IsTriangle(rows)
    ensures fresh(v) && IsTable(v, rows)
    ensures forall i, j :: 0 <= j < i < |rows| ==>
      && (v[i, j] == '+' <==> rows[i][j] == '+') && (v[i, j] == '-' <==> rows[i][j] == '-')
      && (v[j, i] == '+' <==> rows[i][j] == '-') && (v[j, i] == '-' <==> rows[i][j] == '+')
  {
    var n := |rows|;
    v := new char[n, n]((i, j) => UNKNOWN);
    for i := 0 to n
      invariant forall k, l :: 0 <= k < n && 0 <= l < n ==>
        v[k, l] == if k < i && l < i then Result(rows, k, l) else UNKNOWN
    {
      v[i, i] := ' ';
      for j := 0 to i
        invariant forall k, l :: 0 <= k < n && 0 <= l < n ==>
          v[k, l] == if (k < i && l < i) || (k == l == i) || (k == i && l < j) || (l == i && k < j)
                     then Result(rows, k, l) else UNKNOWN
      {
        var ch := rows[i][j];
        if ch == '+' {
          v[i, j], v[j, i] := '+', '-';
        }
        if ch == '-' {
          v[i, j], v[j, i] := '-', '+';
        }
      }
    }
  }

  // ---------- the order by the number of wins ----------

  /** Everybody stands exactly once in the order. */
  ghost predicate IsOrder(order: seq<nat>, n: nat) {
    && |order| == n
    && (forall i :: 0 <= i < n ==> order[i] < n)
    && (forall i, j :: 0 <= i < j < n ==> order[i] != order[j])
  }

  /** The number of wins of player i against the first n players. */
  function Wins(rows: seq<string>, i: nat, n: nat): nat
    requires IsTriangle(rows) && i < |rows| && n <= |rows|
  {
    if n == 0 then 0 else Wins(rows, i, n - 1) + if Result(rows, i, n - 1) == '+' then 1 else 0
  }

  /** The players among the first n whom player i beat. */
  ghost function Beaten(rows: seq<string>, i: nat, n: nat): set<int>
    requires IsTriangle(rows) && i < |rows| && n <= |rows|
  {
    set j | 0 <= j < n && Beat(rows, i, j)
  }

  lemma {:induction false} WinsAreBeaten(rows: seq<string>, i: nat, n: nat)
    requires IsTriangle(rows) && i < |rows| && n <= |rows|
    ensures Wins(rows, i, n) == |Beaten(rows, i, n)|
  {
    if n > 0 {
      WinsAreBeaten(rows, i, n - 1);
      ResultsAreRead(rows, i, n - 1);
      OneMoreBeaten(rows, i, n);
    }
  }

  lemma OneMoreBeaten(rows: seq<string>, i: nat, n: nat)
    requires IsTriangle(rows) && i < |rows| && 0 < n <= |rows|
    ensures |Beaten(rows, i, n)| == |Beaten(rows, i, n - 1)| + if Beat(rows, i, n - 1) then 1 else 0
  {
    assert Beaten(rows, i, n) == Beaten(rows, i, n - 1) + if Beat(rows, i, n - 1) then {n - 1} else {};
  }

  method CountWins(v: array2<char>, ghost rows: seq<string>) returns (count: array<nat>)
    requires IsTriangle(rows) && IsTable(v, rows)
    ensures fresh(count) && count.Length == |rows|
    ensures forall i :: 0 <= i < |rows| ==> count[i] == Wins(rows, i, |rows|) == |Beaten(rows, i, |rows|)|
  {
    count := new nat[v.Length0];
    for i := 0 to v.Length0
      invariant forall k :: 0 <= k < i ==> count[k] == Wins(rows, k, |rows|)
    {
      var b := 0;
      for j := 0 to v.Length1
        invariant b == Wins(rows, i, j)
      {
        if v[i, j] == '+' {
          b := b + 1;
        }
      }
      count[i] := b;
    }
    forall i | 0 <= i < |rows|
      ensures Wins(rows, i, |rows|) == |Beaten(rows, i, |rows|)|
    {
      WinsAreBeaten(rows, i, |rows|);
    }
  }

  /** The first `done` places are filled with the best players, best first. */
  ghost predicate BestFirst(count: seq<nat>, order: seq<nat>, done: nat)
    requires IsOrder(order, |count|)
  {
    forall p, q :: 0 <= p < q < |count| && p < done ==> count[order[q]] <= count[order[p]]
  }

  /** The order with the players at two places exchanged. */
  function Exchanged(order: seq<nat>, i: nat, j: nat): (exchanged: seq<nat>)
    requires i < j < |order|
    ensures |exchanged| == |order|
    ensures forall k :: 0 <= k < |order| ==>
      exchanged[k] == if k == i then order[j] else if k == j then order[i] else order[k]
  {
    order[i := order[j]][j := order[i]]
  }

  lemma ExchangeKeepsOrder(order: seq<nat>, n: nat, i: nat, j: nat)
    requires IsOrder(order, n) && i < j < n
    ensures IsOrder(Exchanged(order, i, j), n)
  {}

  lemma ExchangeKeepsBest(count: seq<nat>, order: seq<nat>, i: nat, j: nat)
    requires IsOrder(order, |count|) && i < j < |count| && BestFirst(count, order, i)
    ensures IsOrder(Exchanged(order, i, j), |count|) && BestFirst(count, Exchanged(order, i, j), i)
  {
    ExchangeKeepsOrder(order, |count|, i, j);
  }

  method SwapPlaces(res: array<nat>, i: nat, j: nat)
    requires i < j < res.Length
    modifies res
    ensures res[..] == Exchanged(old(res[..]), i, j)
  {
    res[i], res[j] := res[j], res[i];
  }

  /** Selects the best remaining player for place i: compares that place with all later ones, swapping. */
  method SelectBest(res: array<nat>, count: array<nat>, i: nat)
    requires i < res.Length == count.Length && res != count
    requires IsOrder(res[..], count.Length) && BestFirst(count[..], res[..], i)
    modifies res
    ensures IsOrder(res[..], count.Length) && BestFirst(count[..], res[..], i + 1)
  {
    for j := i + 1 to res.Length
      invariant IsOrder(res[..], count.Length) && BestFirst(count[..], res[..], i)
      invariant forall k :: i <= k < j ==> count[res[k]] <= count[res[i]]
    {
      if count[res[i]] < count[res[j]] {
        ExchangeKeepsBest(count[..], res[..], i, j);
        SwapPlaces(res, i, j);
      }
    }
  }

  /** Players with more wins first. */
  method OrderByWins(count: array<nat>) returns (res: array<nat>)
    requires count.Length >= 1
    ensures fresh(res) && IsOrder(res[..], count.Length)
    ensures BestFirst(count[..], res[..], count.Length)
  {
    var n := count.Length;
    res := new nat[n](i => i);
    for i := 0 to n - 1
      invariant IsOrder(res[..], n) && BestFirst(count[..], res[..], i)
    {
      SelectBest(res, count, i);
    }
  }

  // ---------- swapping until stable ----------

  ghost predicate AllIn(order: seq<nat>, n: nat) {
    forall i :: 0 <= i < |order| ==> order[i] < n
  }

  /** How many of the players in front lose to y. */
  function LosersTo(rows: seq<string>, front: seq<nat>, y: nat): nat
    requires IsTriangle(rows) && AllIn(front, |rows|) && y < |rows|
  {
    if front == [] then 0
    else LosersTo(rows, front[..|front| - 1], y) + if Result(rows, front[|front| - 1], y) == '-' then 1 else 0
  }

  /** The number of pairs of places p < q such that the player at p loses to the player at q. */
  function Inversions(rows: seq<string>, order: seq<nat>): nat
    requires IsTriangle(rows) && AllIn(order, |rows|)
  {
    if order == [] then 0
    else
      var front := order[..|order| - 1];
      Inversions(rows, front) + LosersTo(rows, front, order[|order| - 1])
  }

  /** The order with the neighbours at i and i + 1 exchanged. */
  function Swapped(order: seq<nat>, i: nat): (swapped: seq<nat>)
    requires i + 1 < |order|
  {
    Exchanged(order, i, i + 1)
  }

  lemma LastTwo(order: seq<nat>, i: nat)
    requires i + 2 == |order|
    ensures order == order[..i] + [order[i]] + [order[i + 1]]
  {}

  lemma LastTwoSwapped(order: seq<nat>, i: nat)
    requires i + 2 == |order|
    ensures Swapped(order, i) == order[..i] + [order[i + 1]] + [order[i]]
  {}

  /** A swap at the very end shows in one pair only. */
  lemma SwapAtEnd(rows: seq<string>, order: seq<nat>, i: nat, z: nat)
    requires IsTriangle(rows) && AllIn(order, |rows|) && i + 2 == |order| && z < |rows|
    ensures LosersTo(rows, Swapped(order, i), z) == LosersTo(rows, order, z)
    ensures Result(rows, order[i], order[i + 1]) == '-' ==>
      Inversions(rows, Swapped(order, i)) == Inversions(rows, order) - 1
  {
    var front, x, y := order[..i], order[i], order[i + 1];
    LastTwo(order, i);
    LastTwoSwapped(order, i);
    LosersOfTwo(rows, front, x, y, z);
    LosersOfTwo(rows, front, y, x, z);
    InversionsOfTwo(rows, front, x, y);
    InversionsOfTwo(rows, front, y, x);
    LossIsWin(rows, x, y);
  }

  lemma LosersSnoc(rows: seq<string>, front: seq<nat>, x: nat, z: nat)
    requires IsTriangle(rows) && AllIn(front, |rows|) && x < |rows| && z < |rows|
    ensures LosersTo(rows, front + [x], z) == LosersTo(rows, front, z) + if Result(rows, x, z) == '-' then 1 else 0
  {
    assert (front + [x])[..|front|] == front;
  }

  lemma LosersOfTwo(rows: seq<string>, front: seq<nat>, x: nat, y: nat, z: nat)
    requires IsTriangle(rows) && AllIn(front, |rows|) && x < |rows| && y < |rows| && z < |rows|
    ensures LosersTo(rows, front + [x] + [y], z) == LosersTo(rows, front, z) +
      (if Result(rows, x, z) == '-' then 1 else 0) + if Result(rows, y, z) == '-' then 1 else 0
  {
    LosersSnoc(rows, front, x, z);
    LosersSnoc(rows, front + [x], y, z);
  }

  lemma InversionsSnoc(rows: seq<string>, front: seq<nat>, x: nat)
    requires IsTriangle(rows) && AllIn(front, |rows|) && x < |rows|
    ensures Inversions(rows, front + [x]) == Inversions(rows, front) + LosersTo(rows, front, x)
  {
    assert (front + [x])[..|front|] == front;
  }

  lemma InversionsOfTwo(rows: seq<string>, front: seq<nat>, x: nat, y: nat)
    requires IsTriangle(rows) && AllIn(front, |rows|) && x < |rows| && y < |rows|
    ensures Inversions(rows, front + [x] + [y]) == Inversions(rows, front) + LosersTo(rows, front, x) +
      LosersTo(rows, front, y) + if Result(rows, x, y) == '-' then 1 else 0
  {
    InversionsSnoc(rows, front, x);
    InversionsSnoc(rows, front + [x], y);
    LosersSnoc(rows, front, x, y);
  }

  /** Swapping neighbours of whom the first loses lowers the number of inversions by exactly one. */
  lemma {:induction false} SwapLowersByOne(rows: seq<string>, order: seq<nat>, i: nat)
    requires IsTriangle(rows) && AllIn(order, |rows|) && i + 1 < |order|
    ensures forall y :: 0 <= y < |rows| ==> LosersTo(rows, Swapped(order, i), y) == LosersTo(rows, order, y)
    ensures Result(rows, order[i], order[i + 1]) == '-' ==>
      Inversions(rows, Swapped(order, i)) == Inversions(rows, order) - 1
    decreases |order|
  {
    if i + 2 == |order| {
      forall y | 0 <= y < |rows|
        ensures LosersTo(rows, Swapped(order, i), y) == LosersTo(rows, order, y)
      {
        SwapAtEnd(rows, order, i, y);
      }
      SwapAtEnd(rows, order, i, order[i]);
    } else {
      var front := order[..|order| - 1];
      SwapLowersByOne(rows, front, i);
      assert Swapped(order, i)[..|order| - 1] == Swapped(front, i);
    }
  }

  /** The order after looking at the neighbours at i and i + 1. */
  function Looked(rows: seq<string>, order: seq<nat>, i: nat): seq<nat>
    requires IsTriangle(rows) && AllIn(order, |rows|) && i + 1 < |order|
  {
    if Result(rows, order[i], order[i + 1]) == '-' then Swapped(order, i) else order
  }

  method CompareNeighbours(v: array2<char>, ghost rows: seq<string>, res: array<nat>, i: nat) returns (swapped: bool)
    requires IsTriangle(rows) && IsTable(v, rows) && AllIn(res[..], |rows|) && i + 1 < res.Length
    modifies res
    ensures res[..] == Looked(rows, old(res[..]), i)
    ensures swapped <==> Result(rows, old(res[i]), old(res[i + 1])) == '-'
  {
    swapped := false;
    if v[res[i], res[i + 1]] == '-' {
      SwapPlaces(res, i, i + 1);
      swapped := true;
    }
  }

  /** A pass that has looked at the first `done` pairs of neighbours, with `swaps` swaps. */
  ghost predicate Passing(rows: seq<string>, before: seq<nat>, order: seq<nat>, done: nat, swaps: nat) {
    && IsTriangle(rows) && IsOrder(before, |rows|) && IsOrder(order, |rows|) && done < |rows|
    && Inversions(rows, order) + swaps == Inversions(rows, before)
    && (swaps == 0 ==> forall k :: 0 <= k < done ==> Result(rows, order[k], order[k + 1]) != '-')
  }

  lemma PassGoesOn(rows: seq<string>, before: seq<nat>, order: seq<nat>, i: nat, swaps: nat)
    requires Passing(rows, before, order, i, swaps) && i + 1 < |rows|
    ensures Passing(rows, before, Looked(rows, order, i), i + 1,
                    if Result(rows, order[i], order[i + 1]) == '-' then swaps + 1 else swaps)
  {
    if Result(rows, order[i], order[i + 1]) == '-' {
      SwapLowersByOne(rows, order, i);
      ExchangeKeepsOrder(order, |rows|, i, i + 1);
    }
  }

  /** One pass over the neighbours. */
  method Pass(v: array2<char>, ghost rows: seq<string>, res: array<nat>) returns (flag: bool, ghost swaps: nat)
    requires IsTriangle(rows) && IsTable(v, rows) && IsOrder(res[..], |rows|) && |rows| >= 1
    modifies res
    ensures IsOrder(res[..], |rows|) && (flag <==> swaps > 0)
    ensures Inversions(rows, res[..]) + swaps == Inversions(rows, old(res[..]))
    ensures !flag ==> forall k :: 0 <= k < |rows| - 1 ==> Result(rows, res[k], res[k + 1]) != '-'
  {
    flag, swaps := false, 0;
    for i := 0 to res.Length - 1
      invariant Passing(rows, old(res[..]), res[..], i, swaps) && (flag <==> swaps > 0)
    {
      PassGoesOn(rows, old(res[..]), res[..], i, swaps);
      var swapped := CompareNeighbours(v, rows, res, i);
      if swapped {
        flag, swaps := true, swaps + 1;
      }
    }
  }

  /** Everybody has won against the next one. */
  ghost predicate IsRanking(rows: seq<string>, order: seq<nat>)
    requires IsTriangle(rows)
  {
    && IsOrder(order, |rows|)
    && forall k :: 0 <= k < |rows| - 1 ==> Result(rows, order[k], order[k + 1]) == '+'
  }

  /** Every game was won by somebody. */
  predicate IsDecided(rows: seq<string>)
    requires IsTriangle(rows)
  {
    forall i, j :: 0 <= j < i < |rows| ==> rows[i][j] == '+' || rows[i][j] == '-'
  }

  /** The loop ends after as many swaps as inversions disappear, and in a ranking if every game was decided. */
  method SwapUntilStable(v: array2<char>, ghost rows: seq<string>, res: array<nat>) returns (ghost swaps: nat)
    requires IsTriangle(rows) && IsTable(v, rows) && IsOrder(res[..], |rows|) && |rows| >= 1
    modifies res
    ensures IsOrder(res[..], |rows|)
    ensures swaps == Inversions(rows, old(res[..])) - Inversions(rows, res[..])
    ensures forall k :: 0 <= k < |rows| - 1 ==> Result(rows, res[k], res[k + 1]) != '-'
  {
    swaps := 0;
    while true
      invariant IsOrder(res[..], |rows|)
      invariant Inversions(rows, res[..]) + swaps == Inversions(rows, old(res[..]))
      decreases Inversions(rows, res[..])
    {
      var flag;
      ghost var more;
      flag, more := Pass(v, rows, res);
      swaps := swaps + more;
      if !flag {
        break;
      }
    }
  }

  lemma NotLostIsWon(rows: seq<string>, i: nat, j: nat)
    requires IsTriangle(rows) && i < |rows| && j < |rows| && i != j && IsDecided(rows)
    ensures Result(rows, i, j) != '-' <==> Result(rows, i, j) == '+'
  {}

  /** The players behind the printed numbers, which are counted from one. */
  function Players(printed: seq<nat>): (players: seq<nat>)
    requires forall k :: 0 <= k < |printed| ==> printed[k] >= 1
    ensures |players| == |printed|
    ensures forall k :: 0 <= k < |printed| ==> players[k] == printed[k] - 1
  {
    seq(|printed|, k requires 0 <= k < |printed| => printed[k] - 1)
  }

  method PrintFromOne(res: array<nat>) returns (printed: seq<nat>)
    ensures forall k :: 0 <= k < |printed| ==> printed[k] >= 1
    ensures Players(printed) == res[..]
  {
    printed := [];
    for i := 0 to res.Length
      invariant |printed| == i && forall k :: 0 <= k < i ==> printed[k] == res[k] + 1
    {
      printed := printed + [res[i] + 1];
    }
  }

  /** The printed numbers, counted from one, name every player once, and nobody lost to the next one. */
  ghost predicate Lists(rows: seq<string>, printed: seq<nat>)
    requires IsTriangle(rows)
  {
    && |printed| == |rows| && (forall k :: 0 <= k < |printed| ==> 1 <= printed[k] <= |rows|)
    && (forall j, k :: 0 <= j < k < |printed| ==> printed[j] != printed[k])
    && (forall k :: 0 <= k < |printed| - 1 ==> !Beat(rows, printed[k + 1] - 1, printed[k] - 1))
  }

  lemma PlayersListed(rows: seq<string>, printed: seq<nat>)
    requires IsTriangle(rows) && forall k :: 0 <= k < |printed| ==> printed[k] >= 1
    requires IsOrder(Players(printed), |rows|)
    requires forall k :: 0 <= k < |rows| - 1 ==> Result(rows, Players(printed)[k], Players(printed)[k + 1]) != '-'
    ensures Lists(rows, printed)
    ensures IsRanking(rows, Players(printed)) <==>
      forall k :: 0 <= k < |rows| - 1 ==> Beat(rows, printed[k] - 1, printed[k + 1] - 1)
  {
    var order := Players(printed);
    forall k | 0 <= k < |rows| - 1
      ensures !Beat(rows, printed[k + 1] - 1, printed[k] - 1)
      ensures Result(rows, order[k], order[k + 1]) == '+' <==> Beat(rows, printed[k] - 1, printed[k + 1] - 1)
    {
      ResultsAreRead(rows, order[k], order[k + 1]);
    }
  }

  /** Whoever beat more of the others stands first. */
  ghost predicate WinnersFirst(rows: seq<string>, order: seq<nat>)
    requires IsTriangle(rows)
  {
    && IsOrder(order, |rows|)
    && forall p, q :: 0 <= p < q < |order| ==> |Beaten(rows, order[q], |rows|)| <= |Beaten(rows, order[p], |rows|)|
  }

  /**
   Everybody is printed once; if every game was decided, in an order in which each has won against
   the next. It comes from the order by wins by swaps of losing neighbours.
   */
  method Rank(rows: seq<string>) returns (printed: seq<nat>, ghost byWins: seq<nat>, ghost swaps: nat)
    requires IsTriangle(rows) && |rows| >= 1
    ensures forall k :: 0 <= k < |printed| ==> printed[k] >= 1
    ensures IsOrder(Players(printed), |rows|)
    ensures forall k :: 0 <= k < |rows| - 1 ==> Result(rows, Players(printed)[k], Players(printed)[k + 1]) != '-'
    ensures IsDecided(rows) ==> IsRanking(rows, Players(printed))
    ensures WinnersFirst(rows, byWins)
    ensures swaps == Inversions(rows, byWins) - Inversions(rows, Players(printed))
    ensures Lists(rows, printed)
    ensures IsDecided(rows) ==> forall k :: 0 <= k < |rows| - 1 ==> Beat(rows, printed[k] - 1, printed[k + 1] - 1)
  {
    var v := ReadTable(rows);
    var count := CountWins(v, rows);
    var res := OrderByWins(count);
    byWins := res[..];
    BestAreWinners(rows, count[..], byWins);
    swaps := SwapUntilStable(v, rows, res);
    printed := PrintFromOne(res);
    NobodyLost(rows, res[..]);
    PlayersListed(rows, printed);
  }

  lemma BestAreWinners(rows: seq<string>, count: seq<nat>, order: seq<nat>)
    requires IsTriangle(rows) && |count| == |rows| && IsOrder(order, |count|) && BestFirst(count, order, |count|)
    requires forall i :: 0 <= i < |rows| ==> count[i] == |Beaten(rows, i, |rows|)|
    ensures WinnersFirst(rows, order)
  {}

  lemma NobodyLost(rows: seq<string>, order: seq<nat>)
    requires IsTriangle(rows) && IsOrder(order, |rows|)
    requires forall k :: 0 <= k < |rows| - 1 ==> Result(rows, order[k], order[k + 1]) != '-'
    ensures IsDecided(rows) ==> IsRanking(rows, order)
  {
    if IsDecided(rows) {
      forall k | 0 <= k < |rows| - 1
        ensures Result(rows, order[k], order[k + 1]) == '+'
      {
        NotLostIsWon(rows, order[k], order[k + 1]);
      }
    }
  }
}
