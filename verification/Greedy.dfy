/**
 The greedy reduction of a number to zero in eljudge/026.cpp. Allowed operations: add one, subtract
 one, halve an even number. The loop may increase the number, and it works on 64-bit words.
 */
module Greedy {

  datatype Operation = Increment | Decrement | Halve

  /** The operations, applied to n from left to right, are all allowed and end at zero. */
  predicate Reduces(n: nat, operations: seq<Operation>)
    decreases |operations|
  {
    if operations == [] then n == 0
    else match operations[0]
      case Increment => Reduces(n + 1, operations[1..])
      case Decrement => n > 0 && Reduces(n - 1, operations[1..])
      case Halve => n % 2 == 0 && Reduces(n / 2, operations[1..])
  }

  /** c operations are enough to reduce n to zero, and fewer are not. */
  ghost predicate IsLeast(n: nat, c: nat) {
    && (exists operations :: |operations| == c && Reduces(n, operations))
    && (forall operations :: Reduces(n, operations) ==> c <= |operations|)
  }

  // ---------- the least number of operations ----------

  /** The cost by parity: an odd number goes through the cheaper of its two even neighbours. */
  function Cost(n: nat): nat {
    if n < 2 then n
    else if n % 2 == 0 then 1 + Cost(n / 2)
    else 2 + if Cost(n / 2) <= Cost(n / 2 + 1) then Cost(n / 2) else Cost(n / 2 + 1)
  }

  /** Neighbours cost about the same; an even number costs no more than its odd neighbours, 1 aside. */
  lemma {:induction false} Neighbours(n: nat)
    ensures -1 <= Cost(n + 1) - Cost(n) <= 1
    ensures n % 2 == 0 ==> Cost(n) <= Cost(n + 1)
    ensures n % 2 == 1 && n != 1 ==> Cost(n + 1) <= Cost(n)
  {
    if n >= 2 {
      Neighbours(n / 2);
      assert (n + 1) / 2 == if n % 2 == 0 then n / 2 else n / 2 + 1;
    }
  }

  lemma {:induction false} CostBounds(n: nat)
    ensures Cost(n) <= n
    ensures n >= 2 ==> Cost(n) >= 2
  {
    if n >= 3 {
      CostBounds(n / 2);
      Neighbours(n / 2);
    }
  }

  lemma {:induction false} NothingCheaper(n: nat, operations: seq<Operation>)
    requires Reduces(n, operations)
    ensures Cost(n) <= |operations|
    decreases |operations|
  {
    if operations != [] {
      var rest := operations[1..];
      match operations[0]
      case Increment =>
        NothingCheaper(n + 1, rest);
        Neighbours(n);
      case Decrement =>
        NothingCheaper(n - 1, rest);
        Neighbours(n - 1);
      case Halve =>
        NothingCheaper(n / 2, rest);
    }
  }

  /** Operations that spend exactly the cost. */
  function Plan(n: nat): (operations: seq<Operation>)
    ensures |operations| == Cost(n)
  {
    if n == 0 then []
    else if n == 1 then [Decrement]
    else if n % 2 == 0 then [Halve] + Plan(n / 2)
    else if Cost(n / 2) <= Cost(n / 2 + 1) then [Decrement, Halve] + Plan(n / 2)
    else [Increment, Halve] + Plan(n / 2 + 1)
  }

  /** Halving, possibly after moving to an even neighbour, and then going on. */
  lemma HalveFirst(half: nat, rest: seq<Operation>)
    requires Reduces(half, rest)
    ensures Reduces(2 * half, [Halve] + rest)
    ensures Reduces(2 * half + 1, [Decrement, Halve] + rest)
    ensures half >= 1 ==> Reduces(2 * half - 1, [Increment, Halve] + rest)
  {
    assert ([Halve] + rest)[1..] == rest;
    assert ([Decrement, Halve] + rest)[1..] == [Halve] + rest;
    assert ([Increment, Halve] + rest)[1..] == [Halve] + rest;
  }

  lemma {:induction false} PlanReduces(n: nat)
    ensures Reduces(n, Plan(n))
  {
    if n == 1 {
      assert Plan(n)[1..] == [];
    } else if n >= 2 {
      var half := if n % 2 == 0 || Cost(n / 2) <= Cost(n / 2 + 1) then n / 2 else n / 2 + 1;
      PlanReduces(half);
      HalveFirst(half, Plan(half));
    }
  }

  /** The cost is the least number of operations, and nothing else is. */
  lemma CostIsLeast(n: nat, c: nat)
    ensures IsLeast(n, c) <==> c == Cost(n)
  {
    PlanReduces(n);
    forall operations | Reduces(n, operations)
      ensures Cost(n) <= |operations|
    {
      NothingCheaper(n, operations);
    }
  }

  // ---------- the loop ----------

  // One more than the largest value of size_t.
  const WORD: nat := 0x1_0000_0000_0000_0000

  function Successor(n: nat): nat {
    if n + 1 == WORD then 0 else n + 1
  }

  lemma CostOfDouble(k: nat)
    requires k >= 1
    ensures Cost(2 * k) == 1 + Cost(k)
  {
    assert 2 * k / 2 == k;
  }

  lemma CostBetween(k: nat)
    requires k >= 1
    ensures Cost(2 * k + 1) == 2 + if Cost(k) <= Cost(k + 1) then Cost(k) else Cost(k + 1)
  {
    assert (2 * k + 1) / 2 == k;
  }

  /** The even half is the cheaper one. */
  lemma CostThroughEvenHalf(k: nat)
    requires k != 1
    ensures k % 2 == 0 ==> Cost(2 * k + 1) == (if k == 0 then 1 else 2) + Cost(k)
    ensures k % 2 == 1 ==> Cost(2 * k + 1) == 2 + Cost(k + 1)
  {
    if k >= 2 {
      CostBetween(k);
      Neighbours(k);
    }
  }

  /** Moving to the even neighbour that is twice an even number spends one operation of the cost. */
  lemma OddStep(k: nat)
    requires k != 1
    ensures k % 2 == 0 ==> Cost(2 * k + 1) == 1 + Cost(2 * k)
    ensures k % 2 == 1 ==> Cost(2 * k + 1) == 1 + Cost(2 * k + 2)
  {
    CostThroughEvenHalf(k);
    if k % 2 == 1 {
      CostOfDouble(k + 1);
    } else if k > 0 {
      CostOfDouble(k);
    }
  }

  lemma ThreeGoesDown()
    ensures Cost(3) == 1 + Cost(2)
  {
    CostBetween(1);
    CostOfDouble(1);
  }

  /** One round of the loop. */
  method Reduce(n: nat) returns (next: nat)
    requires 0 < n < WORD
    ensures next < WORD - 1
    ensures if n == WORD - 1 then next == 0 else Cost(n) == 1 + Cost(next)
  {
    ghost var half := n / 2;
    assert n == 2 * half || n == 2 * half + 1;
    assert n % 2 == 1 ==> ((n - 1) % 4 == 0 <==> half % 2 == 0);
    if n == 3 {
      ThreeGoesDown();
      next := n - 1;
    } else if n % 2 == 0 {
      CostOfDouble(half);
      next := n / 2;
    } else if (n - 1) % 4 == 0 {
      OddStep(half);
      next := n - 1;
    } else {
      OddStep(half);
      next := Successor(n);
    }
  }

  /** The number of operations printed is the least possible, for every word but the largest. */
  method CountOperations(start: nat) returns (count: nat)
    requires start <= 0xffff_ffff_ffff_ffff
    ensures IsLeast(start, count) <==> start != 0xffff_ffff_ffff_ffff
    ensures count <= start
    ensures start == 0xffff_ffff_ffff_ffff ==> count == 1
  {
    var n: nat := start;
    count := 0;
    while n != 0
      invariant n < WORD && (n == WORD - 1 ==> n == start)
      invariant start == WORD - 1 ==> if count == 0 then n == start else n == 0 && count == 1
      invariant start != WORD - 1 ==> count + Cost(n) == Cost(start)
      decreases if n == WORD - 1 then 1 else 0, Cost(n)
    {
      n := Reduce(n);
      count := count + 1;
    }
    CostBounds(start);
    CostIsLeast(start, count);
  }
}
