/**
 The radix puzzle, 1-number5/base.cpp: given equations a*b=c and a+b=c between digit strings, print
 the only radix above every digit in which all of them hold, -1 if there are several, 0 if there is
 none. A number is a polynomial in the radix; finitely many radixes are tried.
 Integers are unbounded.
 */
module Radix {
  import opened Collections
  import opened Modular

  /** Coefficients, lowest first. */
  type Polynomial = seq<int>

  function Eval(p: Polynomial, x: int): int {
    if p == [] then 0 else p[0] + x * Eval(p[1..], x)
  }

  function Power(x: int, n: nat): int {
    if n == 0 then 1 else x * Power(x, n - 1)
  }

  ghost predicate Nonnegative(p: Polynomial) {
    forall i :: 0 <= i < |p| ==> 0 <= p[i]
  }

  ghost predicate AllBelow(p: Polynomial, bound: int) {
    forall i :: 0 <= i < |p| ==> 0 <= p[i] < bound
  }

  // ---------- evaluation ----------

  lemma MultiplyIn(x: int, e: int, c: int, w: int)
    ensures x * (e + c * w) == x * e + c * (x * w)
  {
    assert x * (c * w) == c * (x * w);
  }

  lemma {:induction false} EvalSnoc(p: Polynomial, c: int, x: int)
    ensures Eval(p + [c], x) == Eval(p, x) + c * Power(x, |p|)
  {
    if p == [] {
      assert p + [c] == [c] && [c][1..] == [];
    } else {
      assert (p + [c])[1..] == p[1..] + [c];
      EvalSnoc(p[1..], c, x);
      MultiplyIn(x, Eval(p[1..], x), c, Power(x, |p| - 1));
    }
  }

  lemma EvalPrefix(p: Polynomial, i: nat, x: int)
    requires i < |p|
    ensures Eval(p[..i + 1], x) == Eval(p[..i], x) + p[i] * Power(x, i)
  {
    assert p[..i + 1] == p[..i] + [p[i]];
    EvalSnoc(p[..i], p[i], x);
  }

  lemma {:induction false} EvalUpdate(p: Polynomial, k: nat, c: int, x: int)
    requires k < |p|
    ensures Eval(p[k := p[k] + c], x) == Eval(p, x) + c * Power(x, k)
  {
    if k == 0 {
      assert p[0 := p[0] + c][1..] == p[1..];
    } else {
      assert p[k := p[k] + c][1..] == p[1..][k - 1 := p[1..][k - 1] + c];
      EvalUpdate(p[1..], k - 1, c, x);
      MultiplyIn(x, Eval(p[1..], x), c, Power(x, k - 1));
    }
  }

  lemma {:induction false} EvalZeros(p: Polynomial, x: int)
    requires forall i :: 0 <= i < |p| ==> p[i] == 0
    ensures Eval(p, x) == 0
  {
    if p != [] {
      EvalZeros(p[1..], x);
    }
  }

  lemma {:induction false} PowerSum(x: int, m: nat, n: nat)
    ensures Power(x, m + n) == Power(x, m) * Power(x, n)
  {
    if m > 0 {
      PowerSum(x, m - 1, n);
      assert x * (Power(x, m - 1) * Power(x, n)) == (x * Power(x, m - 1)) * Power(x, n);
    }
  }

  /** The coefficient of x^k, zero beyond the end. */
  function Coefficient(p: Polynomial, k: nat): int {
    if k < |p| then p[k] else 0
  }

  // ---------- the operators ----------

  lemma Regroup(a: int, b: int, c: int, d: int, e: int)
    ensures a * b * (c + d * e) == a * b * c + (a * d) * (b * e)
  {
    SwapInner(a, b, d, e);
    Distribute(a * b, c, d * e);
  }

  lemma Distribute(a: int, b: int, c: int)
    ensures a * (b + c) == a * b + a * c
  {}

  lemma SwapInner(a: int, b: int, d: int, e: int)
    ensures (a * b) * (d * e) == (a * d) * (b * e)
  {
    assert (a * b) * (d * e) == a * (b * (d * e));
    assert b * (d * e) == d * (b * e);
    assert a * (d * (b * e)) == (a * d) * (b * e);
  }

  /** The part of coefficient k of the product that the first i coefficients of p contribute. */
  function Convolution(p: Polynomial, q: Polynomial, i: nat, k: int): int
    requires i <= |p|
  {
    if i == 0 then 0
    else Convolution(p, q, i - 1, k) + if 0 <= k - (i - 1) < |q| then p[i - 1] * q[k - (i - 1)] else 0
  }

  function Product(p: Polynomial, q: Polynomial): Polynomial
    requires 1 <= |p| && 1 <= |q|
  {
    seq(|p| + |q| - 1, k => Convolution(p, q, |p|, k))
  }

  /** The product accumulated after i whole coefficients of p and j terms of the next. */
  function Partial(p: Polynomial, q: Polynomial, i: nat, j: nat): (r: Polynomial)
    requires i <= |p| && j <= |q| && 1 <= |p| && 1 <= |q| && (i == |p| ==> j == 0)
    ensures |r| == |p| + |q| - 1
  {
    seq(|p| + |q| - 1, k requires 0 <= k =>
      Convolution(p, q, i, k) + if i <= k < i + j then p[i] * q[k - i] else 0)
  }

  lemma PartialStep(p: Polynomial, q: Polynomial, i: nat, j: nat)
    requires i < |p| && j < |q|
    ensures var r := Partial(p, q, i, j); Partial(p, q, i, j + 1) == r[i + j := r[i + j] + p[i] * q[j]]
  {}

  lemma PartialRow(p: Polynomial, q: Polynomial, i: nat)
    requires i < |p| && 1 <= |q|
    ensures Partial(p, q, i + 1, 0) == Partial(p, q, i, |q|)
  {}

  lemma {:induction false} PartialEval(p: Polynomial, q: Polynomial, i: nat, j: nat, x: int)
    requires i <= |p| && j <= |q| && 1 <= |p| && 1 <= |q| && (i == |p| ==> j == 0)
    ensures Eval(Partial(p, q, i, j), x) ==
      Eval(p[..i], x) * Eval(q, x) + if i < |p| then p[i] * Power(x, i) * Eval(q[..j], x) else 0
    decreases i, j
  {
    if i == 0 && j == 0 {
      EvalZeros(Partial(p, q, 0, 0), x);
    } else if j == 0 {
      PartialEval(p, q, i - 1, |q|, x);
      PartialEvalRow(p, q, i - 1, x);
    } else {
      PartialEval(p, q, i, j - 1, x);
      PartialEvalStep(p, q, i, j - 1, x);
    }
  }

  lemma PartialEvalRow(p: Polynomial, q: Polynomial, i: nat, x: int)
    requires i < |p| && 1 <= |q|
    requires Eval(Partial(p, q, i, |q|), x) == Eval(p[..i], x) * Eval(q, x) + p[i] * Power(x, i) * Eval(q[..|q|], x)
    ensures Eval(Partial(p, q, i + 1, 0), x) == Eval(p[..i + 1], x) * Eval(q, x)
  {
    PartialRow(p, q, i);
    assert q[..|q|] == q;
    EvalPrefix(p, i, x);
    DistributeRight(Eval(p[..i], x), p[i] * Power(x, i), Eval(q, x));
  }

  lemma DistributeRight(a: int, b: int, c: int)
    ensures (a + b) * c == a * c + b * c
  {}

  lemma PartialEvalStep(p: Polynomial, q: Polynomial, i: nat, j: nat, x: int)
    requires i < |p| && j < |q|
    requires Eval(Partial(p, q, i, j), x) == Eval(p[..i], x) * Eval(q, x) + p[i] * Power(x, i) * Eval(q[..j], x)
    ensures Eval(Partial(p, q, i, j + 1), x) == Eval(p[..i], x) * Eval(q, x) + p[i] * Power(x, i) * Eval(q[..j + 1], x)
  {
    PartialStep(p, q, i, j);
    EvalUpdate(Partial(p, q, i, j), i + j, p[i] * q[j], x);
    EvalPrefix(q, j, x);
    PowerSum(x, i, j);
    Regroup(p[i], Power(x, i), Eval(q[..j], x), q[j], Power(x, j));
  }

  /** The product of polynomials evaluates to the product of the values, everywhere. */
  lemma ProductEval(p: Polynomial, q: Polynomial, x: int)
    requires 1 <= |p| && 1 <= |q|
    ensures Eval(Product(p, q), x) == Eval(p, x) * Eval(q, x)
  {
    PartialEval(p, q, |p|, 0, x);
    assert p[..|p|] == p;
    assert Product(p, q) == Partial(p, q, |p|, 0);
  }

  method Multiply(p: Polynomial, q: Polynomial) returns (r: Polynomial)
    requires 1 <= |p| && 1 <= |q|
    ensures r == Product(p, q)
    ensures forall x :: Eval(r, x) == Eval(p, x) * Eval(q, x)
  {
    r := seq(|p| + |q| - 1, _ => 0);
    for i := 0 to |p|
      invariant r == Partial(p, q, i, 0)
    {
      for j := 0 to |q|
        invariant r == Partial(p, q, i, j)
      {
        PartialStep(p, q, i, j);
        r := r[i + j := r[i + j] + p[i] * q[j]];
      }
      PartialRow(p, q, i);
    }
    assert r == Product(p, q);
    forall x ensures Eval(r, x) == Eval(p, x) * Eval(q, x) {
      ProductEval(p, q, x);
    }
  }

  lemma {:induction false} ConvolutionNonnegative(p: Polynomial, q: Polynomial, i: nat, k: int)
    requires i <= |p| && Nonnegative(p) && Nonnegative(q)
    ensures 0 <= Convolution(p, q, i, k)
  {
    if i > 0 {
      ConvolutionNonnegative(p, q, i - 1, k);
    }
  }

  /** Adding `sign` times q: the same value for coefficient-wise sums, at any two lengths. */
  lemma {:induction false} EvalCombine(r: Polynomial, p: Polynomial, q: Polynomial, sign: int, x: int)
    requires |p| <= |r| && |q| <= |r|
    requires forall k :: 0 <= k < |r| ==> r[k] == Coefficient(p, k) + sign * Coefficient(q, k)
    ensures Eval(r, x) == Eval(p, x) + sign * Eval(q, x)
  {
    if r != [] {
      var p', q' := if p == [] then [] else p[1..], if q == [] then [] else q[1..];
      forall k | 0 <= k < |r[1..]|
        ensures r[1..][k] == Coefficient(p', k) + sign * Coefficient(q', k)
      {
        assert r[1..][k] == r[k + 1];
        assert Coefficient(p', k) == Coefficient(p, k + 1) && Coefficient(q', k) == Coefficient(q, k + 1);
      }
      EvalCombine(r[1..], p', q', sign, x);
      CombineStep(Coefficient(p, 0), Coefficient(q, 0), Eval(p', x), Eval(q', x), sign, x);
      assert Eval(p, x) == Coefficient(p, 0) + x * Eval(p', x);
      assert Eval(q, x) == Coefficient(q, 0) + x * Eval(q', x);
    }
  }

  lemma CombineStep(a: int, b: int, c: int, d: int, sign: int, x: int)
    ensures (a + sign * b) + x * (c + sign * d) == (a + x * c) + sign * (b + x * d)
  {
    Distribute(x, c, sign * d);
    Distribute(sign, b, x * d);
    assert x * (sign * d) == sign * (x * d);
  }

  function Max(a: int, b: int): int {
    if a < b then b else a
  }

  function MinLength(p: Polynomial, q: Polynomial): nat {
    if |p| < |q| then |p| else |q|
  }

  function Sum(p: Polynomial, q: Polynomial): Polynomial {
    seq(Max(|p|, |q|), k requires 0 <= k => Coefficient(p, k) + Coefficient(q, k))
  }

  method Add(p: Polynomial, q: Polynomial) returns (r: Polynomial)
    ensures r == Sum(p, q)
    ensures forall x :: Eval(r, x) == Eval(p, x) + Eval(q, x)
  {
    var low := MinLength(p, q);
    r := seq(low, _ => 0) + if |p| > |q| then p[low..] else q[low..];
    for i := 0 to low
      invariant |r| == Max(|p|, |q|)
      invariant forall k :: 0 <= k < i ==> r[k] == p[k] + q[k]
      invariant forall k :: low <= k < |r| ==> r[k] == Coefficient(p, k) + Coefficient(q, k)
    {
      r := r[i := p[i] + q[i]];
    }
    forall x ensures Eval(r, x) == Eval(p, x) + Eval(q, x) {
      EvalCombine(r, p, q, 1, x);
    }
  }

  method Subtract(p: Polynomial, q: Polynomial) returns (r: Polynomial)
    ensures |r| == Max(|p|, |q|)
    ensures forall k: nat :: Coefficient(r, k) == Coefficient(p, k) - Coefficient(q, k)
    ensures forall x :: Eval(r, x) == Eval(p, x) - Eval(q, x)
  {
    var low := MinLength(p, q);
    r := seq(low, _ => 0) +
      if |p| > |q| then p[low..] else seq(|q| - low, k requires 0 <= k < |q| - low => -q[low + k]);
    for i := 0 to low
      invariant |r| == Max(|p|, |q|)
      invariant forall k :: 0 <= k < i ==> r[k] == p[k] - q[k]
      invariant forall k :: low <= k < |r| ==> r[k] == Coefficient(p, k) - Coefficient(q, k)
    {
      r := r[i := p[i] - q[i]];
    }
    forall x ensures Eval(r, x) == Eval(p, x) - Eval(q, x) {
      EvalCombine(r, p, q, -1, x);
    }
  }

  method Compute(p: Polynomial, variable: int) returns (result: int)
    requires 1 <= |p|
    ensures result == Eval(p, variable)
  {
    var variableNth := 1;
    result := p[0];
    assert p[..1] == [p[0]] && [p[0]][1..] == [];
    for i := 1 to |p|
      invariant variableNth == Power(variable, i - 1) && result == Eval(p[..i], variable)
    {
      variableNth := variableNth * variable;
      EvalPrefix(p, i, variable);
      result := result + p[i] * variableNth;
    }
    assert p[..|p|] == p;
  }

  /** The largest of m and the members of s. */
  function MaxOver(s: seq<int>, m: int): (r: int)
    ensures m <= r && forall i :: 0 <= i < |s| ==> s[i] <= r
    ensures r == m || r in s
  {
    if s == [] then m else Max(MaxOver(s[..|s| - 1], m), s[|s| - 1])
  }

  method FindMaxCoeff(p: Polynomial, maxCoeff: int) returns (m: int)
    ensures m == MaxOver(p, maxCoeff)
  {
    m := maxCoeff;
    for i := 0 to |p|
      invariant m == MaxOver(p[..i], maxCoeff)
    {
      assert p[..i + 1][..i] == p[..i];
      m := Max(m, p[i]);
    }
    assert p[..|p|] == p;
  }

  // ---------- numbers and equations ----------

  /** A number as written, most significant digit first. */
  type Digits = seq<nat>

  /** What the digits mean in a radix. */
  function Value(ds: Digits, x: int): int {
    if ds == [] then 0 else Value(ds[..|ds| - 1], x) * x + ds[|ds| - 1]
  }

  function Reverse(ds: Digits): Polynomial {
    if ds == [] then [] else [ds[|ds| - 1]] + Reverse(ds[..|ds| - 1])
  }

  lemma {:induction false} ReversedAt(ds: Digits)
    ensures |Reverse(ds)| == |ds|
    ensures forall i :: 0 <= i < |ds| ==> Reverse(ds)[i] == ds[|ds| - 1 - i]
  {
    if ds != [] {
      ReversedAt(ds[..|ds| - 1]);
    }
  }

  lemma {:induction false} ReversedValue(ds: Digits, x: int)
    ensures Eval(Reverse(ds), x) == Value(ds, x)
  {
    if ds != [] {
      var front := ds[..|ds| - 1];
      ReversedValue(front, x);
      assert Reverse(ds)[1..] == Reverse(front);
    }
  }

  /** The polynomial of a number has the number's value in every radix. */
  lemma {:induction false} ReverseMeaning(ds: Digits, x: int)
    ensures Eval(Reverse(ds), x) == Value(ds, x) && |Reverse(ds)| == |ds|
    ensures forall i :: 0 <= i < |ds| ==> Reverse(ds)[i] == ds[|ds| - 1 - i]
  {
    ReversedAt(ds);
    ReversedValue(ds, x);
  }

  datatype Operator = Times | Plus

  /** left op right = result */
  datatype Equation = Equation(left: Digits, op: Operator, right: Digits, result: Digits)

  predicate WellFormed(e: Equation) {
    e.left != [] && e.right != [] && e.result != []
  }

  predicate Holds(e: Equation, x: int) {
    (if e.op == Times then Value(e.left, x) * Value(e.right, x) else Value(e.left, x) + Value(e.right, x))
      == Value(e.result, x)
  }

  function DigitsOf(e: Equation): Digits {
    e.left + e.right + e.result
  }

  /** left op right, as a polynomial. */
  function Combined(e: Equation): (r: Polynomial)
    requires WellFormed(e)
    ensures 1 <= |r|
  {
    ReverseMeaning(e.left, 0);
    ReverseMeaning(e.right, 0);
    if e.op == Times then Product(Reverse(e.left), Reverse(e.right)) else Sum(Reverse(e.left), Reverse(e.right))
  }

  lemma CombinedNonnegative(e: Equation)
    requires WellFormed(e)
    ensures Nonnegative(Combined(e)) && Nonnegative(Reverse(e.result))
  {
    ReverseMeaning(e.left, 0);
    ReverseMeaning(e.right, 0);
    ReverseMeaning(e.result, 0);
    if e.op == Times {
      var p, q := Reverse(e.left), Reverse(e.right);
      forall k | 0 <= k < |Combined(e)|
        ensures 0 <= Combined(e)[k]
      {
        ConvolutionNonnegative(p, q, |p|, k);
      }
    }
  }

  predicate AllWellFormed(es: seq<Equation>) {
    forall i :: 0 <= i < |es| ==> WellFormed(es[i])
  }

  function MaxDigit(es: seq<Equation>): (r: int)
    ensures 0 <= r
  {
    if es == [] then 0 else MaxOver(DigitsOf(es[|es| - 1]), MaxDigit(es[..|es| - 1]))
  }

  function MaxCoefficient(es: seq<Equation>): (r: int)
    requires AllWellFormed(es)
    ensures 0 <= r
  {
    if es == [] then 0
    else
      var last := es[|es| - 1];
      var front := es[..|es| - 1];
      MaxOver(Reverse(last.result), MaxOver(Combined(last), MaxCoefficient(front)))
  }

  lemma {:induction false} CoefficientsAreBounded(es: seq<Equation>, i: nat)
    requires AllWellFormed(es) && i < |es|
    ensures AllBelow(Combined(es[i]), MaxCoefficient(es) + 1) && AllBelow(Reverse(es[i].result), MaxCoefficient(es) + 1)
    decreases |es|
  {
    if i < |es| - 1 {
      CoefficientsAreBounded(es[..|es| - 1], i);
    } else {
      LastIsBounded(es[i], MaxCoefficient(es[..i]));
    }
  }

  lemma LastIsBounded(e: Equation, m: int)
    requires WellFormed(e)
    ensures var r := MaxOver(Reverse(e.result), MaxOver(Combined(e), m));
      m <= r && AllBelow(Combined(e), r + 1) && AllBelow(Reverse(e.result), r + 1)
  {
    CombinedNonnegative(e);
  }

  /** Both sides have the same coefficients. */
  ghost predicate IsIdentity(e: Equation)
    requires WellFormed(e)
  {
    forall k: nat :: Coefficient(Combined(e), k) == Coefficient(Reverse(e.result), k)
  }

  lemma LowestDigit(p: Polynomial, rest: Polynomial, x: int)
    requires rest == if p == [] then [] else p[1..]
    ensures Eval(p, x) == Eval(rest, x) * x + Coefficient(p, 0)
  {}

  /** Digits below the radix are determined by the value. */
  lemma {:induction false} DigitsAreUnique(p: Polynomial, q: Polynomial, x: int)
    requires AllBelow(p, x) && AllBelow(q, x) && 0 < x && Eval(p, x) == Eval(q, x)
    ensures forall k: nat :: Coefficient(p, k) == Coefficient(q, k)
    decreases |p| + |q|
  {
    if |p| + |q| > 0 {
      var p', q' := if p == [] then [] else p[1..], if q == [] then [] else q[1..];
      var a, b := Coefficient(p, 0), Coefficient(q, 0);
      var v := Eval(p, x);
      LowestDigit(p, p', x);
      LowestDigit(q, q', x);
      DivisionIsUnique(v, x, Eval(p', x), a);
      DivisionIsUnique(v, x, Eval(q', x), b);
      DigitsAreUnique(p', q', x);
      forall k: nat
        ensures Coefficient(p, k) == Coefficient(q, k)
      {
        if k > 0 {
          assert Coefficient(p, k) == Coefficient(p', k - 1) && Coefficient(q, k) == Coefficient(q', k - 1);
        }
      }
    }
  }

  lemma CombinedMeaning(e: Equation, x: int)
    requires WellFormed(e)
    ensures Holds(e, x) <==> Eval(Combined(e), x) == Eval(Reverse(e.result), x)
  {
    ReverseMeaning(e.left, x);
    ReverseMeaning(e.right, x);
    ReverseMeaning(e.result, x);
    if e.op == Times {
      ProductEval(Reverse(e.left), Reverse(e.right), x);
    } else {
      EvalCombine(Combined(e), Reverse(e.left), Reverse(e.right), 1, x);
    }
  }

  lemma IdentityHolds(e: Equation, x: int)
    requires WellFormed(e) && IsIdentity(e)
    ensures Holds(e, x)
  {
    var p, q := Combined(e), Reverse(e.result);
    CombinedMeaning(e, x);
    var zero: Polynomial := seq(Max(|p|, |q|), _ => 0);
    EvalCombine(zero, p, q, -1, x);
    EvalZeros(zero, x);
  }

  /** Beyond every coefficient an equation holds only if it is an identity. */
  lemma HoldsBeyondCoefficients(es: seq<Equation>, i: nat, x: int)
    requires AllWellFormed(es) && i < |es| && MaxCoefficient(es) < x
    ensures Holds(es[i], x) <==> IsIdentity(es[i])
  {
    var e := es[i];
    CombinedMeaning(e, x);
    CoefficientsAreBounded(es, i);
    if Holds(e, x) {
      DigitsAreUnique(Combined(e), Reverse(e.result), x);
    }
    if IsIdentity(e) {
      IdentityHolds(e, x);
    }
  }

  // ---------- the search ----------

  predicate AllHold(es: seq<Equation>, x: int) {
    forall i :: 0 <= i < |es| ==> Holds(es[i], x)
  }

  ghost predicate AllIdentities(es: seq<Equation>)
    requires AllWellFormed(es)
  {
    forall i :: 0 <= i < |es| ==> IsIdentity(es[i])
  }

  lemma AllHoldBeyondCoefficients(es: seq<Equation>, x: int)
    requires AllWellFormed(es) && MaxCoefficient(es) < x
    ensures AllHold(es, x) <==> AllIdentities(es)
  {
    forall i | 0 <= i < |es|
      ensures Holds(es[i], x) <==> IsIdentity(es[i])
    {
      HoldsBeyondCoefficients(es, i, x);
    }
  }

  /** The intended answer, about all radixes above every digit. */
  ghost predicate IsAnswer(es: seq<Equation>, answer: int) {
    var d := MaxDigit(es);
    || (answer == 0 && forall x :: d < x ==> !AllHold(es, x))
    || (answer == -1 && exists x, y :: d < x < y && AllHold(es, x) && AllHold(es, y))
    || (d < answer && AllHold(es, answer) && forall x :: d < x && AllHold(es, x) ==> x == answer)
  }

  /** What trying the radixes from `low` to `high` yields. */
  ghost predicate IsOutcome(es: seq<Equation>, low: int, high: int, answer: int) {
    || (answer == 0 && forall x :: low <= x <= high ==> !AllHold(es, x))
    || (answer == -1 && exists x, y :: low <= x < y <= high && AllHold(es, x) && AllHold(es, y))
    || (low <= answer <= high && AllHold(es, answer) && forall x :: low <= x <= high && AllHold(es, x) ==> x == answer)
  }

  /** The polynomial vanishes in exactly the radixes in which the equation holds. */
  ghost predicate Represents(p: Polynomial, e: Equation) {
    1 <= |p| && forall x :: Eval(p, x) == 0 <==> Holds(e, x)
  }

  /** The difference of the two sides, and the bounds kept up to date. */
  method BuildEquation(e: Equation, maxDigit: int, maxCoeff: int) returns (p: Polynomial, digit: int, coeff: int)
    requires WellFormed(e)
    ensures Represents(p, e)
    ensures digit == MaxOver(DigitsOf(e), maxDigit)
    ensures coeff == MaxOver(Reverse(e.result), MaxOver(Combined(e), maxCoeff))
  {
    digit := FindMaxCoeff(DigitsOf(e), maxDigit);
    var a, b, c := Reverse(e.left), Reverse(e.right), Reverse(e.result);
    ReverseMeaning(e.left, 0);
    ReverseMeaning(e.right, 0);
    if e.op == Times {
      a := Multiply(a, b);
    } else {
      a := Add(a, b);
    }
    coeff := FindMaxCoeff(a, maxCoeff);
    coeff := FindMaxCoeff(c, coeff);
    p := Subtract(a, c);
    forall x
      ensures Eval(p, x) == 0 <==> Holds(e, x)
    {
      CombinedMeaning(e, x);
    }
  }

  // ---------- reading ----------

  /** A line of the input: three numbers with the characters found between them. */
  datatype Line = Line(left: Digits, op: char, right: Digits, eqn: char, result: Digits)

  predicate HasDigits(l: Line) {
    l.left != [] && l.right != [] && l.result != []
  }

  // What the characters of a line mean.

  /** There is something else in the place of the operator or of the equals sign. */
  predicate Malformed(l: Line) {
    l.eqn != '=' || (l.op != '*' && l.op != '+')
  }

  /** The line is true in radix x. */
  predicate LineHolds(l: Line, x: int) {
    || (l.op == '*' && Value(l.left, x) * Value(l.right, x) == Value(l.result, x))
    || (l.op == '+' && Value(l.left, x) + Value(l.right, x) == Value(l.result, x))
  }

  /** The polynomial vanishes in exactly the radixes in which the line is true. */
  ghost predicate RepresentsLine(p: Polynomial, l: Line) {
    1 <= |p| && forall x :: Eval(p, x) == 0 <==> LineHolds(l, x)
  }

  /** The side with the operator as a polynomial in the radix. */
  function LeftSide(l: Line): Polynomial
    requires HasDigits(l)
  {
    ReverseMeaning(l.left, 0);
    ReverseMeaning(l.right, 0);
    if l.op == '*' then Product(Reverse(l.left), Reverse(l.right)) else Sum(Reverse(l.left), Reverse(l.right))
  }

  predicate LinesHold(lines: seq<Line>, x: int) {
    forall i :: 0 <= i < |lines| ==> LineHolds(lines[i], x)
  }

  predicate IsDigit(l: Line, d: nat) {
    d in l.left || d in l.right || d in l.result
  }

  predicate IsCoefficient(l: Line, c: int)
    requires HasDigits(l)
  {
    c in LeftSide(l) || c in l.result
  }

  /** A number can be the radix if it is positive and above every digit. */
  ghost predicate IsRadix(lines: seq<Line>, x: int) {
    0 < x && forall i: nat, d: nat :: i < |lines| && IsDigit(lines[i], d) ==> d < x
  }

  /** 0 if no radix makes all lines true, -1 if several do, and otherwise the only one that does. */
  ghost predicate AnswersLines(lines: seq<Line>, answer: int) {
    || (answer == 0 && forall x :: IsRadix(lines, x) ==> !LinesHold(lines, x))
    || (answer == -1 &&
        exists x, y :: x < y && IsRadix(lines, x) && LinesHold(lines, x) && IsRadix(lines, y) && LinesHold(lines, y))
    || (IsRadix(lines, answer) && forall x :: IsRadix(lines, x) ==> (LinesHold(lines, x) <==> x == answer))
  }

  /** Some coefficient is no smaller than any digit, or some line is not true for every number. */
  ghost predicate TellsAll(lines: seq<Line>)
    requires forall i :: 0 <= i < |lines| ==> HasDigits(lines[i])
  {
    CoefficientsReach(lines) || exists x :: !LinesHold(lines, x)
  }

  ghost predicate CoefficientsReach(lines: seq<Line>)
    requires forall i :: 0 <= i < |lines| ==> HasDigits(lines[i])
  {
    forall i: nat, d: nat :: i < |lines| && IsDigit(lines[i], d) ==> SomeCoefficientFrom(lines, d)
  }

  ghost predicate SomeCoefficientFrom(lines: seq<Line>, d: nat)
    requires forall i :: 0 <= i < |lines| ==> HasDigits(lines[i])
  {
    exists i: nat, c: int :: i < |lines| && IsCoefficient(lines[i], c) && d <= c
  }

  /** The equation a line stands for; None where the program aborts. */
  function Parse(l: Line): Option<Equation> {
    if l.eqn != '=' then None
    else if l.op == '*' then Some(Equation(l.left, Times, l.right, l.result))
    else if l.op == '+' then Some(Equation(l.left, Plus, l.right, l.result))
    else None
  }

  /** The equation read says what the line says. */
  lemma ParsedLine(l: Line)
    requires HasDigits(l)
    ensures Parse(l).None? <==> Malformed(l)
    ensures Parse(l).Some? ==>
      var e := Parse(l).value;
      && WellFormed(e) && Combined(e) == LeftSide(l) && e.result == l.result
      && DigitsOf(e) == l.left + l.right + l.result
      && forall x :: Holds(e, x) <==> LineHolds(l, x)
  {}

  lemma RepresentationsAgree(p: Polynomial, l: Line)
    requires HasDigits(l) && Parse(l).Some? && Represents(p, Parse(l).value)
    ensures RepresentsLine(p, l)
  {
    ParsedLine(l);
  }

  /** The equations of the lines. */
  ghost predicate Parsed(lines: seq<Line>, es: seq<Equation>) {
    |es| == |lines| && forall i :: 0 <= i < |lines| ==> Parse(lines[i]) == Some(es[i])
  }

  /** read_equation: aborts, here None, exactly at a wrong operator or equals sign. */
  method ReadEquation(l: Line, maxDigit: int, maxCoeff: int) returns (p: Option<Polynomial>, digit: int, coeff: int)
    requires HasDigits(l)
    ensures p.None? <==> Malformed(l)
    ensures p.Some? ==> RepresentsLine(p.value, l)
    ensures p.Some? ==>
      && digit == MaxOver(l.left + l.right + l.result, maxDigit)
      && coeff == MaxOver(Reverse(l.result), MaxOver(LeftSide(l), maxCoeff))
    ensures p.None? <==> Parse(l).None?
    ensures p.Some? ==>
      var e := Parse(l).value;
      && WellFormed(e) && Represents(p.value, e)
      && digit == MaxOver(DigitsOf(e), maxDigit)
      && coeff == MaxOver(Reverse(e.result), MaxOver(Combined(e), maxCoeff))
  {
    p, digit, coeff := None, maxDigit, maxCoeff;
    if l.eqn == '=' {
      if l.op == '*' || l.op == '+' {
        var q;
        var op := if l.op == '*' then Times else Plus;
        q, digit, coeff := BuildEquation(Equation(l.left, op, l.right, l.result), maxDigit, maxCoeff);
        ParsedLine(l);
        RepresentationsAgree(q, l);
        p := Some(q);
      }
    }
  }

  /** What has been read: each equation represented, and the bounds over all of them. */
  ghost predicate HasRead(lines: seq<Line>, es: seq<Equation>, equations: seq<Polynomial>,
                          maxDigit: int, maxCoeff: int) {
    && Parsed(lines, es) && AllWellFormed(es) && |equations| == |es|
    && (forall i :: 0 <= i < |es| ==> Represents(equations[i], es[i]))
    && maxDigit == MaxDigit(es) && maxCoeff == MaxCoefficient(es)
  }

  /** One more line. */
  lemma ReadOneMore(lines: seq<Line>, es: seq<Equation>, equations: seq<Polynomial>, maxDigit: int, maxCoeff: int,
                    l: Line, e: Equation, p: Polynomial, digit: int, coeff: int)
    requires HasRead(lines, es, equations, maxDigit, maxCoeff)
    requires Parse(l) == Some(e) && WellFormed(e) && Represents(p, e)
    requires digit == MaxOver(DigitsOf(e), maxDigit)
    requires coeff == MaxOver(Reverse(e.result), MaxOver(Combined(e), maxCoeff))
    ensures HasRead(lines + [l], es + [e], equations + [p], digit, coeff)
  {
    var all := es + [e];
    assert all[..|es|] == es && all[|es|] == e;
    OneMoreRepresented(es, equations, e, p);
    OneMoreParsed(lines, es, l, e);
  }

  lemma OneMoreRepresented(es: seq<Equation>, equations: seq<Polynomial>, e: Equation, p: Polynomial)
    requires |equations| == |es| && forall i :: 0 <= i < |es| ==> Represents(equations[i], es[i])
    requires Represents(p, e)
    ensures forall i :: 0 <= i <= |es| ==> Represents((equations + [p])[i], (es + [e])[i])
  {
    forall i | 0 <= i <= |es|
      ensures Represents((equations + [p])[i], (es + [e])[i])
    {
      assert i < |es| ==> Represents(equations[i], es[i]);
    }
  }

  lemma OneMoreParsed(lines: seq<Line>, es: seq<Equation>, l: Line, e: Equation)
    requires Parsed(lines, es) && AllWellFormed(es) && Parse(l) == Some(e) && WellFormed(e)
    ensures Parsed(lines + [l], es + [e]) && AllWellFormed(es + [e])
  {}

  lemma OneLineMore(lines: seq<Line>, n: nat)
    requires n < |lines|
    ensures lines[..n + 1] == lines[..n] + [lines[n]]
  {}

  predicate SomeRefused(lines: seq<Line>) {
    exists i :: 0 <= i < |lines| && Parse(lines[i]).None?
  }

  lemma NoneRefused(lines: seq<Line>, es: seq<Equation>, equations: seq<Polynomial>, maxDigit: int, maxCoeff: int)
    requires HasRead(lines, es, equations, maxDigit, maxCoeff)
    ensures !SomeRefused(lines)
  {}

  /** One turn of the loop over the lines. */
  method ReadNext(lines: seq<Line>, n: nat, ghost es: seq<Equation>, read: seq<Polynomial>,
                  maxDigit: int, maxCoeff: int)
    returns (more: Option<seq<Polynomial>>, digit: int, coeff: int, ghost all: seq<Equation>)
    requires n < |lines| && HasDigits(lines[n]) && HasRead(lines[..n], es, read, maxDigit, maxCoeff)
    ensures more.None? ==> SomeRefused(lines)
    ensures more.Some? ==> HasRead(lines[..n + 1], all, more.value, digit, coeff)
  {
    var l := lines[n];
    var p;
    p, digit, coeff := ReadEquation(l, maxDigit, maxCoeff);
    more, all := None, es;
    if p.Some? {
      ghost var e := Parse(l).value;
      ReadOneMore(lines[..n], es, read, maxDigit, maxCoeff, l, e, p.value, digit, coeff);
      more, all := Some(read + [p.value]), es + [e];
      OneLineMore(lines, n);
    }
  }

  method ReadEquations(lines: seq<Line>)
    returns (equations: Option<seq<Polynomial>>, maxDigit: int, maxCoeff: int, ghost es: seq<Equation>)
    requires forall i :: 0 <= i < |lines| ==> HasDigits(lines[i])
    ensures equations.None? <==> SomeRefused(lines)
    ensures equations.Some? ==> HasRead(lines, es, equations.value, maxDigit, maxCoeff)
  {
    maxDigit, maxCoeff, es := 0, 0, [];
    var read: seq<Polynomial> := [];
    NothingRead();
    for n := 0 to |lines|
      invariant HasRead(lines[..n], es, read, maxDigit, maxCoeff)
    {
      equations, maxDigit, maxCoeff, es := ReadNext(lines, n, es, read, maxDigit, maxCoeff);
      if equations.None? {
        return;
      }
      read := equations.value;
    }
    assert lines[..|lines|] == lines;
    NoneRefused(lines, es, read, maxDigit, maxCoeff);
    equations := Some(read);
  }

  lemma NothingRead()
    ensures HasRead([], [], [], 0, 0)
  {}

  method IsValidRadix(ghost es: seq<Equation>, equations: seq<Polynomial>, radix: int) returns (valid: bool)
    requires |equations| == |es| && forall i :: 0 <= i < |es| ==> Represents(equations[i], es[i])
    ensures valid <==> AllHold(es, radix)
  {
    valid := true;
    for i := 0 to |equations|
      invariant valid
      invariant forall k :: 0 <= k < i ==> Holds(es[k], radix)
    {
      var value := Compute(equations[i], radix);
      if value != 0 {
        return false;
      }
    }
  }

  lemma OutcomeStep(es: seq<Equation>, low: int, radix: int, answer: int)
    requires IsOutcome(es, low, radix - 1, answer) && answer != -1 && 0 < low <= radix
    ensures !AllHold(es, radix) ==> IsOutcome(es, low, radix, answer)
    ensures AllHold(es, radix) && answer == 0 ==> IsOutcome(es, low, radix, radix)
    ensures AllHold(es, radix) && answer != 0 ==> forall high :: radix <= high ==> IsOutcome(es, low, high, -1)
  {}

  lemma OutcomeOfNothing(es: seq<Equation>, low: int, high: int, answer: int)
    requires IsOutcome(es, low, low - 1, answer) && high < low
    ensures IsOutcome(es, low, high, answer)
  {}

  /** The loop over the radixes from `low` to `high`. */
  method TryRadixes(ghost es: seq<Equation>, equations: seq<Polynomial>, low: int, high: int)
    returns (lastValidRadix: int)
    requires |equations| == |es| && forall i :: 0 <= i < |es| ==> Represents(equations[i], es[i])
    requires 0 < low
    ensures IsOutcome(es, low, high, lastValidRadix)
  {
    lastValidRadix := 0;
    var radix := low;
    while radix <= high
      invariant low <= radix && (radix == low || radix <= high + 1)
      invariant lastValidRadix != -1 && IsOutcome(es, low, radix - 1, lastValidRadix)
      decreases high - radix
    {
      var valid := IsValidRadix(es, equations, radix);
      OutcomeStep(es, low, radix, lastValidRadix);
      if valid {
        if lastValidRadix != 0 {
          return -1;
        }
        lastValidRadix := radix;
      }
      radix := radix + 1;
    }
    if high < low {
      OutcomeOfNothing(es, low, high, lastValidRadix);
    }
  }

  // ---------- the lines against the equations read ----------

  lemma MalformedLines(lines: seq<Line>)
    requires forall i :: 0 <= i < |lines| ==> HasDigits(lines[i])
    ensures (exists i :: 0 <= i < |lines| && Malformed(lines[i])) <==> SomeRefused(lines)
  {
    forall i | 0 <= i < |lines|
      ensures Malformed(lines[i]) <==> Parse(lines[i]).None?
    {
      ParsedLine(lines[i]);
    }
  }

  lemma LinesAgree(lines: seq<Line>, es: seq<Equation>, x: int)
    requires Parsed(lines, es) && forall i :: 0 <= i < |lines| ==> HasDigits(lines[i])
    ensures LinesHold(lines, x) <==> AllHold(es, x)
  {
    forall i | 0 <= i < |lines|
      ensures LineHolds(lines[i], x) <==> Holds(es[i], x)
    {
      ParsedLine(lines[i]);
    }
  }

  /** The largest digit is one of the digits, or zero. */
  lemma {:induction false} LargestDigit(es: seq<Equation>)
    ensures forall i: nat, d: nat :: i < |es| && d in DigitsOf(es[i]) ==> d <= MaxDigit(es)
    ensures MaxDigit(es) == 0 || exists i: nat :: i < |es| && MaxDigit(es) in DigitsOf(es[i])
  {
    if es != [] {
      var last, front := |es| - 1, es[..|es| - 1];
      LargestDigit(front);
      assert forall i: nat :: i < last ==> es[i] == front[i];
      if MaxDigit(es) in DigitsOf(es[last]) {
      } else if MaxDigit(front) != 0 {
        var i: nat :| i < |front| && MaxDigit(front) in DigitsOf(front[i]);
        assert MaxDigit(es) in DigitsOf(es[i]);
      }
    }
  }

  lemma DigitsAgree(lines: seq<Line>, es: seq<Equation>)
    requires Parsed(lines, es) && forall i :: 0 <= i < |lines| ==> HasDigits(lines[i])
    ensures forall i: nat, d: nat :: i < |lines| && IsDigit(lines[i], d) ==> d <= MaxDigit(es)
    ensures MaxDigit(es) == 0 || exists i: nat :: i < |lines| && IsDigit(lines[i], MaxDigit(es))
  {
    LargestDigit(es);
    forall i: nat, d: nat | i < |lines|
      ensures IsDigit(lines[i], d) <==> d in DigitsOf(es[i])
    {
      ParsedLine(lines[i]);
    }
    if MaxDigit(es) != 0 {
      var i: nat :| i < |es| && MaxDigit(es) in DigitsOf(es[i]);
      assert IsDigit(lines[i], MaxDigit(es));
    }
  }

  lemma RadixesAgree(lines: seq<Line>, es: seq<Equation>, x: int)
    requires Parsed(lines, es) && forall i :: 0 <= i < |lines| ==> HasDigits(lines[i])
    ensures IsRadix(lines, x) <==> MaxDigit(es) < x
  {
    DigitsAgree(lines, es);
  }

  lemma AnswersAgree(lines: seq<Line>, es: seq<Equation>, answer: int)
    requires Parsed(lines, es) && forall i :: 0 <= i < |lines| ==> HasDigits(lines[i])
    ensures AnswersLines(lines, answer) <==> IsAnswer(es, answer)
  {
    forall x
      ensures IsRadix(lines, x) <==> MaxDigit(es) < x
    {
      RadixesAgree(lines, es, x);
    }
    forall x
      ensures LinesHold(lines, x) <==> AllHold(es, x)
    {
      LinesAgree(lines, es, x);
    }
  }

  predicate HasCoefficient(e: Equation, c: int)
    requires WellFormed(e)
  {
    c in Combined(e) || c in Reverse(e.result)
  }

  /** The coefficients of one more equation. */
  lemma LargerCoefficient(e: Equation, m: int, r: int)
    requires WellFormed(e) && r == MaxOver(Reverse(e.result), MaxOver(Combined(e), m))
    ensures m <= r && forall c :: HasCoefficient(e, c) ==> c <= r
    ensures r == m || HasCoefficient(e, r)
  {}

  lemma FirstCoefficient(e: Equation, m: int)
    requires WellFormed(e) && 0 <= m && forall c :: HasCoefficient(e, c) ==> c <= m
    requires m == 0 || HasCoefficient(e, m)
    ensures HasCoefficient(e, m)
  {
    CombinedNonnegative(e);
    assert HasCoefficient(e, Combined(e)[0]);
  }

  ghost predicate AreBounded(es: seq<Equation>, m: int)
    requires AllWellFormed(es)
  {
    forall i: nat, c: int :: i < |es| && HasCoefficient(es[i], c) ==> c <= m
  }

  ghost predicate Occurs(es: seq<Equation>, m: int)
    requires AllWellFormed(es)
  {
    exists i: nat :: i < |es| && HasCoefficient(es[i], m)
  }

  lemma StaysBounded(es: seq<Equation>, front: seq<Equation>, last: Equation, m: int, r: int)
    requires AllWellFormed(es) && AllWellFormed(front) && WellFormed(last) && es == front + [last]
    requires AreBounded(front, m) && m <= r && forall c :: HasCoefficient(last, c) ==> c <= r
    ensures AreBounded(es, r)
  {}

  lemma StillOccurs(es: seq<Equation>, front: seq<Equation>, last: Equation, m: int)
    requires AllWellFormed(es) && AllWellFormed(front) && es == front + [last] && Occurs(front, m)
    ensures Occurs(es, m)
  {
    var i: nat :| i < |front| && HasCoefficient(front[i], m);
    assert es[i] == front[i];
  }

  lemma OccursLast(es: seq<Equation>, front: seq<Equation>, last: Equation, m: int)
    requires AllWellFormed(es) && WellFormed(last) && es == front + [last] && HasCoefficient(last, m)
    ensures Occurs(es, m)
  {
    assert es[|front|] == last;
  }

  lemma OneMoreLargest(es: seq<Equation>, front: seq<Equation>, last: Equation, m: int, r: int)
    requires AllWellFormed(es) && AllWellFormed(front) && WellFormed(last) && es == front + [last]
    requires AreBounded(front, m) && if front == [] then m == 0 else Occurs(front, m)
    requires r == MaxOver(Reverse(last.result), MaxOver(Combined(last), m))
    ensures AreBounded(es, r) && Occurs(es, r)
  {
    LargerCoefficient(last, m, r);
    StaysBounded(es, front, last, m, r);
    if front == [] {
      FirstCoefficient(last, r);
      OccursLast(es, front, last, r);
    } else if HasCoefficient(last, r) {
      OccursLast(es, front, last, r);
    } else {
      StillOccurs(es, front, last, m);
    }
  }

  /** The largest coefficient is one of the coefficients. */
  lemma {:induction false} LargestCoefficient(es: seq<Equation>)
    requires AllWellFormed(es)
    ensures AreBounded(es, MaxCoefficient(es))
    ensures if es == [] then MaxCoefficient(es) == 0 else Occurs(es, MaxCoefficient(es))
  {
    if es != [] {
      var front, last := es[..|es| - 1], es[|es| - 1];
      assert es == front + [last];
      LargestCoefficient(front);
      OneMoreLargest(es, front, last, MaxCoefficient(front), MaxCoefficient(es));
    }
  }

  lemma ReverseHas(ds: Digits, c: int)
    ensures c in Reverse(ds) <==> c in ds
  {
    ReverseMeaning(ds, 0);
    if c in ds {
      var i :| 0 <= i < |ds| && ds[i] == c;
      assert Reverse(ds)[|ds| - 1 - i] == c;
    }
  }

  lemma CoefficientsAgree(lines: seq<Line>, es: seq<Equation>, d: nat)
    requires Parsed(lines, es) && AllWellFormed(es) && lines != []
    requires forall i :: 0 <= i < |lines| ==> HasDigits(lines[i])
    ensures SomeCoefficientFrom(lines, d) <==> d <= MaxCoefficient(es)
  {
    LargestCoefficient(es);
    forall i: nat, c: int | i < |lines|
      ensures IsCoefficient(lines[i], c) <==> HasCoefficient(es[i], c)
    {
      ParsedLine(lines[i]);
      ReverseHas(lines[i].result, c);
    }
    var m := MaxCoefficient(es);
    var i: nat :| i < |es| && HasCoefficient(es[i], m);
    assert IsCoefficient(lines[i], m);
  }

  lemma DigitsReached(lines: seq<Line>, es: seq<Equation>)
    requires Parsed(lines, es) && AllWellFormed(es)
    requires forall i :: 0 <= i < |lines| ==> HasDigits(lines[i])
    ensures CoefficientsReach(lines) <==> MaxDigit(es) <= MaxCoefficient(es)
  {
    DigitsAgree(lines, es);
    if MaxDigit(es) <= MaxCoefficient(es) {
      forall i: nat, d: nat | i < |lines| && IsDigit(lines[i], d)
        ensures SomeCoefficientFrom(lines, d)
      {
        CoefficientsAgree(lines, es, d);
      }
    } else {
      CoefficientsAgree(lines, es, MaxDigit(es));
    }
  }

  /** Identities are what holds for every number. */
  lemma IdentitiesAlwaysHold(es: seq<Equation>)
    requires AllWellFormed(es)
    ensures AllIdentities(es) <==> forall x :: AllHold(es, x)
  {
    var x := MaxCoefficient(es) + 1;
    AllHoldBeyondCoefficients(es, x);
    if AllIdentities(es) {
      forall y, i | 0 <= i < |es|
        ensures Holds(es[i], y)
      {
        IdentityHolds(es[i], y);
      }
    } else {
      assert !AllHold(es, x);
    }
  }

  lemma TellsAllIsReliable(lines: seq<Line>, es: seq<Equation>)
    requires Parsed(lines, es) && AllWellFormed(es)
    requires forall i :: 0 <= i < |lines| ==> HasDigits(lines[i])
    ensures TellsAll(lines) <==> Reliable(es)
  {
    DigitsReached(lines, es);
    IdentitiesAlwaysHold(es);
    forall x
      ensures LinesHold(lines, x) <==> AllHold(es, x)
    {
      LinesAgree(lines, es, x);
    }
  }

  /**
   The program: it aborts exactly at a malformed line, and otherwise answers the question about all
   radixes exactly when the condition holds.
   */
  method FindRadix(lines: seq<Line>) returns (lastValidRadix: Option<int>, ghost es: seq<Equation>)
    requires forall i :: 0 <= i < |lines| ==> HasDigits(lines[i])
    ensures lastValidRadix.None? <==> exists i :: 0 <= i < |lines| && Malformed(lines[i])
    ensures lastValidRadix.Some? ==> (AnswersLines(lines, lastValidRadix.value) <==> TellsAll(lines))
    ensures lastValidRadix.Some? ==>
      && Parsed(lines, es) && AllWellFormed(es)
      && IsOutcome(es, MaxDigit(es) + 1, MaxCoefficient(es) + 2, lastValidRadix.value)
      && (IsAnswer(es, lastValidRadix.value) <==> Reliable(es))
  {
    var equations, maxDigit, maxCoeff;
    equations, maxDigit, maxCoeff, es := ReadEquations(lines);
    MalformedLines(lines);
    if equations.None? {
      return None, es;
    }
    var answer := TryRadixes(es, equations.value, maxDigit + 1, maxCoeff + 2);
    SearchDecides(es, answer);
    AnswersAgree(lines, es, answer);
    TellsAllIsReliable(lines, es);
    lastValidRadix := Some(answer);
  }

  /**
   The radixes tried tell everything if they reach past every coefficient, and also if some
   equation is not an identity. Otherwise all radixes are valid but at most one is tried.
   */
  ghost predicate Reliable(es: seq<Equation>)
    requires AllWellFormed(es)
  {
    MaxDigit(es) <= MaxCoefficient(es) || !AllIdentities(es)
  }

  lemma SearchDecides(es: seq<Equation>, answer: int)
    requires AllWellFormed(es) && IsOutcome(es, MaxDigit(es) + 1, MaxCoefficient(es) + 2, answer)
    ensures IsAnswer(es, answer) <==> Reliable(es)
  {
    var d, m := MaxDigit(es), MaxCoefficient(es);
    forall x | m < x
      ensures AllHold(es, x) <==> AllIdentities(es)
    {
      AllHoldBeyondCoefficients(es, x);
    }
    if AllIdentities(es) {
      var z := Max(d, m);
      assert AllHold(es, z + 1) && AllHold(es, z + 2);
      assert d <= m ==> AllHold(es, m + 1) && AllHold(es, m + 2);
    }
  }

  /** The equation 0*F=0. */
  function ZeroTimesFifteen(): Equation {
    Equation([0], Times, [15], [0])
  }

  lemma ZeroTimesFifteenDigits(e: Equation)
    requires e == ZeroTimesFifteen()
    ensures MaxDigit([e]) == 15
  {
    assert [e][..0] == [];
    assert DigitsOf(e) == [0, 15, 0];
    assert [0, 15, 0][..2] == [0, 15] && [0, 15][..1] == [0] && [0][..0] == [];
    assert MaxOver([0], 0) == 0 && MaxOver([0, 15], 0) == 15 && MaxOver([0, 15, 0], 0) == 15;
  }

  lemma ZeroTimesFifteenCoefficients(e: Equation)
    requires e == ZeroTimesFifteen() && AllWellFormed([e])
    ensures MaxCoefficient([e]) == 0 && IsIdentity(e)
  {
    assert [e][..0] == [];
    assert Reverse([0]) == [0] && Reverse([15]) == [15];
    assert Combined(e) == [0];
    assert [0][..0] == [];
    assert MaxOver([0], 0) == 0;
  }

  /** 0*F=0 holds in every radix, but none is tried. */
  lemma ZeroOperandMisleads(e: Equation, answer: int)
    requires e == ZeroTimesFifteen()
    ensures AllWellFormed([e]) && MaxDigit([e]) + 1 == 16 && MaxCoefficient([e]) + 2 == 2
    ensures !Reliable([e]) && (IsOutcome([e], 16, 2, answer) ==> answer == 0 && !IsAnswer([e], answer))
  {
    ZeroTimesFifteenDigits(e);
    ZeroTimesFifteenCoefficients(e);
    AllHoldBeyondCoefficients([e], 16);
    assert AllHold([e], 16);
  }
}
