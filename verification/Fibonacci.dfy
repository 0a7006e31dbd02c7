/**
 Fibonacci numbers by repeated squaring: eljudge/137.cpp modulo m in 64-bit words, and
 eljudge/009.java over unbounded integers with a 32-bit index.
 */
module Fibonacci {
  import opened Modular

  function F(n: nat): nat {
    if n < 2 then n else F(n - 1) + F(n - 2)
  }

  /** The number before F(n); F(-1) is 1. */
  function Previous(n: nat): nat {
    if n == 0 then 1 else F(n - 1)
  }

  /** Two sums of products with the same left factors add up factor by factor. */
  lemma AddProducts(x: int, y: int, a: int, b: int, c: int, s: int, t: int)
    requires s == x * a + y * b && t == x * b + y * c
    ensures s + t == x * (a + b) + y * (b + c)
  {}

  lemma AdditionBase(p: nat)
    ensures F(p) == F(p) * F(1) + Previous(p) * F(0)
    ensures F(p + 1) == F(p) * F(2) + Previous(p) * F(1)
  {
    assert F(2) == F(1) + F(0) == 1;
    assert F(p + 1) == F(p) + Previous(p);
  }

  lemma AdditionStep(p: nat, r: nat)
    requires F(p + r) == F(p) * F(r + 1) + Previous(p) * F(r)
    requires F(p + (r + 1)) == F(p) * F(r + 2) + Previous(p) * F(r + 1)
    ensures F(p + (r + 2)) == F(p) * F(r + 3) + Previous(p) * F(r + 2)
  {
    var x, y, a, b, c := F(p), Previous(p), F(r + 2), F(r + 1), F(r);
    AddProducts(x, y, a, b, c, F(p + (r + 1)), F(p + r));
    assert F(r + 3) == a + b && a == b + c;
  }

  lemma {:induction false} AdditionPair(p: nat, r: nat)
    ensures F(p + r) == F(p) * F(r + 1) + Previous(p) * F(r)
    ensures F(p + (r + 1)) == F(p) * F(r + 2) + Previous(p) * F(r + 1)
  {
    if r == 0 {
      AdditionBase(p);
    } else {
      AdditionPair(p, r - 1);
      AdditionStep(p, r - 1);
    }
  }

  lemma Addition(p: nat, q: nat)
    ensures F(p + q) == F(p) * F(q + 1) + Previous(p) * F(q)
  {
    AdditionPair(p, q);
  }

  // ---------- the matrix and the row ----------

  /** The power p of the matrix with rows (1, 1) and (1, 0), and the row reached at q. */
  lemma RowTimesMatrix(p: nat, q: nat)
    requires p >= 1
    ensures F(q) * F(p + 1) + Previous(q) * F(p) == F(q + p)
    ensures F(q) * F(p) + Previous(q) * Previous(p) == Previous(q + p)
  {
    Addition(q, p);
    Addition(q, p - 1);
  }

  lemma MatrixSquared(p: nat)
    requires p >= 1
    ensures F(p + 1) * F(p + 1) + F(p) * F(p) == F(2 * p + 1)
    ensures F(p + 1) * F(p) + F(p) * Previous(p) == F(2 * p)
    ensures F(p) * F(p + 1) + Previous(p) * F(p) == F(2 * p)
    ensures F(p) * F(p) + Previous(p) * Previous(p) == Previous(2 * p)
  {
    RowTimesMatrix(p, p);
    RowTimesMatrix(p, p + 1);
  }

  // ---------- the loop ----------

  /** The variables a, b, c, d of the matrix and rc, rd of the row. */
  datatype Words = Words(a: nat, b: nat, c: nat, d: nat, rc: nat, rd: nat)

  const START: Words := Words(1, 1, 1, 0, 0, 1)

  /** How a program computes x * y + z * w. */
  type Combine = (nat, nat, nat, nat) -> nat

  /** One round: the row is multiplied by the matrix if n is odd, then the matrix is squared. */
  function Round(w: Words, odd: bool, combine: Combine): Words {
    Words(
      combine(w.a, w.a, w.b, w.c),
      combine(w.a, w.b, w.b, w.d),
      combine(w.c, w.a, w.d, w.c),
      combine(w.c, w.b, w.d, w.d),
      if odd then combine(w.rc, w.a, w.rd, w.c) else w.rc,
      if odd then combine(w.rc, w.b, w.rd, w.d) else w.rd)
  }

  /** The variables when n has been halved down to zero. */
  function AfterLoop(w: Words, n: nat, combine: Combine): Words
    decreases n
  {
    if n == 0 then w else AfterLoop(Round(w, n % 2 == 1, combine), n / 2, combine)
  }

  /** A way of standing for a number that the program's arithmetic keeps. */
  ghost predicate Kept(combine: Combine, stands: (nat, nat) -> bool) {
    forall x, y, z, w, fx, fy, fz, fw :: KeptFor(combine, stands, x, y, z, w, fx, fy, fz, fw)
  }

  predicate KeptFor(combine: Combine, stands: (nat, nat) -> bool,
                    x: nat, y: nat, z: nat, w: nat, fx: nat, fy: nat, fz: nat, fw: nat) {
    stands(x, fx) && stands(y, fy) && stands(z, fz) && stands(w, fw)
    ==> stands(combine(x, y, z, w), fx * fy + fz * fw)
  }

  /** The matrix stands for the power p and the row for the place q. */
  predicate StandsAt(w: Words, p: nat, q: nat, stands: (nat, nat) -> bool) {
    && p >= 1
    && stands(w.a, F(p + 1)) && stands(w.b, F(p)) && stands(w.c, F(p)) && stands(w.d, Previous(p))
    && stands(w.rc, F(q)) && stands(w.rd, Previous(q))
  }

  lemma KeptAt(combine: Combine, stands: (nat, nat) -> bool,
               x: nat, y: nat, z: nat, w: nat, fx: nat, fy: nat, fz: nat, fw: nat, target: nat)
    requires Kept(combine, stands)
    requires stands(x, fx) && stands(y, fy) && stands(z, fz) && stands(w, fw)
    requires target == fx * fy + fz * fw
    ensures stands(combine(x, y, z, w), target)
  {
    assert KeptFor(combine, stands, x, y, z, w, fx, fy, fz, fw);
  }

  lemma RoundStandsAt(w: Words, p: nat, q: nat, odd: bool, combine: Combine, stands: (nat, nat) -> bool)
    requires Kept(combine, stands) && StandsAt(w, p, q, stands)
    ensures StandsAt(Round(w, odd, combine), 2 * p, if odd then q + p else q, stands)
  {
    var f, g, h := F(p + 1), F(p), Previous(p);
    MatrixSquared(p);
    KeptAt(combine, stands, w.a, w.a, w.b, w.c, f, f, g, g, F(2 * p + 1));
    KeptAt(combine, stands, w.a, w.b, w.b, w.d, f, g, g, h, F(2 * p));
    KeptAt(combine, stands, w.c, w.a, w.d, w.c, g, f, h, g, F(2 * p));
    KeptAt(combine, stands, w.c, w.b, w.d, w.d, g, g, h, h, Previous(2 * p));
    if odd {
      RowTimesMatrix(p, q);
      KeptAt(combine, stands, w.rc, w.a, w.rd, w.c, F(q), f, Previous(q), g, F(q + p));
      KeptAt(combine, stands, w.rc, w.b, w.rd, w.d, F(q), g, Previous(q), h, Previous(q + p));
    }
  }

  lemma HalfTheWay(p: nat, q: nat, n: nat)
    ensures (if n % 2 == 1 then q + p else q) + 2 * p * (n / 2) == q + p * n
  {
    assert 2 * p * (n / 2) == p * (2 * (n / 2));
  }

  /** After the loop the row stands n powers further. */
  lemma {:induction false} LoopStandsAt(w: Words, p: nat, q: nat, n: nat,
                                        combine: Combine, stands: (nat, nat) -> bool)
    requires Kept(combine, stands) && StandsAt(w, p, q, stands)
    ensures stands(AfterLoop(w, n, combine).rc, F(q + p * n))
    decreases n
  {
    if n > 0 {
      RoundStandsAt(w, p, q, n % 2 == 1, combine, stands);
      LoopStandsAt(Round(w, n % 2 == 1, combine), 2 * p, if n % 2 == 1 then q + p else q, n / 2, combine, stands);
      HalfTheWay(p, q, n);
    }
  }

  lemma StandsForPlace(n: nat, combine: Combine, stands: (nat, nat) -> bool)
    requires Kept(combine, stands) && StandsAt(START, 1, 0, stands)
    ensures stands(AfterLoop(START, n, combine).rc, F(n))
  {
    LoopStandsAt(START, 1, 0, n, combine, stands);
  }

  // ---------- 64-bit words ----------

  const WORD: nat := 0x1_0000_0000_0000_0000

  /** x * y + z * w in 64-bit words, then modulo m. */
  function Combined(x: nat, y: nat, z: nat, w: nat, m: nat): nat
    requires m >= 1
  {
    ((x * y) % WORD + (z * w) % WORD) % WORD % m
  }

  /** The moduli for which wrapping around does no harm. */
  predicate Safe(m: nat) {
    m >= 1 && (2 * ((m - 1) * (m - 1)) < 0x1_0000_0000_0000_0000 || 0x1_0000_0000_0000_0000 % m == 0)
  }

  lemma ModuloAdd(x: int, y: int, m: int)
    requires m >= 1
    ensures (x % m + y % m) % m == (x + y) % m
  {
    var k := x / m + y / m;
    assert x + y == (x % m + y % m) + k * m;
    ModuloShift(x % m + y % m, m, k);
  }

  lemma ModuloMultiply(x: int, y: int, m: int)
    requires m >= 1
    ensures ((x % m) * (y % m)) % m == (x * y) % m
  {
    var k := (x / m) * y + (x % m) * (y / m);
    assert x * y == (x / m * m + x % m) * y;
    assert (x % m) * y == (x % m) * (y / m * m + y % m);
    assert x * y == (x % m) * (y % m) + k * m;
    ModuloShift((x % m) * (y % m), m, k);
  }

  /** A multiple of m can be left out before taking the remainder. */
  lemma ModuloModulo(x: nat, m: nat, word: nat)
    requires m >= 1 && word >= 1 && word % m == 0
    ensures x % word % m == x % m
  {
    var k := x / word * (word / m);
    assert x == x % word + x / word * (word / m * m);
    assert x == x % word + k * m;
    ModuloShift(x % word, m, k);
  }

  lemma ProductBound(x: nat, y: nat, b: nat)
    requires x <= b && y <= b
    ensures x * y <= b * b
  {
    assert x * y <= x * b <= b * b;
  }

  lemma WrappedIsExact(u: nat, v: nat, m: nat)
    requires m >= 1 && WORD % m == 0
    ensures (u % WORD + v % WORD) % WORD % m == (u + v) % m
  {
    var wrapped := u % WORD + v % WORD;
    ModuloModulo(wrapped, m, WORD);
    ModuloModulo(u, m, WORD);
    ModuloModulo(v, m, WORD);
    ModuloAdd(u % WORD, v % WORD, m);
    ModuloAdd(u, v, m);
  }

  /** No product and no sum reaches 2^64. */
  lemma NothingWraps(u: nat, v: nat, bound: nat)
    requires u + v <= bound < WORD
    ensures (u % WORD + v % WORD) % WORD == u + v
  {}

  lemma ProductsBound(x: nat, y: nat, z: nat, w: nat, b: nat)
    requires x <= b && y <= b && z <= b && w <= b
    ensures x * y + z * w <= 2 * (b * b)
  {
    ProductBound(x, y, b);
    ProductBound(z, w, b);
  }

  lemma SmallIsExact(x: nat, y: nat, z: nat, w: nat, m: nat, b: nat)
    requires m >= 1 && x <= b && y <= b && z <= b && w <= b && 2 * (b * b) < WORD
    ensures Combined(x, y, z, w, m) == (x * y + z * w) % m
  {
    var bound := 2 * (b * b);
    ProductsBound(x, y, z, w, b);
    NothingWraps(x * y, z * w, bound);
  }

  lemma CombinedIsExact(x: nat, y: nat, z: nat, w: nat, m: nat)
    requires Safe(m)
    requires (x < m || x <= 1) && (y < m || y <= 1) && (z < m || z <= 1) && (w < m || w <= 1)
    ensures Combined(x, y, z, w, m) == (x * y + z * w) % m
  {
    if WORD % m == 0 {
      WrappedIsExact(x * y, z * w, m);
    } else {
      assert m != 1;
      SmallIsExact(x, y, z, w, m, m - 1);
    }
  }

  /** The same with numbers that are known modulo m only. */
  lemma CombinedModulo(x: nat, y: nat, z: nat, w: nat, fx: nat, fy: nat, fz: nat, fw: nat, m: nat)
    requires Safe(m)
    requires (x < m || x <= 1) && (y < m || y <= 1) && (z < m || z <= 1) && (w < m || w <= 1)
    requires x % m == fx % m && y % m == fy % m && z % m == fz % m && w % m == fw % m
    ensures Combined(x, y, z, w, m) == (fx * fy + fz * fw) % m
  {
    CombinedIsExact(x, y, z, w, m);
    ModuloAdd(x * y, z * w, m);
    ModuloAdd(fx * fy, fz * fw, m);
    ModuloMultiply(x, y, m);
    ModuloMultiply(z, w, m);
    ModuloMultiply(fx, fy, m);
    ModuloMultiply(fz, fw, m);
  }

  // ---------- the program modulo m ----------

  function InWords(m: nat): Combine
    requires m >= 1
  {
    (x, y, z, w) => Combined(x, y, z, w, m)
  }

  function Modulo(m: nat): (nat, nat) -> bool
    requires m >= 1
  {
    (x, f) => (x < m || x <= 1) && x % m == f % m
  }

  lemma OneKeepsTheRemainder(m: nat, x: nat, y: nat, z: nat, w: nat, fx: nat, fy: nat, fz: nat, fw: nat)
    requires Safe(m)
    ensures KeptFor(InWords(m), Modulo(m), x, y, z, w, fx, fy, fz, fw)
  {
    if Modulo(m)(x, fx) && Modulo(m)(y, fy) && Modulo(m)(z, fz) && Modulo(m)(w, fw) {
      CombinedModulo(x, y, z, w, fx, fy, fz, fw, m);
      var r := Combined(x, y, z, w, m);
      ModuloModulo(fx * fy + fz * fw, m, m);
      assert InWords(m)(x, y, z, w) == r;
    }
  }

  lemma WordsKeepTheRemainder(m: nat)
    requires Safe(m)
    ensures Kept(InWords(m), Modulo(m))
  {
    forall x, y, z, w, fx, fy, fz, fw
      ensures KeptFor(InWords(m), Modulo(m), x, y, z, w, fx, fy, fz, fw)
    {
      OneKeepsTheRemainder(m, x, y, z, w, fx, fy, fz, fw);
    }
  }

  /** The remainder itself is left in rc. */
  lemma {:induction false} RemainderIsReduced(w: Words, n: nat, m: nat)
    requires m >= 1 && w.rc < m
    ensures AfterLoop(w, n, InWords(m)).rc < m
    decreases n
  {
    if n > 0 {
      RemainderIsReduced(Round(w, n % 2 == 1, InWords(m)), n / 2, m);
    }
  }

  lemma ReducedRemainder(x: nat, f: nat, m: nat)
    requires m >= 1 && Modulo(m)(x, f) && x < m
    ensures x == f % m
  {}

  lemma SafeStandsFor(n: nat, m: nat)
    requires Safe(m)
    ensures Modulo(m)(AfterLoop(START, n, InWords(m)).rc, F(n))
  {
    StartStandsAt(m);
    WordsKeepTheRemainder(m);
    StandsForPlace(n, InWords(m), Modulo(m));
  }

  /** The loop in words leaves the remainder of F(n), for 2(m-1)^2 < 2^64 and for divisors of 2^64. */
  lemma SafeIsExact(n: nat, m: nat)
    requires Safe(m)
    ensures AfterLoop(START, n, InWords(m)).rc == F(n) % m
  {
    SafeStandsFor(n, m);
    RemainderIsReduced(START, n, m);
    ReducedRemainder(AfterLoop(START, n, InWords(m)).rc, F(n), m);
  }

  /** Where the number itself fits a word: no larger than it, and of the same remainder. */
  function Fitting(m: nat): (nat, nat) -> bool
    requires m >= 1
  {
    (x, f) => f < WORD ==> x <= f && x % m == f % m
  }

  lemma FittingProduct(x: nat, y: nat, fx: nat, fy: nat, m: nat)
    requires m >= 1 && Fitting(m)(x, fx) && Fitting(m)(y, fy) && fx * fy < WORD
    ensures x * y <= fx * fy && (x * y) % m == (fx * fy) % m
  {
    if fx > 0 && fy > 0 {
      FactorBelow(fx, fy);
      Monotone(x, y, fx, fy);
      SameProduct(x, y, fx, fy, m);
    } else {
      ZeroProduct(x, y, fx, fy);
    }
  }

  lemma FactorBelow(x: nat, y: nat)
    requires x > 0 && y > 0
    ensures x <= x * y && y <= x * y
  {}

  lemma Monotone(x: nat, y: nat, fx: nat, fy: nat)
    requires x <= fx && y <= fy
    ensures x * y <= fx * fy
  {
    assert x * y <= fx * y <= fx * fy;
  }

  lemma SameProduct(x: nat, y: nat, fx: nat, fy: nat, m: nat)
    requires m >= 1 && x % m == fx % m && y % m == fy % m
    ensures (x * y) % m == (fx * fy) % m
  {
    ModuloMultiply(x, y, m);
    ModuloMultiply(fx, fy, m);
  }

  lemma ZeroProduct(x: nat, y: nat, fx: nat, fy: nat)
    requires (fx == 0 && x == 0) || (fy == 0 && y == 0)
    ensures x * y == fx * fy == 0
  {}

  lemma OneKeepsFitting(m: nat, x: nat, y: nat, z: nat, w: nat, fx: nat, fy: nat, fz: nat, fw: nat)
    requires m >= 1
    ensures KeptFor(InWords(m), Fitting(m), x, y, z, w, fx, fy, fz, fw)
  {
    var u, v := fx * fy, fz * fw;
    if Fitting(m)(x, fx) && Fitting(m)(y, fy) && Fitting(m)(z, fz) && Fitting(m)(w, fw) && u + v < WORD {
      FittingCombined(x, y, z, w, fx, fy, fz, fw, m);
    }
  }

  lemma FittingCombined(x: nat, y: nat, z: nat, w: nat, fx: nat, fy: nat, fz: nat, fw: nat, m: nat)
    requires m >= 1 && Fitting(m)(x, fx) && Fitting(m)(y, fy) && Fitting(m)(z, fz) && Fitting(m)(w, fw)
    requires fx * fy + fz * fw < WORD
    ensures Combined(x, y, z, w, m) <= fx * fy + fz * fw
    ensures Combined(x, y, z, w, m) % m == (fx * fy + fz * fw) % m
  {
    FittingProduct(x, y, fx, fy, m);
    FittingProduct(z, w, fz, fw, m);
    FittingSum(x * y, z * w, fx * fy, fz * fw, m);
  }

  lemma FittingSum(u: nat, v: nat, fu: nat, fv: nat, m: nat)
    requires m >= 1 && u <= fu && v <= fv && fu + fv < WORD && u % m == fu % m && v % m == fv % m
    ensures (u % WORD + v % WORD) % WORD % m <= fu + fv
    ensures (u % WORD + v % WORD) % WORD % m % m == (fu + fv) % m
  {
    NothingWraps(u, v, u + v);
    SameSum(u, v, fu, fv, m);
    RemainderBelow(u + v, m);
  }

  lemma SameSum(u: nat, v: nat, fu: nat, fv: nat, m: nat)
    requires m >= 1 && u % m == fu % m && v % m == fv % m
    ensures (u + v) % m == (fu + fv) % m
  {
    ModuloAdd(u, v, m);
    ModuloAdd(fu, fv, m);
  }

  lemma RemainderBelow(k: nat, m: nat)
    requires m >= 1
    ensures k % m <= k && k % m % m == k % m
  {
    DivisionIsUnique(k % m, m, 0, k % m);
    assert k / m * m >= 0;
  }

  /** For every modulus: an index whose number fits a word, that is, every index up to 93, is right. */
  lemma FittingIsExact(n: nat, m: nat)
    requires m >= 1 && F(n) < WORD
    ensures AfterLoop(START, n, InWords(m)).rc == F(n) % m
  {
    forall x, y, z, w, fx, fy, fz, fw
      ensures KeptFor(InWords(m), Fitting(m), x, y, z, w, fx, fy, fz, fw)
    {
      OneKeepsFitting(m, x, y, z, w, fx, fy, fz, fw);
    }
    assert F(2) == F(1) + F(0);
    StandsForPlace(n, InWords(m), Fitting(m));
    RemainderIsReduced(START, n, m);
    DivisionIsUnique(AfterLoop(START, n, InWords(m)).rc, m, 0, AfterLoop(START, n, InWords(m)).rc);
  }

  /** Prints F(n) modulo m whenever wrapping around does no harm, or the number fits a word. */
  method FibonacciModulo(n: nat, m: nat) returns (rc: nat)
    requires n < WORD && 1 <= m < WORD
    ensures Safe(m) || F(n) < WORD ==> rc == F(n) % m
    ensures rc == AfterLoop(START, n, InWords(m)).rc
  {
    var left := n;
    var a, b, c, d := 1, 1, 1, 0;
    var rd := 1;
    rc := 0;
    while left > 0
      invariant AfterLoop(Words(a, b, c, d, rc, rd), left, InWords(m)) == AfterLoop(START, n, InWords(m))
    {
      ghost var before := Words(a, b, c, d, rc, rd);
      ghost var odd := left % 2 == 1;
      if left % 2 == 1 {
        var tc := rc;
        rc := Combined(rc, a, rd, c, m);
        rd := Combined(tc, b, rd, d, m);
      }
      var ta, tb, tc := a, b, c;
      a := Combined(a, a, b, c, m);
      b := Combined(ta, b, b, d, m);
      c := Combined(c, ta, d, c, m);
      d := Combined(tc, tb, d, d, m);
      assert Words(a, b, c, d, rc, rd) == Round(before, odd, InWords(m));
      left := left / 2;
    }
    if Safe(m) {
      SafeIsExact(n, m);
    } else if F(n) < WORD {
      FittingIsExact(n, m);
    }
  }

  lemma StartStandsAt(m: nat)
    requires m >= 1
    ensures StandsAt(START, 1, 0, Modulo(m))
  {
    assert F(2) == F(1) + F(0);
  }

  /** The numbers themselves at power p and place q. */
  ghost function Exact(p: nat, q: nat): Words {
    Words(F(p + 1), F(p), F(p), Previous(p), F(q), Previous(q))
  }

  lemma SmallSum(u: nat, v: nat, m: nat)
    requires u + v < m <= WORD
    ensures (u % WORD + v % WORD) % WORD % m == u + v
  {
    DivisionIsUnique(u, WORD, 0, u);
    DivisionIsUnique(v, WORD, 0, v);
    DivisionIsUnique(u + v, WORD, 0, u + v);
    DivisionIsUnique(u + v, m, 0, u + v);
  }

  lemma SmallCombined(x: nat, y: nat, z: nat, w: nat, m: nat, r: nat)
    requires r == x * y + z * w < m <= WORD
    ensures Combined(x, y, z, w, m) == r
  {
    SmallSum(x * y, z * w, m);
  }

  /** As long as all numbers are below the modulus the words are exact. */
  lemma ExactRound(p: nat, q: nat, odd: bool, m: nat)
    requires p >= 1 && F(2 * p + 1) < m <= WORD && (odd ==> F(q + p) < m && Previous(q + p) < m)
    ensures Round(Exact(p, q), odd, InWords(m)) == Exact(2 * p, if odd then q + p else q)
  {
    var f, g, h := F(p + 1), F(p), Previous(p);
    MatrixSquared(p);
    assert F(2 * p + 1) == F(2 * p) + Previous(2 * p);
    SmallCombined(f, f, g, g, m, F(2 * p + 1));
    SmallCombined(f, g, g, h, m, F(2 * p));
    SmallCombined(g, f, h, g, m, F(2 * p));
    SmallCombined(g, g, h, h, m, Previous(2 * p));
    if odd {
      RowTimesMatrix(p, q);
      SmallCombined(F(q), f, Previous(q), g, m, F(q + p));
      SmallCombined(F(q), g, Previous(q), h, m, Previous(q + p));
    }
  }

  lemma SomeValues(p: nat)
    requires p == 16
    ensures F(p + 1) == 1597 && F(p) == 987 && Previous(p) == 610
  {
    MatrixSquared(1);
    MatrixSquared(2);
    MatrixSquared(4);
    MatrixSquared(8);
  }

  lemma MoreValues(p: nat)
    requires p == 32
    ensures F(p + 1) == 3524578 && F(p) == 2178309 && Previous(p) == 1346269
  {
    SomeValues(16);
    MatrixSquared(16);
  }

  lemma LastValues(p: nat)
    requires p == 32
    ensures F(2 * p + 1) == 17167680177565 && F(2 * p) == 10610209857723
    ensures F(p + 2 * p) == 51680708854858323072
  {
    MoreValues(p);
    MatrixSquared(p);
    RowTimesMatrix(2 * p, p);
  }

  lemma {:induction false} Grows(n: nat, k: nat)
    requires n <= k
    ensures F(n) <= F(k)
    decreases k
  {
    if n < k {
      Grows(n, k - 1);
    }
  }

  lemma ExactTurn(p: nat, q: nat, n: nat, m: nat)
    requires p >= 1 && q <= p && n > 0 && F(2 * p + 1) < m <= WORD
    ensures AfterLoop(Exact(p, q), n, InWords(m))
         == AfterLoop(Exact(2 * p, if n % 2 == 1 then q + p else q), n / 2, InWords(m))
  {
    Grows(q + p, 2 * p + 1);
    if q + p > 0 {
      Grows(q + p - 1, 2 * p + 1);
    }
    ExactRound(p, q, n % 2 == 1, m);
  }

  function Doubled(x: nat, times: nat): (r: nat)
    ensures x <= r
  {
    if times == 0 then x else 2 * Doubled(x, times - 1)
  }

  lemma {:induction false} DoubledInside(x: nat, times: nat)
    ensures Doubled(2 * x, times) == 2 * Doubled(x, times)
  {
    if times > 0 {
      DoubledInside(x, times - 1);
    }
  }

  lemma EvenTurn(p: nat, half: nat, m: nat)
    requires p >= 1 && half > 0 && F(2 * p + 1) < m <= WORD
    ensures AfterLoop(Exact(p, 0), 2 * half, InWords(m)) == AfterLoop(Exact(2 * p, 0), half, InWords(m))
  {
    ExactTurn(p, 0, 2 * half, m);
    assert 2 * half / 2 == half;
  }

  /** Rounds of squaring alone, with all numbers below the modulus. */
  lemma {:induction false} EvenTurns(p: nat, times: nat, left: nat, top: nat, m: nat)
    requires p >= 1 && left > 0 && top == 2 * Doubled(p, times) + 1 && F(top) < m <= WORD
    ensures AfterLoop(Exact(p, 0), Doubled(left, times), InWords(m))
         == AfterLoop(Exact(Doubled(p, times), 0), left, InWords(m))
    decreases times
  {
    if times > 0 {
      DoubledInside(p, times - 1);
      Grows(2 * p + 1, top);
      EvenTurn(p, Doubled(left, times - 1), m);
      EvenTurns(2 * p, times - 1, left, top, m);
    }
  }

  /** The whole loop for three times a power of two, with all but the last number below the modulus. */
  lemma AllTurns(p: nat, times: nat, m: nat)
    requires p == Doubled(1, times) && F(2 * p + 1) < m <= WORD
    ensures AfterLoop(START, Doubled(3, times), InWords(m)).rc
         == Combined(F(p), F(2 * p + 1), Previous(p), F(2 * p), m)
  {
    assert START == Exact(1, 0) by {
      assert F(2) == F(1) + F(0);
    }
    EvenTurns(1, times, 3, 2 * p + 1, m);
    ExactTurn(p, 0, 3, m);
    assert AfterLoop(Exact(2 * p, p), 1, InWords(m)) == Round(Exact(2 * p, p), true, InWords(m));
  }

  lemma LastCombined(m: nat)
    requires m == WORD - 1
    ensures Combined(2178309, 17167680177565, 1346269, 10610209857723, m) == 14787220707439219840
    ensures 51680708854858323072 % m == 14787220707439219842
  {}

  lemma FiveTimes(times: nat)
    requires times == 5
    ensures Doubled(1, times) == 32 && Doubled(3, times) == 96
  {
    assert Doubled(1, times - 3) == 4 && Doubled(3, times - 3) == 12;
    assert Doubled(1, times - 1) == 16 && Doubled(3, times - 1) == 48;
  }

  lemma LastDiffers(p: nat, n: nat, m: nat)
    requires p == 32 && n == p + 2 * p && m == WORD - 1
    ensures Combined(F(p), F(2 * p + 1), Previous(p), F(2 * p), m) != F(n) % m && F(2 * p + 1) < m
  {
    MoreValues(p);
    LastValues(p);
    LastCombined(m);
  }

  /** A modulus for which wrapping around shows: for 2^64 - 1 the 96th number is wrong. */
  lemma WrappingShows(n: nat, m: nat)
    requires n == 96 && m == WORD - 1
    ensures AfterLoop(START, n, InWords(m)).rc != F(n) % m
  {
    var times: nat :| times == 5;
    FiveTimes(times);
    LastDiffers(Doubled(1, times), n, m);
    AllTurns(Doubled(1, times), times, m);
  }

  // ---------- the program over unbounded integers ----------

  function Exactly(): Combine {
    (x, y, z, w) => x * y + z * w
  }

  const INT_MAX: int := 0x7fff_ffff

  /** Prints F(n + 1), except at the index whose successor is not a 32-bit integer. */
  method FibonacciUnbounded(n: int) returns (rc: nat)
    requires -0x8000_0000 <= n <= 0x7fff_ffff
    ensures n >= 0 ==> (rc == F(n + 1) <==> n != 0x7fff_ffff)
    ensures n < 0 || n == 0x7fff_ffff ==> rc == 0
  {
    var left: int := if n == INT_MAX then -INT_MAX - 1 else n + 1;
    var a: nat, b: nat, c: nat, d: nat := 1, 1, 1, 0;
    var rd: nat := 1;
    rc := 0;
    ghost var turns: nat := if left < 0 then 0 else left;
    while left > 0
      invariant left <= 0 ==> Words(a, b, c, d, rc, rd) == AfterLoop(START, turns, Exactly())
      invariant left > 0 ==> AfterLoop(Words(a, b, c, d, rc, rd), left, Exactly()) == AfterLoop(START, turns, Exactly())
    {
      ghost var before := Words(a, b, c, d, rc, rd);
      ghost var odd := left % 2 == 1;
      if left % 2 == 1 {
        var tc := rc;
        rc := rc * a + rd * c;
        rd := tc * b + rd * d;
      }
      var ta, tb, tc := a, b, c;
      a := a * a + b * c;
      b := ta * b + b * d;
      c := c * ta + d * c;
      d := tc * tb + d * d;
      assert Words(a, b, c, d, rc, rd) == Round(before, odd, Exactly());
      left := left / 2;
    }
    UnboundedIsExact(turns);
    Positive(INT_MAX + 1);
  }

  lemma UnboundedIsExact(n: nat)
    ensures AfterLoop(START, n, Exactly()).rc == F(n)
  {
    var equal := (x: nat, f: nat) => x == f;
    assert F(2) == F(1) + F(0);
    forall x, y, z, w, fx, fy, fz, fw
      ensures KeptFor(Exactly(), equal, x, y, z, w, fx, fy, fz, fw)
    {}
    StandsForPlace(n, Exactly(), equal);
  }

  lemma {:induction false} Positive(n: nat)
    ensures n >= 1 ==> F(n) >= 1
  {
    if n >= 2 {
      Positive(n - 1);
    }
  }
}
