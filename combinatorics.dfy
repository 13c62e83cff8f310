/**
 * Integer facts behind Lagrange recombination at the points 1..n: the
 * recombination coefficient of point i is (-1)^(i-1) * C(n, i), and these
 * coefficients annihilate every power i^k with 0 < k < n and sum to 1.
 */
module Combinatorics {

  function Pow(x: int, k: nat): int
  {
    if k == 0 then 1 else x * Pow(x, k - 1)
  }

  function Fact(n: nat): (r: int)
    ensures r >= 1
  {
    if n == 0 then 1 else n * Fact(n - 1)
  }

  /** (-1)^i */
  function Alt(i: int): (r: int)
    ensures r == 1 || r == -1
  {
    if i % 2 == 0 then 1 else -1
  }

  lemma AltNext(i: int)
    ensures Alt(i + 1) == -Alt(i)
  {
  }

  /** Binomial coefficient, zero outside 0 <= k <= n. */
  function Binom(n: nat, k: int): nat
  {
    if k < 0 || k > n then 0
    else if k == 0 || k == n then 1
    else Binom(n - 1, k - 1) + Binom(n - 1, k)
  }

  /** Sum of f(i) for lo <= i < hi. */
  function Sum(f: int -> int, lo: int, hi: int): int
    decreases hi - lo
  {
    if hi <= lo then 0 else Sum(f, lo, hi - 1) + f(hi - 1)
  }

  // ---------------------------------------------------------------------
  // Sums

  lemma {:induction false} SumExt(f: int -> int, g: int -> int, lo: int, hi: int)
    requires forall i :: lo <= i < hi ==> f(i) == g(i)
    ensures Sum(f, lo, hi) == Sum(g, lo, hi)
    decreases hi - lo
  {
    if lo < hi {
      SumExt(f, g, lo, hi - 1);
    }
  }

  lemma {:induction false} SumFirst(f: int -> int, lo: int, hi: int)
    requires lo < hi
    ensures Sum(f, lo, hi) == f(lo) + Sum(f, lo + 1, hi)
    decreases hi - lo
  {
    if lo + 1 < hi {
      SumFirst(f, lo, hi - 1);
    }
  }

  lemma {:induction false} SumAdd(f: int -> int, g: int -> int, h: int -> int, lo: int, hi: int)
    requires forall i :: lo <= i < hi ==> h(i) == f(i) + g(i)
    ensures Sum(h, lo, hi) == Sum(f, lo, hi) + Sum(g, lo, hi)
    decreases hi - lo
  {
    if lo < hi {
      SumAdd(f, g, h, lo, hi - 1);
    }
  }

  lemma {:induction false} SumScale(f: int -> int, g: int -> int, c: int, lo: int, hi: int)
    requires forall i :: lo <= i < hi ==> g(i) == c * f(i)
    ensures Sum(g, lo, hi) == c * Sum(f, lo, hi)
    decreases hi - lo
  {
    if lo < hi {
      SumScale(f, g, c, lo, hi - 1);
      assert c * Sum(f, lo, hi) == c * Sum(f, lo, hi - 1) + c * f(hi - 1);
    }
  }

  lemma {:induction false} SumAddScaled(f: int -> int, g: int -> int, h: int -> int, c: int, lo: int, hi: int)
    requires forall i :: lo <= i < hi ==> h(i) == f(i) + c * g(i)
    ensures Sum(h, lo, hi) == Sum(f, lo, hi) + c * Sum(g, lo, hi)
    decreases hi - lo
  {
    if lo < hi {
      SumAddScaled(f, g, h, c, lo, hi - 1);
      assert c * Sum(g, lo, hi) == c * Sum(g, lo, hi - 1) + c * g(hi - 1);
    }
  }

  lemma {:induction false} SumLinear(f: int -> int, g: int -> int, h: int -> int, a: int, b: int, lo: int, hi: int)
    requires forall i :: lo <= i < hi ==> h(i) == a * f(i) + b * g(i)
    ensures Sum(h, lo, hi) == a * Sum(f, lo, hi) + b * Sum(g, lo, hi)
    decreases hi - lo
  {
    if lo < hi {
      SumLinear(f, g, h, a, b, lo, hi - 1);
      LinearStep(Sum(f, lo, hi - 1), f(hi - 1), Sum(g, lo, hi - 1), g(hi - 1), a, b);
    }
  }

  lemma LinearStep(x: int, y: int, u: int, v: int, a: int, b: int)
    ensures a * (x + y) + b * (u + v) == (a * x + b * u) + (a * y + b * v)
  {
  }

  /** Reindexing with a factor: the sum of f over [lo + d, hi + d) is a times the sum of g over [lo, hi). */
  lemma {:induction false} SumShiftScale(f: int -> int, g: int -> int, d: int, a: int, lo: int, hi: int)
    requires forall i :: lo <= i < hi ==> f(i + d) == a * g(i)
    ensures Sum(f, lo + d, hi + d) == a * Sum(g, lo, hi)
    decreases hi - lo
  {
    if lo < hi {
      SumShiftScale(f, g, d, a, lo, hi - 1);
      assert a * Sum(g, lo, hi) == a * Sum(g, lo, hi - 1) + a * g(hi - 1);
    }
  }

  // ---------------------------------------------------------------------
  // Binomial coefficients

  lemma Pascal(n: nat, k: int)
    requires n >= 1
    ensures Binom(n, k) == Binom(n - 1, k - 1) + Binom(n - 1, k)
  {
  }

  /** i * C(n, i) == n * C(n - 1, i - 1) */
  lemma {:induction false} Absorption(n: nat, i: int)
    requires n >= 1
    ensures i * Binom(n, i) == n * Binom(n - 1, i - 1)
  {
    if i < 0 || i > n {
    } else if n == 1 {
    } else {
      Pascal(n, i);
      Pascal(n - 1, i - 1);
      Absorption(n - 1, i);
      Absorption(n - 1, i - 1);
      AbsorptionStep(n, i, Binom(n - 1, i - 1), Binom(n - 1, i), Binom(n - 2, i - 2), Binom(n - 2, i - 1));
    }
  }

  lemma AbsorptionStep(n: int, i: int, a: int, b: int, c: int, d: int)
    requires a == c + d
    requires i * b == (n - 1) * d
    requires (i - 1) * a == (n - 1) * c
    ensures i * (a + b) == n * a
  {
    calc {
      i * (a + b);
      == i * a + i * b;
      == (i - 1) * a + a + (n - 1) * d;
      == (n - 1) * c + a + (n - 1) * d;
      == { assert (n - 1) * c + (n - 1) * d == (n - 1) * (c + d); }
         (n - 1) * a + a;
    }
  }

  /** C(n, i) * i! * (n - i)! == n! */
  lemma {:induction false} BinomFact(n: nat, i: nat)
    requires i <= n
    ensures Binom(n, i) * Fact(i) * Fact(n - i) == Fact(n)
  {
    if i == 0 || i == n {
    } else {
      BinomFact(n - 1, i - 1);
      BinomFact(n - 1, i);
      assert n - 1 - (i - 1) == n - i;
      BinomFactStep(n, i, Binom(n - 1, i - 1), Binom(n - 1, i), Fact(i - 1), Fact(n - 1 - i), Fact(n - 1));
    }
  }

  lemma BinomFactStep(n: int, i: int, a: int, b: int, fi: int, fj: int, f: int)
    requires a * fi * ((n - i) * fj) == f
    requires b * (i * fi) * fj == f
    ensures (a + b) * (i * fi) * ((n - i) * fj) == n * f
  {
    calc {
      (a + b) * (i * fi) * ((n - i) * fj);
      == a * (i * fi) * ((n - i) * fj) + b * (i * fi) * ((n - i) * fj);
      == { assert a * (i * fi) * ((n - i) * fj) == i * (a * fi * ((n - i) * fj));
           assert b * (i * fi) * ((n - i) * fj) == (n - i) * (b * (i * fi) * fj); }
         i * f + (n - i) * f;
    }
  }

  // ---------------------------------------------------------------------
  // Alternating binomial moments

  /** The term (-1)^i * C(n, i) * (i + c)^k of S(n, k, c). */
  function STerm(n: nat, k: nat, c: int): int -> int
  {
    i => Alt(i) * Binom(n, i) * Pow(i + c, k)
  }

  /** S(n, k, c) == sum over 0 <= i <= n of (-1)^i * C(n, i) * (i + c)^k */
  function S(n: nat, k: nat, c: int): int
  {
    Sum(STerm(n, k, c), 0, n + 1)
  }

  /** The term (-1)^i * C(n - 1, i - 1) * (i + c)^k: C(n, i) with the absorption applied. */
  function ShiftedTerm(n: nat, k: nat, c: int): int -> int
    requires n >= 1
  {
    i => Alt(i) * Binom(n - 1, i - 1) * Pow(i + c, k)
  }

  lemma NegateFirst(s: int, s': int, b: int, p: int)
    requires s' == -s
    ensures s' * b * p == -1 * (s * b * p)
  {
  }

  lemma ShiftedTermAt(n: nat, k: nat, c: int, i: int)
    requires n >= 1
    ensures ShiftedTerm(n, k, c)(i + 1) == -1 * STerm(n - 1, k, c + 1)(i)
  {
    AltNext(i);
    assert i + 1 + c == i + (c + 1);
    assert i + 1 - 1 == i;
    NegateFirst(Alt(i), Alt(i + 1), Binom(n - 1, i), Pow(i + (c + 1), k));
  }

  /** The shifted sum is -S(n - 1, k, c + 1). */
  lemma ShiftedBinomSum(n: nat, k: nat, c: int)
    requires n >= 1
    ensures Sum(ShiftedTerm(n, k, c), 0, n + 1) == -S(n - 1, k, c + 1)
  {
    var v := ShiftedTerm(n, k, c);
    SumFirst(v, 0, n + 1);
    ShiftedAtZero(n, k, c);
    var t := STerm(n - 1, k, c + 1);
    forall i | 0 <= i < n
      ensures v(i + 1) == -1 * t(i)
    {
      ShiftedTermAt(n, k, c, i);
    }
    SumShiftScale(v, t, 1, -1, 0, n);
  }

  lemma ShiftedAtZero(n: nat, k: nat, c: int)
    requires n >= 1
    ensures ShiftedTerm(n, k, c)(0) == 0
  {
    assert Binom(n - 1, -1) == 0;
  }

  lemma Distribute3(s: int, a: int, b: int, p: int)
    ensures s * (a + b) * p == s * a * p + s * b * p
  {
  }

  lemma PascalTermAt(n: nat, k: nat, c: int, i: int)
    requires n >= 1
    ensures STerm(n, k, c)(i) == STerm(n - 1, k, c)(i) + ShiftedTerm(n, k, c)(i)
  {
    Pascal(n, i);
    Distribute3(Alt(i), Binom(n - 1, i), Binom(n - 1, i - 1), Pow(i + c, k));
  }

  /** Pascal's rule lifted to the sums: S(n, k, c) == S(n - 1, k, c) - S(n - 1, k, c + 1). */
  lemma PascalRecurrence(n: nat, k: nat, c: int)
    requires n >= 1
    ensures S(n, k, c) == S(n - 1, k, c) - S(n - 1, k, c + 1)
  {
    PascalSums(n, k, c);
    ShiftedBinomSum(n, k, c);
  }

  lemma PascalSums(n: nat, k: nat, c: int)
    requires n >= 1
    ensures S(n, k, c) == S(n - 1, k, c) + Sum(ShiftedTerm(n, k, c), 0, n + 1)
  {
    var u := STerm(n - 1, k, c);
    forall i | 0 <= i < n + 1
      ensures STerm(n, k, c)(i) == u(i) + ShiftedTerm(n, k, c)(i)
    {
      PascalTermAt(n, k, c, i);
    }
    SumAdd(u, ShiftedTerm(n, k, c), STerm(n, k, c), 0, n + 1);
    TermBeyondTop(n - 1, k, c);
    assert Sum(u, 0, n + 1) == Sum(u, 0, n) + u(n);
  }

  lemma TermBeyondTop(n: nat, k: nat, c: int)
    ensures STerm(n, k, c)(n + 1) == 0
  {
    assert Binom(n, n + 1) == 0;
  }

  lemma AbsorptionTerm(n: int, i: int, c: int, s: int, b: int, b': int, p: int, p': int)
    requires i * b == n * b'
    requires p' == (i + c) * p
    ensures s * b * p' == n * (s * b' * p) + c * (s * b * p)
  {
    calc {
      s * b * p';
      == s * b * ((i + c) * p);
      == s * (i * b) * p + c * (s * b * p);
      == s * (n * b') * p + c * (s * b * p);
    }
  }

  lemma AbsorptionTermAt(n: nat, k: nat, c: int, i: int)
    requires n >= 1 && k >= 1
    ensures STerm(n, k, c)(i) == n * ShiftedTerm(n, k - 1, c)(i) + c * STerm(n, k - 1, c)(i)
  {
    Absorption(n, i);
    assert Pow(i + c, k) == (i + c) * Pow(i + c, k - 1);
    AbsorptionTerm(n, i, c, Alt(i), Binom(n, i), Binom(n - 1, i - 1), Pow(i + c, k - 1), Pow(i + c, k));
  }

  /** Absorption lifted to the sums. */
  lemma AbsorptionRecurrence(n: nat, k: nat, c: int)
    requires n >= 1 && k >= 1
    ensures S(n, k, c) + n * S(n - 1, k - 1, c + 1) == c * S(n, k - 1, c)
  {
    AbsorptionSums(n, k, c);
    ShiftedBinomSum(n, k - 1, c);
    CombineRecurrence(S(n, k, c), Sum(ShiftedTerm(n, k - 1, c), 0, n + 1), S(n - 1, k - 1, c + 1), S(n, k - 1, c), n, c);
  }

  lemma AbsorptionSums(n: nat, k: nat, c: int)
    requires n >= 1 && k >= 1
    ensures S(n, k, c) == n * Sum(ShiftedTerm(n, k - 1, c), 0, n + 1) + c * S(n, k - 1, c)
  {
    forall i | 0 <= i < n + 1
      ensures STerm(n, k, c)(i) == n * ShiftedTerm(n, k - 1, c)(i) + c * STerm(n, k - 1, c)(i)
    {
      AbsorptionTermAt(n, k, c, i);
    }
    SumLinear(ShiftedTerm(n, k - 1, c), STerm(n, k - 1, c), STerm(n, k, c), n, c, 0, n + 1);
  }

  lemma CombineRecurrence(a: int, sv: int, x: int, t: int, n: int, c: int)
    requires a == n * sv + c * t && sv == -x
    ensures a + n * x == c * t
  {
  }

  /** S(n, 0, c) does not depend on c. */
  lemma ZerothMomentShift(n: nat, c: int, c': int)
    ensures S(n, 0, c) == S(n, 0, c')
  {
    forall i | 0 <= i < n + 1
      ensures STerm(n, 0, c)(i) == STerm(n, 0, c')(i)
    {
      assert Pow(i + c, 0) == 1 && Pow(i + c', 0) == 1;
    }
    SumExt(STerm(n, 0, c), STerm(n, 0, c'), 0, n + 1);
  }

  /** The n-th difference of a polynomial of degree below n vanishes. */
  lemma {:induction false} Vanish(n: nat, k: nat, c: int)
    requires k < n
    ensures S(n, k, c) == 0
    decreases k
  {
    if k == 0 {
      PascalRecurrence(n, 0, c);
      ZerothMomentShift(n - 1, c, c + 1);
    } else {
      AbsorptionRecurrence(n, k, c);
      Vanish(n - 1, k - 1, c + 1);
      Vanish(n, k - 1, c);
    }
  }

  /** The integer Lagrange coefficient of point i among the points 1..n. */
  function Lambda(n: nat, i: int): int
  {
    -Alt(i) * Binom(n, i)
  }

  /** The term Lambda(n, i) * i^k of a moment. */
  function MomentTerm(n: nat, k: nat): int -> int
  {
    i => Lambda(n, i) * Pow(i, k)
  }

  /**
   * The moments of the Lagrange coefficients at 0: the sum over 1 <= i <= n
   * of Lambda(n, i) * i^k is 1 for k == 0 and 0 for 0 < k < n.
   */
  lemma Moment(n: nat, k: nat)
    requires k < n
    ensures Sum(MomentTerm(n, k), 1, n + 1) == if k == 0 then 1 else 0
  {
    Vanish(n, k, 0);
    SumFirst(STerm(n, k, 0), 0, n + 1);
    assert STerm(n, k, 0)(0) == Pow(0, k);
    assert Pow(0, k) == if k == 0 then 1 else 0;
    forall i | 1 <= i < n + 1
      ensures MomentTerm(n, k)(i) == -1 * STerm(n, k, 0)(i)
    {
      assert i + 0 == i;
    }
    SumScale(STerm(n, k, 0), MomentTerm(n, k), -1, 1, n + 1);
  }

  // ---------------------------------------------------------------------
  // The products behind one recombination coefficient

  /** The product of j over 1 <= j <= m, j != i (the numerators). */
  function OthersProduct(i: int, m: nat): int
  {
    if m == 0 then 1
    else if m == i then OthersProduct(i, m - 1)
    else OthersProduct(i, m - 1) * m
  }

  /** The product of (j - i) over 1 <= j <= m, j != i (the denominators). */
  function GapProduct(i: int, m: nat): int
  {
    if m == 0 then 1
    else if m == i then GapProduct(i, m - 1)
    else GapProduct(i, m - 1) * (m - i)
  }

  lemma {:induction false} OthersClosed(i: int, m: nat)
    requires i >= 1
    ensures m < i ==> OthersProduct(i, m) == Fact(m)
    ensures m >= i ==> OthersProduct(i, m) * i == Fact(m)
  {
    if m > 0 {
      OthersClosed(i, m - 1);
      var o := OthersProduct(i, m - 1);
      if m > i {
        OthersStep(o, m, i, Fact(m - 1));
      } else if m < i {
        assert o * m == m * Fact(m - 1);
      } else {
        assert o * i == i * Fact(m - 1);
      }
    }
  }

  lemma OthersStep(o: int, m: int, i: int, f: int)
    requires o * i == f
    ensures (o * m) * i == m * f
  {
  }

  lemma GapBelowStep(g: int, m: int, i: int, f: int, s: int, fi: int)
    requires g * ((i - m) * f) == s * fi
    ensures (g * (m - i)) * f == -s * fi
  {
    assert (g * (m - i)) * f == -(g * ((i - m) * f));
  }

  lemma GapAboveStep(g: int, m: int, i: int, a: int, f1: int, f2: int)
    requires g == a * f1 * f2
    ensures g * (m - i) == a * f1 * ((m - i) * f2)
  {
  }

  lemma {:induction false} GapClosed(i: int, m: nat)
    requires i >= 1
    ensures m < i ==> GapProduct(i, m) * Fact(i - 1 - m) == Alt(m) * Fact(i - 1)
    ensures m >= i ==> GapProduct(i, m) == Alt(i - 1) * Fact(i - 1) * Fact(m - i)
  {
    if m > 0 {
      GapClosed(i, m - 1);
      if m < i {
        AltNext(m - 1);
        assert Fact(i - 1 - (m - 1)) == (i - m) * Fact(i - 1 - m);
        GapBelowStep(GapProduct(i, m - 1), m, i, Fact(i - 1 - m), Alt(m - 1), Fact(i - 1));
      } else if m > i {
        assert Fact(m - i) == (m - i) * Fact(m - 1 - i);
        GapAboveStep(GapProduct(i, m - 1), m, i, Alt(i - 1), Fact(i - 1), Fact(m - 1 - i));
      }
    }
  }

  lemma LambdaGapAlgebra(lam: int, g: int, o: int, s: int, s': int, c: int, f1: int, f2: int, i: int, fn: int)
    requires i >= 1
    requires lam == -s * c && g == s' * f1 * f2 && s' == -s && (s == 1 || s == -1)
    requires o * i == fn && c * (i * f1) * f2 == fn
    ensures lam * g == o
  {
    assert lam * g == c * f1 * f2 by {
      assert -s * -s == 1;
    }
    assert (c * f1 * f2) * i == o * i;
  }

  /**
   * Lambda(n, i) is the exact quotient of the two products: the recombination
   * coefficient prod_{j != i} j / (j - i) is the integer (-1)^(i-1) * C(n, i).
   */
  lemma LambdaTimesGap(n: nat, i: int)
    requires 1 <= i <= n
    ensures Lambda(n, i) * GapProduct(i, n) == OthersProduct(i, n)
  {
    OthersClosed(i, n);
    GapClosed(i, n);
    BinomFact(n, i);
    AltNext(i - 1);
    assert Fact(i) == i * Fact(i - 1);
    LambdaGapAlgebra(Lambda(n, i), GapProduct(i, n), OthersProduct(i, n), Alt(i), Alt(i - 1),
      Binom(n, i), Fact(i - 1), Fact(n - i), i, Fact(n));
  }
}
