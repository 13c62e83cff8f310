/**
 * Shamir sharing and Lagrange recombination as party2_electric_boogaloo.py
 * computes them: `calc_poly` evaluates a sharing polynomial at a party's
 * index, `calc_recombination_vector` builds the coefficients that rebuild
 * the constant term from the shares of parties 1..size, and the protocol
 * phases recombine with `sum(values[i] * vector[i]) % PRIME`.
 */
module Shamir {
  import opened Field
  import opened Combinatorics

  /** The sum of coeff[i] * x^i, before reduction. */
  function PolyValue(coeff: seq<int>, x: int): int
  {
    if |coeff| == 0 then 0
    else PolyValue(coeff[..|coeff| - 1], x) + coeff[|coeff| - 1] * Pow(x, |coeff| - 1)
  }

  /** calc_poly: the share of the party with index x. */
  function CalcPoly(x: int, coeff: seq<int>): (r: int)
    ensures 0 <= r < PRIME
  {
    PolyValue(coeff, x) % PRIME
  }

  /** At x == 0 every term but the constant one vanishes: the share "of party 0" is the secret. */
  lemma {:induction false} SecretAtZero(coeff: seq<int>)
    requires |coeff| >= 1
    ensures CalcPoly(0, coeff) == coeff[0] % PRIME
  {
    PolyValueAtZero(coeff);
  }

  lemma {:induction false} PolyValueAtZero(coeff: seq<int>)
    requires |coeff| >= 1
    ensures PolyValue(coeff, 0) == coeff[0]
    decreases |coeff|
  {
    if |coeff| > 1 {
      PolyValueAtZero(coeff[..|coeff| - 1]);
      assert Pow(0, |coeff| - 1) == 0;
    } else {
      assert coeff[..0] == [];
    }
  }

  // ---------------------------------------------------------------------
  // Products of sharing polynomials

  /** Coefficient-wise sum of two polynomials with as many coefficients. */
  function PolyAdd(a: seq<int>, b: seq<int>): (r: seq<int>)
    requires |a| == |b|
    ensures |r| == |a| && forall i :: 0 <= i < |r| ==> r[i] == a[i] + b[i]
  {
    seq(|a|, i requires 0 <= i < |a| => a[i] + b[i])
  }

  /** Every coefficient times c. */
  function Scale(c: int, a: seq<int>): (r: seq<int>)
    ensures |r| == |a| && forall i :: 0 <= i < |r| ==> r[i] == c * a[i]
  {
    seq(|a|, i requires 0 <= i < |a| => c * a[i])
  }

  /** m zero coefficients: prepended to a polynomial, they multiply it by x^m. */
  function Zeros(m: nat): (r: seq<int>)
    ensures |r| == m && forall i :: 0 <= i < m ==> r[i] == 0
  {
    seq(m, i => 0)
  }

  /**
   * The product of two polynomials: f times g is (f without its top
   * coefficient) times g, plus the top coefficient times g shifted up.
   */
  function PolyMul(f: seq<int>, g: seq<int>): (r: seq<int>)
    requires |f| >= 1 && |g| >= 1
    ensures |r| == |f| + |g| - 1 && r[0] == f[0] * g[0]
    decreases |f|
  {
    if |f| == 1 then Scale(f[0], g)
    else PolyAdd(PolyMul(f[..|f| - 1], g) + [0], Zeros(|f| - 1) + Scale(f[|f| - 1], g))
  }

  lemma {:induction false} PolyAddValue(a: seq<int>, b: seq<int>, x: int)
    requires |a| == |b|
    ensures PolyValue(PolyAdd(a, b), x) == PolyValue(a, x) + PolyValue(b, x)
    decreases |a|
  {
    if |a| > 0 {
      var n := |a| - 1;
      assert PolyAdd(a, b)[..n] == PolyAdd(a[..n], b[..n]);
      PolyAddValue(a[..n], b[..n], x);
      assert (a[n] + b[n]) * Pow(x, n) == a[n] * Pow(x, n) + b[n] * Pow(x, n);
    }
  }

  lemma {:induction false} ScaleValue(c: int, a: seq<int>, x: int)
    ensures PolyValue(Scale(c, a), x) == c * PolyValue(a, x)
    decreases |a|
  {
    if |a| > 0 {
      var n := |a| - 1;
      assert Scale(c, a)[..n] == Scale(c, a[..n]);
      ScaleValue(c, a[..n], x);
      assert c * (PolyValue(a[..n], x) + a[n] * Pow(x, n)) == c * PolyValue(a[..n], x) + (c * a[n]) * Pow(x, n);
    }
  }

  lemma {:induction false} ZerosValue(m: nat, x: int)
    ensures PolyValue(Zeros(m), x) == 0
    decreases m
  {
    if m > 0 {
      assert Zeros(m)[..m - 1] == Zeros(m - 1);
      ZerosValue(m - 1, x);
    }
  }

  lemma {:induction false} PowAdd(x: int, m: nat, k: nat)
    ensures Pow(x, m + k) == Pow(x, m) * Pow(x, k)
    decreases m
  {
    if m > 0 {
      PowAdd(x, m - 1, k);
      assert x * (Pow(x, m - 1) * Pow(x, k)) == (x * Pow(x, m - 1)) * Pow(x, k);
    }
  }

  lemma {:induction false} ShiftValue(m: nat, a: seq<int>, x: int)
    ensures PolyValue(Zeros(m) + a, x) == Pow(x, m) * PolyValue(a, x)
    decreases |a|
  {
    if |a| == 0 {
      assert Zeros(m) + a == Zeros(m);
      ZerosValue(m, x);
    } else {
      var n := |a| - 1;
      assert (Zeros(m) + a)[..m + n] == Zeros(m) + a[..n];
      ShiftValue(m, a[..n], x);
      PowAdd(x, m, n);
      assert Pow(x, m) * (PolyValue(a[..n], x) + a[n] * Pow(x, n))
          == Pow(x, m) * PolyValue(a[..n], x) + a[n] * (Pow(x, m) * Pow(x, n));
    }
  }

  /** Evaluating the product polynomial is multiplying the two evaluations. */
  lemma {:induction false} PolyMulValue(f: seq<int>, g: seq<int>, x: int)
    requires |f| >= 1 && |g| >= 1
    ensures PolyValue(PolyMul(f, g), x) == PolyValue(f, x) * PolyValue(g, x)
    decreases |f|
  {
    var m := |f| - 1;
    if m == 0 {
      ScaleValue(f[0], g, x);
      assert f[..0] == [];
    } else {
      var low, high := PolyMul(f[..m], g), Zeros(m) + Scale(f[m], g);
      assert PolyMul(f, g) == PolyAdd(low + [0], high);
      PolyAddValue(low + [0], high, x);
      PolyValueSnoc(low + [0], x);
      assert (low + [0])[..|low|] == low;
      PolyMulValue(f[..m], g, x);
      ShiftValue(m, Scale(f[m], g), x);
      ScaleValue(f[m], g, x);
      PolyValueSnoc(f, x);
      ProductStep(PolyValue(f[..m], x), f[m], Pow(x, m), PolyValue(g, x));
    }
  }

  lemma ProductStep(low: int, top: int, w: int, v: int)
    ensures (low + top * w) * v == low * v + w * (top * v)
  {
  }

  /**
   * The product of two parties' shares is a share of the product
   * polynomial: mul(calc_poly(x, f), calc_poly(x, g)) is calc_poly(x, f * g),
   * whose constant term is the product of the two secrets and which has
   * |f| + |g| - 1 coefficients.
   */
  lemma ShareProduct(f: seq<int>, g: seq<int>, x: int)
    requires |f| >= 1 && |g| >= 1
    ensures Mul(CalcPoly(x, f), CalcPoly(x, g)) == CalcPoly(x, PolyMul(f, g))
  {
    PolyMulValue(f, g, x);
    ModIdempotent(PolyValue(f, x));
    ModIdempotent(PolyValue(g, x));
    MulModBoth(CalcPoly(x, f), CalcPoly(x, g), PolyValue(f, x), PolyValue(g, x));
  }

  // ---------------------------------------------------------------------
  // The recombination vector

  /**
   * The accumulator of calc_recombination_vector's inner loop for entry i
   * once it has visited j = 1..m: acc = mul(acc, div(j, j - i)) for j != i.
   */
  function RecAcc(i: int, m: nat): (r: int)
    ensures 0 <= r < PRIME
  {
    if m == 0 then 1
    else if m == i then RecAcc(i, m - 1)
    else Mul(RecAcc(i, m - 1), Div(m, m - i))
  }

  /** The vector calc_recombination_vector(size) returns: entry i is RecAcc(i, size). */
  function RecombinationVector(size: nat): map<int, int>
  {
    map i | 1 <= i <= size :: RecAcc(i, size)
  }

  /** The product of the inverses of (j - i), 1 <= j <= m, j != i. */
  function GapInverse(i: int, m: nat): int
  {
    if m == 0 then 1
    else if m == i then GapInverse(i, m - 1)
    else GapInverse(i, m - 1) * Inverse(m - i)
  }

  /** One step of the accumulator, on plain residues. */
  lemma ProductsStep(r: int, o: int, g: int, gi: int, m: int, d: int, inv: int, r': int)
    requires r % PRIME == (o * gi) % PRIME && (g * gi) % PRIME == 1 && (d * inv) % PRIME == 1
    requires r' == (r * ((m * inv) % PRIME)) % PRIME
    ensures r' % PRIME == ((o * m) * (gi * inv)) % PRIME
    ensures ((g * d) * (gi * inv)) % PRIME == 1
  {
    ModIdempotent(r * ((m * inv) % PRIME));
    MulModBoth(r, (m * inv) % PRIME, o * gi, m * inv);
    assert (o * gi) * (m * inv) == (o * m) * (gi * inv);
    assert (g * d) * (gi * inv) == (g * gi) * (d * inv);
    MulModBoth(g * gi, d * inv, 1, 1);
  }

  /** The accumulator and the two products advance together at j == m. */
  lemma ProductsUnfold(i: int, m: nat)
    requires 0 < m && m != i
    ensures RecAcc(i, m) == (RecAcc(i, m - 1) * ((m * Inverse(m - i)) % PRIME)) % PRIME
    ensures OthersProduct(i, m) == OthersProduct(i, m - 1) * m
    ensures GapProduct(i, m) == GapProduct(i, m - 1) * (m - i)
    ensures GapInverse(i, m) == GapInverse(i, m - 1) * Inverse(m - i)
  {
    DivByInverse(m, m - i);
  }

  /**
   * After visiting j = 1..m, the accumulator is congruent to the product of
   * the numerators times the inverses of the denominators, and those
   * inverses cancel the denominators.
   */
  predicate ProductsInvariant(i: int, m: nat)
  {
    && RecAcc(i, m) % PRIME == (OthersProduct(i, m) * GapInverse(i, m)) % PRIME
    && (GapProduct(i, m) * GapInverse(i, m)) % PRIME == 1
  }

  lemma {:induction false} RecAccAsProducts(i: int, m: nat)
    requires 1 <= i < PRIME && m < PRIME
    ensures ProductsInvariant(i, m)
    decreases m, 1
  {
    if m == 0 {
      ProductsBase(i);
    } else if m != i {
      ProductsAdvance(i, m);
    } else {
      ProductsSkip(i, m);
    }
  }

  lemma ProductsBase(i: int)
    ensures ProductsInvariant(i, 0)
  {
  }

  /** At j == m != i both sides take one more factor. */
  lemma {:induction false} ProductsAdvance(i: int, m: nat)
    requires 1 <= i < PRIME && 0 < m < PRIME && m != i
    ensures ProductsInvariant(i, m)
    decreases m, 0
  {
    RecAccAsProducts(i, m - 1);
    NonzeroResidue(m - i);
    ProductsUnfold(i, m);
    ProductsStep(RecAcc(i, m - 1), OthersProduct(i, m - 1), GapProduct(i, m - 1), GapInverse(i, m - 1),
      m, m - i, Inverse(m - i), RecAcc(i, m));
  }

  /** At j == i nothing changes. */
  lemma {:induction false} ProductsSkip(i: int, m: nat)
    requires 1 <= i < PRIME && 0 < m < PRIME && m == i
    ensures ProductsInvariant(i, m)
    decreases m, 0
  {
    RecAccAsProducts(i, m - 1);
    SkipUnfold(i, m);
  }

  lemma SkipUnfold(i: int, m: nat)
    requires 0 < m && m == i
    ensures RecAcc(i, m) == RecAcc(i, m - 1) && OthersProduct(i, m) == OthersProduct(i, m - 1)
    ensures GapProduct(i, m) == GapProduct(i, m - 1) && GapInverse(i, m) == GapInverse(i, m - 1)
  {
  }

  lemma LambdaStep(r: int, o: int, lam: int, g: int, gi: int)
    requires r % PRIME == (o * gi) % PRIME && o == lam * g && (g * gi) % PRIME == 1
    ensures r % PRIME == lam % PRIME
  {
    assert (lam * g) * gi == lam * (g * gi);
    MulModBoth(lam, g * gi, lam, 1);
  }

  /**
   * Entry i of the recombination vector for the parties 1..n is congruent
   * to the integer Lagrange coefficient (-1)^(i-1) * C(n, i).
   */
  lemma EntryIsLambda(n: nat, i: int)
    requires 1 <= i <= n < PRIME
    ensures RecAcc(i, n) % PRIME == Lambda(n, i) % PRIME
  {
    RecAccAsProducts(i, n);
    LambdaTimesGap(n, i);
    LambdaStep(RecAcc(i, n), OthersProduct(i, n), Lambda(n, i), GapProduct(i, n), GapInverse(i, n));
  }

  // ---------------------------------------------------------------------
  // Recombination

  /** The summand values[i] * vector[i] (missing keys never occur under Recombine's precondition). */
  function RecombineTerm(values: map<int, int>, vec: map<int, int>): int -> int
  {
    i => if i in values && i in vec then values[i] * vec[i] else 0
  }

  /** sum(values[i] * vec[i] for i in range(1, len(vec) + 1)) % PRIME */
  function Recombine(values: map<int, int>, vec: map<int, int>): (r: int)
    requires forall i :: 1 <= i <= |vec| ==> i in values && i in vec
    ensures 0 <= r < PRIME
  {
    Sum(RecombineTerm(values, vec), 1, |vec| + 1) % PRIME
  }

  lemma RecombineUnfold(values: map<int, int>, vec: map<int, int>)
    requires forall i :: 1 <= i <= |vec| ==> i in values && i in vec
    ensures Recombine(values, vec) == Sum(RecombineTerm(values, vec), 1, |vec| + 1) % PRIME
  {
  }

  /** The party indices 1..n. */
  function Interval(n: nat): (r: set<int>)
    ensures forall i :: i in r <==> 1 <= i <= n
    ensures |r| == n
  {
    if n == 0 then {} else Interval(n - 1) + {n}
  }

  /** calc_recombination_vector(size) has exactly the keys 1..size. */
  lemma VectorSize(size: nat)
    ensures RecombinationVector(size).Keys == Interval(size)
    ensures |RecombinationVector(size)| == size
  {
    var v := RecombinationVector(size);
    assert v.Keys == Interval(size);
  }

  /** Termwise congruent sums are congruent. */
  lemma {:induction false} SumMod(f: int -> int, g: int -> int, lo: int, hi: int)
    requires forall i :: lo <= i < hi ==> f(i) % PRIME == g(i) % PRIME
    ensures Sum(f, lo, hi) % PRIME == Sum(g, lo, hi) % PRIME
    decreases hi - lo
  {
    if lo < hi {
      SumMod(f, g, lo, hi - 1);
      AddModBoth(Sum(f, lo, hi - 1), f(hi - 1), Sum(g, lo, hi - 1), g(hi - 1));
    }
  }

  /** The term PolyValue(coeff, i) * Lambda(n, i) of the exact Lagrange sum. */
  function LagrangeTerm(coeff: seq<int>, n: nat): int -> int
  {
    i => PolyValue(coeff, i) * Lambda(n, i)
  }

  /** The polynomial with coefficients front ++ [last] adds last * x^|front| to front's. */
  lemma PolyValueSnoc(coeff: seq<int>, x: int)
    requires |coeff| >= 1
    ensures PolyValue(coeff, x) == PolyValue(coeff[..|coeff| - 1], x) + coeff[|coeff| - 1] * Pow(x, |coeff| - 1)
  {
  }

  lemma SplitProduct(p: int, last: int, w: int, l: int)
    ensures (p + last * w) * l == p * l + last * (l * w)
  {
  }

  /** Pointwise: adding a top coefficient adds a scaled moment term to the Lagrange term. */
  lemma LagrangeTermStep(coeff: seq<int>, n: nat, i: int)
    requires |coeff| >= 2
    ensures LagrangeTerm(coeff, n)(i)
         == LagrangeTerm(coeff[..|coeff| - 1], n)(i) + coeff[|coeff| - 1] * MomentTerm(n, |coeff| - 1)(i)
  {
    var m := |coeff| - 1;
    PolyValueSnoc(coeff, i);
    SplitProduct(PolyValue(coeff[..m], i), coeff[m], Pow(i, m), Lambda(n, i));
  }

  /** Pointwise: a constant polynomial gives a scaled zeroth moment term. */
  lemma LagrangeTermConst(coeff: seq<int>, n: nat, i: int)
    requires |coeff| == 1
    ensures LagrangeTerm(coeff, n)(i) == coeff[0] * MomentTerm(n, 0)(i)
  {
    PolyValueSnoc(coeff, i);
    assert coeff[..0] == [];
  }

  /**
   * Over the integers, the Lagrange coefficients of the points 1..n rebuild
   * the constant term of every polynomial with at most n coefficients.
   */
  lemma {:induction false} LagrangeExact(coeff: seq<int>, n: nat)
    requires 1 <= |coeff| <= n
    ensures Sum(LagrangeTerm(coeff, n), 1, n + 1) == coeff[0]
    decreases |coeff|
  {
    var m := |coeff| - 1;
    var last := coeff[m];
    var front := coeff[..m];
    if m == 0 {
      forall i | 1 <= i < n + 1
        ensures LagrangeTerm(coeff, n)(i) == last * MomentTerm(n, 0)(i)
      {
        LagrangeTermConst(coeff, n, i);
      }
      SumScale(MomentTerm(n, 0), LagrangeTerm(coeff, n), last, 1, n + 1);
      Moment(n, 0);
    } else {
      LagrangeExact(front, n);
      forall i | 1 <= i < n + 1
        ensures LagrangeTerm(coeff, n)(i) == LagrangeTerm(front, n)(i) + last * MomentTerm(n, m)(i)
      {
        LagrangeTermStep(coeff, n, i);
      }
      SumAddScaled(LagrangeTerm(front, n), MomentTerm(n, m), LagrangeTerm(coeff, n), last, 1, n + 1);
      Moment(n, m);
      assert front[0] == coeff[0];
    }
  }

  /**
   * Lagrange correctness: recombining the shares of parties 1..size of any
   * polynomial with at most size coefficients yields its constant term,
   * reduced modulo PRIME. The shares may come in a map holding other
   * parties too; only parties 1..size are read.
   */
  lemma Lagrange(coeff: seq<int>, size: nat, values: map<int, int>)
    requires 1 <= |coeff| <= size < PRIME
    requires forall i :: 1 <= i <= size ==> i in values && values[i] == CalcPoly(i, coeff)
    ensures forall i :: 1 <= i <= |RecombinationVector(size)| ==> i in values && i in RecombinationVector(size)
    ensures Recombine(values, RecombinationVector(size)) == coeff[0] % PRIME
  {
    var vec := RecombinationVector(size);
    VectorSize(size);
    forall i | 1 <= i <= size
      ensures i in vec && vec[i] % PRIME == Lambda(size, i) % PRIME
    {
      EntryIsLambda(size, i);
    }
    RecombineWithLambda(coeff, size, values, vec);
  }

  /**
   * The products of the shares of two polynomials f and g recombine to the
   * product of their secrets whenever at least |f| + |g| - 1 parties take
   * part: with d + 1 coefficients each, that is 2d + 1 parties.
   */
  lemma ProductsRecombine(f: seq<int>, g: seq<int>, size: nat, values: map<int, int>)
    requires |f| >= 1 && |g| >= 1 && |f| + |g| - 1 <= size < PRIME
    requires forall p :: 1 <= p <= size ==> p in values && values[p] == Mul(CalcPoly(p, f), CalcPoly(p, g))
    ensures forall i :: 1 <= i <= |RecombinationVector(size)| ==> i in values && i in RecombinationVector(size)
    ensures Recombine(values, RecombinationVector(size)) == Mul(f[0], g[0])
  {
    forall p | 1 <= p <= size
      ensures values[p] == CalcPoly(p, PolyMul(f, g))
    {
      ShareProduct(f, g, p);
    }
    Lagrange(PolyMul(f, g), size, values);
  }

  /**
   * Any vector whose entries are congruent to the Lagrange coefficients of
   * the points 1..size recombines shares of a polynomial with at most size
   * coefficients to its constant term.
   */
  lemma RecombineWithLambda(coeff: seq<int>, size: nat, values: map<int, int>, vec: map<int, int>)
    requires 1 <= |coeff| <= size && |vec| == size
    requires forall i :: 1 <= i <= size ==> i in values && values[i] == CalcPoly(i, coeff)
    requires forall i :: 1 <= i <= size ==> i in vec && vec[i] % PRIME == Lambda(size, i) % PRIME
    ensures Recombine(values, vec) == coeff[0] % PRIME
  {
    var f := RecombineTerm(values, vec);
    forall i | 1 <= i < size + 1
      ensures f(i) % PRIME == LagrangeTerm(coeff, size)(i) % PRIME
    {
      ShareTimesEntry(coeff, size, values[i], vec[i], i);
    }
    SumMod(f, LagrangeTerm(coeff, size), 1, size + 1);
    LagrangeExact(coeff, size);
  }

  /** Pointwise: a share times its vector entry is congruent to the exact Lagrange term. */
  lemma ShareTimesEntry(coeff: seq<int>, size: nat, share: int, entry: int, i: int)
    requires share == CalcPoly(i, coeff) && entry % PRIME == Lambda(size, i) % PRIME
    ensures (share * entry) % PRIME == LagrangeTerm(coeff, size)(i) % PRIME
  {
    var p, l := PolyValue(coeff, i), Lambda(size, i);
    assert LagrangeTerm(coeff, size)(i) == p * l;
    assert share % PRIME == p % PRIME;
    MulModBoth(share, entry, p, l);
  }

  /** Pointwise field addition of two share maps. */
  function AddShares(s1: map<int, int>, s2: map<int, int>): (r: map<int, int>)
    ensures r.Keys == s1.Keys * s2.Keys
  {
    map i | i in s1 && i in s2 :: Add(s1[i], s2[i])
  }

  /**
   * Recombination is linear: the recombination of pointwise added shares is
   * the field sum of the two recombinations, whatever the vector.
   */
  lemma RecombineLinear(s1: map<int, int>, s2: map<int, int>, vec: map<int, int>)
    requires forall i :: 1 <= i <= |vec| ==> i in s1 && i in s2 && i in vec
    ensures Recombine(AddShares(s1, s2), vec) == Add(Recombine(s1, vec), Recombine(s2, vec))
  {
    var s := AddShares(s1, s2);
    var x1, x2 := Sum(RecombineTerm(s1, vec), 1, |vec| + 1), Sum(RecombineTerm(s2, vec), 1, |vec| + 1);
    var x := Sum(RecombineTerm(s, vec), 1, |vec| + 1);
    SummedSharesAdd(s1, s2, vec);
    AddOfResidues(x1, x2, x);
    RecombineUnfold(s1, vec);
    RecombineUnfold(s2, vec);
    RecombineUnfold(s, vec);
  }

  /** Before reduction, the recombination sum of added shares is congruent to the sum of the two sums. */
  lemma SummedSharesAdd(s1: map<int, int>, s2: map<int, int>, vec: map<int, int>)
    requires forall i :: 1 <= i <= |vec| ==> i in s1 && i in s2 && i in vec
    ensures Sum(RecombineTerm(AddShares(s1, s2), vec), 1, |vec| + 1) % PRIME
         == (Sum(RecombineTerm(s1, vec), 1, |vec| + 1) + Sum(RecombineTerm(s2, vec), 1, |vec| + 1)) % PRIME
  {
    var f1, f2, f := RecombineTerm(s1, vec), RecombineTerm(s2, vec), RecombineTerm(AddShares(s1, s2), vec);
    forall i | 1 <= i < |vec| + 1
      ensures f(i) % PRIME == (f1(i) + f2(i)) % PRIME
    {
      LinearTerm(s1[i], s2[i], vec[i]);
    }
    SumModAdd(f, f1, f2, 1, |vec| + 1);
  }

  lemma LinearTerm(a: int, b: int, v: int)
    ensures (Add(a, b) * v) % PRIME == (a * v + b * v) % PRIME
  {
    assert Add(a, b) % PRIME == (a + b) % PRIME;
    MulModBoth(Add(a, b), v, a + b, v);
    assert (a + b) * v == a * v + b * v;
  }

  /** Termwise congruence to a sum of two terms carries over to the sums. */
  lemma {:induction false} SumModAdd(f: int -> int, f1: int -> int, f2: int -> int, lo: int, hi: int)
    requires forall i :: lo <= i < hi ==> f(i) % PRIME == (f1(i) + f2(i)) % PRIME
    ensures Sum(f, lo, hi) % PRIME == (Sum(f1, lo, hi) + Sum(f2, lo, hi)) % PRIME
    decreases hi - lo
  {
    if lo < hi {
      SumModAdd(f, f1, f2, lo, hi - 1);
      var a, b := Sum(f1, lo, hi - 1), Sum(f2, lo, hi - 1);
      AddModBoth(Sum(f, lo, hi - 1), f(hi - 1), a + b, f1(hi - 1) + f2(hi - 1));
      assert (a + b) + (f1(hi - 1) + f2(hi - 1)) == Sum(f1, lo, hi) + Sum(f2, lo, hi);
    }
  }
}
