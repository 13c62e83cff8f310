/**
 * The prime field that every share lives in: the `modprime` helpers
 * `add`, `mul` and `div` imported by both party variants, over the modulus
 * of the binary-to-decimal circuit configuration.
 */
module Field {

  /** The modulus of the CIRCUIT == 3 configuration. */
  const PRIME: int := 100_003

  /** `p` has no divisor strictly between 1 and itself. */
  ghost predicate IsPrime(p: int)
  {
    p > 1 && forall d :: 1 < d < p ==> p % d != 0
  }

  /** Trial division by every candidate up to 316 leaves a remainder. */
  lemma NoSmallFactor()
    ensures forall d :: 2 <= d < 317 ==> PRIME % d != 0
  {
  }

  /** 316 * 316 < PRIME < 317 * 317, so trial division up to 316 decides primality. */
  lemma PrimeIsPrime()
    ensures IsPrime(PRIME)
  {
    NoSmallFactor();
    forall d | 1 < d < PRIME
      ensures PRIME % d != 0
    {
      if d >= 317 && PRIME % d == 0 {
        var e := PRIME / d;
        DivModUnique(PRIME, d, e, 0);
        CofactorIsSmall(PRIME, d, e);
        DivModUnique(PRIME, e, d, 0);
      }
    }
  }

  /** A number below 317 * 317 that splits as d * e with a factor d of at least 317 has its cofactor below 317. */
  lemma CofactorIsSmall(n: int, d: int, e: int)
    requires 317 <= d < n < 317 * 317 && n == d * e
    ensures 2 <= e < 317
  {
  }

  /** Quotient and remainder are determined by any decomposition m == g * q + r with 0 <= r < g. */
  lemma DivModUnique(m: int, g: int, q: int, r: int)
    requires g > 0 && 0 <= r < g && m == g * q + r
    ensures m / g == q && m % g == r
  {
    var t := m / g - q;
    assert g * (m / g) + m % g == g * q + r;
    assert g * t == r - m % g;
  }

  /** modprime.add */
  function Add(a: int, b: int): (r: int)
    ensures 0 <= r < PRIME
    ensures r % PRIME == (a + b) % PRIME
  {
    (a + b) % PRIME
  }

  /** modprime.mul */
  function Mul(a: int, b: int): (r: int)
    ensures 0 <= r < PRIME
    ensures r % PRIME == (a * b) % PRIME
  {
    (a * b) % PRIME
  }

  /** `d` divides `a` (with d > 0). */
  predicate Divides(d: int, a: int)
    requires d > 0
  {
    a % d == 0
  }

  /**
   * Extended Euclid: a greatest common divisor `g` of `a` and `b` together
   * with Bezout coefficients, g == a * x + b * y.
   */
  function ExtGcd(a: nat, b: nat): (r: (nat, int, int))
    ensures r.0 == a * r.1 + b * r.2
    ensures a + b > 0 ==> r.0 > 0 && Divides(r.0, a) && Divides(r.0, b)
    decreases b
  {
    if b == 0 then (a, 1, 0)
    else
      var (g, x, y) := ExtGcd(b, a % b);
      BezoutStep(a, b, g, x, y);
      (g, y, x - (a / b) * y)
  }

  lemma BezoutStep(a: nat, b: nat, g: nat, x: int, y: int)
    requires b > 0
    requires g == b * x + (a % b) * y
    requires g > 0 ==> Divides(g, b) && Divides(g, a % b)
    ensures g == a * y + b * (x - (a / b) * y)
    ensures g > 0 ==> Divides(g, a)
  {
    var q := a / b;
    var m := a % b;
    assert a == q * b + m;
    calc {
      a * y + b * (x - q * y);
      == (q * b + m) * y + b * x - b * (q * y);
      == { assert (q * b + m) * y == q * b * y + m * y; assert b * (q * y) == q * b * y; }
         m * y + b * x;
    }
    if g > 0 {
      var kb := b / g;
      var km := m / g;
      assert b == g * kb;
      assert m == g * km;
      assert a == g * (q * kb + km) by {
        calc {
          a;
          == q * b + m;
          == q * (g * kb) + g * km;
          == { assert q * (g * kb) == g * (q * kb); }
             g * (q * kb) + g * km;
          == g * (q * kb + km);
        }
      }
      MultipleMod(g, q * kb + km);
    }
  }

  lemma MultipleMod(g: int, k: int)
    requires g > 0
    ensures (g * k) % g == 0
  {
    DivModUnique(g * k, g, k, 0);
  }

  /**
   * The multiplicative inverse used by modprime.div; the divisor is first
   * reduced modulo PRIME, so a negative divisor is accepted.
   */
  function Inverse(b: int): (r: int)
    ensures 0 <= r < PRIME
    ensures b % PRIME != 0 ==> (b * r) % PRIME == 1
  {
    var bb := b % PRIME;
    var (g, x, y) := ExtGcd(bb, PRIME);
    var r := x % PRIME;
    if bb != 0 then
      InverseFromBezout(b, bb, g, x, y);
      r
    else
      r
  }

  lemma InverseFromBezout(b: int, bb: int, g: nat, x: int, y: int)
    requires bb == b % PRIME && bb != 0
    requires g == bb * x + PRIME * y
    requires g > 0 && Divides(g, bb) && Divides(g, PRIME)
    ensures (b * (x % PRIME)) % PRIME == 1
  {
    PrimeIsPrime();
    assert g <= bb by {
      var k := bb / g;
      DivModUnique(bb, g, k, 0);
      assert bb == g * k;
      assert g * k >= g;
    }
    assert g == 1;
    calc {
      (b * (x % PRIME)) % PRIME;
      == { MulModBoth(b, x % PRIME, bb, x); }
      (bb * x) % PRIME;
      == { assert bb * x == 1 + (-y) * PRIME; ModMultipleOffset(1, -y); }
      1;
    }
  }

  /** A nonzero integer smaller in magnitude than PRIME is not a multiple of it. */
  lemma NonzeroResidue(d: int)
    requires -PRIME < d < PRIME && d != 0
    ensures d % PRIME != 0
  {
    if d < 0 {
      DivModUnique(d, PRIME, -1, d + PRIME);
    } else {
      DivModUnique(d, PRIME, 0, d);
    }
  }

  /** Reducing twice is reducing once. */
  lemma ModIdempotent(x: int)
    ensures (x % PRIME) % PRIME == x % PRIME
  {
    DivModUnique(x % PRIME, PRIME, 0, x % PRIME);
  }

  /** Adding a multiple of PRIME does not change the residue. */
  lemma ModMultipleOffset(a: int, k: int)
    ensures (a + k * PRIME) % PRIME == a % PRIME
  {
  }

  /** Residues of products depend only on the residues of the factors. */
  lemma MulModBoth(a: int, b: int, a': int, b': int)
    requires a % PRIME == a' % PRIME && b % PRIME == b' % PRIME
    ensures (a * b) % PRIME == (a' * b') % PRIME
  {
    var ka := (a - a') / PRIME;
    var kb := (b - b') / PRIME;
    assert a == a' + ka * PRIME;
    assert b == b' + kb * PRIME;
    var k := a' * kb + ka * b' + ka * kb * PRIME;
    assert a * b == a' * b' + k * PRIME by {
      calc {
        a * b;
        == (a' + ka * PRIME) * (b' + kb * PRIME);
        == a' * b' + a' * (kb * PRIME) + (ka * PRIME) * b' + (ka * PRIME) * (kb * PRIME);
        == { assert a' * (kb * PRIME) == (a' * kb) * PRIME;
             assert (ka * PRIME) * b' == (ka * b') * PRIME;
             assert (ka * PRIME) * (kb * PRIME) == (ka * kb * PRIME) * PRIME; }
        a' * b' + (a' * kb + ka * b' + ka * kb * PRIME) * PRIME;
      }
    }
    ModMultipleOffset(a' * b', k);
  }

  /** Adding two reduced values gives the residue of their unreduced sum. */
  lemma AddOfResidues(x1: int, x2: int, y: int)
    requires y % PRIME == (x1 + x2) % PRIME
    ensures Add(x1 % PRIME, x2 % PRIME) == y % PRIME
  {
    ModIdempotent(x1);
    ModIdempotent(x2);
    AddModBoth(x1 % PRIME, x2 % PRIME, x1, x2);
  }

  /** Residues of sums depend only on the residues of the summands. */
  lemma AddModBoth(a: int, b: int, a': int, b': int)
    requires a % PRIME == a' % PRIME && b % PRIME == b' % PRIME
    ensures (a + b) % PRIME == (a' + b') % PRIME
  {
    var ka := (a - a') / PRIME;
    var kb := (b - b') / PRIME;
    assert a == a' + ka * PRIME;
    assert b == b' + kb * PRIME;
    ModMultipleOffset(a' + b', ka + kb);
  }

  /** modprime.div: `Div(a, b) * b` is congruent to `a` whenever `b` is not. */
  function Div(a: int, b: int): (r: int)
    ensures 0 <= r < PRIME
    ensures b % PRIME != 0 ==> (r * b) % PRIME == a % PRIME
  {
    var r := Mul(a, Inverse(b));
    if b % PRIME != 0 then
      DivCorrect(a, b, r);
      r
    else
      r
  }

  /** Div is multiplication by the inverse. */
  lemma DivByInverse(a: int, b: int)
    ensures Div(a, b) == (a * Inverse(b)) % PRIME
  {
  }

  lemma DivCorrect(a: int, b: int, r: int)
    requires b % PRIME != 0
    requires r == (a * Inverse(b)) % PRIME
    ensures (r * b) % PRIME == a % PRIME
  {
    CancelInverse(a, b, Inverse(b), r);
  }

  lemma CancelInverse(a: int, b: int, inv: int, r: int)
    requires (b * inv) % PRIME == 1 && r == (a * inv) % PRIME
    ensures (r * b) % PRIME == a % PRIME
  {
    var ai := a * inv;
    ModIdempotent(ai);
    MulModBoth(r, b, ai, b);
    assert ai * b == a * (b * inv);
    ModIdempotent(1);
    MulModBoth(a, b * inv, a, 1);
  }
}
