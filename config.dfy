/**
 * The module-level configuration of circuit2_electric_boogaloo.py for the
 * binary-to-decimal converter (CIRCUIT == 3) and the product tree
 * (CIRCUIT == 2): PRIVATE_VALUES, the plaintext reference `function`,
 * N_GATES and N_PARTIES, and the two parameter asserts.
 */
module CircuitConfig {
  import opened Field
  import opened Combinatorics
  import opened Shamir
  import opened Circuit
  import opened Wiring

  /**
   * PRIVATE_VALUES[k] for a binary INPUT of n digits: the digits at keys
   * 1..n, then 2^(n-1), ..., 2^1 at keys n + 1..2n - 1.
   */
  function PrivateValue(input: seq<int>, k: int): int
    requires 1 <= k <= 2 * |input| - 1
  {
    if k <= |input| then input[k - 1] else Pow(2, 2 * |input| - k)
  }

  /** len(PRIVATE_VALUES) for n digits. */
  function PartyCount(n: nat): nat
  {
    if n == 0 then 0 else 2 * n - 1
  }

  /** PRIVATE_VALUES as a whole. */
  function PrivateValuesOf(input: seq<int>): map<int, int>
  {
    map k | 1 <= k <= PartyCount(|input|) :: PrivateValue(input, k)
  }

  /** Lines 92-94: the digits by a comprehension, then the powers of two by a loop. */
  method PrivateValues(input: seq<int>) returns (pv: map<int, int>)
    ensures pv == PrivateValuesOf(input)
  {
    var n := |input|;
    pv := map k | 1 <= k <= n :: PrivateValue(input, k);  // the digits, INPUT[k - 1]
    var i := 1;
    while i < n
      invariant 1 <= i && (n >= 1 ==> i <= n)
      invariant forall k :: k in pv <==> 1 <= k < n + i
      invariant forall k :: k in pv ==> 1 <= k <= 2 * n - 1 && pv[k] == PrivateValue(input, k)
    {
      pv := pv[i + n := Pow(2, n - i)];
      i := i + 1;
    }
    PrivateValuesExt(input, pv);
  }

  /** A map with the keys and values of PRIVATE_VALUES is PRIVATE_VALUES. */
  lemma PrivateValuesExt(input: seq<int>, pv: map<int, int>)
    requires forall k :: k in pv <==> 1 <= k <= PartyCount(|input|)
    requires forall k :: k in pv ==> 1 <= k <= 2 * |input| - 1 && pv[k] == PrivateValue(input, k)
    ensures pv == PrivateValuesOf(input)
  {
  }

  /** PRIVATE_VALUES has the 2n - 1 keys 1..2n - 1, its digits in order and 2^(n-i) at key n + i. */
  lemma PrivateValuesShape(input: seq<int>)
    ensures PrivateValuesOf(input).Keys == Interval(PartyCount(|input|))
    ensures |PrivateValuesOf(input)| == PartyCount(|input|)
    ensures forall k :: 1 <= k <= |input| ==> PrivateValuesOf(input)[k] == input[k - 1]
    ensures forall k :: |input| < k < 2 * |input| ==> PrivateValuesOf(input)[k] == Pow(2, 2 * |input| - k)
  {
    var pv := PrivateValuesOf(input);
    assert pv.Keys == Interval(PartyCount(|input|));
    assert |pv| == |pv.Keys|;
  }

  // ---------------------------------------------------------------------
  // function(x), lines 96-101

  /** num_digits: the number of binary digits behind a PRIVATE_VALUES dict of |x| entries. */
  function NumDigits(x: map<int, int>): int
  {
    |x| / 2 + 1
  }

  /** The keys `function` reads: 1..nd, and nd + 1..2nd - 1. */
  predicate HasDigitKeys(x: map<int, int>, nd: int)
  {
    forall i :: 1 <= i < 2 * nd ==> i in x
  }

  /** x[1] * x[1 + nd] + ... + x[m] * x[m + nd]. */
  function DigitSum(x: map<int, int>, nd: int, m: nat): int
    requires m < nd && HasDigitKeys(x, nd)
  {
    if m == 0 then 0 else DigitSum(x, nd, m - 1) + x[m] * x[m + nd]
  }

  /** The value `function` returns. */
  function Reference(x: map<int, int>): int
    requires HasDigitKeys(x, NumDigits(x))
  {
    var nd := NumDigits(x);
    (x[nd] + DigitSum(x, nd, nd - 1)) % PRIME
  }

  /** function(x): the accumulation loop of lines 97-101. */
  method Function(x: map<int, int>) returns (r: int)
    requires HasDigitKeys(x, NumDigits(x))
    ensures r == Reference(x)
    ensures 0 <= r < PRIME
  {
    var numDigits := |x| / 2 + 1;
    var acc := x[numDigits];
    for i := 1 to numDigits
      invariant acc == x[numDigits] + DigitSum(x, numDigits, i - 1)
    {
      acc := acc + x[i] * x[i + numDigits];
    }
    r := acc % PRIME;
  }

  /** The number the first m binary digits denote, most significant digit first. */
  function PrefixValue(digits: seq<int>, m: nat): int
    requires m <= |digits|
  {
    if m == 0 then 0 else 2 * PrefixValue(digits, m - 1) + digits[m - 1]
  }

  /** The number a sequence of binary digits denotes, most significant digit first. */
  function BinaryValue(digits: seq<int>): int
  {
    PrefixValue(digits, |digits|)
  }

  /** x carries the digits of `input` at keys 1..n and 2^(2n-k) at keys n < k < 2n. */
  predicate DigitsAndPowers(x: map<int, int>, input: seq<int>)
  {
    && HasDigitKeys(x, |input|)
    && (forall k :: 1 <= k <= |input| ==> x[k] == input[k - 1])
    && (forall k :: |input| < k < 2 * |input| ==> x[k] == Pow(2, 2 * |input| - k))
  }

  lemma {:induction false} DigitSumIsPrefixValue(x: map<int, int>, input: seq<int>, m: nat)
    requires m < |input| && DigitsAndPowers(x, input)
    ensures DigitSum(x, |input|, m) == PrefixValue(input, m) * Pow(2, |input| - m)
  {
    if m > 0 {
      var n := |input|;
      DigitSumIsPrefixValue(x, input, m - 1);
      assert x[m + n] == Pow(2, n - m);
      assert Pow(2, n - m + 1) == 2 * Pow(2, n - m);
      PrefixStep(DigitSum(x, n, m - 1), PrefixValue(input, m - 1), input[m - 1], Pow(2, n - m));
    }
  }

  lemma PrefixStep(s: int, b: int, d: int, p: int)
    requires s == b * (2 * p)
    ensures s + d * p == (2 * b + d) * p
  {
  }

  lemma ReferenceOfDigits(x: map<int, int>, input: seq<int>)
    requires |input| >= 1 && DigitsAndPowers(x, input) && NumDigits(x) == |input|
    ensures Reference(x) == BinaryValue(input) % PRIME
  {
    var n := |input|;
    var p := PrefixValue(input, n - 1);
    assert DigitSum(x, n, n - 1) == p * 2 by {
      DigitSumIsPrefixValue(x, input, n - 1);
      assert Pow(2, 1) == 2;
    }
    assert x[n] == input[n - 1];
  }

  /**
   * On the PRIVATE_VALUES of an n-digit INPUT, `function` computes the
   * number INPUT denotes in binary, most significant digit first, modulo PRIME.
   */
  lemma ReferenceIsBinaryValue(input: seq<int>)
    requires |input| >= 1
    ensures HasDigitKeys(PrivateValuesOf(input), NumDigits(PrivateValuesOf(input)))
    ensures Reference(PrivateValuesOf(input)) == BinaryValue(input) % PRIME
  {
    var x := PrivateValuesOf(input);
    PrivateValuesShape(input);
    assert NumDigits(x) == |input|;
    ReferenceOfDigits(x, input);
  }

  /** INPUT = (1, 1, 0, 0, 1, 1, 0, 1) denotes 205 (line 85), and the commented-out inputs 22 and 6. */
  lemma InputExamples()
    ensures BinaryValue([1, 1, 0, 0, 1, 1, 0, 1]) == 205
    ensures BinaryValue([1, 0, 1, 1, 0]) == 22
    ensures BinaryValue([0, 1, 1, 0]) == 6
  {
    var a := [1, 1, 0, 0, 1, 1, 0, 1];
    assert PrefixValue(a, 2) == 3;
    assert PrefixValue(a, 4) == 12;
    assert PrefixValue(a, 6) == 51;
    assert PrefixValue(a, 8) == 205;
    var b := [1, 0, 1, 1, 0];
    assert PrefixValue(b, 2) == 2;
    assert PrefixValue(b, 4) == 11;
    assert PrefixValue(b, 5) == 22;
    var c := [0, 1, 1, 0];
    assert PrefixValue(c, 2) == 1;
    assert PrefixValue(c, 4) == 6;
  }

  // ---------------------------------------------------------------------
  // The parameter asserts, lines 189-195

  /** assert PRIME > N_PARTIES and assert 2*DEGREE < N_PARTIES. */
  predicate ParametersHold(nParties: int)
  {
    PRIME > nParties && 2 * DEGREE < nParties
  }

  /** The converter passes both asserts exactly for 3 to 50001 digits. */
  lemma ConverterParameters(n: nat)
    ensures ParametersHold(PartyCount(n)) <==> 3 <= n <= 50001
  {
  }

  /** The product tree for INPUTS = 2^3 passes both asserts. */
  lemma TreeParameters()
    ensures ParametersHold(Pow(2, 3))
  {
  }

  /** The converter has N_GATES = 4n - 3 gates for n digits and N_PARTIES = 2n - 1 parties. */
  lemma ConverterSizes(n: nat)
    requires n >= 1
    ensures |Converter(n)| == 4 * n - 3
    ensures |PrivateValuesOf(seq(n, _ => 0))| == 2 * n - 1
  {
    CalcGatesAt(n);
    PrivateValuesShape(seq(n, _ => 0));
  }

  // ---------------------------------------------------------------------
  // Loading the module

  /** A dict filled from empty by a wired circuit lists exactly that circuit. */
  lemma FilledDict(assignments: seq<Entry>, es: seq<Entry>)
    requires assignments == es && Wired(es)
    ensures Valid(PutAll(Empty, assignments)) && Items(PutAll(Empty, assignments)) == es
  {
    PutAllFresh(es);
  }

  /**
   * Loading the module with CIRCUIT == 3 and a given INPUT: PRIVATE_VALUES,
   * then GATES = {} and calc_gates(), then FUNCTION_RESULT. The two asserts
   * that follow are required to hold.
   */
  method LoadConverter(input: seq<int>) returns (pv: map<int, int>, gates: GateTable, functionResult: int)
    requires ParametersHold(PartyCount(|input|))
    ensures pv == PrivateValuesOf(input) && |pv| == 2 * |input| - 1
    ensures fresh(gates) && Valid(gates.Gates()) && Items(gates.Gates()) == Converter(|input|)
    ensures Wired(Items(gates.Gates())) && CountInputs(Items(gates.Gates())) == |pv|
    ensures functionResult == BinaryValue(input) % PRIME
  {
    pv := PrivateValues(input);
    PrivateValuesShape(input);
    gates := new GateTable();
    gates.CalcGates(|input|, |pv|);
    assert gates.assignments == Converter(|input|);
    ConverterWired(|input|);
    FilledDict(gates.assignments, Converter(|input|));
    ReferenceIsBinaryValue(input);
    functionResult := Function(pv);
  }

  /** The product tree's inputs, INPUTS = 2^3 (line 50). */
  const TreeInputs: nat := 8

  /** Loading the module with CIRCUIT == 2: GATES = {} and tree(1, INPUTS), lines 58-73. */
  method LoadProductTree() returns (gates: GateTable)
    ensures fresh(gates) && Valid(gates.Gates()) && Items(gates.Gates()) == TreeEntries(1, TreeInputs)
    ensures Wired(Items(gates.Gates())) && CountInputs(Items(gates.Gates())) == TreeInputs
    ensures |Items(gates.Gates())| == 2 * TreeInputs - 1
  {
    gates := new GateTable();
    gates.Tree(1, TreeInputs);
    assert TreeInputs == Pow(2, 3);
    TreeCircuit(3);
    FilledDict(gates.assignments, TreeEntries(1, TreeInputs));
  }
}
