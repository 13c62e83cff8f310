/**
 * The circuit generators: the GATES table of the binary-to-decimal
 * converter (CIRCUIT == 3, `calc_gates`) and of the product tree
 * (CIRCUIT == 2, `tree`), the private values and the plaintext reference
 * `function`, and the parameter checks made when the module loads.
 *
 * GATES is a Python dict: its keys iterate in insertion order, and an
 * assignment to a key already present replaces the value and keeps the
 * position.
 */
module Circuit {
  import opened Field
  import opened Combinatorics
  import opened Shamir

  /** Degree of the sharing polynomials (T). */
  const DEGREE: int := 2

  /** Gate kinds INP, ADD, MUL; ZER is a kind only the older party variant knows. */
  datatype Kind = Inp | Add | Mul | Zer

  /** A gate (type, output_gate, order): it writes its value to slot `slot` of gate `dest`. */
  datatype Gate = Gate(kind: Kind, dest: int, slot: int)

  /** One item of GATES: a gate id and its gate. */
  type Entry = (int, Gate)

  /** A dict from gate ids to gates: its keys in insertion order, and the gate of each. */
  datatype GateDict = GateDict(order: seq<int>, at: map<int, Gate>)

  const Empty: GateDict := GateDict([], map[])

  /** The order lists each key once, and lists exactly the keys that have a gate. */
  predicate Valid(d: GateDict)
  {
    && (forall j :: 0 <= j < |d.order| ==> d.order[j] in d.at)
    && (forall k :: k in d.at ==> k in d.order)
    && (forall i, j :: 0 <= i < j < |d.order| ==> d.order[i] != d.order[j])
  }

  /** GATES.items(), in iteration order: each key of the dict once, with its gate. */
  function Items(d: GateDict): (r: seq<Entry>)
    requires Valid(d)
    ensures |r| == |d.order|
    ensures forall j :: 0 <= j < |r| ==> r[j] == (d.order[j], d.at[d.order[j]])
    ensures forall i, j :: 0 <= i < j < |r| ==> r[i].0 != r[j].0
    ensures forall k :: k in d.at ==> exists j :: 0 <= j < |r| && r[j] == (k, d.at[k])
  {
    var r := seq(|d.order|, j requires 0 <= j < |d.order| => (d.order[j], d.at[d.order[j]]));
    assert forall k :: k in d.at ==> exists j :: 0 <= j < |r| && r[j] == (k, d.at[k]) by {
      forall k | k in d.at
        ensures exists j :: 0 <= j < |r| && r[j] == (k, d.at[k])
      {
        var j :| 0 <= j < |d.order| && d.order[j] == k;
        assert r[j] == (k, d.at[k]);
      }
    }
    r
  }

  /** Dict assignment `GATES[k] = g`: a new key goes to the end of the order. */
  function Put(d: GateDict, k: int, g: Gate): GateDict
  {
    GateDict(if k in d.at then d.order else d.order + [k], d.at[k := g])
  }

  /**
   * Assignment keeps the dict well formed. A new key is listed last with
   * its gate; a key already present keeps its position and gets the new
   * gate, and every other item stays as it was.
   */
  lemma PutItems(d: GateDict, k: int, g: Gate)
    requires Valid(d)
    ensures Valid(Put(d, k, g))
    ensures k !in d.at ==> Items(Put(d, k, g)) == Items(d) + [(k, g)]
    ensures k in d.at ==> exists p :: 0 <= p < |d.order| && d.order[p] == k && Items(Put(d, k, g)) == Items(d)[p := (k, g)]
  {
    if k in d.at {
      PutPresent(d, k, g);
    } else {
      PutFresh(d, k, g);
    }
  }

  lemma PutPresent(d: GateDict, k: int, g: Gate)
    requires Valid(d) && k in d.at
    ensures Valid(Put(d, k, g))
    ensures exists p :: 0 <= p < |d.order| && d.order[p] == k && Items(Put(d, k, g)) == Items(d)[p := (k, g)]
  {
    assert Valid(Put(d, k, g)) by {
      assert Put(d, k, g).order == d.order && Put(d, k, g).at.Keys == d.at.Keys;
    }
    var p :| 0 <= p < |d.order| && d.order[p] == k;
    PutAt(d, k, g, p);
  }

  lemma PutAt(d: GateDict, k: int, g: Gate, p: nat)
    requires Valid(d) && Valid(Put(d, k, g)) && p < |d.order| && d.order[p] == k
    ensures Items(Put(d, k, g)) == Items(d)[p := (k, g)]
  {
    var a, b := Items(Put(d, k, g)), Items(d)[p := (k, g)];
    forall j | 0 <= j < |a|
      ensures a[j] == b[j]
    {
      if j != p {
        assert d.order[j] != k;
      }
    }
  }

  lemma PutFresh(d: GateDict, k: int, g: Gate)
    requires Valid(d) && k !in d.at
    ensures Valid(Put(d, k, g)) && Items(Put(d, k, g)) == Items(d) + [(k, g)]
  {
    PutFreshValid(d, k, g);
    var a, b := Items(Put(d, k, g)), Items(d) + [(k, g)];
    forall j | 0 <= j < |a|
      ensures a[j] == b[j]
    {
    }
  }

  lemma PutFreshValid(d: GateDict, k: int, g: Gate)
    requires Valid(d) && k !in d.at
    ensures Valid(Put(d, k, g))
  {
    var o := d.order + [k];
    assert Put(d, k, g).order == o;
    forall i, j | 0 <= i < j < |o|
      ensures o[i] != o[j]
    {
      if j < |d.order| {
        assert o[i] == d.order[i] && o[j] == d.order[j];
      } else {
        assert o[i] == d.order[i] && d.order[i] in d.at;
      }
    }
  }

  /** The assignments es[i..], one after another, starting from `t`. */
  function AssignFrom(t: GateDict, es: seq<Entry>, i: nat): GateDict
    decreases |es| - i
  {
    if i >= |es| then t else AssignFrom(Put(t, es[i].0, es[i].1), es, i + 1)
  }

  /** All the assignments of `es`, one after another, starting from `t`. */
  function PutAll(t: GateDict, es: seq<Entry>): GateDict
  {
    AssignFrom(t, es, 0)
  }

  lemma {:induction false} AssignFromAppend(t: GateDict, a: seq<Entry>, b: seq<Entry>, i: nat)
    requires i <= |a|
    ensures AssignFrom(t, a + b, i) == AssignFrom(AssignFrom(t, a, i), b, 0)
    decreases |a| - i
  {
    if i < |a| {
      assert (a + b)[i] == a[i];
      AssignFromAppend(Put(t, a[i].0, a[i].1), a, b, i + 1);
    } else {
      AssignFromShift(t, a, b, 0);
    }
  }

  lemma {:induction false} AssignFromShift(t: GateDict, a: seq<Entry>, b: seq<Entry>, j: nat)
    requires j <= |b|
    ensures AssignFrom(t, a + b, |a| + j) == AssignFrom(t, b, j)
    decreases |b| - j
  {
    if j < |b| {
      assert (a + b)[|a| + j] == b[j];
      AssignFromShift(Put(t, b[j].0, b[j].1), a, b, j + 1);
    }
  }

  lemma PutAllAppend(t: GateDict, a: seq<Entry>, b: seq<Entry>)
    ensures PutAll(t, a + b) == PutAll(PutAll(t, a), b)
  {
    AssignFromAppend(t, a, b, 0);
  }

  /** The keys of `s` are start, start + 1, ... in order. */
  predicate Consecutive(s: seq<Entry>, start: int)
  {
    forall j :: 0 <= j < |s| ==> s[j].0 == start + j
  }

  /** Assigning fresh consecutive keys to a dict lists them after its items. */
  lemma {:induction false} AssignFromFresh(t: GateDict, es: seq<Entry>, i: nat)
    requires i <= |es| && Consecutive(es, 1) && Valid(t)
    requires Items(t) == es[..i] && forall k :: k in t.at ==> 1 <= k <= i
    ensures Valid(AssignFrom(t, es, i)) && Items(AssignFrom(t, es, i)) == es
    decreases |es| - i
  {
    if i < |es| {
      FreshStep(t, es, i);
      AssignFromFresh(Put(t, es[i].0, es[i].1), es, i + 1);
    } else {
      assert es[..i] == es;
    }
  }

  /** One fresh assignment keeps the invariant of AssignFromFresh. */
  lemma FreshStep(t: GateDict, es: seq<Entry>, i: nat)
    requires i < |es| && Consecutive(es, 1) && Valid(t)
    requires Items(t) == es[..i] && forall k :: k in t.at ==> 1 <= k <= i
    ensures Valid(Put(t, es[i].0, es[i].1)) && Items(Put(t, es[i].0, es[i].1)) == es[..i + 1]
    ensures forall k :: k in Put(t, es[i].0, es[i].1).at ==> 1 <= k <= i + 1
  {
    assert es[i].0 == i + 1 && i + 1 !in t.at;
    PutFresh(t, es[i].0, es[i].1);
    assert es[..i + 1] == es[..i] + [es[i]];
  }

  /** Items of a dict filled from empty with the keys 1, 2, ... */
  lemma PutAllFresh(es: seq<Entry>)
    requires Consecutive(es, 1)
    ensures Valid(PutAll(Empty, es)) && Items(PutAll(Empty, es)) == es
  {
    AssignFromFresh(Empty, es, 0);
  }

  // ---------------------------------------------------------------------
  // ---------------------------------------------------------------------
  // calc_gates

  /** Number of iterations of `range(1, n)`. */
  function Iterations(n: nat): nat
  {
    if n >= 1 then n - 1 else 0
  }

  /** The first c iterations of lines 156-157: digit i feeds slot 1 of gate num_pv + i. */
  function FirstInputs(pv: int, c: nat): seq<Entry>
  {
    if c == 0 then [] else FirstInputs(pv, c - 1) + [(c, Gate(Inp, pv + c, 1))]
  }

  /** Lines 158-162: the last digit feeds the final addition, or is the output itself. */
  function LastInput(n: int, pv: int): Entry
  {
    (n, Gate(Inp, if n == 1 then 2 * pv else 2 * pv - 1, if n == 1 then 1 else 2))
  }

  /** The first c iterations of lines 163-164: power n + i feeds slot 2 of gate num_pv + i. */
  function SecondInputs(n: int, pv: int, c: nat): seq<Entry>
  {
    if c == 0 then [] else SecondInputs(n, pv, c - 1) + [(c + n, Gate(Inp, c + pv, 2))]
  }

  /** Lines 168-172: product i feeds the first addition (i == 1) or slot 2 of a later one. */
  function MulGate(n: int, pv: int, i: int): Gate
  {
    Gate(Mul, if i == 1 then i + pv + n - 1 else i + pv + n - 2, if i == 1 then 1 else 2)
  }

  /** The first c iterations of lines 167-172. */
  function MulGates(n: int, pv: int, c: nat): seq<Entry>
  {
    if c == 0 then [] else MulGates(n, pv, c - 1) + [(c + pv, MulGate(n, pv, c))]
  }

  /** The first c iterations of lines 175-180: each addition feeds slot 1 of the next gate. */
  function AddGates(n: int, pv: int, c: nat): seq<Entry>
  {
    if c == 0 then [] else AddGates(n, pv, c - 1) + [(c + pv + n - 1, Gate(Add, c + pv + n, 1))]
  }

  /** The assignments calc_gates makes, in program order, for len(INPUT) == n and len(PRIVATE_VALUES) == pv. */
  function CalcGatesEntries(n: nat, pv: int): seq<Entry>
  {
    var c := Iterations(n);
    FirstInputs(pv, c) + [LastInput(n, pv)] + SecondInputs(n, pv, c) + MulGates(n, pv, c) + AddGates(n, pv, c)
  }

  lemma AppendFive<T>(s: seq<T>, a: seq<T>, b: seq<T>, c: seq<T>, d: seq<T>, e: seq<T>)
    ensures s + a + b + c + d + e == s + (a + b + c + d + e)
  {
  }

  // ---------------------------------------------------------------------
  // tree

  function LevelKind(next: int): Kind
  {
    if next == 1 then Inp else Mul
  }

  /**
   * Iteration h of the loop of lines 66-70 for a level of n gates from
   * `next`: gate next + 2h feeds slot 1 of gate next + n + h, and gate
   * next + 2h + 1, when it is still in the level, feeds its slot 2.
   */
  function Pair(next: int, n: int, kind: Kind, h: int): seq<Entry>
  {
    [(next + 2 * h, Gate(kind, next + n + h, 1))]
    + (if 2 * h + 1 < n then [(next + 2 * h + 1, Gate(kind, next + n + h, 2))] else [])
  }

  /** The first h iterations of the level loop. */
  function Pairs(next: int, n: int, kind: Kind, h: nat): seq<Entry>
  {
    if h == 0 then [] else Pairs(next, n, kind, h - 1) + Pair(next, n, kind, h - 1)
  }

  /** One level of `tree(next, n)`: all (n + 1) / 2 iterations of its loop. */
  function Level(next: int, n: nat, kind: Kind): seq<Entry>
  {
    Pairs(next, n, kind, (n + 1) / 2)
  }

  /** The assignments `tree(next, n)` makes, level by level. */
  function TreeEntries(next: int, n: int): seq<Entry>
    decreases n
  {
    if n >= 1 then Level(next, n, LevelKind(next)) + TreeEntries(next + n, n / 2)
    else []
  }

  /**
   * The global GATES dict and the two generators that fill it. The dict is
   * kept as the assignments made to it since it was created empty; its
   * contents are those assignments replayed in order.
   */
  class GateTable {
    var assignments: seq<Entry>

    /** The dict itself. */
    function Gates(): GateDict
      reads this
    {
      PutAll(Empty, assignments)
    }

    /** GATES = {} */
    constructor ()
      ensures assignments == [] && Gates() == Empty
    {
      assignments := [];
    }

    /** GATES[k] = g */
    method Assign(k: int, g: Gate)
      modifies this
      ensures assignments == old(assignments) + [(k, g)]
    {
      assignments := assignments + [(k, g)];
    }

    /** calc_gates() with len(INPUT) == numInput and len(PRIVATE_VALUES) == numPv. */
    method CalcGates(numInput: nat, numPv: int)
      modifies this
      ensures assignments == old(assignments) + CalcGatesEntries(numInput, numPv)
    {
      ghost var start := assignments;
      AssignFirstInputs(numInput, numPv);
      Assign(numInput, Gate(Inp, if numInput == 1 then 2 * numPv else 2 * numPv - 1,
                                 if numInput == 1 then 1 else 2));
      AssignSecondInputs(numInput, numPv);
      AssignMulGates(numInput, numPv);
      AssignAddGates(numInput, numPv);
      AppendFive(start, FirstInputs(numPv, Iterations(numInput)), [LastInput(numInput, numPv)],
        SecondInputs(numInput, numPv, Iterations(numInput)), MulGates(numInput, numPv, Iterations(numInput)),
        AddGates(numInput, numPv, Iterations(numInput)));
    }

    /** The first loop of calc_gates: slot 1 of the first numInput - 1 digit gates. */
    method AssignFirstInputs(numInput: nat, numPv: int)
      modifies this
      ensures assignments == old(assignments) + FirstInputs(numPv, Iterations(numInput))
    {
      var i := 1;
      while i < numInput
        invariant 1 <= i <= Iterations(numInput) + 1
        invariant assignments == old(assignments) + FirstInputs(numPv, i - 1)
      {
        Assign(i, Gate(Inp, numPv + i, 1));
        i := i + 1;
      }
    }

    /** The second loop of calc_gates: slot 2 of the same gates. */
    method AssignSecondInputs(numInput: nat, numPv: int)
      modifies this
      ensures assignments == old(assignments) + SecondInputs(numInput, numPv, Iterations(numInput))
    {
      var i := 1;
      while i < numInput
        invariant 1 <= i <= Iterations(numInput) + 1
        invariant assignments == old(assignments) + SecondInputs(numInput, numPv, i - 1)
      {
        Assign(i + numInput, Gate(Inp, i + numPv, 2));
        i := i + 1;
      }
    }

    /** The third loop of calc_gates: the MUL gates. */
    method AssignMulGates(numInput: nat, numPv: int)
      modifies this
      ensures assignments == old(assignments) + MulGates(numInput, numPv, Iterations(numInput))
    {
      var i := 1;
      while i < numInput
        invariant 1 <= i <= Iterations(numInput) + 1
        invariant assignments == old(assignments) + MulGates(numInput, numPv, i - 1)
      {
        Assign(i + numPv, Gate(Mul, if i == 1 then i + numPv + numInput - 1 else i + numPv + numInput - 2,
                                    if i == 1 then 1 else 2));
        i := i + 1;
      }
    }

    /** The fourth loop of calc_gates: the ADD gates. */
    method AssignAddGates(numInput: nat, numPv: int)
      modifies this
      ensures assignments == old(assignments) + AddGates(numInput, numPv, Iterations(numInput))
    {
      var i := 1;
      while i < numInput
        invariant 1 <= i <= Iterations(numInput) + 1
        invariant assignments == old(assignments) + AddGates(numInput, numPv, i - 1)
      {
        Assign(i + numPv + numInput - 1, Gate(Add, i + numPv + numInput, 1));
        i := i + 1;
      }
    }

    /** One level of tree(next, n): the loop of lines 63-70. */
    method TreeLevel(next: int, n: nat)
      modifies this
      ensures assignments == old(assignments) + Level(next, n, LevelKind(next))
    {
      var kind := if next == 1 then Inp else Mul;
      var outputGate := next + n;
      var lastGate := outputGate - 1;
      var g := next;
      ghost var h := 0;
      while g < next + n
        invariant g == next + 2 * h && 0 <= 2 * h <= n + 1
        invariant outputGate == next + n + h
        invariant assignments == old(assignments) + Pairs(next, n, kind, h)
      {
        Assign(g, Gate(kind, outputGate, 1));
        if g < lastGate {
          Assign(g + 1, Gate(kind, outputGate, 2));
        }
        outputGate := outputGate + 1;
        g := g + 2;
        h := h + 1;
      }
    }

    /** tree(next, n): one level of n gates paired into (n + 1) / 2, then the next level. */
    method Tree(next: int, n: int)
      modifies this
      ensures assignments == old(assignments) + TreeEntries(next, n)
      decreases if n < 0 then 0 else n
    {
      if n >= 1 {
        TreeLevel(next, n);
        Tree(next + n, n / 2);
      }
    }
  }
}
