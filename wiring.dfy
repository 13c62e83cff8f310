/**
 * The wiring the evaluator relies on (circuit2_electric_boogaloo.py lines
 * 10-12): gate ids are consecutive from 1, INP gates come first, every gate
 * feeds a later gate on slot 1 or 2, no slot is fed twice, every ADD/MUL
 * gate is fed on both slots by earlier gates, and the last gate feeds slot 1
 * of gate N_GATES + 1, the output wire. Proved here for the gates
 * `calc_gates` and `tree` generate.
 */
module Wiring {
  import opened Circuit
  import opened Combinatorics

  /** Every gate feeds slot 1 or 2 of a later gate, at most the output wire. */
  predicate Forward(es: seq<Entry>)
  {
    forall j :: 0 <= j < |es| ==> es[j].0 < es[j].1.dest <= |es| + 1 && 1 <= es[j].1.slot <= 2
  }

  /** No gate other than INP comes before an INP gate. */
  predicate InputsFirst(es: seq<Entry>)
  {
    forall j :: 0 < j < |es| && es[j].1.kind == Inp ==> es[j - 1].1.kind == Inp
  }

  /** The last gate feeds slot 1 of the output wire. */
  predicate OutputLast(es: seq<Entry>)
  {
    |es| > 0 && es[|es| - 1].1.dest == |es| + 1 && es[|es| - 1].1.slot == 1
  }

  /** No (dest, slot) pair is fed by two gates. */
  predicate FedOnce(es: seq<Entry>)
  {
    forall i, j :: 0 <= i < j < |es| ==> es[i].1.dest != es[j].1.dest || es[i].1.slot != es[j].1.slot
  }

  /** Slot s of gate es[j] is fed by an earlier gate. */
  predicate FedBefore(es: seq<Entry>, j: int, s: int)
    requires 0 <= j < |es|
  {
    exists i :: 0 <= i < j && es[i].1.dest == es[j].0 && es[i].1.slot == s
  }

  /** Every gate that is not an input is fed on both slots by earlier gates. */
  predicate FedBoth(es: seq<Entry>)
  {
    forall j {:trigger FedBefore(es, j, 1)} :: 0 <= j < |es| && es[j].1.kind != Inp ==> FedBefore(es, j, 1) && FedBefore(es, j, 2)
  }

  /** A circuit the evaluator can run in order. */
  predicate Wired(es: seq<Entry>)
  {
    Consecutive(es, 1) && InputsFirst(es) && Forward(es) && OutputLast(es) && FedOnce(es) && FedBoth(es)
  }

  /** Number of INP gates. */
  function CountInputs(es: seq<Entry>): (r: nat)
    ensures r <= |es|
  {
    if es == [] then 0 else CountInputs(es[..|es| - 1]) + (if es[|es| - 1].1.kind == Inp then 1 else 0)
  }

  // ---------------------------------------------------------------------
  // calc_gates in closed form

  lemma {:induction false} FirstInputsAt(pv: int, c: nat)
    ensures |FirstInputs(pv, c)| == c
    ensures forall j :: 0 <= j < c ==> FirstInputs(pv, c)[j] == (j + 1, Gate(Inp, pv + j + 1, 1))
  {
    if c > 0 {
      FirstInputsAt(pv, c - 1);
    }
  }

  lemma {:induction false} SecondInputsAt(n: int, pv: int, c: nat)
    ensures |SecondInputs(n, pv, c)| == c
    ensures forall j :: 0 <= j < c ==> SecondInputs(n, pv, c)[j] == (j + 1 + n, Gate(Inp, j + 1 + pv, 2))
  {
    if c > 0 {
      SecondInputsAt(n, pv, c - 1);
    }
  }

  lemma {:induction false} MulGatesAt(n: int, pv: int, c: nat)
    ensures |MulGates(n, pv, c)| == c
    ensures forall j :: 0 <= j < c ==> MulGates(n, pv, c)[j] == (j + 1 + pv, MulGate(n, pv, j + 1))
  {
    if c > 0 {
      MulGatesAt(n, pv, c - 1);
    }
  }

  lemma {:induction false} AddGatesAt(n: int, pv: int, c: nat)
    ensures |AddGates(n, pv, c)| == c
    ensures forall j :: 0 <= j < c ==> AddGates(n, pv, c)[j] == (j + pv + n, Gate(Add, j + 1 + pv + n, 1))
  {
    if c > 0 {
      AddGatesAt(n, pv, c - 1);
    }
  }

  /**
   * Gate k of the n-digit converter, where len(PRIVATE_VALUES) == 2n - 1:
   * digits 1..n, then powers of two n + 1..2n - 1, then the n - 1 products,
   * then the n - 1 additions.
   */
  function GateAt(n: int, k: int): Gate
  {
    var pv := 2 * n - 1;
    if k < n then Gate(Inp, pv + k, 1)
    else if k == n then (if n == 1 then Gate(Inp, 2, 1) else Gate(Inp, 4 * n - 3, 2))
    else if k <= pv then Gate(Inp, k - n + pv, 2)
    else if k < pv + n then MulGate(n, pv, k - pv)
    else Gate(Add, k + 1, 1)
  }

  /** The gates calc_gates() assigns for an n-digit INPUT, with len(PRIVATE_VALUES) == 2n - 1. */
  function Converter(n: nat): seq<Entry>
  {
    CalcGatesEntries(n, 2 * n - 1)
  }

  /** calc_gates() for n digits assigns gates 1..4n - 3 in order, gate k being GateAt(n, k). */
  lemma CalcGatesAt(n: int)
    requires n >= 1
    ensures |Converter(n)| == 4 * n - 3
    ensures forall j :: 0 <= j < 4 * n - 3 ==> Converter(n)[j] == (j + 1, GateAt(n, j + 1))
  {
    var pv := 2 * n - 1;
    var c := n - 1;
    var f, s, m, p := FirstInputs(pv, c), SecondInputs(n, pv, c), MulGates(n, pv, c), AddGates(n, pv, c);
    FirstInputsAt(pv, c);
    SecondInputsAt(n, pv, c);
    MulGatesAt(n, pv, c);
    AddGatesAt(n, pv, c);
    var e := Converter(n);
    assert e == f + [LastInput(n, pv)] + s + m + p;
    forall j | 0 <= j < 4 * n - 3
      ensures e[j] == (j + 1, GateAt(n, j + 1))
    {
      if j < n - 1 {
        assert e[j] == f[j];
      } else if j == n - 1 {
        assert e[j] == LastInput(n, pv);
      } else if j < 2 * n - 1 {
        assert e[j] == s[j - n];
      } else if j < 3 * n - 2 {
        assert e[j] == m[j - (2 * n - 1)];
      } else {
        assert e[j] == p[j - (3 * n - 2)];
      }
    }
  }

  /** The gate feeding slot s of gate d in the n-digit converter: the inverse of the wiring. */
  function SourceOf(n: int, d: int, s: int): int
  {
    var pv := 2 * n - 1;
    if n == 1 then 1
    else if d <= 3 * n - 2 then (if s == 1 then d - pv else d - pv + n)
    else if s == 1 then (if d == 3 * n - 1 then pv + 1 else d - 1)
    else if d == 4 * n - 3 then n
    else d - n + 2
  }

  /** Each gate feeds a later gate, on slot 1 or 2, and is the source of what it feeds. */
  lemma GateAtFeeds(n: int, k: int)
    requires n >= 1 && 1 <= k <= 4 * n - 3
    ensures k < GateAt(n, k).dest <= 4 * n - 2 && 1 <= GateAt(n, k).slot <= 2
    ensures GateAt(n, k).kind == Inp <==> k <= 2 * n - 1
    ensures SourceOf(n, GateAt(n, k).dest, GateAt(n, k).slot) == k
  {
  }

  /** Both slots of every product and addition gate are fed by the earlier gate SourceOf names. */
  lemma SourceFeeds(n: int, d: int, s: int)
    requires 2 * n <= d <= 4 * n - 3 && 1 <= s <= 2
    ensures 1 <= SourceOf(n, d, s) < d
    ensures GateAt(n, SourceOf(n, d, s)).dest == d && GateAt(n, SourceOf(n, d, s)).slot == s
  {
  }

  /** A count of INP gates when exactly the first m gates are INP. */
  lemma {:induction false} CountInputsPrefix(es: seq<Entry>, m: nat)
    requires m <= |es|
    requires forall j :: 0 <= j < |es| ==> (es[j].1.kind == Inp <==> j < m)
    ensures CountInputs(es) == m
    decreases |es|
  {
    if |es| > 0 {
      var init := es[..|es| - 1];
      if m == |es| {
        CountInputsPrefix(init, m - 1);
      } else {
        CountInputsPrefix(init, m);
      }
    }
  }

  lemma ConverterForward(n: int)
    requires n >= 1
    ensures Consecutive(Converter(n), 1) && Forward(Converter(n)) && InputsFirst(Converter(n))
    ensures OutputLast(Converter(n))
    ensures forall j :: 0 <= j < |Converter(n)| ==> (Converter(n)[j].1.kind == Inp <==> j < 2 * n - 1)
  {
    var e := Converter(n);
    CalcGatesAt(n);
    forall j | 0 <= j < |e|
      ensures j + 1 < e[j].1.dest <= |e| + 1 && 1 <= e[j].1.slot <= 2
      ensures e[j].1.kind == Inp <==> j < 2 * n - 1
    {
      GateAtFeeds(n, j + 1);
    }
  }

  lemma ConverterFedOnce(n: int)
    requires n >= 1
    ensures FedOnce(Converter(n))
  {
    var e := Converter(n);
    CalcGatesAt(n);
    forall i, j | 0 <= i < j < |e|
      ensures e[i].1.dest != e[j].1.dest || e[i].1.slot != e[j].1.slot
    {
      GateAtFeeds(n, i + 1);
      GateAtFeeds(n, j + 1);
    }
  }

  lemma ConverterFedBoth(n: int)
    requires n >= 1
    ensures FedBoth(Converter(n))
  {
    var e := Converter(n);
    CalcGatesAt(n);
    forall j | 0 <= j < |e| && e[j].1.kind != Inp
      ensures FedBefore(e, j, 1) && FedBefore(e, j, 2)
    {
      GateAtFeeds(n, j + 1);
      SourceFeeds(n, j + 1, 1);
      SourceFeeds(n, j + 1, 2);
      var i1, i2 := SourceOf(n, j + 1, 1) - 1, SourceOf(n, j + 1, 2) - 1;
      assert e[i1].1.dest == e[j].0 && e[i1].1.slot == 1;
      assert e[i2].1.dest == e[j].0 && e[i2].1.slot == 2;
    }
  }

  /**
   * The n-digit converter is wired for in-order evaluation, and its 2n - 1
   * INP gates are as many as there are private values.
   */
  lemma ConverterWired(n: int)
    requires n >= 1
    ensures Wired(Converter(n))
    ensures CountInputs(Converter(n)) == 2 * n - 1
  {
    ConverterForward(n);
    ConverterFedOnce(n);
    ConverterFedBoth(n);
    CountInputsPrefix(Converter(n), 2 * n - 1);
  }

  // ---------------------------------------------------------------------
  // The hand-written tables of lines 103-147

  /** GATES_1_DIGIT, lines 103-105. */
  const OneDigit: seq<Entry> := [(1, Gate(Inp, 2, 1))]

  /** GATES_3_DIGIT, lines 117-129. */
  const ThreeDigits: seq<Entry> := [
    (1, Gate(Inp, 6, 1)), (2, Gate(Inp, 7, 1)), (3, Gate(Inp, 9, 2)), (4, Gate(Inp, 6, 2)),
    (5, Gate(Inp, 7, 2)), (6, Gate(Mul, 8, 1)), (7, Gate(Mul, 8, 2)), (8, Gate(Add, 9, 1)),
    (9, Gate(Add, 10, 1))]

  /** GATES_4_DIGIT, lines 131-147. */
  const FourDigits: seq<Entry> := [
    (1, Gate(Inp, 8, 1)), (2, Gate(Inp, 9, 1)), (3, Gate(Inp, 10, 1)), (4, Gate(Inp, 13, 2)),
    (5, Gate(Inp, 8, 2)), (6, Gate(Inp, 9, 2)), (7, Gate(Inp, 10, 2)), (8, Gate(Mul, 11, 1)),
    (9, Gate(Mul, 11, 2)), (10, Gate(Mul, 12, 2)), (11, Gate(Add, 12, 1)), (12, Gate(Add, 13, 1)),
    (13, Gate(Add, 14, 1))]

  /** The dict calc_gates() fills for n digits, listed in iteration order, is Converter(n). */
  lemma ConverterItems(n: int)
    requires n >= 1
    ensures Valid(PutAll(Empty, Converter(n))) && Items(PutAll(Empty, Converter(n))) == Converter(n)
  {
    ConverterForward(n);
    PutAllFresh(Converter(n));
  }

  /** Converter(n) matches a table of 4n - 3 consecutive gates entry by entry. */
  lemma ConverterTable(n: int, table: seq<Entry>)
    requires n >= 1 && |table| == 4 * n - 3
    requires forall j :: 0 <= j < |table| ==> table[j] == (j + 1, GateAt(n, j + 1))
    ensures Valid(PutAll(Empty, Converter(n))) && Items(PutAll(Empty, Converter(n))) == table
  {
    CalcGatesAt(n);
    ConverterItems(n);
  }

  /** calc_gates() reproduces GATES_1_DIGIT. */
  lemma OneDigitTable()
    ensures Valid(PutAll(Empty, Converter(1))) && Items(PutAll(Empty, Converter(1))) == OneDigit
  {
    ConverterTable(1, OneDigit);
  }

  /** calc_gates() reproduces GATES_3_DIGIT. */
  lemma ThreeDigitTable()
    ensures Valid(PutAll(Empty, Converter(3))) && Items(PutAll(Empty, Converter(3))) == ThreeDigits
  {
    ConverterTable(3, ThreeDigits);
  }

  /** calc_gates() reproduces GATES_4_DIGIT. */
  lemma FourDigitTable()
    ensures Valid(PutAll(Empty, Converter(4))) && Items(PutAll(Empty, Converter(4))) == FourDigits
  {
    ConverterTable(4, FourDigits);
  }

  // ---------------------------------------------------------------------
  // tree

  lemma {:induction false} PairsAt(next: int, n: nat, kind: Kind, h: nat)
    requires 2 * h <= n + 1
    ensures |Pairs(next, n, kind, h)| == if 2 * h <= n then 2 * h else n
    ensures forall i :: 0 <= i < |Pairs(next, n, kind, h)| ==>
      Pairs(next, n, kind, h)[i] == (next + i, Gate(kind, next + n + i / 2, i % 2 + 1))
  {
    if h > 0 {
      PairsAt(next, n, kind, h - 1);
    }
  }

  /** Gate next + i of a level of n gates feeds slot i % 2 + 1 of gate next + n + i / 2. */
  lemma LevelAt(next: int, n: nat, kind: Kind)
    ensures |Level(next, n, kind)| == n
    ensures forall i :: 0 <= i < n ==> Level(next, n, kind)[i] == (next + i, Gate(kind, next + n + i / 2, i % 2 + 1))
  {
    PairsAt(next, n, kind, (n + 1) / 2);
  }

  /**
   * The gates of `tree(next, n)` for n a power of two: 2n - 1 consecutive
   * gates from `next`, the first n of the kind `next` selects and the rest
   * MUL, each feeding slot 1 or 2 of a later gate of the second level or
   * beyond, the last feeding slot 1 of gate next + 2n - 1, no slot fed twice
   * and both slots of every gate after the first level fed by earlier gates.
   */
  predicate TreeWired(es: seq<Entry>, next: int, n: int)
  {
    && |es| == 2 * n - 1
    && Consecutive(es, next)
    && (forall j :: 0 <= j < |es| ==>
          es[j].0 < es[j].1.dest <= next + |es| && next + n <= es[j].1.dest && 1 <= es[j].1.slot <= 2)
    && (forall j :: 0 <= j < |es| ==> es[j].1.kind == if j < n then LevelKind(next) else Mul)
    && es[|es| - 1].1.dest == next + |es| && es[|es| - 1].1.slot == 1
    && FedOnce(es)
    && (forall j :: n <= j < |es| ==> FedBefore(es, j, 1) && FedBefore(es, j, 2))
  }

  lemma TreeBase(next: int)
    requires next >= 1
    ensures TreeWired(TreeEntries(next, 1), next, 1)
  {
    LevelAt(next, 1, LevelKind(next));
    assert TreeEntries(next, 1) == Level(next, 1, LevelKind(next));
  }

  /** The forward, kind and output parts of TreeWired, one level at a time. */
  lemma TreeStepShape(next: int, n: nat, es: seq<Entry>, l: seq<Entry>, r: seq<Entry>)
    requires next >= 1 && n >= 2 && n % 2 == 0
    requires l == Level(next, n, LevelKind(next)) && es == l + r
    requires TreeWired(r, next + n, n / 2)
    ensures |es| == 2 * n - 1 && Consecutive(es, next)
    ensures forall j :: 0 <= j < |es| ==>
      es[j].0 < es[j].1.dest <= next + |es| && next + n <= es[j].1.dest && 1 <= es[j].1.slot <= 2
    ensures forall j :: 0 <= j < |es| ==> es[j].1.kind == if j < n then LevelKind(next) else Mul
    ensures es[|es| - 1].1.dest == next + |es| && es[|es| - 1].1.slot == 1
  {
    LevelAt(next, n, LevelKind(next));
    forall j | 0 <= j < |es|
      ensures es[j].0 == next + j
      ensures es[j].0 < es[j].1.dest <= next + |es| && next + n <= es[j].1.dest && 1 <= es[j].1.slot <= 2
      ensures es[j].1.kind == if j < n then LevelKind(next) else Mul
    {
      if j < n {
        assert es[j] == l[j];
      } else {
        assert es[j] == r[j - n];
      }
    }
    assert es[|es| - 1] == r[|r| - 1];
  }

  lemma TreeStepFedOnce(next: int, n: nat, es: seq<Entry>, l: seq<Entry>, r: seq<Entry>)
    requires next >= 1 && n >= 2 && n % 2 == 0
    requires l == Level(next, n, LevelKind(next)) && es == l + r
    requires TreeWired(r, next + n, n / 2)
    ensures FedOnce(es)
  {
    LevelAt(next, n, LevelKind(next));
    forall i, j | 0 <= i < j < |es|
      ensures es[i].1.dest != es[j].1.dest || es[i].1.slot != es[j].1.slot
    {
      if j < n {
        assert es[i] == l[i] && es[j] == l[j];
      } else if i < n {
        assert es[i] == l[i] && es[j] == r[j - n];
      } else {
        assert es[i] == r[i - n] && es[j] == r[j - n];
      }
    }
  }

  lemma TreeStepFedBoth(next: int, n: nat, es: seq<Entry>, l: seq<Entry>, r: seq<Entry>)
    requires next >= 1 && n >= 2 && n % 2 == 0
    requires l == Level(next, n, LevelKind(next)) && es == l + r
    requires TreeWired(r, next + n, n / 2)
    ensures forall j :: n <= j < |es| ==> FedBefore(es, j, 1) && FedBefore(es, j, 2)
  {
    LevelAt(next, n, LevelKind(next));
    forall j | n <= j < |es|
      ensures FedBefore(es, j, 1) && FedBefore(es, j, 2)
    {
      assert es[j] == r[j - n];
      if j < n + n / 2 {
        var h := j - n;
        assert es[2 * h] == l[2 * h] && es[2 * h + 1] == l[2 * h + 1];
      } else {
        assert FedBefore(r, j - n, 1) && FedBefore(r, j - n, 2);
        var i1 :| 0 <= i1 < j - n && r[i1].1.dest == r[j - n].0 && r[i1].1.slot == 1;
        var i2 :| 0 <= i2 < j - n && r[i2].1.dest == r[j - n].0 && r[i2].1.slot == 2;
        assert es[i1 + n] == r[i1] && es[i2 + n] == r[i2];
      }
    }
  }

  /** Adding a level of n gates in front of a TreeWired block of n / 2 gives a TreeWired block. */
  lemma TreeStep(next: int, n: nat, es: seq<Entry>, l: seq<Entry>, r: seq<Entry>)
    requires next >= 1 && n >= 2 && n % 2 == 0
    requires l == Level(next, n, LevelKind(next)) && es == l + r
    requires TreeWired(r, next + n, n / 2)
    ensures TreeWired(es, next, n)
  {
    TreeStepShape(next, n, es, l, r);
    TreeStepFedOnce(next, n, es, l, r);
    TreeStepFedBoth(next, n, es, l, r);
  }

  lemma {:induction false} PowTwoPositive(m: nat)
    ensures Pow(2, m) >= 1
  {
    if m > 0 {
      PowTwoPositive(m - 1);
    }
  }

  /** tree(next, 2^m) for next >= 1 generates a TreeWired block. */
  lemma {:induction false} TreeShape(next: int, m: nat)
    requires next >= 1
    ensures TreeWired(TreeEntries(next, Pow(2, m)), next, Pow(2, m))
    decreases m
  {
    if m == 0 {
      TreeBase(next);
    } else {
      var n := Pow(2, m);
      PowTwoPositive(m - 1);
      assert n == 2 * Pow(2, m - 1);
      TreeShape(next + n, m - 1);
      var l := Level(next, n, LevelKind(next));
      var r := TreeEntries(next + n, n / 2);
      var es := TreeEntries(next, n);
      assert es == l + r;
      TreeStep(next, n, es, l, r);
    }
  }

  /** A TreeWired block from gate 1 is a circuit wired for in-order evaluation with n inputs. */
  lemma TreeWiredCircuit(es: seq<Entry>, n: nat)
    requires n >= 1 && TreeWired(es, 1, n)
    ensures Wired(es) && CountInputs(es) == n
  {
    assert forall j :: 0 <= j < |es| ==> (es[j].1.kind == Inp <==> j < n);
    CountInputsPrefix(es, n);
  }

  /**
   * tree(1, 2^m) generates 2^(m+1) - 1 gates, the first 2^m of them INP and
   * the rest MUL, wired for in-order evaluation with the output wire at
   * gate 2^(m+1).
   */
  lemma TreeCircuit(m: nat)
    ensures |TreeEntries(1, Pow(2, m))| == 2 * Pow(2, m) - 1
    ensures Wired(TreeEntries(1, Pow(2, m)))
    ensures CountInputs(TreeEntries(1, Pow(2, m))) == Pow(2, m)
    ensures forall j :: 0 <= j < |TreeEntries(1, Pow(2, m))| ==>
      TreeEntries(1, Pow(2, m))[j].1.kind == if j < Pow(2, m) then Inp else Mul
  {
    PowTwoPositive(m);
    TreeShape(1, m);
    TreeWiredCircuit(TreeEntries(1, Pow(2, m)), Pow(2, m));
  }
}
