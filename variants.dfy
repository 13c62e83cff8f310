/**
 * The two variants of a party side by side: on a wired circuit with only
 * INP, ADD and MUL gates, `evaluate_gates` of party.py and step two of
 * party2_electric_boogaloo.py fill the same slots with the same values and
 * send the same messages, provided party.py's `recombination` yields its
 * exact value (no rounding) and both read their input shares from the
 * same network. Both return the share on the output wire: party.py's
 * output_gate_no is party2's OUTPUT_GATE.
 */
module Variants {
  import opened Field
  import opened Circuit
  import opened Wiring
  import opened Optional
  import Bgw
  import Legacy

  /** `recombination` computes its exact value on every list long enough for it. */
  ghost predicate Exact(recombine: (seq<int>, nat) -> int)
  {
    forall values: seq<int>, degree: nat :: degree + 2 <= |values| ==> recombine(values, degree) == Legacy.ExactRecombination(values, degree)
  }

  /** Both variants hold the share of every INP gate: party2 in its map, party.py in its list. */
  predicate SharesMatch(gates: seq<Entry>, mapped: map<int, int>, listed: seq<int>)
  {
    forall j :: 0 <= j < |gates| && gates[j].1.kind == Inp ==>
      0 <= gates[j].0 < |listed| && gates[j].0 in mapped && mapped[gates[j].0] == listed[gates[j].0]
  }

  /** Slot g.slot of gate g.dest holds the same value in party2's results and party.py's outputs. */
  predicate Holds(results: Bgw.Results, outputs: seq<Legacy.Row>, g: Gate)
  {
    && 0 <= g.dest < |outputs| && 0 <= g.slot < |outputs[g.dest]|
    && g.dest in results && g.slot in results[g.dest] && results[g.dest][g.slot] == Some(outputs[g.dest][g.slot])
  }

  /** After the first k gates: party2 has not raised, both sent the same, and every slot fed so far agrees. */
  predicate Agrees(gates: seq<Entry>, k: nat, ev: Bgw.Evaluation, st: Legacy.State)
    requires k <= |gates|
  {
    && !ev.raised && ev.sent == st.sent
    && forall i :: 0 <= i < k ==> Holds(ev.results, st.outputs, gates[i].1)
  }

  /** The gates of a wired circuit fit party.py's slot array when every INP key indexes the share list. */
  lemma WiredFits(gates: seq<Entry>, nShares: nat)
    requires Wired(gates) && CountInputs(gates) < nShares
    ensures Legacy.AllFit(gates, nShares)
  {
    Bgw.WiredInputs(gates);
    forall j | 0 <= j < |gates|
      ensures Legacy.Fits(gates[j], |gates| + 2, nShares)
    {
      assert gates[j].0 == j + 1;
    }
  }

  /**
   * The shares both variants receive: party2 keeps those of parties
   * 1..N_INPUTS in a map, party.py those of parties 1..N_PARTIES in a list.
   * On a wired circuit with no more inputs than parties they match.
   */
  lemma InputSharesMatch(gates: seq<Entry>, receive: (int, int) -> int, nParties: nat)
    requires Wired(gates) && CountInputs(gates) <= nParties
    ensures SharesMatch(gates, Bgw.InputShares(receive, CountInputs(gates)), Legacy.PaddedInputs(receive, nParties))
  {
    Bgw.WiredInputs(gates);
  }

  /**
   * In a wired circuit two gates' inputs agree once the gates before them
   * agree: the operands party2 finds are party.py's slots 1 and 2.
   */
  lemma OperandsAgree(gates: seq<Entry>, k: nat, ev: Bgw.Evaluation, st: Legacy.State)
    requires FedBoth(gates) && k < |gates| && gates[k].1.kind != Inp && Agrees(gates, k, ev, st)
    requires 0 <= gates[k].0 < |st.outputs| && |st.outputs[gates[k].0]| == 3
    ensures Bgw.Operands(ev.results, gates[k].0) == Some((st.outputs[gates[k].0][1], st.outputs[gates[k].0][2]))
  {
    var key := gates[k].0;
    assert FedBefore(gates, k, 1) && FedBefore(gates, k, 2);
    var i1 :| 0 <= i1 < k && gates[i1].1.dest == key && gates[i1].1.slot == 1;
    var i2 :| 0 <= i2 < k && gates[i2].1.dest == key && gates[i2].1.slot == 2;
    assert Holds(ev.results, st.outputs, gates[i1].1) && Holds(ev.results, st.outputs, gates[i2].1);
  }

  /**
   * The value gate e writes, the same in both variants: the input share,
   * the field sum of the operands, or the recombination of the shares
   * received for the gate.
   */
  function Written(e: Entry, a: int, b: int, share: int, receive: (int, int) -> int, nParties: nat): int
    requires 2 * DEGREE < nParties
  {
    match e.1.kind
    case Inp => share
    case Add => Field.Add(a, b)
    case Mul => Bgw.RecombineReceived(receive, nParties, e.0, 2 * DEGREE + 1)
    case Zer => 0
  }

  /** results' is results with slot g.slot of gate g.dest set to v, its destination created if missing. */
  predicate Wrote(results: Bgw.Results, results': Bgw.Results, g: Gate, v: int)
  {
    && g.dest in results' && g.slot in results'[g.dest] && results'[g.dest][g.slot] == Some(v)
    && (forall d :: d in results && d != g.dest ==> d in results' && results'[d] == results[d])
    && (g.dest in results ==> forall s :: s in results[g.dest] && s != g.slot ==> s in results'[g.dest] && results'[g.dest][s] == results[g.dest][s])
  }

  /** outputs' is outputs with outputs[g.dest][g.slot] set to v. */
  predicate Put(outputs: seq<Legacy.Row>, outputs': seq<Legacy.Row>, g: Gate, v: int)
  {
    && |outputs'| == |outputs| && (forall j :: 0 <= j < |outputs| ==> |outputs'[j]| == |outputs[j]|)
    && 0 <= g.dest < |outputs| && 0 <= g.slot < |outputs[g.dest]| && outputs'[g.dest][g.slot] == v
    && forall j, t :: 0 <= j < |outputs| && 0 <= t < |outputs[j]| && (j != g.dest || t != g.slot) ==> outputs'[j][t] == outputs[j][t]
  }

  /** The messages gate e sends: the re-sharing of mul(a, b) for a MUL gate, nothing otherwise. */
  function Sends(e: Entry, a: int, b: int, nParties: nat, coins: int -> seq<int>): seq<Bgw.Send>
  {
    if e.1.kind == Mul then Bgw.Broadcast([Field.Mul(a, b)] + coins(e.0), e.0, nParties) else []
  }

  /** party2's step on a gate whose operands are a and b writes Written and sends Sends. */
  lemma StepWrites(ev: Bgw.Evaluation, e: Entry, shares: map<int, int>, nParties: nat, receive: (int, int) -> int,
                   coins: int -> seq<int>, a: int, b: int, share: int)
    requires 2 * DEGREE < nParties && !ev.raised && e.1.kind != Zer && e.0 != e.1.dest
    requires e.1.kind == Inp ==> e.0 in shares && shares[e.0] == share
    requires e.1.kind != Inp ==> Bgw.Operands(ev.results, e.0) == Some((a, b))
    ensures !Bgw.Step(ev, e, shares, nParties, receive, coins).raised
    ensures Wrote(ev.results, Bgw.Step(ev, e, shares, nParties, receive, coins).results, e.1, Written(e, a, b, share, receive, nParties))
    ensures Bgw.Step(ev, e, shares, nParties, receive, coins).sent == ev.sent + Sends(e, a, b, nParties, coins)
  {
    var g := e.1;
    var prepared := if g.dest in ev.results then ev.results else ev.results[g.dest := map[1 := None, 2 := None]];
    assert Bgw.Operands(prepared, e.0) == Bgw.Operands(ev.results, e.0);
  }

  /** party.py's step on a gate whose operands are a and b writes Written and sends Sends, when recombination is exact. */
  lemma GateStepWrites(st: Legacy.State, e: Entry, shares: seq<int>, nParties: nat, receive: (int, int) -> int,
                       recombine: (seq<int>, nat) -> int, coins: int -> seq<int>, a: int, b: int, share: int)
    requires Legacy.Rectangular(st.outputs) && Legacy.Fits(e, |st.outputs|, |shares|) && e.1.kind != Zer
    requires 2 * DEGREE < nParties < PRIME && Exact(recombine)
    requires e.1.kind == Inp ==> share == shares[e.0]
    requires e.1.kind != Inp ==> a == st.outputs[e.0][1] && b == st.outputs[e.0][2]
    ensures Put(st.outputs, Legacy.GateStep(st, e, shares, nParties, DEGREE, receive, recombine, coins).outputs, e.1,
                Written(e, a, b, share, receive, nParties))
    ensures Legacy.GateStep(st, e, shares, nParties, DEGREE, receive, recombine, coins).sent == st.sent + Sends(e, a, b, nParties, coins)
  {
    var next := Legacy.GateStep(st, e, shares, nParties, DEGREE, receive, recombine, coins);
    GateStepPut(st, e, shares, nParties, receive, recombine, coins);
    if e.1.kind == Mul {
      Legacy.ExactIsReceived(Legacy.Padded(receive, nParties, e.0), 2 * DEGREE, receive, nParties, e.0);
    }
    assert next.outputs[e.1.dest][e.1.slot] == Written(e, a, b, share, receive, nParties);
  }

  /** party.py's step on a gate other than ZER sets one slot. */
  lemma GateStepPut(st: Legacy.State, e: Entry, shares: seq<int>, nParties: nat, receive: (int, int) -> int,
                    recombine: (seq<int>, nat) -> int, coins: int -> seq<int>)
    requires Legacy.Rectangular(st.outputs) && Legacy.Fits(e, |st.outputs|, |shares|) && e.1.kind != Zer
    ensures var next := Legacy.GateStep(st, e, shares, nParties, DEGREE, receive, recombine, coins);
            Put(st.outputs, next.outputs, e.1, next.outputs[e.1.dest][e.1.slot])
  {
  }

  /**
   * Gate k of a circuit that feeds no slot twice: when both variants write
   * the same value to its slot, and send the same, agreement extends to it.
   */
  lemma AgreeNext(gates: seq<Entry>, k: nat, ev: Bgw.Evaluation, st: Legacy.State, ev': Bgw.Evaluation, st': Legacy.State, v: int)
    requires FedOnce(gates) && k < |gates| && Agrees(gates, k, ev, st)
    requires !ev'.raised && ev'.sent == st'.sent
    requires Wrote(ev.results, ev'.results, gates[k].1, v) && Put(st.outputs, st'.outputs, gates[k].1, v)
    ensures Agrees(gates, k + 1, ev', st')
  {
    forall i | 0 <= i < k + 1
      ensures Holds(ev'.results, st'.outputs, gates[i].1)
    {
      if i < k {
        assert Holds(ev.results, st.outputs, gates[i].1);
      }
    }
  }

  /** party2 on gate k of a wired circuit, given its operands: it writes Written and sends Sends. */
  lemma RunWrites(gates: seq<Entry>, k: nat, mapped: map<int, int>, nParties: nat, receive: (int, int) -> int,
                  coins: int -> seq<int>, a: int, b: int, share: int)
    requires Forward(gates) && Bgw.KnownKinds(gates) && k < |gates| && 2 * DEGREE < nParties
    requires !Bgw.Run(gates, k, mapped, nParties, receive, coins).raised
    requires gates[k].1.kind == Inp ==> gates[k].0 in mapped && mapped[gates[k].0] == share
    requires gates[k].1.kind != Inp ==> Bgw.Operands(Bgw.Run(gates, k, mapped, nParties, receive, coins).results, gates[k].0) == Some((a, b))
    ensures !Bgw.Run(gates, k + 1, mapped, nParties, receive, coins).raised
    ensures Wrote(Bgw.Run(gates, k, mapped, nParties, receive, coins).results, Bgw.Run(gates, k + 1, mapped, nParties, receive, coins).results,
                  gates[k].1, Written(gates[k], a, b, share, receive, nParties))
    ensures Bgw.Run(gates, k + 1, mapped, nParties, receive, coins).sent
            == Bgw.Run(gates, k, mapped, nParties, receive, coins).sent + Sends(gates[k], a, b, nParties, coins)
  {
    Bgw.RunStep(gates, k + 1, mapped, nParties, receive, coins);
    StepWrites(Bgw.Run(gates, k, mapped, nParties, receive, coins), gates[k], mapped, nParties, receive, coins, a, b, share);
  }

  /** party.py on gate k of a circuit, given its operands: it writes Written and sends Sends. */
  lemma EvaluateWrites(gates: seq<Entry>, k: nat, listed: seq<int>, nParties: nat, receive: (int, int) -> int,
                       recombine: (seq<int>, nat) -> int, coins: int -> seq<int>, a: int, b: int, share: int)
    requires Legacy.AllFit(gates, |listed|) && Bgw.KnownKinds(gates) && k < |gates| && 2 * DEGREE < nParties < PRIME && Exact(recombine)
    requires gates[k].1.kind == Inp ==> share == listed[gates[k].0]
    requires gates[k].1.kind != Inp ==> var st := Legacy.Evaluate(gates, k, listed, nParties, DEGREE, receive, recombine, coins);
                                        a == st.outputs[gates[k].0][1] && b == st.outputs[gates[k].0][2]
    ensures Put(Legacy.Evaluate(gates, k, listed, nParties, DEGREE, receive, recombine, coins).outputs,
                Legacy.Evaluate(gates, k + 1, listed, nParties, DEGREE, receive, recombine, coins).outputs,
                gates[k].1, Written(gates[k], a, b, share, receive, nParties))
    ensures Legacy.Evaluate(gates, k + 1, listed, nParties, DEGREE, receive, recombine, coins).sent
            == Legacy.Evaluate(gates, k, listed, nParties, DEGREE, receive, recombine, coins).sent + Sends(gates[k], a, b, nParties, coins)
  {
    assert Legacy.Fits(gates[k], |gates| + 2, |listed|);
    GateStepWrites(Legacy.Evaluate(gates, k, listed, nParties, DEGREE, receive, recombine, coins), gates[k], listed, nParties,
                   receive, recombine, coins, a, b, share);
  }

  /** One gate of a wired circuit keeps the two variants in agreement. */
  lemma AgreeStep(gates: seq<Entry>, k: nat, mapped: map<int, int>, listed: seq<int>, nParties: nat, receive: (int, int) -> int,
                  recombine: (seq<int>, nat) -> int, coins: int -> seq<int>)
    requires Wired(gates) && Bgw.KnownKinds(gates) && k < |gates| && 2 * DEGREE < nParties < PRIME
    requires Legacy.AllFit(gates, |listed|) && SharesMatch(gates, mapped, listed) && Exact(recombine)
    requires Agrees(gates, k, Bgw.Run(gates, k, mapped, nParties, receive, coins),
                    Legacy.Evaluate(gates, k, listed, nParties, DEGREE, receive, recombine, coins))
    ensures Agrees(gates, k + 1, Bgw.Run(gates, k + 1, mapped, nParties, receive, coins),
                   Legacy.Evaluate(gates, k + 1, listed, nParties, DEGREE, receive, recombine, coins))
  {
    var ev := Bgw.Run(gates, k, mapped, nParties, receive, coins);
    var st := Legacy.Evaluate(gates, k, listed, nParties, DEGREE, receive, recombine, coins);
    var e := gates[k];
    assert Legacy.Fits(e, |gates| + 2, |listed|);
    var a, b, share := 0, 0, 0;
    if e.1.kind == Inp {
      share := listed[e.0];
    } else {
      a, b := st.outputs[e.0][1], st.outputs[e.0][2];
      OperandsAgree(gates, k, ev, st);
    }
    RunWrites(gates, k, mapped, nParties, receive, coins, a, b, share);
    EvaluateWrites(gates, k, listed, nParties, receive, recombine, coins, a, b, share);
    AgreeNext(gates, k, ev, st, Bgw.Run(gates, k + 1, mapped, nParties, receive, coins),
              Legacy.Evaluate(gates, k + 1, listed, nParties, DEGREE, receive, recombine, coins), Written(e, a, b, share, receive, nParties));
  }

  /** party2 and party.py start in agreement: nothing raised, nothing sent, no slot fed. */
  lemma AgreeStart(gates: seq<Entry>, mapped: map<int, int>, listed: seq<int>, nParties: nat, receive: (int, int) -> int,
                   recombine: (seq<int>, nat) -> int, coins: int -> seq<int>)
    requires 2 * DEGREE < nParties && Legacy.AllFit(gates, |listed|)
    ensures Agrees(gates, 0, Bgw.Run(gates, 0, mapped, nParties, receive, coins),
                   Legacy.Evaluate(gates, 0, listed, nParties, DEGREE, receive, recombine, coins))
  {
  }

  /** Every prefix of a wired circuit leaves the two variants in agreement. */
  lemma {:induction false} RunAgrees(gates: seq<Entry>, k: nat, mapped: map<int, int>, listed: seq<int>, nParties: nat,
                                     receive: (int, int) -> int, recombine: (seq<int>, nat) -> int, coins: int -> seq<int>)
    requires Wired(gates) && Bgw.KnownKinds(gates) && k <= |gates| && 2 * DEGREE < nParties < PRIME
    requires Legacy.AllFit(gates, |listed|) && SharesMatch(gates, mapped, listed) && Exact(recombine)
    ensures Agrees(gates, k, Bgw.Run(gates, k, mapped, nParties, receive, coins),
                   Legacy.Evaluate(gates, k, listed, nParties, DEGREE, receive, recombine, coins))
  {
    if k == 0 {
      AgreeStart(gates, mapped, listed, nParties, receive, recombine, coins);
    } else {
      RunAgrees(gates, k - 1, mapped, listed, nParties, receive, recombine, coins);
      AgreeStep(gates, k - 1, mapped, listed, nParties, receive, recombine, coins);
    }
  }

  /**
   * The two variants agree on a wired circuit: party2's step two returns
   * the share party.py's evaluate_gates returns, both send the same
   * re-sharing messages, and party.py's output_gate_no is OUTPUT_GATE.
   */
  lemma VariantsAgree(gates: seq<Entry>, nParties: nat, receive: (int, int) -> int, recombine: (seq<int>, nat) -> int,
                      coins: int -> seq<int>)
    requires Wired(gates) && Bgw.KnownKinds(gates) && CountInputs(gates) <= nParties
    requires 2 * DEGREE < nParties < PRIME && Exact(recombine)
    ensures Legacy.AllFit(gates, nParties + 1)
    ensures gates[|gates| - 1].1.dest == |gates| + 1
    ensures var ev := Bgw.Run(gates, |gates|, Bgw.InputShares(receive, CountInputs(gates)), nParties, receive, coins);
            var st := Legacy.Evaluate(gates, |gates|, Legacy.PaddedInputs(receive, nParties), nParties, DEGREE, receive, recombine, coins);
            && Bgw.Finish(ev, |gates| + 1) == Bgw.Returned(Some(st.outputs[|gates| + 1][1]))
            && ev.sent == st.sent
  {
    var mapped, listed := Bgw.InputShares(receive, CountInputs(gates)), Legacy.PaddedInputs(receive, nParties);
    WiredFits(gates, nParties + 1);
    InputSharesMatch(gates, receive, nParties);
    RunAgrees(gates, |gates|, mapped, listed, nParties, receive, recombine, coins);
    var last := gates[|gates| - 1].1;
    assert last.dest == |gates| + 1 && last.slot == 1;
    assert Holds(Bgw.Run(gates, |gates|, mapped, nParties, receive, coins).results,
                 Legacy.Evaluate(gates, |gates|, listed, nParties, DEGREE, receive, recombine, coins).outputs, last);
  }
}
