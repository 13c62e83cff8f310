/**
 * party.py: the older variant of one party's side of the BGW protocol.
 * It shares its private value with `get_poly_value`, receives one input
 * share per party into a list padded at index 0, evaluates GATES on an
 * array of zeroed slot triples (`evaluate_gates`), re-sharing at every
 * MUL gate (`split_share`, `multiply`), and broadcasts and recombines the
 * output shares.
 *
 * Its `recombination` divides with floating point; it is taken as a
 * fixed function `recombine(values, degree)` of the padded list and the
 * degree, and ExactRecombination is what it computes without rounding.
 * N_PARTIES, DEGREE and GATES come from a configuration module
 * that is not part of this model: they are the party's constants. The
 * network is abstract as for party2: a log of sent messages and a fixed
 * function `receive(p, tag)`. The random draws are parameters.
 */
module Legacy {
  import opened Field
  import opened Combinatorics
  import opened Shamir
  import opened Circuit
  import Bgw
  import opened Optional

  /** A row of `outputs`: slots 0, 1 and 2 of one gate. */
  type Row = seq<int>

  /** The triple [0, 0, 0] that `evaluate_gates` allocates per gate. */
  const ZeroRow: Row := [0, 0, 0]

  /** The slot array after its first loop: n zeroed triples. */
  function Zeroed(n: nat): (r: seq<Row>)
    ensures |r| == n
    ensures forall j :: 0 <= j < n ==> r[j] == ZeroRow
  {
    if n == 0 then [] else Zeroed(n - 1) + [ZeroRow]
  }

  /** Every row has three slots. */
  predicate Rectangular(outputs: seq<Row>)
  {
    forall j :: 0 <= j < |outputs| ==> |outputs[j]| == 3
  }

  /** The list [0, receive(1, tag), ..., receive(n, tag)]: padding at index 0. */
  function Padded(receive: (int, int) -> int, n: nat, tag: int): (r: seq<int>)
    ensures |r| == n + 1 && r[0] == 0
    ensures forall p :: 1 <= p <= n ==> r[p] == receive(p, tag)
  {
    if n == 0 then [0] else Padded(receive, n - 1, tag) + [receive(n, tag)]
  }

  /** The list [0, receive(1, 1), ..., receive(n, n)]: each party's input share, padded at index 0. */
  function PaddedInputs(receive: (int, int) -> int, n: nat): (r: seq<int>)
    ensures |r| == n + 1 && r[0] == 0
    ensures forall p :: 1 <= p <= n ==> r[p] == receive(p, p)
  {
    if n == 0 then [0] else PaddedInputs(receive, n - 1) + [receive(n, n)]
  }

  /** degree values of random.randint(0, PRIME - 1). */
  predicate Draws(draws: seq<int>, degree: nat)
  {
    |draws| == degree && forall i :: 0 <= i < |draws| ==> 0 <= draws[i] < PRIME
  }

  /**
   * Gate e can run on a slot array of the given width and a share list of
   * nShares entries: its indices are in range, and it writes to a row
   * other than the padding. A ZER gate touches nothing.
   */
  predicate Fits(e: Entry, width: nat, nShares: nat)
  {
    var key, g := e.0, e.1;
    g.kind != Zer ==>
      && 1 <= g.dest < width && 0 <= g.slot < 3
      && (if g.kind == Inp then 0 <= key < nShares else 1 <= key < width)
  }

  /** Every gate of GATES fits the slot array of len(GATES) + 2 rows. */
  predicate AllFit(gates: seq<Entry>, nShares: nat)
  {
    forall j :: 0 <= j < |gates| ==> Fits(gates[j], |gates| + 2, nShares)
  }

  /** outputs[d][s] = v */
  function Put(outputs: seq<Row>, d: int, s: int, v: int): (r: seq<Row>)
    requires 0 <= d < |outputs| && 0 <= s < |outputs[d]|
    ensures |r| == |outputs| && forall j :: 0 <= j < |r| ==> |r[j]| == |outputs[j]|
    ensures r[d][s] == v
    ensures forall j, t :: 0 <= j < |r| && 0 <= t < |r[j]| && (j != d || t != s) ==> r[j][t] == outputs[j][t]
  {
    outputs[d := outputs[d][s := v]]
  }

  /**
   * outputs[o][1] as evaluate_gates reads it: a negative o counts from the
   * end; an o out of range raises IndexError; and row 0 is the integer 0
   * there, so reading its slot 1 raises TypeError. None stands for either
   * exception.
   */
  function OutputSlot(outputs: seq<Row>, o: int): (r: Option<int>)
    requires Rectangular(outputs)
    ensures r.Some? <==> -|outputs| < o < |outputs| && o != 0
    ensures 0 < o < |outputs| ==> r == Some(outputs[o][1])
    ensures -|outputs| < o < 0 ==> r == Some(outputs[o + |outputs|][1])
  {
    if o < -|outputs| || |outputs| <= o then None
    else
      var j := if o < 0 then o + |outputs| else o;
      if j == 0 then None else Some(outputs[j][1])
  }

  /** The state of `evaluate_gates` after some gates: the slot array and what was sent. */
  datatype State = State(outputs: seq<Row>, sent: seq<Bgw.Send>)

  /**
   * One iteration of evaluate_gates' loop. ZER does nothing; INP copies
   * shares[key]; ADD adds slots 1 and 2 of row key; MUL re-shares their
   * product with the coefficients [mul(a, b)] + coins(key), tagged key,
   * and stores the recombination of the shares received for key.
   */
  function GateStep(st: State, e: Entry, shares: seq<int>, nParties: nat, degree: nat, receive: (int, int) -> int,
                    recombine: (seq<int>, nat) -> int, coins: int -> seq<int>): (r: State)
    requires Rectangular(st.outputs) && Fits(e, |st.outputs|, |shares|)
    ensures |r.outputs| == |st.outputs| && Rectangular(r.outputs)
    ensures forall j, t :: 0 <= j < |r.outputs| && 0 <= t < 3 && (e.1.kind == Zer || j != e.1.dest || t != e.1.slot) ==>
              r.outputs[j][t] == st.outputs[j][t]
    ensures e.1.kind == Inp ==> r.outputs[e.1.dest][e.1.slot] == shares[e.0]
    ensures e.1.kind == Add ==> r.outputs[e.1.dest][e.1.slot] == Field.Add(st.outputs[e.0][1], st.outputs[e.0][2])
    ensures e.1.kind != Mul ==> r.sent == st.sent
  {
    var key, g := e.0, e.1;
    match g.kind
    case Zer => st
    case Inp => State(Put(st.outputs, g.dest, g.slot, shares[key]), st.sent)
    case Add => State(Put(st.outputs, g.dest, g.slot, Field.Add(st.outputs[key][1], st.outputs[key][2])), st.sent)
    case Mul =>
      var a, b := st.outputs[key][1], st.outputs[key][2];
      var sends := Bgw.Broadcast([Field.Mul(a, b)] + coins(key), key, nParties);
      State(Put(st.outputs, g.dest, g.slot, recombine(Padded(receive, nParties, key), 2 * degree)), st.sent + sends)
  }

  /** evaluate_gates after the first k gates of GATES. */
  function Evaluate(gates: seq<Entry>, k: nat, shares: seq<int>, nParties: nat, degree: nat, receive: (int, int) -> int,
                    recombine: (seq<int>, nat) -> int, coins: int -> seq<int>): (r: State)
    requires k <= |gates| && AllFit(gates, |shares|)
    ensures |r.outputs| == |gates| + 2 && Rectangular(r.outputs)
  {
    if k == 0 then State(Zeroed(|gates| + 2), [])
    else GateStep(Evaluate(gates, k - 1, shares, nParties, degree, receive, recombine, coins), gates[k - 1],
                  shares, nParties, degree, receive, recombine, coins)
  }

  // ---------------------------------------------------------------------
  // recombination in exact arithmetic

  /**
   * The summand values[i] * deltas[i] of `recombination` for m = degree + 1
   * points, with deltas[i] = prod of j / (j - i) over j in 1..m, j != i,
   * at its exact value (-1)^(i-1) * C(m, i).
   */
  function ExactTerm(values: seq<int>, m: nat): int -> int
  {
    i => if 0 <= i < |values| then values[i] * Lambda(m, i) else 0
  }

  /**
   * `recombination(values, degree)` computed without rounding: the sum of
   * values[i] * deltas[i] over i in 1..degree + 1, modulo PRIME.
   */
  function ExactRecombination(values: seq<int>, degree: nat): (r: int)
    requires degree + 2 <= |values|
    ensures 0 <= r < PRIME
  {
    Sum(ExactTerm(values, degree + 1), 1, degree + 2) % PRIME
  }

  /** Recombination reads only values[1..degree + 1]: lists that agree there recombine alike. */
  lemma ExactReadsPrefix(v: seq<int>, w: seq<int>, degree: nat)
    requires degree + 2 <= |v| && degree + 2 <= |w|
    requires forall i :: 1 <= i <= degree + 1 ==> v[i] == w[i]
    ensures ExactRecombination(v, degree) == ExactRecombination(w, degree)
  {
    SumExt(ExactTerm(v, degree + 1), ExactTerm(w, degree + 1), 1, degree + 2);
  }

  /**
   * A vector whose entries are congruent to the exact deltas recombines a
   * share map holding values[i] for i in 1..degree + 1 to the exact value.
   */
  lemma ExactIsVector(values: seq<int>, degree: nat, got: map<int, int>, vec: map<int, int>)
    requires degree + 2 <= |values| && |vec| == degree + 1
    requires forall i :: 1 <= i <= degree + 1 ==> i in got && got[i] == values[i]
    requires forall i :: 1 <= i <= degree + 1 ==> i in vec && vec[i] % PRIME == Lambda(degree + 1, i) % PRIME
    ensures Recombine(got, vec) == ExactRecombination(values, degree)
  {
    var m := degree + 1;
    var f, g := RecombineTerm(got, vec), ExactTerm(values, m);
    forall i | 1 <= i < m + 1
      ensures f(i) % PRIME == g(i) % PRIME
    {
      MulModBoth(got[i], vec[i], values[i], Lambda(m, i));
    }
    SumMod(f, g, 1, m + 1);
  }

  /**
   * Recombining with degree d in exact arithmetic is what party2 computes
   * from the same shares: when values[1..d + 1] are the shares received
   * for tag, the result is the recombination of the shares received for
   * tag with calc_recombination_vector(d + 1).
   */
  lemma ExactIsReceived(values: seq<int>, degree: nat, receive: (int, int) -> int, n: nat, tag: int)
    requires degree + 2 <= |values| && degree + 1 <= n && n < PRIME
    requires forall i :: 1 <= i <= degree + 1 ==> values[i] == receive(i, tag)
    ensures Bgw.RecombineReceived(receive, n, tag, degree + 1) == ExactRecombination(values, degree)
  {
    VectorIsLambda(degree + 1);
    ExactIsVector(values, degree, Bgw.Received(receive, n, tag), RecombinationVector(degree + 1));
  }

  /** Every entry of calc_recombination_vector(size) is congruent to its exact delta. */
  lemma VectorIsLambda(size: nat)
    requires size < PRIME
    ensures |RecombinationVector(size)| == size
    ensures forall i :: 1 <= i <= size ==>
              i in RecombinationVector(size) && RecombinationVector(size)[i] % PRIME == Lambda(size, i) % PRIME
  {
    VectorSize(size);
    forall i | 1 <= i <= size
      ensures RecombinationVector(size)[i] % PRIME == Lambda(size, i) % PRIME
    {
      EntryIsLambda(size, i);
    }
  }

  /**
   * Recombination with degree d recovers a secret: when values[1..d + 1]
   * are the shares of a polynomial with at most d + 1 coefficients, the
   * result is its constant term modulo PRIME.
   */
  lemma ExactRecombines(coeff: seq<int>, values: seq<int>, degree: nat)
    requires 1 <= |coeff| <= degree + 1 && degree + 2 <= |values|
    requires forall i :: 1 <= i <= degree + 1 ==> values[i] == CalcPoly(i, coeff)
    ensures ExactRecombination(values, degree) == coeff[0] % PRIME
  {
    var m := degree + 1;
    var f, g := ExactTerm(values, m), LagrangeTerm(coeff, m);
    forall i | 1 <= i < m + 1
      ensures f(i) % PRIME == g(i) % PRIME
    {
      MulModBoth(values[i], Lambda(m, i), PolyValue(coeff, i), Lambda(m, i));
    }
    SumMod(f, g, 1, m + 1);
    LagrangeExact(coeff, m);
  }

  // ---------------------------------------------------------------------
  // The party's loops

  /** get_poly_value: sum of coefficients[i] * x ** i, reduced modulo PRIME; it is calc_poly of party2. */
  method GetPolyValue(coefficients: seq<int>, x: int) returns (r: int)
    ensures r == CalcPoly(x, coefficients)
    ensures 0 <= r < PRIME
  {
    var output := 0;
    var i := 0;
    while i < |coefficients|
      invariant 0 <= i <= |coefficients|
      invariant output == PolyValue(coefficients[..i], x)
    {
      assert coefficients[..i + 1][..i] == coefficients[..i];
      output := output + coefficients[i] * Pow(x, i);
      i := i + 1;
    }
    assert coefficients[..i] == coefficients;
    r := output % PRIME;
  }

  /**
   * [secret] followed by DEGREE draws of random.randint(0, PRIME - 1):
   * the coefficients of a sharing polynomial whose constant term is the
   * secret.
   */
  method Coefficients(secret: int, degree: nat, draws: seq<int>) returns (c: seq<int>)
    requires Draws(draws, degree)
    ensures c == [secret] + draws
    ensures |c| == degree + 1 && c[0] == secret
    ensures forall i :: 1 <= i < |c| ==> 0 <= c[i] < PRIME
  {
    c := [secret];
    var i := 0;
    while i < degree
      invariant 0 <= i <= degree
      invariant c == [secret] + draws[..i]
    {
      c := c + [draws[i]];
      i := i + 1;
    }
    assert draws[..i] == draws;
  }

  class LegacyParty {
    /** PARTY_NO */
    const partyNo: int
    /** N_PARTIES: the parties are 1..nParties. */
    const nParties: nat
    /** DEGREE */
    const degree: nat
    /** GATES.items(), in insertion order. */
    const gates: seq<Entry>
    /** network.receive_share(src_party, src_gate) */
    const receive: (int, int) -> int
    /** recombination(values, degree), taken as given. */
    const recombine: (seq<int>, nat) -> int
    /** What network.send_share has sent, in order: (destination, tag, share). */
    var sent: seq<Bgw.Send>

    constructor (partyNo: int, nParties: nat, degree: nat, gates: seq<Entry>, receive: (int, int) -> int,
                 recombine: (seq<int>, nat) -> int)
      ensures this.partyNo == partyNo && this.nParties == nParties && this.degree == degree
      ensures this.gates == gates && this.receive == receive && this.recombine == recombine
      ensures sent == []
    {
      this.partyNo := partyNo;
      this.nParties := nParties;
      this.degree := degree;
      this.gates := gates;
      this.receive := receive;
      this.recombine := recombine;
      sent := [];
    }

    /** Send get_poly_value(coefficients, d) to each party d = 1..N_PARTIES, tagged tag. */
    method ShareOut(coefficients: seq<int>, tag: int)
      modifies this`sent
      ensures sent == old(sent) + Bgw.Broadcast(coefficients, tag, nParties)
    {
      var dest := 1;
      while dest <= nParties
        invariant 1 <= dest <= nParties + 1
        invariant sent == old(sent) + Bgw.Broadcast(coefficients, tag, dest - 1)
      {
        var share := GetPolyValue(coefficients, dest);
        sent := sent + [(dest, tag, share)];
        dest := dest + 1;
      }
    }

    /** Send value to each party d = 1..N_PARTIES, tagged tag. */
    method Announce(value: int, tag: int)
      modifies this`sent
      ensures sent == old(sent) + Bgw.Announce(value, tag, nParties)
    {
      var dest := 1;
      while dest <= nParties
        invariant 1 <= dest <= nParties + 1
        invariant sent == old(sent) + Bgw.Announce(value, tag, dest - 1)
      {
        sent := sent + [(dest, tag, value)];
        dest := dest + 1;
      }
    }

    /** [0] followed by receive_share(p, tag) for p = 1..N_PARTIES. */
    method ReceiveAll(tag: int) returns (values: seq<int>)
      ensures values == Padded(receive, nParties, tag)
      ensures |values| == nParties + 1 && values[0] == 0
    {
      values := [0];
      var p := 1;
      while p <= nParties
        invariant 1 <= p <= nParties + 1
        invariant values == Padded(receive, p - 1, tag)
      {
        values := values + [receive(p, tag)];
        p := p + 1;
      }
    }

    /** [0] followed by receive_share(p, p) for p = 1..N_PARTIES: the input shares. */
    method ReceiveInputs() returns (shares: seq<int>)
      ensures shares == PaddedInputs(receive, nParties)
      ensures |shares| == nParties + 1 && shares[0] == 0
    {
      shares := [0];
      var p := 1;
      while p <= nParties
        invariant 1 <= p <= nParties + 1
        invariant shares == PaddedInputs(receive, p - 1)
      {
        shares := shares + [receive(p, p)];
        p := p + 1;
      }
    }

    /** split_share: share multSecret with DEGREE random coefficients, tagged srcGate. */
    method SplitShare(multSecret: int, srcGate: int, draws: seq<int>)
      requires Draws(draws, degree)
      modifies this`sent
      ensures sent == old(sent) + Bgw.Broadcast([multSecret] + draws, srcGate, nParties)
    {
      var coefficients := Coefficients(multSecret, degree, draws);
      ShareOut(coefficients, srcGate);
    }

    /**
     * multiply: re-share mul(valueOne, valueTwo) tagged srcGate, receive
     * the shares tagged srcGate from every party, and recombine them with
     * degree 2 * DEGREE.
     */
    method Multiply(valueOne: int, valueTwo: int, srcGate: int, draws: seq<int>) returns (r: int)
      requires Draws(draws, degree)
      modifies this`sent
      ensures sent == old(sent) + Bgw.Broadcast([Field.Mul(valueOne, valueTwo)] + draws, srcGate, nParties)
      ensures r == recombine(Padded(receive, nParties, srcGate), 2 * degree)
    {
      SplitShare(Field.Mul(valueOne, valueTwo), srcGate, draws);
      var shares := ReceiveAll(srcGate);
      r := recombine(shares, degree * 2);
    }

    /** The first loop of evaluate_gates: [0, 0, 0] for the padding and for each of len(GATES) + 1 rows. */
    method AllocateOutputs() returns (outputs: seq<Row>)
      ensures outputs == Zeroed(|gates| + 2)
    {
      outputs := [ZeroRow];
      var i := 0;
      while i < |gates| + 1
        invariant 0 <= i <= |gates| + 1
        invariant outputs == Zeroed(i + 1)
      {
        outputs := outputs + [ZeroRow];
        i := i + 1;
      }
    }

    /** One iteration of evaluate_gates' second loop: gate i of GATES, as GateStep describes. */
    method EvalGate(i: nat, ghost sent0: seq<Bgw.Send>, outputs: seq<Row>, shares: seq<int>, coins: int -> seq<int>)
      returns (next: seq<Row>)
      requires i < |gates| && AllFit(gates, |shares|)
      requires forall k :: Draws(coins(k), degree)
      requires outputs == Evaluate(gates, i, shares, nParties, degree, receive, recombine, coins).outputs
      requires sent == sent0 + Evaluate(gates, i, shares, nParties, degree, receive, recombine, coins).sent
      modifies this`sent
      ensures next == Evaluate(gates, i + 1, shares, nParties, degree, receive, recombine, coins).outputs
      ensures sent == sent0 + Evaluate(gates, i + 1, shares, nParties, degree, receive, recombine, coins).sent
    {
      ghost var st := Evaluate(gates, i, shares, nParties, degree, receive, recombine, coins);
      assert Fits(gates[i], |gates| + 2, |shares|);
      var key, g := gates[i].0, gates[i].1;
      match g.kind {
        case Zer =>
          next := outputs;
        case Inp =>
          next := outputs[g.dest := outputs[g.dest][g.slot := shares[key]]];
        case Add =>
          next := outputs[g.dest := outputs[g.dest][g.slot := Field.Add(outputs[key][1], outputs[key][2])]];
        case Mul =>
          var v := Multiply(outputs[key][1], outputs[key][2], key, coins(key));
          ghost var sends := Bgw.Broadcast([Field.Mul(outputs[key][1], outputs[key][2])] + coins(key), key, nParties);
          Bgw.AppendAssoc(sent0, st.sent, sends);
          next := outputs[g.dest := outputs[g.dest][g.slot := v]];
      }
    }

    /**
     * evaluate_gates: allocate the zeroed slot array, run every gate of
     * GATES in order, and return slot 1 of row outputGateNo, as
     * OutputSlot reads it: None where that read raises.
     */
    method EvaluateGates(shares: seq<int>, outputGateNo: int, coins: int -> seq<int>) returns (r: Option<int>)
      requires AllFit(gates, |shares|)
      requires forall k :: Draws(coins(k), degree)
      modifies this`sent
      ensures r == OutputSlot(Evaluate(gates, |gates|, shares, nParties, degree, receive, recombine, coins).outputs, outputGateNo)
      ensures sent == old(sent) + Evaluate(gates, |gates|, shares, nParties, degree, receive, recombine, coins).sent
    {
      var outputs := AllocateOutputs();
      var i := 0;
      while i < |gates|
        invariant 0 <= i <= |gates|
        invariant outputs == Evaluate(gates, i, shares, nParties, degree, receive, recombine, coins).outputs
        invariant sent == old(sent) + Evaluate(gates, i, shares, nParties, degree, receive, recombine, coins).sent
      {
        outputs := EvalGate(i, old(sent), outputs, shares, coins);
        i := i + 1;
      }
      r := OutputSlot(outputs, outputGateNo);
    }

    /** output_gate_no: the destination of the last gate of GATES. */
    function OutputGateNo(): int
      requires |gates| > 0
    {
      gates[|gates| - 1].1.dest
    }

    /**
     * bgw_protocol: share the private value with DEGREE random
     * coefficients, tagged party_no; receive the input shares; evaluate
     * GATES; send the result to every party, tagged output_gate_no; and
     * recombine the output shares received, with degree DEGREE. None
     * where it raises: GATES is empty, or evaluate_gates' read of the
     * output row raises.
     */
    method BgwProtocol(privateValue: int, draws: seq<int>, coins: int -> seq<int>) returns (secret: Option<int>)
      requires AllFit(gates, nParties + 1)
      requires Draws(draws, degree) && forall k :: Draws(coins(k), degree)
      modifies this`sent
      ensures |gates| == 0 ==> secret == None && sent == old(sent) + Bgw.Broadcast([privateValue] + draws, partyNo, nParties)
      ensures |gates| > 0 ==>
                var ev := Evaluate(gates, |gates|, PaddedInputs(receive, nParties), nParties, degree, receive, recombine, coins);
                var result := OutputSlot(ev.outputs, OutputGateNo());
                && (result.None? ==> secret == None && sent == old(sent) + Bgw.Broadcast([privateValue] + draws, partyNo, nParties) + ev.sent)
                && (result.Some? ==>
                      && sent == old(sent) + Bgw.Broadcast([privateValue] + draws, partyNo, nParties) + ev.sent
                                           + Bgw.Announce(result.value, OutputGateNo(), nParties)
                      && secret == Some(recombine(Padded(receive, nParties, OutputGateNo()), degree)))
    {
      var coefficients := Coefficients(privateValue, degree, draws);
      ShareOut(coefficients, partyNo);
      var shares := ReceiveInputs();
      if |gates| == 0 {
        return None;
      }
      var outputGateNo := OutputGateNo();
      var result := EvaluateGates(shares, outputGateNo, coins);
      if result.None? {
        return None;
      }
      Announce(result.value, outputGateNo);
      var outputs := ReceiveAll(outputGateNo);
      secret := Some(recombine(outputs, degree));
    }
  }
}
