/**
 * party2_electric_boogaloo.py: one party's side of the BGW protocol. The
 * party shares its private value (step one), evaluates the circuit GATES
 * on shares, re-sharing at every MUL gate (step two), and broadcasts and
 * recombines the output shares (step three).
 *
 * The network is abstract: `send_share` appends (destination, gate tag,
 * share) to the party's log of sent messages, and `receive_share(p, tag)`
 * is a fixed function of the sender and the tag. The random coefficients
 * are parameters.
 */
module Bgw {
  import opened Field
  import opened Combinatorics
  import opened Shamir
  import opened Circuit
  import opened Wiring
  import opened Optional

  /** A message sent: (destination party, gate tag, share). */
  type Send = (int, int, int)

  /** The `results` dict of step two: for each gate, its slots 1 and 2. */
  type Results = map<int, map<int, Option<int>>>

  /** What step two does: raise an exception, or return results[OUTPUT_GATE][1]. */
  datatype Outcome = Raised | Returned(share: Option<int>)

  /** The state of step two after some gates: the results, what was sent, and whether it raised. */
  datatype Evaluation = Evaluation(results: Results, sent: seq<Send>, raised: bool)

  // ---------------------------------------------------------------------
  // Sharing and receiving

  /**
   * The messages sent when sharing the polynomial with coefficients coeff:
   * to each party d = 1..n in turn, tagged tag, the share calc_poly(d, coeff).
   */
  function Broadcast(coeff: seq<int>, tag: int, n: nat): (r: seq<Send>)
    ensures |r| == n
  {
    if n == 0 then [] else Broadcast(coeff, tag, n - 1) + [(n, tag, CalcPoly(n, coeff))]
  }

  /** The messages sent when announcing one value to each party 1..n in turn, tagged tag. */
  function Announce(value: int, tag: int, n: nat): (r: seq<Send>)
    ensures |r| == n
  {
    if n == 0 then [] else Announce(value, tag, n - 1) + [(n, tag, value)]
  }

  /** The shares receive_share(p, tag) for the parties p = 1..n. */
  function Received(receive: (int, int) -> int, n: nat, tag: int): (r: map<int, int>)
    ensures forall p :: p in r <==> 1 <= p <= n
  {
    map p | 1 <= p <= n :: receive(p, tag)
  }

  /** The input shares receive_share(p, p) for the parties p = 1..n. */
  function InputShares(receive: (int, int) -> int, n: nat): (r: map<int, int>)
    ensures forall p :: p in r <==> 1 <= p <= n
  {
    map p | 1 <= p <= n :: receive(p, p)
  }

  /** Party d's message in a broadcast is its share, tagged tag. */
  lemma {:induction false} BroadcastAt(coeff: seq<int>, tag: int, n: nat)
    ensures forall d :: 1 <= d <= n ==> Broadcast(coeff, tag, n)[d - 1] == (d, tag, CalcPoly(d, coeff))
  {
    if n > 0 {
      BroadcastAt(coeff, tag, n - 1);
    }
  }

  /** Party d's message in an announcement is the value, tagged tag. */
  lemma {:induction false} AnnounceAt(value: int, tag: int, n: nat)
    ensures forall d :: 1 <= d <= n ==> Announce(value, tag, n)[d - 1] == (d, tag, value)
  {
    if n > 0 {
      AnnounceAt(value, tag, n - 1);
    }
  }

  /**
   * The shares a broadcast carries hold the secret: whatever parties
   * 1..size got from it (size at least the number of coefficients, at most
   * the number of parties) recombine to coeff[0] mod PRIME.
   */
  lemma BroadcastRecombines(coeff: seq<int>, tag: int, n: nat, size: nat, got: map<int, int>)
    requires 1 <= |coeff| <= size <= n && size < PRIME
    requires forall d :: 1 <= d <= size ==> d in got && got[d] == Broadcast(coeff, tag, n)[d - 1].2
    ensures forall i :: 1 <= i <= |RecombinationVector(size)| ==> i in got && i in RecombinationVector(size)
    ensures Recombine(got, RecombinationVector(size)) == coeff[0] % PRIME
  {
    BroadcastAt(coeff, tag, n);
    Lagrange(coeff, size, got);
  }

  /**
   * Recombining received shares: when parties 1..size sent shares of one
   * polynomial with at most size coefficients for tag, recombining the
   * received shares gives its constant term.
   */
  lemma ReceivedRecombines(receive: (int, int) -> int, n: nat, tag: int, coeff: seq<int>, size: nat)
    requires 1 <= |coeff| <= size <= n && size < PRIME
    requires forall p :: 1 <= p <= size ==> receive(p, tag) == CalcPoly(p, coeff)
    ensures RecombineReceived(receive, n, tag, size) == coeff[0] % PRIME
  {
    Lagrange(coeff, size, Received(receive, n, tag));
  }

  // ---------------------------------------------------------------------
  // Degree reduction

  /** vec[p] times coefficient k of p's re-sharing polynomial. */
  function ReducedTerm(reshare: int -> seq<int>, vec: map<int, int>, k: nat): int -> int
  {
    p => if p in vec && k < |reshare(p)| then vec[p] * reshare(p)[k] else 0
  }

  /** The first len coefficients of the sum over p in 1..size of vec[p] times reshare(p). */
  function Reduced(reshare: int -> seq<int>, vec: map<int, int>, size: nat, len: nat): (r: seq<int>)
    ensures |r| == len
    ensures forall k :: 0 <= k < len ==> r[k] == Sum(ReducedTerm(reshare, vec, k), 1, size + 1)
  {
    if len == 0 then []
    else Reduced(reshare, vec, size, len - 1) + [Sum(ReducedTerm(reshare, vec, len - 1), 1, size + 1)]
  }

  /**
   * The polynomial the results of a MUL gate are shares of: the re-sharing
   * polynomials reshare(p) of the parties 1..2*degree+1, weighted by the
   * recombination vector of that size.
   */
  function Reduction(degree: nat, reshare: int -> seq<int>): (r: seq<int>)
    ensures |r| == degree + 1
  {
    Reduced(reshare, RecombinationVector(2 * degree + 1), 2 * degree + 1, degree + 1)
  }

  /** vec[p] times p's re-sharing polynomial, cut to k coefficients, at x. */
  function WeightedValue(reshare: int -> seq<int>, vec: map<int, int>, x: int, k: nat): int -> int
  {
    p => if p in vec && k <= |reshare(p)| then vec[p] * PolyValue(reshare(p)[..k], x) else 0
  }

  lemma WeightedStep(s: seq<int>, v: int, x: int, k: nat)
    requires 1 <= k <= |s|
    ensures v * PolyValue(s[..k], x) == v * PolyValue(s[..k - 1], x) + Pow(x, k - 1) * (v * s[k - 1])
  {
    var front := s[..k];
    PolyValueSnoc(front, x);
    assert front[..k - 1] == s[..k - 1];
    var a, w := PolyValue(s[..k - 1], x), Pow(x, k - 1);
    Distribute(v, PolyValue(front, x), a, s[k - 1], w);
  }

  lemma Distribute(v: int, p: int, a: int, b: int, w: int)
    requires p == a + b * w
    ensures v * p == v * a + w * (v * b)
  {
  }

  /** Weighting the polynomials and then evaluating is evaluating their weighted sum. */
  lemma {:induction false} ReducedValue(reshare: int -> seq<int>, vec: map<int, int>, size: nat, x: int, k: nat)
    requires forall p :: 1 <= p <= size ==> p in vec && k <= |reshare(p)|
    ensures Sum(WeightedValue(reshare, vec, x, k), 1, size + 1) == PolyValue(Reduced(reshare, vec, size, k), x)
    decreases k
  {
    if k == 0 {
      WeightedEmpty(reshare, vec, size, x);
    } else {
      ReducedValue(reshare, vec, size, x, k - 1);
      WeightedSplit(reshare, vec, size, x, k);
      var r := Reduced(reshare, vec, size, k);
      assert r[..k - 1] == Reduced(reshare, vec, size, k - 1);
      PolyValueSnoc(r, x);
      Regroup(Sum(WeightedValue(reshare, vec, x, k), 1, size + 1), Sum(WeightedValue(reshare, vec, x, k - 1), 1, size + 1),
              Sum(ReducedTerm(reshare, vec, k - 1), 1, size + 1), Pow(x, k - 1), PolyValue(r, x), PolyValue(r[..k - 1], x), r[k - 1]);
    }
  }

  lemma WeightedEmpty(reshare: int -> seq<int>, vec: map<int, int>, size: nat, x: int)
    ensures Sum(WeightedValue(reshare, vec, x, 0), 1, size + 1) == 0
  {
    var w := WeightedValue(reshare, vec, x, 0);
    forall p | 1 <= p < size + 1
      ensures w(p) == 0 * w(p)
    {
      assert reshare(p)[..0] == [];
    }
    SumScale(w, w, 0, 1, size + 1);
  }

  /** One more coefficient adds x^(k-1) times the weighted coefficients k - 1. */
  lemma WeightedSplit(reshare: int -> seq<int>, vec: map<int, int>, size: nat, x: int, k: nat)
    requires k >= 1 && forall p :: 1 <= p <= size ==> p in vec && k <= |reshare(p)|
    ensures Sum(WeightedValue(reshare, vec, x, k), 1, size + 1)
         == Sum(WeightedValue(reshare, vec, x, k - 1), 1, size + 1) + Pow(x, k - 1) * Sum(ReducedTerm(reshare, vec, k - 1), 1, size + 1)
  {
    var w, w0, t := WeightedValue(reshare, vec, x, k), WeightedValue(reshare, vec, x, k - 1), ReducedTerm(reshare, vec, k - 1);
    forall p | 1 <= p < size + 1
      ensures w(p) == w0(p) + Pow(x, k - 1) * t(p)
    {
      WeightedStep(reshare(p), vec[p], x, k);
    }
    SumAddScaled(w0, t, w, Pow(x, k - 1), 1, size + 1);
  }

  lemma Regroup(total: int, low: int, c: int, w: int, value: int, lowValue: int, top: int)
    requires total == low + w * c && low == lowValue && value == lowValue + top * w && top == c
    ensures total == value
  {
  }

  /** The constant term of the weighted sum is the recombination of the values the parties re-shared. */
  lemma ConstantIsRecombined(reshare: int -> seq<int>, vec: map<int, int>, size: nat, len: nat, values: map<int, int>)
    requires len >= 1 && |vec| == size
    requires forall p :: 1 <= p <= size ==> p in vec && |reshare(p)| >= 1 && p in values && values[p] == reshare(p)[0]
    ensures Reduced(reshare, vec, size, len)[0] % PRIME == Recombine(values, vec)
  {
    forall p | 1 <= p < size + 1
      ensures ReducedTerm(reshare, vec, 0)(p) == RecombineTerm(values, vec)(p)
    {
    }
    SumExt(ReducedTerm(reshare, vec, 0), RecombineTerm(values, vec), 1, size + 1);
    RecombineUnfold(values, vec);
  }

  /** The values the parties 1..size re-shared: the constant terms of their polynomials. */
  function ResharedValues(reshare: int -> seq<int>, size: nat): (r: map<int, int>)
    requires forall p :: 1 <= p <= size ==> |reshare(p)| >= 1
    ensures forall p :: 1 <= p <= size ==> p in r && r[p] == reshare(p)[0]
  {
    map p | 1 <= p <= size :: reshare(p)[0]
  }

  /**
   * When each party p re-shares the product of its shares of f and g, the
   * constant term of Reduction is mul(f[0], g[0]).
   */
  lemma ReductionSecret(degree: nat, f: seq<int>, g: seq<int>, reshare: int -> seq<int>)
    requires |f| == degree + 1 && |g| == degree + 1 && 2 * degree + 1 < PRIME
    requires forall p :: 1 <= p <= 2 * degree + 1 ==>
               |reshare(p)| == degree + 1 && reshare(p)[0] == Field.Mul(CalcPoly(p, f), CalcPoly(p, g))
    ensures CalcPoly(0, Reduction(degree, reshare)) == Field.Mul(f[0], g[0])
  {
    var size := 2 * degree + 1;
    var vec, values, h := RecombinationVector(size), ResharedValues(reshare, size), Reduction(degree, reshare);
    ProductsRecombine(f, g, size, values);
    VectorSize(size);
    ConstantIsRecombined(reshare, vec, size, degree + 1, values);
    assert h[0] % PRIME == Field.Mul(f[0], g[0]);
    SecretAtZero(h);
  }

  /** Pointwise: a received share times its weight is congruent to the weighted evaluation. */
  lemma ReceivedTerm(share: int, v: int, s: seq<int>, me: int)
    requires share == CalcPoly(me, s)
    ensures (share * v) % PRIME == (v * PolyValue(s, me)) % PRIME
  {
    ModIdempotent(PolyValue(s, me));
    MulModBoth(share, v, PolyValue(s, me), v);
  }

  lemma WholePrefix(s: seq<int>)
    ensures s[..|s|] == s
  {
  }

  /** The received shares, weighted by the vector, sum to the weighted evaluations at me, mod PRIME. */
  lemma ReceivedWeighted(reshare: int -> seq<int>, vec: map<int, int>, size: nat, len: nat, got: map<int, int>, me: int)
    requires forall p :: 1 <= p <= size ==> p in vec && p in got && |reshare(p)| == len && got[p] == CalcPoly(me, reshare(p))
    ensures Sum(RecombineTerm(got, vec), 1, size + 1) % PRIME == Sum(WeightedValue(reshare, vec, me, len), 1, size + 1) % PRIME
  {
    var w := WeightedValue(reshare, vec, me, len);
    forall p | 1 <= p < size + 1
      ensures RecombineTerm(got, vec)(p) % PRIME == w(p) % PRIME
    {
      WholePrefix(reshare(p));
      ReceivedTerm(got[p], vec[p], reshare(p), me);
    }
    SumMod(RecombineTerm(got, vec), w, 1, size + 1);
  }

  /** Recombining what me received is me's share of the weighted sum of the polynomials. */
  lemma WeightedShare(reshare: int -> seq<int>, vec: map<int, int>, size: nat, len: nat,
                      receive: (int, int) -> int, n: nat, tag: int, me: int)
    requires |vec| == size <= n
    requires forall p :: 1 <= p <= size ==> p in vec && |reshare(p)| == len && receive(p, tag) == CalcPoly(me, reshare(p))
    ensures Recombine(Received(receive, n, tag), vec) == CalcPoly(me, Reduced(reshare, vec, size, len))
  {
    var got := Received(receive, n, tag);
    ReceivedWeighted(reshare, vec, size, len, got, me);
    ReducedValue(reshare, vec, size, me, len);
    RecombineUnfold(got, vec);
  }

  /** Each party p in 1..size re-shares with a polynomial of len coefficients, and me received p's share of it. */
  predicate Reshared(reshare: int -> seq<int>, size: nat, len: nat, receive: (int, int) -> int, tag: int, me: int)
  {
    forall p :: 1 <= p <= size ==> |reshare(p)| == len && receive(p, tag) == CalcPoly(me, reshare(p))
  }

  /** What party me recombines from size such shares is its share of Reduced. */
  lemma SizedShare(reshare: int -> seq<int>, size: nat, len: nat, receive: (int, int) -> int, n: nat, tag: int, me: int)
    requires size <= n && Reshared(reshare, size, len, receive, tag, me)
    ensures RecombineReceived(receive, n, tag, size) == CalcPoly(me, Reduced(reshare, RecombinationVector(size), size, len))
  {
    VectorSize(size);
    WeightedShare(reshare, RecombinationVector(size), size, len, receive, n, tag, me);
  }

  /** What party me recombines from the shares it received is its share of Reduction. */
  lemma ReductionShare(degree: nat, reshare: int -> seq<int>, receive: (int, int) -> int, n: nat, tag: int, me: int)
    requires 2 * degree < n && Reshared(reshare, 2 * degree + 1, degree + 1, receive, tag, me)
    ensures RecombineReceived(receive, n, tag, 2 * degree + 1) == CalcPoly(me, Reduction(degree, reshare))
  {
    SizedShare(reshare, 2 * degree + 1, degree + 1, receive, n, tag, me);
  }

  /**
   * Degree reduction, what multiply achieves. The parties 1..2d+1 hold
   * shares calc_poly(p, f) and calc_poly(p, g) of two polynomials with
   * d + 1 coefficients. Each re-shares the product of its two shares with
   * a polynomial reshare(p) of d + 1 coefficients, and party me receives
   * calc_poly(me, reshare(p)) from each p. Then what me recombines with
   * the vector of size 2d+1 is me's share of Reduction(d, reshare): one
   * polynomial for every me, with d + 1 coefficients, whose constant term
   * is mul(f[0], g[0]). The gate's output is again a degree-d sharing, of
   * the product of the two secrets.
   */
  lemma DegreeReduction(degree: nat, f: seq<int>, g: seq<int>, reshare: int -> seq<int>,
                        receive: (int, int) -> int, n: nat, tag: int, me: int)
    requires |f| == degree + 1 && |g| == degree + 1 && 2 * degree < n < PRIME
    requires forall p :: 1 <= p <= 2 * degree + 1 ==>
               && |reshare(p)| == degree + 1
               && reshare(p)[0] == Field.Mul(CalcPoly(p, f), CalcPoly(p, g))
               && receive(p, tag) == CalcPoly(me, reshare(p))
    ensures CalcPoly(0, Reduction(degree, reshare)) == Field.Mul(f[0], g[0])
    ensures RecombineReceived(receive, n, tag, 2 * degree + 1) == CalcPoly(me, Reduction(degree, reshare))
  {
    ReductionSecret(degree, f, g, reshare);
    ReductionShare(degree, reshare, receive, n, tag, me);
  }

  // ---------------------------------------------------------------------
  // Step two as a function

  /** The two inputs of gate key, if both slots hold a value; None where Python raises. */
  function Operands(results: Results, key: int): Option<(int, int)>
  {
    if key in results && 1 in results[key] && 2 in results[key] && results[key][1].Some? && results[key][2].Some?
    then Some((results[key][1].value, results[key][2].value))
    else None
  }

  /** results[g.dest][g.slot] = v */
  function Write(results: Results, g: Gate, v: int): (r: Results)
    requires g.dest in results
    ensures r.Keys == results.Keys && g.slot in r[g.dest] && r[g.dest][g.slot] == Some(v)
    ensures forall d :: d in results && d != g.dest ==> r[d] == results[d]
    ensures forall s :: s in results[g.dest] && s != g.slot ==> s in r[g.dest] && r[g.dest][s] == results[g.dest][s]
  {
    results[g.dest := results[g.dest][g.slot := Some(v)]]
  }

  /**
   * Recombining the shares received for tag from parties 1..size with the
   * recombination vector of that size.
   */
  function RecombineReceived(receive: (int, int) -> int, n: nat, tag: int, size: nat): (r: int)
    requires size <= n
    ensures 0 <= r < PRIME
  {
    VectorSize(size);
    Recombine(Received(receive, n, tag), RecombinationVector(size))
  }

  /**
   * One iteration of step two's loop over GATES. The destination's slots are
   * created (both None) unless present; INP copies shares[key], ADD adds
   * the two inputs, MUL runs `multiply`, any other kind changes nothing
   * more. A missing key or an input still None raises.
   */
  function Step(ev: Evaluation, e: Entry, shares: map<int, int>, nParties: nat, receive: (int, int) -> int, coins: int -> seq<int>): Evaluation
    requires 2 * DEGREE < nParties
  {
    if ev.raised then ev
    else
      var key, g := e.0, e.1;
      var results := if g.dest in ev.results then ev.results else ev.results[g.dest := map[1 := None, 2 := None]];
      match g.kind
      case Inp =>
        if key in shares then Evaluation(Write(results, g, shares[key]), ev.sent, false)
        else Evaluation(results, ev.sent, true)
      case Add =>
        if Operands(results, key).None? then Evaluation(results, ev.sent, true)
        else
          var (a, b) := Operands(results, key).value;
          Evaluation(Write(results, g, Field.Add(a, b)), ev.sent, false)
      case Mul =>
        if Operands(results, key).None? then Evaluation(results, ev.sent, true)
        else
          var (a, b) := Operands(results, key).value;
          var sends := Broadcast([Field.Mul(a, b)] + coins(key), key, nParties);
          Evaluation(Write(results, g, RecombineReceived(receive, nParties, key, 2 * DEGREE + 1)), ev.sent + sends, false)
      case Zer => Evaluation(results, ev.sent, false)
  }

  /** Concatenation is associative. */
  lemma AppendAssoc<T>(a: seq<T>, b: seq<T>, c: seq<T>)
    ensures (a + b) + c == a + (b + c)
  {
  }

  /** Step two after the first k gates. */
  function Run(gates: seq<Entry>, k: nat, shares: map<int, int>, nParties: nat, receive: (int, int) -> int, coins: int -> seq<int>): Evaluation
    requires k <= |gates| && 2 * DEGREE < nParties
  {
    if k == 0 then Evaluation(map[], [], false)
    else Step(Run(gates, k - 1, shares, nParties, receive, coins), gates[k - 1], shares, nParties, receive, coins)
  }

  lemma RunStep(gates: seq<Entry>, k: nat, shares: map<int, int>, nParties: nat, receive: (int, int) -> int, coins: int -> seq<int>)
    requires 0 < k <= |gates| && 2 * DEGREE < nParties
    ensures Run(gates, k, shares, nParties, receive, coins) == Step(Run(gates, k - 1, shares, nParties, receive, coins), gates[k - 1], shares, nParties, receive, coins)
  {
  }

  /** What step two returns: results[output][1], or Raised if it raised or that slot is missing. */
  function Finish(ev: Evaluation, output: int): Outcome
  {
    if ev.raised || output !in ev.results || 1 !in ev.results[output] then Raised
    else Returned(ev.results[output][1])
  }

  /** Once raised, the later gates do nothing: the exception ends step two. */
  lemma {:induction false} RaisedStays(gates: seq<Entry>, i: nat, k: nat, shares: map<int, int>, nParties: nat, receive: (int, int) -> int, coins: int -> seq<int>)
    requires i <= k <= |gates| && 2 * DEGREE < nParties
    requires Run(gates, i, shares, nParties, receive, coins).raised
    ensures Run(gates, k, shares, nParties, receive, coins) == Run(gates, i, shares, nParties, receive, coins)
    decreases k
  {
    if k > i {
      RaisedStays(gates, i, k - 1, shares, nParties, receive, coins);
      RunStep(gates, k, shares, nParties, receive, coins);
    }
  }

  // ---------------------------------------------------------------------
  // Step two on a wired circuit

  /** No gate of kind ZER: every gate is INP, ADD or MUL. */
  predicate KnownKinds(gates: seq<Entry>)
  {
    forall j :: 0 <= j < |gates| ==> gates[j].1.kind != Zer
  }

  /**
   * After the first k gates of a wired circuit: nothing raised, and every
   * slot fed so far holds a value.
   */
  predicate Ready(gates: seq<Entry>, k: nat, ev: Evaluation)
    requires k <= |gates|
  {
    && !ev.raised
    && (forall i :: 0 <= i < k ==> gates[i].1.dest in ev.results && gates[i].1.slot in ev.results[gates[i].1.dest]
                                   && ev.results[gates[i].1.dest][gates[i].1.slot].Some?)
  }

  /** A gate of a wired circuit that is not an input has both inputs once the gates before it ran. */
  lemma OperandsReady(gates: seq<Entry>, k: nat, ev: Evaluation)
    requires FedBoth(gates) && k < |gates| && gates[k].1.kind != Inp && Ready(gates, k, ev)
    ensures Operands(ev.results, gates[k].0).Some?
  {
    var key := gates[k].0;
    assert FedBefore(gates, k, 1) && FedBefore(gates, k, 2);
    var i1 :| 0 <= i1 < k && gates[i1].1.dest == key && gates[i1].1.slot == 1;
    var i2 :| 0 <= i2 < k && gates[i2].1.dest == key && gates[i2].1.slot == 2;
  }

  /**
   * after is before with gate g's slot set: g's destination exists, its
   * slot holds a value, and every other slot is kept.
   */
  predicate SetsSlot(before: Results, after: Results, g: Gate)
  {
    && g.dest in after && g.slot in after[g.dest] && after[g.dest][g.slot].Some?
    && (forall d :: d in after ==> d in before || d == g.dest)
    && (forall d :: d in before && d != g.dest ==> d in after && after[d] == before[d])
    && (g.dest in before ==> forall s :: s in before[g.dest] && s != g.slot ==> s in after[g.dest] && after[g.dest][s] == before[g.dest][s])
  }

  /** A gate whose inputs are present sets its slot and does not raise. */
  lemma StepSets(ev: Evaluation, e: Entry, shares: map<int, int>, nParties: nat, receive: (int, int) -> int, coins: int -> seq<int>)
    requires 2 * DEGREE < nParties && !ev.raised && e.1.kind != Zer && 1 <= e.1.slot <= 2
    requires e.1.kind == Inp ==> e.0 in shares
    requires e.1.kind != Inp ==> Operands(ev.results, e.0).Some?
    ensures !Step(ev, e, shares, nParties, receive, coins).raised
    ensures SetsSlot(ev.results, Step(ev, e, shares, nParties, receive, coins).results, e.1)
  {
    var g := e.1;
    var results := if g.dest in ev.results then ev.results else ev.results[g.dest := map[1 := None, 2 := None]];
    assert Operands(results, e.0) == Operands(ev.results, e.0);
  }

  /** Setting gate k's slot keeps the evaluation ready for the next gate. */
  lemma ReadyAfter(gates: seq<Entry>, k: nat, ev: Evaluation, next: Evaluation)
    requires k < |gates| && Ready(gates, k, ev) && !next.raised
    requires SetsSlot(ev.results, next.results, gates[k].1)
    ensures Ready(gates, k + 1, next)
  {
    forall i | 0 <= i < k + 1
      ensures gates[i].1.dest in next.results && gates[i].1.slot in next.results[gates[i].1.dest]
      ensures next.results[gates[i].1.dest][gates[i].1.slot].Some?
    {
      if i < k && gates[i].1.dest == gates[k].1.dest && gates[i].1.slot != gates[k].1.slot {
        assert gates[i].1.dest in ev.results;
      }
    }
  }

  /** One gate of a wired circuit keeps the evaluation ready. */
  lemma StepReady(gates: seq<Entry>, k: nat, shares: map<int, int>, nParties: nat, receive: (int, int) -> int, coins: int -> seq<int>)
    requires Forward(gates) && FedBoth(gates) && KnownKinds(gates) && k < |gates| && 2 * DEGREE < nParties
    requires forall j :: 0 <= j < |gates| && gates[j].1.kind == Inp ==> gates[j].0 in shares
    requires Ready(gates, k, Run(gates, k, shares, nParties, receive, coins))
    ensures Ready(gates, k + 1, Run(gates, k + 1, shares, nParties, receive, coins))
  {
    var ev := Run(gates, k, shares, nParties, receive, coins);
    if gates[k].1.kind != Inp {
      OperandsReady(gates, k, ev);
    }
    assert 1 <= gates[k].1.slot <= 2;
    StepSets(ev, gates[k], shares, nParties, receive, coins);
    RunStep(gates, k + 1, shares, nParties, receive, coins);
    ReadyAfter(gates, k, ev, Run(gates, k + 1, shares, nParties, receive, coins));
  }

  /** Every prefix of a wired circuit evaluates to a ready state. */
  lemma {:induction false} RunReady(gates: seq<Entry>, k: nat, shares: map<int, int>, nParties: nat, receive: (int, int) -> int, coins: int -> seq<int>)
    requires Forward(gates) && FedBoth(gates) && KnownKinds(gates) && k <= |gates| && 2 * DEGREE < nParties
    requires forall j :: 0 <= j < |gates| && gates[j].1.kind == Inp ==> gates[j].0 in shares
    ensures Ready(gates, k, Run(gates, k, shares, nParties, receive, coins))
  {
    if k > 0 {
      var j := k - 1;
      RunReady(gates, j, shares, nParties, receive, coins);
      assert Ready(gates, j, Run(gates, j, shares, nParties, receive, coins));
      StepReady(gates, j, shares, nParties, receive, coins);
    }
  }

  /**
   * On a wired circuit with only INP, ADD and MUL gates, given a share for
   * every INP gate, step two raises nothing and returns a value for the
   * output wire: every gate finds both its inputs set.
   */
  lemma {:induction false} WiredEvaluates(gates: seq<Entry>, shares: map<int, int>, nParties: nat, receive: (int, int) -> int, coins: int -> seq<int>)
    requires Wired(gates) && KnownKinds(gates) && 2 * DEGREE < nParties
    requires forall j :: 0 <= j < |gates| && gates[j].1.kind == Inp ==> gates[j].0 in shares
    ensures Finish(Run(gates, |gates|, shares, nParties, receive, coins), |gates| + 1).Returned?
    ensures Finish(Run(gates, |gates|, shares, nParties, receive, coins), |gates| + 1).share.Some?
  {
    RunReady(gates, |gates|, shares, nParties, receive, coins);
    assert gates[|gates| - 1].1.dest == |gates| + 1 && gates[|gates| - 1].1.slot == 1;
  }

  /** In a wired circuit the INP gates are the gates 1..N_INPUTS. */
  lemma WiredInputs(gates: seq<Entry>)
    requires Wired(gates)
    ensures forall j :: 0 <= j < |gates| && gates[j].1.kind == Inp ==> 1 <= gates[j].0 <= CountInputs(gates)
  {
    forall j | 0 <= j < |gates| && gates[j].1.kind == Inp
      ensures gates[j].0 <= CountInputs(gates)
    {
      InputsBefore(gates, j);
      CountInputsAtLeast(gates, j + 1);
    }
  }

  /** With INP gates first, every gate before an INP gate is an INP gate. */
  lemma {:induction false} InputsBefore(gates: seq<Entry>, j: nat)
    requires InputsFirst(gates) && j < |gates| && gates[j].1.kind == Inp
    ensures forall i :: 0 <= i <= j ==> gates[i].1.kind == Inp
    decreases j
  {
    if j > 0 {
      InputsBefore(gates, j - 1);
    }
  }

  /** A circuit whose first m gates are INP gates has at least m of them. */
  lemma {:induction false} CountInputsAtLeast(gates: seq<Entry>, m: nat)
    requires m <= |gates| && forall i :: 0 <= i < m ==> gates[i].1.kind == Inp
    ensures CountInputs(gates) >= m
    decreases |gates|
  {
    if |gates| > 0 {
      var front := gates[..|gates| - 1];
      if m == |gates| {
        CountInputsAtLeast(front, m - 1);
      } else {
        CountInputsAtLeast(front, m);
      }
    }
  }

  // ---------------------------------------------------------------------
  // The party

  class Party {
    /** party_no */
    const partyNo: int
    /** N_PARTIES: the parties are 1..nParties. */
    const nParties: nat
    /** GATES.items(), in insertion order. */
    const gates: seq<Entry>
    /** network.receive_share(src_party, src_gate) */
    const receive: (int, int) -> int
    /** What network.send_share has sent, in order. */
    var sent: seq<Send>
    /** RECOMBINATION_VECTOR_CACHE */
    var cache: map<int, map<int, int>>

    /** Enough parties for degree 2*DEGREE (the asserts of the circuit module), and a correct cache. */
    ghost predicate Valid()
      reads this`cache
    {
      && 2 * DEGREE < nParties < PRIME
      && forall s :: s in cache ==> 0 <= s && cache[s] == RecombinationVector(s)
    }

    constructor (partyNo: int, nParties: nat, gates: seq<Entry>, receive: (int, int) -> int)
      requires 2 * DEGREE < nParties < PRIME
      ensures this.partyNo == partyNo && this.nParties == nParties && this.gates == gates && this.receive == receive
      ensures sent == [] && cache == map[] && Valid()
    {
      this.partyNo := partyNo;
      this.nParties := nParties;
      this.gates := gates;
      this.receive := receive;
      sent := [];
      cache := map[];
    }

    /** OUTPUT_GATE = len(GATES) + 1 */
    function OutputGate(): int
    {
      |gates| + 1
    }

    /** N_INPUTS: the number of INP gates. */
    function NInputs(): nat
    {
      CountInputs(gates)
    }

    /**
     * calc_recombination_vector(size): the cached vector if there is one;
     * otherwise entry i = prod of div(j, j - i) over j in 1..size, j != i,
     * stored in the cache.
     */
    method CalcRecombinationVector(size: nat) returns (vec: map<int, int>)
      requires Valid()
      modifies this`cache
      ensures Valid() && vec == RecombinationVector(size)
      ensures cache == old(cache)[size := vec]
      ensures size in old(cache) ==> cache == old(cache)
    {
      if size in cache {
        return cache[size];
      }
      vec := ComputeVector(size);
      cache := cache[size := vec];
    }

    /** Send the share of each party 1..N_PARTIES of the polynomial coeff, tagged tag. */
    method ShareOut(coeff: seq<int>, tag: int)
      modifies this`sent
      ensures sent == old(sent) + Broadcast(coeff, tag, nParties)
    {
      var dest := 1;
      while dest <= nParties
        invariant 1 <= dest <= nParties + 1
        invariant sent == old(sent) + Broadcast(coeff, tag, dest - 1)
      {
        var share := CalcPoly(dest, coeff);
        sent := sent + [(dest, tag, share)];
        dest := dest + 1;
      }
    }

    /**
     * bgw_step_one: a party with party_no <= N_INPUTS shares its private
     * value with the polynomial [private_value] + coeffs; every party then
     * receives the input shares of parties 1..N_INPUTS, tagged by sender.
     */
    method BgwStepOne(privateValue: int, coeffs: seq<int>) returns (shares: map<int, int>)
      requires Valid() && |coeffs| == DEGREE
      modifies this`sent
      ensures partyNo <= NInputs() ==> sent == old(sent) + Broadcast([privateValue] + coeffs, partyNo, nParties)
      ensures partyNo > NInputs() ==> sent == old(sent)
      ensures shares == InputShares(receive, NInputs())
    {
      var localCoeff := [privateValue] + coeffs;
      if partyNo <= NInputs() {
        ShareOut(localCoeff, partyNo);
      }
      shares := map p | 1 <= p <= NInputs() :: receive(p, p);
    }

    /**
     * multiply: re-share mul(a, b) with the polynomial [mul(a, b)] + coeffs,
     * tagged src_gate, then recombine the shares received for src_gate
     * from parties 1..2*DEGREE+1.
     */
    method Multiply(a: int, b: int, srcGate: int, coeffs: seq<int>) returns (r: int)
      requires Valid() && |coeffs| == DEGREE
      modifies this`sent, this`cache
      ensures Valid() && sent == old(sent) + Broadcast([Field.Mul(a, b)] + coeffs, srcGate, nParties)
      ensures r == RecombineReceived(receive, nParties, srcGate, 2 * DEGREE + 1)
    {
      var privateValue := Field.Mul(a, b);
      ShareOut([privateValue] + coeffs, srcGate);
      var shares := Received(receive, nParties, srcGate);
      var vec := CalcRecombinationVector(2 * DEGREE + 1);
      VectorSize(2 * DEGREE + 1);
      r := Recombine(shares, vec);
    }

    /**
     * One pass of bgw_step_two's loop: gate i of GATES on the results of
     * the gates before it, as Step describes.
     */
    method EvalGate(i: nat, ghost sent0: seq<Send>, results: Results, shares: map<int, int>, coins: int -> seq<int>)
      returns (next: Results, raised: bool)
      requires Valid() && i < |gates| && forall k :: |coins(k)| == DEGREE
      requires !Run(gates, i, shares, nParties, receive, coins).raised
      requires Run(gates, i, shares, nParties, receive, coins).results == results
      requires sent == sent0 + Run(gates, i, shares, nParties, receive, coins).sent
      modifies this`sent, this`cache
      ensures Valid()
      ensures raised == Run(gates, i + 1, shares, nParties, receive, coins).raised
      ensures !raised ==> next == Run(gates, i + 1, shares, nParties, receive, coins).results
      ensures sent == sent0 + Run(gates, i + 1, shares, nParties, receive, coins).sent
    {
      ghost var ev := Run(gates, i, shares, nParties, receive, coins);
      RunStep(gates, i + 1, shares, nParties, receive, coins);
      var e := gates[i];
      var key, g := e.0, e.1;
      next := results;
      if g.dest !in next {
        next := next[g.dest := map[1 := None, 2 := None]];
      }
      ghost var st := Step(ev, e, shares, nParties, receive, coins);
      match g.kind {
        case Inp =>
          if key !in shares {
            assert st == Evaluation(next, ev.sent, true);
            return next, true;
          }
          next := next[g.dest := next[g.dest][g.slot := Some(shares[key])]];
          assert st == Evaluation(next, ev.sent, false);
        case Add =>
          if key !in next || 1 !in next[key] || 2 !in next[key] || next[key][1] == None || next[key][2] == None {
            assert st == Evaluation(next, ev.sent, true);
            return next, true;
          }
          var a, b := next[key][1].value, next[key][2].value;
          next := next[g.dest := next[g.dest][g.slot := Some(Field.Add(a, b))]];
          assert st == Evaluation(next, ev.sent, false);
        case Mul =>
          if key !in next || 1 !in next[key] || 2 !in next[key] || next[key][1] == None || next[key][2] == None {
            assert st == Evaluation(next, ev.sent, true);
            return next, true;
          }
          var a, b := next[key][1].value, next[key][2].value;
          ghost var sends := Broadcast([Field.Mul(a, b)] + coins(key), key, nParties);
          var v := Multiply(a, b, key, coins(key));
          AppendAssoc(sent0, ev.sent, sends);
          next := next[g.dest := next[g.dest][g.slot := Some(v)]];
          assert st == Evaluation(next, ev.sent + sends, false);
        case Zer =>
          assert st == Evaluation(next, ev.sent, false);
      }
      raised := false;
    }

    /**
     * The loop of bgw_step_two over GATES, stopping at the first gate that
     * raises.
     */
    method EvalGates(shares: map<int, int>, coins: int -> seq<int>) returns (results: Results, raised: bool)
      requires Valid() && forall k :: |coins(k)| == DEGREE
      modifies this`sent, this`cache
      ensures Valid()
      ensures raised == Run(gates, |gates|, shares, nParties, receive, coins).raised
      ensures !raised ==> results == Run(gates, |gates|, shares, nParties, receive, coins).results
      ensures sent == old(sent) + Run(gates, |gates|, shares, nParties, receive, coins).sent
    {
      var stopped;
      results, raised, stopped := EvalUntilRaised(shares, coins);
      if raised {
        RaisedStays(gates, stopped, |gates|, shares, nParties, receive, coins);
      }
    }

    /** The loop of bgw_step_two: the gates run in order until one raises; stopped is how many ran. */
    method EvalUntilRaised(shares: map<int, int>, coins: int -> seq<int>) returns (results: Results, raised: bool, stopped: nat)
      requires Valid() && forall k :: |coins(k)| == DEGREE
      modifies this`sent, this`cache
      ensures Valid() && stopped <= |gates| && (!raised ==> stopped == |gates|)
      ensures raised == Run(gates, stopped, shares, nParties, receive, coins).raised
      ensures !raised ==> results == Run(gates, stopped, shares, nParties, receive, coins).results
      ensures sent == old(sent) + Run(gates, stopped, shares, nParties, receive, coins).sent
    {
      results, raised, stopped := map[], false, 0;
      ghost var ev := Run(gates, 0, shares, nParties, receive, coins);
      while stopped < |gates| && !raised
        invariant 0 <= stopped <= |gates| && Valid()
        invariant ev == Run(gates, stopped, shares, nParties, receive, coins)
        invariant raised == ev.raised && (!raised ==> ev.results == results)
        invariant sent == old(sent) + ev.sent
      {
        results, raised := EvalGate(stopped, old(sent), results, shares, coins);
        stopped := stopped + 1;
        ev := Run(gates, stopped, shares, nParties, receive, coins);
        assert raised == ev.raised && (!raised ==> ev.results == results);
        assert sent == old(sent) + ev.sent;
      }
    }

    /**
     * bgw_step_two: evaluate GATES in order on the input shares, as Run
     * describes; coins(key) are the DEGREE random coefficients of MUL gate
     * key.
     */
    method BgwStepTwo(shares: map<int, int>, coins: int -> seq<int>) returns (outcome: Outcome)
      requires Valid() && forall k :: |coins(k)| == DEGREE
      modifies this`sent, this`cache
      ensures Valid()
      ensures sent == old(sent) + Run(gates, |gates|, shares, nParties, receive, coins).sent
      ensures outcome == Finish(Run(gates, |gates|, shares, nParties, receive, coins), OutputGate())
    {
      var results, raised := EvalGates(shares, coins);
      if raised {
        return Raised;
      }
      if OutputGate() !in results || 1 !in results[OutputGate()] {
        return Raised;
      }
      return Returned(results[OutputGate()][1]);
    }

    /** Send value to each party 1..N_PARTIES, tagged tag. */
    method AnnounceOut(value: int, tag: int)
      modifies this`sent
      ensures sent == old(sent) + Announce(value, tag, nParties)
    {
      var dest := 1;
      while dest <= nParties
        invariant 1 <= dest <= nParties + 1
        invariant sent == old(sent) + Announce(value, tag, dest - 1)
      {
        sent := sent + [(dest, tag, value)];
        dest := dest + 1;
      }
    }

    /**
     * bgw_step_three: send the output share to every party, tagged
     * OUTPUT_GATE, then recombine the output shares of parties 1..DEGREE+1.
     */
    method BgwStepThree(result: int) returns (r: int)
      requires Valid()
      modifies this`sent, this`cache
      ensures Valid() && sent == old(sent) + Announce(result, OutputGate(), nParties)
      ensures r == RecombineReceived(receive, nParties, OutputGate(), DEGREE + 1)
    {
      AnnounceOut(result, OutputGate());
      var outputs := Received(receive, nParties, OutputGate());
      var vec := CalcRecombinationVector(DEGREE + 1);
      VectorSize(DEGREE + 1);
      r := Recombine(outputs, vec);
    }
  }

  /**
   * The loops of calc_recombination_vector: for each i in 1..size, the
   * product over j in 1..size, j != i, of div(j, j - i).
   */
  method ComputeVector(size: nat) returns (vec: map<int, int>)
    ensures vec == RecombinationVector(size)
  {
    vec := map[];
    var i := 1;
    while i <= size
      invariant 1 <= i <= size + 1
      invariant vec == VectorUpTo(size, i - 1)
    {
      var acc := EntryProduct(i, size);
      vec := vec[i := acc];
      i := i + 1;
    }
    VectorUpToAll(size, size);
  }

  /** The inner loop of calc_recombination_vector for entry i. */
  method EntryProduct(i: int, size: nat) returns (acc: int)
    ensures acc == RecAcc(i, size)
  {
    acc := 1;
    var j := 0;
    while j < size
      invariant 0 <= j <= size
      invariant acc == RecAcc(i, j)
    {
      j := j + 1;
      if i != j {
        acc := Field.Mul(acc, Div(j, j - i));
      }
    }
  }

  /** The vector being built: entries 1..k. */
  function VectorUpTo(size: nat, k: nat): map<int, int>
  {
    if k == 0 then map[] else VectorUpTo(size, k - 1)[k := RecAcc(k, size)]
  }

  /** Entries 1..k built one by one are the entries of the comprehension. */
  lemma {:induction false} VectorUpToAll(size: nat, k: nat)
    ensures VectorUpTo(size, k) == map i | 1 <= i <= k :: RecAcc(i, size)
  {
    if k > 0 {
      VectorUpToAll(size, k - 1);
    }
  }
}
