# BGW secure multi-party computation: one party, verified

This project models one party's side of the BGW protocol from the
`privacy_cw` repository:

- Shamir secret sharing over the prime field of `PRIME = 100003`.
- Lagrange recombination with a size-keyed cache of recombination vectors.
- Evaluation of an arithmetic circuit on shares, re-sharing at every MUL gate (degree reduction).
- The broadcast and recombination of the output shares.
- The receive-side message buffering of the network layer.
- The two circuit generators, the product tree and the binary-to-decimal converter.
- The older variant of the party, `party.py`, and a proof that both variants evaluate a wired circuit the same way.

The modules:

- `Field`: the `modprime` helpers `add`, `mul` and `div` with their modular contracts. It also proves that `PRIME` is prime.
- `Combinatorics`: sums, binomials and the alternating moment identity behind Lagrange interpolation.
- `Shamir`:
  - `calc_poly`;
  - the entries of `calc_recombination_vector`;
  - recombination `sum(values[i] * vec[i]) % PRIME`;
  - the Lagrange theorem (the recombination vector rebuilds the constant term);
  - linearity of recombination.
- `Bgw`: `party2_electric_boogaloo.py`.
  - Class `Party`: the recombination-vector cache, the log of sent messages and the three protocol steps.
  - Step two is proved against `Run`, a fold of one function per gate.
  - `WiredEvaluates` shows that step two cannot raise on a wired circuit whose gates are all INP, ADD or MUL, given a share for every INP gate.
  - `DegreeReduction` shows what a MUL gate achieves. Each party re-shares the product of its two input shares, and recombines what it receives with the vector of size 2*DEGREE+1. The result is a share of the product of the two secrets, of degree DEGREE again.
- `Net`: `network.py`. `Subscriber` keeps per-sender FIFO queues over a sequence of arrivals. `Network` keeps the never-cleared (party, gate) share table. Both loops are proved against pure functions of their locals.
- `Circuit`, `Wiring`, `CircuitConfig`: `circuit2_electric_boogaloo.py`.
  - `GATES` is modelled as an insertion-ordered dict. `calc_gates` and `tree` are methods proved to make the assignments of closed-form specifications.
  - The wiring invariants the evaluator relies on are proved for both generators: consecutive ids, inputs first, forward edges, both slots fed once, and the output wire at `N_GATES + 1`.
  - `calc_gates` reproduces the commented tables, `PRIVATE_VALUES` has the expected shape, and `function` returns the binary value of `INPUT`.
- `Legacy`: `party.py` as a class `LegacyParty` over a slot array `seq<seq<int>>`, proved against `Evaluate`.
- `Variants`: on a wired circuit of INP/ADD/MUL gates, party2's step two and party.py's `evaluate_gates` return the same output share and send the same messages. This holds when party.py's floating-point `recombination` computes its exact value, `ExactRecombination`, which is proved to rebuild the secret.

The network is abstract in the party models. `send_share` appends
`(destination, tag, share)` to a log. `receive_share(p, tag)` is a fixed
function `receive` of the sender and the tag. The random coefficients
are parameters: `coeffs`, `draws`, and `coins(gate)` for the MUL gates.

## Model

| member | source | states |
|---|---|---|
| Field.PrimeIsPrime | circuit2_electric_boogaloo.py:79 | PRIME = 100003 has no divisor strictly between 1 and itself |
| Field.Add | party2_electric_boogaloo.py:59 | modprime add: the result is in [0, PRIME) and congruent to a + b |
| Field.Mul | party2_electric_boogaloo.py:115 | modprime mul: the result is in [0, PRIME) and congruent to a * b |
| Field.Inverse | party2_electric_boogaloo.py:101 | the inverse behind div: for b not a multiple of PRIME (negative b reduced first), b * inverse is 1 mod PRIME |
| Field.Div | party2_electric_boogaloo.py:101 | modprime div: the result is in [0, PRIME), and result * b is congruent to a whenever b is not 0 mod PRIME |
| Field.ExtGcd | party2_electric_boogaloo.py:101 | extended Euclid: the returned g is a positive common divisor of a and b with Bezout coefficients g == a*x + b*y |
| Shamir.CalcPoly | party2_electric_boogaloo.py:108-109 | calc_poly lies in [0, PRIME) |
| Shamir.SecretAtZero | party2_electric_boogaloo.py:108-109 | the sharing polynomial at 0 is the secret coeff[0] mod PRIME |
| Shamir.RecAcc | party2_electric_boogaloo.py:99-101 | the inner-loop accumulator of calc_recombination_vector stays in [0, PRIME) |
| Shamir.EntryIsLambda | party2_electric_boogaloo.py:97-102 | entry i of the vector for parties 1..n is congruent to the Lagrange coefficient (-1)^(i-1) C(n, i) at 0 |
| Shamir.VectorSize | party2_electric_boogaloo.py:97-102 | the recombination vector of size n has exactly the keys 1..n |
| Shamir.Recombine | party2_electric_boogaloo.py:83-86 | sum(values[i] * vec[i] for i in 1..len(vec)) % PRIME lies in [0, PRIME) |
| Shamir.LagrangeExact | party2_electric_boogaloo.py:97-102 | over the integers, the Lagrange coefficients of the points 1..n rebuild the constant term of every polynomial with at most n coefficients |
| Shamir.Lagrange | party2_electric_boogaloo.py:135-139 | recombining the shares calc_poly(i, coeff) of parties 1..size with the size vector gives coeff[0] mod PRIME whenever len(coeff) <= size < PRIME |
| Shamir.RecombineWithLambda | party2_electric_boogaloo.py:82-86 | any vector whose entries are congruent to the Lagrange coefficients recombines shares of a polynomial to its constant term |
| Shamir.AddShares | party2_electric_boogaloo.py:58-61 | pointwise add of two share maps is defined on the common parties |
| Shamir.RecombineLinear | party2_electric_boogaloo.py:58-61 | recombining pointwise added shares is the field sum of the two recombinations, for every vector (why ADD gates need no messages) |
| Combinatorics.Vanish | party2_electric_boogaloo.py:97-102 | the alternating binomial sums sum_i (-1)^i C(n, i) (i + c)^k vanish for k < n: the identity behind Lagrange interpolation at 0 |
| Bgw.Broadcast | party2_electric_boogaloo.py:34-37 | sharing a polynomial sends exactly one message per party 1..n |
| Bgw.BroadcastAt | party2_electric_boogaloo.py:122-125 | the message to party d is (d, tag, calc_poly(d, coeff)), in destination order |
| Bgw.AnnounceAt | party2_electric_boogaloo.py:72-73 | announcing sends (d, tag, value) to each party d in order |
| Bgw.Received | party2_electric_boogaloo.py:129-132 | the received shares are keyed exactly by the parties 1..n |
| Bgw.InputShares | party2_electric_boogaloo.py:41-44 | the input shares are keyed exactly by 1..N_INPUTS |
| Bgw.BroadcastRecombines | party2_electric_boogaloo.py:119-139 | whatever parties 1..size receive from one broadcast recombines to the shared value mod PRIME |
| Shamir.PolyMul | party2_electric_boogaloo.py:114-119 | the product of two sharing polynomials has len(f) + len(g) - 1 coefficients and constant term f[0] * g[0], the product of the two secrets |
| Shamir.PolyMulValue | party2_electric_boogaloo.py:108-109 | at every point, the product polynomial evaluates to the product of the two evaluations |
| Shamir.ShareProduct | party2_electric_boogaloo.py:114-115 | mul of two shares calc_poly(x, f) and calc_poly(x, g) is the share calc_poly(x, f * g) of the product polynomial |
| Shamir.ProductsRecombine | party2_electric_boogaloo.py:135-139 | the products of the shares of parties 1..size recombine to mul(f[0], g[0]) once size >= len(f) + len(g) - 1, hence 2*DEGREE+1 parties for two sharings of degree DEGREE |
| Bgw.ReducedValue | party2_electric_boogaloo.py:135-139 | the weighted sum over p of vec[p] times the value of reshare(p) at x is the value at x of one polynomial, Reduced, the same weighted sum of coefficient lists |
| Bgw.ConstantIsRecombined | party2_electric_boogaloo.py:135-139 | the constant term of Reduced is, mod PRIME, the recombination of the constant terms of the re-sharing polynomials |
| Bgw.WeightedShare | party2_electric_boogaloo.py:129-139 | when each p in 1..size sent me its share of reshare(p), me's recombination of what it received is its share of Reduced |
| Bgw.ReductionSecret | party2_electric_boogaloo.py:113-141 | when parties 1..2d+1 each re-share the product of their shares of f and g, the constant term of Reduction is mul(f[0], g[0]) |
| Bgw.ReductionShare | party2_electric_boogaloo.py:129-139 | what party me recombines from the shares of parties 1..2d+1 is its share calc_poly(me, Reduction) of one polynomial of d + 1 coefficients, the same for every me |
| Bgw.DegreeReduction | party2_electric_boogaloo.py:113-141 | degree reduction: the values multiply returns at the parties are shares of one polynomial of DEGREE + 1 coefficients whose constant term is mul of the two secrets |
| Bgw.ReceivedRecombines | party2_electric_boogaloo.py:135-139 | when parties 1..size sent shares of one polynomial, the recombination of what is received is its constant term |
| Bgw.Write | party2_electric_boogaloo.py:57 | results[dest][slot] = v sets that slot and no other slot of any gate |
| Bgw.RecombineReceived | party2_electric_boogaloo.py:135-139 | recombining the received shares of parties 1..size gives a field element |
| Bgw.RaisedStays | party2_electric_boogaloo.py:51-66 | once a gate raises, later gates change nothing: the exception ends step two |
| Bgw.OperandsReady | party2_electric_boogaloo.py:58-63 | an ADD/MUL gate of a wired circuit finds both its inputs set once the earlier gates ran |
| Bgw.RunReady | party2_electric_boogaloo.py:51-65 | on a wired circuit, every prefix of step two leaves no exception and a value in every slot fed so far |
| Bgw.WiredEvaluates | party2_electric_boogaloo.py:51-66 | on a wired circuit of INP/ADD/MUL gates with a share per INP gate, step two returns a value for results[OUTPUT_GATE][1] |
| Bgw.WiredInputs | party2_electric_boogaloo.py:9 | in a wired circuit the INP gates have ids 1..N_INPUTS, so step one's shares cover them |
| Bgw.Party.constructor | party2_electric_boogaloo.py:10 | a party starts with nothing sent and an empty recombination-vector cache |
| Bgw.Party.CalcRecombinationVector | party2_electric_boogaloo.py:93-105 | returns the recombination vector of that size; the cache then holds it at size and no other entry changes; a cached size leaves the cache unchanged |
| Bgw.ComputeVector | party2_electric_boogaloo.py:97-102 | the nested loops build the entries 1..size of the recombination vector |
| Bgw.EntryProduct | party2_electric_boogaloo.py:99-101 | the inner loop computes the product of div(j, j - i) over j in 1..size, j != i |
| Bgw.VectorUpToAll | party2_electric_boogaloo.py:98-102 | entries added one by one form the comprehension over 1..k |
| Bgw.Party.ShareOut | party2_electric_boogaloo.py:34-37 | the sent log grows by one share per party 1..N_PARTIES, in order |
| Bgw.Party.BgwStepOne | party2_electric_boogaloo.py:26-47 | a party with party_no <= N_INPUTS sends shares of [private_value] + coeffs tagged party_no, any other party sends nothing; the returned shares are receive_share(p, p) for p in 1..N_INPUTS |
| Bgw.Party.Multiply | party2_electric_boogaloo.py:113-141 | re-shares mul(a, b) with a polynomial of degree DEGREE (DEGREE random coefficients), one message per party tagged src_gate, and returns the recombination of parties 1..2*DEGREE+1's shares |
| Bgw.Party.EvalGate | party2_electric_boogaloo.py:53-65 | one pass of the loop, with DEGREE random coefficients per MUL gate: the new results, exception flag and sent log are those of Run after one more gate |
| Bgw.Party.EvalUntilRaised | party2_electric_boogaloo.py:53-65 | the loop over GATES runs gates in order and stops at the first that raises; results, raised and the sent log are those of Run over the gates that ran |
| Bgw.Party.EvalGates | party2_electric_boogaloo.py:52-65 | step two's evaluation, with DEGREE random coefficients per MUL gate: raised, results and the sent log are those of Run over all gates, since nothing changes after an exception |
| Bgw.Party.BgwStepTwo | party2_electric_boogaloo.py:51-66 | with DEGREE random coefficients per MUL gate, step two returns results[OUTPUT_GATE][1] of Run, or raises when Run raises or the slot is missing, and sends what Run sends |
| Bgw.Party.AnnounceOut | party2_electric_boogaloo.py:72-73 | the sent log grows by (d, tag, value) for each party d in order |
| Bgw.Party.BgwStepThree | party2_electric_boogaloo.py:70-89 | sends the result to every party tagged OUTPUT_GATE and returns the recombination of parties 1..DEGREE+1's output shares |
| Net.Subscriber.constructor | network.py:26-30 | a subscriber starts with an empty deque for every party and the whole socket unread |
| Net.Subscriber.Receive | network.py:34-45 | returns the head of sender's pending messages (queue first, then socket); sender loses it, every other sender's pending messages are unchanged, and the FIFO invariant is kept |
| Net.ReadUntilHead | network.py:39-44 | reading the socket until sender's message returns sender's first arriving message and consumes it |
| Net.ReadUntilOther | network.py:45 | messages read for other senders go to the back of their deque: nothing is dropped or reordered |
| Net.ReadUntilKeys | network.py:39-45 | reading the socket keeps the set of deques and leaves sender's own deque as it was |
| Net.ReadUntilSuffix | network.py:39-42 | reading consumes arrivals from the front: what remains is a proper suffix |
| Net.ReceiptPending | network.py:34-45 | receive returns the head of sender's pending messages, which then lose it; other senders' pending messages stay |
| Net.ReceiptFifo | network.py:30-45 | returned ++ queued ++ unread from each sender stays equal to what that sender sent, in order |
| Net.Network.constructor | network.py:52-63 | the share table starts as None for every party in ALL_PARTIES and gate 1..N_GATES+1, nothing sent |
| Net.EmptyRow | network.py:62 | a fresh row has exactly the gates 1..N_GATES+1, all None |
| Net.Network.SendShare | network.py:65-68 | publishes exactly (src_gate, share) to dest_party and leaves the table unchanged |
| Net.Network.ReceiveShare | network.py:70-81 | a stored share is returned without reading; otherwise src_party's messages are stored one by one until src_gate's, which is returned, and only that party's row changes |
| Net.Network.AwaitShare | network.py:76-81 | the loop of receive_share returns what Collect describes, and leaves other senders' pending messages alone |
| Net.FirstGate | network.py:76-79 | the position of the first pending message for a gate, with no earlier message for it |
| Net.CollectStore | network.py:76-81 | receive_share returns the first pending share for the gate, stores every message up to it, and leaves the rest pending |
| Net.CollectStored | network.py:73-81 | after receive_share the table holds the returned share, so asking again returns it without reading |
| Net.StoreKeeps | network.py:78 | storing messages never clears a table entry |
| Net.StoreOther | network.py:78 | storing messages for other gates leaves an entry unchanged |
| Net.HasGateTail | network.py:76-79 | a later message for the gate stays pending after a first message for another gate |
| Net.Interleaved | network.py:37-45 | party 2's message queued while waiting for party 3 is returned from the queue before the socket is read again |
| Net.OutOfOrder | network.py:73-81 | a share for gate 2 sent before gate 1's is stored while asking for gate 1 and then returned without reading |
| Circuit.Items | circuit2_electric_boogaloo.py:149 | on a well-formed dict, GATES.items() lists each key of the dict exactly once (no key twice, no key missing) with its gate, in insertion order |
| Circuit.PutItems | circuit2_electric_boogaloo.py:157-176 | `GATES[k] = g` keeps the dict well formed; a new key is listed last with g, and a key already present keeps its position and gets g, with every other item unchanged |
| Circuit.PutAllAppend | circuit2_electric_boogaloo.py:149-180 | assigning two batches of gates is assigning their concatenation |
| Circuit.PutAllFresh | circuit2_electric_boogaloo.py:155-180 | assigning the keys 1, 2, ... in order to an empty dict lists exactly those assignments |
| Circuit.GateTable.constructor | circuit2_electric_boogaloo.py:149 | GATES = {} is the empty dict |
| Circuit.GateTable.Assign | circuit2_electric_boogaloo.py:157 | one dict assignment is recorded |
| Circuit.GateTable.AssignFirstInputs | circuit2_electric_boogaloo.py:156-157 | the first loop assigns digit i to slot 1 of gate num_pv + i |
| Circuit.GateTable.AssignSecondInputs | circuit2_electric_boogaloo.py:163-164 | the powers of two go to slot 2 of gates num_pv + i |
| Circuit.GateTable.AssignMulGates | circuit2_electric_boogaloo.py:167-172 | the MUL gates feed the first ADD gate, then slot 2 of later ones |
| Circuit.GateTable.AssignAddGates | circuit2_electric_boogaloo.py:175-180 | each ADD gate feeds slot 1 of the next gate |
| Circuit.GateTable.CalcGates | circuit2_electric_boogaloo.py:151-180 | calc_gates makes exactly the assignments of its four loops and the last-digit gate |
| Circuit.GateTable.TreeLevel | circuit2_electric_boogaloo.py:63-70 | one level pairs its gates into the slots 1 and 2 of the next level's gates |
| Circuit.GateTable.Tree | circuit2_electric_boogaloo.py:60-71 | tree(next, n) assigns one level, then recurses with n // 2 |
| Wiring.CountInputs | party2_electric_boogaloo.py:9 | N_INPUTS is at most the number of gates |
| Wiring.CalcGatesAt | circuit2_electric_boogaloo.py:151-180 | calc_gates for n digits assigns the gates 1..4n-3 in order, gate k being the closed form GateAt(n, k) |
| Wiring.GateAtFeeds | circuit2_electric_boogaloo.py:10-12 | every converter gate feeds slot 1 or 2 of a later gate, the INP gates are exactly 1..2n-1, and SourceOf inverts the wiring |
| Wiring.SourceFeeds | circuit2_electric_boogaloo.py:167-180 | both slots of every MUL and ADD gate are fed by an earlier gate |
| Wiring.ConverterForward | circuit2_electric_boogaloo.py:10-12 | converter ids are consecutive from 1, inputs come first, every edge goes forward, and the last gate feeds (N_GATES+1, 1) |
| Wiring.ConverterFedOnce | circuit2_electric_boogaloo.py:151-180 | no (dest, slot) of the converter is fed twice |
| Wiring.ConverterFedBoth | circuit2_electric_boogaloo.py:151-180 | every converter ADD/MUL gate is fed on both slots by earlier gates |
| Wiring.ConverterWired | circuit2_electric_boogaloo.py:151-180 | the converter is wired for in-order evaluation and has 2n-1 INP gates |
| Wiring.CountInputsPrefix | party2_electric_boogaloo.py:9 | when exactly the first m gates are INP, N_INPUTS is m |
| Wiring.ConverterItems | circuit2_electric_boogaloo.py:149-182 | the dict calc_gates fills, listed in iteration order, is the converter |
| Wiring.OneDigitTable | circuit2_electric_boogaloo.py:103-105 | calc_gates for 1 digit reproduces GATES_1_DIGIT |
| Wiring.ThreeDigitTable | circuit2_electric_boogaloo.py:117-129 | calc_gates for 3 digits reproduces GATES_3_DIGIT |
| Wiring.FourDigitTable | circuit2_electric_boogaloo.py:131-147 | calc_gates for 4 digits reproduces GATES_4_DIGIT |
| Wiring.LevelAt | circuit2_electric_boogaloo.py:66-70 | gate next + i of a level feeds slot i % 2 + 1 of gate next + n + i / 2 |
| Wiring.TreeStep | circuit2_electric_boogaloo.py:60-71 | a level in front of a well-wired block of half the size gives a well-wired block |
| Wiring.TreeShape | circuit2_electric_boogaloo.py:60-71 | tree(next, 2^m) generates a well-wired block of 2^(m+1) - 1 gates |
| Wiring.TreeWiredCircuit | circuit2_electric_boogaloo.py:73 | a well-wired block from gate 1 is wired for evaluation with n inputs |
| Wiring.TreeCircuit | circuit2_electric_boogaloo.py:60-73 | tree(1, 2^m) yields 2^(m+1) - 1 gates, the first 2^m INP and the rest MUL, wired, with output wire 2^(m+1) |
| CircuitConfig.PrivateValues | circuit2_electric_boogaloo.py:92-94 | the comprehension and loop build PRIVATE_VALUES |
| CircuitConfig.PrivateValuesShape | circuit2_electric_boogaloo.py:92-94 | PRIVATE_VALUES has keys 1..2n-1, the digits in order, then 2^(n-i) at key n + i |
| CircuitConfig.Function | circuit2_electric_boogaloo.py:96-101 | function(x) returns the digit-weighted sum mod PRIME, in [0, PRIME) |
| CircuitConfig.DigitSumIsPrefixValue | circuit2_electric_boogaloo.py:99-100 | after m steps the accumulator is the value of the first m digits times 2^(n-m) |
| CircuitConfig.ReferenceIsBinaryValue | circuit2_electric_boogaloo.py:96-101 | on PRIVATE_VALUES, function returns the binary value of INPUT, most significant digit first, mod PRIME |
| CircuitConfig.InputExamples | circuit2_electric_boogaloo.py:85-87 | (1,1,0,0,1,1,0,1) denotes 205, and the commented inputs denote 22 and 6 |
| CircuitConfig.ConverterParameters | circuit2_electric_boogaloo.py:194-195 | the converter passes both asserts exactly for 3 to 50001 digits |
| CircuitConfig.TreeParameters | circuit2_electric_boogaloo.py:194-195 | the product tree with 2^3 inputs passes both asserts |
| CircuitConfig.ConverterSizes | circuit2_electric_boogaloo.py:189-190 | N_GATES = 4n - 3 and N_PARTIES = 2n - 1 for n digits |
| CircuitConfig.LoadConverter | circuit2_electric_boogaloo.py:85-195 | loading CIRCUIT 3 gives PRIVATE_VALUES, a wired GATES with as many INP gates as parties, and FUNCTION_RESULT = binary value of INPUT mod PRIME |
| CircuitConfig.LoadProductTree | circuit2_electric_boogaloo.py:58-73 | loading CIRCUIT 2 gives a wired GATES of 15 gates with 8 INP gates |
| Legacy.Zeroed | party.py:67-71 | the allocated slot array is n zeroed triples |
| Legacy.Padded | party.py:37-39 | [0] then receive_share(p, tag) for p in 1..N_PARTIES, padding at index 0 |
| Legacy.PaddedInputs | party.py:24-26 | [0] then receive_share(p, p) for each party, padding at index 0 |
| Legacy.Put | party.py:80 | outputs[d][s] = v sets that slot and no other |
| Legacy.GateStep | party.py:74-84 | ZER changes nothing; INP writes shares[i], ADD writes add(outputs[i][1], outputs[i][2]); no other slot changes; only MUL sends |
| Legacy.OutputSlot | party.py:85 | outputs[o][1] with Python indexing: a value exactly when -len < o < len and o != 0 (row 0 is the integer 0, out of range raises), counting a negative o from the end |
| Legacy.Evaluate | party.py:66-84 | the slot array keeps len(GATES) + 2 rows of three slots |
| Legacy.ExactRecombination | party.py:45-58 | recombination computed without rounding lies in [0, PRIME) |
| Legacy.ExactReadsPrefix | party.py:55-56 | recombination with degree d reads only values[1..d+1] |
| Legacy.ExactIsVector | party.py:45-58 | exact recombination equals party2's vector recombination on the same shares |
| Legacy.ExactIsReceived | party.py:102-106 | exact recombination of the received list is party2's recombination of the received map |
| Legacy.VectorIsLambda | party2_electric_boogaloo.py:97-102 | the vector of size n has n entries, each congruent to its Lagrange coefficient |
| Legacy.ExactRecombines | party.py:45-58 | exact recombination of the shares of a polynomial with at most d + 1 coefficients is its constant term mod PRIME |
| Legacy.GetPolyValue | party.py:60-64 | get_poly_value equals party2's calc_poly and lies in [0, PRIME) |
| Legacy.Coefficients | party.py:13-15 | DEGREE + 1 coefficients, the secret first and every other in [0, PRIME - 1] |
| Legacy.LegacyParty.constructor | party.py:8-10 | a party starts with nothing sent |
| Legacy.LegacyParty.ShareOut | party.py:17-21 | one share get_poly_value(coefficients, d) per party d, tagged, in order |
| Legacy.LegacyParty.Announce | party.py:33-34 | the result to every party, tagged output_gate_no, in order |
| Legacy.LegacyParty.ReceiveAll | party.py:37-39 | the output shares of every party, padded at index 0 |
| Legacy.LegacyParty.ReceiveInputs | party.py:24-26 | the input share of every party, tagged with its number, padded at index 0 |
| Legacy.LegacyParty.SplitShare | party.py:87-94 | re-shares mult_secret with DEGREE random coefficients, one message per party tagged src_gate |
| Legacy.LegacyParty.Multiply | party.py:96-106 | re-shares mul(a, b) tagged src_gate and returns recombination of every party's shares with degree 2*DEGREE |
| Legacy.LegacyParty.AllocateOutputs | party.py:67-71 | the first loop allocates len(GATES) + 2 zeroed triples |
| Legacy.LegacyParty.EvalGate | party.py:74-84 | one iteration of the loop moves the slot array and sent log to Evaluate after one more gate |
| Legacy.LegacyParty.EvaluateGates | party.py:66-85 | returns outputs[output_gate_no][1] of Evaluate over all gates as OutputSlot reads it, None where that read raises, and sends what Evaluate sends |
| Legacy.LegacyParty.BgwProtocol | party.py:8-42 | sends input shares tagged party_no, the re-sharing messages and the result tagged output_gate_no, then returns recombination of the output shares with degree DEGREE; None, with only the messages sent so far, when GATES is empty or the read of the output row raises |
| Variants.WiredFits | party.py:74-84 | a wired circuit with fewer INP gates than list entries indexes party.py's slot array and share list in range |
| Variants.InputSharesMatch | party.py:24-26 | party2's input-share map and party.py's padded list hold the same share for every INP gate |
| Variants.OperandsAgree | party.py:81-84 | in agreement, the operands party2 reads are party.py's slots 1 and 2 of the gate |
| Variants.StepWrites | party2_electric_boogaloo.py:56-63 | party2's step writes the gate's value to its slot and sends only the MUL re-sharing |
| Variants.GateStepWrites | party.py:79-84 | with exact recombination, party.py's step writes the same value and sends the same messages as party2's |
| Variants.AgreeNext | party2_electric_boogaloo.py:54-55 | since no slot is fed twice, writing the same value in both variants extends agreement by one gate |
| Variants.RunWrites | party2_electric_boogaloo.py:53-63 | party2 on gate k writes the common value and sends the common messages |
| Variants.EvaluateWrites | party.py:74-84 | party.py on gate k writes the common value and sends the common messages |
| Variants.AgreeStep | party.py:74-84 | one gate of a wired circuit keeps the variants in agreement |
| Variants.AgreeStart | party.py:67-71 | both variants start in agreement |
| Variants.RunAgrees | party.py:74-84 | every prefix of a wired circuit keeps the two variants in agreement |
| Variants.VariantsAgree | party.py:29-30 | on a wired INP/ADD/MUL circuit with exact recombination, output_gate_no is OUTPUT_GATE, party2's step two returns party.py's evaluate_gates result, and both send the same messages |

## Left out

- ZeroMQ: `Publisher`, the socket setup and framing, `LOCAL_PORT` and the `time.sleep` synchronisation (network.py:13-32, 54-60). The socket is a sequence of `(sender, message)` arrivals consumed from the front. The publisher is a log of `(destination, message)` pairs.
- Blocking: both `while True` loops of network.py run only when a matching message is still to arrive (a precondition). A receive that would block forever is not modelled.
- In the party models, `receive_share` is a fixed function of sender and tag, so the buffering of `Net` is not composed with `Bgw` or `Legacy`. `send_share` is a log.
- Randomness: `randint`, `random.randint`, `random.seed` and `NO_RANDOM`. The coefficients are parameters. Statistical privacy of the shares is not stated.
- `modprime`, `log`, `print`, `debug` and `write` are not part of this model. `add`, `mul` and `div` are given explicit modular contracts. The logging and printing calls are left out, and so is the `write` call of step two's else branch for an unknown gate kind, which only logs.
- Legacy.LegacyParty.Multiply: party.py's `recombination` divides with floating point. Its result is taken as a fixed function `recombine(values, degree)`, so the contracts say what is passed to it and not what it returns. ExactRecombination models its value without rounding. The agreement with party2 (VariantsAgree) holds only when `recombine` computes that value.
- Legacy.LegacyParty.BgwProtocol: returns `recombine` of the output shares, for the same reason.
- The `circuit` module party.py imports is not part of this model. N_PARTIES, DEGREE, GATES and ZER are the party's constants, and GATES is any sequence of gates.
- Python list indexing in `evaluate_gates`' gate loop: negative indices wrap, and out-of-range indices raise IndexError. The model requires every gate to fit the slot array (`Legacy.AllFit`), which a wired circuit meets (`Variants.WiredFits`).
- `outputs[0]` of `evaluate_gates` is the integer 0 in party.py. It is a zeroed triple in the model. No gate writes to it under `AllFit`, and the final read `outputs[output_gate_no][1]` goes through `Legacy.OutputSlot`, which gives None (TypeError) for row 0.
- The `CIRCUIT == 1` table, the commented `GATES_2_DIGIT` table, and the product tree's `PRIVATE_VALUES` and `function` (circuit2_electric_boogaloo.py:14-38, 51-56, 107-115) are plain data or outside the converter. Of CIRCUIT 2 only `tree` is modelled.
- Concurrency: several party processes, and their interleaving. One party's sequential steps are modelled.
- Bgw.Party.BgwStepThree: step two returns None when no gate writes slot 1 of OUTPUT_GATE (party2_electric_boogaloo.py:20-21, 66), and step three then broadcasts None (lines 72-73). The sent log holds integer shares, so this case is not modelled and the result is taken as an int.
- Bgw.DegreeReduction: the re-sharing polynomials of the other parties and what party me receives are parameters. The lemma is not composed with a run of `Party.Multiply` at every party, since one party is modelled.
- Bgw.Party.BgwStepTwo: an INP gate whose key has no share, or an ADD/MUL gate with an input still None, raises in Python (KeyError, TypeError). The model collapses every such exception into `Raised`.
- The size of `PRIME` relative to the parties is assumed (`nParties < PRIME`), as the asserts of circuit2_electric_boogaloo.py:194-195 demand. For the converter, CircuitConfig.ConverterParameters shows when they hold.
