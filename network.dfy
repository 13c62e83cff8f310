/**
 * network.py: the receiving side of the transport. A Subscriber reads
 * (sender, message) pairs from its socket in arrival order and keeps a FIFO
 * queue per sender for messages that arrive before they are asked for; a
 * Network keeps a (party, gate) table of received shares that is never
 * cleared, and a log of the shares it publishes.
 *
 * The socket is the sequence of messages that will arrive, consumed from
 * the front; the publisher is the log of (destination, message) pairs sent.
 */
module Net {
  import opened Optional
  import opened Shamir

  /** A share message: (gate, share). */
  type Msg = (int, int)

  /** A message as it arrives: (sender, message). */
  type Arrival = (int, Msg)

  /** The messages from sender s among the arrivals, in order. */
  function MsgsFrom(a: seq<Arrival>, s: int): (r: seq<Msg>)
    ensures |r| <= |a|
  {
    if |a| == 0 then []
    else if a[0].0 == s then [a[0].1] + MsgsFrom(a[1..], s)
    else MsgsFrom(a[1..], s)
  }

  class Subscriber {
    /** The messages each known sender sent that arrived before they were asked for. */
    var queues: map<int, seq<Msg>>
    /** The messages still to arrive on the socket. */
    var arrivals: seq<Arrival>
    /** Everything the socket delivers, from the start. */
    ghost const stream: seq<Arrival>
    /** What `receive` has returned so far, per sender. */
    ghost var returned: map<int, seq<Msg>>

    /**
     * Every arrival comes from a known sender, and for every sender what was
     * returned, then what is queued, then what is still to arrive is exactly
     * what it sent, in order.
     */
    ghost predicate Valid()
      reads this
    {
      Fifo(queues, arrivals, returned, stream)
    }

    /** Subscriber(party_no): an empty deque for every party in ALL_PARTIES = 1..nParties. */
    constructor (nParties: nat, socket: seq<Arrival>)
      requires forall j :: 0 <= j < |socket| ==> 1 <= socket[j].0 <= nParties
      ensures Valid()
      ensures queues == (map p | p in Interval(nParties) :: []) && arrivals == socket && stream == socket
    {
      queues := map p | p in Interval(nParties) :: [];
      arrivals := socket;
      stream := socket;
      returned := map p | p in Interval(nParties) :: [];
    }

    /**
     * receive(sender): the head of sender's queue if it has one; otherwise
     * read arrivals, queueing those of other senders, until one from sender
     * comes, which is returned and not queued.
     */
    method Receive(sender: int) returns (msg: Msg)
      requires Valid() && sender in queues && PendingIn(queues, arrivals, sender) != []
      modifies this
      ensures Valid() && queues.Keys == old(queues).Keys
      ensures (msg, queues, arrivals) == Receipt(old(queues), old(arrivals), sender)
      ensures msg == PendingIn(old(queues), old(arrivals), sender)[0]
      ensures PendingIn(queues, arrivals, sender) == PendingIn(old(queues), old(arrivals), sender)[1..]
      ensures forall p :: p in queues && p != sender ==> PendingIn(queues, arrivals, p) == PendingIn(old(queues), old(arrivals), p)
      ensures returned == old(returned)[sender := old(returned)[sender] + [msg]]
    {
      ghost var q0, a0, r0 := queues, arrivals, returned;
      ReceiptPending(q0, a0, sender);
      ReceiptFifo(q0, a0, r0, stream, sender);
      if queues[sender] != [] {
        msg := queues[sender][0];
        queues := queues[sender := queues[sender][1..]];
      } else {
        // The socket and the deques, read and updated locally, then stored back.
        var q, a := queues, arrivals;
        while true
          invariant sender in q && Known(a, q) && MsgsFrom(a, sender) != []
          invariant ReadUntil(q, a, sender) == ReadUntil(q0, a0, sender)
          decreases |a|
        {
          var (msgSender, m) := a[0];
          if msgSender == sender {
            msg := m;
            queues, arrivals := q, a[1..];
            break;
          }
          q := q[msgSender := q[msgSender] + [m]];
          a := a[1..];
        }
      }
      returned := returned[sender := returned[sender] + [msg]];
    }
  }

  /**
   * Network(party_no): the publisher, the subscriber, and the table of shares
   * received, shares[p][g] for every party p and gate g in 1..nGates+1,
   * initially all None.
   */
  class Network {
    /** What the publisher has sent: (destination party, (gate, share)). */
    var sent: seq<(int, Msg)>
    /** shares[p][g]: the share received from party p for gate g, if any. */
    var shares: map<int, map<int, Option<int>>>
    const subscriber: Subscriber

    ghost predicate Valid()
      reads this, subscriber
    {
      subscriber.Valid() && shares.Keys == subscriber.queues.Keys
    }

    constructor (nParties: nat, nGates: nat, socket: seq<Arrival>)
      requires forall j :: 0 <= j < |socket| ==> 1 <= socket[j].0 <= nParties
      ensures Valid() && fresh(subscriber)
      ensures sent == [] && shares == (map p | p in Interval(nParties) :: EmptyRow(nGates))
      ensures subscriber.queues == (map p | p in Interval(nParties) :: []) && subscriber.arrivals == socket
    {
      sent := [];
      shares := map p | p in Interval(nParties) :: EmptyRow(nGates);
      subscriber := new Subscriber(nParties, socket);
    }

    /** send_share(share, src_gate, dest_party): publish (src_gate, share) to dest_party. */
    method SendShare(share: int, srcGate: int, destParty: int)
      modifies this
      ensures sent == old(sent) + [(destParty, (srcGate, share))]
      ensures shares == old(shares)
    {
      sent := sent + [(destParty, (srcGate, share))];
    }

    /**
     * receive_share(src_party, src_gate): the share already in the table, or
     * else receive srcParty's messages one by one, storing each in the table,
     * until the one for srcGate has been stored. Messages for other gates
     * stay in the table for later calls.
     */
    method ReceiveShare(srcParty: int, srcGate: int) returns (share: int)
      requires Valid() && srcParty in shares && srcGate in shares[srcParty]
      requires shares[srcParty][srcGate] == None ==>
        HasGate(PendingIn(subscriber.queues, subscriber.arrivals, srcParty), srcGate)
      modifies this, subscriber
      ensures Valid() && sent == old(sent) && subscriber.queues.Keys == old(subscriber.queues).Keys
      ensures old(shares)[srcParty][srcGate] != None ==>
        && share == old(shares)[srcParty][srcGate].value
        && shares == old(shares)
        && subscriber.queues == old(subscriber.queues) && subscriber.arrivals == old(subscriber.arrivals)
      ensures old(shares)[srcParty][srcGate] == None ==>
        var (s, row, rest) := Collect(old(shares)[srcParty], PendingIn(old(subscriber.queues), old(subscriber.arrivals), srcParty), srcGate);
        && share == s
        && shares == old(shares)[srcParty := row]
        && PendingIn(subscriber.queues, subscriber.arrivals, srcParty) == rest
      ensures forall p :: p in subscriber.queues && p != srcParty ==>
        PendingIn(subscriber.queues, subscriber.arrivals, p) == PendingIn(old(subscriber.queues), old(subscriber.arrivals), p)
    {
      if shares[srcParty][srcGate] != None {
        return shares[srcParty][srcGate].value;
      }
      var row;
      share, row := AwaitShare(srcParty, srcGate, shares[srcParty]);
      shares := shares[srcParty := row];
    }

    /**
     * The loop of receive_share, on srcParty's row of the table (updated
     * locally and stored back by the caller): store each of srcParty's
     * messages in the row until the one for srcGate is stored.
     */
    method AwaitShare(srcParty: int, srcGate: int, row0: map<int, Option<int>>) returns (share: int, row: map<int, Option<int>>)
      requires subscriber.Valid() && srcParty in subscriber.queues && srcGate in row0 && row0[srcGate] == None
      requires HasGate(PendingIn(subscriber.queues, subscriber.arrivals, srcParty), srcGate)
      modifies subscriber
      ensures subscriber.Valid() && subscriber.queues.Keys == old(subscriber.queues).Keys
      ensures (share, row, PendingIn(subscriber.queues, subscriber.arrivals, srcParty))
        == Collect(row0, PendingIn(old(subscriber.queues), old(subscriber.arrivals), srcParty), srcGate)
      ensures forall p :: p in subscriber.queues && p != srcParty ==>
        PendingIn(subscriber.queues, subscriber.arrivals, p) == PendingIn(old(subscriber.queues), old(subscriber.arrivals), p)
    {
      row := row0;
      ghost var q0, a0 := subscriber.queues, subscriber.arrivals;
      ghost var pending := PendingIn(q0, a0, srcParty);
      ghost var goal := Collect(row, pending, srcGate);
      while true
        invariant subscriber.Valid() && subscriber.queues.Keys == q0.Keys
        invariant srcGate in row && row[srcGate] == None
        invariant pending == PendingIn(subscriber.queues, subscriber.arrivals, srcParty)
        invariant HasGate(pending, srcGate) && Collect(row, pending, srcGate) == goal
        invariant forall p :: p in subscriber.queues && p != srcParty ==>
          PendingIn(subscriber.queues, subscriber.arrivals, p) == PendingIn(q0, a0, p)
        decreases |pending|
      {
        CollectStep(row, pending, srcGate);
        var msg := subscriber.Receive(srcParty);
        assert msg == pending[0];
        var (msgGate, msgShare) := msg;
        row := row[msgGate := Some(msgShare)];
        if row[srcGate] != None {
          share := row[srcGate].value;
          assert (share, row, pending[1..]) == goal;
          return;
        }
        pending := pending[1..];
      }
    }
  }

  /**
   * One step of `receive_share`: storing the first pending message either
   * stores g's share, which ends the loop, or leaves the same result to come.
   */
  lemma CollectStep(row: map<int, Option<int>>, ms: seq<Msg>, g: int)
    requires HasGate(ms, g) && g in row && row[g] == None
    ensures var row' := row[ms[0].0 := Some(ms[0].1)];
      && g in row'
      && (row'[g] != None ==> Collect(row, ms, g) == (ms[0].1, row', ms[1..]))
      && (row'[g] == None ==> HasGate(ms[1..], g) && Collect(row', ms[1..], g) == Collect(row, ms, g))
  {
    if ms[0].0 != g {
      HasGateTail(ms, g);
    }
  }

  /** A row of the share table: None for every gate in 1..nGates+1. */
  function EmptyRow(nGates: nat): (row: map<int, Option<int>>)
    ensures forall g :: g in row <==> 1 <= g <= nGates + 1
    ensures forall g :: g in row ==> row[g] == None
  {
    var gates := Interval(nGates + 1);
    map g | g in gates :: None
  }

  /** Some message in ms is for gate g. */
  predicate HasGate(ms: seq<Msg>, g: int)
  {
    exists i :: 0 <= i < |ms| && ms[i].0 == g
  }

  /** A message for gate g after a first message that is not for g is in the rest. */
  lemma HasGateTail(ms: seq<Msg>, g: int)
    requires HasGate(ms, g) && ms[0].0 != g
    ensures HasGate(ms[1..], g)
  {
    var i :| 0 <= i < |ms| && ms[i].0 == g;
    assert ms[1..][i - 1].0 == g;
  }

  /** The position of the first message in ms for gate g. */
  function FirstGate(ms: seq<Msg>, g: int): (k: nat)
    requires HasGate(ms, g)
    ensures k < |ms| && ms[k].0 == g
    ensures forall j :: 0 <= j < k ==> ms[j].0 != g
  {
    if ms[0].0 == g then 0
    else
      HasGateTail(ms, g);
      1 + FirstGate(ms[1..], g)
  }

  /** The table row after storing the messages ms in order: a later share for a gate overwrites an earlier one. */
  function Store(row: map<int, Option<int>>, ms: seq<Msg>): map<int, Option<int>>
    decreases |ms|
  {
    if ms == [] then row
    else Store(row[ms[0].0 := Some(ms[0].1)], ms[1..])
  }

  /**
   * The loop of `receive_share` as a function of the row for the party and
   * its pending messages: store messages until the one for gate g is stored;
   * the share for g, the row, and the messages still pending.
   */
  function Collect(row: map<int, Option<int>>, ms: seq<Msg>, g: int): (int, map<int, Option<int>>, seq<Msg>)
    requires HasGate(ms, g)
    decreases |ms|
  {
    if ms[0].0 == g then (ms[0].1, row[g := Some(ms[0].1)], ms[1..])
    else
      HasGateTail(ms, g);
      Collect(row[ms[0].0 := Some(ms[0].1)], ms[1..], g)
  }

  /**
   * What the loop of `receive_share` does, stated without the loop: it
   * returns the share of the first pending message for g, and has stored
   * every pending message up to and including that one; the rest stay pending.
   */
  lemma {:induction false} CollectStore(row: map<int, Option<int>>, ms: seq<Msg>, g: int)
    requires HasGate(ms, g)
    ensures var k := FirstGate(ms, g);
      Collect(row, ms, g) == (ms[k].1, Store(row, ms[..k + 1]), ms[k + 1..])
    decreases |ms|
  {
    if ms[0].0 != g {
      HasGateTail(ms, g);
      var row1 := row[ms[0].0 := Some(ms[0].1)];
      CollectStore(row1, ms[1..], g);
      var k := FirstGate(ms, g);
      assert k == 1 + FirstGate(ms[1..], g);
      assert ms[..k + 1][1..] == ms[1..][..k];
      assert ms[1..][k..] == ms[k + 1..];
    } else {
      assert ms[..1][1..] == [];
    }
  }

  /** After `receive_share` the table holds the share it returned, so asking again returns it without reading. */
  lemma {:induction false} CollectStored(row: map<int, Option<int>>, ms: seq<Msg>, g: int)
    requires HasGate(ms, g)
    ensures g in Collect(row, ms, g).1 && Collect(row, ms, g).1[g] == Some(Collect(row, ms, g).0)
    decreases |ms|
  {
    if ms[0].0 != g {
      HasGateTail(ms, g);
      CollectStored(row[ms[0].0 := Some(ms[0].1)], ms[1..], g);
    }
  }

  /** Storing messages never clears an entry of the table: a share once received stays. */
  lemma {:induction false} StoreKeeps(row: map<int, Option<int>>, ms: seq<Msg>, g: int)
    requires g in row && row[g] != None
    ensures g in Store(row, ms) && Store(row, ms)[g] != None
    decreases |ms|
  {
    if ms != [] {
      StoreKeeps(row[ms[0].0 := Some(ms[0].1)], ms[1..], g);
    }
  }

  /** Storing messages none of which is for gate g leaves g's entry as it was. */
  lemma {:induction false} StoreOther(row: map<int, Option<int>>, ms: seq<Msg>, g: int)
    requires g in row && !HasGate(ms, g)
    ensures g in Store(row, ms) && Store(row, ms)[g] == row[g]
    decreases |ms|
  {
    if ms != [] {
      StoreOther(row[ms[0].0 := Some(ms[0].1)], ms[1..], g);
    }
  }

  /**
   * Interleaved delivery at party 1 of 3: party 2's first message arrives
   * before party 3's. Receiving from 3 queues party 2's message; the next
   * receive from 2 takes it from the queue, the one after reads the socket.
   */
  method Interleaved() returns (first: Msg, second: Msg, third: Msg)
    ensures first == (1, 30) && second == (2, 20) && third == (1, 10)
  {
    var sub := new Subscriber(3, [(2, (2, 20)), (3, (1, 30)), (2, (1, 10))]);
    assert PendingIn(sub.queues, sub.arrivals, 3) == [(1, 30)];
    first := sub.Receive(3);
    assert PendingIn(sub.queues, sub.arrivals, 2) == [(2, 20), (1, 10)];
    second := sub.Receive(2);
    third := sub.Receive(2);
  }

  /**
   * Out-of-order delivery at party 1 of 2: party 2 sends its gate-2 share
   * before its gate-1 share. Asking for gate 1 reads both and stores the
   * gate-2 share, which asking for gate 2 then finds without reading.
   */
  method OutOfOrder() returns (first: int, second: int)
    ensures first == 10 && second == 20
  {
    var net := new Network(2, 2, [(2, (2, 20)), (2, (1, 10))]);
    ghost var fromTwo := [(2, 20), (1, 10)];
    assert PendingIn(net.subscriber.queues, net.subscriber.arrivals, 2) == fromTwo;
    assert HasGate(fromTwo, 1) by { assert fromTwo[1].0 == 1; }
    ghost var row := net.shares[2];
    assert Collect(row, fromTwo, 1) == (10, row[2 := Some(20)][1 := Some(10)], []) by {
      assert fromTwo[1..] == [(1, 10)] && [(1, 10)][1..] == [];
      assert Collect(row, fromTwo, 1) == Collect(row[2 := Some(20)], [(1, 10)], 1);
    }
    first := net.ReceiveShare(2, 1);
    second := net.ReceiveShare(2, 2);
  }

  /** Every arrival comes from a sender that has a deque. */
  predicate Known(a: seq<Arrival>, q: map<int, seq<Msg>>)
  {
    forall j :: 0 <= j < |a| ==> a[j].0 in q
  }

  /** The messages from s not yet returned, given the deques q and the arrivals still to come a. */
  function PendingIn(q: map<int, seq<Msg>>, a: seq<Arrival>, s: int): seq<Msg>
    requires s in q
  {
    q[s] + MsgsFrom(a, s)
  }

  /**
   * The loop of `receive` as a function of the deques and the arrivals: the
   * first message from sender, and the deques and arrivals it leaves.
   */
  function ReadUntil(q: map<int, seq<Msg>>, a: seq<Arrival>, sender: int): (r: (Msg, map<int, seq<Msg>>, seq<Arrival>))
    requires sender in q && Known(a, q) && MsgsFrom(a, sender) != []
    decreases |a|
  {
    if a[0].0 == sender then (a[0].1, q, a[1..])
    else ReadUntil(q[a[0].0 := q[a[0].0] + [a[0].1]], a[1..], sender)
  }

  /** `receive` as a function: the message returned, and the deques and arrivals it leaves. */
  function Receipt(q: map<int, seq<Msg>>, a: seq<Arrival>, sender: int): (Msg, map<int, seq<Msg>>, seq<Arrival>)
    requires sender in q && Known(a, q) && PendingIn(q, a, sender) != []
  {
    if q[sender] != [] then (q[sender][0], q[sender := q[sender][1..]], a)
    else ReadUntil(q, a, sender)
  }

  /** Reading until sender's message keeps the senders with deques, and sender's deque. */
  lemma {:induction false} ReadUntilKeys(q: map<int, seq<Msg>>, a: seq<Arrival>, sender: int)
    requires sender in q && Known(a, q) && MsgsFrom(a, sender) != []
    ensures ReadUntil(q, a, sender).1.Keys == q.Keys
    ensures ReadUntil(q, a, sender).1[sender] == q[sender]
    decreases |a|
  {
    if a[0].0 != sender {
      ReadUntilKeys(q[a[0].0 := q[a[0].0] + [a[0].1]], a[1..], sender);
    }
  }

  /** Reading until sender's message returns sender's first arriving message and consumes it. */
  lemma {:induction false} ReadUntilHead(q: map<int, seq<Msg>>, a: seq<Arrival>, sender: int)
    requires sender in q && Known(a, q) && MsgsFrom(a, sender) != []
    ensures ReadUntil(q, a, sender).0 == MsgsFrom(a, sender)[0]
    ensures MsgsFrom(ReadUntil(q, a, sender).2, sender) == MsgsFrom(a, sender)[1..]
    decreases |a|
  {
    if a[0].0 != sender {
      ReadUntilHead(q[a[0].0 := q[a[0].0] + [a[0].1]], a[1..], sender);
    }
  }

  /** Reading until sender's message leaves a proper suffix of the arrivals. */
  lemma {:induction false} ReadUntilSuffix(q: map<int, seq<Msg>>, a: seq<Arrival>, sender: int)
    requires sender in q && Known(a, q) && MsgsFrom(a, sender) != []
    ensures var a' := ReadUntil(q, a, sender).2; |a'| < |a| && a' == a[|a| - |a'|..]
    decreases |a|
  {
    if a[0].0 != sender {
      ReadUntilSuffix(q[a[0].0 := q[a[0].0] + [a[0].1]], a[1..], sender);
      var a' := ReadUntil(q, a, sender).2;
      assert a[1..][|a| - 1 - |a'|..] == a[|a| - |a'|..];
    }
  }

  /**
   * Reading until sender's message leaves every other sender's pending
   * messages as they were: the ones read go to the back of their deque.
   */
  lemma {:induction false} ReadUntilOther(q: map<int, seq<Msg>>, a: seq<Arrival>, sender: int, p: int)
    requires sender in q && Known(a, q) && MsgsFrom(a, sender) != []
    requires p in q && p != sender
    ensures p in ReadUntil(q, a, sender).1
    ensures PendingIn(ReadUntil(q, a, sender).1, ReadUntil(q, a, sender).2, p) == PendingIn(q, a, p)
    decreases |a|
  {
    var (s0, m0) := a[0];
    if s0 != sender {
      var q1 := q[s0 := q[s0] + [m0]];
      ReadUntilOther(q1, a[1..], sender, p);
      if p == s0 {
        assert q1[p] + MsgsFrom(a[1..], p) == q[p] + ([m0] + MsgsFrom(a[1..], p));
      }
    }
  }

  /**
   * What `receive` returns is the head of sender's pending messages, which
   * lose it; every other sender's pending messages stay as they were.
   */
  lemma ReceiptPending(q: map<int, seq<Msg>>, a: seq<Arrival>, sender: int)
    requires sender in q && Known(a, q) && PendingIn(q, a, sender) != []
    ensures var (m, q', a') := Receipt(q, a, sender);
      && q'.Keys == q.Keys
      && m == PendingIn(q, a, sender)[0]
      && PendingIn(q', a', sender) == PendingIn(q, a, sender)[1..]
      && (forall p :: p in q && p != sender ==> PendingIn(q', a', p) == PendingIn(q, a, p))
      && |a'| <= |a| && a' == a[|a| - |a'|..]
  {
    if q[sender] == [] {
      ReadUntilKeys(q, a, sender);
      ReadUntilHead(q, a, sender);
      ReadUntilSuffix(q, a, sender);
      forall p | p in q && p != sender
        ensures PendingIn(ReadUntil(q, a, sender).1, ReadUntil(q, a, sender).2, p) == PendingIn(q, a, p)
      {
        ReadUntilOther(q, a, sender, p);
      }
    }
  }

  /** `receive` keeps the FIFO invariant, with the returned message added to what sender has had. */
  lemma ReceiptFifo(q: map<int, seq<Msg>>, a: seq<Arrival>, r: map<int, seq<Msg>>, stream: seq<Arrival>, sender: int)
    requires Fifo(q, a, r, stream) && sender in q && PendingIn(q, a, sender) != []
    ensures var (m, q', a') := Receipt(q, a, sender);
      Fifo(q', a', r[sender := r[sender] + [m]], stream)
  {
    ReceiptPending(q, a, sender);
    var (m, q', a') := Receipt(q, a, sender);
    FifoAfterReceive(q, a, r, stream, q', a', sender);
  }

  /**
   * Every arrival comes from a known sender, and for every sender what was
   * returned, then what is queued, then what is still to arrive is exactly
   * what it sent, in order.
   */
  ghost predicate Fifo(q: map<int, seq<Msg>>, a: seq<Arrival>, r: map<int, seq<Msg>>, stream: seq<Arrival>)
  {
    && r.Keys == q.Keys
    && Known(a, q)
    && (forall p :: p in q ==> r[p] + PendingIn(q, a, p) == MsgsFrom(stream, p))
  }

  /** Returning the head of sender's pending messages and leaving the others' pending keeps the FIFO invariant. */
  lemma FifoAfterReceive(q: map<int, seq<Msg>>, a: seq<Arrival>, r: map<int, seq<Msg>>, stream: seq<Arrival>,
                         q': map<int, seq<Msg>>, a': seq<Arrival>, sender: int)
    requires Fifo(q, a, r, stream) && sender in q && PendingIn(q, a, sender) != []
    requires q'.Keys == q.Keys && |a'| <= |a| && a' == a[|a| - |a'|..]
    requires PendingIn(q', a', sender) == PendingIn(q, a, sender)[1..]
    requires forall p :: p in q && p != sender ==> PendingIn(q', a', p) == PendingIn(q, a, p)
    ensures Fifo(q', a', r[sender := r[sender] + [PendingIn(q, a, sender)[0]]], stream)
  {
    ReturnedHead(r[sender], PendingIn(q, a, sender), MsgsFrom(stream, sender));
    forall j | 0 <= j < |a'|
      ensures a'[j].0 in q'
    {
      assert a'[j] == a[|a| - |a'| + j];
    }
  }

  /** Moving the head of what is pending to what was returned keeps their concatenation. */
  lemma ReturnedHead(r: seq<Msg>, p: seq<Msg>, s: seq<Msg>)
    requires p != [] && r + p == s
    ensures (r + [p[0]]) + p[1..] == s
  {
    assert p == [p[0]] + p[1..];
  }

}
