/** One exchange from end to end, and the corners where the machines do not do
    what the acknowledgement service promises, each with its exact condition. */
module Exchanges {
  import opened Messages
  import opened TransactionSpec
  import opened TransactionInvariants
  import opened TransactionMessages
  import opened NodeSpec
  import opened NodeSafety
  import opened Schedules

  /** The four transactions steps of an exchange without loss: the bare ack of the
      request, the response with its piggybacked ack, and the ack of the response,
      each routed to the machine that waits for it. Both sides end in success,
      having handled one message each. */
  lemma LosslessExchange(q: Message, p: Message, i: uint32, j: uint32, oc: Outcome)
    requires q.Opcode().Request? && q.ackreq && !q.ackrsp && !q.IsMulticast() && !oc.avail
    requires p.Opcode().Response? && p.ackreq && p.HasServiceTlv()
    requires p.source == q.destination && p.destination == q.source && p.tid == q.tid
    ensures
      var s0, d0 := SrcNew(q, i, oc), DstNew(q, j, oc);
      var ack := Ack(q);
      var s1, d1 := SrcDeliver(s0, ack, oc), DstRespond(d0, p, oc);
      var response := p.(ackrsp := true);
      var s2 := SrcDeliver(s1, response, oc);
      var d2 := DstDeliver(d1, Ack(response), oc);
      && s0.req.outs == [q] && s0.rsp.acks == [] && s0.status.Ongoing? && !q.ForSource()
      && d0.rsp.acks == [ack] && ack.ForSource() && s1.status.Ongoing? && s1.handled == [] && !Closed(s1)
      && s1.req.outs == [q] && s1.rsp.acks == [] && s2.req.outs == [q]
      && d0.status.Ongoing? && !Closed(d1) && d1.req.outs == [response] && response.ForSource()
      && s2.rsp.acks == [Ack(response)] && !Ack(response).ForSource()
      && s2.state.SrcSuccess? && s2.head.opcode.Request? && s2.head.tid == q.tid
      && s2.status.Success? && s2.handled == [response] && Closed(s2)
      && d2.status.Success? && d2.handled == [q] && Closed(d2)
  {
    LosslessSource(q, p.(ackrsp := true), i, oc);
    FirstAck(q, j, oc);
    var d0 := DstNew(q, j, oc);
    assert d0.state.DstWaitResponse? && d0.startRsp && DstInv(d0) && d0.rsp.acks == [Ack(q)];
    hide SrcNew, SrcDeliver, DstNew, DstRespond, DstDeliver, DstInv;
    FirstResponse(d0, p, oc);
    DstAckEnds(DstRespond(d0, p, oc), Ack(p.(ackrsp := true)), oc);
    DstStays(d0);
    DstStays(DstRespond(d0, p, oc));
  }

  lemma OpenSource(n: Node, m: Message, i: uint32, oc: Outcome)
    requires m.Opcode().Request? && Key(m.destination, m.tid) !in n.src
    requires Key(m.destination, NextTid(n.tid)) !in n.src
    requires var q := m.(ackreq := true, tid := NextTid(n.tid));
      var t := SrcNew(q, i, oc);
      t.status.Ongoing? && t.req.outs == [q] && t.rsp.acks == []
    ensures var q := m.(ackreq := true, tid := NextTid(n.tid));
      var k := Key(q.destination, q.tid);
      var r := MessageOut(n, m, oc, i);
      && k in r.src && r.src[k].t == SrcNew(q, i, oc) && r.src - {k} == n.src && r.dst == n.dst
      && r.sent == n.sent + {q}
  {
  }

  lemma OpenDestination(n: Node, q: Message, j: uint32, oc: Outcome)
    requires !q.ForSource() && Key(q.source, q.tid) !in n.dst
    requires DstNew(q, j, oc).status.Ongoing? && DstNew(q, j, oc).rsp.acks == [Ack(q)]
    ensures var l := Key(q.source, q.tid); var r := MessageIn(n, q, oc, j);
      && l in r.dst && r.dst[l].t == DstNew(q, j, oc) && r.dst - {l} == n.dst && r.src == n.src
      && Ack(q) in r.sent && r.tid == n.tid
  {
  }

  lemma ExchangeAtSource(n: Node, k: Key, q: Message, r: Message, i: uint32, oc: Outcome)
    requires k in n.src && k == Key(q.destination, q.tid) && k == Key(r.source, r.tid)
    requires Ack(q).ForSource() && r.ForSource() && Ack(q).source == q.destination
    requires var s1 := SrcDeliver(n.src[k].t, Ack(q), oc);
      var s2 := SrcDeliver(s1, r, oc);
      && !Closed(s1) && s1.req.outs == [q] && s1.rsp.acks == []
      && Closed(s2) && s2.status.Success? && s2.handled == [r] && s2.req.outs == [q] && s2.rsp.acks == [Ack(r)]
      && s2.state.SrcSuccess? && s2.head.opcode.Request? && s2.head.tid == q.tid
    ensures var n' := MessageIn(MessageIn(n, Ack(q), oc, i), r, oc, i);
      && n'.src == n.src - {k} && n'.dst == n.dst && r in n'.handled && n'.sent == n.sent + {q, Ack(r)}
      && exists t :: t in n'.ended && t.state.SrcSuccess? && t.head.opcode.Request? && t.head.tid == q.tid
                     && t.status.Success? && t.handled == [r]
  {
  }

  lemma ExchangeAtDestination(n: Node, l: Key, p: Message, j: uint32, oc: Outcome)
    requires l in n.dst && l == Key(p.destination, p.tid) && p.Opcode().Response?
    requires var r := p.(ackreq := true, ackrsp := true);
      var d1 := DstRespond(n.dst[l].t, p.(ackreq := true), oc);
      var d2 := DstDeliver(d1, Ack(r), oc);
      && !Ack(r).ForSource() && !Closed(d1) && d1.req.outs == [r]
      && Closed(d2) && d2.status.Success? && |d2.handled| == 1
    ensures var r := p.(ackreq := true, ackrsp := true);
      var n1 := MessageOut(n, p, oc, j);
      var n' := MessageIn(n1, Ack(r), oc, j);
      && r in n1.sent && l in n1.dst && n'.dst == n.dst - {l} && n'.src == n.src && n'.tid == n.tid
      && var d2 := DstDeliver(DstRespond(n.dst[l].t, p.(ackreq := true), oc), Ack(r), oc);
         d2.handled[0] in n'.handled && d2 in n'.ended
  {
    hide DstRespond, DstDeliver, NewDst, NewSrc, SrcUpdate, Closed;
    var r := p.(ackreq := true, ackrsp := true);
    var d1 := DstRespond(n.dst[l].t, p.(ackreq := true), oc);
    var n1 := MessageOut(n, p, oc, j);
    assert l in n1.dst && n1.dst[l].t == d1 && n1.dst - {l} == n.dst - {l} && n1.src == n.src
      && n1.tid == n.tid;
    assert r in d1.req.outs;
    var d2 := DstDeliver(d1, Ack(r), oc);
    assert d2.handled[0] in d2.handled;
  }

  lemma LosslessSource(q: Message, p: Message, i: uint32, oc: Outcome)
    requires q.Opcode().Request? && q.ackreq && !q.ackrsp && !q.IsMulticast()
    requires p.Opcode().Response? && p.ackreq && p.ackrsp
    requires p.source == q.destination && p.destination == q.source && p.tid == q.tid
    ensures
      var s0 := SrcNew(q, i, oc);
      var s1 := SrcDeliver(s0, Ack(q), oc);
      var s2 := SrcDeliver(s1, p, oc);
      && s0.req.outs == [q] && s0.rsp.acks == [] && s0.status.Ongoing?
      && s1.req.outs == [q] && s1.rsp.acks == [] && s1.status.Ongoing? && s1.handled == []
      && s2.req.outs == [q] && s2.rsp.acks == [Ack(p)] && s2.status.Success? && s2.handled == [p] && Closed(s2)
      && s2.state.SrcSuccess? && s2.head.opcode.Request? && s2.head.tid == q.tid
  {
  }

  /** The exchange at the node that asks. */
  lemma SourceExchange(a: Node, m: Message, p: Message, i: uint32, oc: Outcome)
    requires m.Opcode().Request? && !m.ackrsp && !m.IsMulticast() && !oc.avail
    requires p.Opcode().Response? && p.HasServiceTlv()
    requires p.source == m.destination && p.destination == m.source && p.tid == NextTid(a.tid)
    requires Key(m.destination, m.tid) !in a.src && Key(m.destination, NextTid(a.tid)) !in a.src
    ensures
      var q := m.(ackreq := true, tid := NextTid(a.tid));
      var response := p.(ackreq := true, ackrsp := true);
      var a1 := MessageOut(a, m, oc, i);
      var a3 := MessageIn(MessageIn(a1, Ack(q), oc, i), response, oc, i);
      && q in a1.sent && a3.sent == a.sent + {q, Ack(response)}
      && a3.src == a.src && a3.dst == a.dst && response in a3.handled
      && exists t :: t in a3.ended && t.state.SrcSuccess? && t.head.opcode.Request? && t.head.tid == q.tid
                     && t.status.Success? && t.handled == [response]
  {
    var q, r := m.(ackreq := true, tid := NextTid(a.tid)), p.(ackreq := true, ackrsp := true);
    LosslessSource(q, r, i, oc);
    hide SrcNew, SrcDeliver, MessageIn, MessageOut;
    OpenSource(a, m, i, oc);
    ExchangeAtSource(MessageOut(a, m, oc, i), Key(m.destination, q.tid), q, r, i, oc);
  }

  /** The exchange at the node that answers. */
  lemma DestinationExchange(b: Node, q: Message, p: Message, j: uint32, oc: Outcome)
    requires q.Opcode().Request? && q.ackreq && !q.ackrsp && !q.IsMulticast() && !oc.avail
    requires p.Opcode().Response? && p.HasServiceTlv()
    requires p.source == q.destination && p.destination == q.source && p.tid == q.tid
    requires Key(q.source, q.tid) !in b.dst
    ensures
      var k, response := Key(q.source, q.tid), p.(ackreq := true, ackrsp := true);
      var ack := Ack(response);
      var b1 := MessageIn(b, q, oc, j);
      var b2 := MessageOut(b1, p, oc, j);
      var b3 := MessageIn(b2, ack, oc, j);
      && !q.ForSource() && !ack.ForSource() && k in b1.dst && k in b2.dst
      && Ack(q) in b1.sent && response in b2.sent
      && b3.dst == b.dst && b3.src == b.src && b3.tid == b.tid && q in b3.handled
      && exists t :: t in b3.ended && t.status.Success? && t.handled == [q]
  {
    LosslessExchange(q, p.(ackreq := true), 0, j, oc);
    hide SrcNew, SrcDeliver, DstNew, DstDeliver, DstRespond, Closed, MessageIn, MessageOut;
    OpenDestination(b, q, j, oc);
    ExchangeAtDestination(MessageIn(b, q, oc, j), Key(q.source, q.tid), p, j, oc);
  }

  /** The same exchange through the dispatchers of two nodes in any state in which
      the two keys are free: six messages later both pools are as they were, the
      request has been handled at one end and the response at the other, and both
      transactions have ended in success. */
  lemma NodeExchange(a: Node, b: Node, m: Message, p: Message, i: uint32, j: uint32, oc: Outcome)
    requires m.Opcode().Request? && !m.ackrsp && !m.IsMulticast() && !oc.avail
    requires p.Opcode().Response? && p.HasServiceTlv()
    requires p.source == m.destination && p.destination == m.source && p.tid == NextTid(a.tid)
    requires Key(m.destination, m.tid) !in a.src && Key(m.destination, NextTid(a.tid)) !in a.src
    requires Key(m.source, NextTid(a.tid)) !in b.dst
    ensures
      var q := m.(ackreq := true, tid := NextTid(a.tid));
      var response := p.(ackreq := true, ackrsp := true);
      var a1, b1 := MessageOut(a, m, oc, i), MessageIn(b, q, oc, j);
      var a2, b2 := MessageIn(a1, Ack(q), oc, i), MessageOut(b1, p, oc, j);
      var a3, b3 := MessageIn(a2, response, oc, i), MessageIn(b2, Ack(response), oc, j);
      && q in a1.sent && Ack(q) in b1.sent && response in b2.sent
      && a3.sent == a.sent + {q, Ack(response)}
      && a3.src == a.src && b3.dst == b.dst && a3.dst == a.dst && b3.src == b.src && b3.tid == b.tid
      && q in b3.handled && response in a3.handled
      && (exists t :: t in a3.ended && t.state.SrcSuccess? && t.head.opcode.Request? && t.head.tid == q.tid
                      && t.status.Success? && t.handled == [response])
      && (exists t :: t in b3.ended && t.status.Success? && t.handled == [q])
  {
    hide MessageIn, MessageOut;
    SourceExchange(a, m, p, i, oc);
    DestinationExchange(b, m.(ackreq := true, tid := NextTid(a.tid)), p, j, oc);
  }

  /** Submitting an outgoing message under the identifier of a waiting request
      completes that request exactly when some message is still lying in its
      input slot. */
  lemma ResubmitCompletesIff(t: Txn, m: Message, oc: Outcome)
    requires SrcInv(t) && t.state.SrcWaitResponse? && !t.head.multicast && !t.startRsp
    ensures SrcResubmit(t, m, oc).status.Success? <==> t.slots.inAvail
  {
    hide AckResponder;
  }

  /** A bare request ack stays in the slot, so after one such a submission ends the
      request in success with nothing but the ack handled. */
  lemma ResubmitTakesBareAck(q: Message, m: Message, i: uint32, oc: Outcome)
    requires Reliable(q) && q.Opcode().Request?
    ensures var t := SrcResubmit(SrcDeliver(SrcNew(q, i, oc), Ack(q), oc), m, oc);
      t.status.Success? && t.handled == [Ack(q)] && Ack(q).IsRequestAck()
  {
  }

  /** A bare request ack that comes after its transaction has gone is taken for a
      request: the handler is called with it and a destination transaction waits
      for an answer. */
  lemma LateAckTakenForRequest(n: Node, m: Message, oc: Outcome, junk: uint32)
    requires m.IsRequestAck() && Key(m.source, m.tid) !in n.src && Key(m.source, m.tid) !in n.dst && !oc.avail
    ensures var r := MessageIn(n, m, oc, junk);
      m in r.handled && Key(m.source, m.tid) in r.dst && r.src == n.src
  {
  }

  /** A response whose transaction has gone is sent under a fresh identifier, and
      completes whatever request the peer has pending under that one. */
  lemma LateResponseRenumbered(n: Node, p: Message, oc: Outcome, junk: uint32, t: Txn, oc': Outcome)
    requires p.Opcode().Response? && !p.ackrsp && Key(p.destination, p.tid) !in n.dst
    requires SrcInv(t) && t.state.SrcWaitResponse? && !t.head.multicast && !t.startRsp
    requires t.head.peer == p.source && t.head.tid == NextTid(n.tid)
    ensures var m := p.(ackreq := true, tid := NextTid(n.tid));
      && m in MessageOut(n, p, oc, junk).sent
      && m.ForSource() && Key(m.source, m.tid) == Key(t.head.peer, t.head.tid)
      && SrcDeliver(t, m, oc').status.Success?
  {
    var m := p.(ackreq := true, tid := NextTid(n.tid));
    assert m in MessageOut(n, p, oc, junk).sent by {
      hide SrcNew;
      SrcNewInv(m, junk, oc);
      assert m in SrcNew(m, junk, oc).req.outs;
    }
    hide AckResponder, SrcNew;
  }
}
