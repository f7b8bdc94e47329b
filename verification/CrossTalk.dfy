/** Why a success only shows that the peer handled some message under the same
    identifier: both sides number their own transactions, acks carry the number of
    the message they acknowledge, and a stray ack is taken for a request. */
module CrossTalk {
  import opened Messages
  import opened TransactionSpec
  import opened TransactionInvariants
  import opened NodeSpec
  import opened NodeSafety
  import opened Provenance
  import opened Schedules
  import opened Exchanges
  import opened TwoNodes

  /** In every run, what a handler was given was delivered to its side by some move. */
  lemma {:induction false} HandledWereDelivered(
    ta: uint16, tb: uint16, vs: seq<Move>, id: Side -> Id, s: Side, m: Message)
    returns (i: nat)
    requires Legal(World(Boot(ta), Boot(tb)), vs, id)
    requires m in Play(World(Boot(ta), Boot(tb)), vs).At(s).handled
    ensures i < |vs| && vs[i].side == s && vs[i].e.Deliver? && vs[i].e.m == m
  {
    hide Step, Possible, NodeInv, Provenant, Proper;
    var vs', v := vs[..|vs| - 1], vs[|vs| - 1];
    var w := Play(World(Boot(ta), Boot(tb)), vs');
    if m in w.At(s).handled {
      i := HandledWereDelivered(ta, tb, vs', id, s, m);
    } else {
      i := |vs| - 1;
      PlayKeeps(ta, tb, vs', id);
      assert SideInv(w, v.side);
      assert Proper(w.At(v.side), v.e) by { PossibleIsProper(w, v, id); }
      StepHandled(w.At(v.side), v.e);
    }
  }

  lemma NeverHandled(ta: uint16, tb: uint16, vs: seq<Move>, id: Side -> Id, s: Side, m: Message)
    requires Legal(World(Boot(ta), Boot(tb)), vs, id)
    requires forall i | 0 <= i < |vs| :: vs[i].side == s && vs[i].e.Deliver? ==> vs[i].e.m != m
    ensures m !in Play(World(Boot(ta), Boot(tb)), vs).At(s).handled
  {
    if m in Play(World(Boot(ta), Boot(tb)), vs).At(s).handled {
      var i := HandledWereDelivered(ta, tb, vs, id, s, m);
    }
  }

  lemma PossibleIsProper(w: World, v: Move, id: Side -> Id)
    requires Possible(w, v, id)
    ensures Proper(w.At(v.side), v.e)
  {
    hide Proper;
  }

  /** A stray ack of a request opens a transaction, and an answer to it leaves
      unmarked. */
  lemma StrayAckAnswered(n: Node, m: Message, p: Message, oc: Outcome)
    requires m.IsRequestAck() && !m.ackreq && !oc.avail
    requires Key(m.source, m.tid) !in n.src && Key(m.source, m.tid) !in n.dst
    requires p.Opcode().Response? && !p.ackrsp && p.destination == m.source && p.tid == m.tid
    ensures var n1 := MessageIn(n, m, oc, 0);
      Key(m.source, m.tid) in n1.dst && p.(ackreq := true) in MessageOut(n1, p, oc, 0).sent
  {
    var k := Key(m.source, m.tid);
    var n1 := MessageIn(n, m, oc, 0);
    var t := DstNew(m, 0, oc);
    assert k in n1.dst && n1.dst[k].t == t;
    var r := DstRespond(t, p.(ackreq := true), oc);
    assert p.(ackreq := true) in r.req.outs;
    hide DstNew, DstRespond;
  }

  /** Any unmarked response under its identifier ends a request in success. */
  lemma StrayAnswerCompletes(n: Node, m: Message, p: Message, oc: Outcome)
    requires m.Opcode().Request? && !m.ackrsp && !m.IsMulticast()
    requires Key(m.destination, m.tid) !in n.src && Key(m.destination, NextTid(n.tid)) !in n.src
    requires p.Opcode().Response? && !p.ackrsp && p.source == m.destination && p.tid == NextTid(n.tid)
    ensures var q := m.(ackreq := true, tid := NextTid(n.tid));
      var n1 := MessageOut(n, m, oc, 0);
      var n2 := MessageIn(n1, p, oc, 0);
      var k := Key(q.destination, q.tid);
      && q in n1.sent && k in n2.src && q in n2.sent
      && var t := n2.src[k].t; t.state.Src?() && t.head.opcode.Request? && t.head.tid == q.tid && t.status.Success?
  {
    var q := m.(ackreq := true, tid := NextTid(n.tid));
    var t0 := SrcNew(q, 0, oc);
    assert t0.status.Ongoing? && t0.req.outs == [q] && t0.rsp.acks == [];
    OpenSource(n, m, 0, oc);
    var t := SrcDeliver(t0, p, oc);
    assert !Closed(t) && t.state.Src?() && t.head.opcode.Request? && t.head.tid == q.tid && t.status.Success?;
    hide SrcNew, SrcDeliver, MessageOut;
  }

  /** The first half of such a run: `B` asks `A` and is answered. */
  function Asking(rb: Message, pa: Message, tid: uint16, oc: Outcome): seq<Move> {
    var q, r := rb.(ackreq := true, tid := tid), pa.(ackreq := true, ackrsp := true);
    [Move(B, Send(rb, oc, 0)), Move(A, Deliver(q, oc, 0)), Move(B, Deliver(Ack(q), oc, 0)),
     Move(A, Send(pa, oc, 0)), Move(B, Deliver(r, oc, 0)), Move(A, Deliver(Ack(r), oc, 0))]
  }

  lemma AskingPlays(ta: uint16, id: Side -> Id, rb: Message, pa: Message, oc: Outcome) returns (ws: seq<World>)
    requires id(A) != "" && id(B) != "" && oc == Outcome(BLANK, false)
    requires rb.Opcode().Request? && !rb.ackrsp && rb.source == id(B) && rb.destination == id(A)
    requires pa.Opcode().Response? && pa.HasServiceTlv()
    requires pa.source == id(A) && pa.destination == id(B) && pa.tid == NextTid(ta)
    ensures Trace(ws, Asking(rb, pa, NextTid(ta), oc), id) && |ws| == 7 && ws[0] == World(Boot(ta), Boot(ta))
    ensures var w := ws[6];
      && w.a.src == w.b.src == w.b.dst == map[] && w.a.tid == ta
      && Ack(rb.(ackreq := true, tid := NextTid(ta))) in w.a.sent
  {
    hide MessageIn, MessageOut;
    var n := Boot(ta);
    var q, r := rb.(ackreq := true, tid := NextTid(ta)), pa.(ackreq := true, ackrsp := true);
    SourceExchange(n, rb, pa, 0, oc);
    DestinationExchange(n, q, pa, 0, oc);
    var b1, a1 := MessageOut(n, rb, oc, 0), MessageIn(n, q, oc, 0);
    var b2, a2 := MessageIn(b1, Ack(q), oc, 0), MessageOut(a1, pa, oc, 0);
    var b3, a3 := MessageIn(b2, r, oc, 0), MessageIn(a2, Ack(r), oc, 0);
    StepSent(a1, Send(pa, oc, 0));
    StepSent(a2, Deliver(Ack(r), oc, 0));
    ws := [World(n, n), World(n, b1), World(a1, b1), World(a1, b2), World(a2, b2), World(a2, b3), World(a3, b3)];
  }

  /** The second half: `A` asks, a stray ack arrives and is answered. */
  function Straying(ack: Message, ra: Message, pb: Message, oc: Outcome): seq<Move> {
    [Move(A, Send(ra, oc, 0)), Move(B, Deliver(ack, oc, 0)), Move(B, Send(pb, oc, 0)),
     Move(A, Deliver(pb.(ackreq := true), oc, 0))]
  }

  lemma StrayingPlays(w: World, id: Side -> Id, ack: Message, ra: Message, pb: Message, oc: Outcome)
    returns (ws: seq<World>)
    requires id(A) != "" && id(B) != "" && oc == Outcome(BLANK, false)
    requires w.a.src == w.b.src == w.b.dst == map[]
    requires ack in w.a.sent && ack.IsRequestAck() && !ack.ackreq
    requires ack.source == id(A) && ack.destination == id(B) && ack.tid == NextTid(w.a.tid)
    requires ra.Opcode().Request? && !ra.ackrsp && ra.source == id(A) && ra.destination == id(B)
    requires pb.Opcode().Response? && !pb.ackrsp
    requires pb.source == id(B) && pb.destination == id(A) && pb.tid == NextTid(w.a.tid)
    ensures Trace(ws, Straying(ack, ra, pb, oc), id) && |ws| == 5 && ws[0] == w
    ensures var a, q := ws[4].a, ra.(ackreq := true, tid := NextTid(w.a.tid));
      var k := Key(id(B), q.tid);
      && q in a.sent && k in a.src
      && var t := a.src[k].t; t.state.Src?() && t.head.opcode.Request? && t.head.tid == q.tid && t.status.Success?
  {
    hide MessageIn, MessageOut;
    StrayAckAnswered(w.b, ack, pb, oc);
    StrayAnswerCompletes(w.a, ra, pb.(ackreq := true), oc);
    var b1, a1 := MessageIn(w.b, ack, oc, 0), MessageOut(w.a, ra, oc, 0);
    var b2, a2 := MessageOut(b1, pb, oc, 0), MessageIn(a1, pb.(ackreq := true), oc, 0);
    StepSent(w.a, Send(ra, oc, 0));
    ws := [w, World(a1, w.b), World(a1, b1), World(a1, b2), World(a2, b2)];
  }

  /** Two nodes that have allocated equally many identifiers. `B` asks and is
      answered; then `A` asks under the same number, the ack `A` had sent for the
      first request arrives once more, the handler at `B` answers it, and the
      request of `A` ends in success though `B` has never been given it. */
  lemma SuccessWithoutDelivery(ta: uint16, id: Side -> Id, rb: Message, pa: Message, ra: Message, pb: Message)
    returns (vs: seq<Move>, t: Txn)
    requires id(A) != "" && id(B) != ""
    requires rb.Opcode().Request? && !rb.ackrsp && rb.source == id(B) && rb.destination == id(A)
    requires ra.Opcode().Request? && !ra.ackrsp && ra.source == id(A) && ra.destination == id(B)
    requires pa.Opcode().Response? && pa.HasServiceTlv()
    requires pa.source == id(A) && pa.destination == id(B) && pa.tid == NextTid(ta)
    requires pb.Opcode().Response? && !pb.ackrsp
    requires pb.source == id(B) && pb.destination == id(A) && pb.tid == NextTid(ta)
    ensures Legal(World(Boot(ta), Boot(ta)), vs, id) && Known(Play(World(Boot(ta), Boot(ta)), vs), A, t)
    ensures t.head.opcode.Request? && t.head.tid == NextTid(ta) && t.status.Success?
    ensures var w, q := Play(World(Boot(ta), Boot(ta)), vs), ra.(ackreq := true, tid := NextTid(ta));
      q in w.a.sent && q !in w.b.handled
  {
    hide Trace, Legal, Play;
    var oc, ack := Outcome(BLANK, false), Ack(rb.(ackreq := true, tid := NextTid(ta)));
    var ws := AskingPlays(ta, id, rb, pa, oc);
    var us := StrayingPlays(ws[6], id, ack, ra, pb, oc);
    vs := Asking(rb, pa, NextTid(ta), oc) + Straying(ack, ra, pb, oc);
    TraceAppend(ws, Asking(rb, pa, NextTid(ta), oc), us, Straying(ack, ra, pb, oc), id);
    TracePlays(ws + us[1..], vs, id);
    t := us[4].a.src[Key(id(B), NextTid(ta))].t;
    NeverHandled(ta, ta, vs, id, B, ra.(ackreq := true, tid := NextTid(ta)));
  }

  lemma TraceAppend(ws: seq<World>, vs: seq<Move>, us: seq<World>, vs': seq<Move>, id: Side -> Id)
    requires Trace(ws, vs, id) && Trace(us, vs', id) && us[0] == ws[|vs|]
    ensures Trace(ws + us[1..], vs + vs', id)
  {
    hide Possible, Next;
    var xs, n := ws + us[1..], |vs|;
    forall i | 0 <= i < |vs + vs'| ensures Leads(xs, (vs + vs')[i], i, id) {
      if i < n {
        assert Leads(ws, vs[i], i, id);
      } else {
        assert Leads(us, vs'[i - n], i - n, id);
        assert xs[i] == us[i - n] && xs[i + 1] == us[i - n + 1];
      }
    }
  }
}
