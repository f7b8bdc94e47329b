/** Two MIHFs and a network between them that may lose, delay, reorder and
    duplicate messages but not invent them. Any number of transactions run in
    both directions at once. */
module TwoNodes {
  import opened Messages
  import opened TransactionSpec
  import opened TransactionInvariants
  import opened TransactionMessages
  import opened NodeSpec
  import opened NodeSafety
  import opened Provenance
  import opened Schedules
  import opened Exchanges

  datatype Side = A | B

  function Other(s: Side): Side { if s.A? then B else A }

  datatype World = World(a: Node, b: Node)
  {
    function At(s: Side): Node { if s.A? then a else b }

    function Put(s: Side, n: Node): World { if s.A? then World(n, b) else World(a, n) }
  }

  datatype Move = Move(side: Side, e: Event)

  /** A delivery takes some message the other side has ever sent, addressed here
      or to everybody; it may be taken again later, or never. */
  predicate Possible(w: World, v: Move, id: Side -> Id) {
    && Proper(w.At(v.side), v.e)
    && (v.e.Deliver? ==> v.e.m in w.At(Other(v.side)).sent && (v.e.m.destination == id(v.side) || v.e.m.IsMulticast()))
  }

  function Next(w: World, v: Move): World { w.Put(v.side, Step(w.At(v.side), v.e)) }

  function Play(w: World, vs: seq<Move>): World {
    if vs == [] then w else Next(Play(w, vs[..|vs| - 1]), vs[|vs| - 1])
  }

  predicate Legal(w: World, vs: seq<Move>, id: Side -> Id) {
    vs != [] ==> Legal(w, vs[..|vs| - 1], id) && Possible(Play(w, vs[..|vs| - 1]), vs[|vs| - 1], id)
  }

  ghost predicate SideInv(w: World, s: Side) {
    NodeInv(w.At(s)) && Provenant(w.At(s)) && w.At(s).handled <= w.At(Other(s)).sent
  }

  ghost predicate WorldInv(w: World) { SideInv(w, A) && SideInv(w, B) }

  // ----- a step hands nothing to the handler but the delivered message

  lemma UpdateHandled(n: Node, t: Txn, m: Message)
    requires forall q | q in t.handled :: q in n.handled || q == m
    ensures Log(n, t).handled <= n.handled + {m}
  {
  }

  lemma MessageInHandled(n: Node, m: Message, oc: Outcome, junk: uint32)
    requires NodeInv(n) && Provenant(n) && Proper(n, Deliver(m, oc, junk))
    ensures MessageIn(n, m, oc, junk).handled <= n.handled + {m}
  {
    hide SrcMsgs, DstMsgs, SrcInv, DstInv, SrcDeliver, DstDeliver, DstNew, Allocated;
    var k := Key(m.source, m.tid);
    if m.ForSource() && k in n.src {
      assert SrcEntry(k, n.src[k], n.clock, n.starts);
      SrcDeliverMsgs(n.src[k].t, m, oc);
      UpdateHandled(n, SrcDeliver(n.src[k].t, m, oc), m);
    } else if !m.ForSource() && k in n.dst {
      assert DstEntry(k, n.dst[k], n.clock);
      DstDeliverKeeps(n.dst[k].t, m, oc);
      UpdateHandled(n, DstDeliver(n.dst[k].t, m, oc), m);
    } else {
      DstNewInv(m, junk, oc);
      UpdateHandled(n, DstNew(m, junk, oc), m);
    }
  }

  lemma MessageOutHandled(n: Node, m: Message, oc: Outcome, junk: uint32)
    requires NodeInv(n) && Provenant(n) && Proper(n, Send(m, oc, junk))
    ensures MessageOut(n, m, oc, junk).handled <= n.handled
  {
    hide SrcMsgs, DstMsgs, SrcInv, DstInv, DstRespond, SrcNew, SrcResubmit, Allocated;
    var m' := m.(ackreq := true);
    var k := Key(m.destination, m.tid);
    if m.Opcode().Response? {
      assert DstEntry(k, n.dst[k], n.clock);
      DstRespondKeeps(n.dst[k].t, m', oc);
    } else if !m.Opcode().Confirm? {
      SrcNewInv(m'.(tid := NextTid(n.tid)), junk, oc);
    }
  }

  lemma StepHandled(n: Node, e: Event)
    requires NodeInv(n) && Provenant(n) && Proper(n, e)
    ensures Step(n, e).handled <= n.handled + (if e.Deliver? then {e.m} else {})
    ensures n.sent <= Step(n, e).sent
  {
    StepSent(n, e);
    hide NodeInv, Provenant, Proper, MessageIn, MessageOut, TickAll;
    match e
    case Deliver(m, oc, junk) => MessageInHandled(n, m, oc, junk);
    case Send(m, oc, junk) => MessageOutHandled(n, m, oc, junk);
    case Tick(oc) => TickProvenant(n, oc);
  }

  lemma StepSent(n: Node, e: Event)
    ensures n.sent <= Step(n, e).sent
  {
    hide SrcNew, DstNew, SrcDeliver, DstDeliver, SrcResubmit, DstRespond, TickPool, Stepped, Dropped, Outs, Handled;
  }

  lemma NextKeeps(w: World, v: Move, id: Side -> Id)
    requires WorldInv(w) && Possible(w, v, id)
    ensures WorldInv(Next(w, v))
  {
    hide Step, NodeInv, Provenant, Proper;
    var s := v.side;
    StepKeeps(w.At(s), v.e);
    StepProvenant(w.At(s), v.e);
    StepHandled(w.At(s), v.e);
    assert SideInv(w, s) && SideInv(w, Other(s));
    assert SideInv(Next(w, v), s) && SideInv(Next(w, v), Other(s));
  }

  lemma {:induction false} PlayKeeps(ta: uint16, tb: uint16, vs: seq<Move>, id: Side -> Id)
    requires Legal(World(Boot(ta), Boot(tb)), vs, id)
    ensures WorldInv(Play(World(Boot(ta), Boot(tb)), vs))
  {
    hide Next, Possible;
    if vs == [] {
    } else {
      hide WorldInv;
      PlayKeeps(ta, tb, vs[..|vs| - 1], id);
      NextKeeps(Play(World(Boot(ta), Boot(tb)), vs[..|vs| - 1]), vs[|vs| - 1], id);
    }
  }

  /** A source transaction of side `s`, live or ended. */
  ghost predicate Known(w: World, s: Side, t: Txn) {
    t.state.Src?() && (t in w.At(s).ended || exists k :: k in w.At(s).src && w.At(s).src[k].t == t)
  }

  /** In every run, a request of one side that has ended in success was completed
      by a message the other side sent, and the other side's handler had been
      given a message with the same identifier that this side sent: a request
      when a response completed it. A bare request ack never does. */
  lemma SuccessMeansAnswered(ta: uint16, tb: uint16, vs: seq<Move>, id: Side -> Id, s: Side, t: Txn)
    requires Legal(World(Boot(ta), Boot(tb)), vs, id)
    requires var w := Play(World(Boot(ta), Boot(tb)), vs); Known(w, s, t)
    requires t.head.opcode.Request? && t.status.Success?
    ensures var w := Play(World(Boot(ta), Boot(tb)), vs);
      exists m, q :: Completed(w, s, t, m, q)
  {
    hide Next, Possible, SrcMsgs, Justified, Allocated;
    PlayKeeps(ta, tb, vs, id);
    var w := Play(World(Boot(ta), Boot(tb)), vs);
    var n, p := w.At(s), w.At(Other(s));
    assert SideInv(w, s) && SideInv(w, Other(s));
    assert SrcMsgs(t) && Within(t, n.handled) && t.handled != [] by {
      if t in n.ended {
        assert Final(t);
      } else {
        var k :| k in n.src && n.src[k].t == t;
        assert SrcEntry(k, n.src[k], n.clock, n.starts);
        SrcFinal(t);
      }
    }
    var m := t.handled[0];
    assert m in t.handled && m in n.handled && m in p.sent && Justified(m, p.handled);
    var q := Origin(t, m, p.handled);
    assert q in n.sent;
    assert Completed(w, s, t, m, q);
  }

  ghost predicate Completed(w: World, s: Side, t: Txn, m: Message, q: Message) {
    && m in t.handled && Completes(m, t.head) && m in w.At(Other(s)).sent
    && q in w.At(Other(s)).handled && q in w.At(s).sent && q.tid == t.head.tid
    && Answers(m, q)
  }

  lemma Origin(t: Txn, m: Message, handled: set<Message>) returns (q: Message)
    requires SrcMsgs(t) && m in t.handled && Justified(m, handled)
    ensures Completes(m, t.head) && q in handled && Answers(m, q)
  {
    assert Completes(m, t.head);
    q :| q in handled && Answers(m, q);
  }

  /** When the request is the only message, acks of responses aside, that this side
      ever sent under its identifier, the peer's handler was given that very
      request, and its response is what completed the transaction. */
  lemma OnlyRequestWasHandled(ta: uint16, tb: uint16, vs: seq<Move>, id: Side -> Id, s: Side, t: Txn, r: Message)
    requires Legal(World(Boot(ta), Boot(tb)), vs, id)
    requires var w := Play(World(Boot(ta), Boot(tb)), vs); Known(w, s, t)
    requires t.head.opcode.Request? && t.status.Success? && r.Opcode().Request?
    requires OnlyUnder(Play(World(Boot(ta), Boot(tb)), vs).At(s).sent, t.head.tid, r)
    ensures var w := Play(World(Boot(ta), Boot(tb)), vs);
      && r in w.At(Other(s)).handled
      && exists m :: m in t.handled && m in w.At(Other(s)).sent && m.Opcode().Response?
                     && m.source == t.head.peer && m.tid == r.tid
  {
    hide Next, Possible, Legal;
    SuccessMeansAnswered(ta, tb, vs, id, s, t);
    var w := Play(World(Boot(ta), Boot(tb)), vs);
    var m, q :| Completed(w, s, t, m, q);
    assert q == r;
  }

  /** No message but `r` was sent under the identifier, except responses and their acks. */
  ghost predicate OnlyUnder(sent: set<Message>, tid: uint16, r: Message) {
    forall x | x in sent && x.tid == tid && !x.Opcode().Response? :: x == r
  }

  /** The worlds a sequence of moves leads through, each move possible in its turn. */
  predicate Trace(ws: seq<World>, vs: seq<Move>, id: Side -> Id) {
    && |ws| == |vs| + 1
    && forall i | 0 <= i < |vs| :: Leads(ws, vs[i], i, id)
  }

  predicate Leads(ws: seq<World>, v: Move, i: nat, id: Side -> Id)
    requires i + 1 < |ws|
  {
    Possible(ws[i], v, id) && ws[i + 1] == Next(ws[i], v)
  }

  lemma {:induction false} TracePlays(ws: seq<World>, vs: seq<Move>, id: Side -> Id)
    requires Trace(ws, vs, id)
    ensures Legal(ws[0], vs, id) && Play(ws[0], vs) == ws[|vs|]
    decreases |vs|
  {
    hide Next, Possible;
    if vs == [] {
    } else {
      var k := |vs| - 1;
      forall i | 0 <= i < k ensures Leads(ws[..k + 1], vs[..k][i], i, id) {
        assert Leads(ws, vs[i], i, id);
      }
      TracePlays(ws[..k + 1], vs[..k], id);
      assert Leads(ws, vs[k], k, id);
    }
  }

  /** Such runs exist, whatever is asked and answered: the request, its ack, the
      response and its delivery form a legal run that ends the request in success,
      in which the request is the only message of its kind under its identifier, so
      the peer's handler was given that request. */
  lemma SomeRunSucceeds(ta: uint16, tb: uint16, id: Side -> Id, m: Message, p: Message) returns (vs: seq<Move>, t: Txn)
    requires m.Opcode().Request? && !m.ackrsp && m.source == id(A) && m.destination == id(B) && id(B) != ""
    requires p.Opcode().Response? && p.HasServiceTlv()
    requires p.source == id(B) && p.destination == id(A) && p.tid == NextTid(ta)
    ensures Legal(World(Boot(ta), Boot(tb)), vs, id) && Known(Play(World(Boot(ta), Boot(tb)), vs), A, t)
    ensures t.head.opcode.Request? && t.status.Success?
    ensures var w, q := Play(World(Boot(ta), Boot(tb)), vs), m.(ackreq := true, tid := NextTid(ta));
      OnlyUnder(w.a.sent, t.head.tid, q) && q in w.b.handled
  {
    hide MessageIn, MessageOut, SrcNew, SrcDeliver, DstNew, DstRespond, DstDeliver, Play, Legal;
    var oc := Outcome(BLANK, false);
    var q, r := m.(ackreq := true, tid := NextTid(ta)), p.(ackreq := true, ackrsp := true);
    var a, b := Boot(ta), Boot(tb);
    vs := [Move(A, Send(m, oc, 0)), Move(B, Deliver(q, oc, 0)), Move(A, Deliver(Ack(q), oc, 0)),
           Move(B, Send(p, oc, 0)), Move(A, Deliver(r, oc, 0))];
    LosslessExchange(q, p.(ackreq := true), 0, 0, oc);
    NodeExchange(a, b, m, p, 0, 0, oc);
    OpenDestination(b, q, 0, oc);
    var a1, b1 := MessageOut(a, m, oc, 0), MessageIn(b, q, oc, 0);
    var a2, b2 := MessageIn(a1, Ack(q), oc, 0), MessageOut(b1, p, oc, 0);
    var a3 := MessageIn(a2, r, oc, 0);
    TracePlays([World(a, b), World(a1, b), World(a1, b1), World(a2, b1), World(a2, b2), World(a3, b2)], vs, id);
    t :| t in a3.ended && t.state.SrcSuccess? && t.head.opcode.Request? && t.head.tid == q.tid && t.status.Success?;
    assert Ack(r).Opcode().Response?;
    OnlyRequestWasHandled(ta, tb, vs, id, A, t, q);
  }
}
