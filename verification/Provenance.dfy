/** Where a node's messages come from: after every run of well-behaved events,
    whatever a node sent that a peer's source machine would act on is a bare
    request ack or answers a message that node handled before. */
module Provenance {
  import opened Messages
  import opened TransactionSpec
  import opened TransactionInvariants
  import opened TransactionMessages
  import opened NodeSpec
  import opened NodeSafety

  /** Handlers answer to whoever asked, under the same identifier, and leave no
      acknowledgement or response in the message of a request they complete.
      Local messages carry no ack flag, a response names a pooled destination
      transaction, and a request or indication names no pooled source one. */
  predicate Proper(n: Node, e: Event) {
    match e
    case Deliver(m, oc, _) =>
      if m.ForSource() && Key(m.source, m.tid) in n.src then !oc.out.ForSource()
      else oc.avail ==> oc.out.Opcode().Response? && oc.out.destination == m.source && oc.out.tid == m.tid
    case Send(m, oc, _) =>
      if m.Opcode().Response? then Key(m.destination, m.tid) in n.dst
      else !m.ackrsp && Key(m.destination, m.tid) !in n.src
    case Tick(_) => true
  }

  predicate Within(t: Txn, handled: set<Message>) { forall q | q in t.handled :: q in handled }

  ghost predicate SrcAll(p: map<Key, Entry>, handled: set<Message>) {
    forall k | k in p :: SrcMsgs(p[k].t) && Within(p[k].t, handled)
  }

  ghost predicate DstAll(p: map<Key, Entry>, handled: set<Message>) {
    forall k | k in p :: DstMsgs(p[k].t) && Within(p[k].t, handled)
  }

  ghost predicate EndedAll(ts: set<Txn>, handled: set<Message>) {
    forall t | t in ts && t.state.Src?() :: SrcMsgs(t) && Within(t, handled)
  }

  ghost predicate SentAll(sent: set<Message>, handled: set<Message>) {
    forall m | m in sent :: Justified(m, handled)
  }

  ghost predicate Provenant(n: Node) {
    SrcAll(n.src, n.handled) && DstAll(n.dst, n.handled) && EndedAll(n.ended, n.handled) && SentAll(n.sent, n.handled)
  }

  lemma Grows(n: Node, more: set<Message>)
    requires Provenant(n) && n.handled <= more
    ensures SrcAll(n.src, more) && DstAll(n.dst, more) && EndedAll(n.ended, more) && SentAll(n.sent, more)
  {
  }

  lemma SrcOutsJustified(t: Txn, handled: set<Message>)
    requires SrcMsgs(t) && Within(t, handled)
    ensures SentAll(Outs(t), handled)
  {
  }

  lemma DstOutsJustified(t: Txn, handled: set<Message>)
    requires DstMsgs(t) && Within(t, handled)
    ensures SentAll(Outs(t), handled)
  {
    hide Justified;
    assert t.handled[0] in handled;
    forall m | m in Outs(t) ensures Justified(m, handled) {
      DstJustified(t, m, handled);
    }
  }

  // ----- the pool operations

  lemma SrcUpdateProvenant(n: Node, k: Key, t: Txn)
    requires Provenant(n) && k in n.src && SrcMsgs(t)
    ensures Provenant(SrcUpdate(n, k, t))
  {
    hide SrcMsgs, DstMsgs, Justified;
    var more := n.handled + Handled(t);
    Grows(n, more);
    SrcOutsJustified(t, more);
  }

  lemma DstUpdateProvenant(n: Node, k: Key, t: Txn)
    requires Provenant(n) && k in n.dst && DstMsgs(t) && !t.state.Src?()
    ensures Provenant(DstUpdate(n, k, t))
  {
    hide SrcMsgs, DstMsgs, Justified;
    var more := n.handled + Handled(t);
    Grows(n, more);
    DstOutsJustified(t, more);
  }

  lemma NewDstProvenant(n: Node, m: Message, oc: Outcome, junk: uint32)
    requires Provenant(n)
    requires oc.avail ==> oc.out.Opcode().Response? && oc.out.destination == m.source && oc.out.tid == m.tid
    ensures Provenant(NewDst(n, m, oc, junk))
  {
    hide SrcMsgs, DstMsgs, Justified, DstNew;
    DstNewMsgs(m, junk, oc);
    DstNewInv(m, junk, oc);
    var t := DstNew(m, junk, oc);
    var more := n.handled + Handled(t);
    Grows(n, more);
    DstOutsJustified(t, more);
  }

  lemma NewSrcProvenant(n: Node, m: Message, oc: Outcome, junk: uint32)
    requires Provenant(n) && !m.ackrsp && (m.Opcode().Request? || m.Opcode().Indication?)
    ensures Provenant(NewSrc(n, m, oc, junk))
  {
    hide SrcMsgs, DstMsgs, Justified, SrcNew;
    var m' := m.(tid := NextTid(n.tid));
    SrcNewMsgs(m', junk, oc);
    var t := SrcNew(m', junk, oc);
    var more := n.handled + Handled(t);
    Grows(n, more);
    SrcOutsJustified(t, more);
  }

  // ----- the dispatchers and the tick

  lemma MessageInProvenant(n: Node, m: Message, oc: Outcome, junk: uint32)
    requires NodeInv(n) && Provenant(n) && Proper(n, Deliver(m, oc, junk))
    ensures Provenant(MessageIn(n, m, oc, junk))
  {
    hide SrcMsgs, DstMsgs, SrcInv, DstInv, SrcDeliver, DstDeliver, NewDst, SrcUpdate, DstUpdate;
    var k := Key(m.source, m.tid);
    if m.ForSource() && k in n.src {
      assert SrcEntry(k, n.src[k], n.clock, n.starts);
      SrcDeliverMsgs(n.src[k].t, m, oc);
      SrcUpdateProvenant(n, k, SrcDeliver(n.src[k].t, m, oc));
    } else if !m.ForSource() && k in n.dst {
      assert DstEntry(k, n.dst[k], n.clock);
      DstDeliverMsgs(n.dst[k].t, m, oc);
      DstDeliverKeeps(n.dst[k].t, m, oc);
      DstUpdateProvenant(n, k, DstDeliver(n.dst[k].t, m, oc));
    } else {
      NewDstProvenant(n, m, oc, junk);
    }
  }

  lemma MessageOutProvenant(n: Node, m: Message, oc: Outcome, junk: uint32)
    requires NodeInv(n) && Provenant(n) && Proper(n, Send(m, oc, junk))
    ensures Provenant(MessageOut(n, m, oc, junk))
  {
    hide SrcMsgs, DstMsgs, SrcInv, DstInv, DstRespond, NewSrc, SrcUpdate, DstUpdate, SrcResubmit;
    var m' := m.(ackreq := true);
    var k := Key(m.destination, m.tid);
    if m.Opcode().Response? {
      assert DstEntry(k, n.dst[k], n.clock);
      DstRespondMsgs(n.dst[k].t, m', oc);
      DstRespondKeeps(n.dst[k].t, m', oc);
      DstUpdateProvenant(n, k, DstRespond(n.dst[k].t, m', oc));
    } else if !m.Opcode().Confirm? {
      NewSrcProvenant(n, m', oc, junk);
    }
  }

  lemma SrcTickProvenant(p: map<Key, Entry>, clock: nat, starts: seq<Start>, handled: set<Message>, oc: Outcome)
    requires SrcPool(p, clock, starts) && SrcAll(p, handled)
    ensures SrcAll(TickPool(p, oc), handled) && EndedAll(Dropped(p, oc), handled)
    ensures forall t | t in Stepped(p, oc) :: SentAll(Outs(t), handled) && Within(t, handled)
  {
    hide SrcMsgs, SrcInv, TickTxn, Justified;
    forall k | k in p
      ensures var t := TickTxn(p[k].t, oc).t; SrcMsgs(t) && Within(t, handled) && SentAll(Outs(t), handled)
    {
      assert SrcEntry(k, p[k], clock, starts);
      SrcTickKeeps(p[k].t, oc);
      SrcTickMsgs(p[k].t, oc);
      SrcOutsJustified(TickTxn(p[k].t, oc).t, handled);
    }
  }

  lemma DstTickProvenant(p: map<Key, Entry>, clock: nat, handled: set<Message>, oc: Outcome)
    requires DstPool(p, clock) && DstAll(p, handled)
    ensures DstAll(TickPool(p, oc), handled) && EndedAll(Dropped(p, oc), handled)
    ensures forall t | t in Stepped(p, oc) :: SentAll(Outs(t), handled) && Within(t, handled)
  {
    hide DstMsgs, DstInv, TickTxn, Justified, SrcMsgs;
    forall k | k in p
      ensures var t := TickTxn(p[k].t, oc).t;
        DstMsgs(t) && Within(t, handled) && SentAll(Outs(t), handled) && !t.state.Src?()
    {
      assert DstEntry(k, p[k], clock);
      DstTickKeeps(p[k].t, oc);
      DstTickMsgs(p[k].t, oc);
      DstOutsJustified(TickTxn(p[k].t, oc).t, handled);
    }
  }

  lemma TickProvenant(n: Node, oc: Outcome)
    requires NodeInv(n) && Provenant(n)
    ensures Provenant(TickAll(n, oc)) && TickAll(n, oc).handled == n.handled
  {
    hide SrcAll, DstAll, TickPool, Stepped, Dropped, Justified, Outs, SrcMsgs;
    SrcTickProvenant(n.src, n.clock, n.starts, n.handled, oc);
    DstTickProvenant(n.dst, n.clock, n.handled, oc);
    var r := TickAll(n, oc);
    assert r.handled == n.handled;
    forall m | m in r.sent ensures Justified(m, n.handled) {
      if m !in n.sent {
        var t :| t in Stepped(n.src, oc) + Stepped(n.dst, oc) && m in Outs(t);
        assert SentAll(Outs(t), n.handled);
      }
    }
  }

  lemma StepProvenant(n: Node, e: Event)
    requires NodeInv(n) && Provenant(n) && Proper(n, e)
    ensures Provenant(Step(n, e))
  {
    hide NodeInv, Provenant, Proper, MessageIn, MessageOut, TickAll;
    match e
    case Deliver(m, oc, junk) => MessageInProvenant(n, m, oc, junk);
    case Send(m, oc, junk) => MessageOutProvenant(n, m, oc, junk);
    case Tick(oc) => TickProvenant(n, oc);
  }
}
