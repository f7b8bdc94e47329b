/** Who sent what and why: every acknowledgement or response a transaction puts
    on the network answers a message its own handler was given. */
module TransactionMessages {
  import opened Messages
  import opened TransactionSpec
  import opened TransactionInvariants

  /** The bare acknowledgement of `q`, as the responder builds it. */
  function AckFor(q: Message, h: Head): Message {
    Message(q.mid, false, true, h.tid, h.my, h.peer, [])
  }

  /** A message that may complete a source transaction. */
  predicate Completes(m: Message, h: Head) {
    m.source == h.peer && m.tid == h.tid && m.ForSource() && !m.IsRequestAck()
  }

  /** A response to the peer of a destination transaction. */
  predicate Reply(m: Message, h: Head) {
    m.Opcode().Response? && m.destination == h.peer && m.tid == h.tid
  }

  predicate Answerable(o: Opcode) { o.Request? || o.Confirm? }

  /** `m` says something about `q`: an acknowledged indication, or a response. */
  predicate Answers(m: Message, q: Message) {
    && q.source == m.destination && q.tid == m.tid
    && (if m.Opcode().Indication? then q.Opcode().Indication? else Answerable(q.Opcode()))
  }

  /** A message that a source machine would act on is a bare request ack or
      answers something that was handled. */
  predicate Justified(m: Message, handled: set<Message>) {
    m.ForSource() ==> m.IsRequestAck() || exists q :: q in handled && Answers(m, q)
  }

  predicate SrcMsgs(t: Txn) {
    && !t.slots.outMsg.ForSource() && (forall m | m in t.req.outs :: !m.ForSource())
    && (forall m | m in t.handled :: Completes(m, t.head))
    && (|| t.rsp.state.RspInit?
        || (t.rsp.state.RspReturnAck? && exists q :: q in t.handled && t.rsp.ack == AckFor(q, t.head)))
    && (t.startRsp ==> t.rsp.state.RspReturnAck? && !t.slots.outAvail)
    && (t.rsp.state.RspInit? ==> t.rsp.acks == [])
    && (forall m | m in t.rsp.acks :: m == t.rsp.ack)
  }

  /** Nothing but responses, and only to what can be answered. */
  predicate AllReplies(s: seq<Message>, h: Head) { forall m | m in s :: Reply(m, h) && Answerable(h.opcode) }

  predicate DstMsgs(t: Txn) {
    && |t.handled| == 1 && t.handled[0].source == t.head.peer && t.handled[0].tid == t.head.tid
    && t.handled[0].Opcode() == t.head.opcode
    && AllReplies(t.req.outs, t.head)
    && (t.slots.outAvail ==> Reply(t.slots.outMsg, t.head))
    && (t.rsp.state.RspPiggybacking? || t.rsp.state.RspReturnDuplicate? ==> Reply(t.rsp.dup, t.head))
    && (if t.rsp.state.RspInit? then !t.startRsp && t.rsp.acks == [] else t.rsp.ack == AckFor(t.handled[0], t.head))
    && (forall m | m in t.rsp.acks :: m == t.rsp.ack || (Reply(m, t.head) && Answerable(t.head.opcode)))
  }

  // ----- source transactions

  lemma SrcNewMsgs(m: Message, rtxctr: uint32, oc: Outcome)
    requires !m.Opcode().Confirm? && !m.ForSource()
    ensures SrcMsgs(SrcNew(m, rtxctr, oc))
  {
    hide SrcHandle, StepResponder;
  }

  /** The responder of a source transaction only ever repeats its bare ack. */
  lemma SrcResponderMsgs(t: Txn)
    requires t.startRsp && !t.slots.outAvail
    requires t.rsp.state.RspInit? || t.rsp.state.RspReturnAck?
    requires t.rsp.state.RspInit? ==> t.rsp.acks == []
    requires forall m | m in t.rsp.acks :: m == t.rsp.ack
    ensures var r := StepResponder(t);
      && r == t.(rsp := r.rsp, slots := t.slots.(inAvail := false))
      && r.rsp.state.RspReturnAck?
      && r.rsp.ack == (if t.rsp.state.RspInit? then AckFor(t.slots.inMsg, t.head) else t.rsp.ack)
      && forall m | m in r.rsp.acks :: m == r.rsp.ack
  {
  }

  lemma SrcHandleMsgs(t: Txn, oc: Outcome)
    requires SrcMsgs(t) && Completes(t.slots.inMsg, t.head) && !oc.out.ForSource()
    ensures SrcMsgs(SrcHandle(t, oc))
    ensures forall m | m in SrcHandle(t, oc).handled :: m in t.handled || m == t.slots.inMsg
    ensures SrcHandle(t, oc).req == t.req
  {
    hide StepResponder, AckResponder;
    var u := t.(startRsp := t.slots.inMsg.ackreq, slots := t.slots.(outAvail := false));
    ResponderFrame(u);
    if u.startRsp {
      SrcResponderMsgs(u);
    } else {
      assert StepResponder(u) == u by { SrcResponderOff(u); }
    }
    var r := SrcHandle(t, oc);
    assert t.slots.inMsg in r.handled;
    forall q | q in t.handled ensures q in r.handled { }
  }

  lemma SrcResponderOff(t: Txn)
    requires !t.startRsp
    ensures StepResponder(t) == t
  {
  }

  lemma SrcDeliverMsgs(t: Txn, m: Message, oc: Outcome)
    requires SrcInv(t) && SrcMsgs(t) && m.source == t.head.peer && m.tid == t.head.tid && m.ForSource()
    requires !oc.out.ForSource()
    ensures SrcMsgs(SrcDeliver(t, m, oc))
    ensures forall q | q in SrcDeliver(t, m, oc).handled :: q in t.handled || q == m
  {
    hide StepResponder, AckResponder, AckRequestor, SrcHandle;
    SrcRequestorKeeps(t, m);
    var t1 := StepRequestor(Receive(t, m));
    var t2 := StepResponder(t1);
    if t1.startRsp {
      SrcResponderMsgs(t1);
    } else {
      SrcResponderOff(t1);
    }
    assert SrcMsgs(t2);
    if t2.status.Ongoing? && !m.IsRequestAck() {
      SrcHandleMsgs(t2, oc);
    }
  }

  lemma SrcTickMsgs(t: Txn, oc: Outcome)
    requires SrcInv(t) && SrcMsgs(t)
    ensures SrcMsgs(TickTxn(t, oc).t)
  {
    hide TickTxn;
    SrcTickKeeps(t, oc);
  }

  // ----- destination transactions

  lemma DstNewMsgs(m: Message, rtxctr: uint32, oc: Outcome)
    requires oc.avail ==> oc.out.Opcode().Response? && oc.out.destination == m.source && oc.out.tid == m.tid
    ensures DstMsgs(DstNew(m, rtxctr, oc))
  {
    hide StepResponder, DstAwaitResponse;
    OpenedResponder(m, rtxctr, oc);
    var t := StepResponder(Opened(m, rtxctr, oc));
    assert [] + [m] == [m] && DstMsgs(t);
    if Answerable(m.Opcode()) {
      DstAwaitMsgs(t);
    }
  }

  lemma DstAwaitMsgs(t: Txn)
    requires DstMsgs(t) && Answerable(t.head.opcode)
    ensures DstMsgs(DstAwaitResponse(t))
  {
    hide AckRequestor, AllReplies;
    if t.slots.outAvail {
      var q := if t.slots.outMsg.ackreq then AckRequestor(t.req, t.slots) else t.req;
      RequestorReplies(t.req, t.slots, t.head);
      RepliesNext(q.outs, t.slots.outMsg, t.head);
    }
  }

  lemma RepliesNext(s: seq<Message>, m: Message, h: Head)
    requires AllReplies(s, h) && Reply(m, h) && Answerable(h.opcode)
    ensures AllReplies(s + [m], h)
  {
  }

  lemma RequestorReplies(q: Requestor, s: Slots, h: Head)
    requires AllReplies(q.outs, h) && Reply(s.outMsg, h) && Answerable(h.opcode)
    ensures AllReplies(AckRequestor(q, s).outs, h)
  {
  }

  lemma DstDeliverMsgs(t: Txn, m: Message, oc: Outcome)
    requires DstInv(t) && DstMsgs(t)
    ensures DstMsgs(DstDeliver(t, m, oc))
  {
    hide DstDeliver;
    if t.startRsp && !m.ackrsp {
      DstDuplicateAnswered(t, m, oc);
    } else if t.startRsp && t.state.DstSendResponse? {
      DstAckEnds(t, m, oc);
    } else {
      DstDeliverUnresponsive(t, m, oc);
    }
  }

  lemma DstRespondMsgs(t: Txn, m: Message, oc: Outcome)
    requires DstInv(t) && DstMsgs(t) && Reply(m, t.head)
    ensures DstMsgs(DstRespond(t, m, oc))
  {
    hide AckRequestor, DstStart, DstAwaitResponse, AllReplies;
    RequestorReplies(t.req, t.slots.(outMsg := m, outAvail := true), t.head);
    var t2 := StepResponder(StepRequestor(Submit(t, m)));
    assert DstMsgs(t2);
    DstAwaitMsgs(t2);
  }

  lemma DstTickMsgs(t: Txn, oc: Outcome)
    requires DstInv(t) && DstMsgs(t)
    ensures DstMsgs(TickTxn(t, oc).t)
  {
    hide TickTxn;
    DstTickKeeps(t, oc);
  }

  lemma DstJustified(t: Txn, m: Message, handled: set<Message>)
    requires DstMsgs(t) && (m in t.req.outs || m in t.rsp.acks) && t.handled[0] in handled
    ensures Justified(m, handled)
  {
  }
}
