/** What every step keeps of one pooled transaction: the arithmetic that links
    its two countdowns, how often its message has left, and when its responder
    and requestor can be in which state. */
module TransactionInvariants {
  import opened Messages
  import opened TransactionSpec

  /** The requestor was never started. Its countdown is decremented all the
      same, so it wraps below zero on the first tick. */
  predicate Unstarted(t: Txn) {
    && t.req.state.ReqInit? && !t.startReq && t.req.status.Ongoing?
    && t.req.when == if t.stopWhen == 15 then 0 else 0x1_0000_0000 - (15 - t.stopWhen)
  }

  /** Every message the transaction sent beyond the first is a retransmission,
      and the two countdowns run in step. */
  predicate SrcStarted(t: Txn) {
    && (t.req.state.ReqWaitAck? || t.req.state.ReqSuccess?)
    && (t.req.state.ReqWaitAck? <==> t.req.status.Ongoing?)
    && (t.req.state.ReqSuccess? <==> t.req.status.Success?)
    && t.req.rtxctr <= 2 && |t.req.outs| == 1 + t.req.rtxctr
    && (t.req.status.Ongoing? ==> 1 <= t.req.when <= 5 && t.stopWhen == 5 * (2 - t.req.rtxctr) + t.req.when)
  }

  predicate SrcTimers(t: Txn) {
    && 1 <= t.stopWhen <= 15
    && (if t.startReq then SrcStarted(t) else Unstarted(t) && |t.req.outs| == 1)
  }

  /** A source transaction between steps. */
  predicate SrcInv(t: Txn) {
    && SrcTimers(t)
    && (t.state.SrcWaitResponse? || t.state.SrcWaitAck? || t.state.SrcFailure? || t.state.SrcSuccess?)
    && (t.status.Ongoing? <==> t.state.SrcWaitResponse? || t.state.SrcWaitAck?)
    && (t.status.Success? <==> t.state.SrcSuccess?)
    && (t.state.SrcWaitResponse? ==> t.head.opcode.Request?)
    && (t.state.SrcWaitAck? ==> t.startReq && !t.head.opcode.Request?)
    // only an answer given to the handler completes a request
    && (t.responseReceived <==> t.handled != [])
    && (t.status.Success? && t.head.opcode.Request? ==> t.handled != [])
    // a message still waiting in the slot cannot be taken up by a tick
    && (t.slots.inAvail && t.startReq && t.req.status.Ongoing? ==>
          !t.slots.inMsg.ackrsp && !t.state.SrcWaitResponse?)
  }

  /** A destination transaction between steps. */
  predicate DstInv(t: Txn) {
    && t.status.Ongoing? && 1 <= t.stopWhen <= 15 && |t.handled| == 1
    && (t.head.opcode.Request? || t.head.opcode.Confirm?)
    && (t.state.DstWaitResponse? || t.state.DstSendResponse?)
    && (t.state.DstWaitResponse? ==> DstWaiting(t))
    && (t.state.DstSendResponse? ==> DstSending(t))
  }

  predicate DstWaiting(t: Txn) {
    && Unstarted(t) && t.req.outs == [] && !t.slots.outAvail
    && (t.startRsp ==> t.rsp.state.RspReturnAck? && !t.slots.inAvail)
  }

  predicate DstSending(t: Txn) {
    && t.startReq && t.req.status.Ongoing? && t.slots.outAvail
    && (t.req.state.ReqWaitAck? || t.req.state.ReqSuccess?)
    && 1 <= t.req.when <= 5 && t.req.rtxctr <= 2 && |t.req.outs| == 1 + t.req.rtxctr
    && (t.req.state.ReqSuccess? ==> !t.startRsp)
    && (t.startRsp ==> !t.slots.inAvail && t.rsp.dup.ackrsp)
    && (t.startRsp ==> t.rsp.state.RspReturnDuplicate? || (t.rsp.state.RspPiggybacking? && t.rsp.dup == t.slots.outMsg))
    && (t.slots.inAvail && t.req.state.ReqWaitAck? ==> !t.slots.inMsg.ackrsp)
  }

  // ----- the responder, seen from the machines around it

  lemma ResponderFrame(t: Txn)
    ensures var r := StepResponder(t);
      && r == t.(rsp := r.rsp, slots := r.slots)
      && r.slots.inMsg == t.slots.inMsg && r.slots.outAvail == t.slots.outAvail
      && (r.slots.inAvail ==> t.slots.inAvail && !t.startRsp)
  {
  }

  // ----- source transactions

  lemma SrcNewInv(m: Message, rtxctr: uint32, oc: Outcome)
    requires !m.Opcode().Confirm?
    ensures var t := SrcNew(m, rtxctr, oc);
      && t.head == Head(m.Opcode(), m.tid, m.source, m.destination, m.IsMulticast())
      && t.req.outs == [m] && t.rsp.acks == [] && t.handled == []
      && (t.status.Ongoing? ==> SrcInv(t) && t.stopWhen == 15)
  {
    hide StepResponder, SrcHandle;
  }

  lemma SrcRequestorKeeps(t: Txn, m: Message)
    requires SrcInv(t)
    ensures SrcTimers(StepRequestor(Receive(t, m)))
    ensures m.ackrsp ==> StepRequestor(Receive(t, m)).req.status.Success? || !t.startReq
    ensures !m.ackrsp ==> StepRequestor(Receive(t, m)).req == t.req
    ensures StepRequestor(Receive(t, m)).req.outs == t.req.outs
  {
  }

  lemma SrcRunKeeps(t: Txn, oc: Outcome)
    requires SrcTimers(t) && t.status.Ongoing?
    requires || (t.state.SrcWaitResponse? && t.head.opcode.Request?)
             || (t.state.SrcWaitAck? && !t.head.opcode.Request? && t.startReq)
    requires t.responseReceived <==> t.handled != []
    requires t.slots.inAvail && t.startReq && t.req.status.Ongoing? ==> !t.slots.inMsg.ackrsp
    ensures SrcInv(SrcRun(t, oc))
    ensures SrcRun(t, oc).head == t.head && SrcRun(t, oc).stopWhen == t.stopWhen
  {
    hide StepResponder, AckResponder;
    ResponderFrame(t.(startRsp := t.slots.inMsg.ackreq, slots := t.slots.(outAvail := false)));
  }

  lemma SrcDeliverKeeps(t: Txn, m: Message, oc: Outcome)
    requires SrcInv(t)
    ensures SrcInv(SrcDeliver(t, m, oc))
    ensures SrcDeliver(t, m, oc).head == t.head && SrcDeliver(t, m, oc).stopWhen == t.stopWhen
  {
    hide StepResponder, AckResponder, AckRequestor, SrcRun;
    SrcRequestorKeeps(t, m);
    var t1 := StepRequestor(Receive(t, m));
    ResponderFrame(t1);
    var t2 := StepResponder(t1);
    assert SrcTimers(t2);
    if t2.status.Ongoing? && !m.IsRequestAck() {
      SrcRunKeeps(t2, oc);
    }
  }

  lemma SrcResubmitKeeps(t: Txn, m: Message, oc: Outcome)
    requires SrcInv(t)
    ensures SrcInv(SrcResubmit(t, m, oc))
    ensures SrcResubmit(t, m, oc).head == t.head && SrcResubmit(t, m, oc).stopWhen == t.stopWhen
  {
    hide StepResponder, AckResponder, SrcRun;
    var t1 := StepRequestor(Submit(t, m));
    assert t1 == Submit(t, m);
    ResponderFrame(t1);
    var t2 := StepResponder(t1);
    assert SrcTimers(t2);
    if t2.status.Ongoing? {
      SrcRunKeeps(t2, oc);
    }
  }

  /** When the transaction timer expires. */
  lemma SrcTickStop(t: Txn, oc: Outcome)
    requires SrcInv(t)
    ensures var r := TickStop(t, oc);
      && r.t == t.(stopWhen := t.stopWhen - 1, state := r.t.state, status := r.t.status)
      && (t.stopWhen > 1 ==> r.t.state == t.state && r.t.status == t.status && !r.drop)
      && (t.stopWhen == 1 ==> r.drop || !r.t.status.Ongoing?)
      && (r.t.status.Success? && t.head.opcode.Request? ==> t.handled != [])
      && (t.head.opcode.Request? && t.stopWhen == 1 ==> !r.t.status.Ongoing?)
      && (r.t.status.Ongoing? ==> r.t.state == t.state)
      && r.t.state.Src?() && (r.t.status.Ongoing? <==> r.t.state.SrcWaitResponse? || r.t.state.SrcWaitAck?)
      && (r.t.status.Success? <==> r.t.state.SrcSuccess?)
      && !r.t.state.SrcInit? && !r.t.state.SrcProcess?
  {
    hide SrcHandle, SrcStart;
  }

  /** When the retransmission timer expires, after the transaction timer has run. */
  lemma SrcTickRetransmission(t: Txn, oc: Outcome)
    requires SrcInv(t) && (t.stopWhen == 1 ==> !t.state.SrcWaitResponse?)
    requires t.startReq
    ensures var r := TickRetransmission(t.(stopWhen := t.stopWhen - 1), oc);
      && r == t.(stopWhen := t.stopWhen - 1, req := r.req, state := r.state, status := r.status)
      && (t.stopWhen > 1 && t.status.Ongoing? ==> r.status.Ongoing? && SrcInv(r))
      && (!t.status.Ongoing? ==> r.status == t.status)
      && (r.status.Success? && t.head.opcode.Request? ==> t.handled != [])
      && |r.req.outs| <= 3
      && (r.req.outs == t.req.outs || r.req.outs == t.req.outs + [t.slots.outMsg])
  {
    hide SrcHandle, SrcStart;
    if t.req.status.Ongoing? && t.req.when == 1 {
      var u := t.(stopWhen := t.stopWhen - 1, req := AckRequestor(t.req.(when := 0), t.slots));
      assert u.req.state.ReqWaitAck? <==> t.req.rtxctr < 2;
    }
  }

  /** A requestor that was never started: its countdown wraps but does not reach
      zero again within the life of the transaction, so no tick acts on it. */
  lemma UnstartedTick(t: Txn, oc: Outcome)
    requires Unstarted(t) && 1 <= t.stopWhen <= 15
    ensures var r := TickRetransmission(t.(stopWhen := t.stopWhen - 1), oc);
      && r.req.when >= 0x1_0000_0000 - 15
      && r == t.(stopWhen := t.stopWhen - 1, req := t.req.(when := r.req.when))
      && (t.stopWhen > 1 ==> Unstarted(r))
  {
    hide Run;
  }

  /** A tick either drops a source transaction or keeps its invariant; it hands
      nothing to the handler and acknowledges nothing. */
  lemma SrcTickKeeps(t: Txn, oc: Outcome)
    requires SrcInv(t)
    ensures var r := TickTxn(t, oc);
      && (t.stopWhen == 1 || !t.status.Ongoing? ==> r.drop)
      && (!r.drop ==> SrcInv(r.t) && r.t.status.Ongoing? && r.t.stopWhen == t.stopWhen - 1)
      && r.t == t.(stopWhen := t.stopWhen - 1, req := r.t.req, state := r.t.state, status := r.t.status)
      && |r.t.req.outs| <= 3
      && (r.t.req.outs == t.req.outs || r.t.req.outs == t.req.outs + [t.slots.outMsg])
      && (r.t.status.Success? && t.head.opcode.Request? ==> t.handled != [])
  {
    hide TickStop, TickRetransmission;
    SrcTickStop(t, oc);
    var r := TickStop(t, oc);
    var u := t.(state := r.t.state, status := r.t.status);
    assert r.t == u.(stopWhen := u.stopWhen - 1);
    if t.startReq {
      SrcTickRetransmission(u, oc);
    } else {
      UnstartedTick(u, oc);
    }
  }

  // ----- destination transactions

  /** A destination transaction with its fields set and the handler called. */
  function Opened(m: Message, rtxctr: uint32, oc: Outcome): Txn {
    Fresh(DstInit, Slots(m, false, oc.out, oc.avail), rtxctr).(
      head := Head(m.Opcode(), m.tid, m.destination, m.source, m.IsMulticast()),
      stopWhen := 15, startRsp := m.ackreq && !m.IsMulticast(), handled := [m])
  }

  /** At first the responder sends the bare ack, or marks a response that is there. */
  lemma OpenedResponder(m: Message, rtxctr: uint32, oc: Outcome)
    ensures var t := Opened(m, rtxctr, oc); var out := oc.out.(ackrsp := true);
      var ack := Message(m.mid, false, true, m.tid, m.destination, m.source, []);
      StepResponder(t) ==
        if !t.startRsp then t
        else if oc.avail then t.(slots := t.slots.(outMsg := out), rsp := Responder(RspPiggybacking, ack, out, []))
        else t.(rsp := Responder(RspReturnAck, ack, BLANK, [ack]))
  {
    var ack := Message(m.mid, false, true, m.tid, m.destination, m.source, []);
    assert [] + [ack] == [ack];
  }

  /** A new destination transaction gives its message to the handler once. It
      stays only while it waits for a response, or for the ack of one. */
  lemma DstNewInv(m: Message, rtxctr: uint32, oc: Outcome)
    ensures var t := DstNew(m, rtxctr, oc);
      && t.head == Head(m.Opcode(), m.tid, m.destination, m.source, m.IsMulticast())
      && t.handled == [m] && t.startRsp == (m.ackreq && !m.IsMulticast()) && !t.state.Src?()
      && (t.status.Ongoing? ==> DstInv(t) && t.stopWhen == 15)
      && (t.status.Ongoing? <==>
            (m.Opcode().Request? || m.Opcode().Confirm?) && (oc.avail ==> oc.out.ackreq))
  {
    hide StepResponder;
    OpenedResponder(m, rtxctr, oc);
    assert [] + [m] == [m];
  }

  /** While the responder is on, a message that is not an ack causes exactly one
      send and nothing else: the bare ack before there is a response, the stored
      response afterwards. */
  lemma DstDuplicateAnswered(t: Txn, m: Message, oc: Outcome)
    requires DstInv(t) && t.startRsp && !m.ackrsp
    ensures var r := DstDeliver(t, m, oc);
      && DstInv(r)
      && r == t.(slots := t.slots.(inMsg := m), rsp := t.rsp.(
                 state := if t.state.DstWaitResponse? then RspReturnAck else RspReturnDuplicate,
                 acks := t.rsp.acks + [if t.state.DstWaitResponse? then t.rsp.ack else t.rsp.dup]))
  {
    hide DstStart, DstSend;
  }

  /** An ack ends a transaction that is waiting for one. */
  lemma DstAckEnds(t: Txn, m: Message, oc: Outcome)
    requires DstInv(t) && t.state.DstSendResponse? && m.ackrsp
    ensures var r := DstDeliver(t, m, oc);
      && Closed(r) && r.status.Success? && r.req.outs == t.req.outs
      && r == Receive(t, m).(req := r.req, state := DstSuccess, status := Success)
  {
    hide DstStart, DstSend, AckResponder;
  }

  lemma DstDeliverUnresponsive(t: Txn, m: Message, oc: Outcome)
    requires DstInv(t) && (!t.startRsp || t.state.DstWaitResponse?)
    ensures var r := DstDeliver(t, m, oc);
      && (Closed(r) || DstInv(r)) && !r.state.Src?()
      && r == t.(slots := r.slots, rsp := t.rsp.(acks := r.rsp.acks), req := r.req,
                 state := r.state, status := r.status)
      && r.slots == t.slots.(inMsg := m, inAvail := r.slots.inAvail)
      && r.req.outs == t.req.outs
      && (r.rsp.acks == t.rsp.acks || (t.startRsp && r.rsp.acks == t.rsp.acks + [t.rsp.ack]))
  {
    hide DstStart, DstSend;
  }

  lemma DstDeliverKeeps(t: Txn, m: Message, oc: Outcome)
    requires DstInv(t)
    ensures var r := DstDeliver(t, m, oc);
      && r.head == t.head && r.stopWhen == t.stopWhen && r.handled == t.handled
      && |r.req.outs| <= 3 && !r.state.Src?()
      && (Closed(r) || DstInv(r))
  {
    hide DstDeliver;
    if t.startRsp && !m.ackrsp {
      DstDuplicateAnswered(t, m, oc);
    } else if t.startRsp && t.state.DstSendResponse? {
      DstAckEnds(t, m, oc);
    } else {
      DstDeliverUnresponsive(t, m, oc);
    }
  }

  /** The first response leaves once and the transaction waits for its ack, even
      if an ack was lying in the input slot. */
  lemma DstFirstResponse(t: Txn, m: Message, oc: Outcome)
    requires DstInv(t) && t.state.DstWaitResponse? && m.ackreq
    ensures var r := DstRespond(t, m, oc);
      && DstInv(r) && r.state.DstSendResponse? && r.req.outs == [r.slots.outMsg]
      && r == t.(slots := r.slots, startReq := true, state := DstSendResponse, rsp := r.rsp, req := r.req)
  {
    hide DstStart;
  }

  lemma DstRespondKeeps(t: Txn, m: Message, oc: Outcome)
    requires DstInv(t) && m.ackreq
    ensures var r := DstRespond(t, m, oc);
      && r.head == t.head && r.stopWhen == t.stopWhen && r.handled == t.handled
      && |r.req.outs| <= 3 && !r.state.Src?()
      && (Closed(r) || DstInv(r))
  {
    if t.state.DstWaitResponse? {
      hide DstRespond;
      DstFirstResponse(t, m, oc);
    } else {
      hide DstStart, DstSend;
    }
  }

  lemma DstWaitingTick(t: Txn, oc: Outcome)
    requires DstInv(t) && t.state.DstWaitResponse?
    ensures var r := TickTxn(t, oc);
      && (r.drop <==> t.stopWhen == 1) && (r.drop ==> r.t.status.Failure?) && !r.t.state.Src?()
      && (!r.drop ==> DstInv(r.t) && r.t.stopWhen == t.stopWhen - 1)
      && r.t == t.(stopWhen := t.stopWhen - 1, req := t.req.(when := r.t.req.when),
                   state := r.t.state, status := r.t.status)
  {
  }

  lemma DstSendingTick(t: Txn, oc: Outcome)
    requires DstInv(t) && t.state.DstSendResponse?
    ensures var r := TickTxn(t, oc);
      && (t.stopWhen == 1 ==> r.drop)
      && (!r.drop ==> DstInv(r.t) && r.t.stopWhen == t.stopWhen - 1)
      && r.t == t.(stopWhen := t.stopWhen - 1, req := r.t.req, state := r.t.state, status := r.t.status)
      && |r.t.req.outs| <= 3 && !r.t.state.Src?()
      && (r.t.req.outs == t.req.outs || r.t.req.outs == t.req.outs + [t.slots.outMsg])
  {
    hide DstStart, DstSend;
  }

  lemma DstTickKeeps(t: Txn, oc: Outcome)
    requires DstInv(t)
    ensures var r := TickTxn(t, oc);
      && (t.stopWhen == 1 ==> r.drop)
      && (!r.drop ==> DstInv(r.t) && r.t.stopWhen == t.stopWhen - 1)
      && r.t == t.(stopWhen := t.stopWhen - 1, req := r.t.req, state := r.t.state, status := r.t.status)
      && |r.t.req.outs| <= 3 && !r.t.state.Src?()
      && (r.t.req.outs == t.req.outs || (t.slots.outAvail && r.t.req.outs == t.req.outs + [t.slots.outMsg]))
  {
    hide TickTxn;
    if t.state.DstWaitResponse? {
      DstWaitingTick(t, oc);
    } else {
      DstSendingTick(t, oc);
    }
  }
}
