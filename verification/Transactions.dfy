/** A transaction as the object the original keeps: its machines read and write
    the fields in place. Every method is proved against the functions of
    TransactionSpec. */
module Transactions {
  import opened Messages
  import opened TransactionSpec

  class Transaction {
    var head: Head
    var slots: Slots
    var req: Requestor
    var rsp: Responder
    var state: State
    var status: Status
    var stopWhen: uint32
    var startReq: bool
    var startRsp: bool
    var responseReceived: bool
    var handled: seq<Message>

    function View(): Txn
      reads this
    {
      Txn(head, slots, req, rsp, state, status, stopWhen, startReq, startRsp, responseReceived, handled)
    }

    /** A transaction as first constructed, with `slots` already filled in. */
    constructor (state: State, slots: Slots, junk: uint32)
      ensures View() == Fresh(state, slots, junk)
    {
      head, this.slots := Head(Confirm, 0, "", "", false), slots;
      req, rsp := Requestor(ReqInit, Ongoing, junk, 0, []), Responder(RspInit, BLANK, BLANK, []);
      this.state, status, stopWhen := state, Ongoing, 0;
      startReq, startRsp, responseReceived := false, false, false;
      handled := [];
    }

    /** The pooled transaction whose fields are `t`. */
    constructor Of(t: Txn)
      ensures View() == t
    {
      head, slots, req, rsp := t.head, t.slots, t.req, t.rsp;
      state, status, stopWhen := t.state, t.status, t.stopWhen;
      startReq, startRsp, responseReceived := t.startReq, t.startRsp, t.responseReceived;
      handled := t.handled;
    }

    method AckRequestor()
      modifies `req
      ensures req == TransactionSpec.AckRequestor(old(req), slots)
    {
      if req.state == ReqSuccess {
        req := req.(status := Success);
        return;
      }
      if req.state == ReqFailure {
        req := req.(status := Failure);
        return;
      }
      if req.state == ReqInit {
        req := req.(status := Ongoing, rtxctr := 0);
        req := req.(state := ReqWaitAck, when := 5);
      } else if req.state == ReqRetransmit || (req.when == 0 && req.rtxctr < 2) {
        req := req.(outs := req.outs + [slots.outMsg], rtxctr := Inc32(req.rtxctr));  // sends it again
        req := req.(state := ReqWaitAck, when := 5);
      } else if req.when == 0 {
        req := req.(state := ReqFailure, status := Failure);
        return;
      }
      if slots.inAvail && slots.inMsg.ackrsp {
        req := req.(state := ReqSuccess, status := Success);
      }
    }

    method AckResponder()
      modifies `rsp, `slots
      ensures Responded(rsp, slots) == TransactionSpec.AckResponder(old(rsp), old(slots), head)
    {
      if rsp.state == RspInit {
        rsp := rsp.(ack := Message(slots.inMsg.mid, false, true, head.tid, head.my, head.peer, []));
        if !slots.outAvail {
          rsp, slots := rsp.(acks := rsp.acks + [rsp.ack]), slots.(inAvail := false);  // sends the ack
          rsp := rsp.(state := RspReturnAck);
          return;
        }
      } else if rsp.state == RspReturnAck {
        if slots.inAvail {
          rsp, slots := rsp.(acks := rsp.acks + [rsp.ack]), slots.(inAvail := false);  // sends the ack
          return;
        } else if !slots.outAvail {
          return;
        }
      }
      if rsp.state != RspReturnDuplicate {
        slots := slots.(outMsg := slots.outMsg.(ackrsp := true));
        rsp := rsp.(state := RspPiggybacking, dup := slots.outMsg);
      }
      if slots.inAvail {
        rsp := rsp.(state := RspReturnDuplicate, acks := rsp.acks + [rsp.dup]);  // sends the response again
        slots := slots.(inAvail := false);
      }
    }

    method StepRequestor()
      modifies `req
      ensures View() == TransactionSpec.StepRequestor(old(View()))
    {
      hide TransactionSpec.AckRequestor;
      if startReq {
        AckRequestor();
      }
    }

    method StepResponder()
      modifies `rsp, `slots
      ensures View() == TransactionSpec.StepResponder(old(View()))
    {
      hide TransactionSpec.AckResponder;
      if startRsp {
        AckResponder();
      }
    }

    /** Runs the source machine; the handler, if called, does what `oc` says. */
    method SrcRun(oc: Outcome)
      requires state.Src?()
      modifies this
      ensures View() == TransactionSpec.SrcRun(old(View()), oc)
    {
      hide TransactionSpec.SrcStart, TransactionSpec.SrcAwaitResponse, TransactionSpec.SrcHandle;
      if state == SrcInit {
        SrcStart(oc);
      } else if state == SrcWaitAck {
        SrcAwaitAck();
      } else if state == SrcWaitResponse {
        SrcAwaitResponse(oc);
      } else if state == SrcProcess {
        SrcHandle(oc);
      } else if state == SrcFailure {
        status := Failure;
      } else {
        status := Success;
      }
    }

    method SrcStart(oc: Outcome)
      modifies this
      ensures View() == TransactionSpec.SrcStart(old(View()), oc)
    {
      hide TransactionSpec.StepRequestor, TransactionSpec.SrcAwaitResponse, TransactionSpec.SrcAwaitAck;
      status, responseReceived, stopWhen := Ongoing, false, 15;
      var out := slots.outMsg;
      head := Head(out.Opcode(), out.tid, out.source, out.destination, out.IsMulticast());
      startReq := out.ackreq && !head.multicast;
      req := req.(outs := req.outs + [out]);  // sends it
      assert View() == old(View()).(
        head := head, status := Ongoing, responseReceived := false, stopWhen := 15, startReq := startReq, req := req);
      StepRequestor();
      if head.opcode == Indication && startReq {
        req := req.(status := Ongoing);
        SrcAwaitAck();
      } else if head.opcode == Indication || head.opcode == Response {
        state, status := SrcSuccess, Success;
      } else if head.opcode == Request {
        SrcAwaitResponse(oc);
      } else {
        SrcAwaitAck();
      }
    }

    method SrcAwaitAck()
      modifies this
      ensures View() == TransactionSpec.SrcAwaitAck(old(View()))
    {
      state := SrcWaitAck;
      if req.status == Success {
        state, status := SrcSuccess, Success;
      } else if req.status == Failure {
        state, status := SrcFailure, Failure;
      }
    }

    method SrcAwaitResponse(oc: Outcome)
      modifies this
      ensures View() == TransactionSpec.SrcAwaitResponse(old(View()), oc)
    {
      if stopWhen == 0 {
        if responseReceived {
          state, status := SrcSuccess, Success;
        } else {
          state, status := SrcFailure, Failure;
        }
      } else if slots.inAvail {
        SrcHandle(oc);
      } else {
        state := SrcWaitResponse;
      }
    }

    method SrcHandle(oc: Outcome)
      modifies this
      ensures View() == TransactionSpec.SrcHandle(old(View()), oc)
    {
      hide TransactionSpec.StepResponder;
      startRsp, slots := slots.inMsg.ackreq, slots.(outAvail := false);
      StepResponder();
      handled := handled + [slots.inMsg];  // the handler runs
      slots := slots.(inAvail := false, outMsg := oc.out);
      responseReceived := true;
      if head.multicast && stopWhen != 0 {
        state := SrcWaitResponse;
      } else {
        state, status := SrcSuccess, Success;
      }
    }

    /** Runs the destination machine; the handler, if called, does what `oc` says. */
    method DstRun(oc: Outcome)
      requires !state.Src?()
      modifies this
      ensures View() == TransactionSpec.DstRun(old(View()), oc)
    {
      hide TransactionSpec.DstStart, TransactionSpec.DstAwaitResponse;
      if state == DstInit {
        DstStart(oc);
      } else if state == DstWaitResponse {
        DstAwaitResponse();
      } else if state == DstSendResponse {
        DstAwaitAck();
      } else if state == DstFailure {
        status := Failure;
      } else {
        status := Success;
      }
    }

    method DstStart(oc: Outcome)
      modifies this
      ensures View() == TransactionSpec.DstStart(old(View()), oc)
    {
      hide TransactionSpec.StepResponder, TransactionSpec.DstAwaitResponse;
      DstOpen(oc);
      StepResponder();
      if head.opcode == Indication || head.opcode == Response {
        state, status := DstSuccess, Success;
      } else {
        DstAwaitResponse();
      }
    }

    /** Copies what the transaction needs from its message and runs the handler. */
    method DstOpen(oc: Outcome)
      modifies this
      ensures var m := old(slots).inMsg;
        View() == old(View()).(
          head := Head(m.Opcode(), m.tid, m.destination, m.source, m.IsMulticast()),
          status := Ongoing, stopWhen := 15, startRsp := m.ackreq && !m.IsMulticast(),
          handled := old(handled) + [m], slots := Slots(m, false, oc.out, oc.avail))
    {
      var m := slots.inMsg;
      status, stopWhen := Ongoing, 15;
      head := Head(m.Opcode(), m.tid, m.destination, m.source, m.IsMulticast());
      startRsp := m.ackreq && !head.multicast;
      handled, slots := handled + [m], Slots(m, false, oc.out, oc.avail);
    }

    method DstAwaitResponse()
      modifies this
      ensures View() == TransactionSpec.DstAwaitResponse(old(View()))
    {
      hide TransactionSpec.StepRequestor, TransactionSpec.DstAwaitAck;
      state := DstWaitResponse;
      if stopWhen == 0 {
        state, status := DstFailure, Failure;
      } else if slots.outAvail && (!startRsp || slots.outMsg.ackrsp) {
        state, startReq := DstSendResponse, slots.outMsg.ackreq;
        StepRequestor();
        req := req.(status := Ongoing, outs := req.outs + [slots.outMsg]);  // sends it
        DstAwaitAck();
      }
    }

    method DstAwaitAck()
      modifies this
      ensures View() == TransactionSpec.DstAwaitAck(old(View()))
    {
      if !startReq || req.status == Success {
        state, status := DstSuccess, Success;
      } else if req.status == Failure {
        state, status := DstFailure, Failure;
      }
    }

    /** An incoming message for a source transaction. */
    method SrcDeliver(m: Message, oc: Outcome)
      requires state.Src?()
      modifies this
      ensures View() == TransactionSpec.SrcDeliver(old(View()), m, oc)
    {
      hide TransactionSpec.StepRequestor, TransactionSpec.StepResponder, TransactionSpec.SrcRun;
      slots := slots.(inMsg := m, inAvail := true);
      ghost var t := View();
      StepRequestor();
      StepResponder();
      assert View() == TransactionSpec.StepResponder(TransactionSpec.StepRequestor(t));
      if status == Ongoing && !m.IsRequestAck() {
        SrcRun(oc);
      }
    }

    /** An outgoing message that names a source transaction. */
    method SrcResubmit(m: Message, oc: Outcome)
      requires state.Src?()
      modifies this
      ensures View() == TransactionSpec.SrcResubmit(old(View()), m, oc)
    {
      hide TransactionSpec.StepRequestor, TransactionSpec.StepResponder, TransactionSpec.SrcRun;
      slots := slots.(outMsg := m, outAvail := true);
      ghost var t := View();
      StepRequestor();
      StepResponder();
      assert View() == TransactionSpec.StepResponder(TransactionSpec.StepRequestor(t));
      if status == Ongoing {
        SrcRun(oc);
      }
    }

    /** An incoming message for a destination transaction. */
    method DstDeliver(m: Message, oc: Outcome)
      requires !state.Src?()
      modifies this
      ensures View() == TransactionSpec.DstDeliver(old(View()), m, oc)
    {
      hide TransactionSpec.StepRequestor, TransactionSpec.StepResponder, TransactionSpec.DstRun;
      slots := slots.(inMsg := m, inAvail := true);
      StepRequestor();
      if status == Ongoing {
        DstRun(oc);
      }
      if status == Ongoing {
        StepResponder();
      }
    }

    /** An outgoing response for a destination transaction. */
    method DstRespond(m: Message, oc: Outcome)
      requires !state.Src?()
      modifies this
      ensures View() == TransactionSpec.DstRespond(old(View()), m, oc)
    {
      hide TransactionSpec.StepRequestor, TransactionSpec.StepResponder, TransactionSpec.DstRun;
      slots := slots.(outMsg := m, outAvail := true);
      ghost var t := View();
      StepRequestor();
      StepResponder();
      assert View() == TransactionSpec.StepResponder(TransactionSpec.StepRequestor(t));
      if status == Ongoing {
        DstRun(oc);
      }
    }

    method Run(oc: Outcome)
      modifies this
      ensures View() == TransactionSpec.Run(old(View()), oc)
    {
      if state.Src?() {
        SrcRun(oc);
      } else {
        DstRun(oc);
      }
    }

    /** One second of the pool's timer, and whether the transaction is to go. */
    method Tick(oc: Outcome) returns (drop: bool)
      modifies this
      ensures Ticked(View(), drop) == TickTxn(old(View()), oc)
    {
      hide TransactionSpec.Run, TransactionSpec.AckRequestor;
      drop := false;
      stopWhen := Dec32(stopWhen);
      if stopWhen == 0 {
        Run(oc);
        drop := status == Ongoing;
      }
      if req.status == Ongoing {
        req := req.(when := Dec32(req.when));
        if req.when == 0 {
          AckRequestor();
          Run(oc);
        }
      }
      drop := drop || status != Ongoing;
    }
  }
}
