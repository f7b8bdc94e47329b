/** The four machines of one transaction as functions on its fields: the ack
    requestor, the ack responder, the source machine and the destination
    machine, one function per label of the original state machines. */
module TransactionSpec {
  import opened Messages

  datatype Status = Ongoing | Success | Failure

  datatype ReqState = ReqInit | ReqWaitAck | ReqRetransmit | ReqSuccess | ReqFailure

  datatype RspState = RspInit | RspReturnAck | RspPiggybacking | RspReturnDuplicate

  datatype State =
    | SrcInit | SrcWaitResponse | SrcProcess | SrcWaitAck | SrcFailure | SrcSuccess
    | DstInit | DstWaitResponse | DstSendResponse | DstFailure | DstSuccess
  {
    predicate Src?() {
      SrcInit? || SrcWaitResponse? || SrcProcess? || SrcWaitAck? || SrcFailure? || SrcSuccess?
    }
  }

  /** The message slots the machines share. A pointer that is not set yet is BLANK. */
  datatype Slots = Slots(inMsg: Message, inAvail: bool, outMsg: Message, outAvail: bool)

  /** What a transaction copies from the message that starts it. */
  datatype Head = Head(opcode: Opcode, tid: uint16, my: Id, peer: Id, multicast: bool)

  /** Ack requestor fields, and the history `outs` of the transaction's own
      message: the first transmission and every retransmission. */
  datatype Requestor = Requestor(state: ReqState, status: Status, rtxctr: uint32, when: uint32, outs: seq<Message>)

  /** Ack responder fields, and the history `acks` of what the responder sent. */
  datatype Responder = Responder(state: RspState, ack: Message, dup: Message, acks: seq<Message>)

  /** A transaction. `handled` is the history of messages given to the handler. */
  datatype Txn = Txn(
    head: Head, slots: Slots, req: Requestor, rsp: Responder,
    state: State, status: Status, stopWhen: uint32,
    startReq: bool, startRsp: bool, responseReceived: bool,
    handled: seq<Message>)

  const BLANK := Message(Mid(Confirm, 0), false, false, 0, "", "", [])

  /** The fields as constructed; `rtxctr` is left uninitialised by the original. */
  function Fresh(state: State, slots: Slots, rtxctr: uint32): Txn {
    Txn(Head(Confirm, 0, "", "", false), slots,
        Requestor(ReqInit, Ongoing, rtxctr, 0, []),
        Responder(RspInit, BLANK, BLANK, []),
        state, Ongoing, 0, false, false, false, [])
  }

  // ----- ack requestor

  function AckRequestor(q: Requestor, s: Slots): Requestor {
    match q.state
    case ReqInit => ReqBegin(q.(status := Ongoing, rtxctr := 0), s)
    case ReqWaitAck =>
      if q.when != 0 then ReqAwait(q, s)
      else if q.rtxctr < 2 then ReqResend(q, s) else ReqFail(q)
    case ReqRetransmit => ReqResend(q, s)
    case ReqSuccess => ReqSucceed(q)
    case ReqFailure => ReqFail(q)
  }

  function ReqBegin(q: Requestor, s: Slots): Requestor {
    ReqAwait(q.(state := ReqWaitAck, when := 5), s)
  }

  function ReqAwait(q: Requestor, s: Slots): Requestor {
    if s.inAvail && s.inMsg.ackrsp then ReqSucceed(q) else q
  }

  function ReqResend(q: Requestor, s: Slots): Requestor {
    ReqBegin(q.(state := ReqRetransmit, outs := q.outs + [s.outMsg], rtxctr := Inc32(q.rtxctr)), s)
  }

  function ReqFail(q: Requestor): Requestor { q.(state := ReqFailure, status := Failure) }

  function ReqSucceed(q: Requestor): Requestor { q.(state := ReqSuccess, status := Success) }

  // ----- ack responder

  /** The responder also consumes the incoming message and marks the outgoing one. */
  datatype Responded = Responded(rsp: Responder, slots: Slots)

  function AckResponder(p: Responder, s: Slots, h: Head): Responded {
    match p.state
    case RspInit =>
      var p := p.(ack := Message(s.inMsg.mid, false, true, h.tid, h.my, h.peer, []));
      if s.outAvail then RspPiggyback(p, s)
      else var r := RspSend(p, s, p.ack); RspAwait(r.rsp, r.slots)
    case RspReturnAck => RspAwait(p, s)
    case RspPiggybacking => RspPiggyback(p, s)
    case RspReturnDuplicate => RspRepeat(p, s)
  }

  function RspSend(p: Responder, s: Slots, m: Message): Responded {
    Responded(p.(acks := p.acks + [m]), s.(inAvail := false))
  }

  function RspAwait(p: Responder, s: Slots): Responded {
    var p := p.(state := RspReturnAck);
    if s.inAvail then RspSend(p, s, p.ack)
    else if s.outAvail then RspPiggyback(p, s)
    else Responded(p, s)
  }

  function RspPiggyback(p: Responder, s: Slots): Responded {
    var out := s.outMsg.(ackrsp := true);
    var p, s := p.(state := RspPiggybacking, dup := out), s.(outMsg := out);
    if s.inAvail then RspRepeat(p, s) else Responded(p, s)
  }

  function RspRepeat(p: Responder, s: Slots): Responded {
    var p := p.(state := RspReturnDuplicate);
    if s.inAvail then RspSend(p, s, p.dup) else Responded(p, s)
  }

  // ----- running a responder or requestor that has been started

  function StepRequestor(t: Txn): Txn {
    if t.startReq then t.(req := AckRequestor(t.req, t.slots)) else t
  }

  function StepResponder(t: Txn): Txn {
    if t.startRsp then
      var r := AckResponder(t.rsp, t.slots, t.head); t.(rsp := r.rsp, slots := r.slots)
    else t
  }

  // ----- source machine

  function SrcRun(t: Txn, oc: Outcome): Txn {
    match t.state
    case SrcInit => SrcStart(t, oc)
    case SrcWaitResponse => SrcAwaitResponse(t, oc)
    case SrcWaitAck => SrcAwaitAck(t)
    case SrcProcess => SrcHandle(t, oc)
    case SrcFailure => SrcFail(t)
    case SrcSuccess => SrcSucceed(t)
    case _ => t  // not a source state
  }

  function SrcStart(t: Txn, oc: Outcome): Txn {
    var out := t.slots.outMsg;
    var t := StepRequestor(t.(
      head := Head(out.Opcode(), out.tid, out.source, out.destination, out.IsMulticast()),
      status := Ongoing, responseReceived := false, stopWhen := 15,
      startReq := out.ackreq && !out.IsMulticast(),
      req := t.req.(outs := t.req.outs + [out])));
    match t.head.opcode
    case Indication =>
      if t.startReq then SrcAwaitAck(t.(req := t.req.(status := Ongoing))) else SrcSucceed(t)
    case Response => SrcSucceed(t)
    case Request => SrcAwaitResponse(t, oc)
    case Confirm => SrcAwaitAck(t)  // falls through the disabled assertion
  }

  function SrcAwaitAck(t: Txn): Txn {
    match t.req.status
    case Success => SrcSucceed(t)
    case Failure => SrcFail(t)
    case Ongoing => t.(state := SrcWaitAck)
  }

  function SrcAwaitResponse(t: Txn, oc: Outcome): Txn {
    if t.stopWhen == 0 then if t.responseReceived then SrcSucceed(t) else SrcFail(t)
    else if t.slots.inAvail then SrcHandle(t, oc)
    else t.(state := SrcWaitResponse)
  }

  function SrcHandle(t: Txn, oc: Outcome): Txn {
    var t := StepResponder(t.(startRsp := t.slots.inMsg.ackreq, slots := t.slots.(outAvail := false)));
    var t := t.(handled := t.handled + [t.slots.inMsg], responseReceived := true,
                slots := t.slots.(inAvail := false, outMsg := oc.out));
    if !t.head.multicast || t.stopWhen == 0 then SrcSucceed(t) else t.(state := SrcWaitResponse)
  }

  function SrcFail(t: Txn): Txn { t.(status := Failure, state := SrcFailure) }

  function SrcSucceed(t: Txn): Txn { t.(status := Success, state := SrcSuccess) }

  // ----- destination machine

  function DstRun(t: Txn, oc: Outcome): Txn {
    match t.state
    case DstInit => DstStart(t, oc)
    case DstWaitResponse => DstAwaitResponse(t)
    case DstSendResponse => DstAwaitAck(t)
    case DstFailure => DstFail(t)
    case DstSuccess => DstSucceed(t)
    case _ => t  // not a destination state
  }

  function DstStart(t: Txn, oc: Outcome): Txn {
    var m := t.slots.inMsg;
    var t := StepResponder(t.(
      head := Head(m.Opcode(), m.tid, m.destination, m.source, m.IsMulticast()),
      status := Ongoing, stopWhen := 15, startRsp := m.ackreq && !m.IsMulticast(),
      handled := t.handled + [m], slots := Slots(m, false, oc.out, oc.avail)));
    if t.head.opcode.Indication? || t.head.opcode.Response? then DstSucceed(t)
    else DstAwaitResponse(t)
  }

  function DstAwaitResponse(t: Txn): Txn {
    if t.stopWhen == 0 then DstFail(t)
    else if t.slots.outAvail && (!t.startRsp || t.slots.outMsg.ackrsp) then DstSend(t)
    else t.(state := DstWaitResponse)
  }

  function DstSend(t: Txn): Txn {
    var t := StepRequestor(t.(state := DstSendResponse, startReq := t.slots.outMsg.ackreq));
    DstAwaitAck(t.(req := t.req.(status := Ongoing, outs := t.req.outs + [t.slots.outMsg])))
  }

  function DstAwaitAck(t: Txn): Txn {
    if !t.startReq || t.req.status.Success? then DstSucceed(t)
    else if t.req.status.Failure? then DstFail(t)
    else t
  }

  function DstFail(t: Txn): Txn { t.(state := DstFailure, status := Failure) }

  function DstSucceed(t: Txn): Txn { t.(state := DstSuccess, status := Success) }

  // ----- what the dispatchers and the timer do to one transaction

  /** A new source transaction, run once. */
  function SrcNew(m: Message, rtxctr: uint32, oc: Outcome): Txn {
    SrcRun(Fresh(SrcInit, Slots(BLANK, false, m, true), rtxctr), oc)
  }

  /** A new destination transaction, run once. */
  function DstNew(m: Message, rtxctr: uint32, oc: Outcome): Txn {
    DstRun(Fresh(DstInit, Slots(m, true, BLANK, false), rtxctr), oc)
  }

  function Receive(t: Txn, m: Message): Txn { t.(slots := t.slots.(inMsg := m, inAvail := true)) }

  function Submit(t: Txn, m: Message): Txn { t.(slots := t.slots.(outMsg := m, outAvail := true)) }

  /** An incoming message routed to a source transaction. */
  function SrcDeliver(t: Txn, m: Message, oc: Outcome): Txn {
    var t := StepResponder(StepRequestor(Receive(t, m)));
    if t.status.Ongoing? && !m.IsRequestAck() then SrcRun(t, oc) else t
  }

  /** An outgoing request or indication that names a pooled source transaction. */
  function SrcResubmit(t: Txn, m: Message, oc: Outcome): Txn {
    var t := StepResponder(StepRequestor(Submit(t, m)));
    if t.status.Ongoing? then SrcRun(t, oc) else t
  }

  /** An incoming message routed to a destination transaction. */
  function DstDeliver(t: Txn, m: Message, oc: Outcome): Txn {
    var t := StepRequestor(Receive(t, m));
    var t := if t.status.Ongoing? then DstRun(t, oc) else t;
    if t.status.Ongoing? then StepResponder(t) else t
  }

  /** An outgoing response that names a pooled destination transaction. */
  function DstRespond(t: Txn, m: Message, oc: Outcome): Txn {
    var t := StepResponder(StepRequestor(Submit(t, m)));
    if t.status.Ongoing? then DstRun(t, oc) else t
  }

  /** A dispatcher removes the transaction it stepped when both machines are done. */
  predicate Closed(t: Txn) { !t.status.Ongoing? && !t.req.status.Ongoing? }

  function Run(t: Txn, oc: Outcome): Txn {
    if t.state.Src?() then SrcRun(t, oc) else DstRun(t, oc)
  }

  datatype Ticked = Ticked(t: Txn, drop: bool)

  /** One second for one pooled transaction, and whether it leaves the pool. */
  function TickTxn(t: Txn, oc: Outcome): Ticked {
    var r := TickStop(t, oc);
    var t := TickRetransmission(r.t, oc);
    Ticked(t, r.drop || !t.status.Ongoing?)
  }

  function TickStop(t: Txn, oc: Outcome): Ticked {
    var t := t.(stopWhen := Dec32(t.stopWhen));
    if t.stopWhen == 0 then var t := Run(t, oc); Ticked(t, t.status.Ongoing?) else Ticked(t, false)
  }

  function TickRetransmission(t: Txn, oc: Outcome): Txn {
    if !t.req.status.Ongoing? then t
    else
      var t := t.(req := t.req.(when := Dec32(t.req.when)));
      if t.req.when == 0 then Run(t.(req := AckRequestor(t.req, t.slots)), oc) else t
  }
}
