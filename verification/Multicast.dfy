/** Multicast requests. Their transactions are pooled under the empty peer
    identifier, but answers are looked up under the identifier of whoever sent
    them, so no answer ever reaches one. */
module Multicast {
  import opened Messages
  import opened TransactionSpec
  import opened TransactionInvariants
  import opened NodeSpec
  import opened NodeSafety

  predicate Silent(t: Txn) {
    t.state.SrcWaitResponse? && !t.startReq && !t.startRsp && !t.slots.inAvail && t.handled == []
  }

  /** Were an answer to reach one, it would be handled and the request would go on
      waiting, exactly while no earlier answer has asked for an ack; from then on
      answers are acknowledged and dropped. */
  lemma CollectsIff(t: Txn, m: Message, oc: Outcome)
    requires SrcInv(t) && t.state.SrcWaitResponse? && t.head.multicast && !t.startReq && !m.IsRequestAck()
    requires t.startRsp ==> t.rsp.state.RspReturnAck? && !t.slots.outAvail
    ensures var r := SrcDeliver(t, m, oc);
      && r.status.Ongoing? && r.state.SrcWaitResponse?
      && r.handled == (if t.startRsp then t.handled else t.handled + [m])
      && (t.startRsp ==> r.rsp.acks == t.rsp.acks + [t.rsp.ack])
  {
    hide AckRequestor;
  }

  /** At the end of its time it succeeds exactly when it has handled an answer. */
  lemma SucceedsIffAnswered(t: Txn, oc: Outcome)
    requires SrcInv(t) && t.state.SrcWaitResponse? && !t.startReq && t.stopWhen == 1
    ensures TickTxn(t, oc).drop && (TickTxn(t, oc).t.status.Success? <==> t.handled != [])
  {
    hide SrcHandle, SrcStart, TickRetransmission;
    var r := TickStop(t, oc);
    UnstartedTick(t.(state := r.t.state, status := r.t.status), oc);
  }

  predicate Unanswered(t: Txn) {
    t.state.Src?() && t.head.peer == "" && t.head.opcode.Request? ==> t.handled == [] && !t.status.Success?
  }

  ghost predicate Deaf(n: Node) {
    && (forall k | k in n.src && k.peer == "" :: Silent(n.src[k].t))
    && (forall t | t in n.ended :: Unanswered(t))
  }

  lemma NewSilent(m: Message, junk: uint32, oc: Outcome)
    requires !m.Opcode().Confirm? && m.IsMulticast()
    ensures var t := SrcNew(m, junk, oc); t.status.Ongoing? ==> Silent(t)
    ensures Unanswered(SrcNew(m, junk, oc))
  {
    hide SrcHandle, StepResponder;
  }

  lemma ResubmitSilent(t: Txn, m: Message, oc: Outcome)
    requires SrcInv(t) && Silent(t)
    ensures Silent(SrcResubmit(t, m, oc)) && !Closed(SrcResubmit(t, m, oc))
  {
    hide SrcHandle, AckResponder, AckRequestor;
  }

  lemma TickSilent(t: Txn, oc: Outcome)
    requires SrcInv(t) && Silent(t)
    ensures var r := TickTxn(t, oc);
      && (r.drop <==> t.stopWhen == 1)
      && (if r.drop then r.t.status.Failure? && r.t.handled == [] else Silent(r.t))
  {
  }

  lemma TickDeaf(n: Node, oc: Outcome)
    requires NodeInv(n) && Deaf(n)
    ensures Deaf(TickAll(n, oc))
  {
    hide TickTxn, SrcInv, DstInv, Silent, Stepped, Allocated;
    var r := TickAll(n, oc);
    forall k | k in n.src
      ensures var x := TickTxn(n.src[k].t, oc); Unanswered(x.t) || !x.drop
      ensures var x := TickTxn(n.src[k].t, oc); k.peer == "" && !x.drop ==> Silent(x.t)
    {
      assert SrcEntry(k, n.src[k], n.clock, n.starts);
      SrcTickKeeps(n.src[k].t, oc);
      if k.peer == "" {
        TickSilent(n.src[k].t, oc);
      }
    }
    forall k | k in n.dst ensures Unanswered(TickTxn(n.dst[k].t, oc).t) {
      assert DstEntry(k, n.dst[k], n.clock);
      DstTickKeeps(n.dst[k].t, oc);
    }
  }

  lemma DeliverDeaf(n: Node, m: Message, oc: Outcome, junk: uint32)
    requires NodeInv(n) && Deaf(n) && m.source != ""
    ensures Deaf(MessageIn(n, m, oc, junk))
  {
    hide DstNew, SrcDeliver, DstDeliver, SrcInv, DstInv, Silent, Allocated;
    var k := Key(m.source, m.tid);
    if m.ForSource() && k in n.src {
      assert SrcEntry(k, n.src[k], n.clock, n.starts);
      SrcDeliverKeeps(n.src[k].t, m, oc);
    } else if !m.ForSource() && k in n.dst {
      assert DstEntry(k, n.dst[k], n.clock);
      DstDeliverKeeps(n.dst[k].t, m, oc);
    } else {
      DstNewInv(m, junk, oc);
    }
  }

  lemma SendDeaf(n: Node, m: Message, oc: Outcome, junk: uint32)
    requires NodeInv(n) && Deaf(n)
    ensures Deaf(MessageOut(n, m, oc, junk))
  {
    hide NewSrc, SrcResubmit, DstRespond, SrcInv, DstInv, Silent, Allocated;
    var m' := m.(ackreq := true);
    var k := Key(m.destination, m.tid);
    if m.Opcode().Confirm? {
    } else if m.Opcode().Response? && k in n.dst {
      assert DstEntry(k, n.dst[k], n.clock);
      DstRespondKeeps(n.dst[k].t, m', oc);
    } else if !m.Opcode().Response? && k in n.src {
      assert SrcEntry(k, n.src[k], n.clock, n.starts);
      SrcResubmitKeeps(n.src[k].t, m', oc);
      if k.peer == "" {
        ResubmitSilent(n.src[k].t, m', oc);
      }
    } else {
      NewSrcDeaf(n, m', oc, junk);
    }
  }

  lemma NewSrcDeaf(n: Node, m: Message, oc: Outcome, junk: uint32)
    requires Deaf(n) && !m.Opcode().Confirm?
    ensures Deaf(NewSrc(n, m, oc, junk))
  {
    hide SrcNew, SrcInv, Silent;
    var m' := m.(tid := NextTid(n.tid));
    SrcNewInv(m', junk, oc);
    if m.IsMulticast() {
      NewSilent(m', junk, oc);
    }
  }

  /** Over every run in which no peer calls itself by the empty identifier, no
      multicast request is ever completed or answered, live or ended. */
  lemma {:induction false} MulticastNeverSucceeds(tid: uint16, es: seq<Event>)
    requires forall e | e in es && e.Deliver? :: e.m.source != ""
    ensures Deaf(Exec(Boot(tid), es))
  {
    hide Step, NodeInv, Deaf;
    if es == [] {
      BootDeaf(tid);
    } else {
      var es', e := es[..|es| - 1], es[|es| - 1];
      assert forall x | x in es' :: x in es;
      assert e in es;
      MulticastNeverSucceeds(tid, es');
      BootInv(tid);
      ExecKeeps(Boot(tid), es');
      StepDeaf(Exec(Boot(tid), es'), e);
    }
  }

  lemma BootDeaf(tid: uint16)
    ensures Deaf(Boot(tid))
  {
  }

  lemma BootInv(tid: uint16)
    ensures NodeInv(Boot(tid))
  {
  }

  lemma StepDeaf(n: Node, e: Event)
    requires NodeInv(n) && Deaf(n) && (e.Deliver? ==> e.m.source != "")
    ensures Deaf(Step(n, e))
  {
    hide NodeInv, Deaf, MessageIn, MessageOut, TickAll;
    match e
    case Deliver(m, oc, junk) => DeliverDeaf(n, m, oc, junk);
    case Send(m, oc, junk) => SendDeaf(n, m, oc, junk);
    case Tick(oc) => TickDeaf(n, oc);
  }
}
