/** The account of what a node has sent: exactly what its transactions have. */
module Sends {
  import opened Messages
  import opened TransactionSpec
  import opened TransactionInvariants
  import opened NodeSpec
  import opened NodeSafety

  /** `u` has sent all that `t` has. */
  predicate Grows(t: Txn, u: Txn) { t.req.outs <= u.req.outs && t.rsp.acks <= u.rsp.acks }

  // ----- one transaction never takes back a message

  lemma RequestorGrows(t: Txn)
    ensures Grows(t, StepRequestor(t)) && Grows(t, t.(req := AckRequestor(t.req, t.slots)))
  {
  }

  lemma ResponderGrows(t: Txn)
    ensures Grows(t, StepResponder(t))
  {
  }

  lemma SrcHandleGrows(t: Txn, oc: Outcome)
    ensures Grows(t, SrcHandle(t, oc))
  {
    hide StepResponder;
    ResponderGrows(t.(startRsp := t.slots.inMsg.ackreq, slots := t.slots.(outAvail := false)));
  }

  lemma SrcRunGrows(t: Txn, oc: Outcome)
    requires !t.state.SrcInit?
    ensures Grows(t, SrcRun(t, oc))
  {
    hide SrcStart, SrcHandle;
    SrcHandleGrows(t, oc);
  }

  lemma DstRunGrows(t: Txn, oc: Outcome)
    requires !t.state.DstInit?
    ensures Grows(t, DstRun(t, oc))
  {
    hide DstStart, StepRequestor;
    RequestorGrows(t.(state := DstSendResponse, startReq := t.slots.outMsg.ackreq));
  }

  predicate Begun(t: Txn) { !t.state.SrcInit? && !t.state.DstInit? }

  lemma SrcStepsGrow(t: Txn, m: Message, oc: Outcome)
    requires Begun(t)
    ensures Grows(t, SrcDeliver(t, m, oc)) && Grows(t, SrcResubmit(t, m, oc))
  {
    var u, v := StepRequestor(Receive(t, m)), StepRequestor(Submit(t, m));
    RequestorGrows(Receive(t, m));
    RequestorGrows(Submit(t, m));
    ResponderGrows(u);
    ResponderGrows(v);
    assert Begun(StepResponder(u)) && Begun(StepResponder(v));
    hide StepResponder, StepRequestor, SrcRun;
    SrcRunGrows(StepResponder(u), oc);
    SrcRunGrows(StepResponder(v), oc);
  }

  lemma DstStepsGrow(t: Txn, m: Message, oc: Outcome)
    requires Begun(t)
    ensures Grows(t, DstDeliver(t, m, oc)) && Grows(t, DstRespond(t, m, oc))
  {
    var u, v := StepRequestor(Receive(t, m)), StepRequestor(Submit(t, m));
    RequestorGrows(Receive(t, m));
    RequestorGrows(Submit(t, m));
    ResponderGrows(v);
    assert Begun(u) && Begun(StepResponder(v));
    hide StepResponder, StepRequestor, DstRun;
    DstRunGrows(u, oc);
    ResponderGrows(DstRun(u, oc));
    ResponderGrows(u);
    DstRunGrows(StepResponder(v), oc);
  }

  lemma TickGrows(t: Txn, oc: Outcome)
    requires Begun(t)
    ensures Grows(t, TickTxn(t, oc).t)
  {
    var u := t.(stopWhen := Dec32(t.stopWhen));
    RunGrows(u, oc);
    var r := TickStop(t, oc).t;
    assert Begun(r) by { RunBegun(u, oc); }
    var v := r.(req := r.req.(when := Dec32(r.req.when)));
    RequestorGrows(v);
    var x := v.(req := AckRequestor(v.req, v.slots));
    assert Begun(x);
    hide Run, AckRequestor;
    RunGrows(x, oc);
  }

  lemma RunGrows(t: Txn, oc: Outcome)
    requires Begun(t)
    ensures Grows(t, Run(t, oc))
  {
    hide SrcRun, DstRun;
    if t.state.Src?() {
      SrcRunGrows(t, oc);
    } else {
      DstRunGrows(t, oc);
    }
  }

  lemma RunBegun(t: Txn, oc: Outcome)
    requires Begun(t)
    ensures Begun(Run(t, oc))
  {
    hide SrcStart, DstStart, SrcHandle, DstSend;
    HandleState(t, oc);
    SendState(t);
  }

  lemma HandleState(t: Txn, oc: Outcome)
    ensures Begun(SrcHandle(t, oc))
  {
    hide StepResponder;
  }

  lemma SendState(t: Txn)
    ensures Begun(DstSend(t))
  {
    hide AckRequestor;
  }

  // ----- the account

  /** Some transaction of the node, live or ended, has sent the message. */
  ghost predicate SentBy(n: Node, m: Message) {
    PoolSent(n.src, m) || PoolSent(n.dst, m) || SetSent(n.ended, m)
  }

  ghost predicate PoolSent(p: map<Key, Entry>, m: Message) { exists k :: k in p && m in Outs(p[k].t) }

  ghost predicate SetSent(ts: set<Txn>, m: Message) { exists t :: t in ts && m in Outs(t) }

  ghost predicate Accounted(n: Node) { forall m :: m in n.sent <==> SentBy(n, m) }

  lemma GrowsOuts(t: Txn, u: Txn)
    requires Grows(t, u)
    ensures Outs(t) <= Outs(u)
  {
    forall m | m in t.req.outs ensures m in u.req.outs {
      var i :| 0 <= i < |t.req.outs| && t.req.outs[i] == m;
      assert u.req.outs[i] == m;
    }
    forall m | m in t.rsp.acks ensures m in u.rsp.acks {
      var i :| 0 <= i < |t.rsp.acks| && t.rsp.acks[i] == m;
      assert u.rsp.acks[i] == m;
    }
  }

  lemma SrcUpdateAccounted(n: Node, k: Key, t: Txn)
    requires Accounted(n) && k in n.src && Outs(n.src[k].t) <= Outs(t)
    ensures Accounted(SrcUpdate(n, k, t))
  {
    hide Outs, Closed, Handled;
    var r := SrcUpdate(n, k, t);
    forall m ensures m in r.sent <==> SentBy(r, m) {
      assert m in n.sent <==> SentBy(n, m);
      if j :| j in n.src && m in Outs(n.src[j].t) {
        assert j == k || (j in r.src && r.src[j] == n.src[j]);
      }
      if m in Outs(t) {
        assert if Closed(t) then t in r.ended else k in r.src && r.src[k].t == t;
      }
    }
  }

  lemma DstUpdateAccounted(n: Node, k: Key, t: Txn)
    requires Accounted(n) && k in n.dst && Outs(n.dst[k].t) <= Outs(t)
    ensures Accounted(DstUpdate(n, k, t))
  {
    hide Outs, Closed, Handled;
    var r := DstUpdate(n, k, t);
    forall m ensures m in r.sent <==> SentBy(r, m) {
      assert m in n.sent <==> SentBy(n, m);
      if j :| j in n.dst && m in Outs(n.dst[j].t) {
        assert j == k || (j in r.dst && r.dst[j] == n.dst[j]);
      }
      if m in Outs(t) {
        assert if Closed(t) then t in r.ended else k in r.dst && r.dst[k].t == t;
      }
    }
  }

  lemma NewDstAccounted(n: Node, m: Message, oc: Outcome, junk: uint32)
    requires Accounted(n)
    ensures Accounted(NewDst(n, m, oc, junk))
  {
    hide Outs, DstNew, Handled;
    var r, t, k := NewDst(n, m, oc, junk), DstNew(m, junk, oc), Key(m.source, m.tid);
    forall x ensures x in r.sent <==> SentBy(r, x) {
      assert x in n.sent <==> SentBy(n, x);
      if j :| j in n.dst && x in Outs(n.dst[j].t) {
        assert j in r.dst && r.dst[j] == n.dst[j];
      }
      if x in Outs(t) {
        assert t in r.ended || (k in r.dst && r.dst[k].t == t);
      }
    }
  }

  lemma NewSrcAccounted(n: Node, m: Message, oc: Outcome, junk: uint32)
    requires Accounted(n)
    ensures Accounted(NewSrc(n, m, oc, junk))
  {
    hide Outs, SrcNew, Handled, NextTid;
    var m' := m.(tid := NextTid(n.tid));
    var r, t, k := NewSrc(n, m, oc, junk), SrcNew(m', junk, oc), Key(m'.destination, m'.tid);
    forall x ensures x in r.sent <==> SentBy(r, x) {
      assert x in n.sent <==> SentBy(n, x);
      if j :| j in n.src && x in Outs(n.src[j].t) {
        assert j in r.src && r.src[j] == n.src[j];
      }
      if x in Outs(t) {
        assert t in r.ended || (k in r.src && r.src[k].t == t);
      }
    }
  }

  lemma PoolBegun(n: Node)
    requires NodeInv(n)
    ensures (forall k | k in n.src :: Begun(n.src[k].t)) && (forall k | k in n.dst :: Begun(n.dst[k].t))
  {
    forall k | k in n.src ensures Begun(n.src[k].t) {
      assert SrcEntry(k, n.src[k], n.clock, n.starts);
    }
    forall k | k in n.dst ensures Begun(n.dst[k].t) {
      assert DstEntry(k, n.dst[k], n.clock);
    }
  }

  /** What a pool and its dropped transactions have sent after a tick. */
  lemma TickPoolSends(p: map<Key, Entry>, oc: Outcome, m: Message)
    requires forall k | k in p :: Begun(p[k].t)
    ensures PoolSent(p, m) ==> SetSent(Stepped(p, oc), m)
    ensures SetSent(Stepped(p, oc), m) <==> PoolSent(TickPool(p, oc), m) || SetSent(Dropped(p, oc), m)
  {
    hide TickTxn, Outs;
    if k :| k in p && m in Outs(p[k].t) {
      var t := TickTxn(p[k].t, oc).t;
      TickGrows(p[k].t, oc);
      GrowsOuts(p[k].t, t);
      assert t in Stepped(p, oc) && m in Outs(t);
    }
    if t :| t in Stepped(p, oc) && m in Outs(t) {
      var k :| k in p && t == TickTxn(p[k].t, oc).t;
      assert if TickTxn(p[k].t, oc).drop then t in Dropped(p, oc)
             else k in TickPool(p, oc) && TickPool(p, oc)[k].t == t;
    }
    if k :| k in TickPool(p, oc) && m in Outs(TickPool(p, oc)[k].t) {
      assert TickPool(p, oc)[k].t in Stepped(p, oc);
    }
    if t :| t in Dropped(p, oc) && m in Outs(t) {
      assert t in Stepped(p, oc);
    }
  }

  lemma TickAccounted(n: Node, oc: Outcome)
    requires NodeInv(n) && Accounted(n)
    ensures Accounted(TickAll(n, oc))
  {
    PoolBegun(n);
    hide NodeInv, TickPool, Stepped, Dropped, Outs, Begun;
    var r := TickAll(n, oc);
    var ss, ds := Stepped(n.src, oc), Stepped(n.dst, oc);
    forall m ensures m in r.sent <==> SentBy(r, m) {
      assert m in n.sent <==> SentBy(n, m);
      TickPoolSends(n.src, oc, m);
      TickPoolSends(n.dst, oc, m);
      assert m in r.sent <==> m in n.sent || SetSent(ss, m) || SetSent(ds, m);
      assert SetSent(r.ended, m) <==>
        SetSent(n.ended, m) || SetSent(Dropped(n.src, oc), m) || SetSent(Dropped(n.dst, oc), m);
    }
  }

  lemma StepAccounted(n: Node, e: Event)
    requires NodeInv(n) && Accounted(n)
    ensures Accounted(Step(n, e))
  {
    PoolBegun(n);
    hide SrcDeliver, DstDeliver, SrcResubmit, DstRespond, SrcUpdate, DstUpdate, NewDst, NewSrc, TickAll;
    hide NodeInv, Accounted, Outs, Begun, Grows;
    match e
    case Deliver(m, oc, junk) =>
      var k := Key(m.source, m.tid);
      if m.ForSource() && k in n.src {
        SrcStepsGrow(n.src[k].t, m, oc);
        GrowsOuts(n.src[k].t, SrcDeliver(n.src[k].t, m, oc));
        SrcUpdateAccounted(n, k, SrcDeliver(n.src[k].t, m, oc));
      } else if !m.ForSource() && k in n.dst {
        DstStepsGrow(n.dst[k].t, m, oc);
        GrowsOuts(n.dst[k].t, DstDeliver(n.dst[k].t, m, oc));
        DstUpdateAccounted(n, k, DstDeliver(n.dst[k].t, m, oc));
      } else {
        NewDstAccounted(n, m, oc, junk);
      }
    case Send(m, oc, junk) =>
      var m' := m.(ackreq := true);
      var k := Key(m.destination, m.tid);
      if m.Opcode().Confirm? {
      } else if m.Opcode().Response? && k in n.dst {
        DstStepsGrow(n.dst[k].t, m', oc);
        GrowsOuts(n.dst[k].t, DstRespond(n.dst[k].t, m', oc));
        DstUpdateAccounted(n, k, DstRespond(n.dst[k].t, m', oc));
      } else if !m.Opcode().Response? && k in n.src {
        SrcStepsGrow(n.src[k].t, m', oc);
        GrowsOuts(n.src[k].t, SrcResubmit(n.src[k].t, m', oc));
        SrcUpdateAccounted(n, k, SrcResubmit(n.src[k].t, m', oc));
      } else {
        NewSrcAccounted(n, m', oc, junk);
      }
    case Tick(oc) => TickAccounted(n, oc);
  }

  /** After every run a message has been sent if and only if some transaction, live or
      ended, has sent it: nothing is lost from the account and nothing invented. */
  lemma {:induction false} SentExactly(tid: uint16, es: seq<Event>)
    ensures Accounted(Exec(Boot(tid), es))
  {
    hide Step, NodeInv, SentBy;
    if es == [] {
      BootAccounted(tid);
    } else {
      var es' := es[..|es| - 1];
      SentExactly(tid, es');
      assert NodeInv(Boot(tid)) by { BootInv(tid); }
      ExecKeeps(Boot(tid), es');
      hide Accounted;
      StepAccounted(Exec(Boot(tid), es'), es[|es| - 1]);
    }
  }

  lemma BootAccounted(tid: uint16)
    ensures Accounted(Boot(tid))
  {
  }

  lemma BootInv(tid: uint16)
    ensures NodeInv(Boot(tid))
  {
  }
}
