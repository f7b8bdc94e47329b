/** How often the handler is called: every call in order, when a repeated message
    is handed over again, and how long a transaction stays to prevent it. */
module HandlerCalls {
  import opened Messages
  import opened TransactionSpec
  import opened TransactionInvariants
  import opened TransactionMessages
  import opened NodeSpec
  import opened NodeSafety
  import opened Provenance
  import opened Schedules
  import opened Exchanges

  /** What a step of a transaction gave to the handler. */
  function Since(before: Txn, after: Txn): seq<Message> {
    if before.handled <= after.handled then after.handled[|before.handled|..] else after.handled
  }

  /** The handler calls of one step, in order. A tick makes none: see CallsAreHandled. */
  function Calls(n: Node, e: Event): seq<Message> {
    match e
    case Deliver(m, oc, junk) =>
      var k := Key(m.source, m.tid);
      if m.ForSource() && k in n.src then Since(n.src[k].t, SrcDeliver(n.src[k].t, m, oc))
      else if !m.ForSource() && k in n.dst then Since(n.dst[k].t, DstDeliver(n.dst[k].t, m, oc))
      else DstNew(m, junk, oc).handled
    case Send(m, oc, junk) =>
      var m := m.(ackreq := true);
      var k := Key(m.destination, m.tid);
      if m.Opcode().Confirm? then []
      else if m.Opcode().Response? && k in n.dst then Since(n.dst[k].t, DstRespond(n.dst[k].t, m, oc))
      else if !m.Opcode().Response? && k in n.src then Since(n.src[k].t, SrcResubmit(n.src[k].t, m, oc))
      else SrcNew(m.(tid := NextTid(n.tid)), junk, oc).handled
    case Tick(_) => []
  }

  /** The handler calls of a whole run. */
  function CallsOver(n: Node, es: seq<Event>): seq<Message> {
    if es == [] then []
    else CallsOver(n, es[..|es| - 1]) + Calls(Exec(n, es[..|es| - 1]), es[|es| - 1])
  }

  // ----- the calls are what the history of handled messages collects

  function Elements(ms: seq<Message>): set<Message> { set m | m in ms }

  /** What pooled transactions handled is in the node's history. */
  ghost predicate Recorded(n: Node) {
    && (forall k | k in n.src :: Within(n.src[k].t, n.handled))
    && (forall k | k in n.dst :: Within(n.dst[k].t, n.handled))
  }

  lemma SrcHandleGrows(t: Txn, oc: Outcome)
    ensures t.handled <= SrcHandle(t, oc).handled
  {
    hide StepResponder;
    ResponderFrame(t.(startRsp := t.slots.inMsg.ackreq, slots := t.slots.(outAvail := false)));
  }

  lemma SrcRunGrows(t: Txn, oc: Outcome)
    requires !t.state.SrcInit?
    ensures t.handled <= SrcRun(t, oc).handled
  {
    hide SrcStart, SrcHandle;
    SrcHandleGrows(t, oc);
  }

  lemma SrcHandledGrows(t: Txn, m: Message, oc: Outcome)
    requires !t.state.SrcInit?
    ensures t.handled <= SrcDeliver(t, m, oc).handled && t.handled <= SrcResubmit(t, m, oc).handled
  {
    hide AckRequestor, AckResponder, SrcRun;
    SrcRunGrows(StepResponder(StepRequestor(Receive(t, m))), oc);
    SrcRunGrows(StepResponder(StepRequestor(Submit(t, m))), oc);
  }

  lemma LogAdds(n: Node, before: Txn, after: Txn)
    requires Within(before, n.handled) && before.handled <= after.handled
    ensures Log(n, after).handled == n.handled + Elements(Since(before, after))
    ensures Within(after, Log(n, after).handled)
  {
    assert after.handled == before.handled + Since(before, after);
  }

  lemma NewAdds(n: Node, t: Txn)
    ensures Log(n, t).handled == n.handled + Elements(t.handled) && Within(t, Log(n, t).handled)
  {
  }

  lemma SrcUpdateRecorded(n: Node, k: Key, t: Txn)
    requires Recorded(n) && k in n.src && n.src[k].t.handled <= t.handled
    ensures var r := SrcUpdate(n, k, t);
      Recorded(r) && r.handled == n.handled + Elements(Since(n.src[k].t, t))
  {
    hide Outs, Closed, Handled, Since, Elements;
    LogAdds(n, n.src[k].t, t);
  }

  lemma DstUpdateRecorded(n: Node, k: Key, t: Txn)
    requires Recorded(n) && k in n.dst && n.dst[k].t.handled == t.handled
    ensures var r := DstUpdate(n, k, t);
      Recorded(r) && Since(n.dst[k].t, t) == [] && r.handled == n.handled
  {
    hide Outs, Closed, Elements;
    LogAdds(n, n.dst[k].t, t);
  }

  lemma NewRecorded(n: Node, m: Message, oc: Outcome, junk: uint32)
    requires Recorded(n)
    ensures var r, t := NewDst(n, m, oc, junk), DstNew(m, junk, oc);
      Recorded(r) && r.handled == n.handled + Elements(t.handled)
    ensures var r, t := NewSrc(n, m, oc, junk), SrcNew(m.(tid := NextTid(n.tid)), junk, oc);
      Recorded(r) && r.handled == n.handled + Elements(t.handled)
  {
    hide Outs, DstNew, SrcNew;
    NewAdds(n, DstNew(m, junk, oc));
    NewAdds(n, SrcNew(m.(tid := NextTid(n.tid)), junk, oc));
  }

  lemma TickRecorded(n: Node, oc: Outcome)
    requires NodeInv(n) && Recorded(n)
    ensures Recorded(TickAll(n, oc)) && TickAll(n, oc).handled == n.handled
  {
    hide TickTxn, Outs, Allocated, SrcInv, DstInv, AllFinal;
    forall k | k in n.src ensures TickTxn(n.src[k].t, oc).t.handled == n.src[k].t.handled {
      assert SrcEntry(k, n.src[k], n.clock, n.starts);
      SrcTickKeeps(n.src[k].t, oc);
    }
    forall k | k in n.dst ensures TickTxn(n.dst[k].t, oc).t.handled == n.dst[k].t.handled {
      assert DstEntry(k, n.dst[k], n.clock);
      DstTickKeeps(n.dst[k].t, oc);
    }
    forall t, m | t in Stepped(n.src, oc) + Stepped(n.dst, oc) && m in t.handled ensures m in n.handled {
      if t in Stepped(n.src, oc) {
        var k :| k in n.src && t == TickTxn(n.src[k].t, oc).t;
        assert Within(n.src[k].t, n.handled);
      } else {
        var k :| k in n.dst && t == TickTxn(n.dst[k].t, oc).t;
        assert Within(n.dst[k].t, n.handled);
      }
    }
  }

  /** A step adds to the handled messages exactly the ones it called the handler with. */
  lemma CallsAreHandled(n: Node, e: Event)
    requires NodeInv(n) && Recorded(n)
    ensures Recorded(Step(n, e)) && Step(n, e).handled == n.handled + Elements(Calls(n, e))
  {
    hide SrcDeliver, DstDeliver, SrcResubmit, DstRespond, SrcNew, DstNew, SrcUpdate, DstUpdate, NewDst, NewSrc, TickAll;
    hide SrcInv, DstInv, Recorded, Since, Allocated, AllFinal;
    match e
    case Deliver(m, oc, junk) =>
      var k := Key(m.source, m.tid);
      if m.ForSource() && k in n.src {
        assert SrcEntry(k, n.src[k], n.clock, n.starts);
        SrcNotInit(n.src[k].t);
        SrcHandledGrows(n.src[k].t, m, oc);
        SrcUpdateRecorded(n, k, SrcDeliver(n.src[k].t, m, oc));
      } else if !m.ForSource() && k in n.dst {
        assert DstEntry(k, n.dst[k], n.clock);
        DstDeliverKeeps(n.dst[k].t, m, oc);
        DstUpdateRecorded(n, k, DstDeliver(n.dst[k].t, m, oc));
      } else {
        NewRecorded(n, m, oc, junk);
      }
    case Send(m, oc, junk) =>
      var m' := m.(ackreq := true);
      var k := Key(m.destination, m.tid);
      if m.Opcode().Confirm? {
      } else if m.Opcode().Response? && k in n.dst {
        assert DstEntry(k, n.dst[k], n.clock);
        DstRespondKeeps(n.dst[k].t, m', oc);
        DstUpdateRecorded(n, k, DstRespond(n.dst[k].t, m', oc));
      } else if !m.Opcode().Response? && k in n.src {
        assert SrcEntry(k, n.src[k], n.clock, n.starts);
        SrcNotInit(n.src[k].t);
        SrcHandledGrows(n.src[k].t, m', oc);
        SrcUpdateRecorded(n, k, SrcResubmit(n.src[k].t, m', oc));
      } else {
        NewRecorded(n, m', oc, junk);
      }
    case Tick(oc) => TickRecorded(n, oc);
  }

  lemma SrcNotInit(t: Txn)
    requires SrcInv(t)
    ensures !t.state.SrcInit?
  {
  }

  /** Over every run from the start, the handled messages are the ones in the calls. */
  lemma {:induction false} RunCallsAreHandled(tid: uint16, es: seq<Event>)
    ensures Recorded(Exec(Boot(tid), es))
    ensures Exec(Boot(tid), es).handled == Elements(CallsOver(Boot(tid), es))
  {
    hide Step, Calls, NodeInv;
    if es == [] {
    } else {
      var es' := es[..|es| - 1];
      RunCallsAreHandled(tid, es');
      ExecKeeps(Boot(tid), es') by { BootInv(tid); }
      hide Recorded;
      CallsAreHandled(Exec(Boot(tid), es'), es[|es| - 1]);
    }
  }

  lemma BootInv(tid: uint16)
    ensures NodeInv(Boot(tid))
  {
  }

  // ----- when a plain message is handed over

  /** The exact condition: a message routed to the destination side is given to
      the handler if and only if no transaction is pooled under its key. */
  lemma CalledIffNotPooled(n: Node, m: Message, oc: Outcome, junk: uint32)
    requires NodeInv(n) && !m.ForSource()
    ensures Calls(n, Deliver(m, oc, junk)) == (if Key(m.source, m.tid) in n.dst then [] else [m])
  {
    hide DstDeliver, DstNew, DstInv, Allocated, AllFinal;
    var k := Key(m.source, m.tid);
    if k in n.dst {
      assert DstEntry(k, n.dst[k], n.clock);
      DstDeliverKeeps(n.dst[k].t, m, oc);
    } else {
      DstNewInv(m, junk, oc);
    }
  }

  // ----- how long a transaction stays pooled

  /** A destination transaction to which no ack has come. */
  predicate Unacked(t: Txn) {
    && DstInv(t) && (t.slots.inAvail ==> !t.slots.inMsg.ackrsp)
    && (t.state.DstSendResponse? ==>
          t.req.state.ReqWaitAck? && t.stopWhen <= 5 * (2 - t.req.rtxctr) + t.req.when)
  }

  lemma UnackedNew(m: Message, junk: uint32, oc: Outcome)
    requires DstNew(m, junk, oc).status.Ongoing?
    ensures Unacked(DstNew(m, junk, oc))
  {
    DstNewInv(m, junk, oc);
    hide StepResponder;
    OpenedResponder(m, junk, oc);
    assert [] + [m] == [m];
  }

  lemma UnackedDeliver(t: Txn, m: Message, oc: Outcome)
    requires Unacked(t) && !m.ackrsp
    ensures var r := DstDeliver(t, m, oc);
      Unacked(r) && !Closed(r) && r.stopWhen == t.stopWhen
  {
    if t.startRsp {
      hide DstDeliver;
      DstDuplicateAnswered(t, m, oc);
    } else {
      hide DstStart, DstSend;
    }
  }

  lemma UnackedRespond(t: Txn, m: Message, oc: Outcome)
    requires Unacked(t) && m.ackreq
    ensures var r := DstRespond(t, m, oc);
      Unacked(r) && !Closed(r) && r.stopWhen == t.stopWhen
  {
    DstRespondKeeps(t, m, oc);
    hide DstInv, DstStart;
  }

  lemma UnackedTick(t: Txn, oc: Outcome)
    requires Unacked(t)
    ensures var r := TickTxn(t, oc);
      && (r.drop <==> t.stopWhen == 1)
      && (!r.drop ==> Unacked(r.t) && r.t.stopWhen == t.stopWhen - 1)
  {
    DstTickKeeps(t, oc);
    hide DstStart, DstSend;
  }

  /** An ack that reaches the destination side under a key. */
  predicate Acks(e: Event, k: Key) {
    e.Deliver? && e.m.ackrsp && !e.m.ForSource() && Key(e.m.source, e.m.tid) == k
  }

  ghost predicate Unending(n: Node, k: Key, born: nat) {
    k in n.dst && n.dst[k].born == born && Unacked(n.dst[k].t)
  }

  lemma DeliverStays(n: Node, m: Message, oc: Outcome, junk: uint32, k: Key, born: nat)
    requires Unending(n, k, born) && !Acks(Deliver(m, oc, junk), k)
    ensures Unending(MessageIn(n, m, oc, junk), k, born)
  {
    hide SrcDeliver, DstDeliver, DstNew, Unacked, Closed, Outs, Handled;
    if !m.ForSource() && Key(m.source, m.tid) == k {
      UnackedDeliver(n.dst[k].t, m, oc);
    }
  }

  lemma SendStays(n: Node, m: Message, oc: Outcome, junk: uint32, k: Key, born: nat)
    requires Unending(n, k, born)
    ensures Unending(MessageOut(n, m, oc, junk), k, born)
  {
    hide SrcResubmit, DstRespond, SrcNew, Unacked, Closed, Outs, Handled;
    if m.Opcode().Response? && Key(m.destination, m.tid) == k {
      UnackedRespond(n.dst[k].t, m.(ackreq := true), oc);
    }
  }

  lemma StepStays(n: Node, e: Event, k: Key, born: nat)
    requires Unending(n, k, born) && !Acks(e, k) && (e.Tick? ==> n.dst[k].t.stopWhen > 1)
    ensures Unending(Step(n, e), k, born)
  {
    match e
    case Deliver(m, oc, junk) => hide MessageIn; DeliverStays(n, m, oc, junk, k, born);
    case Send(m, oc, junk) => hide MessageOut; SendStays(n, m, oc, junk, k, born);
    case Tick(oc) => hide TickTxn, Unacked, Stepped, Dropped; UnackedTick(n.dst[k].t, oc);
  }

  /** Through every run in which no ack comes for it, whatever else happens, a
      destination transaction stays pooled exactly until its fifteen ticks are over. */
  lemma {:induction false} PooledExactlyFifteenTicks(n: Node, es: seq<Event>, k: Key)
    requires NodeInv(n) && k in n.dst && Unacked(n.dst[k].t)
    requires forall e | e in es :: !Acks(e, k)
    ensures var r := Exec(n, es);
      && (k in r.dst && r.dst[k].born == n.dst[k].born <==> Ticks(es) < n.dst[k].t.stopWhen)
      && (Ticks(es) < n.dst[k].t.stopWhen ==> Unending(r, k, n.dst[k].born))
  {
    hide Step, Unacked, DstInv, SrcPool, Allocated, AllFinal;
    assert DstEntry(k, n.dst[k], n.clock);
    ExecKeeps(n, es);
    var r := Exec(n, es);
    if k in r.dst {
      assert DstEntry(k, r.dst[k], r.clock);
      assert r.dst[k].t.stopWhen >= 1 by { DstTimed(r.dst[k].t); }
    }
    if es != [] && Ticks(es) < n.dst[k].t.stopWhen {
      var es', e := es[..|es| - 1], es[|es| - 1];
      PooledExactlyFifteenTicks(n, es', k);
      ExecKeeps(n, es');
      var r' := Exec(n, es');
      assert DstEntry(k, r'.dst[k], r'.clock);
      StepStays(r', e, k, n.dst[k].born);
    }
  }

  lemma DstTimed(t: Txn)
    requires DstInv(t)
    ensures 1 <= t.stopWhen <= 15
  {
  }

  /** After the response has been sent, the first ack of it ends the transaction. */
  lemma AckUnpools(n: Node, m: Message, oc: Outcome, junk: uint32)
    requires NodeInv(n) && m.ackrsp && !m.ForSource() && Key(m.source, m.tid) in n.dst
    requires n.dst[Key(m.source, m.tid)].t.state.DstSendResponse?
    ensures var k, r := Key(m.source, m.tid), MessageIn(n, m, oc, junk);
      && r.dst == n.dst - {k} && r.src == n.src
      && exists t :: r.ended == n.ended + {t} && t.head == n.dst[k].t.head && t.status.Success?
  {
    hide DstDeliver, DstInv, Allocated, AllFinal, Outs, Handled, Closed;
    var k := Key(m.source, m.tid);
    assert DstEntry(k, n.dst[k], n.clock);
    var t := DstDeliver(n.dst[k].t, m, oc);
    DstAckEnds(n.dst[k].t, m, oc);
    assert MessageIn(n, m, oc, junk).ended == n.ended + {t};
  }

  /** How a transaction without an ack ends after its fifteen ticks: in failure if no
      response was sent, or one was sent at the start and three times in all; otherwise
      it is dropped while still ongoing. */
  lemma ExpiresHow(t: Txn, oc: Outcome)
    requires Unacked(t) && t.stopWhen == 1
    ensures var r := TickTxn(t, oc);
      && r.drop && !r.t.status.Success?
      && (r.t.status.Failure? <==> t.state.DstWaitResponse? || (t.req.rtxctr == 2 && t.req.when == 1))
  {
    hide DstStart, DstSend;
  }

  // ----- repeated requests

  /** A run in which nothing comes under a key. */
  predicate Quiet(es: seq<Event>, k: Key) {
    forall e | e in es :: !(e.Deliver? && Key(e.m.source, e.m.tid) == k)
  }

  predicate PlainUnder(e: Event, k: Key) {
    e.Deliver? && !e.m.ForSource() && Key(e.m.source, e.m.tid) == k
  }

  /** The calls a run makes for plain messages under a key. */
  function CallsUnder(n: Node, es: seq<Event>, k: Key): seq<Message> {
    if es == [] then []
    else
      var es', e := es[..|es| - 1], es[|es| - 1];
      CallsUnder(n, es', k) + (if PlainUnder(e, k) then Calls(Exec(n, es'), e) else [])
  }

  /** However often requests are repeated under the key of a transaction that no
      ack has reached, within its fifteen ticks none of them calls the handler. */
  lemma {:induction false} NoCallsWhilePooled(n: Node, es: seq<Event>, k: Key)
    requires NodeInv(n) && k in n.dst && Unacked(n.dst[k].t)
    requires (forall e | e in es :: !Acks(e, k)) && Ticks(es) < n.dst[k].t.stopWhen
    ensures CallsUnder(n, es, k) == []
  {
    hide Step, Unacked, Calls, NodeInv;
    if es == [] {
    } else {
      var es', e := es[..|es| - 1], es[|es| - 1];
      NoCallsWhilePooled(n, es', k);
      PooledExactlyFifteenTicks(n, es', k);
      ExecKeeps(n, es');
      if PlainUnder(e, k) {
        CalledIffNotPooled(Exec(n, es'), e.m, e.oc, e.junk);
      }
    }
  }

  /** A request opens a transaction exactly when it is answered later, or at once
      with an ack asked for; the transaction is then without an ack and has fifteen
      ticks. */
  lemma Opens(n: Node, m: Message, oc: Outcome, junk: uint32)
    requires !m.ForSource() && (m.Opcode().Request? || m.Opcode().Confirm?) && Key(m.source, m.tid) !in n.dst
    ensures var k, r := Key(m.source, m.tid), MessageIn(n, m, oc, junk);
      && (k in r.dst <==> (oc.avail ==> oc.out.ackreq))
      && (k in r.dst ==> Unending(r, k, n.clock) && r.dst[k].t.stopWhen == 15)
  {
    hide DstNew, Outs, Handled, Unacked, DstInv;
    DstNewInv(m, junk, oc);
    if oc.avail ==> oc.out.ackreq {
      UnackedNew(m, junk, oc);
    }
  }

  /** While nothing comes under a key no transaction is opened under it. */
  lemma {:induction false} QuietOpensNone(n: Node, es: seq<Event>, k: Key)
    requires Quiet(es, k)
    ensures k in Exec(n, es).dst ==> k in n.dst && Exec(n, es).dst[k].born == n.dst[k].born
  {
    if es == [] {
    } else {
      var es', e := es[..|es| - 1], es[|es| - 1];
      QuietOpensNone(n, es', k);
      assert e in es;
      hide Exec;
      QuietStep(Exec(n, es'), e, k);
    }
  }

  lemma QuietStep(n: Node, e: Event, k: Key)
    requires !(e.Deliver? && Key(e.m.source, e.m.tid) == k)
    ensures k in Step(n, e).dst ==> k in n.dst && Step(n, e).dst[k].born == n.dst[k].born
  {
    hide SrcDeliver, DstDeliver, SrcResubmit, DstRespond, SrcNew, DstNew, TickTxn, Stepped, Dropped, Outs, Handled;
  }

  /** A request, then anything at all under other keys, then the request again: the
      handler is called a second time exactly when it had answered at once without
      asking for an ack, or fifteen ticks have passed. */
  lemma SecondCallIff(n: Node, m: Message, oc: Outcome, junk: uint32, es: seq<Event>, oc': Outcome, junk': uint32)
    requires NodeInv(n) && (m.Opcode().Request? || m.Opcode().Confirm?) && !m.ForSource()
    requires Key(m.source, m.tid) !in n.dst && Quiet(es, Key(m.source, m.tid))
    ensures var r := Exec(MessageIn(n, m, oc, junk), es);
      Calls(r, Deliver(m, oc', junk')) == [m] <==> (oc.avail && !oc.out.ackreq) || Ticks(es) >= 15
  {
    hide Exec, MessageIn, Calls, NodeInv, Unacked;
    var k, n1 := Key(m.source, m.tid), MessageIn(n, m, oc, junk);
    Opens(n, m, oc, junk);
    MessageInKeeps(n, m, oc, junk);
    ExecKeeps(n1, es);
    CalledIffNotPooled(Exec(n1, es), m, oc', junk');
    QuietOpensNone(n1, es, k);
    if k in n1.dst {
      PooledExactlyFifteenTicks(n1, es, k);
    }
  }

  lemma RespondCallsNone(n: Node, m: Message, oc: Outcome, junk: uint32)
    requires NodeInv(n) && m.Opcode().Response? && Key(m.destination, m.tid) in n.dst
    ensures Calls(n, Send(m, oc, junk)) == []
  {
    hide DstRespond, DstInv, Allocated, AllFinal;
    var k := Key(m.destination, m.tid);
    assert DstEntry(k, n.dst[k], n.clock);
    DstRespondKeeps(n.dst[k].t, m.(ackreq := true), oc);
  }

  lemma Snoc(n: Node, es: seq<Event>, e: Event)
    ensures Exec(n, es + [e]) == Step(Exec(n, es), e)
    ensures CallsOver(n, es + [e]) == CallsOver(n, es) + Calls(Exec(n, es), e)
  {
    hide Step, Calls;
    assert (es + [e])[..|es|] == es;
  }

  lemma FourCalls(n: Node, es: seq<Event>)
    requires |es| == 4
    ensures var n1 := Step(n, es[0]);
      var n2 := Step(n1, es[1]);
      var n3 := Step(n2, es[2]);
      CallsOver(n, es) == Calls(n, es[0]) + Calls(n1, es[1]) + Calls(n2, es[2]) + Calls(n3, es[3])
  {
    Start(n);
    hide Step, Calls, CallsOver, Exec;
    Snoc(n, [], es[0]);
    Snoc(n, [es[0]], es[1]);
    Snoc(n, [es[0], es[1]], es[2]);
    Snoc(n, [es[0], es[1], es[2]], es[3]);
    assert [] + [es[0]] == [es[0]] && [es[0]] + [es[1]] == [es[0], es[1]];
    assert [es[0], es[1]] + [es[2]] == [es[0], es[1], es[2]];
    assert [es[0], es[1], es[2]] + [es[3]] == es;
    assert [] + Calls(n, es[0]) == Calls(n, es[0]);
  }

  lemma Start(n: Node)
    ensures Exec(n, []) == n && CallsOver(n, []) == []
  {
  }

  lemma HandedOverAgain(b: Node, q: Message, p: Message, ack: Message, j: uint32, oc: Outcome)
    requires NodeInv(b) && !q.ForSource() && !ack.ForSource() && p.Opcode().Response?
    requires var k := Key(q.source, q.tid);
      var b1 := MessageIn(b, q, oc, j);
      var b2 := MessageOut(b1, p, oc, j);
      var b3 := MessageIn(b2, ack, oc, j);
      && Key(p.destination, p.tid) == k && Key(ack.source, ack.tid) == k
      && k !in b.dst && k in b1.dst && k in b2.dst && k !in b3.dst
    ensures CallsOver(b, [Deliver(q, oc, j), Send(p, oc, j), Deliver(ack, oc, j), Deliver(q, oc, j)]) == [q, q]
  {
    var e, e', e'' := Deliver(q, oc, j), Send(p, oc, j), Deliver(ack, oc, j);
    var b1, b2, b3 := Step(b, e), Step(Step(b, e), e'), Step(Step(Step(b, e), e'), e'');
    hide MessageIn, MessageOut, Calls, CallsOver, NodeInv;
    MessageInKeeps(b, q, oc, j);
    MessageOutKeeps(b1, p, oc, j);
    MessageInKeeps(b2, ack, oc, j);
    CalledIffNotPooled(b, q, oc, j);
    RespondCallsNone(b1, p, oc, j);
    CalledIffNotPooled(b2, ack, oc, j);
    CalledIffNotPooled(b3, q, oc, j);
    FourCalls(b, [e, e', e'', e]);
  }

  /** And it is called a second time after every exchange that went well: the ack of
      the response ends the transaction, so the request, should the network
      deliver it once more, is handed over again. */
  lemma RepeatAfterExchange(b: Node, q: Message, p: Message, j: uint32, oc: Outcome)
    requires NodeInv(b) && !oc.avail && Key(q.source, q.tid) !in b.dst
    requires q.Opcode().Request? && q.ackreq && !q.ackrsp && !q.IsMulticast()
    requires p.Opcode().Response? && p.HasServiceTlv()
    requires p.source == q.destination && p.destination == q.source && p.tid == q.tid
    ensures var ack := Ack(p.(ackreq := true, ackrsp := true));
      var es := [Deliver(q, oc, j), Send(p, oc, j), Deliver(ack, oc, j), Deliver(q, oc, j)];
      CallsOver(b, es) == [q, q]
  {
    hide MessageIn, MessageOut, CallsOver, NodeInv;
    DestinationExchange(b, q, p, j, oc);
    HandedOverAgain(b, q, p, Ack(p.(ackreq := true, ackrsp := true)), j, oc);
  }
}
