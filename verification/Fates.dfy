/** What becomes of a request or an indication that one MIHF sends to another,
    told from what is delivered and submitted under its key and from the ticks. */
module Fates {
  import opened Messages
  import opened TransactionSpec
  import opened TransactionInvariants
  import opened NodeSpec
  import opened NodeSafety
  import opened Schedules

  /** `acked` says that an ack has come, `lying` that a bare request ack was left in
      the input slot. */
  datatype Fate = Waiting(age: nat, acked: bool, lying: bool) | Done(success: bool)

  predicate Reaches(e: Event, k: Key) {
    e.Deliver? && e.m.ForSource() && Key(e.m.source, e.m.tid) == k
  }

  predicate AckComes(e: Event, k: Key) { Reaches(e, k) && e.m.ackrsp }

  predicate BareAckComes(e: Event, k: Key) { Reaches(e, k) && e.m.IsRequestAck() }

  predicate AnswerComes(e: Event, k: Key) { Reaches(e, k) && !e.m.IsRequestAck() }

  predicate Resubmits(e: Event, k: Key) {
    e.Send? && (e.m.Opcode().Request? || e.m.Opcode().Indication?) && Key(e.m.destination, e.m.tid) == k
  }

  /** A bare request ack is only noted. Anything else that is delivered completes a
      request, and an indication if it is an ack or one came before. A message submitted
      under the same key completes what has been acked. */
  function Fare(f: Fate, request: bool, e: Event, k: Key): Fate {
    if f.Done? then f
    else if Reaches(e, k) then
      if e.m.IsRequestAck() then f.(acked := true, lying := true)
      else if request || e.m.ackrsp || f.acked then Done(true)
      else f
    else if Resubmits(e, k) then if (if request then f.lying else f.acked) then Done(true) else f
    else if e.Tick? then if f.age < 14 then f.(age := f.age + 1) else Done(!request && f.acked)
    else f
  }

  function FateOf(request: bool, es: seq<Event>, k: Key): Fate {
    if es == [] then Waiting(0, false, false)
    else Fare(FateOf(request, es[..|es| - 1], k), request, es[|es| - 1], k)
  }

  // ----- one transaction

  predicate Waits(t: Txn, h: Head, f: Fate)
    requires f.Waiting?
  {
    && SrcInv(t) && t.head == h && !h.multicast && (h.opcode.Request? || h.opcode.Indication?)
    && t.status.Ongoing? && t.startReq && !t.startRsp && t.handled == []
    && f.age < 15 && t.stopWhen == 15 - f.age && (t.req.status.Success? <==> f.acked)
    && (h.opcode.Request? ==> (t.slots.inAvail <==> f.lying))
  }

  /** The transaction has ended, well or not; one that ended well may still be waiting
      for its ack. */
  predicate Over(t: Txn, h: Head, success: bool) {
    t.head == h && t.state.Src?() && (if success then t.status.Success? else t.status.Failure?)
  }

  lemma StartsWaiting(m: Message, junk: uint32, oc: Outcome)
    requires Reliable(m)
    ensures var t := SrcNew(m, junk, oc);
      Waits(t, Head(m.Opcode(), m.tid, m.source, m.destination, false), Waiting(0, false, false))
  {
    UnansweredNew(m, junk, oc);
  }

  lemma DeliverFares(t: Txn, h: Head, f: Fate, m: Message, oc: Outcome)
    requires f.Waiting? && Waits(t, h, f)
    ensures var r := SrcDeliver(t, m, oc);
      if m.IsRequestAck() then Waits(r, h, f.(acked := true, lying := true))
      else if h.opcode.Request? || m.ackrsp || f.acked then Over(r, h, true)
      else Waits(r, h, f)
  {
    hide StepResponder;
    SrcDeliverKeeps(t, m, oc);
    hide SrcInv, SrcStart, AckResponder;
    SilentResponder(StepRequestor(Receive(t, m)));
    Started(t);
  }

  lemma SilentResponder(t: Txn)
    requires !t.startRsp
    ensures StepResponder(t) == t
  {
  }

  lemma Started(t: Txn)
    requires SrcInv(t) && t.startReq
    ensures t.req.state.ReqWaitAck? <==> t.req.status.Ongoing?
    ensures t.req.state.ReqSuccess? <==> t.req.status.Success?
    ensures t.req.state.ReqWaitAck? || t.req.state.ReqSuccess?
    ensures t.req.status.Ongoing? ==> t.req.when != 0
  {
  }

  lemma ResubmitFares(t: Txn, h: Head, f: Fate, m: Message, oc: Outcome)
    requires f.Waiting? && Waits(t, h, f)
    ensures var r := SrcResubmit(t, m, oc);
      if (if h.opcode.Request? then f.lying else f.acked) then Over(r, h, true) else Waits(r, h, f)
  {
    hide StepResponder;
    SrcResubmitKeeps(t, m, oc);
    hide SrcStart, AckResponder;
    SilentResponder(StepRequestor(Submit(t, m)));
    Started(t);
  }

  lemma TickFares(t: Txn, h: Head, f: Fate, oc: Outcome)
    requires f.Waiting? && Waits(t, h, f)
    ensures var r := TickTxn(t, oc);
      if f.age < 14 then !r.drop && Waits(r.t, h, f.(age := f.age + 1))
      else r.drop && Over(r.t, h, !h.opcode.Request? && f.acked)
  {
    SrcTickKeeps(t, oc);
    hide SrcStart, SrcHandle, StepResponder;
  }

  /** A transaction that is over stays as it is until it leaves the pool. */
  lemma OverStays(t: Txn, h: Head, m: Message, oc: Outcome)
    requires SrcInv(t) && Over(t, h, true)
    ensures Over(SrcDeliver(t, m, oc), h, true) && Over(SrcResubmit(t, m, oc), h, true)
    ensures TickTxn(t, oc).drop && Over(TickTxn(t, oc).t, h, true)
  {
    hide AckResponder, AckRequestor;
  }

  // ----- the node

  /** Where the transaction is and how it fares. */
  ghost predicate Bears(n: Node, k: Key, born: nat, h: Head, f: Fate) {
    match f
    case Waiting(age, _, _) =>
      k in n.src && n.src[k].born == born && born + age == n.clock && Waits(n.src[k].t, h, f)
    case Done(success) =>
      || (exists t :: t in n.ended && Over(t, h, success))
      || (success && exists j :: j in n.src && Over(n.src[j].t, h, true))
  }

  lemma EndedGrows(n: Node, e: Event)
    ensures n.ended <= Step(n, e).ended
  {
    hide SrcNew, DstNew, SrcDeliver, DstDeliver, SrcResubmit, DstRespond, TickPool, Stepped, Dropped, Outs, Handled;
  }

  /** A step under another key, or to the other side. */
  lemma OthersStay(n: Node, e: Event, k: Key)
    requires k in n.src && !e.Tick? && !Reaches(e, k) && !Resubmits(e, k)
    ensures k in Step(n, e).src && Step(n, e).src[k] == n.src[k] && Step(n, e).clock == n.clock
  {
    hide SrcNew, DstNew, SrcDeliver, DstDeliver, SrcResubmit, DstRespond, Outs, Handled, Closed;
  }

  lemma StepDone(n: Node, e: Event, k: Key, born: nat, h: Head, success: bool)
    requires NodeInv(n) && Bears(n, k, born, h, Done(success))
    ensures Bears(Step(n, e), k, born, h, Done(success))
  {
    EndedGrows(n, e);
    if t :| t in n.ended && Over(t, h, success) {
      assert t in Step(n, e).ended;
    } else {
      var j :| j in n.src && Over(n.src[j].t, h, true);
      assert SrcEntry(j, n.src[j], n.clock, n.starts);
      OverNext(n, e, j, h);
    }
  }

  lemma OverNext(n: Node, e: Event, j: Key, h: Head)
    requires j in n.src && SrcInv(n.src[j].t) && Over(n.src[j].t, h, true)
    ensures Bears(Step(n, e), j, 0, h, Done(true))
  {
    hide SrcDeliver, SrcResubmit, TickTxn, Over, SrcInv, Outs, Handled, Closed, Stepped;
    var t := n.src[j].t;
    if e.Tick? {
      OverStays(t, h, BLANK, e.oc);
      var r := TickTxn(t, e.oc).t;
      assert r in Dropped(n.src, e.oc);
      assert r in Step(n, e).ended;
    } else if Reaches(e, j) {
      OverStays(t, h, e.m, e.oc);
      SettledSomewhere(n, j, SrcDeliver(t, e.m, e.oc));
    } else if Resubmits(e, j) {
      OverStays(t, h, e.m.(ackreq := true), e.oc);
      SettledSomewhere(n, j, SrcResubmit(t, e.m.(ackreq := true), e.oc));
    } else {
      hide Step;
      OthersStay(n, e, j);
    }
  }

  lemma SettledSomewhere(n: Node, k: Key, t: Txn)
    requires k in n.src
    ensures var r := SrcUpdate(n, k, t);
      if Closed(t) then t in r.ended else k in r.src && r.src[k].t == t && r.src[k].born == n.src[k].born
    ensures SrcUpdate(n, k, t).clock == n.clock
  {
    hide Outs, Handled, Closed;
  }

  lemma WaitsOpen(t: Txn, h: Head, f: Fate)
    requires f.Waiting? && Waits(t, h, f)
    ensures !Closed(t)
  {
    hide SrcInv;
  }

  lemma StepWaiting(n: Node, e: Event, k: Key, born: nat, h: Head, f: Fate)
    requires f.Waiting? && Bears(n, k, born, h, f)
    ensures Bears(Step(n, e), k, born, h, Fare(f, h.opcode.Request?, e, k))
  {
    hide SrcDeliver, SrcResubmit, TickTxn, Over, Waits, SrcUpdate, Stepped;
    var t := n.src[k].t;
    if e.Tick? {
      TickFares(t, h, f, e.oc);
      assert f.age >= 14 ==> TickTxn(t, e.oc).t in Dropped(n.src, e.oc);
    } else if Reaches(e, k) {
      var r := SrcDeliver(t, e.m, e.oc);
      DeliverFares(t, h, f, e.m, e.oc);
      SettledSomewhere(n, k, r);
      assert Step(n, e) == SrcUpdate(n, k, r);
      hide Step, Closed;
      FareSettled(r, h, Fare(f, h.opcode.Request?, e, k));
    } else if Resubmits(e, k) {
      var r := SrcResubmit(t, e.m.(ackreq := true), e.oc);
      ResubmitFares(t, h, f, e.m.(ackreq := true), e.oc);
      SettledSomewhere(n, k, r);
      assert Step(n, e) == SrcUpdate(n, k, r);
      hide Step, Closed;
      FareSettled(r, h, Fare(f, h.opcode.Request?, e, k));
    } else {
      hide Step;
      OthersStay(n, e, k);
    }
  }

  lemma FareSettled(t: Txn, h: Head, f: Fate)
    requires if f.Waiting? then Waits(t, h, f) else true
    ensures f.Waiting? ==> !Closed(t)
  {
    if f.Waiting? {
      WaitsOpen(t, h, f);
    }
  }

  lemma {:induction false} FatesFollow(n: Node, es: seq<Event>, k: Key, h: Head)
    requires NodeInv(n) && Bears(n, k, n.clock, h, Waiting(0, false, false))
    ensures Bears(Exec(n, es), k, n.clock, h, FateOf(h.opcode.Request?, es, k))
  {
    hide Step, NodeInv, Bears, Fare;
    if es == [] {
    } else {
      var es', e := es[..|es| - 1], es[|es| - 1];
      var f := FateOf(h.opcode.Request?, es', k);
      FatesFollow(n, es', k, h);
      ExecKeeps(n, es');
      if f.Waiting? {
        StepWaiting(Exec(n, es'), e, k, n.clock, h, f);
      } else {
        StepDone(Exec(n, es'), e, k, n.clock, h, f.success);
        DoneStays(f, h.opcode.Request?, e, k);
      }
    }
  }

  lemma DoneStays(f: Fate, request: bool, e: Event, k: Key)
    requires f.Done?
    ensures Fare(f, request, e, k) == f
  {
  }

  lemma SentBears(n: Node, m: Message, oc: Outcome, junk: uint32)
    requires (m.Opcode().Request? || m.Opcode().Indication?) && !m.IsMulticast()
    requires Key(m.destination, m.tid) !in n.src && Key(m.destination, NextTid(n.tid)) !in n.src
    ensures var h := Head(m.Opcode(), NextTid(n.tid), m.source, m.destination, false);
      var k := Key(m.destination, NextTid(n.tid));
      Bears(MessageOut(n, m, oc, junk), k, n.clock, h, Waiting(0, false, false))
  {
    hide SrcNew, SrcInv, Outs, Handled;
    StartsWaiting(m.(ackreq := true, tid := NextTid(n.tid)), junk, oc);
  }

  /** From any node, whatever happens after it is sent: the fate of a unicast request
      or indication is what `FateOf` says. */
  lemma FateOverRuns(n: Node, m: Message, oc: Outcome, junk: uint32, es: seq<Event>)
    requires NodeInv(n) && (m.Opcode().Request? || m.Opcode().Indication?) && !m.IsMulticast()
    requires Key(m.destination, m.tid) !in n.src && Key(m.destination, NextTid(n.tid)) !in n.src
    ensures var h := Head(m.Opcode(), NextTid(n.tid), m.source, m.destination, false);
      var k := Key(m.destination, NextTid(n.tid));
      Bears(Exec(MessageOut(n, m, oc, junk), es), k, n.clock, h, FateOf(m.Opcode().Request?, es, k))
  {
    assert MessageOut(n, m, oc, junk).clock == n.clock by { StepClock(n, Send(m, oc, junk)); }
    hide NodeInv, Bears, MessageOut, FateOf;
    SentBears(n, m, oc, junk);
    MessageOutKeeps(n, m, oc, junk);
    FatesFollow(MessageOut(n, m, oc, junk), es, Key(m.destination, NextTid(n.tid)),
                Head(m.Opcode(), NextTid(n.tid), m.source, m.destination, false));
  }

  // ----- in closed form

  /** An ack comes within fifteen ticks. */
  ghost predicate AckedInTime(es: seq<Event>, k: Key) {
    exists i | 0 <= i < |es| :: AckComes(es[i], k) && Ticks(es[..i]) < 15
  }

  /** An answer comes within fifteen ticks. */
  ghost predicate AnsweredInTime(es: seq<Event>, k: Key) {
    exists i | 0 <= i < |es| :: AnswerComes(es[i], k) && Ticks(es[..i]) < 15
  }

  ghost predicate BareAcked(es: seq<Event>, k: Key) {
    exists i | 0 <= i < |es| :: BareAckComes(es[i], k)
  }

  /** A local message takes up a bare ack within fifteen ticks. */
  ghost predicate TakenUpInTime(es: seq<Event>, k: Key) {
    exists i | 0 <= i < |es| :: Resubmits(es[i], k) && BareAcked(es[..i], k) && Ticks(es[..i]) < 15
  }

  lemma Prefixes(es: seq<Event>)
    requires es != []
    ensures var es' := es[..|es| - 1]; forall i | 0 <= i < |es'| :: es'[i] == es[i] && es'[..i] == es[..i]
  {
  }

  lemma AckedNext(es: seq<Event>, k: Key)
    requires es != []
    ensures var es', e := es[..|es| - 1], es[|es| - 1];
      AckedInTime(es, k) <==> AckedInTime(es', k) || (AckComes(e, k) && Ticks(es') < 15)
  {
    hide AckComes, Ticks;
    Prefixes(es);
    var es' := es[..|es| - 1];
    if AckedInTime(es', k) {
      var i :| 0 <= i < |es'| && AckComes(es'[i], k) && Ticks(es'[..i]) < 15;
      assert AckComes(es[i], k) && Ticks(es[..i]) < 15;
    }
  }

  lemma AnsweredNext(es: seq<Event>, k: Key)
    requires es != []
    ensures var es', e := es[..|es| - 1], es[|es| - 1];
      AnsweredInTime(es, k) <==>
        AnsweredInTime(es', k) || (AnswerComes(e, k) && Ticks(es') < 15)
  {
    hide AnswerComes, Ticks;
    Prefixes(es);
    var es' := es[..|es| - 1];
    if AnsweredInTime(es', k) {
      var i :| 0 <= i < |es'| && AnswerComes(es'[i], k) && Ticks(es'[..i]) < 15;
      assert AnswerComes(es[i], k) && Ticks(es[..i]) < 15;
    }
  }

  lemma BareAckedNext(es: seq<Event>, k: Key)
    requires es != []
    ensures var es', e := es[..|es| - 1], es[|es| - 1];
      BareAcked(es, k) <==> BareAcked(es', k) || BareAckComes(e, k)
  {
    hide BareAckComes;
    Prefixes(es);
    var es' := es[..|es| - 1];
    if BareAcked(es', k) {
      var i :| 0 <= i < |es'| && BareAckComes(es'[i], k);
      assert BareAckComes(es[i], k);
    }
  }

  lemma TakenUpNext(es: seq<Event>, k: Key)
    requires es != []
    ensures var es', e := es[..|es| - 1], es[|es| - 1];
      TakenUpInTime(es, k) <==> TakenUpInTime(es', k) || (Resubmits(e, k) && BareAcked(es', k) && Ticks(es') < 15)
  {
    hide Resubmits, Ticks, BareAcked;
    Prefixes(es);
    var es' := es[..|es| - 1];
    if TakenUpInTime(es', k) {
      var i :| 0 <= i < |es'| && Resubmits(es'[i], k) && BareAcked(es'[..i], k) && Ticks(es'[..i]) < 15;
      assert Resubmits(es[i], k) && BareAcked(es[..i], k) && Ticks(es[..i]) < 15;
    }
  }

  /** An indication is over at the latest with its fifteenth tick, and ends well if and
      only if an ack came before that; until then it ends no other way. */
  lemma {:induction false} IndicationFate(es: seq<Event>, k: Key)
    ensures var f := FateOf(false, es, k);
      && (Ticks(es) >= 15 ==> f.Done?)
      && (f.Done? ==> (f.success <==> AckedInTime(es, k)) && (f.success || Ticks(es) >= 15))
      && (f.Waiting? ==> f.age == Ticks(es) && (f.acked <==> AckedInTime(es, k)))
  {
    if es == [] {
    } else {
      IndicationFate(es[..|es| - 1], k);
      AckedNext(es, k);
      hide AckedInTime, Reaches, Resubmits;
    }
  }

  /** A request is over at the latest with its fifteenth tick, and ends well if and only
      if an answer came before that or a local message took up a bare ack. */
  lemma {:induction false} RequestFate(es: seq<Event>, k: Key)
    ensures var f := FateOf(true, es, k);
      && (Ticks(es) >= 15 ==> f.Done?)
      && (f.Done? ==> (f.success <==> AnsweredInTime(es, k) || TakenUpInTime(es, k)) && (f.success || Ticks(es) >= 15))
      && (f.Waiting? ==> f.age == Ticks(es) && !AnsweredInTime(es, k) && !TakenUpInTime(es, k))
      && (f.Waiting? ==> (f.lying <==> BareAcked(es, k)))
  {
    if es == [] {
    } else {
      RequestFate(es[..|es| - 1], k);
      AnsweredNext(es, k);
      BareAckedNext(es, k);
      TakenUpNext(es, k);
      hide AnsweredInTime, TakenUpInTime, BareAcked, Reaches, Resubmits;
    }
  }

  /** An indication and its ack: the ack goes to the waiting transaction, which ends in
      success, and nothing else changes; the handler is not called. */
  lemma IndicationAcked(n: Node, m: Message, oc: Outcome, i: uint32)
    requires m.Opcode().Indication? && !m.ackrsp && !m.IsMulticast()
    requires Key(m.destination, m.tid) !in n.src && Key(m.destination, NextTid(n.tid)) !in n.src
    ensures var q := m.(ackreq := true, tid := NextTid(n.tid));
      var n2 := MessageIn(MessageOut(n, m, oc, i), Ack(q), oc, i);
      && n2.src == n.src && n2.dst == n.dst && n2.handled == n.handled && n2.sent == n.sent + {q}
      && exists t :: n2.ended == n.ended + {t} && t.head.tid == q.tid && t.head.opcode.Indication?
                     && t.status.Success? && t.handled == []
  {
    var q := m.(ackreq := true, tid := NextTid(n.tid));
    var k, n1 := Key(q.destination, q.tid), MessageOut(n, m, oc, i);
    UnansweredNew(q, i, oc);
    var t := SrcNew(q, i, oc);
    var r := SrcDeliver(t, Ack(q), oc);
    assert Copies(q, 1) == [q];
    assert t.status.Ongoing? && t.req.outs == [q] && t.rsp.acks == [] && t.handled == [];
    assert Closed(r) && r == Receive(t, Ack(q)).(req := r.req, state := SrcSuccess, status := Success);
    assert r.req.outs == [q] && Ack(q).ForSource() && Key(Ack(q).source, Ack(q).tid) == k;
    hide SrcNew, SrcDeliver;
    assert n1.src == n.src[k := n1.src[k]] && n1.src[k].t == t;
    var n2 := MessageIn(n1, Ack(q), oc, i);
    assert n2.src == n.src && n2.ended == n.ended + {r};
  }

  /** A multicast indication, and a response whose transaction has gone, leave once and
      end in success there and then. */
  lemma DoneOnceSent(n: Node, m: Message, oc: Outcome, i: uint32)
    requires || (m.Opcode().Indication? && m.IsMulticast() && Key(m.destination, m.tid) !in n.src)
             || (m.Opcode().Response? && Key(m.destination, m.tid) !in n.dst)
    ensures var q := m.(ackreq := true, tid := NextTid(n.tid));
      var r := MessageOut(n, m, oc, i);
      && r.src == n.src && r.dst == n.dst && r.handled == n.handled && r.sent == n.sent + {q}
      && exists t :: r.ended == n.ended + {t} && t.head.tid == q.tid && t.status.Success? && t.handled == []
  {
    var q := m.(ackreq := true, tid := NextTid(n.tid));
    var t := SrcNew(q, i, oc);
    assert [] + [q] == [q];
    assert t.status.Success? && t.head.tid == q.tid && t.handled == [] && t.req.outs == [q] && t.rsp.acks == [];
    hide SrcNew;
    assert MessageOut(n, m, oc, i).ended == n.ended + {t};
  }

  /** An indication, or a response that belongs to no request, that comes under a free
      key: the handler is called, the transaction ends in success at once, and an ack
      leaves if one was asked for and the handler left nothing to be sent, which is
      dropped and its mark with it. */
  lemma DoneOnceReceived(n: Node, m: Message, oc: Outcome, junk: uint32)
    requires m.Opcode().Indication? || m.Opcode().Response?
    requires Key(m.source, m.tid) !in n.src && Key(m.source, m.tid) !in n.dst
    ensures var r := MessageIn(n, m, oc, junk);
      && r.src == n.src && r.dst == n.dst && r.handled == n.handled + {m}
      && r.sent == n.sent + (if m.ackreq && !m.IsMulticast() && !oc.avail then {Ack(m)} else {})
      && exists t :: r.ended == n.ended + {t} && t.status.Success? && t.handled == [m]
  {
    ReceivedAtOnce(m, oc, junk);
    hide DstNew, Ack;
    assert MessageIn(n, m, oc, junk).ended == n.ended + {DstNew(m, junk, oc)};
  }

  lemma ReceivedAtOnce(m: Message, oc: Outcome, junk: uint32)
    requires m.Opcode().Indication? || m.Opcode().Response?
    ensures var t := DstNew(m, junk, oc);
      && t.status.Success? && t.handled == [m] && t.req.outs == []
      && t.rsp.acks == if m.ackreq && !m.IsMulticast() && !oc.avail then [Ack(m)] else []
  {
    hide StepResponder;
    OpenedResponder(m, junk, oc);
    assert [] + [m] == [m];
  }

  /** A request completed by an answer that is no ack: at the next tick it leaves the
      pool, and if that is the end of a retransmission period, after the first or the
      second, what the handler left behind is sent in place of the request. */
  lemma CompletedSendsOnce(t: Txn, h: Head, f: Fate, m: Message, oc: Outcome, oc': Outcome)
    requires f.Waiting? && Waits(t, h, f) && h.opcode.Request? && !f.acked && !m.ackrsp
    ensures var r := SrcDeliver(t, m, oc);
      var x := TickTxn(r, oc');
      && r.status.Success? && !Closed(r) && r.handled == [m] && x.drop && x.t.status.Success?
      && x.t.req.outs == t.req.outs + (if f.age % 5 == 4 && f.age < 14 then [oc.out] else [])
  {
    SrcDeliverKeeps(t, m, oc);
    DeliverFares(t, h, f, m, oc);
    hide SrcStart, AckResponder;
    var r := SrcDeliver(t, m, oc);
    assert r.slots.outMsg == oc.out && r.req == t.req && r.state.SrcSuccess?;
    assert t.req.outs + [] == t.req.outs;
    assert t.req.when == 5 - f.age % 5 && t.req.rtxctr == f.age / 5;
  }
}
