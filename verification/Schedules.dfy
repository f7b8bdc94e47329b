/** The exact timetable of a transaction left alone, and what duplicates and
    repeated responses do to a destination transaction over whole runs. */
module Schedules {
  import opened Messages
  import opened TransactionSpec
  import opened TransactionInvariants

  function TickMany(t: Txn, n: nat, oc: Outcome): Txn {
    if n == 0 then t else TickTxn(TickMany(t, n - 1, oc), oc).t
  }

  function Copies(m: Message, n: nat): seq<Message> { seq(n, i => m) }

  /** An acknowledged-delivery request or indication, `n` silent seconds later. */
  function Unanswered(m: Message, n: nat): Txn {
    Txn(Head(m.Opcode(), m.tid, m.source, m.destination, false), Slots(BLANK, false, m, true),
        Requestor(ReqWaitAck, Ongoing, if n < 5 then 0 else if n < 10 then 1 else 2,
                  if n < 5 then 5 - n else if n < 10 then 10 - n else if n < 15 then 15 - n else 0,
                  Copies(m, if n < 5 then 1 else if n < 10 then 2 else 3)),
        Responder(RspInit, BLANK, BLANK, []),
        if m.Opcode().Request? then SrcWaitResponse else SrcWaitAck,
        Ongoing, if n < 15 then 15 - n else 0, true, false, false, [])
  }

  predicate Reliable(m: Message) {
    (m.Opcode().Request? || m.Opcode().Indication?) && m.ackreq && !m.IsMulticast()
  }

  lemma UnansweredNew(m: Message, junk: uint32, oc: Outcome)
    requires Reliable(m)
    ensures SrcNew(m, junk, oc) == Unanswered(m, 0)
  {
  }

  lemma UnansweredTick(m: Message, n: nat, oc: Outcome)
    requires Reliable(m) && n < 14
    ensures TickTxn(Unanswered(m, n), oc) == Ticked(Unanswered(m, n + 1), false)
  {
  }

  lemma UnansweredLast(m: Message, oc: Outcome)
    requires Reliable(m)
    ensures var r := TickTxn(Unanswered(m, 14), oc);
      r.drop && r.t.status.Failure? && r.t.req.outs == Copies(m, 3)
  {
    hide SrcHandle, SrcStart;
  }

  /** A message nobody answers leaves once at the start and again at ticks 5 and
      10 exactly, and its transaction fails at tick 15, not before. */
  lemma {:induction false} RetransmissionSchedule(m: Message, junk: uint32, oc: Outcome, n: nat)
    requires Reliable(m) && n <= 15
    ensures var t := TickMany(SrcNew(m, junk, oc), n, oc);
      && (n < 15 ==> t == Unanswered(m, n) && t.status.Ongoing? && t.req.outs == Copies(m, 1 + n / 5))
      && (n == 15 ==> t.status.Failure? && t.req.outs == Copies(m, 3))
  {
    hide TickTxn, SrcNew;
    if n == 0 {
      UnansweredNew(m, junk, oc);
    } else {
      RetransmissionSchedule(m, junk, oc, n - 1);
      if n < 15 {
        UnansweredTick(m, n - 1, oc);
      } else {
        UnansweredLast(m, oc);
      }
    }
  }

  // ----- destination transactions

  /** What can reach a pooled destination transaction: a repeat of the request or
      any other message that is not an ack, a second of waiting, or a response
      from the local user. */
  datatype DstEvent = Repeat(m: Message) | Second | Respond(m: Message)

  predicate Allowed(e: DstEvent) {
    match e
    case Repeat(m) => !m.ackrsp
    case Respond(m) => m.ackreq && !m.ackrsp
    case Second => true
  }

  /** None once the transaction has left the pool. */
  function DstExec(t: Txn, es: seq<DstEvent>, oc: Outcome): Option<Txn> {
    if es == [] then Some(t)
    else
      var r := DstExec(t, es[..|es| - 1], oc);
      if r.None? then None else DstStep(r.value, es[|es| - 1], oc)
  }

  function DstStep(t: Txn, e: DstEvent, oc: Outcome): Option<Txn> {
    match e
    case Repeat(m) => Keep(DstDeliver(t, m, oc))
    case Respond(m) => Keep(DstRespond(t, m, oc))
    case Second => var r := TickTxn(t, oc); if r.drop then None else Some(r.t)
  }

  function Keep(t: Txn): Option<Txn> { if Closed(t) then None else Some(t) }

  /** A reference account of the responder: what it has sent, the response it
      keeps, whether it has repeated that response, and whether a response was
      submitted after that. */
  datatype Account = Account(acks: seq<Message>, stored: Option<Message>, repeated: bool, late: bool)

  function Ack(m: Message): Message { Message(m.mid, false, true, m.tid, m.destination, m.source, []) }

  /** One send per repeat: the bare ack while there is no response, the stored
      response from then on. A response is stored, marked as an ack, until it
      has been repeated once. */
  function Account1(a: Account, m: Message, e: DstEvent): Account {
    match e
    case Second => a
    case Repeat(_) =>
      if a.stored.None? then a.(acks := a.acks + [Ack(m)])
      else a.(acks := a.acks + [a.stored.value], repeated := true)
    case Respond(r) =>
      if a.repeated then a.(late := true) else a.(stored := Some(r.(ackrsp := true)))
  }

  /** At first the bare ack, or the response if the handler answers at once. */
  function Opening(m: Message, oc: Outcome): Account {
    if oc.avail then Account([], Some(oc.out.(ackrsp := true)), false, false)
    else Account([Ack(m)], None, false, false)
  }

  function AccountOf(m: Message, oc: Outcome, es: seq<DstEvent>): Account {
    if es == [] then Opening(m, oc)
    else Account1(AccountOf(m, oc, es[..|es| - 1]), m, es[|es| - 1])
  }

  ghost predicate Matches(t: Txn, a: Account, m: Message) {
    && DstInv(t) && t.startRsp && t.handled == [m] && t.rsp.ack == Ack(m) && t.rsp.acks == a.acks
    && (t.state.DstWaitResponse? <==> a.stored.None?)
    && (a.stored.Some? ==> t.rsp.dup == a.stored.value && (t.slots.outMsg.ackrsp <==> !a.late))
    && (t.rsp.state.RspReturnDuplicate? <==> a.repeated)
    && (a.repeated ==> a.stored.Some?) && (a.late ==> a.repeated)
    && (!a.late ==> forall o | o in t.req.outs :: o.ackrsp)
  }

  lemma FirstResponse(t: Txn, m: Message, oc: Outcome)
    requires DstInv(t) && t.startRsp && t.state.DstWaitResponse? && m.ackreq
    ensures var f := m.(ackrsp := true); var r := DstRespond(t, m, oc);
      && DstInv(r)
      && r == t.(slots := t.slots.(outMsg := f, outAvail := true), startReq := true, state := DstSendResponse,
                 rsp := t.rsp.(state := RspPiggybacking, dup := f), req := Requestor(ReqWaitAck, Ongoing, 0, 5, [f]))
  {
  }

  lemma LaterResponse(t: Txn, m: Message, oc: Outcome)
    requires DstInv(t) && t.startRsp && t.state.DstSendResponse? && m.ackreq
    ensures var f := m.(ackrsp := true); var r := DstRespond(t, m, oc);
      && DstInv(r)
      && r == if t.rsp.state.RspReturnDuplicate? then t.(slots := t.slots.(outMsg := m))
              else t.(slots := t.slots.(outMsg := f), rsp := t.rsp.(dup := f))
  {
    hide DstStart, DstSend;
  }

  lemma MatchesStep(t: Txn, a: Account, m: Message, e: DstEvent, oc: Outcome)
    requires Matches(t, a, m) && Allowed(e)
    ensures var r := DstStep(t, e, oc); r.Some? ==> Matches(r.value, Account1(a, m, e), m)
    ensures !e.Second? ==> DstStep(t, e, oc).Some?
  {
    hide DstDeliver, DstRespond, TickTxn, DstInv;
    match e
    case Repeat(d) =>
      DstDuplicateAnswered(t, d, oc);
      DstStays(DstDeliver(t, d, oc));
    case Second =>
      DstTickKeeps(t, oc);
      DstTickPhase(t, oc);
    case Respond(r) =>
      DstPhase(t);
      if t.state.DstWaitResponse? {
        FirstResponse(t, r, oc);
      } else {
        LaterResponse(t, r, oc);
      }
      DstStays(DstRespond(t, r, oc));
  }

  lemma DstStays(t: Txn)
    requires DstInv(t)
    ensures !Closed(t)
  {
  }

  lemma DstPhase(t: Txn)
    requires DstInv(t)
    ensures t.state.DstWaitResponse? <==> !t.state.DstSendResponse?
  {
  }

  lemma DstTickPhase(t: Txn, oc: Outcome)
    requires DstInv(t)
    ensures var r := TickTxn(t, oc); !r.drop ==> r.t.state == t.state
    ensures t.state.DstWaitResponse? ==> TickTxn(t, oc).t.req.outs == []
  {
    hide TickTxn;
    if t.state.DstWaitResponse? {
      DstWaitingTick(t, oc);
    } else {
      DstSendingTick(t, oc);
    }
  }

  lemma {:induction false} MatchesOverRuns(m: Message, junk: uint32, oc: Outcome, es: seq<DstEvent>)
    requires m.Opcode().Request? && m.ackreq && !m.IsMulticast() && (oc.avail ==> oc.out.ackreq)
    requires forall e | e in es :: Allowed(e)
    ensures var r := DstExec(DstNew(m, junk, oc), es, oc);
      r.Some? ==> Matches(r.value, AccountOf(m, oc, es), m)
  {
    hide DstNew, DstStep, Matches, DstInv;
    if es == [] {
      FirstAck(m, junk, oc);
    } else {
      var es' := es[..|es| - 1];
      assert forall e | e in es' :: e in es;
      MatchesOverRuns(m, junk, oc, es');
      var r := DstExec(DstNew(m, junk, oc), es', oc);
      if r.Some? {
        assert es[|es| - 1] in es;
        MatchesStep(r.value, AccountOf(m, oc, es'), m, es[|es| - 1], oc);
      }
    }
  }

  /** A request that asks for an ack and stays open, since the handler answers later
      or asks for an ack of what it answers at once: over every run, while its
      transaction is pooled, the handler has run exactly once and the responder has
      sent what the reference account says and nothing else. What the next
      transmission of the response would send is marked as an ack exactly when no
      response was submitted after the stored one had been repeated, and until that
      happens every response that left was marked. */
  lemma DuplicatesOverRuns(m: Message, junk: uint32, oc: Outcome, es: seq<DstEvent>)
    requires m.Opcode().Request? && m.ackreq && !m.IsMulticast() && (oc.avail ==> oc.out.ackreq)
    requires forall e | e in es :: Allowed(e)
    ensures var r, a := DstExec(DstNew(m, junk, oc), es, oc), AccountOf(m, oc, es);
      r.Some? ==>
        && r.value.handled == [m] && r.value.rsp.acks == a.acks
        && |a.acks| == (if oc.avail then 0 else 1) + Repeats(es)
        && (a.stored.Some? ==> (r.value.slots.outMsg.ackrsp <==> !a.late))
        && (!a.late ==> forall o | o in r.value.req.outs :: o.ackrsp)
  {
    hide DstNew, DstStep, DstInv;
    MatchesOverRuns(m, junk, oc, es);
    OneSendPerRepeat(m, oc, es);
  }

  function Repeats(es: seq<DstEvent>): nat {
    if es == [] then 0 else Repeats(es[..|es| - 1]) + (if es[|es| - 1].Repeat? then 1 else 0)
  }

  lemma {:induction false} OneSendPerRepeat(m: Message, oc: Outcome, es: seq<DstEvent>)
    ensures |AccountOf(m, oc, es).acks| == (if oc.avail then 0 else 1) + Repeats(es)
  {
    if es == [] {
    } else {
      OneSendPerRepeat(m, oc, es[..|es| - 1]);
    }
  }

  lemma FirstAck(m: Message, junk: uint32, oc: Outcome)
    requires m.Opcode().Request? && m.ackreq && !m.IsMulticast() && (oc.avail ==> oc.out.ackreq)
    ensures Matches(DstNew(m, junk, oc), Opening(m, oc), m)
  {
    hide StepResponder;
    OpenedResponder(m, junk, oc);
    assert [] + [m] == [m];
  }

  lemma Snoc(t: Txn, es: seq<DstEvent>, e: DstEvent, oc: Outcome)
    ensures DstExec(t, es + [e], oc) ==
      var r := DstExec(t, es, oc); if r.None? then None else DstStep(r.value, e, oc)
  {
  }

  /** Waiting for an ack: the timers run down, and at the end of the
      retransmission timer the response leaves again. */
  lemma SendingSecond(t: Txn, oc: Outcome)
    requires DstInv(t) && t.state.DstSendResponse? && t.startRsp && t.stopWhen > 1
    ensures t.req.when > 1 ==>
      var u := t.(stopWhen := t.stopWhen - 1, req := t.req.(when := t.req.when - 1));
      DstStep(t, Second, oc) == Some(u) && DstInv(u)
    ensures t.req.when == 1 && t.req.rtxctr < 2 ==>
      var r := DstStep(t, Second, oc); r.Some? && r.value.req.outs == t.req.outs + [t.slots.outMsg]
  {
    hide DstStart, DstSend;
  }

  function Seconds(n: nat): seq<DstEvent> { if n == 0 then [] else Seconds(n - 1) + [Second] }

  lemma {:induction false} Waiting(t: Txn, es: seq<DstEvent>, u: Txn, n: nat, oc: Outcome)
    requires DstExec(t, es, oc) == Some(u)
    requires DstInv(u) && u.state.DstSendResponse? && u.startRsp && n < u.req.when && n < u.stopWhen
    ensures var v := u.(stopWhen := u.stopWhen - n, req := u.req.(when := u.req.when - n));
      DstExec(t, es + Seconds(n), oc) == Some(v) && DstInv(v)
  {
    hide DstStep, DstInv, DstExec;
    if n == 0 {
      assert es + Seconds(0) == es;
    } else {
      Waiting(t, es, u, n - 1, oc);
      SendingSecond(u.(stopWhen := u.stopWhen - (n - 1), req := u.req.(when := u.req.when - (n - 1))), oc);
      Snoc(t, es + Seconds(n - 1), Second, oc);
      assert es + Seconds(n) == (es + Seconds(n - 1)) + [Second];
    }
  }

  lemma LateResponse(m: Message, r: Message, oc: Outcome) returns (t: Txn)
    requires m.Opcode().Request? && m.ackreq && !m.IsMulticast() && !oc.avail && !m.ackrsp
    requires r.ackreq && !r.ackrsp
    ensures DstExec(DstNew(m, 0, oc), [Respond(r)] + [Repeat(m)] + [Respond(r)], oc) == Some(t)
    ensures DstInv(t) && t.state.DstSendResponse? && t.startRsp && t.stopWhen == 15 && t.slots.outMsg == r
    ensures t.req.when == 5 && t.req.rtxctr == 0
  {
    FirstAck(m, 0, oc);
    DstNewInv(m, 0, oc);
    hide DstNew, DstDeliver, DstRespond, DstInv, TickTxn, DstExec;
    var t0 := DstNew(m, 0, oc);
    ExecEmpty(t0, oc);
    FirstResponse(t0, r, oc);
    var t1 := DstRespond(t0, r, oc);
    DstStays(t1);
    Snoc(t0, [], Respond(r), oc);
    assert [] + [Respond(r)] == [Respond(r)];
    DstDuplicateAnswered(t1, m, oc);
    var t2 := DstDeliver(t1, m, oc);
    DstStays(t2);
    Snoc(t0, [Respond(r)], Repeat(m), oc);
    LaterResponse(t2, r, oc);
    t := DstRespond(t2, r, oc);
    DstStays(t);
    Snoc(t0, [Respond(r)] + [Repeat(m)], Respond(r), oc);
  }

  /** The mark can be lost: a second response submitted after a repeat has been
      answered leaves, at the next retransmission, without its ack flag. */
  lemma LateResponseUnmarked(m: Message, r: Message, oc: Outcome)
    requires m.Opcode().Request? && m.ackreq && !m.IsMulticast() && !oc.avail && !m.ackrsp
    requires r.ackreq && !r.ackrsp
    ensures var t := DstExec(DstNew(m, 0, oc), [Respond(r)] + [Repeat(m)] + [Respond(r)] + Seconds(4) + [Second], oc);
      t.Some? && r in t.value.req.outs
  {
    hide DstNew, DstStep, DstInv, DstExec, Seconds;
    var t := LateResponse(m, r, oc);
    var es := [Respond(r)] + [Repeat(m)] + [Respond(r)];
    Waiting(DstNew(m, 0, oc), es, t, 4, oc);
    Snoc(DstNew(m, 0, oc), es + Seconds(4), Second, oc);
    SendingSecond(t.(stopWhen := 11, req := t.req.(when := 1)), oc);
  }

  lemma ExecEmpty(t: Txn, oc: Outcome)
    ensures DstExec(t, [], oc) == Some(t)
  {
  }
}
