/** What holds of both pools after every run of a node. */
module NodeSafety {
  import opened Messages
  import opened TransactionSpec
  import opened TransactionInvariants
  import opened NodeSpec

  predicate Keyed(k: Key, e: Entry, clock: nat) {
    && e.t.head.peer == k.peer && e.t.head.tid == k.tid
    && e.born + 15 == clock + e.t.stopWhen
  }

  predicate SrcEntry(k: Key, e: Entry, clock: nat, starts: seq<Start>) {
    && Keyed(k, e, clock) && SrcInv(e.t)
    && e.serial < |starts| && starts[e.serial] == Start(e.born, k.tid)
  }

  predicate DstEntry(k: Key, e: Entry, clock: nat) {
    Keyed(k, e, clock) && DstInv(e.t)
  }

  ghost predicate SrcPool(p: map<Key, Entry>, clock: nat, starts: seq<Start>) {
    && (forall k | k in p :: SrcEntry(k, p[k], clock, starts))
    && (forall j, k | j in p && k in p && p[j].serial == p[k].serial :: j == k)
  }

  ghost predicate DstPool(p: map<Key, Entry>, clock: nat) {
    forall k | k in p :: DstEntry(k, p[k], clock)
  }

  /** What is left of a transaction once it has ended. */
  predicate Final(t: Txn) {
    && |t.req.outs| <= 3
    && (t.state.Src?() && t.head.opcode.Request? && t.status.Success? ==> t.handled != [])
  }

  ghost predicate AllFinal(ts: set<Txn>) { forall t | t in ts :: Final(t) }

  /** Identifiers are allocated one after the other, never 0. */
  ghost predicate Allocated(starts: seq<Start>, tid: uint16, clock: nat) {
    && (forall i | 0 <= i < |starts| :: starts[i].at <= clock && starts[i].tid != 0)
    && (forall i, j | 0 <= i <= j < |starts| :: starts[i].at <= starts[j].at)
    && (forall i | 0 < i < |starts| :: Follows(starts, i))
    && (starts != [] ==> starts[|starts| - 1].tid == tid)
  }

  predicate Follows(starts: seq<Start>, i: nat)
    requires 0 < i < |starts|
  {
    starts[i].tid == NextTid(starts[i - 1].tid)
  }

  ghost predicate NodeInv(n: Node) {
    && SrcPool(n.src, n.clock, n.starts) && DstPool(n.dst, n.clock)
    && AllFinal(n.ended) && Allocated(n.starts, n.tid, n.clock)
  }

  // ----- the source pool

  lemma SrcFinal(t: Txn)
    requires SrcInv(t)
    ensures Final(t)
  {
  }

  lemma SrcPoolUpdate(p: map<Key, Entry>, clock: nat, starts: seq<Start>, k: Key, t: Txn)
    requires SrcPool(p, clock, starts) && k in p
    requires SrcInv(t) && t.head == p[k].t.head && t.stopWhen == p[k].t.stopWhen
    ensures SrcPool(p - {k}, clock, starts) && SrcPool(p[k := p[k].(t := t)], clock, starts)
  {
  }

  lemma SrcUpdateKeeps(n: Node, k: Key, t: Txn)
    requires NodeInv(n) && k in n.src
    requires SrcInv(t) && t.head == n.src[k].t.head && t.stopWhen == n.src[k].t.stopWhen
    ensures NodeInv(SrcUpdate(n, k, t))
  {
    hide SrcPool, DstPool, Allocated, SrcInv;
    SrcPoolUpdate(n.src, n.clock, n.starts, k, t);
    SrcFinal(t);
  }

  lemma SrcPoolExtend(p: map<Key, Entry>, clock: nat, starts: seq<Start>, s: Start, k: Key, e: Entry)
    requires SrcPool(p, clock, starts)
    ensures SrcPool(p, clock, starts + [s])
    ensures SrcEntry(k, e, clock, starts + [s]) && e.serial == |starts| ==> SrcPool(p[k := e], clock, starts + [s])
  {
  }

  lemma AllocatedExtend(starts: seq<Start>, tid: uint16, clock: nat)
    requires Allocated(starts, tid, clock)
    ensures Allocated(starts + [Start(clock, NextTid(tid))], NextTid(tid), clock)
  {
    var s := starts + [Start(clock, NextTid(tid))];
    forall i | 0 < i < |s| ensures Follows(s, i) {
      if i < |starts| { assert Follows(starts, i); }
    }
  }

  lemma NewSrcKeeps(n: Node, m: Message, oc: Outcome, junk: uint32)
    requires NodeInv(n) && !m.Opcode().Confirm?
    ensures NodeInv(NewSrc(n, m, oc, junk))
  {
    hide SrcNew, SrcPool, DstPool, Allocated, SrcInv, Final;
    var m' := m.(tid := NextTid(n.tid));
    var t := SrcNew(m', junk, oc);
    var s := Start(n.clock, m'.tid);
    SrcNewInv(m', junk, oc);
    SrcNewFinal(m', junk, oc);
    AllocatedExtend(n.starts, n.tid, n.clock);
    SrcPoolExtend(n.src, n.clock, n.starts, s, Key(m'.destination, m'.tid), Entry(t, n.clock, |n.starts|));
  }

  lemma SrcNewFinal(m: Message, junk: uint32, oc: Outcome)
    ensures Final(SrcNew(m, junk, oc))
  {
    hide SrcHandle, StepResponder;
  }

  // ----- the destination pool

  lemma DstPoolUpdate(p: map<Key, Entry>, clock: nat, k: Key, t: Txn)
    requires DstPool(p, clock) && k in p
    requires t.head == p[k].t.head && t.stopWhen == p[k].t.stopWhen
    ensures DstPool(p - {k}, clock) && (DstInv(t) ==> DstPool(p[k := p[k].(t := t)], clock))
  {
  }

  lemma DstUpdateKeeps(n: Node, k: Key, t: Txn)
    requires NodeInv(n) && k in n.dst
    requires Closed(t) || DstInv(t)
    requires t.head == n.dst[k].t.head && t.stopWhen == n.dst[k].t.stopWhen && |t.req.outs| <= 3 && !t.state.Src?()
    ensures NodeInv(DstUpdate(n, k, t))
  {
    hide SrcPool, DstPool, Allocated, DstInv;
    DstPoolUpdate(n.dst, n.clock, k, t);
  }

  lemma NewDstKeeps(n: Node, m: Message, oc: Outcome, junk: uint32)
    requires NodeInv(n)
    ensures NodeInv(NewDst(n, m, oc, junk))
  {
    hide DstNew, SrcPool, Allocated, DstInv;
    DstNewInv(m, junk, oc);
    DstNewFinal(m, junk, oc);
    var t := DstNew(m, junk, oc);
    if t.status.Ongoing? {
      assert DstEntry(Key(m.source, m.tid), Entry(t, n.clock, 0), n.clock);
    }
  }

  lemma DstNewFinal(m: Message, junk: uint32, oc: Outcome)
    ensures Final(DstNew(m, junk, oc))
  {
  }

  // ----- the dispatchers and the tick

  lemma MessageInKeeps(n: Node, m: Message, oc: Outcome, junk: uint32)
    requires NodeInv(n)
    ensures NodeInv(MessageIn(n, m, oc, junk))
  {
    hide SrcDeliver, DstDeliver, NewDst, SrcUpdate, DstUpdate, SrcInv, DstInv, Allocated;
    var k := Key(m.source, m.tid);
    if m.ForSource() && k in n.src {
      assert SrcEntry(k, n.src[k], n.clock, n.starts);
      SrcDeliverKeeps(n.src[k].t, m, oc);
      SrcUpdateKeeps(n, k, SrcDeliver(n.src[k].t, m, oc));
    } else if !m.ForSource() && k in n.dst {
      assert DstEntry(k, n.dst[k], n.clock);
      DstDeliverKeeps(n.dst[k].t, m, oc);
      DstUpdateKeeps(n, k, DstDeliver(n.dst[k].t, m, oc));
    } else {
      NewDstKeeps(n, m, oc, junk);
    }
  }

  lemma MessageOutKeeps(n: Node, m: Message, oc: Outcome, junk: uint32)
    requires NodeInv(n)
    ensures NodeInv(MessageOut(n, m, oc, junk))
  {
    hide SrcResubmit, DstRespond, NewSrc, SrcUpdate, DstUpdate, SrcInv, DstInv, Allocated;
    var m' := m.(ackreq := true);
    var k := Key(m.destination, m.tid);
    if m.Opcode().Confirm? {
    } else if m.Opcode().Response? && k in n.dst {
      assert DstEntry(k, n.dst[k], n.clock);
      DstRespondKeeps(n.dst[k].t, m', oc);
      DstUpdateKeeps(n, k, DstRespond(n.dst[k].t, m', oc));
    } else if !m.Opcode().Response? && k in n.src {
      assert SrcEntry(k, n.src[k], n.clock, n.starts);
      SrcResubmitKeeps(n.src[k].t, m', oc);
      SrcUpdateKeeps(n, k, SrcResubmit(n.src[k].t, m', oc));
    } else {
      NewSrcKeeps(n, m', oc, junk);
    }
  }

  lemma SrcPoolTick(p: map<Key, Entry>, clock: nat, starts: seq<Start>, oc: Outcome)
    requires SrcPool(p, clock, starts)
    ensures SrcPool(TickPool(p, oc), clock + 1, starts) && AllFinal(Dropped(p, oc))
    ensures forall k | k in TickPool(p, oc) :: TickPool(p, oc)[k].t.status.Ongoing?
  {
    hide TickTxn, SrcInv;
    forall k | k in p
      ensures var x := TickTxn(p[k].t, oc);
        Final(x.t) && (!x.drop ==> x.t.status.Ongoing? && SrcEntry(k, p[k].(t := x.t), clock + 1, starts))
    {
      assert SrcEntry(k, p[k], clock, starts);
      SrcTickKeeps(p[k].t, oc);
    }
  }

  lemma DstPoolTick(p: map<Key, Entry>, clock: nat, oc: Outcome)
    requires DstPool(p, clock)
    ensures DstPool(TickPool(p, oc), clock + 1) && AllFinal(Dropped(p, oc))
  {
    hide TickTxn, DstInv;
    forall k | k in p
      ensures var x := TickTxn(p[k].t, oc);
        Final(x.t) && (!x.drop ==> DstEntry(k, p[k].(t := x.t), clock + 1))
    {
      assert DstEntry(k, p[k], clock);
      DstTickKeeps(p[k].t, oc);
    }
  }

  lemma TickKeeps(n: Node, oc: Outcome)
    requires NodeInv(n)
    ensures NodeInv(TickAll(n, oc))
  {
    hide SrcPool, DstPool, TickPool, Stepped, Dropped;
    SrcPoolTick(n.src, n.clock, n.starts, oc);
    DstPoolTick(n.dst, n.clock, oc);
  }

  lemma StepKeeps(n: Node, e: Event)
    requires NodeInv(n)
    ensures NodeInv(Step(n, e))
  {
    hide NodeInv, MessageIn, MessageOut, TickAll;
    match e
    case Deliver(m, oc, junk) => MessageInKeeps(n, m, oc, junk);
    case Send(m, oc, junk) => MessageOutKeeps(n, m, oc, junk);
    case Tick(oc) => TickKeeps(n, oc);
  }

  /** Every run keeps the invariant, and only ticks move the clock. */
  lemma {:induction false} ExecKeeps(n: Node, es: seq<Event>)
    requires NodeInv(n)
    ensures NodeInv(Exec(n, es)) && Exec(n, es).clock == n.clock + Ticks(es)
  {
    hide Step, NodeInv;
    if es == [] {
    } else {
      var es', e := es[..|es| - 1], es[|es| - 1];
      ExecKeeps(n, es');
      StepKeeps(Exec(n, es'), e);
      StepClock(Exec(n, es'), e);
    }
  }

  function Ticks(es: seq<Event>): nat {
    if es == [] then 0 else Ticks(es[..|es| - 1]) + (if es[|es| - 1].Tick? then 1 else 0)
  }

  lemma StepClock(n: Node, e: Event)
    ensures Step(n, e).clock == n.clock + (if e.Tick? then 1 else 0)
  {
    hide SrcNew, DstNew, SrcDeliver, DstDeliver, SrcResubmit, DstRespond, TickPool, Stepped, Dropped;
  }

  predicate Lively(e: Entry, clock: nat) {
    1 <= e.t.stopWhen <= 15 && e.born <= clock < e.born + 15 && |e.t.req.outs| <= 3
  }

  /** After every run from the start: every pooled transaction has between one
      and fifteen seconds left, so neither countdown is decremented at zero by
      accident, and it is younger than fifteen ticks; no transaction, live or
      ended, has sent its message more than three times; a request ended in
      success only with an answer handled. */
  lemma RunSafe(tid: uint16, es: seq<Event>)
    ensures var n := Exec(Boot(tid), es);
      && (forall k | k in n.src :: Lively(n.src[k], n.clock))
      && (forall k | k in n.dst :: Lively(n.dst[k], n.clock))
      && AllFinal(n.ended)
  {
    hide Step;
    ExecKeeps(Boot(tid), es);
    var n := Exec(Boot(tid), es);
    forall k | k in n.src ensures Lively(n.src[k], n.clock) {
      assert SrcEntry(k, n.src[k], n.clock, n.starts);
    }
    forall k | k in n.dst ensures Lively(n.dst[k], n.clock) {
      assert DstEntry(k, n.dst[k], n.clock);
    }
  }

  /** While the requestor of a pooled request or indication waits, the two
      countdowns are tied together after every run, so its message has been sent
      once when it started and again at every fifth tick since. */
  lemma RunTimersLinked(tid: uint16, es: seq<Event>, k: Key)
    requires k in Exec(Boot(tid), es).src
    ensures var n := Exec(Boot(tid), es);
      var t, age := n.src[k].t, n.clock - n.src[k].born;
      && (t.startReq && t.req.status.Ongoing? ==>
            && 1 <= t.req.when <= 5 && t.req.rtxctr <= 2 && t.stopWhen == 5 * (2 - t.req.rtxctr) + t.req.when
            && 0 <= age < 15 && |t.req.outs| == 1 + age / 5 && t.req.when == 5 - age % 5)
      && (!t.startReq ==> |t.req.outs| == 1 && (t.req.when == 0 || t.req.when > 0x1_0000_0000 - 15))
  {
    hide Step;
    ExecKeeps(Boot(tid), es);
    var n := Exec(Boot(tid), es);
    assert SrcEntry(k, n.src[k], n.clock, n.starts);
  }

  /** Fifteen ticks empty both pools of everything that was in them. */
  lemma FifteenTicksDrain(tid: uint16, es: seq<Event>, es': seq<Event>)
    requires Ticks(es') >= 15
    ensures var n := Exec(Boot(tid), es);
      var n' := Exec(n, es');
      && (forall k | k in n'.src :: n'.src[k].born > n.clock)
      && (forall k | k in n'.dst :: n'.dst[k].born > n.clock)
  {
    hide Step;
    ExecKeeps(Boot(tid), es);
    var n := Exec(Boot(tid), es);
    ExecKeeps(n, es');
    var n' := Exec(n, es');
    forall k | k in n'.src ensures n'.src[k].born > n.clock {
      assert SrcEntry(k, n'.src[k], n'.clock, n'.starts);
    }
    forall k | k in n'.dst ensures n'.dst[k].born > n.clock {
      assert DstEntry(k, n'.dst[k], n'.clock);
    }
  }

  /** After a tick every transaction that is left is ongoing, whatever came before. */
  lemma OngoingAfterTick(n: Node, oc: Outcome)
    ensures var r := TickAll(n, oc);
      && (forall k | k in r.src :: r.src[k].t.status.Ongoing?)
      && (forall k | k in r.dst :: r.dst[k].t.status.Ongoing?)
  {
    hide TickStop, TickRetransmission, Stepped, Dropped;
  }

  /** A new transaction never displaces one that is pooled. */
  lemma InsertKeepsPooled(n: Node, m: Message, oc: Outcome, junk: uint32, k: Key)
    ensures k in n.dst ==> k in NewDst(n, m, oc, junk).dst && NewDst(n, m, oc, junk).dst[k] == n.dst[k]
    ensures k in n.src ==> k in NewSrc(n, m, oc, junk).src && NewSrc(n, m, oc, junk).src[k] == n.src[k]
    ensures NewDst(n, m, oc, junk).src == n.src && NewSrc(n, m, oc, junk).dst == n.dst
  {
    hide DstNew, SrcNew;
  }

  // ----- transaction identifiers

  /** The identifiers a node allocates walk cyclically through 1..65535. */
  lemma {:induction false} TidClosedForm(starts: seq<Start>, tid: uint16, clock: nat, i: nat, j: nat)
    requires Allocated(starts, tid, clock) && i <= j < |starts|
    ensures starts[j].tid == (starts[i].tid - 1 + (j - i)) % 65535 + 1
    decreases j
  {
    if i < j {
      TidClosedForm(starts, tid, clock, i, j - 1);
      assert Follows(starts, j);
      CyclicNext(starts[i].tid - 1 + (j - 1 - i));
    }
  }

  lemma CyclicNext(x: nat)
    ensures NextTid(x % 65535 + 1) == (x + 1) % 65535 + 1
  {
  }

  /** Over every run, identifiers are never 0, and two of them are equal exactly
      when a multiple of 65535 allocations lies between them. */
  lemma TidsRepeat(tid: uint16, es: seq<Event>, i: nat, j: nat)
    requires i <= j < |Exec(Boot(tid), es).starts|
    ensures var starts := Exec(Boot(tid), es).starts;
      && starts[i].tid != 0
      && (starts[i].tid == starts[j].tid <==> (j - i) % 65535 == 0)
  {
    hide Step;
    ExecKeeps(Boot(tid), es);
    var n := Exec(Boot(tid), es);
    TidClosedForm(n.starts, n.tid, n.clock, i, j);
    Cyclic(n.starts[i].tid - 1, j - i);
  }

  lemma Cyclic(a: nat, d: nat)
    requires a < 65535
    ensures (a + d) % 65535 == a <==> d % 65535 == 0
  {
  }

  /** No 65536 source transactions start within fifteen ticks of each other. */
  ghost predicate Paced(starts: seq<Start>) {
    forall i | 0 <= i && i + 65535 < |starts| :: FarApart(starts, i)
  }

  predicate FarApart(starts: seq<Start>, i: nat)
    requires i + 65535 < |starts|
  {
    starts[i + 65535].at >= starts[i].at + 15
  }

  lemma SameTidFarApart(tid: uint16, es: seq<Event>, i: nat, j: nat)
    requires i < j < |Exec(Boot(tid), es).starts| && Paced(Exec(Boot(tid), es).starts)
    requires Exec(Boot(tid), es).starts[i].tid == Exec(Boot(tid), es).starts[j].tid
    ensures Exec(Boot(tid), es).starts[j].at >= Exec(Boot(tid), es).starts[i].at + 15
  {
    hide Step;
    ExecKeeps(Boot(tid), es);
    TidsRepeat(tid, es, i, j);
    assert FarApart(Exec(Boot(tid), es).starts, i);
  }

  /** At that pace two live source transactions never share an identifier. */
  lemma LiveTidsDistinct(tid: uint16, es: seq<Event>, j: Key, k: Key)
    requires Paced(Exec(Boot(tid), es).starts)
    requires j in Exec(Boot(tid), es).src && k in Exec(Boot(tid), es).src && j.tid == k.tid
    ensures j == k
  {
    hide Step;
    ExecKeeps(Boot(tid), es);
    var n := Exec(Boot(tid), es);
    var a, b := n.src[j], n.src[k];
    assert SrcEntry(j, a, n.clock, n.starts) && SrcEntry(k, b, n.clock, n.starts);
    if a.serial < b.serial {
      SameTidFarApart(tid, es, a.serial, b.serial);
    } else if b.serial < a.serial {
      SameTidFarApart(tid, es, b.serial, a.serial);
    }
  }
}
