/** One MIHF: its two transaction pools, the incoming and outgoing dispatchers
    and the one-second tick. */
module NodeSpec {
  import opened Messages
  import opened TransactionSpec

  datatype Key = Key(peer: Id, tid: uint16)

  /** A pooled transaction, the tick it entered the pool at and, for a source
      transaction, how many were started before it. */
  datatype Entry = Entry(t: Txn, born: nat, serial: nat)

  /** One allocation of a source transaction identifier. */
  datatype Start = Start(at: nat, tid: uint16)

  /** The pools and the identifier counter, then histories: the clock, every
      identifier allocated, every message sent, every message given to the
      handler, and every transaction that has ended. */
  datatype Node = Node(
    src: map<Key, Entry>, dst: map<Key, Entry>, tid: uint16,
    clock: nat, starts: seq<Start>,
    sent: set<Message>, handled: set<Message>, ended: set<Txn>)

  /** What happens to a node. `oc` is what the handler does if it is called and
      `junk` the content of an uninitialised counter. */
  datatype Event =
    | Deliver(m: Message, oc: Outcome, junk: uint32)
    | Send(m: Message, oc: Outcome, junk: uint32)
    | Tick(oc: Outcome)

  function Boot(tid: uint16): Node { Node(map[], map[], tid, 0, [], {}, {}, {}) }

  function Outs(t: Txn): set<Message> { (set m | m in t.req.outs) + (set m | m in t.rsp.acks) }

  function Handled(t: Txn): set<Message> { set m | m in t.handled }

  function Log(n: Node, t: Txn): Node {
    n.(sent := n.sent + Outs(t), handled := n.handled + Handled(t))
  }

  /** Put a stepped source transaction back, or remove it when it is closed. */
  function SrcUpdate(n: Node, k: Key, t: Txn): Node
    requires k in n.src
  {
    var n := Log(n, t);
    if Closed(t) then n.(src := n.src - {k}, ended := n.ended + {t})
    else n.(src := n.src[k := n.src[k].(t := t)])
  }

  function DstUpdate(n: Node, k: Key, t: Txn): Node
    requires k in n.dst
  {
    var n := Log(n, t);
    if Closed(t) then n.(dst := n.dst - {k}, ended := n.ended + {t})
    else n.(dst := n.dst[k := n.dst[k].(t := t)])
  }

  /** Inserting an entry whose key is taken leaves the pool as it is. */
  function NewDst(n: Node, m: Message, oc: Outcome, junk: uint32): Node {
    var t := DstNew(m, junk, oc);
    var k := Key(m.source, m.tid);
    var n := Log(n, t);
    if t.status.Ongoing? && k !in n.dst then n.(dst := n.dst[k := Entry(t, n.clock, 0)])
    else n.(ended := n.ended + {t})
  }

  function NewSrc(n: Node, m: Message, oc: Outcome, junk: uint32): Node {
    var m := m.(tid := NextTid(n.tid));
    var t := SrcNew(m, junk, oc);
    var k := Key(m.destination, m.tid);
    var e := Entry(t, n.clock, |n.starts|);
    var n := Log(n, t).(tid := m.tid, starts := n.starts + [Start(n.clock, m.tid)]);
    if t.status.Ongoing? && k !in n.src then n.(src := n.src[k := e])
    else n.(ended := n.ended + {t})
  }

  function MessageIn(n: Node, m: Message, oc: Outcome, junk: uint32): Node {
    var k := Key(m.source, m.tid);
    if m.ForSource() then
      if k in n.src then SrcUpdate(n, k, SrcDeliver(n.src[k].t, m, oc)) else NewDst(n, m, oc, junk)
    else
      if k in n.dst then DstUpdate(n, k, DstDeliver(n.dst[k].t, m, oc)) else NewDst(n, m, oc, junk)
  }

  function MessageOut(n: Node, m: Message, oc: Outcome, junk: uint32): Node {
    var m := m.(ackreq := true);
    var k := Key(m.destination, m.tid);
    match m.Opcode()
    case Response =>
      if k in n.dst then DstUpdate(n, k, DstRespond(n.dst[k].t, m, oc)) else NewSrc(n, m, oc, junk)
    case Confirm => n
    case _ =>
      if k in n.src then SrcUpdate(n, k, SrcResubmit(n.src[k].t, m, oc)) else NewSrc(n, m, oc, junk)
  }

  /** One second for a whole pool. */
  function TickPool(p: map<Key, Entry>, oc: Outcome): map<Key, Entry> {
    map k | k in p && !TickTxn(p[k].t, oc).drop :: p[k].(t := TickTxn(p[k].t, oc).t)
  }

  function Stepped(p: map<Key, Entry>, oc: Outcome): set<Txn> {
    set k | k in p :: TickTxn(p[k].t, oc).t
  }

  function Dropped(p: map<Key, Entry>, oc: Outcome): set<Txn> {
    set k | k in p && TickTxn(p[k].t, oc).drop :: TickTxn(p[k].t, oc).t
  }

  function TickAll(n: Node, oc: Outcome): Node {
    var ts := Stepped(n.src, oc) + Stepped(n.dst, oc);
    n.(src := TickPool(n.src, oc), dst := TickPool(n.dst, oc), clock := n.clock + 1,
       sent := n.sent + (set t, m | t in ts && m in Outs(t) :: m),
       handled := n.handled + (set t, m | t in ts && m in t.handled :: m),
       ended := n.ended + Dropped(n.src, oc) + Dropped(n.dst, oc))
  }

  function Step(n: Node, e: Event): Node {
    match e
    case Deliver(m, oc, junk) => MessageIn(n, m, oc, junk)
    case Send(m, oc, junk) => MessageOut(n, m, oc, junk)
    case Tick(oc) => TickAll(n, oc)
  }

  /** A whole run. */
  function Exec(n: Node, es: seq<Event>): Node {
    if es == [] then n else Step(Exec(n, es[..|es| - 1]), es[|es| - 1])
  }
}
