/** One MIHF as an object: the two dispatchers and the tick update its pools and
    its identifier counter in place, stepping one transaction object at a time.
    Proved against NodeSpec, and every method keeps the node invariant. */
module Mihf {
  import opened Messages
  import opened TransactionSpec
  import opened NodeSpec
  import opened NodeSafety
  import opened Transactions
  import LocalPool
  import Forwarding

  class Mihf {
    const lpool: LocalPool.LocalTransactionPool
    var src: map<Key, Entry>
    var dst: map<Key, Entry>
    var tid: uint16
    // histories
    var clock: nat
    var starts: seq<Start>
    ghost var sent: set<Message>
    ghost var handled: set<Message>
    ghost var ended: set<Txn>

    ghost function View(): Node
      reads this
    {
      Node(src, dst, tid, clock, starts, sent, handled, ended)
    }

    /** The node together with its list of pending local transactions. */
    ghost function Hub(): Forwarding.Hub
      reads this, lpool
    {
      Forwarding.Hub(View(), lpool.transactions)
    }

    constructor (tid: uint16, lpool: LocalPool.LocalTransactionPool)
      ensures View() == Boot(tid) && NodeInv(View()) && this.lpool == lpool
    {
      this.lpool := lpool;
      src, dst, this.tid, clock, starts := map[], map[], tid, 0, [];
      sent, handled, ended := {}, {}, {};
    }

    /** Puts a stepped source transaction back, or removes it when both its
        machines are done. */
    method SettleSrc(k: Key, t: Transaction)
      requires k in src
      modifies `src, `sent, `handled, `ended
      ensures View() == SrcUpdate(old(View()), k, t.View())
    {
      sent, handled := sent + Outs(t.View()), handled + Handled(t.View());
      if t.status != Ongoing && t.req.status != Ongoing {
        src, ended := src - {k}, ended + {t.View()};
      } else {
        src := src[k := src[k].(t := t.View())];
      }
    }

    method SettleDst(k: Key, t: Transaction)
      requires k in dst
      modifies `dst, `sent, `handled, `ended
      ensures View() == DstUpdate(old(View()), k, t.View())
    {
      sent, handled := sent + Outs(t.View()), handled + Handled(t.View());
      if t.status != Ongoing && t.req.status != Ongoing {
        dst, ended := dst - {k}, ended + {t.View()};
      } else {
        dst := dst[k := dst[k].(t := t.View())];
      }
    }

    /** The incoming dispatcher. */
    method MessageIn(m: Message, oc: Outcome, junk: uint32)
      requires NodeInv(View())
      modifies this
      ensures View() == NodeSpec.MessageIn(old(View()), m, oc, junk) && NodeInv(View())
    {
      hide TransactionSpec.SrcDeliver, TransactionSpec.DstDeliver, NodeSpec.NewDst, SrcUpdate, DstUpdate, NodeInv;
      MessageInKeeps(View(), m, oc, junk);
      var k := Key(m.source, m.tid);
      if m.ForSource() {
        if k in src {
          SrcKind(View(), k);
          var t := new Transaction.Of(src[k].t);
          t.SrcDeliver(m, oc);
          SettleSrc(k, t);
        } else {
          NewDst(m, oc, junk);
        }
      } else {
        if k in dst {
          DstKind(View(), k);
          var t := new Transaction.Of(dst[k].t);
          t.DstDeliver(m, oc);
          SettleDst(k, t);
        } else {
          NewDst(m, oc, junk);
        }
      }
    }

    method NewDst(m: Message, oc: Outcome, junk: uint32)
      modifies this
      ensures View() == NodeSpec.NewDst(old(View()), m, oc, junk)
    {
      hide TransactionSpec.DstRun, Outs, Handled;
      var t := new Transaction(DstInit, Slots(m, true, BLANK, false), junk);
      t.DstRun(oc);
      var k := Key(m.source, m.tid);
      sent, handled := sent + Outs(t.View()), handled + Handled(t.View());
      if t.status == Ongoing && k !in dst {
        dst := dst[k := Entry(t.View(), clock, 0)];
      } else {
        ended := ended + {t.View()};
      }
    }

    /** The outgoing dispatcher. */
    method MessageOut(m: Message, oc: Outcome, junk: uint32)
      requires NodeInv(View())
      modifies this, lpool
      ensures Hub() == Forwarding.Transmit(old(Hub()), m, oc, junk) && NodeInv(View())
    {
      hide TransactionSpec.SrcResubmit, TransactionSpec.DstRespond, NodeSpec.NewSrc, SrcUpdate, DstUpdate, NodeInv;
      hide LocalPool.Renumbered;
      MessageOutKeeps(View(), m, oc, junk);
      var m := m.(ackreq := true);
      var k := Key(m.destination, m.tid);
      if m.Opcode() == Response {
        if k in dst {
          DstKind(View(), k);
          var t := new Transaction.Of(dst[k].t);
          t.DstRespond(m, oc);
          SettleDst(k, t);
        } else {
          NewSrc(m, oc, junk);
        }
      } else if m.Opcode() == Indication || m.Opcode() == Request {
        if k in src {
          SrcKind(View(), k);
          var t := new Transaction.Of(src[k].t);
          t.SrcResubmit(m, oc);
          SettleSrc(k, t);
        } else {
          NewSrc(m, oc, junk);
        }
      }
    }

    /** The next identifier; 0 is not sent. */
    method AllocateTid()
      modifies `tid
      ensures tid == NextTid(old(tid))
    {
      tid := (tid + 1) % 0x1_0000;
      if tid == 0 {
        tid := 1;
      }
    }

    method NewSrc(m: Message, oc: Outcome, junk: uint32)
      modifies this, lpool
      ensures View() == NodeSpec.NewSrc(old(View()), m, oc, junk)
      ensures lpool.transactions ==
        LocalPool.Renumbered(old(lpool.transactions), m.destination, m.tid, NextTid(old(tid)))
    {
      hide TransactionSpec.SrcRun, Outs, Handled, NextTid, LocalPool.Renumbered;
      AllocateTid();
      lpool.SetRemoteTid(m.destination, m.tid, tid);
      var m := m.(tid := tid);
      var t := new Transaction(SrcInit, Slots(BLANK, false, m, true), junk);
      t.SrcRun(oc);
      ghost var u := t.View();
      assert u == SrcNew(m, junk, oc);
      var k, e := Key(m.destination, m.tid), Entry(t.View(), clock, |starts|);
      starts := starts + [Start(clock, tid)];
      sent, handled := sent + Outs(u), handled + Handled(u);
      if t.status == Ongoing && k !in src {
        src := src[k := e];
      } else {
        ended := ended + {u};
      }
    }

    /** One second for one pool: steps every transaction and collects those that
        stay, `gone` being the others. */
    method Dec(p: map<Key, Entry>, oc: Outcome)
      returns (left: map<Key, Entry>, ghost all: set<Txn>, ghost gone: set<Txn>)
      ensures left == TickPool(p, oc) && all == Stepped(p, oc) && gone == Dropped(p, oc)
    {
      hide TickTxn;
      left, all, gone := map[], {}, {};
      var todo := p.Keys;
      while todo != {}
        invariant todo <= p.Keys
        invariant left == map k | k in p && k !in todo && !TickTxn(p[k].t, oc).drop :: p[k].(t := TickTxn(p[k].t, oc).t)
        invariant all == set k | k in p && k !in todo :: TickTxn(p[k].t, oc).t
        invariant gone == set k | k in p && k !in todo && TickTxn(p[k].t, oc).drop :: TickTxn(p[k].t, oc).t
        decreases |todo|
      {
        var k :| k in todo;
        var t := new Transaction.Of(p[k].t);
        var drop := t.Tick(oc);
        all := all + {t.View()};
        if drop {
          gone := gone + {t.View()};
        } else {
          left := left[k := p[k].(t := t.View())];
        }
        todo := todo - {k};
      }
    }

    method Tick(oc: Outcome)
      requires NodeInv(View())
      modifies this
      ensures View() == TickAll(old(View()), oc) && NodeInv(View())
    {
      hide TickPool, Stepped, Dropped, Outs, NodeInv;
      TickKeeps(View(), oc);
      ghost var ts: set<Txn>, us: set<Txn>, gone, gone';
      src, ts, gone := Dec(src, oc);
      dst, us, gone' := Dec(dst, oc);
      clock := clock + 1;
      sent := sent + (set t, m | t in ts + us && m in Outs(t) :: m);
      handled := handled + (set t, m | t in ts + us && m in t.handled :: m);
      ended := ended + gone + gone';
    }
  }

  lemma SrcKind(n: Node, k: Key)
    requires NodeInv(n) && k in n.src
    ensures n.src[k].t.state.Src?()
  {
  }

  lemma DstKind(n: Node, k: Key)
    requires NodeInv(n) && k in n.dst
    ensures !n.dst[k].t.state.Src?()
  {
  }
}
