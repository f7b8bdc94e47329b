/** A local request on its way out and its answer on the way back: the pending
    list and the outgoing dispatcher agree on the identifier it travels under. */
module Forwarding {
  import opened Messages
  import opened TransactionSpec
  import opened TransactionInvariants
  import opened NodeSpec
  import LocalPool

  /** An MIHF with its list of pending local transactions. */
  datatype Hub = Hub(n: Node, pending: seq<LocalPool.Pending>)

  /** Whether the outgoing dispatcher starts a source transaction. */
  predicate StartsNew(n: Node, m: Message) {
    !m.Opcode().Confirm? && Key(m.destination, m.tid) !in (if m.Opcode().Response? then n.dst else n.src)
  }

  /** The outgoing dispatcher, which notes the new identifier in the list of every
      message that starts a source transaction. */
  function Transmit(h: Hub, m: Message, oc: Outcome, junk: uint32): Hub {
    Hub(MessageOut(h.n, m, oc, junk),
        if StartsNew(h.n, m) then LocalPool.Renumbered(h.pending, m.destination, m.tid, NextTid(h.n.tid))
        else h.pending)
  }

  /** Records the request under its user and sends it on in this MIHF's name. */
  function ForwardRequest(h: Hub, m: Message, me: Id, oc: Outcome, junk: uint32): Hub {
    Transmit(h.(pending := LocalPool.Pushed(h.pending, m)), m.(source := me), oc, junk)
  }

  /** Neither the identifier the user chose nor the one about to be allocated is
      pending for that destination. */
  predicate Fresh(h: Hub, m: Message) {
    forall i | 0 <= i < |h.pending| ::
      !LocalPool.At(h.pending[i], m.destination, m.tid) && !LocalPool.At(h.pending[i], m.destination, NextTid(h.n.tid))
  }

  /** Then the request leaves under the new identifier, and an answer that carries
      it comes back addressed to the user, under the identifier the user chose,
      leaving the list as it was. */
  lemma RoundTrip(h: Hub, m: Message, me: Id, oc: Outcome, junk: uint32, answer: Message)
    requires m.Opcode().Request? && Key(m.destination, m.tid) !in h.n.src && Fresh(h, m)
    requires answer.source == m.destination && answer.tid == NextTid(h.n.tid)
    ensures var r := ForwardRequest(h, m, me, oc, junk);
      && m.(source := me, ackreq := true, tid := answer.tid) in r.n.sent
      && LocalPool.Reclaimed(r.pending, answer) ==
           LocalPool.Returned(answer.(tid := m.tid, destination := m.source), h.pending)
  {
    var wire := m.(source := me, ackreq := true, tid := answer.tid);
    assert wire in ForwardRequest(h, m, me, oc, junk).n.sent by {
      hide SrcNew;
      SrcNewInv(wire, junk, oc);
      assert wire in SrcNew(wire, junk, oc).req.outs;
    }
    hide MessageOut;
    LocalPool.FreshRoundTrip(h.pending, m.source, m.destination, m.tid, answer.tid, answer);
  }

  /** The list is renumbered exactly when the dispatcher allocates an identifier, and to
      that identifier. */
  lemma NotesAllocation(h: Hub, m: Message, oc: Outcome, junk: uint32)
    ensures var r := Transmit(h, m, oc, junk);
      if r.n.starts == h.n.starts then r.pending == h.pending && r.n.tid == h.n.tid
      else
        && |r.n.starts| == |h.n.starts| + 1 && r.n.starts[|h.n.starts|].tid == r.n.tid == NextTid(h.n.tid)
        && r.pending == LocalPool.Renumbered(h.pending, m.destination, m.tid, r.n.tid)
  {
    hide SrcNew, SrcResubmit, DstRespond, Outs, Handled, Closed, LocalPool.Renumbered, NextTid;
    assert |h.n.starts + [Start(h.n.clock, NextTid(h.n.tid))]| == |h.n.starts| + 1;
  }
}
