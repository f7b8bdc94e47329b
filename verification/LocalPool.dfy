/** Returning answers to the local user that asked: the list of pending local
    transactions, the renumbering of forwarded requests and its inverse. */
module LocalPool {
  import opened Messages

  /** A forwarded request: `ltid` is the identifier its user chose, `rtid` the one
      it travels under. */
  datatype Pending = Pending(user: Id, destination: Id, ltid: uint16, rtid: uint16)

  // ----- specification on the list

  predicate At(p: Pending, from: Id, tid: uint16) { p.destination == from && p.rtid == tid }

  /** The position of the first entry for `from` and `tid`, or the length. */
  function Find(ps: seq<Pending>, from: Id, tid: uint16): (i: nat)
    ensures i <= |ps|
    ensures i < |ps| ==> At(ps[i], from, tid)
    ensures forall j | 0 <= j < i :: !At(ps[j], from, tid)
  {
    if ps == [] || At(ps[0], from, tid) then 0 else 1 + Find(ps[1..], from, tid)
  }

  function Pushed(ps: seq<Pending>, m: Message): seq<Pending> {
    ps + [Pending(m.source, m.destination, m.tid, m.tid)]
  }

  function Renumbered(ps: seq<Pending>, dst: Id, ltid: uint16, rtid: uint16): seq<Pending> {
    var i := Find(ps, dst, ltid);
    if i < |ps| then ps[i := ps[i].(rtid := rtid)] else ps
  }

  function Erase(ps: seq<Pending>, i: nat): seq<Pending>
    requires i < |ps|
  {
    ps[..i] + ps[i + 1..]
  }

  /** The answer readdressed to its user, and the list without its entry. */
  datatype Returned = Unknown | Returned(m: Message, left: seq<Pending>)

  function Reclaimed(ps: seq<Pending>, m: Message): Returned {
    var i := Find(ps, m.source, m.tid);
    if i == |ps| then Unknown
    else Returned(m.(tid := ps[i].ltid, destination := ps[i].user), Erase(ps, i))
  }

  // ----- the pool

  class LocalTransactionPool {
    var transactions: seq<Pending>

    constructor ()
      ensures transactions == []
    {
      transactions := [];
    }

    method Add(m: Message)
      modifies this
      ensures transactions == Pushed(old(transactions), m)
    {
      transactions := transactions + [Pending(m.source, m.destination, m.tid, m.tid)];
    }

    method FindEntry(from: Id, tid: uint16) returns (i: nat)
      ensures i == Find(transactions, from, tid)
    {
      i := 0;
      while i < |transactions| && !At(transactions[i], from, tid)
        invariant i <= |transactions|
        invariant forall j | 0 <= j < i :: !At(transactions[j], from, tid)
      {
        i := i + 1;
      }
    }

    method SetRemoteTid(dst: Id, ltid: uint16, rtid: uint16)
      modifies this
      ensures transactions == Renumbered(old(transactions), dst, ltid, rtid)
    {
      var i := FindEntry(dst, ltid);
      if i < |transactions| {
        transactions := transactions[i := transactions[i].(rtid := rtid)];
      }
    }

    method SetUserTid(m: Message) returns (found: bool, r: Message)
      modifies this
      ensures found <==> Reclaimed(old(transactions), m).Returned?
      ensures found ==> Returned(r, transactions) == Reclaimed(old(transactions), m)
      ensures !found ==> r == m && transactions == old(transactions)
    {
      var i := FindEntry(m.source, m.tid);
      found, r := i < |transactions|, m;
      if found {
        r := m.(tid := transactions[i].ltid, destination := transactions[i].user);
        transactions := transactions[..i] + transactions[i + 1..];
      }
    }

    /** Removes the entry for `tid` if its user chose that identifier as well. */
    method Del(user: Id, tid: uint16) returns (found: bool)
      modifies this
      ensures var i := Find(old(transactions), user, tid);
        && (found <==> i < |old(transactions)| && old(transactions)[i].ltid == tid)
        && transactions == if found then Erase(old(transactions), i) else old(transactions)
    {
      var i := FindEntry(user, tid);
      found := i < |transactions| && transactions[i].ltid == tid;
      if found {
        transactions := transactions[..i] + transactions[i + 1..];
      }
    }
  }

  // ----- every interleaving of requests and answers

  /** A request forwarded to a peer, renumbered to `rtid`; one forwarded to a local
      link, which keeps its number; any other message that starts a source
      transaction, for instance an indication, and is renumbered like a request
      though it was never recorded; and an answer. */
  datatype Event =
    | Forward(user: Id, destination: Id, ltid: uint16, rtid: uint16)
    | ForwardLocal(user: Id, destination: Id, ltid: uint16)
    | Unrecorded(destination: Id, ltid: uint16, rtid: uint16)
    | Answer(m: Message)

  function Asked(e: Event): Message
    requires e.Forward? || e.ForwardLocal?
  {
    Message(Mid(Request, 0), false, false, e.ltid, e.user, e.destination, [])
  }

  function Step(ps: seq<Pending>, e: Event): seq<Pending> {
    match e
    case Forward(_, dst, ltid, rtid) => Renumbered(Pushed(ps, Asked(e)), dst, ltid, rtid)
    case ForwardLocal(_, _, _) => Pushed(ps, Asked(e))
    case Unrecorded(dst, ltid, rtid) => Renumbered(ps, dst, ltid, rtid)
    case Answer(m) => var r := Reclaimed(ps, m); if r.Unknown? then ps else r.left
  }

  function Exec(es: seq<Event>): seq<Pending> {
    if es == [] then [] else Step(Exec(es[..|es| - 1]), es[|es| - 1])
  }

  /** What is on the wire: destination and travelling identifier of every request
      not answered yet, with the user and the identifier it came from. */
  datatype Wire = Wire(destination: Id, tid: uint16)
  datatype Asker = Asker(user: Id, tid: uint16)

  function RefStep(w: map<Wire, Asker>, e: Event): map<Wire, Asker> {
    match e
    case Forward(user, dst, ltid, rtid) => w[Wire(dst, rtid) := Asker(user, ltid)]
    case ForwardLocal(user, dst, ltid) => w[Wire(dst, ltid) := Asker(user, ltid)]
    case Unrecorded(_, _, _) => w
    case Answer(m) => w - {Wire(m.source, m.tid)}
  }

  function RefExec(es: seq<Event>): map<Wire, Asker> {
    if es == [] then map[] else RefStep(RefExec(es[..|es| - 1]), es[|es| - 1])
  }

  /** Neither identifier of a new request is on the wire to its destination, and no
      other message borrows the identifier of a request that is. */
  predicate Fresh(w: map<Wire, Asker>, e: Event) {
    match e
    case Forward(_, dst, ltid, rtid) => Wire(dst, ltid) !in w && Wire(dst, rtid) !in w
    case ForwardLocal(_, dst, ltid) => Wire(dst, ltid) !in w
    case Unrecorded(_, ltid, rtid) => Wire(e.destination, ltid) !in w || ltid == rtid
    case Answer(_) => true
  }

  predicate AllFresh(es: seq<Event>) {
    es != [] ==> AllFresh(es[..|es| - 1]) && Fresh(RefExec(es[..|es| - 1]), es[|es| - 1])
  }

  function WireOf(p: Pending): Wire { Wire(p.destination, p.rtid) }

  /** The list is the wire map, one entry each. */
  ghost predicate Refines(ps: seq<Pending>, w: map<Wire, Asker>) {
    && (forall i | 0 <= i < |ps| :: WireOf(ps[i]) in w && w[WireOf(ps[i])] == Asker(ps[i].user, ps[i].ltid))
    && (forall i, j | 0 <= i < j < |ps| :: WireOf(ps[i]) != WireOf(ps[j]))
    && (forall k | k in w :: exists i :: 0 <= i < |ps| && WireOf(ps[i]) == k)
  }

  /** A new request gets its travelling identifier, and no other entry changes,
      exactly when its own identifier was not on the wire to that destination
      already (or it keeps that number anyway). */
  lemma RenumbersNewestIff(ps: seq<Pending>, e: Event)
    requires e.Forward?
    ensures Step(ps, e) == ps + [Pending(e.user, e.destination, e.ltid, e.rtid)]
      <==> e.ltid == e.rtid || forall i | 0 <= i < |ps| :: !At(ps[i], e.destination, e.ltid)
  {
    var qs := Pushed(ps, Asked(e));
    var i := Find(qs, e.destination, e.ltid);
    assert At(qs[|ps|], e.destination, e.ltid);
    if i < |ps| {
      assert qs[i] == ps[i];
      assert Step(ps, e)[|ps|] == qs[|ps|];
      if e.ltid == e.rtid {
        assert Step(ps, e) == qs;
      }
    } else {
      forall j | 0 <= j < |ps| ensures !At(ps[j], e.destination, e.ltid) { assert qs[j] == ps[j]; }
    }
  }

  /** A message that was never recorded leaves the list alone exactly when no request
      on the wire to its destination has its identifier (or it keeps that number). */
  lemma UnrecordedHarmlessIff(ps: seq<Pending>, e: Event)
    requires e.Unrecorded?
    ensures Step(ps, e) == ps <==> e.ltid == e.rtid || forall i | 0 <= i < |ps| :: !At(ps[i], e.destination, e.ltid)
  {
    var i := Find(ps, e.destination, e.ltid);
    if i < |ps| {
      assert At(ps[i], e.destination, e.ltid);
      assert Step(ps, e)[i] == ps[i].(rtid := e.rtid);
      if e.ltid == e.rtid {
        assert ps[i].(rtid := e.rtid) == ps[i];
      }
    }
  }

  /** Otherwise the answer to that request, when it comes, is not known any more. */
  lemma UnrecordedLosesAnswer(es: seq<Event>, e: Event, m: Message)
    requires AllFresh(es) && e.Unrecorded? && !Fresh(RefExec(es), e)
    requires m.source == e.destination && m.tid == e.ltid
    ensures Reclaimed(Exec(es), m).Returned? && Reclaimed(Step(Exec(es), e), m).Unknown?
  {
    ExecRefines(es);
    var ps := Exec(es);
    var j :| 0 <= j < |ps| && WireOf(ps[j]) == Wire(e.destination, e.ltid);
    assert At(ps[j], m.source, m.tid);
    var i := Find(ps, m.source, m.tid);
    var qs := Step(ps, e);
    forall k | 0 <= k < |qs| ensures !At(qs[k], m.source, m.tid) {
      assert k != i ==> WireOf(ps[k]) != WireOf(ps[i]);
    }
    assert Find(qs, m.source, m.tid) == |qs|;
  }

  lemma StepRefines(ps: seq<Pending>, w: map<Wire, Asker>, e: Event)
    requires Refines(ps, w) && Fresh(w, e)
    ensures Refines(Step(ps, e), RefStep(w, e))
  {
    match e
    case Forward(user, dst, ltid, rtid) =>
      RenumbersNewestIff(ps, e);
      AppendRefines(ps, w, Pending(user, dst, ltid, rtid));
    case ForwardLocal(user, dst, ltid) =>
      AppendRefines(ps, w, Pending(user, dst, ltid, ltid));
    case Unrecorded(dst, ltid, rtid) =>
      UnrecordedHarmlessIff(ps, e);
      assert forall i | 0 <= i < |ps| && At(ps[i], dst, ltid) :: WireOf(ps[i]) in w;
    case Answer(m) =>
      var i := Find(ps, m.source, m.tid);
      if i < |ps| {
        EraseRefines(ps, w, i);
      } else {
        forall k | k in w ensures k != Wire(m.source, m.tid) {
          var j :| 0 <= j < |ps| && WireOf(ps[j]) == k;
          assert !At(ps[j], m.source, m.tid);
        }
        assert w - {Wire(m.source, m.tid)} == w;
      }
  }

  lemma AppendRefines(ps: seq<Pending>, w: map<Wire, Asker>, p: Pending)
    requires Refines(ps, w) && WireOf(p) !in w
    ensures Refines(ps + [p], w[WireOf(p) := Asker(p.user, p.ltid)])
  {
    var qs, v := ps + [p], w[WireOf(p) := Asker(p.user, p.ltid)];
    forall k | k in v ensures exists i :: 0 <= i < |qs| && WireOf(qs[i]) == k {
      if k == WireOf(p) {
        assert qs[|ps|] == p;
      } else {
        var i :| 0 <= i < |ps| && WireOf(ps[i]) == k;
        assert qs[i] == ps[i];
      }
    }
  }

  lemma EraseRefines(ps: seq<Pending>, w: map<Wire, Asker>, i: nat)
    requires Refines(ps, w) && i < |ps|
    ensures Refines(Erase(ps, i), w - {WireOf(ps[i])})
  {
    var qs, v := Erase(ps, i), w - {WireOf(ps[i])};
    forall j | 0 <= j < |qs|
      ensures qs[j] == ps[if j < i then j else j + 1]
      ensures WireOf(qs[j]) in v && v[WireOf(qs[j])] == Asker(qs[j].user, qs[j].ltid)
    {
      assert qs[j] == ps[if j < i then j else j + 1];
    }
    forall k | k in v ensures exists j :: 0 <= j < |qs| && WireOf(qs[j]) == k {
      var j :| 0 <= j < |ps| && WireOf(ps[j]) == k;
      assert qs[if j < i then j else j - 1] == ps[j];
    }
  }

  /** After every interleaving in which new identifiers are fresh, the list holds
      exactly the requests on the wire. */
  lemma {:induction false} ExecRefines(es: seq<Event>)
    requires AllFresh(es)
    ensures Refines(Exec(es), RefExec(es))
  {
    if es == [] {
    } else {
      ExecRefines(es[..|es| - 1]);
      StepRefines(Exec(es[..|es| - 1]), RefExec(es[..|es| - 1]), es[|es| - 1]);
    }
  }

  /** Then an answer is known exactly when its request is on the wire; it goes to
      the user that asked, under the identifier that user chose, otherwise
      unchanged, and it consumes one entry, leaving the others in order. */
  lemma AnswerReturns(es: seq<Event>, m: Message)
    requires AllFresh(es)
    ensures var w := RefExec(es); var k := Wire(m.source, m.tid); var r := Reclaimed(Exec(es), m);
      && (r.Returned? <==> k in w)
      && (k in w ==>
            && r.m == m.(tid := w[k].tid, destination := w[k].user)
            && Refines(r.left, w - {k})
            && exists i :: 0 <= i < |Exec(es)| && WireOf(Exec(es)[i]) == k
                           && r.left == Exec(es)[..i] + Exec(es)[i + 1..])
  {
    ExecRefines(es);
    var ps, w := Exec(es), RefExec(es);
    var k := Wire(m.source, m.tid);
    var i := Find(ps, m.source, m.tid);
    if k in w {
      var j :| 0 <= j < |ps| && WireOf(ps[j]) == k;
      assert At(ps[j], m.source, m.tid);
      EraseRefines(ps, w, i);
    }
  }

  /** Forwarding a request and answering it brings back its user and identifier
      and restores the list, if neither identifier was pending for its destination. */
  lemma FreshRoundTrip(ps: seq<Pending>, user: Id, dst: Id, ltid: uint16, rtid: uint16, m: Message)
    requires forall i | 0 <= i < |ps| :: !At(ps[i], dst, ltid) && !At(ps[i], dst, rtid)
    requires m.source == dst && m.tid == rtid
    ensures Reclaimed(Renumbered(ps + [Pending(user, dst, ltid, ltid)], dst, ltid, rtid), m)
         == Returned(m.(tid := ltid, destination := user), ps)
  {
    RenumbersNewestIff(ps, Forward(user, dst, ltid, rtid));
    var qs := ps + [Pending(user, dst, ltid, rtid)];
    assert At(qs[|ps|], m.source, m.tid);
    forall j | 0 <= j < |ps| ensures !At(qs[j], m.source, m.tid) { assert qs[j] == ps[j]; }
    assert Erase(qs, |ps|) == ps;
  }

  /** In particular after every interleaving with fresh identifiers. */
  lemma ForwardAnswerRoundTrip(es: seq<Event>, e: Event, m: Message)
    requires AllFresh(es) && e.Forward? && Fresh(RefExec(es), e)
    requires m.source == e.destination && m.tid == e.rtid
    ensures Reclaimed(Step(Exec(es), e), m) == Returned(m.(tid := e.ltid, destination := e.user), Exec(es))
  {
    ExecRefines(es);
    var ps := Exec(es);
    forall i | 0 <= i < |ps| ensures !At(ps[i], e.destination, e.ltid) && !At(ps[i], e.destination, e.rtid) {
      assert WireOf(ps[i]) in RefExec(es);
    }
    FreshRoundTrip(ps, e.user, e.destination, e.ltid, e.rtid, m);
  }
}
