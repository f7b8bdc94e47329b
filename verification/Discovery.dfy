/** Discovery of points of service (PoS): what one response makes the MIHF query
    and pass on, and how the configured mechanisms are tried one after another. */
module Discovery {
  import opened Messages

  /** A PoS; one without an address is known by its identifier only. */
  datatype Pos = Pos(id: Id, ip: string, port: uint16)
  {
    predicate Addressed() { ip != "" }

    /** The comparison of the original: same identifier, or same address. */
    predicate Same(q: Pos) { id == q.id || (ip == q.ip && port == q.port) }
  }

  /** The PoS of the information, command and event services. */
  datatype Offers = Offers(info: seq<Pos>, cmd: seq<Pos>, evt: seq<Pos>)

  // ----- one response

  predicate Known(sent: seq<Pos>, p: Pos) { exists i :: 0 <= i < |sent| && sent[i].Same(p) }

  /** What has been queried, and what could not be. */
  datatype Scan = Scan(sent: seq<Pos>, missing: seq<Pos>)

  /** One service list: a PoS not seen yet is queried if it has an address and
      passed on otherwise. */
  function ScanList(sent: seq<Pos>, ps: seq<Pos>): Scan {
    if ps == [] then Scan(sent, [])
    else
      var r := ScanList(sent, ps[..|ps| - 1]);
      var p := ps[|ps| - 1];
      if Known(r.sent, p) then r
      else if p.Addressed() then r.(sent := r.sent + [p])
      else r.(missing := r.missing + [p])
  }

  /** The three lists in turn, with one memory of what was queried. */
  datatype Survey = Survey(sent: seq<Pos>, missing: Offers)
  {
    predicate Complete() { missing == Offers([], [], []) }
  }

  function SurveyOf(o: Offers): Survey {
    var a := ScanList([], o.info);
    var b := ScanList(a.sent, o.cmd);
    var c := ScanList(b.sent, o.evt);
    Survey(c.sent, Offers(a.missing, b.missing, c.missing))
  }

  ghost predicate PairwiseDifferent(s: seq<Pos>) { forall i, j | 0 <= i < j < |s| :: !s[i].Same(s[j]) }

  predicate AllAddressed(s: seq<Pos>) { forall i | 0 <= i < |s| :: s[i].Addressed() }

  /** What a scan does to the queries made before it. */
  lemma {:induction false} ScanQueries(sent: seq<Pos>, ps: seq<Pos>)
    requires PairwiseDifferent(sent) && AllAddressed(sent)
    ensures var r := ScanList(sent, ps);
      && sent <= r.sent && PairwiseDifferent(r.sent) && AllAddressed(r.sent)
      && (forall q | q in r.sent :: q in sent || q in ps)
      && (forall p | p in ps && p.Addressed() :: Known(r.sent, p))
  {
    if ps == [] {
    } else {
      var ps', p := ps[..|ps| - 1], ps[|ps| - 1];
      assert ps == ps' + [p];
      ScanQueries(sent, ps');
      var r', r := ScanList(sent, ps'), ScanList(sent, ps);
      assert r'.sent <= r.sent;
      forall q | Known(r'.sent, q) ensures Known(r.sent, q) {
        var i :| 0 <= i < |r'.sent| && r'.sent[i].Same(q);
        assert r.sent[i].Same(q);
      }
      if !Known(r'.sent, p) && p.Addressed() {
        assert r.sent[|r'.sent|] == p && r.sent[|r'.sent|].Same(p);
      }
    }
  }

  /** What a scan passes on: the PoS without address whose identifier has not been
      queried, and nothing else. */
  lemma {:induction false} ScanMissing(sent: seq<Pos>, ps: seq<Pos>)
    requires PairwiseDifferent(sent) && AllAddressed(sent)
    ensures var r := ScanList(sent, ps);
      && (forall p | p in r.missing :: p in ps && !p.Addressed() && !Known(sent, p))
      && (forall p | p in ps && !p.Addressed() :: p in r.missing || exists q :: q in r.sent && q.id == p.id)
  {
    if ps == [] {
    } else {
      var ps', p := ps[..|ps| - 1], ps[|ps| - 1];
      assert ps == ps' + [p];
      ScanMissing(sent, ps');
      ScanQueries(sent, ps');
      var r', r := ScanList(sent, ps'), ScanList(sent, ps);
      forall q | Known(sent, q) ensures Known(r'.sent, q) {
        var i :| 0 <= i < |sent| && sent[i].Same(q);
        assert r'.sent[i].Same(q);
      }
      assert forall q | q in r'.sent :: q in r.sent;
      assert forall q | q in r'.missing :: q in r.missing;
      if !p.Addressed() && Known(r'.sent, p) {
        var i :| 0 <= i < |r'.sent| && r'.sent[i].Same(p);
        assert r'.sent[i] in r.sent && r'.sent[i].id == p.id;
      }
    }
  }

  /** In every response: no two queries go to the same PoS; every PoS offered with
      an address, in any list, has had its identifier or its address queried; only
      offered PoS with an address are queried. Every PoS offered without an address
      is passed on in its own list, unless a PoS of that identifier was queried. */
  lemma ResponseCovers(o: Offers)
    ensures var s := SurveyOf(o);
      && PairwiseDifferent(s.sent) && AllAddressed(s.sent)
      && (forall q | q in s.sent :: q in o.info || q in o.cmd || q in o.evt)
      && (forall p | (p in o.info || p in o.cmd || p in o.evt) && p.Addressed() :: Known(s.sent, p))
      && PassedOn(o.info, s.missing.info, s.sent) && PassedOn(o.cmd, s.missing.cmd, s.sent)
      && PassedOn(o.evt, s.missing.evt, s.sent)
  {
    var a := ScanList([], o.info);
    ScanQueries([], o.info);
    ScanMissing([], o.info);
    var b := ScanList(a.sent, o.cmd);
    ScanQueries(a.sent, o.cmd);
    ScanMissing(a.sent, o.cmd);
    var c := ScanList(b.sent, o.evt);
    ScanQueries(b.sent, o.evt);
    ScanMissing(b.sent, o.evt);
    KnownGrows(a.sent, b.sent);
    KnownGrows(a.sent, c.sent);
    KnownGrows(b.sent, c.sent);
    assert forall q | q in a.sent :: q in b.sent;
    assert forall q | q in b.sent :: q in c.sent;
  }

  ghost predicate PassedOn(ps: seq<Pos>, missing: seq<Pos>, sent: seq<Pos>) {
    && (forall p | p in missing :: p in ps && !p.Addressed())
    && (forall p | p in ps && !p.Addressed() :: p in missing || exists q :: q in sent && q.id == p.id)
  }

  lemma KnownGrows(s: seq<Pos>, t: seq<Pos>)
    requires s <= t
    ensures forall p | Known(s, p) :: Known(t, p)
  {
  }

  // ----- when nothing that was offered is lost

  /** No two different addressed PoS share their identifier, or both address and port. */
  ghost predicate Unambiguous(ps: seq<Pos>) {
    forall p, q | p in ps && q in ps && p.ip != "" && q.ip != "" && p != q ::
      p.id != q.id && (p.ip != q.ip || p.port != q.port)
  }

  function All(o: Offers): seq<Pos> { o.info + o.cmd + o.evt }

  /** Every PoS offered with an address is queried, if and only if no two different
      ones among them share their identifier or their address. */
  lemma EveryAddressQueriedIff(o: Offers)
    ensures (forall p | p in All(o) && p.Addressed() :: p in SurveyOf(o).sent) <==> Unambiguous(All(o))
  {
    hide SurveyOf, ScanList;
    ResponseCovers(o);
    var sent := SurveyOf(o).sent;
    if forall p | p in All(o) && p.Addressed() :: p in sent {
      forall p, q | p in All(o) && q in All(o) && p.Addressed() && q.Addressed() && p.Same(q) ensures p == q {
        var i :| 0 <= i < |sent| && sent[i] == p;
        var j :| 0 <= j < |sent| && sent[j] == q;
        assert sent[i].Same(sent[j]) && sent[j].Same(sent[i]);
      }
    }
    if Unambiguous(All(o)) {
      forall p | p in All(o) && p.Addressed() ensures p in sent {
        assert Known(sent, p);
        var i :| 0 <= i < |sent| && sent[i].Same(p);
        assert sent[i] in sent && sent[i].Addressed() && sent[i] in All(o);
      }
    }
  }

  /** It can fail: of two PoS of one identifier, at two addresses, only the first is
      queried; and the comparison is not even transitive, so which PoS are queried
      depends on the order they are offered in. */
  lemma AddressesCanBeSkipped()
    ensures var p, q, r := Pos("a", "1", 1), Pos("a", "2", 1), Pos("b", "2", 1);
      && p.Same(q) && q.Same(r) && !p.Same(r)
      && SurveyOf(Offers([p, q], [r], [])).sent == [p, r] && SurveyOf(Offers([q, p], [r], [])).sent == [q]
  {
    var p, q, r := Pos("a", "1", 1), Pos("a", "2", 1), Pos("b", "2", 1);
    ScanTwo(p, q);
    ScanTwo(q, p);
    assert [p][0].Same(q) && [q][0].Same(p) && [q][0].Same(r);
    ScanOne([p], r);
    ScanOne([q], r);
  }

  lemma ScanOne(sent: seq<Pos>, p: Pos)
    ensures ScanList(sent, []) == Scan(sent, [])
    ensures ScanList(sent, [p]) ==
      if Known(sent, p) then Scan(sent, []) else if p.Addressed() then Scan(sent + [p], []) else Scan(sent, [p])
  {
    assert [p][..0] == [];
  }

  lemma ScanTwo(p: Pos, q: Pos)
    requires p.Addressed()
    ensures ScanList([], [p, q]) == ScanList([p], [q])
  {
    assert [p, q][..1] == [p] && [] + [p] == [p];
    ScanOne([], p);
    ScanOne([p], q);
  }

  /** The PoS without address, in order. */
  function Bare(ps: seq<Pos>): seq<Pos> {
    if ps == [] then []
    else Bare(ps[..|ps| - 1]) + (if ps[|ps| - 1].Addressed() then [] else [ps[|ps| - 1]])
  }

  ghost predicate Hides(ps: seq<Pos>, p: Pos) { exists q :: q in ps && q.Addressed() && q.id == p.id }

  /** No PoS without address comes after an addressed one of its identifier. */
  ghost predicate Clear(prior: seq<Pos>, ps: seq<Pos>) {
    if ps == [] then true
    else
      var ps', p := ps[..|ps| - 1], ps[|ps| - 1];
      Clear(prior, ps') && (p.Addressed() || !Hides(prior + ps', p))
  }

  lemma {:induction false} ScanAppend(ps: seq<Pos>, qs: seq<Pos>)
    ensures ScanList(ScanList([], ps).sent, qs).sent == ScanList([], ps + qs).sent
  {
    if qs == [] {
      assert ps + qs == ps;
    } else {
      ScanAppend(ps, qs[..|qs| - 1]);
      assert (ps + qs)[..|ps + qs| - 1] == ps + qs[..|qs| - 1];
    }
  }

  /** A PoS without address is known to a scan only through an addressed one of its
      identifier, and surely through one if none is ambiguous. */
  lemma KnownBare(ps: seq<Pos>, p: Pos)
    requires !p.Addressed()
    ensures Known(ScanList([], ps).sent, p) ==> Hides(ps, p)
    ensures Unambiguous(ps) && Hides(ps, p) ==> Known(ScanList([], ps).sent, p)
  {
    ScanQueries([], ps);
    var sent := ScanList([], ps).sent;
    if Known(sent, p) {
      var i :| 0 <= i < |sent| && sent[i].Same(p);
      assert sent[i] in sent;
    }
    if Unambiguous(ps) && Hides(ps, p) {
      var q :| q in ps && q.Addressed() && q.id == p.id;
      var i :| 0 <= i < |sent| && sent[i].Same(q);
      assert sent[i] in sent && sent[i] == q;
      assert sent[i].Same(p);
    }
  }

  lemma {:induction false} ListPassedOn(prior: seq<Pos>, ps: seq<Pos>)
    ensures var missing := ScanList(ScanList([], prior).sent, ps).missing;
      && |missing| <= |Bare(ps)|
      && (Clear(prior, ps) ==> missing == Bare(ps))
      && (Unambiguous(prior + ps) && missing == Bare(ps) ==> Clear(prior, ps))
  {
    if ps == [] {
    } else {
      var ps', p := ps[..|ps| - 1], ps[|ps| - 1];
      ListPassedOn(prior, ps');
      ScanAppend(prior, ps');
      UnambiguousPart(prior + ps', prior + ps);
      var s := ScanList([], prior).sent;
      var r', r := ScanList(s, ps'), ScanList(s, ps);
      assert Clear(prior, ps) <==> Clear(prior, ps') && (p.Addressed() || !Hides(prior + ps', p));
      if p.Addressed() {
        assert r.missing == r'.missing && Bare(ps) == Bare(ps');
      } else {
        KnownBare(prior + ps', p);
        assert Bare(ps) == Bare(ps') + [p];
        assert r.missing == if Known(r'.sent, p) then r'.missing else r'.missing + [p];
        SnocEqual(r'.missing, Bare(ps'), p);
        hide *;
      }
    }
  }

  lemma SnocEqual<T>(s: seq<T>, t: seq<T>, x: T)
    ensures s + [x] == t + [x] <==> s == t
  {
    if s + [x] == t + [x] {
      assert s == (s + [x])[..|s|] && t == (t + [x])[..|t|];
    }
  }

  lemma UnambiguousPart(ps: seq<Pos>, qs: seq<Pos>)
    requires forall p | p in ps :: p in qs
    ensures Unambiguous(qs) ==> Unambiguous(ps)
  {
  }

  /** Every PoS offered without an address is passed on, in its own list and in its
      place, if no addressed PoS of its identifier comes before it; and when no
      addressed PoS are ambiguous, only if. */
  lemma EveryBarePassedOnIff(o: Offers)
    ensures var s := SurveyOf(o);
      var passed := s.missing == Offers(Bare(o.info), Bare(o.cmd), Bare(o.evt));
      var clear := Clear([], o.info) && Clear(o.info, o.cmd) && Clear(o.info + o.cmd, o.evt);
      && (clear ==> passed)
      && (Unambiguous(All(o)) ==> (passed <==> clear))
  {
    assert ScanList([], []) == Scan([], []);
    ListPassedOn([], o.info);
    ListPassedOn(o.info, o.cmd);
    ListPassedOn(o.info + o.cmd, o.evt);
    ScanAppend(o.info, o.cmd);
    assert [] + o.info == o.info;
    UnambiguousPart(o.info, All(o));
    UnambiguousPart(o.info + o.cmd, All(o));
  }

  // ----- the chain of mechanisms

  function Find(order: seq<Id>, x: Id): (i: nat)
    ensures i <= |order| && (i < |order| ==> order[i] == x)
    ensures forall j | 0 <= j < i :: order[j] != x
  {
    if order == [] || order[0] == x then 0 else 1 + Find(order[1..], x)
  }

  lemma FindFirst(order: seq<Id>, x: Id, i: nat)
    requires i < |order| && order[i] == x && x !in order[..i]
    ensures Find(order, x) == i
  {
    assert forall j | 0 <= j < i :: order[..i][j] == order[j];
  }

  /** The mechanism after the one that answered, or none: then it broadcasts. */
  function Next(order: seq<Id>, x: Id): Option<Id> {
    var i := Find(order, x) + 1;
    if i < |order| then Some(order[i]) else None
  }

  /** The `n`-th mechanism tried when every one before it found nothing. */
  function Chain(order: seq<Id>, n: nat): Option<Id>
    requires order != []
  {
    if n == 0 then Some(order[0])
    else var r := Chain(order, n - 1); if r.None? then None else Next(order, r.value)
  }

  ghost predicate NoDuplicates(order: seq<Id>) { forall i, j | 0 <= i < j < |order| :: order[i] != order[j] }

  lemma FindUnique(order: seq<Id>, i: nat, m: nat)
    requires i < m <= |order| && NoDuplicates(order[..m])
    ensures Find(order, order[i]) == i
  {
    var k := Find(order, order[i]);
    assert k <= i;
    assert order[..m][k] == order[k] && order[..m][i] == order[i];
  }

  /** Without duplicates each mechanism is tried once, in order, and then the
      request is broadcast. */
  lemma {:induction false} ChainAdvances(order: seq<Id>, n: nat)
    requires order != [] && NoDuplicates(order)
    ensures Chain(order, n) == if n < |order| then Some(order[n]) else None
  {
    if n == 0 {
    } else {
      ChainAdvances(order, n - 1);
      if n <= |order| {
        assert order[..|order|] == order;
        FindUnique(order, n - 1, |order|);
      }
    }
  }

  /** With a duplicate the chain comes back to an earlier mechanism for ever. */
  lemma {:induction false} ChainLoops(order: seq<Id>, i: nat, j: nat, n: nat)
    requires i < j < |order| && order[i] == order[j] && NoDuplicates(order[..j])
    ensures exists k :: 0 <= k < j && Chain(order, n) == Some(order[k])
  {
    if n == 0 {
      assert Chain(order, 0) == Some(order[0]);
    } else {
      ChainLoops(order, i, j, n - 1);
      var k :| 0 <= k < j && Chain(order, n - 1) == Some(order[k]);
      FindUnique(order, k, j);
      var k' := if k + 1 == j then i else k + 1;
      assert Chain(order, n) == Some(order[k']);
    }
  }

  lemma FirstRepeat(order: seq<Id>) returns (i: nat, j: nat)
    requires !NoDuplicates(order)
    ensures i < j < |order| && order[i] == order[j] && NoDuplicates(order[..j])
  {
    i, j :| 0 <= i < j < |order| && order[i] == order[j];
    while !NoDuplicates(order[..j])
      invariant i < j < |order| && order[i] == order[j]
      decreases j
    {
      var s := order[..j];
      var k, l :| 0 <= k < l < |s| && s[k] == s[l];
      i, j := k, l;
    }
  }

  /** The chain of fruitless mechanisms ends, by a broadcast, if and only if no
      mechanism is configured twice; then it ends after exactly |order| of them. */
  lemma ChainEndsIff(order: seq<Id>)
    requires order != []
    ensures (exists n :: Chain(order, n).None?) <==> NoDuplicates(order)
    ensures NoDuplicates(order) ==> Chain(order, |order|).None? && forall n | 0 <= n < |order| :: Chain(order, n).Some?
  {
    if NoDuplicates(order) {
      ChainAdvances(order, |order|);
      forall n | 0 <= n < |order| ensures Chain(order, n).Some? {
        ChainAdvances(order, n);
      }
    } else {
      var i, j := FirstRepeat(order);
      forall n ensures Chain(order, n).Some? {
        ChainLoops(order, i, j, n);
      }
    }
  }

  // ----- the service

  /** What a response makes the service send, in order. */
  datatype Out =
    | Query(pos: Pos)
    | Ask(mechanism: Id, missing: Option<Offers>)
    | Broadcast

  function Queries(sent: seq<Pos>): seq<Out> { seq(|sent|, i requires 0 <= i < |sent| => Query(sent[i])) }

  /** The further mechanism or broadcast. */
  function Further(order: seq<Id>, source: Id, missing: Option<Offers>): Out {
    var r := Next(order, source);
    if r.Some? then Ask(r.value, missing) else Broadcast
  }

  /** Failed searches, one after the other, ask exactly the chain of mechanisms, and
      the one after the last broadcasts. */
  lemma FurtherFollowsChain(order: seq<Id>, n: nat)
    requires order != [] && Chain(order, n).Some?
    ensures var next := Chain(order, n + 1);
      Further(order, Chain(order, n).value, None) == if next.Some? then Ask(next.value, None) else Broadcast
  {
  }

  class DiscoverService {
    const order: seq<Id>
    const enableUnsolicited: bool

    constructor (order: seq<Id>, enableUnsolicited: bool)
      ensures this.order == order && this.enableUnsolicited == enableUnsolicited
    {
      this.order, this.enableUnsolicited := order, enableUnsolicited;
    }

    /** Scans one list, querying as it goes. */
    method ScanOffers(sent: seq<Pos>, ps: seq<Pos>) returns (sent': seq<Pos>, missing: seq<Pos>)
      ensures Scan(sent', missing) == ScanList(sent, ps)
    {
      sent', missing := sent, [];
      for i := 0 to |ps|
        invariant Scan(sent', missing) == ScanList(sent, ps[..i])
      {
        assert ps[..i + 1][..i] == ps[..i];
        var p := ps[i];
        var seen := false;
        for j := 0 to |sent'|
          invariant seen <==> Known(sent'[..j], p)
        {
          assert sent'[..j + 1] == sent'[..j] + [sent'[j]];
          KnownSnoc(sent'[..j], sent'[j], p);
          seen := seen || sent'[j].Same(p);
        }
        assert sent'[..|sent'|] == sent';
        if !seen {
          if p.ip == "" {
            missing := missing + [p];
          } else {
            sent' := sent' + [p];
          }
        }
      }
      assert ps[..|ps|] == ps;
    }

    /** A response of mechanism `source`; `solicited` says whether it answers a
        pending request and `offers` what it found, if it succeeded. */
    method Response(source: Id, solicited: bool, offers: Option<Offers>) returns (outs: seq<Out>)
      requires source in order  // only mechanisms of the list are taken for discovery answers
      ensures !solicited && !enableUnsolicited ==> outs == []
      ensures (solicited || enableUnsolicited) && offers.None? ==> outs == [Further(order, source, None)]
      ensures (solicited || enableUnsolicited) && offers.Some? ==>
        var s := SurveyOf(offers.value);
        outs == Queries(s.sent) + (if s.Complete() then [] else [Further(order, source, Some(s.missing))])
      // a failed search goes on with the mechanism after the place of this one, and
      // broadcasts after the last
      ensures (solicited || enableUnsolicited) && offers.None? ==>
        forall i | 0 <= i < |order| && order[i] == source && source !in order[..i] ::
          outs == [if i + 1 < |order| then Ask(order[i + 1], None) else Broadcast]
      // every PoS of the survey is queried, and what could not be is looked for there
      ensures (solicited || enableUnsolicited) && offers.Some? ==>
        var s := SurveyOf(offers.value);
        && |outs| == |s.sent| + (if s.missing == Offers([], [], []) then 0 else 1)
        && (forall j | 0 <= j < |s.sent| :: outs[j] == Query(s.sent[j]))
        && forall i | 0 <= i < |order| && order[i] == source && source !in order[..i] && |outs| > |s.sent| ::
             outs[|s.sent|] == if i + 1 < |order| then Ask(order[i + 1], Some(s.missing)) else Broadcast
    {
      outs := [];
      forall i | 0 <= i < |order| && order[i] == source && source !in order[..i] ensures Find(order, source) == i {
        FindFirst(order, source, i);
      }
      if !solicited && !enableUnsolicited {
        return;
      }
      var missing := None;
      if offers.Some? {
        var sent, info := ScanOffers([], offers.value.info);
        var cmd, evt;
        sent, cmd := ScanOffers(sent, offers.value.cmd);
        sent, evt := ScanOffers(sent, offers.value.evt);
        outs := Queries(sent);
        if info == [] && cmd == [] && evt == [] {
          return;
        }
        missing := Some(Offers(info, cmd, evt));
      }
      var it := 0;
      while it < |order| && order[it] != source
        invariant 0 <= it <= |order| && forall j | 0 <= j < it :: order[j] != source
      {
        it := it + 1;
      }
      if it + 1 < |order| {
        outs := outs + [Ask(order[it + 1], missing)];
      } else {
        outs := outs + [Broadcast];
      }
    }
  }

  lemma KnownSnoc(s: seq<Pos>, q: Pos, p: Pos)
    ensures Known(s + [q], p) <==> Known(s, p) || q.Same(p)
  {
    if Known(s, p) {
      var i :| 0 <= i < |s| && s[i].Same(p);
      assert (s + [q])[i].Same(p);
    }
    if q.Same(p) {
      assert (s + [q])[|s|].Same(p);
    }
    if Known(s + [q], p) {
      var i :| 0 <= i < |s + [q]| && (s + [q])[i].Same(p);
      assert i < |s| ==> s[i].Same(p);
    }
  }
}
