/** Event subscriptions: the list the event service keeps, what it delivers, and
    which events it keeps enabled at the Link SAPs. */
module EventService {
  import opened Messages

  /** A link is only ever compared; an event is a position of the event bitmap. */
  type Link = nat
  type Evt = e: int | 0 <= e < 32

  datatype Registration = Registration(user: Id, link: Link, event: Evt)

  // ----- reference: a set of registrations

  function All(user: Id, link: Link, events: set<Evt>): set<Registration> {
    set e | e in events :: Registration(user, link, e)
  }

  function Subscribers(subs: set<Registration>, link: Link, event: Evt): set<Id> {
    set r | r in subs && r.link == link && r.event == event :: r.user
  }

  /** The events of a link somebody is subscribed to. */
  function Needed(subs: set<Registration>, link: Link): set<Evt> {
    set r | r in subs && r.link == link :: r.event
  }

  function SetOf<T>(s: seq<T>): set<T> { set x | x in s }

  ghost predicate NoDuplicates<T>(s: seq<T>) { forall i, j | 0 <= i < j < |s| :: s[i] != s[j] }

  predicate Matches(r: Registration, user: Id, link: Link, events: set<Evt>) {
    r.link == link && r.user == user && r.event in events
  }

  /** The registrations left after an unsubscription, in their old order. */
  function Left(s: seq<Registration>, user: Id, link: Link, events: set<Evt>): seq<Registration> {
    if s == [] then []
    else
      var x := s[|s| - 1];
      Left(s[..|s| - 1], user, link, events) + (if Matches(x, user, link, events) then [] else [x])
  }

  lemma {:induction false} LeftIsDifference(s: seq<Registration>, user: Id, link: Link, events: set<Evt>)
    ensures SetOf(Left(s, user, link, events)) == SetOf(s) - All(user, link, events)
    ensures NoDuplicates(s) ==> NoDuplicates(Left(s, user, link, events))
  {
    if s == [] {
    } else {
      var s', x := s[..|s| - 1], s[|s| - 1];
      var t := Left(s', user, link, events);
      LeftIsDifference(s', user, link, events);
      assert SetOf(s) == SetOf(s') + {x} by { assert s == s' + [x]; }
      if Matches(x, user, link, events) {
        assert x in All(user, link, events);
        assert t + [] == t;
      } else {
        assert SetOf(t + [x]) == SetOf(t) + {x};
        if NoDuplicates(s) {
          assert x !in SetOf(s') && x !in SetOf(t);
        }
      }
    }
  }

  // ----- the service

  /** What becomes of a subscription: an answer at once, or a request to the Link SAP. */
  datatype Reply = Failed | Granted | Asking(linkId: Id, events: set<Evt>)

  class Service {
    var subscriptions: seq<Registration>

    ghost predicate Valid()
      reads this
    {
      NoDuplicates(subscriptions)
    }

    constructor ()
      ensures Valid() && subscriptions == []
    {
      subscriptions := [];
    }

    /** Subscribing is union; new registrations go to the end. */
    method Subscribe(user: Id, link: Link, events: set<Evt>)
      requires Valid()
      modifies this
      ensures Valid() && subscriptions == Added(old(subscriptions), user, link, events, 32)
      ensures SetOf(subscriptions) == SetOf(old(subscriptions)) + All(user, link, events)
    {
      for i := 0 to 32
        invariant subscriptions == Added(old(subscriptions), user, link, events, i)
      {
        if i in events {
          var reg := Registration(user, link, i);
          if reg !in subscriptions {
            subscriptions := subscriptions + [reg];
          }
        }
      }
      AddedIsUnion(old(subscriptions), user, link, events, 32);
      assert (set e | e in events && e < 32) == events;
    }

    /** Unsubscribing is difference; what is left keeps its order. */
    method Unsubscribe(user: Id, link: Link, events: set<Evt>)
      requires Valid()
      modifies this
      ensures Valid() && subscriptions == Left(old(subscriptions), user, link, events)
      ensures SetOf(subscriptions) == SetOf(old(subscriptions)) - All(user, link, events)
    {
      ghost var s := subscriptions;
      var i := 0;
      ghost var k := 0;  // registrations inspected so far
      while i < |subscriptions|
        invariant 0 <= i <= |subscriptions| && k <= |s| && |subscriptions| - i == |s| - k
        invariant subscriptions[..i] == Left(s[..k], user, link, events) && subscriptions[i..] == s[k..]
        decreases |subscriptions| - i
      {
        assert s[..k + 1][..k] == s[..k] && subscriptions[i] == s[k];
        ghost var rest := subscriptions[i + 1..];
        assert rest == subscriptions[i..][1..] == s[k + 1..];
        if Matches(subscriptions[i], user, link, events) {
          subscriptions := subscriptions[..i] + subscriptions[i + 1..];
          assert subscriptions[i..] == rest;
        } else {
          assert subscriptions[..i + 1] == subscriptions[..i] + [subscriptions[i]];
          i := i + 1;
        }
        k := k + 1;
      }
      assert s[..k] == s && subscriptions[..i] == subscriptions;
      LeftIsDifference(s, user, link, events);
    }

    /** Of the events just unsubscribed, those to remove at the Link SAP. */
    method LinkUnsubscribe(user: Id, link: Link, events: set<Evt>) returns (remove: set<Evt>)
      ensures remove == events - (set r | r in subscriptions && r.link == link && r.user != user :: r.event)
    {
      remove := events;
      for i := 0 to |subscriptions|
        invariant remove == events - (set r | r in subscriptions[..i] && r.link == link && r.user != user :: r.event)
      {
        var item := subscriptions[i];
        assert subscriptions[..i + 1] == subscriptions[..i] + [item];
        if item.link == link && item.user != user {
          remove := remove - {item.event};
        }
      }
      assert subscriptions[..|subscriptions|] == subscriptions;
    }

    /** A local unsubscription: the events removed at the Link SAP are exactly the
        requested ones that no remaining subscription on that link needs. */
    method UnsubscribeRequest(user: Id, link: Link, events: set<Evt>) returns (remove: set<Evt>)
      requires Valid()
      modifies this
      ensures Valid() && subscriptions == Left(old(subscriptions), user, link, events)
      ensures remove == events - Needed(SetOf(subscriptions), link)
    {
      Unsubscribe(user, link, events);
      remove := LinkUnsubscribe(user, link, events);
      ghost var subs := SetOf(subscriptions);
      forall e | e in events
        ensures e in Needed(subs, link) <==>
          e in set r | r in subscriptions && r.link == link && r.user != user :: r.event
      {
        assert Registration(user, link, e) in All(user, link, events);
        if e in Needed(subs, link) {
          var r :| r in subs && r.link == link && r.event == e;
          assert r.user != user;
        }
      }
    }

    /** A local subscription on a link without Link SAP fails. On another it is
        granted at once exactly when the requested events are the ones already
        subscribed on that link; otherwise the Link SAP is asked first and nothing
        changes yet. `linkId` is the Link SAP of the link, "" if there is none. */
    method SubscribeRequest(user: Id, link: Link, events: set<Evt>, linkId: Id) returns (r: Reply)
      requires Valid()
      modifies this
      ensures Valid()
      ensures r.Failed? <==> linkId == ""
      ensures r.Granted? <==> linkId != "" && events == Needed(SetOf(old(subscriptions)), link)
      ensures r.Granted? ==> SetOf(subscriptions) == SetOf(old(subscriptions)) + All(user, link, events)
      ensures r.Asking? ==> r == Asking(linkId, events)
      ensures !r.Granted? ==> subscriptions == old(subscriptions)
    {
      if linkId == "" {
        return Failed;
      }
      var enabled: set<Evt> := {};
      for i := 0 to |subscriptions|
        invariant subscriptions == old(subscriptions)
        invariant enabled == Needed(SetOf(subscriptions[..i]), link)
      {
        var item := subscriptions[i];
        assert subscriptions[..i + 1] == subscriptions[..i] + [item];
        assert SetOf(subscriptions[..i + 1]) == SetOf(subscriptions[..i]) + {item};
        if item.link == link {
          enabled := enabled + {item.event};
        }
      }
      assert subscriptions[..|subscriptions|] == subscriptions;
      if events == enabled {
        Subscribe(user, link, events);
        r := Granted;
      } else {
        r := Asking(linkId, events);
      }
    }

    /** An event is transmitted once to each subscribed user and to nobody else. */
    method Forward(link: Link, event: Evt) returns (sent: seq<Id>)
      requires Valid()
      ensures sent == Delivered(subscriptions, link, event)
      ensures NoDuplicates(sent) && SetOf(sent) == Subscribers(SetOf(subscriptions), link, event)
    {
      sent := [];
      for i := 0 to |subscriptions|
        invariant sent == Delivered(subscriptions[..i], link, event)
      {
        var r := subscriptions[i];
        assert subscriptions[..i + 1][..i] == subscriptions[..i];
        if r.event == event && r.link == link {
          sent := sent + [r.user];
        }
      }
      assert subscriptions[..|subscriptions|] == subscriptions;
      DeliveredOnce(subscriptions, link, event);
    }

    /** A detected link and the two handover events are looked up by event alone, so
        a user gets one copy for every link it is subscribed to the event on. */
    method Announce(event: Evt) returns (sent: seq<Id>)
      requires Valid()
      ensures sent == Announced(subscriptions, event)
      ensures forall u: Id :: multiset(sent)[u] == |LinksOf(SetOf(subscriptions), u, event)|
    {
      sent := [];
      for i := 0 to |subscriptions|
        invariant sent == Announced(subscriptions[..i], event)
      {
        var r := subscriptions[i];
        assert subscriptions[..i + 1][..i] == subscriptions[..i];
        if r.event == event {
          sent := sent + [r.user];
        }
      }
      assert subscriptions[..|subscriptions|] == subscriptions;
      forall u: Id ensures multiset(sent)[u] == |LinksOf(SetOf(subscriptions), u, event)| {
        AnnouncedPerLink(subscriptions, event, u);
      }
    }
  }

  // ----- whole histories, with the Link SAPs

  /** A subscription, the Link SAP's answer to it, and an unsubscription, in any
      interleaving: an answer may come late or never. `honoured` says whether a Link SAP
      that is asked does as asked, and `reached` whether a removal gets to the Link
      SAP, which is not told once it has failed too often. */
  datatype Op =
    | Request(user: Id, link: Link, events: set<Evt>, honoured: bool)
    | Answer(user: Id, link: Link, events: set<Evt>)
    | Cancel(user: Id, link: Link, events: set<Evt>, reached: bool)

  /** The subscription list, and the events each Link SAP has been told to report. */
  datatype System = System(subs: seq<Registration>, enabled: map<Link, set<Evt>>)

  function Enabled(m: map<Link, set<Evt>>, link: Link): set<Evt> {
    if link in m then m[link] else {}
  }

  /** The list after a subscription: missing registrations appended in bit order. */
  function Added(s: seq<Registration>, user: Id, link: Link, events: set<Evt>, n: nat): seq<Registration>
    requires n <= 32
  {
    if n == 0 then s
    else
      var t := Added(s, user, link, events, n - 1);
      var e: Evt := n - 1;
      var r := Registration(user, link, e);
      if e in events && r !in t then t + [r] else t
  }

  function Step(sys: System, op: Op): System {
    match op
    case Request(user, link, events, honoured) =>
      if events == Needed(SetOf(sys.subs), link) then sys.(subs := Added(sys.subs, user, link, events, 32))
      else if honoured then sys.(enabled := sys.enabled[link := Enabled(sys.enabled, link) + events])
      else sys
    case Answer(user, link, events) => sys.(subs := Added(sys.subs, user, link, events, 32))
    case Cancel(user, link, events, reached) =>
      var subs := Left(sys.subs, user, link, events);
      var remove := events - (set r | r in subs && r.link == link && r.user != user :: r.event);
      if reached then System(subs, sys.enabled[link := Enabled(sys.enabled, link) - remove])
      else sys.(subs := subs)
  }

  function Exec(ops: seq<Op>): System {
    if ops == [] then System([], map[]) else Step(Exec(ops[..|ops| - 1]), ops[|ops| - 1])
  }

  /** The reference: what the history subscribes, as a set. */
  function RefStep(subs: set<Registration>, op: Op): set<Registration> {
    match op
    case Request(user, link, events, _) =>
      if events == Needed(subs, link) then subs + All(user, link, events) else subs
    case Answer(user, link, events) => subs + All(user, link, events)
    case Cancel(user, link, events, _) => subs - All(user, link, events)
  }

  function RefExec(ops: seq<Op>): set<Registration> {
    if ops == [] then {} else RefStep(RefExec(ops[..|ops| - 1]), ops[|ops| - 1])
  }

  lemma {:induction false} AddedIsUnion(s: seq<Registration>, user: Id, link: Link, events: set<Evt>, n: nat)
    requires n <= 32
    ensures var t := Added(s, user, link, events, n);
      && s <= t && SetOf(t) == SetOf(s) + All(user, link, set e | e in events && e < n)
      && (NoDuplicates(s) ==> NoDuplicates(t))
  {
    if n == 0 {
    } else {
      AddedIsUnion(s, user, link, events, n - 1);
      var t := Added(s, user, link, events, n - 1);
      var e: Evt := n - 1;
      var r := Registration(user, link, e);
      if e in events {
        assert (set x | x in events && x < n) == (set x | x in events && x < n - 1) + {e};
        assert All(user, link, set x | x in events && x < n) == All(user, link, set x | x in events && x < n - 1) + {r};
        assert SetOf(t + [r]) == SetOf(t) + {r};
      } else {
        assert (set x | x in events && x < n) == (set x | x in events && x < n - 1);
      }
    }
  }

  lemma NeededGrows(subs: set<Registration>, user: Id, link: Link, events: set<Evt>, l: Link)
    ensures Needed(subs + All(user, link, events), l) == Needed(subs, l) + (if l == link then events else {})
  {
    forall e | e in events ensures e in Needed(subs + All(user, link, events), link) {
      assert Registration(user, link, e) in subs + All(user, link, events);
    }
    forall r | r in subs && r.link == l ensures r.event in Needed(subs + All(user, link, events), l) {
      assert r in subs + All(user, link, events);
    }
  }

  /** Only events nobody else needs are taken away by a cancellation. */
  lemma NeededShrinks(subs: set<Registration>, user: Id, link: Link, events: set<Evt>, l: Link)
    ensures var left := subs - All(user, link, events);
      && Needed(left, l) <= Needed(subs, l)
      && (if l == link then Needed(subs, l) - events <= Needed(left, l) else Needed(left, l) == Needed(subs, l))
      && events - (set r | r in left && r.link == link && r.user != user :: r.event) == events - Needed(left, link)
  {
  }

  // ----- what the Link SAPs report

  /** A condition on an operation and the history before it. */
  type Mark = (seq<Op>, Op) -> bool

  /** Some operation met `p` and none after it met `q`. */
  ghost predicate Since(ops: seq<Op>, p: Mark, q: Mark) {
    exists i | 0 <= i < |ops| :: SinceAt(ops, i, p, q)
  }

  predicate SinceAt(ops: seq<Op>, i: nat, p: Mark, q: Mark)
    requires i < |ops|
  {
    p(ops[..i], ops[i]) && forall j | i < j < |ops| :: !q(ops[..j], ops[j])
  }

  lemma SinceAtNext(ops: seq<Op>, i: nat, p: Mark, q: Mark)
    requires i < |ops| - 1
    ensures var ops', op := ops[..|ops| - 1], ops[|ops| - 1];
      SinceAt(ops, i, p, q) <==> SinceAt(ops', i, p, q) && !q(ops', op)
  {
    var k := |ops| - 1;
    var ops' := ops[..k];
    forall j | 0 <= j < k ensures ops'[j] == ops[j] && ops'[..j] == ops[..j] { }
    if SinceAt(ops, i, p, q) {
      assert !q(ops[..k], ops[k]);
      forall j | i < j < k ensures !q(ops'[..j], ops'[j]) { assert !q(ops[..j], ops[j]); }
    }
    if SinceAt(ops', i, p, q) && !q(ops', ops[k]) {
      forall j | i < j < |ops| ensures !q(ops[..j], ops[j]) {
        if j < k { assert !q(ops'[..j], ops'[j]); }
      }
    }
  }

  lemma SinceNext(ops: seq<Op>, p: Mark, q: Mark)
    requires ops != []
    ensures var ops', op := ops[..|ops| - 1], ops[|ops| - 1];
      Since(ops, p, q) <==> p(ops', op) || (Since(ops', p, q) && !q(ops', op))
  {
    var k := |ops| - 1;
    assert SinceAt(ops, k, p, q) <==> p(ops[..k], ops[k]);
    forall i | 0 <= i < k ensures SinceAt(ops, i, p, q) <==> SinceAt(ops[..k], i, p, q) && !q(ops[..k], ops[k]) {
      SinceAtNext(ops, i, p, q);
    }
    hide SinceAt;
    if Since(ops[..k], p, q) && !q(ops[..k], ops[k]) {
      var i :| 0 <= i < k && SinceAt(ops[..k], i, p, q);
      assert SinceAt(ops, i, p, q);
    }
    if Since(ops, p, q) {
      var i :| 0 <= i <= k && SinceAt(ops, i, p, q);
      assert i < k ==> SinceAt(ops[..k], i, p, q);
    }
  }

  predicate Concerns(op: Op, link: Link, event: Evt) { op.link == link && event in op.events }

  /** The Link SAP is asked for the event and honours it. */
  function Honours(link: Link, event: Evt): Mark {
    (h: seq<Op>, op: Op) =>
      Concerns(op, link, event) && op.Request? && op.honoured && op.events != Needed(RefExec(h), link)
  }

  /** A removal of the event reaches the Link SAP. */
  function Removes(link: Link, event: Evt): Mark {
    (h: seq<Op>, op: Op) =>
      Concerns(op, link, event) && op.Cancel? && op.reached && event !in Needed(RefStep(RefExec(h), op), link)
  }

  /** The last thing the Link SAP was told about the event is to report it. */
  ghost predicate Told(ops: seq<Op>, link: Link, event: Evt) {
    Since(ops, Honours(link, event), Removes(link, event))
  }

  /** What one operation does to the list. */
  lemma StepRefines(sys: System, op: Op)
    requires NoDuplicates(sys.subs)
    ensures NoDuplicates(Step(sys, op).subs) && SetOf(Step(sys, op).subs) == RefStep(SetOf(sys.subs), op)
  {
    AddedIsUnion(sys.subs, op.user, op.link, op.events, 32);
    assert (set e | e in op.events && e < 32) == op.events;
    LeftIsDifference(sys.subs, op.user, op.link, op.events);
    hide NoDuplicates, SetOf, Added, Left, All, Needed;
  }

  /** What one operation does to what a Link SAP reports. */
  lemma StepTells(ops: seq<Op>, sys: System, op: Op, l: Link, e: Evt)
    requires NoDuplicates(sys.subs) && SetOf(sys.subs) == RefExec(ops)
    ensures e in Enabled(Step(sys, op).enabled, l) <==>
      Honours(l, e)(ops, op) || (e in Enabled(sys.enabled, l) && !Removes(l, e)(ops, op))
  {
    if op.Cancel? {
      LeftIsDifference(sys.subs, op.user, op.link, op.events);
      var left := Left(sys.subs, op.user, op.link, op.events);
      assert (set r | r in left && r.link == op.link && r.user != op.user :: r.event)
          == (set r | r in SetOf(left) && r.link == op.link && r.user != op.user :: r.event);
      NeededShrinks(SetOf(sys.subs), op.user, op.link, op.events, op.link);
      var remove := op.events - (set r | r in left && r.link == op.link && r.user != op.user :: r.event);
      assert remove == op.events - Needed(RefStep(RefExec(ops), op), op.link);
      assert Removes(l, e)(ops, op) <==> op.reached && l == op.link && e in remove;
    }
  }

  /** After every history: the list is duplicate-free and holds exactly the
      reference set, and a Link SAP reports an event exactly when the last thing it was
      told about it is to do so. */
  lemma {:induction false} HistoryKeeps(ops: seq<Op>)
    ensures var sys := Exec(ops);
      && NoDuplicates(sys.subs) && SetOf(sys.subs) == RefExec(ops)
      && forall l: Link, e: Evt :: e in Enabled(sys.enabled, l) <==> Told(ops, l, e)
  {
    if ops == [] {
      forall l: Link, e: Evt ensures !Told(ops, l, e) { }
    } else {
      hide NoDuplicates, Step, Needed, SetOf, Honours, Removes, Since;
      var ops', op := ops[..|ops| - 1], ops[|ops| - 1];
      HistoryKeeps(ops');
      StepRefines(Exec(ops'), op);
      forall l: Link, e: Evt ensures e in Enabled(Exec(ops).enabled, l) <==> Told(ops, l, e) {
        StepTells(ops', Exec(ops'), op, l, e);
        SinceNext(ops, Honours(l, e), Removes(l, e));
      }
    }
  }

  // ----- every needed event is reported

  /** When the answer comes the Link SAP still reports what it was asked for. */
  ghost predicate InTime(ops: seq<Op>, j: nat)
    requires j < |ops|
  {
    ops[j].Answer? ==> forall e | e in ops[j].events :: Told(ops[..j], ops[j].link, e)
  }

  ghost predicate Covered(ops: seq<Op>) {
    forall l: Link, e: Evt | e in Needed(RefExec(ops), l) :: Told(ops, l, e)
  }

  lemma CoveredNext(ops: seq<Op>)
    requires ops != [] && Covered(ops[..|ops| - 1])
    ensures Covered(ops) <==> InTime(ops, |ops| - 1)
  {
    var ops', op := ops[..|ops| - 1], ops[|ops| - 1];
    hide Since;
    forall l: Link, e: Evt
      ensures Told(ops, l, e) <==> Honours(l, e)(ops', op) || (Told(ops', l, e) && !Removes(l, e)(ops', op))
      ensures var subs := RefExec(ops');
        e in Needed(RefStep(subs, op), l) ==>
          !Removes(l, e)(ops', op) && (e in Needed(subs, l) || (op.Answer? && Concerns(op, l, e)))
      ensures op.Answer? && Concerns(op, l, e) ==> e in Needed(RefStep(RefExec(ops'), op), l)
    {
      SinceNext(ops, Honours(l, e), Removes(l, e));
      NeededGrows(RefExec(ops'), op.user, op.link, op.events, l);
      NeededShrinks(RefExec(ops'), op.user, op.link, op.events, l);
    }
    hide Told, Honours, Removes, Needed;
    if Covered(ops) && op.Answer? {
      forall e | e in op.events ensures Told(ops', op.link, e) {
        assert Concerns(op, op.link, e);
        assert Told(ops, op.link, e);
        assert !Honours(op.link, e)(ops', op) by { AnswerHonoursNothing(ops', op, op.link, e); }
      }
    }
  }

  lemma AnswerHonoursNothing(ops: seq<Op>, op: Op, link: Link, e: Evt)
    requires op.Answer?
    ensures !Honours(link, e)(ops, op)
  {
  }

  /** In a history, every Link SAP reports at every moment all the events somebody is
      subscribed to on its link, if and only if every answer comes in time. */
  lemma {:induction false} AlwaysCoveredIff(ops: seq<Op>)
    ensures (forall n | 0 <= n <= |ops| :: Covered(ops[..n])) <==> (forall j | 0 <= j < |ops| :: InTime(ops, j))
  {
    if ops == [] {
      assert ops[..0] == [];
      assert Covered([]);
    } else {
      hide Covered, InTime;
      var k := |ops| - 1;
      var ops' := ops[..k];
      AlwaysCoveredIff(ops');
      forall n | 0 <= n <= k ensures ops'[..n] == ops[..n] { }
      forall j | 0 <= j < k ensures InTime(ops', j) <==> InTime(ops, j) { InTimePart(ops, j); }
      assert ops'[..k] == ops' && ops[..k + 1] == ops;
      if Covered(ops') {
        CoveredNext(ops);
      }
    }
  }

  lemma InTimePart(ops: seq<Op>, j: nat)
    requires j < |ops| - 1
    ensures InTime(ops[..|ops| - 1], j) <==> InTime(ops, j)
  {
    hide Told;
    assert ops[..|ops| - 1][..j] == ops[..j];
  }

  /** It can fail: a cancellation overtakes the answer, and the event is never
      reported to its subscriber. */
  lemma AnswerOvertaken(user: Id, link: Link, e: Evt)
    ensures var ops := [Op.Request(user, link, {e}, true), Cancel(user, link, {e}, true), Answer(user, link, {e})];
      Registration(user, link, e) in RefExec(ops) && e !in Enabled(Exec(ops).enabled, link)
  {
    var ask, answer := Op.Request(user, link, {e}, true), Answer(user, link, {e});
    var cancel := Cancel(user, link, {e}, true);
    assert [ask, cancel, answer][..2] == [ask, cancel] && [ask, cancel][..1] == [ask] && [ask][..0] == [];
    assert e in ask.events && Needed(SetOf([]), link) == {};
    assert Exec([ask]) == Step(System([], map[]), ask);
    assert Exec([ask]).subs == [] && Exec([ask]).enabled[link] == {e};
    assert Exec([ask, cancel]).enabled[link] == {};
    assert Registration(user, link, e) in All(user, link, {e});
  }

  // ----- no other event is

  /** An operation that leaves the event reported where nobody needs it. */
  ghost function Strands(link: Link, event: Evt): Mark {
    (h: seq<Op>, op: Op) =>
      && Concerns(op, link, event) && event !in Needed(RefStep(RefExec(h), op), link)
      && (Honours(link, event)(h, op) ||
          (op.Cancel? && !op.reached && event in Needed(RefExec(h), link) && Told(h, link, event)))
  }

  /** An operation that ends that: an answer, or a removal that gets through. */
  function Settles(link: Link, event: Evt): Mark {
    (h: seq<Op>, op: Op) => Concerns(op, link, event) && (op.Answer? || (op.Cancel? && op.reached))
  }

  ghost predicate Stranded(ops: seq<Op>, link: Link, event: Evt) {
    Since(ops, Strands(link, event), Settles(link, event))
  }

  lemma StrandsNext(ops: seq<Op>, op: Op, l: Link, e: Evt)
    ensures var subs := RefExec(ops);
      var told' := Honours(l, e)(ops, op) || (Told(ops, l, e) && !Removes(l, e)(ops, op));
      var stale := Told(ops, l, e) && e !in Needed(subs, l);
      told' && e !in Needed(RefStep(subs, op), l) <==>
        Strands(l, e)(ops, op) || (stale && !Settles(l, e)(ops, op))
  {
    hide Told, RefExec;
    NeededGrows(RefExec(ops), op.user, op.link, op.events, l);
    NeededShrinks(RefExec(ops), op.user, op.link, op.events, l);
  }

  /** After every history a Link SAP reports an event nobody is subscribed to on its
      link exactly when the event was stranded there and that was not settled since. */
  lemma {:induction false} SuperfluousIff(ops: seq<Op>, l: Link, e: Evt)
    ensures Told(ops, l, e) && e !in Needed(RefExec(ops), l) <==> Stranded(ops, l, e)
  {
    if ops == [] {
    } else {
      hide Since, Strands, Settles, Honours, Removes, Needed;
      var ops', op := ops[..|ops| - 1], ops[|ops| - 1];
      SuperfluousIff(ops', l, e);
      SinceNext(ops, Honours(l, e), Removes(l, e));
      SinceNext(ops, Strands(l, e), Settles(l, e));
      StrandsNext(ops', op, l, e);
    }
  }

  /** So in a history whose answers come in time a Link SAP reports exactly the needed
      events if and only if none is stranded. */
  lemma ReportsExactlyIff(ops: seq<Op>, link: Link)
    requires forall j | 0 <= j < |ops| :: InTime(ops, j)
    ensures Needed(RefExec(ops), link) <= Enabled(Exec(ops).enabled, link)
    ensures Enabled(Exec(ops).enabled, link) == Needed(RefExec(ops), link) <==>
      forall e: Evt :: !Stranded(ops, link, e)
  {
    var enabled, needed := Enabled(Exec(ops).enabled, link), Needed(RefExec(ops), link);
    HistoryKeeps(ops);
    AlwaysCoveredIff(ops);
    assert ops[..|ops|] == ops;
    hide Exec, RefExec, Needed, Told, Stranded, InTime;
    assert Covered(ops);
    forall e: Evt
      ensures e in enabled <==> Told(ops, link, e)
      ensures Stranded(ops, link, e) <==> e in enabled && e !in needed
    {
      SuperfluousIff(ops, link, e);
    }
    if forall e: Evt :: !Stranded(ops, link, e) {
      assert forall e: Evt :: e in enabled <==> e in needed;
    }
  }

  /** A stranded event: the only subscriber leaves while its Link SAP, having failed
      too often, is not told. */
  lemma RemovalLost(user: Id, link: Link, e: Evt)
    ensures var ops := [Op.Request(user, link, {e}, true), Answer(user, link, {e}), Cancel(user, link, {e}, false)];
      Enabled(Exec(ops).enabled, link) == {e} && RefExec(ops) == {}
  {
    var ask, answer := Op.Request(user, link, {e}, true), Answer(user, link, {e});
    var cancel := Cancel(user, link, {e}, false);
    assert [ask, answer, cancel][..2] == [ask, answer] && [ask, answer][..1] == [ask] && [ask][..0] == [];
    assert e in ask.events && Needed(SetOf([]), link) == {};
    assert Exec([ask]) == Step(System([], map[]), ask);
    assert Exec([ask]).enabled[link] == {e};
    assert Exec([ask, answer, cancel]).enabled == Exec([ask]).enabled;
    assert RefExec([ask]) == RefStep(RefExec([]), ask) == {};
    assert RefExec([ask, answer]) == All(user, link, {e});
  }

  /** The users an event is transmitted to, in order. */
  function Delivered(s: seq<Registration>, link: Link, event: Evt): seq<Id> {
    if s == [] then []
    else
      var x := s[|s| - 1];
      Delivered(s[..|s| - 1], link, event) + (if x.event == event && x.link == link then [x.user] else [])
  }

  lemma {:induction false} DeliveredOnce(s: seq<Registration>, link: Link, event: Evt)
    requires NoDuplicates(s)
    ensures NoDuplicates(Delivered(s, link, event))
    ensures SetOf(Delivered(s, link, event)) == Subscribers(SetOf(s), link, event)
  {
    if s == [] {
    } else {
      var s', x := s[..|s| - 1], s[|s| - 1];
      var t := Delivered(s', link, event);
      Unsnoc(s);
      DeliveredOnce(s', link, event);
      SubscribersNext(SetOf(s'), x, link, event);
      hide NoDuplicates, SetOf, Subscribers;
      if x.event == event && x.link == link {
        FreshSubscriber(x, s', t, link, event);
        Snoc(t, x.user);
      } else {
        assert t + [] == t;
      }
    }
  }

  lemma Snoc<T>(t: seq<T>, x: T)
    requires NoDuplicates(t) && x !in t
    ensures NoDuplicates(t + [x]) && SetOf(t + [x]) == SetOf(t) + {x}
  {
  }

  lemma Unsnoc<T>(s: seq<T>)
    requires NoDuplicates(s) && s != []
    ensures var t, x := s[..|s| - 1], s[|s| - 1]; NoDuplicates(t) && x !in t && SetOf(s) == SetOf(t) + {x}
  {
    assert s == s[..|s| - 1] + [s[|s| - 1]];
  }

  lemma SubscribersNext(subs: set<Registration>, x: Registration, link: Link, event: Evt)
    ensures Subscribers(subs + {x}, link, event) ==
      Subscribers(subs, link, event) + (if x.event == event && x.link == link then {x.user} else {})
  {
  }

  lemma FreshSubscriber(x: Registration, s: seq<Registration>, t: seq<Id>, link: Link, event: Evt)
    requires x.event == event && x.link == link && x !in s && SetOf(t) == Subscribers(SetOf(s), link, event)
    ensures x.user !in t
  {
    assert x !in SetOf(s);
    forall r | r in SetOf(s) && r.link == link && r.event == event ensures r.user != x.user { }
    assert x.user !in SetOf(t);
  }

  /** After every history an event reaches each subscribed user exactly once. */
  lemma EventReachesSubscribers(ops: seq<Op>, link: Link, event: Evt)
    ensures var to := Delivered(Exec(ops).subs, link, event);
      NoDuplicates(to) && SetOf(to) == Subscribers(RefExec(ops), link, event)
  {
    HistoryKeeps(ops);
    DeliveredOnce(Exec(ops).subs, link, event);
  }

  // ----- events looked up without their link

  /** The users such an event is transmitted to, in order. */
  function Announced(s: seq<Registration>, event: Evt): seq<Id> {
    if s == [] then []
    else
      var x := s[|s| - 1];
      Announced(s[..|s| - 1], event) + (if x.event == event then [x.user] else [])
  }

  /** The links a user is subscribed to an event on. */
  function LinksOf(subs: set<Registration>, user: Id, event: Evt): set<Link> {
    set r | r in subs && r.user == user && r.event == event :: r.link
  }

  lemma {:induction false} AnnouncedPerLink(s: seq<Registration>, event: Evt, user: Id)
    requires NoDuplicates(s)
    ensures multiset(Announced(s, event))[user] == |LinksOf(SetOf(s), user, event)|
  {
    if s == [] {
    } else {
      var s', x := s[..|s| - 1], s[|s| - 1];
      Unsnoc(s);
      AnnouncedPerLink(s', event, user);
      LinksOfNext(SetOf(s'), x, user, event);
    }
  }

  lemma LinksOfNext(subs: set<Registration>, x: Registration, user: Id, event: Evt)
    requires x !in subs
    ensures |LinksOf(subs + {x}, user, event)| ==
      |LinksOf(subs, user, event)| + (if x.user == user && x.event == event then 1 else 0)
  {
    var links := LinksOf(subs, user, event);
    if x.user == user && x.event == event {
      assert x.link !in links;
      assert LinksOf(subs + {x}, user, event) == links + {x.link};
    } else {
      assert LinksOf(subs + {x}, user, event) == links;
    }
  }

  /** After every history such an event reaches every user subscribed to it on some
      link, and reaches one exactly once if and only if that is one link only. */
  lemma AnnouncedOnceIff(ops: seq<Op>, event: Evt, user: Id)
    ensures var sent, links := multiset(Announced(Exec(ops).subs, event)), LinksOf(RefExec(ops), user, event);
      && (user in sent <==> links != {})
      && (sent[user] == 1 <==> exists l :: links == {l})
  {
    HistoryKeeps(ops);
    AnnouncedPerLink(Exec(ops).subs, event, user);
    var links := LinksOf(RefExec(ops), user, event);
    if |links| == 1 {
      var l :| l in links;
      assert |links - {l}| == 0;
      assert links == {l};
    }
  }
}
