/** Threshold crossing reports of the 802.11 Link SAP: configuring thresholds and
    the periodic check, whose loop does not advance past a parameter without a
    value. */
module Thresholds {
  import opened Messages

  datatype Param80211 = Rssi | NoQos | MulticastPacketLossRate
  datatype ParamGen = DataRate | SignalStrength | Sinr | Throughput | PacketErrorRate
  datatype ParamType = P80211(p: Param80211) | Gen(g: ParamGen) | OtherLink(n: nat)

  type Percentage = x: int | 0 <= x <= 100
  type Sint8 = x: int | -128 <= x < 128

  datatype Signal = Percent(v: Percentage) | Dbm(d: Sint8)

  /** What the driver reports for the associated access point. */
  datatype Readings = Readings(signal: Signal, rate: uint16, errors: uint16, qos: bool)

  datatype Direction = Above | Below

  datatype Threshold = Threshold(val: uint16, dir: Direction)

  /** A configured threshold; `serial` tells insertions apart. */
  datatype Armed = Armed(oneShot: bool, kind: ParamType, th: Threshold, serial: nat)

  predicate Supported(t: ParamType) {
    match t
    case P80211(p) => p.Rssi?
    case Gen(g) => g.DataRate? || g.SignalStrength? || g.PacketErrorRate?
    case OtherLink(_) => false
  }

  /** A signal in dBm is stored as a 16-bit unsigned number. */
  function SignalValue(s: Signal): uint16 {
    match s
    case Percent(v) => v
    case Dbm(d) => if d < 0 then d + 0x1_0000 else d
  }

  /** Readings in dBm keep their order in that form exactly while they have the same
      sign: a reading below zero counts as above any from zero on. */
  lemma SignalOrderIff(d: Sint8, e: Sint8)
    requires d < e
    ensures SignalValue(Dbm(d)) < SignalValue(Dbm(e)) <==> !(d < 0 <= e)
  {
  }

  function Value(t: ParamType, r: Readings): Option<uint16> {
    match t
    case P80211(Rssi) => Some(SignalValue(r.signal))
    case P80211(NoQos) => Some(if r.qos then 0 else 1)
    case Gen(DataRate) => Some(r.rate)
    case Gen(SignalStrength) => Some(SignalValue(r.signal))
    case Gen(PacketErrorRate) => Some(r.errors)
    case _ => None
  }

  /** Every type that may be configured has a value, so the check never stops at
      one; a type outside that set may have one too. */
  lemma SupportedHasValue(t: ParamType, r: Readings)
    ensures Supported(t) ==> Value(t, r).Some?
    ensures Value(t, r).Some? <==> Supported(t) || t == P80211(NoQos)
  {
  }

  predicate Crossed(a: Armed, r: Readings) {
    var v := Value(a.kind, r);
    v.Some? && (if a.th.dir.Above? then v.value > a.th.val else v.value < a.th.val)
  }

  /** Which reading crosses a threshold, type by type. A signal in dBm below zero
      counts as that much less than 65536. */
  lemma CrossedMeans(a: Armed, r: Readings)
    ensures a.kind == Gen(DataRate) ==>
      (Crossed(a, r) <==> (a.th.dir.Above? && r.rate > a.th.val) || (a.th.dir.Below? && r.rate < a.th.val))
    ensures a.kind == Gen(PacketErrorRate) ==>
      (Crossed(a, r) <==> (a.th.dir.Above? && r.errors > a.th.val) || (a.th.dir.Below? && r.errors < a.th.val))
    ensures (a.kind == Gen(SignalStrength) || a.kind == P80211(Rssi)) && r.signal.Percent? ==>
      (Crossed(a, r) <==>
         (a.th.dir.Above? && r.signal.v > a.th.val) || (a.th.dir.Below? && r.signal.v < a.th.val))
    ensures (a.kind == Gen(SignalStrength) || a.kind == P80211(Rssi)) && r.signal.Dbm? && r.signal.d >= 0 ==>
      (Crossed(a, r) <==>
         (a.th.dir.Above? && r.signal.d > a.th.val) || (a.th.dir.Below? && r.signal.d < a.th.val))
    ensures (a.kind == Gen(SignalStrength) || a.kind == P80211(Rssi)) && r.signal.Dbm? && r.signal.d < 0 ==>
      (Crossed(a, r) <==>
         (a.th.dir.Above? && r.signal.d + 0x1_0000 > a.th.val) || (a.th.dir.Below? && r.signal.d + 0x1_0000 < a.th.val))
    ensures a.kind == P80211(NoQos) ==>
      (Crossed(a, r) <==> if a.th.dir.Above? then !r.qos && a.th.val == 0 else a.th.val > (if r.qos then 0 else 1))
    ensures !Supported(a.kind) && a.kind != P80211(NoQos) ==> !Crossed(a, r)
  {
  }

  predicate AllSupported(s: seq<Armed>) { forall i | 0 <= i < |s| :: Supported(s[i].kind) }

  // ----- lists with some elements taken out

  function Select(s: seq<Armed>, p: Armed -> bool): seq<Armed> {
    if s == [] then []
    else Select(s[..|s| - 1], p) + (if p(s[|s| - 1]) then [s[|s| - 1]] else [])
  }

  lemma SelectSnoc(s: seq<Armed>, i: nat, p: Armed -> bool)
    requires i < |s|
    ensures Select(s[..i + 1], p) == Select(s[..i], p) + (if p(s[i]) then [s[i]] else [])
  {
    assert s[..i + 1][..i] == s[..i];
  }

  lemma {:induction false} SelectElements(s: seq<Armed>, p: Armed -> bool)
    ensures forall a :: a in Select(s, p) <==> a in s && p(a)
  {
    if s == [] {
    } else {
      SelectElements(s[..|s| - 1], p);
      assert s == s[..|s| - 1] + [s[|s| - 1]];
    }
  }

  /** What stays after a pass: everything but one-shot thresholds that fired. */
  function Stays(r: Readings): Armed -> bool { (a: Armed) => !(Crossed(a, r) && a.oneShot) }

  function Fires(r: Readings): Armed -> bool { (a: Armed) => Crossed(a, r) }

  // ----- configuration

  datatype Action = Normal | OneShot | Cancel

  /** One configuration item: a period, or thresholds. */
  datatype Item = Item(kind: ParamType, action: Action, period: Option<uint16>, thresholds: seq<Threshold>)

  /** A report sent every so often. */
  datatype Periodic = Periodic(kind: ParamType, period: uint16)

  datatype ItemStatus = ItemStatus(kind: ParamType, th: Option<Threshold>, ok: bool)

  function OtherKind(t: ParamType): Armed -> bool { (a: Armed) => a.kind != t }

  function OtherThan(t: ParamType, th: Threshold): Armed -> bool { (a: Armed) => !(a.kind == t && a.th == th) }

  function CancelAll(s: seq<Armed>, t: ParamType, ths: seq<Threshold>): seq<Armed> {
    if ths == [] then s else Select(CancelAll(s, t, ths[..|ths| - 1]), OtherThan(t, ths[|ths| - 1]))
  }

  function Inserted(item: Item, next: nat, n: nat): seq<Armed>
    requires n <= |item.thresholds|
  {
    seq(n, i requires 0 <= i < n => Armed(item.action.OneShot?, item.kind, item.thresholds[i], next + i))
  }

  /** The threshold list after one item. */
  function Configured(s: seq<Armed>, next: nat, item: Item): seq<Armed> {
    if !Supported(item.kind) then s
    else if item.action.Cancel? then
      if item.thresholds == [] then Select(s, OtherKind(item.kind)) else CancelAll(s, item.kind, item.thresholds)
    else if item.period.Some? then s
    else s + Inserted(item, next, |item.thresholds|)
  }

  function Confirmed(item: Item, n: nat): seq<ItemStatus>
    requires n <= |item.thresholds|
  {
    seq(n, i requires 0 <= i < n => ItemStatus(item.kind, Some(item.thresholds[i]), true))
  }

  /** A refusal, one confirmation for a whole type, or one per threshold; a
      periodic report is not confirmed at all. */
  function StatusesOf(item: Item): seq<ItemStatus> {
    if !Supported(item.kind) then [ItemStatus(item.kind, None, false)]
    else if item.action.Cancel? && item.thresholds == [] then [ItemStatus(item.kind, None, true)]
    else if item.period.Some? && !item.action.Cancel? then []
    else Confirmed(item, |item.thresholds|)
  }

  function StatusesOfAll(items: seq<Item>): seq<ItemStatus> {
    if items == [] then [] else StatusesOfAll(items[..|items| - 1]) + StatusesOf(items[|items| - 1])
  }

  function Inserts(item: Item): nat {
    if Supported(item.kind) && !item.action.Cancel? && item.period.None? then |item.thresholds| else 0
  }

  function Reporting(ps: seq<Periodic>, t: ParamType): seq<Periodic> {
    if ps == [] then []
    else Reporting(ps[..|ps| - 1], t) + (if ps[|ps| - 1].kind != t then [ps[|ps| - 1]] else [])
  }

  /** The periodic reports after one item. */
  function Scheduled(ps: seq<Periodic>, item: Item): seq<Periodic> {
    if !Supported(item.kind) then ps
    else if item.action.Cancel? then if item.thresholds == [] then Reporting(ps, item.kind) else ps
    else if item.period.Some? then ps + [Periodic(item.kind, item.period.value)]
    else ps
  }

  function ScheduledAll(ps: seq<Periodic>, items: seq<Item>): seq<Periodic> {
    if items == [] then ps else Scheduled(ScheduledAll(ps, items[..|items| - 1]), items[|items| - 1])
  }

  lemma {:induction false} ReportingElements(ps: seq<Periodic>, t: ParamType)
    ensures forall p :: p in Reporting(ps, t) <==> p in ps && p.kind != t
  {
    if ps == [] {
    } else {
      ReportingElements(ps[..|ps| - 1], t);
      assert ps == ps[..|ps| - 1] + [ps[|ps| - 1]];
    }
  }

  /** What one item does to the periodic reports: a cancellation without thresholds
      ends those of its type, and a period adds one of that type and length. */
  lemma ScheduledElements(ps: seq<Periodic>, item: Item, p: Periodic)
    ensures p in Scheduled(ps, item) <==>
      || (p in ps && !(p.kind == item.kind && Supported(p.kind) && item.action.Cancel? && item.thresholds == []))
      || (Supported(item.kind) && !item.action.Cancel? && item.period == Some(p.period) && p.kind == item.kind)
  {
    ReportingElements(ps, item.kind);
  }

  /** Cancelling without thresholds ends everything of that type, crossings and
      periodic reports alike, and nothing of another type. */
  lemma CancelEndsType(s: seq<Armed>, ps: seq<Periodic>, next: nat, item: Item)
    requires Supported(item.kind) && item.action.Cancel? && item.thresholds == []
    ensures forall a :: a in Configured(s, next, item) <==> a in s && a.kind != item.kind
    ensures forall p :: p in Scheduled(ps, item) <==> p in ps && p.kind != item.kind
  {
    SelectElements(s, OtherKind(item.kind));
    ReportingElements(ps, item.kind);
  }

  // ----- the Link SAP

  class LinkSap {
    var thresholds: seq<Armed>
    var periodic: seq<Periodic>
    var running: bool
    var next: nat

    ghost predicate Valid()
      reads this
    {
      AllSupported(thresholds)
    }

    constructor ()
      ensures Valid() && thresholds == [] && periodic == [] && !running && next == 0
    {
      thresholds, periodic, running, next := [], [], false, 0;
    }

    /** Erases what `keep` rejects, walking the list once. */
    method EraseExcept(keep: Armed -> bool)
      modifies `thresholds
      ensures thresholds == Select(old(thresholds), keep)
    {
      ghost var s := thresholds;
      var i := 0;
      ghost var k := 0;
      while i < |thresholds|
        invariant 0 <= i <= |thresholds| && k <= |s|
        invariant thresholds[..i] == Select(s[..k], keep) && thresholds[i..] == s[k..]
        decreases |thresholds| - i
      {
        SelectSnoc(s, k, keep);
        assert thresholds[i] == s[k];
        ghost var rest := thresholds[i + 1..];
        assert rest == thresholds[i..][1..] == s[k + 1..];
        if keep(thresholds[i]) {
          assert thresholds[..i + 1] == thresholds[..i] + [thresholds[i]];
          i := i + 1;
        } else {
          thresholds := thresholds[..i] + thresholds[i + 1..];
          assert thresholds[i..] == rest;
        }
        k := k + 1;
      }
      assert s[..k] == s && thresholds[..i] == thresholds;
    }

    /** Ends the periodic reports of one type. */
    method ErasePeriodic(t: ParamType)
      modifies `periodic
      ensures periodic == Reporting(old(periodic), t)
    {
      ghost var s := periodic;
      var i := 0;
      ghost var k := 0;
      while i < |periodic|
        invariant 0 <= i <= |periodic| && k <= |s|
        invariant periodic[..i] == Reporting(s[..k], t) && periodic[i..] == s[k..]
        decreases |periodic| - i
      {
        assert s[..k + 1][..k] == s[..k] && periodic[i] == s[k];
        ghost var rest := periodic[i + 1..];
        assert rest == periodic[i..][1..] == s[k + 1..];
        if periodic[i].kind == t {
          periodic := periodic[..i] + periodic[i + 1..];
          assert periodic[i..] == rest;
        } else {
          assert periodic[..i + 1] == periodic[..i] + [periodic[i]];
          i := i + 1;
        }
        k := k + 1;
      }
      assert s[..k] == s && periodic[..i] == periodic;
    }

    method ConfigureItem(item: Item) returns (statuses: seq<ItemStatus>)
      requires Valid()
      modifies `thresholds, `periodic, `next
      ensures Valid() && thresholds == Configured(old(thresholds), old(next), item)
      ensures periodic == Scheduled(old(periodic), item) && next == old(next) + Inserts(item)
      ensures statuses == StatusesOf(item)
      // an unsupported type is refused, a cancelled type confirmed as one, every other
      // threshold on its own, and a periodic report not at all
      ensures !Supported(item.kind) ==> statuses == [ItemStatus(item.kind, None, false)]
      ensures Supported(item.kind) && item.action.Cancel? && item.thresholds == [] ==>
        statuses == [ItemStatus(item.kind, None, true)]
      ensures Supported(item.kind) && !item.action.Cancel? && item.period.Some? ==> statuses == []
      ensures Supported(item.kind) && (if item.action.Cancel? then item.thresholds != [] else item.period.None?) ==>
        && |statuses| == |item.thresholds|
        && forall i | 0 <= i < |statuses| :: statuses[i] == ItemStatus(item.kind, Some(item.thresholds[i]), true)
    {
      ConfiguredSupported(thresholds, next, item);
      statuses := [];
      if !Supported(item.kind) {
        return [ItemStatus(item.kind, None, false)];
      }
      if item.action == Cancel {
        if |item.thresholds| == 0 {
          EraseExcept(OtherKind(item.kind));
          ErasePeriodic(item.kind);
          statuses := [ItemStatus(item.kind, None, true)];
        } else {
          for i := 0 to |item.thresholds|
            invariant thresholds == CancelAll(old(thresholds), item.kind, item.thresholds[..i])
            invariant next == old(next) && periodic == old(periodic)
            invariant statuses == Confirmed(item, i)
          {
            EraseExcept(OtherThan(item.kind, item.thresholds[i]));
            assert item.thresholds[..i + 1][..i] == item.thresholds[..i];
            statuses := statuses + [ItemStatus(item.kind, Some(item.thresholds[i]), true)];
          }
          assert item.thresholds[..|item.thresholds|] == item.thresholds;
        }
      } else if item.period.Some? {
        periodic := periodic + [Periodic(item.kind, item.period.value)];
      } else {
        for i := 0 to |item.thresholds|
          invariant thresholds == old(thresholds) + Inserted(item, old(next), i) && next == old(next) + i
          invariant periodic == old(periodic)
          invariant statuses == Confirmed(item, i)
        {
          thresholds := thresholds + [Armed(item.action == OneShot, item.kind, item.thresholds[i], next)];
          next := next + 1;
          statuses := statuses + [ItemStatus(item.kind, Some(item.thresholds[i]), true)];
        }
      }
    }

    /** One configuration request; the check runs afterwards exactly when there are
        thresholds to check. */
    method Configure(items: seq<Item>) returns (statuses: seq<ItemStatus>)
      requires Valid()
      modifies this
      ensures Valid() && running == (thresholds != [])
      ensures State(thresholds, next) == ConfiguredAll(State(old(thresholds), old(next)), items)
      ensures periodic == ScheduledAll(old(periodic), items)
      ensures statuses == StatusesOfAll(items)
    {
      hide Configured, Inserts, AllSupported, StatusesOf, Scheduled;
      statuses := [];
      for i := 0 to |items|
        invariant Valid() && State(thresholds, next) == ConfiguredAll(State(old(thresholds), old(next)), items[..i])
        invariant periodic == ScheduledAll(old(periodic), items[..i])
        invariant statuses == StatusesOfAll(items[..i])
      {
        var more := ConfigureItem(items[i]);
        assert items[..i + 1][..i] == items[..i];
        statuses := statuses + more;
      }
      assert items[..|items|] == items;
      if |thresholds| > 0 && !running {
        running := true;
      } else if |thresholds| == 0 && running {
        running := false;
      }
    }

    /** The periodic check: it ends, and while somebody is subscribed to its reports
        it reports every crossed threshold in order and takes the one-shot ones among
        them off the list. */
    method Check(r: Readings, subscribed: bool) returns (reports: seq<Armed>)
      requires Valid()
      modifies `thresholds
      ensures Valid()
      ensures subscribed ==> thresholds == Select(old(thresholds), Stays(r))
      ensures subscribed ==> reports == Select(old(thresholds), Fires(r))
      ensures subscribed ==> forall a | a in old(thresholds) ::
        (a in reports <==> Crossed(a, r)) && (a in thresholds <==> !(a.oneShot && a in reports))
      ensures !subscribed ==> thresholds == old(thresholds) && reports == []
    {
      ghost var s := thresholds;
      reports := [];
      if !subscribed {
        return;
      }
      var i := 0;
      ghost var k := 0;
      while i < |thresholds|
        invariant 0 <= i <= |thresholds| && k <= |s|
        invariant thresholds[..i] == Select(s[..k], Stays(r)) && thresholds[i..] == s[k..]
        invariant reports == Select(s[..k], Fires(r))
        decreases |thresholds| - i
      {
        var a := thresholds[i];
        assert a == s[k] && Supported(a.kind);
        SupportedHasValue(a.kind, r);
        var value := Value(a.kind, r);
        SelectSnoc(s, k, Stays(r));
        SelectSnoc(s, k, Fires(r));
        var fired := if a.th.dir == Above then value.value > a.th.val else value.value < a.th.val;
        if fired {
          reports := reports + [a];
        }
        ghost var rest := thresholds[i + 1..];
        assert rest == thresholds[i..][1..] == s[k + 1..];
        if fired && a.oneShot {
          thresholds := thresholds[..i] + thresholds[i + 1..];
          assert thresholds[i..] == rest;
        } else {
          assert thresholds[..i + 1] == thresholds[..i] + [a];
          i := i + 1;
        }
        k := k + 1;
      }
      assert s[..k] == s && thresholds[..i] == thresholds;
      SelectElements(s, Stays(r));
      SelectElements(s, Fires(r));
      SelectSupported(s, Stays(r));
    }
  }

  datatype State = State(list: seq<Armed>, next: nat)

  function ConfiguredAll(s: State, items: seq<Item>): State {
    if items == [] then s
    else
      var s := ConfiguredAll(s, items[..|items| - 1]);
      var item := items[|items| - 1];
      State(Configured(s.list, s.next, item), s.next + Inserts(item))
  }

  /** A request does what its items do one after the other, however it is divided. */
  lemma ConfigureDivides(s: State, ps: seq<Periodic>, items: seq<Item>, more: seq<Item>)
    ensures ConfiguredAll(s, items + more) == ConfiguredAll(ConfiguredAll(s, items), more)
    ensures ScheduledAll(ps, items + more) == ScheduledAll(ScheduledAll(ps, items), more)
    ensures StatusesOfAll(items + more) == StatusesOfAll(items) + StatusesOfAll(more)
  {
    hide *;
    ListDivides(s, items, more);
    PeriodicDivides(ps, items, more);
    StatusesDivide(items, more);
  }

  lemma {:induction false} ListDivides(s: State, items: seq<Item>, more: seq<Item>)
    ensures ConfiguredAll(s, items + more) == ConfiguredAll(ConfiguredAll(s, items), more)
  {
    hide Configured, Inserts;
    if more == [] {
      assert items + more == items;
    } else {
      ListDivides(s, items, more[..|more| - 1]);
      assert (items + more)[..|items + more| - 1] == items + more[..|more| - 1];
    }
  }

  lemma {:induction false} PeriodicDivides(ps: seq<Periodic>, items: seq<Item>, more: seq<Item>)
    ensures ScheduledAll(ps, items + more) == ScheduledAll(ScheduledAll(ps, items), more)
  {
    hide Scheduled;
    if more == [] {
      assert items + more == items;
    } else {
      PeriodicDivides(ps, items, more[..|more| - 1]);
      assert (items + more)[..|items + more| - 1] == items + more[..|more| - 1];
    }
  }

  lemma {:induction false} StatusesDivide(items: seq<Item>, more: seq<Item>)
    ensures StatusesOfAll(items + more) == StatusesOfAll(items) + StatusesOfAll(more)
  {
    hide StatusesOf;
    if more == [] {
      assert items + more == items;
    } else {
      StatusesDivide(items, more[..|more| - 1]);
      assert (items + more)[..|items + more| - 1] == items + more[..|more| - 1];
    }
  }

  lemma SelectSupported(s: seq<Armed>, p: Armed -> bool)
    requires AllSupported(s)
    ensures AllSupported(Select(s, p))
  {
  }

  lemma {:induction false} CancelSupported(s: seq<Armed>, t: ParamType, ths: seq<Threshold>)
    requires AllSupported(s)
    ensures AllSupported(CancelAll(s, t, ths))
  {
    if ths == [] {
    } else {
      CancelSupported(s, t, ths[..|ths| - 1]);
      SelectSupported(CancelAll(s, t, ths[..|ths| - 1]), OtherThan(t, ths[|ths| - 1]));
    }
  }

  lemma ConfiguredSupported(s: seq<Armed>, next: nat, item: Item)
    requires AllSupported(s)
    ensures AllSupported(Configured(s, next, item))
  {
    SelectSupported(s, OtherKind(item.kind));
    CancelSupported(s, item.kind, item.thresholds);
  }

  // ----- every history of configurations and checks

  datatype Event = Config(items: seq<Item>) | Pass(r: Readings, subscribed: bool)

  /** The list, the insertion counter and everything reported so far. */
  datatype System = System(s: State, reported: seq<Armed>)

  function Step(y: System, e: Event): System {
    match e
    case Config(items) => y.(s := ConfiguredAll(y.s, items))
    case Pass(r, subscribed) =>
      if !subscribed then y
      else System(y.s.(list := Select(y.s.list, Stays(r))), y.reported + Select(y.s.list, Fires(r)))
  }

  function Exec(es: seq<Event>): System {
    if es == [] then System(State([], 0), []) else Step(Exec(es[..|es| - 1]), es[|es| - 1])
  }

  /** The list is in order of insertion. */
  predicate Ordered(s: seq<Armed>, next: nat) {
    && (forall i, j | 0 <= i < j < |s| :: s[i].serial < s[j].serial)
    && (forall i | 0 <= i < |s| :: s[i].serial < next)
  }

  lemma {:induction false} SelectOrdered(s: seq<Armed>, p: Armed -> bool, next: nat)
    requires Ordered(s, next)
    ensures Ordered(Select(s, p), next)
  {
    if s == [] {
    } else {
      var s', a := s[..|s| - 1], s[|s| - 1];
      assert Ordered(s', a.serial);
      SelectOrdered(s', p, a.serial);
    }
  }

  lemma {:induction false} CancelOrdered(s: seq<Armed>, t: ParamType, ths: seq<Threshold>, next: nat)
    requires Ordered(s, next)
    ensures Ordered(CancelAll(s, t, ths), next)
    ensures forall a | a in CancelAll(s, t, ths) :: a in s
  {
    if ths == [] {
    } else {
      var u := CancelAll(s, t, ths[..|ths| - 1]);
      CancelOrdered(s, t, ths[..|ths| - 1], next);
      SelectOrdered(u, OtherThan(t, ths[|ths| - 1]), next);
      SelectElements(u, OtherThan(t, ths[|ths| - 1]));
    }
  }

  /** Configuring keeps the order and only adds thresholds under new serials. */
  lemma ConfiguredOrdered(s: seq<Armed>, next: nat, item: Item)
    requires Ordered(s, next)
    ensures Ordered(Configured(s, next, item), next + Inserts(item))
    ensures forall a | a in Configured(s, next, item) :: a in s || a.serial >= next
  {
    SelectOrdered(s, OtherKind(item.kind), next);
    SelectElements(s, OtherKind(item.kind));
    CancelOrdered(s, item.kind, item.thresholds, next);
  }

  lemma {:induction false} ConfiguredAllOrdered(s: State, items: seq<Item>)
    requires Ordered(s.list, s.next)
    ensures var t := ConfiguredAll(s, items);
      && Ordered(t.list, t.next) && s.next <= t.next
      && forall a | a in t.list :: a in s.list || a.serial >= s.next
  {
    if items == [] {
    } else {
      ConfiguredAllOrdered(s, items[..|items| - 1]);
      var t := ConfiguredAll(s, items[..|items| - 1]);
      ConfiguredOrdered(t.list, t.next, items[|items| - 1]);
    }
  }

  /** A reported one-shot threshold is off the list and is not reported again. */
  ghost predicate Spent(y: System) {
    && Ordered(y.s.list, y.s.next)
    && (forall i | 0 <= i < |y.reported| :: y.reported[i].serial < y.s.next)
    && (forall i, a | 0 <= i < |y.reported| && y.reported[i].oneShot && a in y.s.list ::
          a.serial != y.reported[i].serial)
    && (forall i, j | 0 <= i < j < |y.reported| && y.reported[i].oneShot ::
          y.reported[i].serial != y.reported[j].serial)
  }

  lemma SameSerial(s: seq<Armed>, next: nat, a: Armed, b: Armed)
    requires Ordered(s, next) && a in s && b in s && a.serial == b.serial
    ensures a == b
  {
  }

  /** What stays after a pass was not reported in it as one-shot. */
  lemma StayedNotSpent(s: seq<Armed>, next: nat, a: Armed, b: Armed, r: Readings)
    requires Ordered(s, next) && a in s && b in s && Stays(r)(a) && Crossed(b, r) && b.oneShot
    ensures a.serial != b.serial
  {
    if a.serial == b.serial {
      SameSerial(s, next, a, b);
    }
  }

  lemma PassSpent(y: System, r: Readings)
    requires Spent(y)
    ensures Spent(Step(y, Pass(r, true)))
  {
    var s, next := y.s.list, y.s.next;
    var left, fired := Select(s, Stays(r)), Select(s, Fires(r));
    SelectElements(s, Stays(r));
    SelectElements(s, Fires(r));
    SelectOrdered(s, Stays(r), next);
    SelectOrdered(s, Fires(r), next);
    forall i | 0 <= i < |fired| ensures fired[i] in s && Crossed(fired[i], r) { assert fired[i] in fired; }
    hide Select;
    var z := Step(y, Pass(r, true));
    assert z.reported == y.reported + fired;
    forall i, a | 0 <= i < |z.reported| && z.reported[i].oneShot && a in left ensures a.serial != z.reported[i].serial {
      if i >= |y.reported| {
        StayedNotSpent(s, next, a, fired[i - |y.reported|], r);
      }
    }
    forall i, j | 0 <= i < j < |z.reported| && z.reported[i].oneShot
      ensures z.reported[i].serial != z.reported[j].serial
    {
      if j >= |y.reported| {
        assert z.reported[j] == fired[j - |y.reported|];
      }
    }
  }

  lemma {:induction false} HistorySpent(es: seq<Event>)
    ensures Spent(Exec(es))
  {
    if es == [] {
    } else {
      HistorySpent(es[..|es| - 1]);
      var y, e := Exec(es[..|es| - 1]), es[|es| - 1];
      match e
      case Config(items) => ConfiguredAllOrdered(y.s, items);
      case Pass(r, subscribed) => if subscribed { PassSpent(y, r); }
    }
  }

  /** Over every history a one-shot threshold is reported at most once per
      insertion, and the list stays in order of insertion. */
  lemma OneShotReportedOnce(es: seq<Event>, i: nat, j: nat)
    requires i < j < |Exec(es).reported| && Exec(es).reported[i].oneShot
    ensures Exec(es).reported[i].serial != Exec(es).reported[j].serial
    ensures Ordered(Exec(es).s.list, Exec(es).s.next)
  {
    HistorySpent(es);
  }

  /** A configuration item that takes a threshold off the list: a cancellation of its
      type as a whole, or of a threshold of its value and direction. */
  predicate Cancels(item: Item, a: Armed) {
    && item.action.Cancel? && item.kind == a.kind && Supported(a.kind)
    && (item.thresholds == [] || a.th in item.thresholds)
  }

  lemma {:induction false} CancelAllElements(s: seq<Armed>, t: ParamType, ths: seq<Threshold>)
    ensures forall a :: a in CancelAll(s, t, ths) <==> a in s && !(a.kind == t && a.th in ths)
  {
    if ths == [] {
    } else {
      var ths', th := ths[..|ths| - 1], ths[|ths| - 1];
      CancelAllElements(s, t, ths');
      SelectElements(CancelAll(s, t, ths'), OtherThan(t, th));
      assert ths == ths' + [th];
    }
  }

  /** What one item does to the list: it takes off what it cancels, and adds each of
      its thresholds, of its type, for one report if the action says so. */
  lemma ConfiguredElements(s: seq<Armed>, next: nat, item: Item, a: Armed)
    ensures a in Configured(s, next, item) <==>
      || (a in s && !Cancels(item, a))
      || (Supported(item.kind) && !item.action.Cancel? && item.period.None? && Inserting(item, next, a))
  {
    SelectElements(s, OtherKind(item.kind));
    CancelAllElements(s, item.kind, item.thresholds);
    var added := Inserted(item, next, |item.thresholds|);
    if a in added {
      var i :| 0 <= i < |added| && added[i] == a;
      assert item.thresholds[i] == a.th;
    }
    if Inserting(item, next, a) {
      assert added[a.serial - next] == a;
    }
  }

  predicate Inserting(item: Item, next: nat, a: Armed) {
    && next <= a.serial < next + |item.thresholds| && a.th == item.thresholds[a.serial - next]
    && a.kind == item.kind && (a.oneShot <==> item.action == OneShot)
  }

  lemma {:induction false} ConfiguredAllKeeps(s: State, items: seq<Item>, a: Armed)
    requires Ordered(s.list, s.next) && a in s.list
    ensures a in ConfiguredAll(s, items).list <==> forall i | 0 <= i < |items| :: !Cancels(items[i], a)
  {
    if items == [] {
    } else {
      var items', item := items[..|items| - 1], items[|items| - 1];
      var t := ConfiguredAll(s, items');
      ConfiguredAllKeeps(s, items', a);
      ConfiguredAllOrdered(s, items');
      ConfiguredElements(t.list, t.next, item, a);
      assert a.serial < s.next <= t.next;
      assert a in ConfiguredAll(s, items).list <==> a in t.list && !Cancels(item, a);
      hide *;
      assert forall i | 0 <= i < |items'| :: items'[i] == items[i];
    }
  }

  /** An event that takes a threshold off the list: a cancellation, or the first
      subscribed check to find it crossed if it is for one report. */
  predicate Ends(e: Event, a: Armed) {
    match e
    case Config(items) => exists i :: 0 <= i < |items| && Cancels(items[i], a)
    case Pass(r, subscribed) => subscribed && a.oneShot && Crossed(a, r)
  }

  lemma StepArmed(y: System, e: Event, a: Armed)
    requires Ordered(y.s.list, y.s.next) && a in y.s.list
    ensures a in Step(y, e).s.list <==> !Ends(e, a)
  {
    match e
    case Config(items) => ConfiguredAllKeeps(y.s, items, a);
    case Pass(r, _) => SelectElements(y.s.list, Stays(r));
  }

  lemma StepAddsNew(y: System, e: Event, a: Armed)
    requires Ordered(y.s.list, y.s.next) && a !in y.s.list && a.serial < y.s.next
    ensures a !in Step(y, e).s.list && y.s.next <= Step(y, e).s.next
  {
    match e
    case Config(items) => ConfiguredAllOrdered(y.s, items);
    case Pass(r, _) => SelectElements(y.s.list, Stays(r));
  }

  /** Over every history: a threshold stays on the list exactly until an event ends it. */
  lemma {:induction false} ArmedUntilEnded(es: seq<Event>, n: nat, a: Armed)
    requires n <= |es| && a in Exec(es[..n]).s.list
    ensures a in Exec(es).s.list <==> forall i | n <= i < |es| :: !Ends(es[i], a)
    ensures a.serial < Exec(es).s.next
    decreases |es|
  {
    HistorySpent(es);
    if n == |es| {
      assert es[..n] == es;
    } else {
      var es', e := es[..|es| - 1], es[|es| - 1];
      assert es'[..n] == es[..n];
      ArmedUntilEnded(es', n, a);
      HistorySpent(es');
      hide Step, Ends;
      forall i | n <= i < |es'| ensures es'[i] == es[i] { }
      if a in Exec(es').s.list {
        StepArmed(Exec(es'), e, a);
        NextGrows(Exec(es'), e);
      } else {
        StepAddsNew(Exec(es'), e, a);
      }
    }
  }

  lemma NextGrows(y: System, e: Event)
    requires Ordered(y.s.list, y.s.next)
    ensures y.s.next <= Step(y, e).s.next
  {
    if e.Config? {
      ConfiguredAllOrdered(y.s, e.items);
    }
  }

  lemma {:induction false} HistorySupported(es: seq<Event>)
    ensures AllSupported(Exec(es).s.list)
  {
    if es == [] {
    } else {
      HistorySupported(es[..|es| - 1]);
      var y, e := Exec(es[..|es| - 1]), es[|es| - 1];
      match e
      case Config(items) => ConfiguredAllSupported(y.s, items);
      case Pass(r, _) => SelectSupported(y.s.list, Stays(r));
    }
  }

  lemma {:induction false} ConfiguredAllSupported(s: State, items: seq<Item>)
    requires AllSupported(s.list)
    ensures AllSupported(ConfiguredAll(s, items).list)
  {
    if items == [] {
    } else {
      ConfiguredAllSupported(s, items[..|items| - 1]);
      var t := ConfiguredAll(s, items[..|items| - 1]);
      ConfiguredSupported(t.list, t.next, items[|items| - 1]);
    }
  }

  // ----- when the check ends

  /** The position of the check in the list it is editing. */
  datatype Cursor = Cursor(list: seq<Armed>, i: nat)
  {
    predicate Done() { i >= |list| }
  }

  /** One iteration of its loop; without a value it starts over at the same place. */
  function Iteration(c: Cursor, r: Readings): Cursor {
    if c.Done() || Value(c.list[c.i].kind, r).None? then c
    else if !Stays(r)(c.list[c.i]) then c.(list := c.list[..c.i] + c.list[c.i + 1..])
    else c.(i := c.i + 1)
  }

  function Iterations(c: Cursor, r: Readings, n: nat): Cursor {
    if n == 0 then c else Iteration(Iterations(c, r, n - 1), r)
  }

  ghost predicate Blocked(c: Cursor, r: Readings) {
    exists k :: c.i <= k < |c.list| && Value(c.list[k].kind, r).None?
  }

  lemma BlockedStays(c: Cursor, r: Readings)
    requires Blocked(c, r)
    ensures Blocked(Iteration(c, r), r)
  {
    var k :| c.i <= k < |c.list| && Value(c.list[k].kind, r).None?;
    var d := Iteration(c, r);
    if d.list == c.list {
      assert d.i <= k;
    } else {
      assert d.list[k - 1] == c.list[k];
    }
  }

  lemma {:induction false} BlockedForever(c: Cursor, r: Readings, n: nat)
    requires Blocked(c, r)
    ensures Blocked(Iterations(c, r, n), r)
  {
    if n == 0 {
    } else {
      BlockedForever(c, r, n - 1);
      BlockedStays(Iterations(c, r, n - 1), r);
    }
  }

  /** One iteration with a value leaves the rest of the list. */
  lemma AdvanceOnce(c: Cursor, r: Readings)
    requires c.i < |c.list| && Value(c.list[c.i].kind, r).Some?
    ensures var d := Iteration(c, r); d.i <= |d.list| && d.list[d.i..] == c.list[c.i..][1..]
  {
    hide Value, Stays;
    assert c.list[c.i..][1..] == c.list[c.i + 1..];
    assert (c.list[..c.i] + c.list[c.i + 1..])[c.i..] == c.list[c.i + 1..];
  }

  lemma {:induction false} Advances(c: Cursor, r: Readings, n: nat)
    requires !Blocked(c, r) && c.i + n <= |c.list|
    ensures var d := Iterations(c, r, n); d.i <= |d.list| && d.list[d.i..] == c.list[c.i + n..]
  {
    if n == 0 {
    } else {
      Advances(c, r, n - 1);
      var d, k := Iterations(c, r, n - 1), c.i + n - 1;
      assert Value(c.list[k].kind, r).Some? && Iterations(c, r, n) == Iteration(d, r);
      hide *;
      assert |d.list[d.i..]| == |c.list[k..]|;
      assert d.list[d.i..][0] == d.list[d.i] && c.list[k..][0] == c.list[k];
      AdvanceOnce(d, r);
      assert c.list[k..][1..] == c.list[k + 1..];
    }
  }

  /** The check of a list ends if and only if every threshold on it has a value;
      lists made by configuration always do. */
  lemma CheckEndsIff(s: seq<Armed>, r: Readings)
    ensures (exists n :: Iterations(Cursor(s, 0), r, n).Done()) <==>
      forall k | 0 <= k < |s| :: Value(s[k].kind, r).Some?
  {
    var c := Cursor(s, 0);
    if Blocked(c, r) {
      forall n ensures !Iterations(c, r, n).Done() {
        BlockedForever(c, r, n);
      }
    } else {
      Advances(c, r, |s|);
      var d := Iterations(c, r, |s|);
      assert |d.list[d.i..]| == |s[|s|..]| == 0;
      assert d.Done();
      forall k | 0 <= k < |s| ensures Value(s[k].kind, r).Some? { }
    }
  }

  lemma CheckEndsOverHistories(es: seq<Event>, r: Readings)
    ensures exists n :: Iterations(Cursor(Exec(es).s.list, 0), r, n).Done()
  {
    HistorySupported(es);
    var s := Exec(es).s.list;
    forall k | 0 <= k < |s| ensures Value(s[k].kind, r).Some? {
      SupportedHasValue(s[k].kind, r);
    }
    CheckEndsIff(s, r);
  }
}
