/** The leases a DHCP client remembers while it reads its lease file: a list of
    recorded leases and the active one. */
module Leases {
  import opened Messages

  datatype Lease = Lease(address: seq<int>, expiry: int)

  /** One dynamic lease statement and the time it is read at. */
  datatype Statement = Statement(lease: Lease, now: int)

  datatype Client = Client(leases: seq<Lease>, active: Option<Lease>)

  predicate At(l: Lease, address: seq<int>) { l.address == address }

  function Find(ls: seq<Lease>, address: seq<int>): (i: nat)
    ensures i <= |ls| && (i < |ls| ==> At(ls[i], address))
    ensures forall j | 0 <= j < i :: !At(ls[j], address)
  {
    if ls == [] || At(ls[0], address) then 0 else 1 + Find(ls[1..], address)
  }

  /** The list without its first lease for the address. */
  function Toss(ls: seq<Lease>, address: seq<int>): seq<Lease> {
    var i := Find(ls, address);
    if i < |ls| then ls[..i] + ls[i + 1..] else ls
  }

  function Read(c: Client, s: Statement): Client {
    var ls := Toss(c.leases, s.lease.address);
    if c.active.None? || c.active.value.expiry < s.now || At(c.active.value, s.lease.address)
    then Client(ls, Some(s.lease))
    else Client([c.active.value] + ls, Some(s.lease))
  }

  class ClientState {
    var leases: seq<Lease>
    var active: Option<Lease>

    constructor ()
      ensures Client(leases, active) == Client([], None)
    {
      leases, active := [], None;
    }

    method ParseLeaseStatement(s: Statement)
      modifies this
      ensures Client(leases, active) == Read(Client(old(leases), old(active)), s)
    {
      var i := 0;
      while i < |leases|
        invariant 0 <= i <= |leases| && leases == old(leases) && active == old(active)
        invariant forall j | 0 <= j < i :: !At(leases[j], s.lease.address)
      {
        if leases[i].address == s.lease.address {
          leases := leases[..i] + leases[i + 1..];
          break;
        }
        i := i + 1;
      }
      if active.Some? {
        if active.value.expiry < s.now {
          // the old lease has expired
        } else if active.value.address == s.lease.address {
          // the old lease is superseded
        } else {
          leases := [active.value] + leases;
        }
      }
      active := Some(s.lease);
    }
  }

  // ----- whole lease files

  function ReadAll(ss: seq<Statement>): Client {
    if ss == [] then Client([], None) else Read(ReadAll(ss[..|ss| - 1]), ss[|ss| - 1])
  }

  /** Statement `i` is still worth remembering: it had not expired when the next
      one was read, and nothing later is for its address. */
  predicate Kept(ss: seq<Statement>, i: nat)
    requires i < |ss|
  {
    && i + 1 < |ss| && ss[i].lease.expiry >= ss[i + 1].now
    && forall j | i < j < |ss| :: ss[j].lease.address != ss[i].lease.address
  }

  /** The leases worth remembering among the first `k`, the latest first. */
  function Worthy(ss: seq<Statement>, k: nat): seq<Lease>
    requires k <= |ss|
  {
    if k == 0 then [] else (if Kept(ss, k - 1) then [ss[k - 1].lease] else []) + Worthy(ss, k - 1)
  }

  function DropAll(ls: seq<Lease>, address: seq<int>): seq<Lease> {
    if ls == [] then [] else (if At(ls[0], address) then [] else [ls[0]]) + DropAll(ls[1..], address)
  }

  ghost predicate Distinct(ls: seq<Lease>) {
    forall i, j | 0 <= i < j < |ls| :: ls[i].address != ls[j].address
  }

  lemma {:induction false} DropNone(ls: seq<Lease>, address: seq<int>)
    requires forall i | 0 <= i < |ls| :: !At(ls[i], address)
    ensures DropAll(ls, address) == ls
  {
    if ls != [] {
      DropNone(ls[1..], address);
    }
  }

  /** Tossing the first match is tossing every match, as addresses are distinct. */
  lemma {:induction false} TossIsDrop(ls: seq<Lease>, address: seq<int>)
    requires Distinct(ls)
    ensures Toss(ls, address) == DropAll(ls, address)
  {
    if ls == [] {
    } else if At(ls[0], address) {
      assert forall i | 0 <= i < |ls[1..]| :: ls[1..][i] == ls[i + 1];
      DropNone(ls[1..], address);
      assert Toss(ls, address) == ls[1..];
    } else {
      assert Distinct(ls[1..]);
      TossIsDrop(ls[1..], address);
      var i := Find(ls[1..], address);
      assert Find(ls, address) == i + 1;
      if i < |ls[1..]| {
        assert ls[..i + 1] + ls[i + 2..] == [ls[0]] + (ls[1..][..i] + ls[1..][i + 1..]);
      } else {
        assert ls == [ls[0]] + ls[1..];
      }
    }
  }

  /** A further statement takes the leases of its address out of the account. */
  lemma {:induction false} WorthyNext(ss: seq<Statement>, s: Statement, k: nat)
    requires k < |ss|
    ensures Worthy(ss + [s], k) == DropAll(Worthy(ss, k), s.lease.address)
  {
    hide Kept, DropAll;
    if k == 0 {
      DropNone([], s.lease.address);
    } else {
      WorthyNext(ss, s, k - 1);
      KeptNext(ss, s, k - 1);
      var l, w := ss[k - 1].lease, Worthy(ss, k - 1);
      DropCons(l, w, s.lease.address);
      if Kept(ss, k - 1) {
        assert Worthy(ss, k) == [l] + w;
      } else {
        assert Worthy(ss, k) == w;
      }
    }
  }

  lemma DropCons(l: Lease, w: seq<Lease>, address: seq<int>)
    ensures DropAll([l] + w, address) == (if At(l, address) then [] else [l]) + DropAll(w, address)
    ensures [] + w == w
  {
  }

  lemma KeptNext(ss: seq<Statement>, s: Statement, i: nat)
    requires i + 1 < |ss|
    ensures Kept(ss + [s], i) <==> Kept(ss, i) && ss[i].lease.address != s.lease.address
  {
    var tt := ss + [s];
    assert tt[i] == ss[i] && tt[i + 1] == ss[i + 1] && tt[|ss|] == s;
    if Kept(tt, i) {
      forall j | i < j < |ss| ensures ss[j].lease.address != ss[i].lease.address { assert tt[j] == ss[j]; }
    }
  }

  lemma KeptLast(ss: seq<Statement>, s: Statement)
    requires ss != []
    ensures var l := ss[|ss| - 1].lease;
      Kept(ss + [s], |ss| - 1) <==> l.expiry >= s.now && l.address != s.lease.address
  {
  }

  lemma {:induction false} WorthyFrom(ss: seq<Statement>, k: nat, x: nat)
    requires k <= |ss| && x < |Worthy(ss, k)|
    ensures exists i :: 0 <= i < k && Kept(ss, i) && Worthy(ss, k)[x] == ss[i].lease
  {
    if Kept(ss, k - 1) {
      if x == 0 {
        assert Worthy(ss, k)[0] == ss[k - 1].lease;
      } else {
        WorthyFrom(ss, k - 1, x - 1);
        assert Worthy(ss, k)[x] == Worthy(ss, k - 1)[x - 1];
      }
    } else {
      assert Worthy(ss, k) == Worthy(ss, k - 1);
      WorthyFrom(ss, k - 1, x);
    }
  }

  lemma {:induction false} WorthyDistinct(ss: seq<Statement>, k: nat)
    requires k <= |ss|
    ensures Distinct(Worthy(ss, k))
  {
    if k == 0 {
    } else {
      WorthyDistinct(ss, k - 1);
      var w := Worthy(ss, k - 1);
      if Kept(ss, k - 1) {
        forall x | 0 <= x < |w| ensures w[x].address != ss[k - 1].lease.address {
          WorthyFrom(ss, k - 1, x);
        }
      }
    }
  }

  /** After every lease file: the active lease is the last one read, and the
      recorded leases are exactly those that had not expired when superseded and
      whose address was not leased again, the latest first. */
  lemma {:induction false} RecordedExactly(ss: seq<Statement>)
    requires ss != []
    ensures ReadAll(ss) == Client(Worthy(ss, |ss| - 1), Some(ss[|ss| - 1].lease))
  {
    hide Kept, Toss;
    var ss', s := ss[..|ss| - 1], ss[|ss| - 1];
    if ss' == [] {
      TossIsDrop([], s.lease.address);
    } else {
      RecordedExactly(ss');
      var n := |ss'|;
      assert ss == ss' + [s];
      WorthyDistinct(ss', n - 1);
      TossIsDrop(Worthy(ss', n - 1), s.lease.address);
      WorthyNext(ss', s, n - 1);
      var last := ss'[n - 1].lease;
      assert ss[n - 1].lease == last && ss[n] == s;
      KeptLast(ss', s);
    }
  }

  /** So no address is remembered twice, the active one included. */
  lemma AddressesDistinct(ss: seq<Statement>)
    requires ss != []
    ensures var c := ReadAll(ss); c.active.Some? && Distinct([c.active.value] + c.leases)
  {
    RecordedExactly(ss);
    WorthyDistinct(ss, |ss| - 1);
    var w, last := Worthy(ss, |ss| - 1), ss[|ss| - 1].lease;
    forall x | 0 <= x < |w| ensures w[x].address != last.address {
      WorthyFrom(ss, |ss| - 1, x);
    }
  }
}
