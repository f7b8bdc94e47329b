/** The DNS user: which pending discovery requests a result pass answers, and
    which domains it then forgets. */
module DnsUser {
  import opened Messages
  import opened QueryBooks

  datatype Service = Info | Cmd | Evt

  /** A point of service in an answer. */
  datatype Mos = Mos(id: string, ip: string, port: uint16)

  /** An address of either family; the IPv4 one is preferred. */
  function MosOf(e: Entry): Mos { Mos(e.target, if e.a != "" then e.a else e.aaaa, e.port) }

  /** The fifth letter of a replacement name says which service it stands for. */
  function ServiceOf(e: Entry): Option<Service> {
    if |e.replacement| <= 4 then None
    else match e.replacement[4]
      case 'i' => Some(Info)
      case 'c' => Some(Cmd)
      case 'e' => Some(Evt)
      case _ => None
  }

  type Results = map<string, seq<Entry>>

  /** Every replacement name has a known service letter. */
  predicate KnownServices(results: Results) {
    forall d | d in results :: forall i | 0 <= i < |results[d]| :: ServiceOf(results[d][i]).Some?
  }

  type Requests = map<uint16, seq<string>>

  predicate NoDuplicates(ds: seq<string>) { forall i, j | 0 <= i < j < |ds| :: ds[i] != ds[j] }

  predicate AllUnique(reqs: Requests) { forall t | t in reqs :: NoDuplicates(reqs[t]) }

  // ----- what a pass is to do

  predicate Complete(ds: seq<string>, results: Results) { forall i | 0 <= i < |ds| :: ds[i] in results }

  function Unanswered(reqs: Requests, results: Results): Requests {
    map t | t in reqs && !Complete(reqs[t], results) :: reqs[t]
  }

  predicate Wanted(reqs: Requests, d: string) { exists t :: t in reqs && d in reqs[t] }

  /** The domains some answered request lists and no pending one does. */
  predicate Dead(reqs: Requests, left: Requests, d: string) { Wanted(reqs, d) && !Wanted(left, d) }

  /** The entries of the listed domains, in order. */
  function Flatten(ds: seq<string>, results: Results): seq<Entry>
    requires Complete(ds, results)
  {
    if ds == [] then [] else Flatten(ds[..|ds| - 1], results) + results[ds[|ds| - 1]]
  }

  function Offered(es: seq<Entry>, s: Service): seq<Mos> {
    if es == [] then []
    else Offered(es[..|es| - 1], s) + (if ServiceOf(es[|es| - 1]) == Some(s) then [MosOf(es[|es| - 1])] else [])
  }

  datatype Reply = Reply(tid: uint16, info: seq<Mos>, cmd: seq<Mos>, evt: seq<Mos>)

  function ReplyFor(tid: uint16, ds: seq<string>, results: Results): Reply
    requires Complete(ds, results)
  {
    var es := Flatten(ds, results);
    Reply(tid, Offered(es, Info), Offered(es, Cmd), Offered(es, Evt))
  }

  /** The replies to the complete requests below `n`, in ascending order. */
  function Replies(reqs: Requests, results: Results, n: nat): seq<Reply>
    requires n <= 0x1_0000
  {
    if n == 0 then []
    else
      var t: uint16 := n - 1;
      Replies(reqs, results, n - 1) +
      (if t in reqs && Complete(reqs[t], results) then [ReplyFor(t, reqs[t], results)] else [])
  }

  // ----- what a reply holds

  predicate HasLetter(e: Entry, letter: char) { |e.replacement| > 4 && e.replacement[4] == letter }

  /** The positions of the entries with the letter, in order. */
  ghost predicate Positions(es: seq<Entry>, letter: char, ix: seq<nat>) {
    && (forall j, k | 0 <= j < k < |ix| :: ix[j] < ix[k])
    && (forall i :: i in ix <==> 0 <= i < |es| && HasLetter(es[i], letter))
  }

  /** Target, port, and the IPv4 address or else the IPv6 address. */
  predicate Shows(m: Mos, e: Entry) {
    m.id == e.target && m.port == e.port && (if e.a != "" then m.ip == e.a else m.ip == e.aaaa)
  }

  ghost predicate Shown(es: seq<Entry>, ms: seq<Mos>, ix: seq<nat>) {
    |ix| == |ms| && forall j | 0 <= j < |ix| :: ix[j] < |es| && Shows(ms[j], es[ix[j]])
  }

  /** `ms` shows exactly the entries with the letter, in order. */
  ghost predicate Picked(es: seq<Entry>, letter: char, ms: seq<Mos>) {
    exists ix: seq<nat> :: Positions(es, letter, ix) && Shown(es, ms, ix)
  }

  lemma {:induction false} OfferedPicks(es: seq<Entry>)
    ensures Picked(es, 'i', Offered(es, Info))
    ensures Picked(es, 'c', Offered(es, Cmd))
    ensures Picked(es, 'e', Offered(es, Evt))
  {
    if es == [] {
      assert Positions([], 'i', []) && Positions([], 'c', []) && Positions([], 'e', []) && Shown([], [], []);
    } else {
      var es' := es[..|es| - 1];
      OfferedPicks(es');
      hide Picked;
      PickedNext(es, 'i', Offered(es', Info), Offered(es, Info));
      PickedNext(es, 'c', Offered(es', Cmd), Offered(es, Cmd));
      PickedNext(es, 'e', Offered(es', Evt), Offered(es, Evt));
    }
  }

  lemma PickedNext(es: seq<Entry>, letter: char, ms: seq<Mos>, ms': seq<Mos>)
    requires es != [] && Picked(es[..|es| - 1], letter, ms)
    requires var e := es[|es| - 1]; ms' == ms + (if HasLetter(e, letter) then [MosOf(e)] else [])
    ensures Picked(es, letter, ms')
  {
    hide Positions, Shown, HasLetter, MosOf;
    var es', n := es[..|es| - 1], |es| - 1;
    var ix: seq<nat> :| Positions(es', letter, ix) && Shown(es', ms, ix);
    PositionsNext(es, letter, ix);
    ShownNext(es, ms, ix);
    assert ms + [] == ms;
    var ix' := if HasLetter(es[n], letter) then ix + [n] else ix;
    assert Positions(es, letter, ix') && Shown(es, ms', ix');
  }

  lemma PositionsNext(es: seq<Entry>, letter: char, ix: seq<nat>)
    requires es != [] && Positions(es[..|es| - 1], letter, ix)
    ensures Positions(es, letter, if HasLetter(es[|es| - 1], letter) then ix + [|es| - 1] else ix)
  {
    hide HasLetter;
    var es', n := es[..|es| - 1], |es| - 1;
    assert forall i | 0 <= i < n :: es'[i] == es[i];
    forall j | 0 <= j < |ix| ensures ix[j] < n { assert ix[j] in ix; }
  }

  lemma ShownNext(es: seq<Entry>, ms: seq<Mos>, ix: seq<nat>)
    requires es != [] && Shown(es[..|es| - 1], ms, ix)
    ensures Shown(es, ms, ix) && Shown(es, ms + [MosOf(es[|es| - 1])], ix + [|es| - 1])
  {
    var es', n := es[..|es| - 1], |es| - 1;
    assert forall i | 0 <= i < n :: es'[i] == es[i];
  }

  /** When every letter is known, every entry is in exactly one list. */
  lemma {:induction false} EveryEntryListedOnce(es: seq<Entry>)
    requires forall i | 0 <= i < |es| :: ServiceOf(es[i]).Some?
    ensures |Offered(es, Info)| + |Offered(es, Cmd)| + |Offered(es, Evt)| == |es|
    ensures forall i | 0 <= i < |es| :: HasLetter(es[i], 'i') || HasLetter(es[i], 'c') || HasLetter(es[i], 'e')
  {
    if es == [] {
    } else {
      EveryEntryListedOnce(es[..|es| - 1]);
      assert es == es[..|es| - 1] + [es[|es| - 1]];
    }
  }

  /** The reply lists the entries of the domains of its request, sorted by letter. */
  ghost predicate Answers(r: Reply, reqs: Requests, results: Results) {
    && r.tid in reqs && Complete(reqs[r.tid], results)
    && var es := Flatten(reqs[r.tid], results);
       Picked(es, 'i', r.info) && Picked(es, 'c', r.cmd) && Picked(es, 'e', r.evt)
  }

  ghost predicate AllAnswer(rs: seq<Reply>, reqs: Requests, results: Results) {
    && (forall j | 0 <= j < |rs| :: Answers(rs[j], reqs, results))
    && (forall j, k | 0 <= j < k < |rs| :: rs[j].tid < rs[k].tid)
  }

  predicate Replied(rs: seq<Reply>, t: uint16) { exists j :: 0 <= j < |rs| && rs[j].tid == t }

  ghost predicate AllReplied(rs: seq<Reply>, reqs: Requests, results: Results, n: nat) {
    && (forall j | 0 <= j < |rs| :: rs[j].tid < n)
    && (forall t | t in reqs && t < n && Complete(reqs[t], results) :: Replied(rs, t))
  }

  /** The replies below `n`: one for every complete request, in ascending order, each
      with what its domains have. */
  lemma {:induction false} RepliesAnswer(reqs: Requests, results: Results, n: nat)
    requires n <= 0x1_0000
    ensures var rs := Replies(reqs, results, n); AllAnswer(rs, reqs, results) && AllReplied(rs, reqs, results, n)
  {
    hide Answers, Offered, Flatten, Complete, Replied;
    if n == 0 {
    } else {
      hide AllAnswer;
      var t: uint16 := n - 1;
      RepliesAnswer(reqs, results, n - 1);
      var rs := Replies(reqs, results, n - 1);
      if t in reqs && Complete(reqs[t], results) {
        var r := ReplyFor(t, reqs[t], results);
        ReplyAnswers(t, reqs, results);
        assert Replies(reqs, results, n) == rs + [r] && r.tid == t;
        AnswerNext(rs, reqs, results, r);
        RepliedNext(rs, reqs, results, r);
      } else {
        assert Replies(reqs, results, n) == rs;
        forall u | u in reqs && u < n && Complete(reqs[u], results) ensures Replied(rs, u) {
          assert u != t;
        }
      }
    }
  }

  lemma AnswerNext(rs: seq<Reply>, reqs: Requests, results: Results, r: Reply)
    requires AllAnswer(rs, reqs, results) && AllReplied(rs, reqs, results, r.tid) && Answers(r, reqs, results)
    ensures AllAnswer(rs + [r], reqs, results)
  {
    hide Answers, Replied, Complete;
  }

  lemma RepliedNext(rs: seq<Reply>, reqs: Requests, results: Results, r: Reply)
    requires AllReplied(rs, reqs, results, r.tid)
    ensures AllReplied(rs + [r], reqs, results, r.tid + 1)
  {
    hide Complete;
    assert (rs + [r])[|rs|] == r;
    forall t | t in reqs && t <= r.tid && Complete(reqs[t], results) ensures Replied(rs + [r], t) {
      if t < r.tid {
        var j :| 0 <= j < |rs| && rs[j].tid == t;
        assert (rs + [r])[j].tid == t;
      }
    }
  }

  lemma ReplyAnswers(t: uint16, reqs: Requests, results: Results)
    requires t in reqs && Complete(reqs[t], results)
    ensures Answers(ReplyFor(t, reqs[t], results), reqs, results)
  {
    hide Picked, Offered, Flatten;
    OfferedPicks(Flatten(reqs[t], results));
  }

  /** The entries of two lists of domains, one after the other. */
  lemma {:induction false} FlattenAppend(ds: seq<string>, ds': seq<string>, results: Results)
    requires Complete(ds, results) && Complete(ds', results)
    ensures Complete(ds + ds', results) && Flatten(ds + ds', results) == Flatten(ds, results) + Flatten(ds', results)
  {
    if ds' == [] {
      assert ds + ds' == ds;
    } else {
      FlattenAppend(ds, ds'[..|ds'| - 1], results);
      assert (ds + ds')[..|ds + ds'| - 1] == ds + ds'[..|ds'| - 1];
    }
  }

  /** `rows` without the domains in `dead`. */
  function Purge(rows: seq<Row>, dead: string -> bool): seq<Row> {
    if rows == [] then []
    else Purge(rows[..|rows| - 1], dead) + (if dead(rows[|rows| - 1].domain) then [] else [rows[|rows| - 1]])
  }

  // ----- purging step by step

  lemma {:induction false} PurgeWithout(rows: seq<Row>, p: string -> bool, q: string -> bool, d: string)
    requires forall x :: q(x) <==> p(x) || x == d
    ensures Without(Purge(rows, p), d) == Purge(rows, q)
  {
    if rows == [] {
    } else {
      var rows', x := rows[..|rows| - 1], rows[|rows| - 1];
      PurgeWithout(rows', p, q, d);
      if !p(x.domain) {
        var t := Purge(rows', p) + [x];
        assert t[..|t| - 1] == Purge(rows', p);
      } else {
        assert Purge(rows, p) == Purge(rows', p);
        assert Purge(rows, q) == Purge(rows', q);
      }
    }
  }

  lemma {:induction false} PurgeSame(rows: seq<Row>, p: string -> bool, q: string -> bool)
    requires forall x :: p(x) <==> q(x)
    ensures Purge(rows, p) == Purge(rows, q)
  {
    if rows != [] {
      PurgeSame(rows[..|rows| - 1], p, q);
    }
  }

  lemma {:induction false} PurgeNothing(rows: seq<Row>, p: string -> bool)
    requires forall x :: !p(x)
    ensures Purge(rows, p) == rows
  {
    if rows != [] {
      PurgeNothing(rows[..|rows| - 1], p);
    }
  }

  /** A purge keeps the entries of every other domain. */
  lemma {:induction false} PurgeEntries(rows: seq<Row>, p: string -> bool, d: string)
    ensures Entries(Purge(rows, p), d) == if p(d) then [] else Entries(rows, d)
  {
    if rows == [] {
    } else {
      var rows', x := rows[..|rows| - 1], rows[|rows| - 1];
      PurgeEntries(rows', p, d);
      if !p(x.domain) {
        var t := Purge(rows', p) + [x];
        assert t[..|t| - 1] == Purge(rows', p);
      } else {
        assert Purge(rows, p) == Purge(rows', p);
      }
    }
  }

  /** `ds` without its first occurrence of `x`. */
  function Remove(ds: seq<string>, x: string): seq<string> {
    if ds == [] then [] else if ds[0] == x then ds[1..] else [ds[0]] + Remove(ds[1..], x)
  }

  lemma {:induction false} RemoveUnique(ds: seq<string>, x: string)
    requires NoDuplicates(ds)
    ensures NoDuplicates(Remove(ds, x))
    ensures forall d :: d in Remove(ds, x) <==> d in ds && d != x
  {
    if ds == [] {
    } else {
      assert ds == [ds[0]] + ds[1..];
      assert forall i | 0 <= i < |ds[1..]| :: ds[1..][i] == ds[i + 1];
      assert NoDuplicates(ds[1..]);
      assert ds[0] !in ds[1..];
      RemoveUnique(ds[1..], x);
    }
  }

  /** The first position of a name, or the length. */
  function FirstOf(s: seq<string>, x: string): (i: nat)
    ensures i <= |s| && (i < |s| ==> s[i] == x) && forall j | 0 <= j < i :: s[j] != x
  {
    if s == [] || s[0] == x then 0 else 1 + FirstOf(s[1..], x)
  }

  /** `ds` keeps the order in which the names first occur. */
  predicate InOrder(ds: seq<string>, named: seq<string>) {
    forall i, j | 0 <= i < j < |ds| :: FirstOf(named, ds[i]) < FirstOf(named, ds[j])
  }

  class DnsUser {
    var rows: seq<Row>
    var requests: Requests

    constructor ()
      ensures rows == [] && requests == map[]
    {
      rows, requests := [], map[];
    }

    /** Takes a discovery request: the identifiers it names, without repetition and
        without the empty one, or the default domain. */
    method Trigger(tid: uint16, named: Option<seq<string>>, default: string) returns (domains: seq<string>)
      modifies this
      ensures requests == old(requests)[tid := domains] && rows == old(rows)
      ensures NoDuplicates(domains)
      ensures named.None? ==> domains == [default]
      ensures named.Some? ==> forall d :: d in domains <==> d in named.value && d != ""
      ensures named.Some? ==> InOrder(domains, named.value)
    {
      if named.None? {
        domains := [default];
      } else {
        domains := [];
        for i := 0 to |named.value|
          invariant NoDuplicates(domains) && requests == old(requests) && rows == old(rows)
          invariant forall d :: d in domains <==> d in named.value[..i] && d != ""
          invariant InOrder(domains, named.value)
          invariant forall j | 0 <= j < |domains| :: FirstOf(named.value, domains[j]) < i
        {
          var d := named.value[i];
          assert named.value[..i + 1] == named.value[..i] + [d];
          assert d !in named.value[..i] ==> FirstOf(named.value, d) == i by {
            assert forall j | 0 <= j < i :: named.value[..i][j] == named.value[j];
          }
          if d != "" && d !in domains {
            domains := domains + [d];
          }
        }
        assert named.value[..|named.value|] == named.value;
      }
      requests := requests[tid := domains];
    }

    /** `working` without any of `ds`. */
    method RemoveAll(working: seq<string>, ds: seq<string>) returns (left: seq<string>)
      requires NoDuplicates(working)
      ensures NoDuplicates(left) && forall d :: d in left <==> d in working && d !in ds
    {
      left := working;
      for i := 0 to |ds|
        invariant NoDuplicates(left) && forall d :: d in left <==> d in working && d !in ds[..i]
      {
        assert ds[..i + 1] == ds[..i] + [ds[i]];
        RemoveUnique(left, ds[i]);
        left := Remove(left, ds[i]);
      }
      assert ds[..|ds|] == ds;
    }

    /** Forgets those of `domains` that no pending request lists. */
    method EraseRequest(domains: seq<string>)
      requires NoDuplicates(domains)
      modifies `rows
      ensures rows == Purge(old(rows), Unwanted(domains, requests))
    {
      var working := domains;
      for t := 0 to 0x1_0000
        invariant NoDuplicates(working) && rows == old(rows)
        invariant forall d :: d in working <==> d in domains && !WantedBelow(requests, t, d)
      {
        if t in requests {
          WantedNext(requests, t);
          working := RemoveAll(working, requests[t]);
        } else {
          WantedNext(requests, t);
        }
      }
      WantedAll(requests);
      PurgeNothing(rows, Member(working[..0]));
      for i := 0 to |working|
        invariant rows == Purge(old(rows), Member(working[..i]))
      {
        assert working[..i + 1] == working[..i] + [working[i]];
        PurgeWithout(old(rows), Member(working[..i]), Member(working[..i + 1]), working[i]);
        rows := Without(rows, working[i]);
      }
      assert working[..|working|] == working;
      PurgeSame(old(rows), Member(working), Unwanted(domains, requests));
    }

    /** Collects what the finished queries say about one request, until a domain is
        missing or a replacement name has an unknown service letter. */
    method Gather(ds: seq<string>, results: Results) returns (g: Gathered)
      ensures g.Gathered? ==> Complete(ds, results)
      ensures g.Gathered? ==> Sorted(Flatten(ds, results), g.info, g.cmd, g.evt)
      ensures g.Gathered? ==>
        var es := Flatten(ds, results);
        Picked(es, 'i', g.info) && Picked(es, 'c', g.cmd) && Picked(es, 'e', g.evt)
      ensures g.Missing? ==> !Complete(ds, results)
      ensures g.Unknown? ==> !KnownServices(results)
    {
      var info, cmd, evt := [], [], [];
      for i := 0 to |ds|
        invariant Complete(ds[..i], results)
        invariant Sorted(Flatten(ds[..i], results), info, cmd, evt)
      {
        if ds[i] !in results {
          return Missing;
        }
        var es := results[ds[i]];
        ghost var before := Flatten(ds[..i], results);
        assert before + es[..0] == before;
        for j := 0 to |es|
          invariant Sorted(before + es[..j], info, cmd, evt)
        {
          var service := ServiceOf(es[j]);
          SortedNext(before + es[..j], es[j], info, cmd, evt);
          assert before + es[..j + 1] == (before + es[..j]) + [es[j]];
          match service
          case None => return Unknown;
          case Some(Info) => info := info + [MosOf(es[j])];
          case Some(Cmd) => cmd := cmd + [MosOf(es[j])];
          case Some(Evt) => evt := evt + [MosOf(es[j])];
        }
        assert es[..|es|] == es && ds[..i + 1][..i] == ds[..i];
      }
      assert ds[..|ds|] == ds;
      OfferedPicks(Flatten(ds, results));
      return Gathered(info, cmd, evt);
    }

    /** One result pass over the pending requests in ascending order. However it
        ends, the domains forgotten are exactly those of answered requests that no
        pending request lists. If it meets no unknown service letter, it answers a
        request exactly when all its domains are finished. */
    method ForwardResults(results: Results) returns (replies: seq<Reply>, aborted: bool)
      requires AllUnique(requests)
      modifies this
      ensures AllUnique(requests) && rows == Purge(old(rows), Forgotten(old(requests), requests))
      ensures KnownServices(results) ==> !aborted
      ensures !aborted ==> requests == Unanswered(old(requests), results)
      ensures !aborted ==> replies == Replies(old(requests), results, 0x1_0000)
      ensures !aborted ==> AllAnswer(replies, old(requests), results)
      ensures !aborted ==> forall t | t in old(requests) && t !in requests :: Replied(replies, t)
      ensures forall t | t in old(requests) && t !in requests :: Complete(old(requests)[t], results)
      ensures forall t | t in requests :: t in old(requests) && requests[t] == old(requests)[t]
    {
      hide Picked, Offered, Flatten, AllAnswer, Answers, Replied, Purge;
      replies, aborted := [], false;
      PurgeNothing(rows, Forgotten(requests, requests));
      for n := 0 to 0x1_0000
        invariant requests == Remaining(old(requests), results, n)
        invariant rows == Purge(old(rows), Forgotten(old(requests), requests))
        invariant replies == Replies(old(requests), results, n)
      {
        if n in requests {
          var ds := requests[n];
          var g := Gather(ds, results);
          if g.Unknown? {
            return replies, true;
          }
          if g.Gathered? {
            replies := replies + [Reply(n, g.info, g.cmd, g.evt)];
            ghost var before := requests;
            requests := requests - {n};
            EraseRequest(ds);
            PurgeAnswered(old(rows), old(requests), before, n);
          }
        }
        RemainingNext(old(requests), results, n);
      }
      RemainingAll(old(requests), results);
      RepliesAnswer(old(requests), results, 0x1_0000);
    }

    /** What follows a DNS answer: a result pass over the domains that are finished
        now, if there are any. If no replacement name has an unknown service letter, it
        answers a request exactly when the book has every one of its domains finished,
        and a domain of a request still pending keeps all its entries. */
    method CheckResults() returns (replies: seq<Reply>, aborted: bool)
      requires AllUnique(requests)
      modifies this
      ensures AllUnique(requests)
      ensures (forall d :: !Finished(old(rows), d)) ==>
        rows == old(rows) && requests == old(requests) && replies == [] && !aborted
      ensures KnownRows(old(rows)) ==> !aborted
      ensures !aborted && (exists d :: Finished(old(rows), d)) ==>
        && replies == Replies(old(requests), FinishedMap(old(rows)), 0x1_0000)
        && forall t | t in old(requests) :: t in requests <==> !AllFinished(old(rows), old(requests)[t])
      ensures forall d | Wanted(requests, d) :: Entries(rows, d) == Entries(old(rows), d)
    {
      replies, aborted := [], false;
      var results := FinishedMap(rows);
      FinishedMapMeans(rows);
      if results != map[] {
        ResultsOfRows(rows);
        hide FinishedMap, Finished, Entries, Purge, KnownServices, KnownRows, Replies;
        replies, aborted := ForwardResults(results);
        forall d ensures Wanted(requests, d) ==> Entries(rows, d) == Entries(old(rows), d) {
          PassKeepsWanted(old(rows), old(requests), requests, d);
        }
      }
    }
  }

  predicate AllFinished(rows: seq<Row>, ds: seq<string>) { forall i | 0 <= i < |ds| :: Finished(rows, ds[i]) }

  /** Every row's replacement name has a known service letter. */
  predicate KnownRows(rows: seq<Row>) { forall i | 0 <= i < |rows| :: ServiceOf(rows[i].entry).Some? }

  lemma {:induction false} EntriesKnown(rows: seq<Row>, d: string)
    requires KnownRows(rows)
    ensures forall e | e in Entries(rows, d) :: ServiceOf(e).Some?
  {
    if rows == [] {
    } else {
      EntriesKnown(rows[..|rows| - 1], d);
    }
  }

  lemma ResultsOfRows(rows: seq<Row>)
    ensures forall ds :: Complete(ds, FinishedMap(rows)) <==> AllFinished(rows, ds)
    ensures KnownRows(rows) ==> KnownServices(FinishedMap(rows))
  {
    FinishedMapMeans(rows);
    hide FinishedMap, Finished;
    if KnownRows(rows) {
      forall d | d in FinishedMap(rows)
        ensures forall i | 0 <= i < |FinishedMap(rows)[d]| :: ServiceOf(FinishedMap(rows)[d][i]).Some?
      {
        EntriesKnown(rows, d);
        var es := FinishedMap(rows)[d];
        forall i | 0 <= i < |es| ensures ServiceOf(es[i]).Some? { assert es[i] in Entries(rows, d); }
      }
    }
  }

  datatype Gathered = Unknown | Missing | Gathered(info: seq<Mos>, cmd: seq<Mos>, evt: seq<Mos>)

  predicate Sorted(es: seq<Entry>, info: seq<Mos>, cmd: seq<Mos>, evt: seq<Mos>) {
    info == Offered(es, Info) && cmd == Offered(es, Cmd) && evt == Offered(es, Evt)
  }

  lemma SortedNext(es: seq<Entry>, e: Entry, info: seq<Mos>, cmd: seq<Mos>, evt: seq<Mos>)
    requires Sorted(es, info, cmd, evt)
    ensures forall s :: Offered(es + [e], s) == Offered(es, s) + (if ServiceOf(e) == Some(s) then [MosOf(e)] else [])
  {
  }

  function Forgotten(reqs: Requests, left: Requests): string -> bool { d => Dead(reqs, left, d) }

  /** The requests still pending when those below `n` have been looked at. */
  function Remaining(reqs: Requests, results: Results, n: nat): Requests {
    map t | t in reqs && (t >= n || !Complete(reqs[t], results)) :: reqs[t]
  }

  lemma RemainingNext(reqs: Requests, results: Results, n: uint16)
    ensures Remaining(reqs, results, n + 1) ==
      if n in reqs && Complete(reqs[n], results) then Remaining(reqs, results, n) - {n} else Remaining(reqs, results, n)
  {
  }

  lemma RemainingAll(reqs: Requests, results: Results)
    ensures Remaining(reqs, results, 0x1_0000) == Unanswered(reqs, results)
  {
  }

  lemma {:induction false} PurgeTwice(rows: seq<Row>, p: string -> bool, q: string -> bool, r: string -> bool)
    requires forall d :: r(d) <==> p(d) || q(d)
    ensures Purge(Purge(rows, p), q) == Purge(rows, r)
  {
    if rows == [] {
    } else {
      var rows', x := rows[..|rows| - 1], rows[|rows| - 1];
      PurgeTwice(rows', p, q, r);
      if !p(x.domain) {
        var t := Purge(rows', p) + [x];
        assert t[..|t| - 1] == Purge(rows', p);
      } else {
        assert Purge(rows, p) == Purge(rows', p);
        assert Purge(rows, r) == Purge(rows', r);
      }
    }
  }

  /** Answering one more request and erasing its idle domains. */
  lemma PurgeAnswered(rows: seq<Row>, reqs: Requests, left: Requests, t: uint16)
    requires t in left && t in reqs && left[t] == reqs[t]
    ensures Purge(Purge(rows, Forgotten(reqs, left)), Unwanted(left[t], left - {t}))
         == Purge(rows, Forgotten(reqs, left - {t}))
  {
    var after := left - {t};
    forall d ensures Wanted(left, d) <==> Wanted(after, d) || d in left[t] {
      if Wanted(after, d) {
        var u :| u in after && d in after[u];
        assert u in left && d in left[u];
      }
      if Wanted(left, d) && d !in left[t] {
        var u :| u in left && d in left[u];
        assert u in after && d in after[u];
      }
    }
    forall d | d in left[t] ensures Wanted(reqs, d) { assert t in reqs && d in reqs[t]; }
    PurgeTwice(rows, Forgotten(reqs, left), Unwanted(left[t], after), Forgotten(reqs, after));
  }

  function Member(ds: seq<string>): string -> bool { d => d in ds }

  function Unwanted(ds: seq<string>, reqs: Requests): string -> bool { d => d in ds && !Wanted(reqs, d) }

  predicate WantedBelow(reqs: Requests, n: nat, d: string) { exists t :: t in reqs && t < n && d in reqs[t] }

  lemma WantedNext(reqs: Requests, n: uint16)
    ensures forall d :: WantedBelow(reqs, n + 1, d) <==> WantedBelow(reqs, n, d) || (n in reqs && d in reqs[n])
  {
  }

  lemma WantedAll(reqs: Requests)
    ensures forall d :: WantedBelow(reqs, 0x1_0000, d) <==> Wanted(reqs, d)
  {
  }

  /** After a pass a domain still wanted by a pending request has all its entries,
      and a domain that only answered requests listed has none. */
  lemma PassKeepsWanted(rows: seq<Row>, reqs: Requests, left: Requests, d: string)
    ensures Entries(Purge(rows, Forgotten(reqs, left)), d) == if Dead(reqs, left, d) then [] else Entries(rows, d)
    ensures Wanted(left, d) ==> Entries(Purge(rows, Forgotten(reqs, left)), d) == Entries(rows, d)
  {
    PurgeEntries(rows, Forgotten(reqs, left), d);
  }
}
