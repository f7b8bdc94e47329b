/** Link SAPs that stop answering: the failure counter of the link book, the
    handlers that give up on a Link SAP, and when it comes back. */
module LinkBooks {
  import opened Messages

  /** Type and address of an interface, which are only ever compared. */
  type Link = nat

  datatype Entry = Entry(link: Link, fail: uint16, status: bool)

  type Book = map<Id, Entry>

  /** A 16-bit increment. */
  function Inc16(x: uint16): uint16 { (x + 1) % 0x1_0000 }

  /** What a handler does with a Link SAP it has found: count an attempt, then give
      up on it or forward the request. */
  datatype Attempt = Attempt(e: Entry, forwarded: bool)

  function Try(e: Entry, limit: uint16): Attempt {
    var e := e.(fail := Inc16(e.fail));
    if e.fail > limit then Attempt(e.(status := false), false) else Attempt(e, true)
  }

  predicate Serves(b: Book, id: Id, link: Link) { id in b && b[id].link == link && b[id].status }

  // ----- the order of identifiers

  /** Lexicographic order. */
  predicate Before(a: Id, b: Id) {
    b != [] && (a == [] || a[0] < b[0] || (a[0] == b[0] && Before(a[1..], b[1..])))
  }

  lemma {:induction false} BeforeTotal(a: Id, b: Id)
    ensures a == b || Before(a, b) || Before(b, a)
    decreases |a|
  {
    if a != [] && b != [] && a[0] == b[0] {
      BeforeTotal(a[1..], b[1..]);
      assert a == [a[0]] + a[1..] && b == [b[0]] + b[1..];
    }
  }

  /** At the first difference the smaller character, or the end, comes first. */
  lemma {:induction false} BeforeIff(a: Id, b: Id)
    ensures Before(a, b) <==> exists i :: FirstDifference(a, b, i)
    decreases |a|
  {
    if a == [] || b == [] || a[0] != b[0] {
      if Before(a, b) {
        assert FirstDifference(a, b, 0);
      } else {
        assert forall i :: FirstDifference(a, b, i) ==> i == 0;
      }
    } else {
      BeforeIff(a[1..], b[1..]);
      if i :| FirstDifference(a, b, i) {
        assert FirstDifference(a[1..], b[1..], i - 1);
      }
      if i :| FirstDifference(a[1..], b[1..], i) {
        assert a[..i + 1] == [a[0]] + a[1..][..i] && b[..i + 1] == [b[0]] + b[1..][..i];
        assert FirstDifference(a, b, i + 1);
      }
    }
  }

  predicate FirstDifference(a: Id, b: Id, i: int) {
    0 <= i <= |a| && i < |b| && a[..i] == b[..i] && (i == |a| || a[i] < b[i])
  }

  lemma {:induction false} BeforeTransitive(a: Id, b: Id, c: Id)
    requires Before(a, b) && Before(b, c)
    ensures Before(a, c)
    decreases |a|
  {
    if a != [] && a[0] == b[0] && b[0] == c[0] {
      BeforeTransitive(a[1..], b[1..], c[1..]);
    }
  }

  /** Its smallest element, as an ordered map iterates. */
  method First(ids: set<Id>) returns (r: Id)
    requires ids != {}
    ensures r in ids && forall id | id in ids :: id == r || Before(r, id)
  {
    r :| r in ids;
    var todo := ids - {r};
    while todo != {}
      invariant todo <= ids && r in ids && r !in todo
      invariant forall id | id in ids && id !in todo :: id == r || Before(r, id)
      decreases |todo|
    {
      var id :| id in todo;
      BeforeTotal(r, id);
      if Before(id, r) {
        forall j | j in ids && j !in todo ensures j == id || Before(id, j) {
          if j != r { BeforeTransitive(id, r, j); }
        }
        r := id;
      }
      todo := todo - {id};
    }
  }

  // ----- the book

  class LinkBook {
    var book: Book

    constructor ()
      ensures book == map[]
    {
      book := map[];
    }

    method Add(id: Id, link: Link)
      modifies this
      ensures book == old(book)[id := Entry(link, 0, true)]
    {
      book := book[id := Entry(link, 0, true)];
    }

    method Inactive(id: Id)
      modifies this
      ensures book == if id in old(book) then old(book)[id := old(book)[id].(status := false)] else old(book)
    {
      if id in book {
        book := book[id := book[id].(status := false)];
      }
    }

    /** The first active Link SAP for the interface in the order of identifiers, if
        there is one. */
    method SearchInterface(link: Link) returns (r: Option<Id>)
      ensures r.Some? ==> r.value in book && book[r.value].link == link && book[r.value].status
      ensures r.Some? ==> forall id | Serves(book, id, link) :: id == r.value || Before(r.value, id)
      ensures r.None? ==> forall id | id in book && book[id].link == link :: !book[id].status
    {
      var todo := book.Keys;
      while todo != {}
        invariant todo <= book.Keys
        invariant forall j, k | j in book && j !in todo && k in todo :: Before(j, k)
        invariant forall id | id in book && id !in todo :: !Serves(book, id, link)
        decreases |todo|
      {
        var id := First(todo);
        if book[id].link == link && book[id].status {
          return Some(id);
        }
        todo := todo - {id};
      }
      return None;
    }

    /** Counts an attempt; unknown Link SAPs are an error. */
    method Fail(id: Id) returns (fails: Option<uint16>)
      modifies this
      ensures fails.Some? <==> id in old(book)
      ensures fails.Some? ==>
        && fails.value == Inc16(old(book)[id].fail)
        && book == old(book)[id := old(book)[id].(fail := fails.value)]
      ensures fails.None? ==> book == old(book)
    {
      if id !in book {
        return None;
      }
      book := book[id := book[id].(fail := Inc16(book[id].fail))];
      return Some(book[id].fail);
    }

    /** A Link SAP answered; unknown ones are an error. */
    method Reset(id: Id) returns (known: bool)
      modifies this
      ensures known <==> id in old(book)
      ensures book == if known then old(book)[id := old(book)[id].(fail := 0, status := true)] else old(book)
    {
      known := id in book;
      if known {
        book := book[id := book[id].(fail := 0, status := true)];
      }
    }

    /** The common part of the request handlers: find the Link SAP of an interface,
        count an attempt, and forward the request unless the limit is passed. */
    method Request(link: Link, limit: uint16) returns (to: Option<Id>, forwarded: bool)
      modifies this
      ensures to.None? ==> !forwarded && book == old(book) && forall id :: !Serves(old(book), id, link)
      ensures to.Some? ==> Serves(old(book), to.value, link)
      ensures to.Some? ==> forall id | Serves(old(book), id, link) :: id == to.value || Before(to.value, id)
      ensures to.Some? ==> forwarded == Try(old(book)[to.value], limit).forwarded
      ensures to.Some? ==> book == old(book)[to.value := Try(old(book)[to.value], limit).e]
    {
      forwarded := false;
      to := SearchInterface(link);
      if to.Some? {
        var fails := Fail(to.value);
        if fails.value > limit {
          Inactive(to.value);
        } else {
          forwarded := true;
        }
      }
    }
  }

  // ----- every history

  /** A request for the interface of Link SAP `id`, an answer from it, and its
      registration. */
  datatype Event = Ask(id: Id) | Answer(id: Id) | Register(id: Id, link: Link)

  /** The book, and how many requests each Link SAP has been sent since it last
      answered or registered. */
  datatype State = State(book: Book, sent: map<Id, nat>)

  /** Requests only reach Link SAPs that a search can find. */
  predicate Possible(s: State, e: Event) {
    match e
    case Ask(id) => id in s.book && s.book[id].status && id in s.sent
    case Answer(id) => true
    case Register(_, _) => true
  }

  function Step(s: State, e: Event, limit: uint16): State
    requires Possible(s, e)
  {
    match e
    case Ask(id) =>
      var a := Try(s.book[id], limit);
      State(s.book[id := a.e], s.sent[id := s.sent[id] + (if a.forwarded then 1 else 0)])
    case Answer(id) =>
      if id in s.book then State(s.book[id := s.book[id].(fail := 0, status := true)], s.sent[id := 0]) else s
    case Register(id, link) => State(s.book[id := Entry(link, 0, true)], s.sent[id := 0])
  }

  /** A finite history: the states it goes through. */
  ghost predicate Run(ss: seq<State>, es: seq<Event>, limit: uint16) {
    && |ss| == |es| + 1 && ss[0] == State(map[], map[])
    && forall i | 0 <= i < |es| :: Possible(ss[i], es[i]) && ss[i + 1] == Step(ss[i], es[i], limit)
  }

  predicate Counted(e: Entry, sent: nat, limit: uint16) {
    if e.status then e.fail == sent && sent <= limit else e.fail == limit + 1 && sent == limit
  }

  ghost predicate Inv(s: State, limit: uint16) {
    s.book.Keys == s.sent.Keys && forall id | id in s.book :: Counted(s.book[id], s.sent[id], limit)
  }

  lemma TryCounted(e: Entry, sent: nat, limit: uint16)
    requires limit < 0xFFFF && e.status && Counted(e, sent, limit)
    ensures var a := Try(e, limit); Counted(a.e, sent + (if a.forwarded then 1 else 0), limit)
    ensures Try(e, limit).forwarded <==> sent < limit
  {
  }

  /** Below the largest limit: in every history, between two answers a Link SAP is
      forwarded at most `limit` requests; while it is active its counter is that
      number, and it is inactive exactly after the attempt that came next. */
  lemma {:induction false} AtMostLimit(ss: seq<State>, es: seq<Event>, limit: uint16, i: nat)
    requires Run(ss, es, limit) && limit < 0xFFFF && i < |ss|
    ensures Inv(ss[i], limit)
    ensures forall id | id in ss[i].sent :: ss[i].sent[id] <= limit
  {
    if i == 0 {
    } else {
      AtMostLimit(ss, es, limit, i - 1);
      var s, e := ss[i - 1], es[i - 1];
      assert Possible(s, e) && ss[i] == Step(s, e, limit);
      if e.Ask? {
        TryCounted(s.book[e.id], s.sent[e.id], limit);
      }
    }
  }

  /** The attempt after `limit` unanswered requests is not forwarded and makes the
      Link SAP inactive, so no search finds it; any earlier one is forwarded and
      leaves it active. */
  lemma GivesUpExactly(ss: seq<State>, es: seq<Event>, limit: uint16, i: nat, id: Id)
    requires Run(ss, es, limit) && limit < 0xFFFF && i < |es| && es[i] == Ask(id)
    ensures id in ss[i].sent && id in ss[i + 1].book
    ensures ss[i].sent[id] == limit <==> !ss[i + 1].book[id].status
    ensures ss[i + 1].book[id].status <==> ss[i + 1].sent[id] == ss[i].sent[id] + 1
    ensures var b := ss[i + 1].book; !b[id].status ==> forall link: Link :: !Serves(b, id, link)
  {
    AtMostLimit(ss, es, limit, i);
    assert Possible(ss[i], es[i]) && ss[i + 1] == Step(ss[i], es[i], limit);
    TryCounted(ss[i].book[id], ss[i].sent[id], limit);
  }

  predicate Revives(e: Event, id: Id) { (e.Answer? || e.Register?) && e.id == id }

  /** An inactive Link SAP stays so until it answers or registers again. */
  lemma {:induction false} ComesBackOnlyByAnswering(
    ss: seq<State>, es: seq<Event>, limit: uint16, i: nat, j: nat, id: Id)
    requires Run(ss, es, limit) && i <= j < |ss| && id in ss[i].book && !ss[i].book[id].status
    requires forall k | i <= k < j :: !Revives(es[k], id)
    ensures id in ss[j].book && !ss[j].book[id].status
    decreases j
  {
    if i < j {
      ComesBackOnlyByAnswering(ss, es, limit, i, j - 1, id);
      assert Possible(ss[j - 1], es[j - 1]) && ss[j] == Step(ss[j - 1], es[j - 1], limit);
    }
  }

  /** `n` attempts in a row without an answer, as long as the entry is active. */
  function TryMany(e: Entry, limit: uint16, n: nat): Entry {
    if n == 0 then e
    else var e := TryMany(e, limit, n - 1); if e.status then Try(e, limit).e else e
  }

  lemma IncWraps(n: nat)
    ensures Inc16(n % 0x1_0000) == (n + 1) % 0x1_0000
  {
  }

  /** At the largest limit the 16-bit counter wraps instead of passing it. */
  lemma {:induction false} LargestLimit(link: Link, n: nat)
    ensures TryMany(Entry(link, 0, true), 0xFFFF, n) == Entry(link, n % 0x1_0000, true)
  {
    if n == 0 {
    } else {
      LargestLimit(link, n - 1);
      IncWraps(n - 1);
    }
  }

  lemma {:induction false} SmallerLimit(link: Link, limit: uint16, n: nat)
    requires limit < 0xFFFF
    ensures TryMany(Entry(link, 0, true), limit, n) ==
      if n <= limit then Entry(link, n, true) else Entry(link, limit + 1, false)
  {
    if n == 0 {
    } else {
      SmallerLimit(link, limit, n - 1);
    }
  }

  /** A Link SAP that never answers is given up after finitely many attempts if and
      only if the configured limit is not the largest 16-bit number. */
  lemma GivesUpIff(link: Link, limit: uint16)
    ensures (exists n :: !TryMany(Entry(link, 0, true), limit, n).status) <==> limit < 0xFFFF
  {
    if limit < 0xFFFF {
      SmallerLimit(link, limit, limit + 1);
      assert !TryMany(Entry(link, 0, true), limit, limit + 1).status;
    } else {
      forall n ensures TryMany(Entry(link, 0, true), limit, n).status {
        LargestLimit(link, n);
      }
    }
  }
}
