/** The DNS user's book of queries: NAPTR replacements that become SRV targets
    and then addresses, and which domains are finished. */
module QueryBooks {
  import opened Messages

  datatype Entry = Entry(replacement: string, target: string, port: uint16, a: string, aaaa: string)
  {
    predicate Resolved() { a != "" || aaaa != "" }
  }

  /** One entry of a domain; the book keeps a domain's entries in the order they
      were added. */
  datatype Row = Row(domain: string, entry: Entry)

  function LowerChar(c: char): char { if 'A' <= c <= 'Z' then (c as int + 32) as char else c }

  function Lower(s: string): string { seq(|s|, i requires 0 <= i < |s| => LowerChar(s[i])) }

  /** Only what an answer says is overwritten. */
  function Update(e: Entry, q: Entry): Entry {
    e.(target := if q.target != "" then q.target else e.target,
       port := if q.port != 0 then q.port else e.port,
       a := if q.a != "" then q.a else e.a,
       aaaa := if q.aaaa != "" then q.aaaa else e.aaaa)
  }

  function Rewrite(s: seq<Row>, hit: Entry -> bool, q: Entry): seq<Row> {
    seq(|s|, i requires 0 <= i < |s| => if hit(s[i].entry) then s[i].(entry := Update(s[i].entry, q)) else s[i])
  }

  function OfReplacement(name: string): Entry -> bool { (e: Entry) => e.replacement == name }

  function OfTarget(name: string): Entry -> bool { (e: Entry) => e.target == name }

  function Entries(s: seq<Row>, d: string): seq<Entry> {
    if s == [] then []
    else Entries(s[..|s| - 1], d) + (if s[|s| - 1].domain == d then [s[|s| - 1].entry] else [])
  }

  /** The entries of a domain that have an address. */
  function ResolvedEntries(s: seq<Row>, d: string): seq<Entry> {
    if s == [] then []
    else
      var x := s[|s| - 1];
      ResolvedEntries(s[..|s| - 1], d) + (if x.domain == d && x.entry.Resolved() then [x.entry] else [])
  }

  predicate Open(s: seq<Row>, d: string) { exists i :: 0 <= i < |s| && s[i].domain == d && !s[i].entry.Resolved() }

  predicate Listed(s: seq<Row>, d: string) { exists i :: 0 <= i < |s| && s[i].domain == d }

  predicate Finished(s: seq<Row>, d: string) { Listed(s, d) && !Open(s, d) }

  /** The finished domains, each with all its entries in order. */
  function FinishedMap(s: seq<Row>): map<string, seq<Entry>> {
    map i | 0 <= i < |s| && !Open(s, s[i].domain) :: s[i].domain := Entries(s, s[i].domain)
  }

  function Without(s: seq<Row>, d: string): seq<Row> {
    if s == [] then []
    else Without(s[..|s| - 1], d) + (if s[|s| - 1].domain == d then [] else [s[|s| - 1]])
  }

  // ----- facts about the specification

  lemma FinishedMapMeans(s: seq<Row>)
    ensures forall d :: d in FinishedMap(s) <==> Finished(s, d)
    ensures forall d | d in FinishedMap(s) :: FinishedMap(s)[d] == Entries(s, d)
  {
  }

  lemma {:induction false} NoneOpen(s: seq<Row>, d: string)
    requires !Open(s, d)
    ensures ResolvedEntries(s, d) == Entries(s, d)
  {
    if s == [] {
    } else {
      var s' := s[..|s| - 1];
      assert !Open(s', d) by {
        forall i | 0 <= i < |s'| && s'[i].domain == d ensures s'[i].entry.Resolved() { assert s[i] == s'[i]; }
      }
      NoneOpen(s', d);
    }
  }

  /** A resolved entry stays resolved whatever is found out later, and an answer
      that carries an address resolves every entry it reaches. */
  lemma RewriteResolves(s: seq<Row>, hit: Entry -> bool, q: Entry, i: nat)
    requires i < |s|
    ensures |Rewrite(s, hit, q)| == |s| && Rewrite(s, hit, q)[i].domain == s[i].domain
    ensures s[i].entry.Resolved() ==> Rewrite(s, hit, q)[i].entry.Resolved()
    ensures Rewrite(s, hit, q)[i].entry.Resolved() <==> s[i].entry.Resolved() || (hit(s[i].entry) && q.Resolved())
  {
  }

  /** So a finished domain stays finished through SRV and address answers. */
  lemma FinishedStays(s: seq<Row>, hit: Entry -> bool, q: Entry, d: string)
    requires Finished(s, d)
    ensures Finished(Rewrite(s, hit, q), d)
  {
    var t := Rewrite(s, hit, q);
    var i :| 0 <= i < |s| && s[i].domain == d;
    assert t[i].domain == d;
    forall j | 0 <= j < |t| && t[j].domain == d ensures t[j].entry.Resolved() {
      RewriteResolves(s, hit, q, j);
      assert s[j].domain == d;
    }
  }

  /** The entries of a domain come in the order of the book. */
  lemma {:induction false} EntriesAppend(s: seq<Row>, t: seq<Row>, d: string)
    ensures Entries(s + t, d) == Entries(s, d) + Entries(t, d)
  {
    if t == [] {
      assert s + t == s;
    } else {
      EntriesAppend(s, t[..|t| - 1], d);
      assert (s + t)[..|s + t| - 1] == s + t[..|t| - 1];
    }
  }

  /** Deleting a domain deletes its entries and no others. */
  lemma {:induction false} WithoutEntries(s: seq<Row>, d: string, e: string)
    ensures Entries(Without(s, d), e) == if e == d then [] else Entries(s, e)
  {
    if s == [] {
    } else {
      var s', x := s[..|s| - 1], s[|s| - 1];
      WithoutEntries(s', d, e);
      if x.domain != d {
        var t := Without(s', d) + [x];
        assert t[..|t| - 1] == Without(s', d);
      } else {
        assert Without(s, d) == Without(s', d);
      }
    }
  }

  lemma RewriteSnoc(s: seq<Row>, x: Row, hit: Entry -> bool, q: Entry)
    ensures Rewrite(s + [x], hit, q) ==
      Rewrite(s, hit, q) + [if hit(x.entry) then x.(entry := Update(x.entry, q)) else x]
  {
  }

  lemma RewriteLists(s: seq<Row>, hit: Entry -> bool, q: Entry, d: string)
    ensures Listed(Rewrite(s, hit, q), d) <==> Listed(s, d)
  {
    var t := Rewrite(s, hit, q);
    if Listed(s, d) {
      var i :| 0 <= i < |s| && s[i].domain == d;
      assert t[i].domain == d;
    }
    if Listed(t, d) {
      var i :| 0 <= i < |t| && t[i].domain == d;
      assert s[i].domain == d;
    }
  }

  /** The same letter, whether capital or not. */
  predicate SameLetter(c: char, d: char) {
    c == d || ('A' <= c <= 'Z' && d as int == c as int + 32) || ('A' <= d <= 'Z' && c as int == d as int + 32)
  }

  /** Two names have the same lower case form exactly when they are equal up to the
      case of their letters. */
  lemma SameNameIff(s: string, t: string)
    ensures Lower(s) == Lower(t) <==> |s| == |t| && forall i | 0 <= i < |s| :: SameLetter(s[i], t[i])
  {
    if Lower(s) == Lower(t) {
      assert |s| == |Lower(s)| == |Lower(t)| == |t|;
      forall i | 0 <= i < |s| ensures SameLetter(s[i], t[i]) {
        assert Lower(s)[i] == Lower(t)[i];
        SameLowerChar(s[i], t[i]);
      }
    } else if |s| == |t| && forall i | 0 <= i < |s| :: SameLetter(s[i], t[i]) {
      forall i | 0 <= i < |s| ensures Lower(s)[i] == Lower(t)[i] {
        SameLowerChar(s[i], t[i]);
      }
    }
  }

  lemma SameLowerChar(c: char, d: char)
    ensures LowerChar(c) == LowerChar(d) <==> SameLetter(c, d)
  {
  }

  /** What is found out is never lost: an answer writes each of target, port and the
      two addresses exactly if it has one, and leaves the others and the name alone. */
  lemma AnswerWrites(s: seq<Row>, hit: Entry -> bool, q: Entry, i: nat)
    requires i < |s|
    ensures var e, e' := s[i].entry, Rewrite(s, hit, q)[i].entry;
      && (!hit(e) ==> e' == e)
      && e'.replacement == e.replacement
      && (hit(e) && q.target != "" ==> e'.target == q.target) && (q.target == "" ==> e'.target == e.target)
      && (hit(e) && q.port != 0 ==> e'.port == q.port) && (q.port == 0 ==> e'.port == e.port)
      && (hit(e) && q.a != "" ==> e'.a == q.a) && (q.a == "" ==> e'.a == e.a)
      && (hit(e) && q.aaaa != "" ==> e'.aaaa == q.aaaa) && (q.aaaa == "" ==> e'.aaaa == e.aaaa)
  {
  }

  /** From a name to an address, in any book: a domain with one NAPTR replacement is
      finished by the SRV answer for that name, whatever its letter case, followed
      by an address answer for the target, and then holds exactly what they said. */
  lemma ResolutionChain(
    s: seq<Row>, d: string, name: string, name': string, target: string, port: uint16, a: string, aaaa: string)
    requires !Listed(s, d) && target != "" && (a != "" || aaaa != "") && Lower(name) == Lower(name')
    ensures
      var s1 := s + [Row(d, Entry(Lower(name), "", 0, "", ""))];
      var s2 := Rewrite(s1, OfReplacement(Lower(name')), Entry(name', target, port, "", ""));
      var s3 := Rewrite(s2, OfTarget(target), Entry("", target, 0, a, aaaa));
      && !Finished(s1, d) && !Finished(s2, d) && Finished(s3, d)
      && Entries(s3, d) == [Entry(Lower(name), target, port, a, aaaa)]
  {
    var q2, q3 := Entry(name', target, port, "", ""), Entry("", target, 0, a, aaaa);
    var x1 := Row(d, Entry(Lower(name), "", 0, "", ""));
    RewriteSnoc(s, x1, OfReplacement(Lower(name')), q2);
    var t2, x2 := Rewrite(s, OfReplacement(Lower(name')), q2), Row(d, Entry(Lower(name), target, port, "", ""));
    RewriteSnoc(t2, x2, OfTarget(target), q3);
    var t3, x3 := Rewrite(t2, OfTarget(target), q3), Row(d, Entry(Lower(name), target, port, a, aaaa));
    RewriteLists(s, OfReplacement(Lower(name')), q2, d);
    RewriteLists(t2, OfTarget(target), q3, d);
    OnlyEntry(s, x1);
    OnlyEntry(t2, x2);
    OnlyEntry(t3, x3);
  }

  lemma OnlyEntry(s: seq<Row>, x: Row)
    requires !Listed(s, x.domain)
    ensures Entries(s + [x], x.domain) == [x.entry] && (Finished(s + [x], x.domain) <==> x.entry.Resolved())
  {
    EntriesListed(s, x.domain);
    var t := s + [x];
    assert t[..|s|] == s && t[|s|] == x;
    forall i | 0 <= i < |s| ensures t[i].domain != x.domain { assert t[i] == s[i]; }
  }

  class QueryBook {
    var rows: seq<Row>

    constructor ()
      ensures rows == []
    {
      rows := [];
    }

    method Add(id: string, query: Entry)
      modifies this
      ensures rows == old(rows) + [Row(id, query.(replacement := Lower(query.replacement)))]
    {
      rows := rows + [Row(id, query.(replacement := Lower(query.replacement)))];
    }

    method UpdateWhere(hit: Entry -> bool, query: Entry)
      modifies this
      ensures rows == Rewrite(old(rows), hit, query)
    {
      for i := 0 to |rows|
        invariant |rows| == |old(rows)|
        invariant forall j | 0 <= j < |rows| ::
          rows[j] == if j < i then Rewrite(old(rows), hit, query)[j] else old(rows)[j]
      {
        if hit(rows[i].entry) {
          rows := rows[i := rows[i].(entry := Update(rows[i].entry, query))];
        }
      }
    }

    method SetSrvResults(query: Entry)
      modifies this
      ensures rows == Rewrite(old(rows), OfReplacement(Lower(query.replacement)), query)
      ensures |rows| == |old(rows)| && forall i | 0 <= i < |rows| ::
        rows[i] == if old(rows)[i].entry.replacement == Lower(query.replacement)
                   then old(rows)[i].(entry := Update(old(rows)[i].entry, query)) else old(rows)[i]
    {
      UpdateWhere(OfReplacement(Lower(query.replacement)), query);
    }

    method SetTargetResults(query: Entry)
      modifies this
      ensures rows == Rewrite(old(rows), OfTarget(query.target), query)
      ensures |rows| == |old(rows)| && forall i | 0 <= i < |rows| ::
        rows[i] == if old(rows)[i].entry.target == query.target
                   then old(rows)[i].(entry := Update(old(rows)[i].entry, query)) else old(rows)[i]
    {
      UpdateWhere(OfTarget(query.target), query);
    }

    method Del(id: string)
      modifies this
      ensures rows == Without(old(rows), id)
    {
      var left: seq<Row> := [];
      for i := 0 to |rows|
        invariant rows == old(rows) && left == Without(rows[..i], id)
      {
        assert rows[..i + 1][..i] == rows[..i];
        if rows[i].domain != id {
          left := left + [rows[i]];
        }
      }
      assert rows[..|rows|] == rows;
      rows := left;
    }

    /** The resolved entries by domain, for domains that have any. */
    method CollectResolved() returns (found: map<string, seq<Entry>>)
      ensures forall d :: d in found <==> ResolvedEntries(rows, d) != []
      ensures forall d | d in found :: found[d] == ResolvedEntries(rows, d)
    {
      found := map[];
      for i := 0 to |rows|
        invariant forall d :: d in found <==> ResolvedEntries(rows[..i], d) != []
        invariant forall d | d in found :: found[d] == ResolvedEntries(rows[..i], d)
      {
        assert rows[..i + 1][..i] == rows[..i];
        var x := rows[i];
        if x.entry.Resolved() {
          if x.domain !in found {
            found := found[x.domain := [x.entry]];
          } else {
            found := found[x.domain := found[x.domain] + [x.entry]];
          }
        }
      }
      assert rows[..|rows|] == rows;
    }

    /** Collects resolved entries by domain, then drops every domain that still has
        an unresolved one: what is left is precisely the finished domains with all
        their entries in order. */
    method GetFinishedQueries() returns (finished: map<string, seq<Entry>>)
      ensures finished == FinishedMap(rows)
    {
      hide FinishedMap, ResolvedEntries;
      finished := CollectResolved();
      ghost var found := finished;
      for i := 0 to |rows|
        invariant forall d :: d in finished <==> d in found && !Open(rows[..i], d)
        invariant forall d | d in finished :: finished[d] == found[d]
      {
        OpenSnoc(rows, i);
        var x := rows[i];
        if !x.entry.Resolved() && x.domain in finished {
          finished := finished - {x.domain};
        }
      }
      assert rows[..|rows|] == rows;
      FinishedFrom(rows, found, finished);
    }
  }

  lemma FinishedFrom(s: seq<Row>, found: map<string, seq<Entry>>, finished: map<string, seq<Entry>>)
    requires forall d :: d in found <==> ResolvedEntries(s, d) != []
    requires forall d | d in found :: found[d] == ResolvedEntries(s, d)
    requires forall d :: d in finished <==> d in found && !Open(s, d)
    requires forall d | d in finished :: finished[d] == found[d]
    ensures finished == FinishedMap(s)
  {
    FinishedMapMeans(s);
    hide FinishedMap, Open, Listed, Entries, ResolvedEntries;
    forall d ensures d in finished <==> d in FinishedMap(s)
      ensures d in finished ==> finished[d] == FinishedMap(s)[d]
    {
      if !Open(s, d) {
        NoneOpen(s, d);
        EntriesListed(s, d);
      }
    }
  }

  lemma OpenSnoc(s: seq<Row>, i: nat)
    requires i < |s|
    ensures forall d :: Open(s[..i + 1], d) <==> Open(s[..i], d) || (s[i].domain == d && !s[i].entry.Resolved())
  {
    var t, u := s[..i], s[..i + 1];
    forall d ensures Open(u, d) <==> Open(t, d) || (s[i].domain == d && !s[i].entry.Resolved()) {
      if Open(t, d) {
        var k :| 0 <= k < |t| && t[k].domain == d && !t[k].entry.Resolved();
        assert u[k] == t[k];
      }
      if s[i].domain == d && !s[i].entry.Resolved() {
        assert u[i] == s[i];
      }
      if Open(u, d) {
        var k :| 0 <= k < |u| && u[k].domain == d && !u[k].entry.Resolved();
        assert k < i ==> t[k] == u[k];
      }
    }
  }

  lemma {:induction false} EntriesListed(s: seq<Row>, d: string)
    ensures Entries(s, d) != [] <==> Listed(s, d)
  {
    if s == [] {
    } else {
      var s', x := s[..|s| - 1], s[|s| - 1];
      EntriesListed(s', d);
      if Listed(s', d) {
        var i :| 0 <= i < |s'| && s'[i].domain == d;
        assert s[i] == s'[i];
      }
      if Listed(s, d) && x.domain != d {
        var i :| 0 <= i < |s| && s[i].domain == d;
        assert s'[i] == s[i];
      }
    }
  }
}
