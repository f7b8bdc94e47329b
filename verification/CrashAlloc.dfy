/** The bump allocator the crash handler uses, over memory mapped page by page. */
module CrashAlloc {

  /** A stretch of addresses. */
  datatype Area = Area(base: nat, size: nat)
  {
    function End(): nat { base + size }

    predicate Inside(a: Area) { a.base <= base && End() <= a.End() }

    predicate Apart(a: Area) { End() <= a.base || a.End() <= base }
  }

  /** The page size is a multiple of the word size; both round by masking, that is
      to the next multiple. */
  datatype Machine = Machine(page: nat, word: nat)
  {
    predicate Valid() { 0 < word && 0 < page && page % word == 0 }
  }

  function RoundUp(n: nat, unit: nat): nat
    requires unit > 0
  {
    (n + (unit - 1)) / unit * unit
  }

  /** The allocator's two pointers, and what has been mapped and handed out. */
  datatype State = State(start: nat, end: nat, regions: seq<Area>, blocks: seq<Area>)

  const INITIAL := State(0, 0, [], [])

  /** A request for `n` bytes and where the system would map a region for it. */
  datatype Request = Request(n: nat, at: nat)

  predicate NeedsMap(s: State, n: nat) { s.end - s.start < n }

  function MapSize(m: Machine, n: nat): nat
    requires m.Valid()
  {
    if n > m.page then RoundUp(n, m.page) else m.page
  }

  /** What the system promises: regions start on a page and do not overlap. */
  predicate MapOk(m: Machine, s: State, r: Request)
    requires m.Valid()
  {
    NeedsMap(s, r.n) ==>
      && r.at % m.page == 0
      && forall i | 0 <= i < |s.regions| :: Area(r.at, MapSize(m, r.n)).Apart(s.regions[i])
  }

  function Mapped(m: Machine, s: State, r: Request): State
    requires m.Valid()
  {
    if NeedsMap(s, r.n) then
      var sz := MapSize(m, r.n);
      s.(start := r.at, end := r.at + sz, regions := s.regions + [Area(r.at, sz)])
    else s
  }

  function Alloc(m: Machine, s: State, r: Request): State
    requires m.Valid()
  {
    var s := Mapped(m, s, r);
    s.(start := s.start + RoundUp(r.n, m.word), blocks := s.blocks + [Area(s.start, r.n)])
  }

  // ----- invariant

  ghost predicate PairwiseApart(s: seq<Area>) { forall i, j | 0 <= i < j < |s| :: s[i].Apart(s[j]) }

  predicate InSome(a: Area, regions: seq<Area>) { exists i :: 0 <= i < |regions| && a.Inside(regions[i]) }

  /** The free area is word-aligned at both ends, lies in mapped memory and meets
      no block; blocks are aligned, mapped and disjoint. */
  ghost predicate Inv(m: Machine, s: State)
    requires m.word > 0
  {
    && s.start <= s.end && s.start % m.word == 0 && s.end % m.word == 0
    && PairwiseApart(s.regions) && PairwiseApart(s.blocks)
    && (s.start == s.end || InSome(Area(s.start, s.end - s.start), s.regions))
    && (forall i | 0 <= i < |s.blocks| :: Good(m, s, s.blocks[i]))
  }

  predicate Good(m: Machine, s: State, b: Area)
    requires m.word > 0 && s.start <= s.end
  {
    && b.size > 0 && b.base % m.word == 0 && InSome(b, s.regions)
    && b.Apart(Area(s.start, s.end - s.start))
  }

  // ----- arithmetic

  lemma Multiple(x: nat, y: nat, unit: nat)
    requires unit > 0 && x % unit == 0 && y % unit == 0
    ensures (x + y) % unit == 0 && (x <= y ==> (y - x) % unit == 0)
  {
    var a, b := x / unit, y / unit;
    assert x == a * unit && y == b * unit;
    assert x + y == (a + b) * unit;
    ModOfMultiple(a + b, unit);
    if x <= y {
      assert y - x == (b - a) * unit;
      ModOfMultiple(b - a, unit);
    }
  }

  lemma Product(d: int, unit: nat)
    requires d >= 1
    ensures d * unit >= unit
  {
  }

  lemma Remainder(k: int, q: int, r: int, unit: nat)
    requires k * unit == q * unit + r && 0 <= r < unit
    ensures k == q
  {
    assert (k - q) * unit == r;
    if k > q {
      Product(k - q, unit);
    } else if k < q {
      assert (q - k) * unit == -r;
      Product(q - k, unit);
    }
  }

  lemma ModOfMultiple(k: int, unit: nat)
    requires unit > 0
    ensures (k * unit) % unit == 0
  {
    var x := k * unit;
    Remainder(k, x / unit, x % unit, unit);
  }

  lemma MultipleTrans(x: nat, page: nat, word: nat)
    requires page > 0 && word > 0 && x % page == 0 && page % word == 0
    ensures x % word == 0
  {
    var a, b := x / page, page / word;
    assert x == a * page && page == b * word;
    assert x == (a * b) * word;
    ModOfMultiple(a * b, word);
  }

  /** Rounding up reaches the first multiple at or above, so it never passes a
      multiple that was at or above already. */
  lemma RoundUpLeast(n: nat, unit: nat, x: nat)
    requires unit > 0
    ensures RoundUp(n, unit) >= n && RoundUp(n, unit) % unit == 0
    ensures x % unit == 0 && x >= n ==> RoundUp(n, unit) <= x
  {
    var q, r := (n + (unit - 1)) / unit, (n + (unit - 1)) % unit;
    ModOfMultiple(q, unit);
    assert n + (unit - 1) == q * unit + r;
    if x % unit == 0 && x >= n {
      RoundUpBelow(q * unit, x / unit, q, unit, n);
    }
  }

  lemma RoundUpBelow(y: nat, k: int, q: int, unit: nat, n: nat)
    requires y == q * unit && y < n + unit && k * unit >= n
    ensures y <= k * unit
  {
    if k < q {
      assert q * unit == k * unit + (q - k) * unit;
      Product(q - k, unit);
    } else {
      assert k * unit == q * unit + (k - q) * unit;
      if k > q { Product(k - q, unit); }
    }
  }

  lemma RoundUpClose(n: nat, unit: nat)
    requires unit > 0
    ensures RoundUp(n, unit) < n + unit
  {
    var q, r := (n + (unit - 1)) / unit, (n + (unit - 1)) % unit;
    assert n + (unit - 1) == q * unit + r;
  }

  /** A new region is the smallest whole number of pages, but at least one, that
      holds the request. */
  lemma MapSizeLeast(m: Machine, n: nat)
    requires m.Valid() && n > 0
    ensures MapSize(m, n) % m.page == 0 && n <= MapSize(m, n) < n + m.page
  {
    ModOfMultiple(1, m.page);
    RoundUpLeast(n, m.page, 0);
    RoundUpClose(n, m.page);
  }

  // ----- every step

  lemma MappedKeeps(m: Machine, s: State, r: Request)
    requires m.Valid() && Inv(m, s) && MapOk(m, s, r)
    ensures var t := Mapped(m, s, r); Inv(m, t) && t.end - t.start >= r.n && t.blocks == s.blocks
  {
    if NeedsMap(s, r.n) {
      var sz := MapSize(m, r.n);
      var t, region := Mapped(m, s, r), Area(r.at, sz);
      RoundUpLeast(r.n, m.page, 0);
      ModOfMultiple(1, m.page);
      assert sz % m.page == 0 && sz >= r.n;
      Multiple(r.at, sz, m.page);
      MultipleTrans(r.at, m.page, m.word);
      MultipleTrans(r.at + sz, m.page, m.word);
      assert t.regions[|s.regions|] == region && region.Inside(region);
      assert InSome(region, t.regions);
      forall i | 0 <= i < |t.blocks| ensures Good(m, t, t.blocks[i]) {
        var b := t.blocks[i];
        assert Good(m, s, b);
        var k :| 0 <= k < |s.regions| && b.Inside(s.regions[k]);
        assert t.regions[k] == s.regions[k];
      }
    }
  }

  /** One allocation: the new block is aligned and free, and the bump pointer stays
      at or below the end of its region in spite of the rounding. */
  lemma AllocKeeps(m: Machine, s: State, r: Request)
    requires m.Valid() && Inv(m, s) && r.n > 0 && MapOk(m, s, r)
    ensures Inv(m, Alloc(m, s, r))
  {
    var t := Mapped(m, s, r);
    MappedKeeps(m, s, r);
    Multiple(t.start, t.end, m.word);
    RoundUpLeast(r.n, m.word, t.end - t.start);
    var u, up := Alloc(m, s, r), RoundUp(r.n, m.word);
    Multiple(t.start, up, m.word);
    var free, block := Area(t.start, t.end - t.start), Area(t.start, r.n);
    assert t.start < t.end && InSome(free, t.regions);
    InsideTrans(block, free, t.regions);
    InsideTrans(Area(u.start, u.end - u.start), free, t.regions);
    forall i | 0 <= i < |u.blocks| ensures Good(m, u, u.blocks[i]) && (i < |t.blocks| ==> u.blocks[i].Apart(block)) {
      if i < |t.blocks| {
        assert Good(m, t, t.blocks[i]);
      }
    }
  }

  lemma InsideTrans(a: Area, b: Area, regions: seq<Area>)
    requires a.Inside(b) && InSome(b, regions)
    ensures InSome(a, regions)
  {
    var i :| 0 <= i < |regions| && b.Inside(regions[i]);
    assert a.Inside(regions[i]);
  }

  // ----- every sequence of calls

  function Exec(m: Machine, rs: seq<Request>): State
    requires m.Valid()
  {
    if rs == [] then INITIAL else Alloc(m, Exec(m, rs[..|rs| - 1]), rs[|rs| - 1])
  }

  predicate Served(m: Machine, rs: seq<Request>)
    requires m.Valid()
  {
    rs != [] ==>
      var r := rs[|rs| - 1];
      Served(m, rs[..|rs| - 1]) && r.n > 0 && MapOk(m, Exec(m, rs[..|rs| - 1]), r)
  }

  lemma {:induction false} ExecKeeps(m: Machine, rs: seq<Request>)
    requires m.Valid() && Served(m, rs)
    ensures Inv(m, Exec(m, rs)) && |Exec(m, rs).blocks| == |rs|
    ensures forall i | 0 <= i < |rs| :: Exec(m, rs).blocks[i].size == rs[i].n
  {
    if rs == [] {
      ModOfMultiple(0, m.word);
    } else {
      ExecKeeps(m, rs[..|rs| - 1]);
      AllocKeeps(m, Exec(m, rs[..|rs| - 1]), rs[|rs| - 1]);
    }
  }

  /** Every sequence of positive requests gets one block each, of the size asked,
      word-aligned, inside mapped memory, no two overlapping. */
  lemma BlocksSafe(m: Machine, rs: seq<Request>)
    requires m.Valid() && Served(m, rs)
    ensures var s := Exec(m, rs);
      && |s.blocks| == |rs| && s.start <= s.end && PairwiseApart(s.blocks)
      && forall i | 0 <= i < |rs| ::
           s.blocks[i].size == rs[i].n && s.blocks[i].base % m.word == 0 && InSome(s.blocks[i], s.regions)
  {
    ExecKeeps(m, rs);
    var s := Exec(m, rs);
    forall i | 0 <= i < |rs| ensures s.blocks[i].base % m.word == 0 && InSome(s.blocks[i], s.regions) {
      assert Good(m, s, s.blocks[i]);
    }
  }

  // ----- the allocator

  class Allocator {
    const machine: Machine
    var start: nat
    var end: nat
    ghost var regions: seq<Area>
    ghost var blocks: seq<Area>

    ghost function View(): State
      reads this
    {
      State(start, end, regions, blocks)
    }

    constructor (machine: Machine)
      requires machine.Valid()
      ensures this.machine == machine && View() == INITIAL && Inv(machine, View())
    {
      this.machine := machine;
      start, end, regions, blocks := 0, 0, [], [];
      ModOfMultiple(0, machine.word);
    }

    /** `at` is what the system returns if a region has to be mapped. */
    method CrashAlloc(n: nat, at: nat) returns (p: nat)
      requires machine.Valid() && Inv(machine, View()) && n > 0 && MapOk(machine, View(), Request(n, at))
      modifies this
      ensures View() == Alloc(machine, old(View()), Request(n, at)) && Inv(machine, View())
      ensures blocks == old(blocks) + [Area(p, n)]
      // memory is mapped only when the free area is too small, and then no more than needed
      ensures old(end) - old(start) >= n ==> p == old(start) && regions == old(regions) && end == old(end)
      ensures old(end) - old(start) < n ==> p == at && regions == old(regions) + [Area(at, end - at)]
      ensures old(end) - old(start) < n ==> n <= end - at < n + machine.page && (end - at) % machine.page == 0
      ensures n <= start - p < n + machine.word && start % machine.word == 0
    {
      AllocKeeps(machine, View(), Request(n, at));
      MapSizeLeast(machine, n);
      RoundUpLeast(n, machine.word, 0);
      RoundUpClose(n, machine.word);
      if end - start < n {
        var sz := machine.page;
        if n > sz {
          sz := RoundUp(n, sz);
        }
        start, end := at, at + sz;
        regions := regions + [Area(at, sz)];
      }
      p := start;
      blocks := blocks + [Area(start, n)];
      start := start + RoundUp(n, machine.word);
    }
  }
}
