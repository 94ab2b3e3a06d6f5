/** Cutting a section into subsections and handing its relocations to them
    (input_files.rs, initialize_sections and read_relocations). */
module Split {
  import opened StableSort

  /** A section's address range in its object, and a subsection's. */
  datatype Header = Header(addr: nat, size: nat)

  datatype Piece = Piece(addr: nat, size: nat)

  function Low32(x: nat): nat { x % 0x1_0000_0000 }

  // ---- Split points ----

  function Id(x: nat): nat { x }

  function Retained(points: seq<nat>, h: Header): seq<nat> {
    if points == [] then []
    else
      var p := points[|points| - 1];
      Retained(points[..|points| - 1], h) + if h.addr <= p <= h.addr + h.size then [p] else []
  }

  function Dedup(xs: seq<nat>): seq<nat> {
    if xs == [] then []
    else
      var n := |xs| - 1;
      Dedup(xs[..n]) + if n > 0 && xs[n - 1] == xs[n] then [] else [xs[n]]
  }

  function SplitPoints(h: Header, points: seq<nat>): seq<nat> {
    Dedup(SortBy(Retained(points + [h.addr], h), Id))
  }

  lemma {:induction false} RetainedHas(points: seq<nat>, h: Header, p: nat)
    ensures p in Retained(points, h) <==> p in points && h.addr <= p <= h.addr + h.size
  {
    if points != [] {
      var n := |points| - 1;
      RetainedHas(points[..n], h, p);
      assert points == points[..n] + [points[n]];
    }
  }

  lemma SortHas(xs: seq<nat>, p: nat)
    ensures p in SortBy(xs, Id) <==> p in xs
  {
    SortIsStable(xs, Id, Id, p);
    FilterNone(xs, Id, p);
    FilterNone(SortBy(xs, Id), Id, p);
    if p in xs {
      var k :| 0 <= k < |xs| && xs[k] == p;
      assert Id(xs[k]) == p;
    }
    if p in SortBy(xs, Id) {
      var k :| 0 <= k < |SortBy(xs, Id)| && SortBy(xs, Id)[k] == p;
      assert Id(SortBy(xs, Id)[k]) == p;
    }
  }

  lemma {:induction false} DedupHas(xs: seq<nat>, p: nat)
    ensures p in Dedup(xs) <==> p in xs
    ensures xs != [] ==> Dedup(xs) != [] && Dedup(xs)[|Dedup(xs)| - 1] == xs[|xs| - 1]
  {
    if xs != [] {
      var n := |xs| - 1;
      DedupHas(xs[..n], p);
      assert xs == xs[..n] + [xs[n]];
    }
  }

  lemma {:induction false} DedupIncreases(xs: seq<nat>)
    requires Sorted(xs, Id)
    ensures forall i, j :: 0 <= i < j < |Dedup(xs)| ==> Dedup(xs)[i] < Dedup(xs)[j]
  {
    if |xs| > 1 {
      var n := |xs| - 1;
      DedupIncreases(xs[..n]);
      DedupHas(xs[..n], 0);
      assert Id(xs[n - 1]) <= Id(xs[n]);
    }
  }

  /** In order, from the section's start on and not past its end. */
  ghost predicate Points(h: Header, ps: seq<nat>) {
    && |ps| > 0 && ps[0] == h.addr
    && (forall i :: 0 <= i < |ps| ==> h.addr <= ps[i] <= h.addr + h.size)
    && forall i, j :: 0 <= i < j < |ps| ==> ps[i] < ps[j]
  }

  lemma SplitPointsHave(h: Header, points: seq<nat>, p: nat)
    ensures p in SplitPoints(h, points) <==> p == h.addr || (p in points && h.addr <= p <= h.addr + h.size)
  {
    var kept := Retained(points + [h.addr], h);
    RetainedHas(points + [h.addr], h, p);
    SortHas(kept, p);
    DedupHas(SortBy(kept, Id), p);
  }

  lemma SplitPointsAre(h: Header, points: seq<nat>)
    ensures Points(h, SplitPoints(h, points))
    ensures forall p: nat :: p in SplitPoints(h, points) <==>
              p == h.addr || (p in points && h.addr <= p <= h.addr + h.size)
  {
    var kept := Retained(points + [h.addr], h);
    SortMembers(kept, Id);
    DedupIncreases(SortBy(kept, Id));
    forall p: nat
      ensures p in SplitPoints(h, points) <==> p == h.addr || (p in points && h.addr <= p <= h.addr + h.size)
    {
      SplitPointsHave(h, points, p);
    }
    IncreasingFrom(h, SplitPoints(h, points));
  }

  lemma IncreasingFrom(h: Header, ps: seq<nat>)
    requires forall i, j :: 0 <= i < j < |ps| ==> ps[i] < ps[j]
    requires h.addr in ps && forall p :: p in ps ==> h.addr <= p <= h.addr + h.size
    ensures Points(h, ps)
  {
    assert forall i :: 0 <= i < |ps| ==> ps[i] in ps;
    var k :| 0 <= k < |ps| && ps[k] == h.addr;
  }

  // ---- Subsections ----

  /** The pieces cover the section from end to end, in order; only the last may be
      empty. */
  ghost predicate Tiles(h: Header, ps: seq<Piece>) {
    && |ps| > 0 && ps[0].addr == h.addr && ps[|ps| - 1].addr + ps[|ps| - 1].size == h.addr + h.size
    && (forall j :: 0 <= j < |ps| - 1 ==> ps[j].size > 0)
    && forall j :: 0 <= j < |ps| - 1 ==> ps[j].addr + ps[j].size == ps[j + 1].addr
  }

  predicate Holds(p: Piece, a: nat) { p.addr <= a < p.addr + p.size }

  /** The subsections of a section below 4 GiB: they tile it, cut at its own address and
      at each split point inside it or at its end. */
  method InitializeSection(h: Header, points: seq<nat>) returns (ps: seq<Piece>)
    ensures h.addr + h.size < 0x1_0000_0000 ==> Tiles(h, ps)
    ensures h.addr + h.size < 0x1_0000_0000 ==>
              forall a: nat :: StartsAt(ps, a) <==> a == h.addr || (a in points && h.addr <= a <= h.addr + h.size)
  {
    var starts := SplitPoints(h, points);
    SplitPointsAre(h, points);
    ps := [];
    for j := 0 to |starts|
      invariant |ps| == j && forall i: nat :: i < j ==> ps[i] == Cut(h, starts, i)
    {
      ps := ps + [Piece(Low32(starts[j]), Low32(EndAt(h, starts, j) - starts[j]))];
    }
    if h.addr + h.size < 0x1_0000_0000 {
      CutTiles(h, starts, ps);
      forall a: nat | a in starts ensures StartsAt(ps, a) {
        var j: nat :| j < |starts| && starts[j] == a;
        assert ps[j].addr == a;
      }
      forall a: nat | StartsAt(ps, a) ensures a in starts {
        var j: nat :| j < |ps| && ps[j].addr == a;
        assert starts[j] == a;
      }
    }
  }

  function Cut(h: Header, starts: seq<nat>, j: nat): Piece
    requires Points(h, starts) && j < |starts|
  {
    Piece(Low32(starts[j]), Low32(EndAt(h, starts, j) - starts[j]))
  }

  lemma CutTiles(h: Header, starts: seq<nat>, ps: seq<Piece>)
    requires Points(h, starts) && |ps| == |starts| && h.addr + h.size < 0x1_0000_0000
    requires forall j: nat :: j < |ps| ==> ps[j] == Cut(h, starts, j)
    ensures Tiles(h, ps) && forall j: nat :: j < |ps| ==> ps[j].addr == starts[j]
  {
    forall j: nat | j < |ps| ensures ps[j].addr == starts[j] && ps[j].addr + ps[j].size == EndAt(h, starts, j) {
      CutIs(h, starts, j);
    }
    assert forall j: nat :: j < |ps| - 1 ==> EndAt(h, starts, j) == starts[j + 1] > starts[j];
  }

  function EndAt(h: Header, starts: seq<nat>, j: nat): nat
    requires j < |starts|
  {
    if j + 1 < |starts| then starts[j + 1] else h.addr + h.size
  }

  lemma CutIs(h: Header, starts: seq<nat>, j: nat)
    requires Points(h, starts) && j < |starts| && h.addr + h.size < 0x1_0000_0000
    ensures Cut(h, starts, j).addr == starts[j] && starts[j] + Cut(h, starts, j).size == EndAt(h, starts, j)
  {
    Small(starts[j]);
    Small(EndAt(h, starts, j) - starts[j]);
  }

  lemma Small(x: nat)
    requires x < 0x1_0000_0000
    ensures Low32(x) == x
  {
  }

  ghost predicate StartsAt(ps: seq<Piece>, a: nat) { exists j: nat :: j < |ps| && ps[j].addr == a }

  lemma {:induction false} TilesInOrder(h: Header, ps: seq<Piece>, i: nat, j: nat)
    requires Tiles(h, ps) && i < j < |ps|
    ensures ps[i].addr + ps[i].size <= ps[j].addr
    decreases j
  {
    assert ps[j - 1].addr + ps[j - 1].size == ps[j].addr;
    if i < j - 1 {
      TilesInOrder(h, ps, i, j - 1);
    }
  }

  /** Each address of the section is in exactly one of its subsections. */
  lemma TilesExactly(h: Header, ps: seq<Piece>, a: nat) returns (j: nat)
    requires Tiles(h, ps) && h.addr <= a < h.addr + h.size
    ensures j < |ps| && Holds(ps[j], a) && forall i: nat :: i < |ps| && Holds(ps[i], a) ==> i == j
  {
    j := 0;
    while a >= ps[j].addr + ps[j].size
      invariant j < |ps| && ps[j].addr <= a
      decreases |ps| - j
    {
      j := j + 1;
    }
    forall i: nat | i < |ps| && Holds(ps[i], a) ensures i == j {
      if i < j {
        TilesInOrder(h, ps, i, j);
      } else if j < i {
        TilesInOrder(h, ps, j, i);
      }
    }
  }

  // ---- Section-relative targets ----

  const WORD: int := 0x1_0000_0000_0000_0000

  function AddrOf(p: Piece): nat { p.addr }

  function Wrap(x: int): (r: nat)
    ensures r < WORD
  {
    x % WORD
  }

  function Signed(x: nat): int { if x < WORD / 2 then x else x - WORD }

  /** section_target: the subsection an address is in, or the nearest one, and the
      address's offset from it, wrapped to 64 bits. */
  function SectionTarget(h: Header, ps: seq<Piece>, addend: int): (nat, nat)
    requires |ps| > 0
  {
    TargetAt(ps, Wrap(h.addr + addend))
  }

  function TargetAt(ps: seq<Piece>, addr: nat): (nat, nat)
    requires |ps| > 0
  {
    var n := Reach(ps, AddrOf, addr + 1);
    var j := if n == 0 then 0 else n - 1;
    (j, Wrap(addr - ps[j].addr))
  }

  /** The target keeps its address modulo 2^64, and is in the subsection that holds it:
      for an address at the section's end or beyond the last one, before the section
      the first. */
  lemma SectionTargetKeepsAddress(h: Header, ps: seq<Piece>, addend: int)
    requires Tiles(h, ps) && h.addr + h.size < WORD
    ensures var (j, off) := SectionTarget(h, ps, addend);
            TargetIs(h, ps, (h.addr + addend) % WORD, j, Signed(off))
  {
    TargetIsAtReach(h, ps, Wrap(h.addr + addend));
  }

  ghost predicate TargetIs(h: Header, ps: seq<Piece>, addr: nat, j: nat, off: int) {
    && j < |ps|
    && (ps[j].addr + off) % WORD == addr && -WORD / 2 <= off < WORD / 2
    && (h.addr <= addr < h.addr + h.size ==> Holds(ps[j], addr))
    && (addr >= h.addr + h.size ==> j == |ps| - 1)
    && (addr < h.addr ==> j == 0)
  }

  lemma TargetIsAtReach(h: Header, ps: seq<Piece>, addr: nat)
    requires Tiles(h, ps) && addr < WORD
    ensures TargetIs(h, ps, addr, TargetAt(ps, addr).0, Signed(TargetAt(ps, addr).1))
  {
    var n := Reach(ps, AddrOf, addr + 1);
    var base := ps[if n == 0 then 0 else n - 1].addr;
    WrapBack(addr, base);
    AtReach(h, ps, addr);
  }

  /** The last piece that starts at or before an address. */
  lemma AtReach(h: Header, ps: seq<Piece>, addr: nat)
    requires Tiles(h, ps)
    ensures var n := Reach(ps, AddrOf, addr + 1);
            var j := if n == 0 then 0 else n - 1;
            && (h.addr <= addr < h.addr + h.size ==> Holds(ps[j], addr))
            && (addr >= h.addr + h.size ==> j == |ps| - 1)
            && (addr < h.addr ==> j == 0)
  {
    var n := Reach(ps, AddrOf, addr + 1);
    if n > 0 {
      assert AddrOf(ps[n - 1]) < addr + 1;
    }
    assert AddrOf(ps[0]) == h.addr;
    if n < |ps| {
      assert AddrOf(ps[n]) >= addr + 1;
      AddrsInSection(h, ps, n);
    }
  }

  lemma AddrsInSection(h: Header, ps: seq<Piece>, j: nat)
    requires Tiles(h, ps) && j < |ps|
    ensures h.addr <= ps[j].addr && ps[j].addr + ps[j].size <= h.addr + h.size
  {
    if j > 0 {
      TilesInOrder(h, ps, 0, j);
    }
    if j < |ps| - 1 {
      TilesInOrder(h, ps, j, |ps| - 1);
    }
  }

  lemma WrapBack(addr: nat, base: nat)
    requires addr < WORD
    ensures Wrap(base + Signed(Wrap(addr - base))) == addr
  {
    var q := (addr - base) / WORD;
    assert Wrap(addr - base) == addr - base - WORD * q;
    if Wrap(addr - base) < WORD / 2 {
      assert base + Signed(Wrap(addr - base)) == addr - WORD * q;
    } else {
      assert base + Signed(Wrap(addr - base)) == addr - WORD * (q + 1);
    }
  }
}
