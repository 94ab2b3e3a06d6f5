/** Handing a section's relocations to its subsections (input_files.rs,
    read_relocations). */
module SplitRelocs {
  import opened Options
  import opened Targets
  import opened StableSort
  import opened Split

  /** `body` stands for a relocation's other fields; a SUBTRACTOR and the UNSIGNED it
      pairs with come one after the other at one offset. */
  datatype Reloc = Reloc(offset: nat, target: Target, addend: int, body: nat)

  /** A subsection's rel_offset and nrels. */
  datatype Run = Run(start: nat, n: nat)

  function OffsetOf(r: Reloc): nat { r.offset }

  /** The section a target ordinal names: its range, its pieces, and where they start in
      the object's subsections. */
  datatype Sect = Sect(h: Header, ps: seq<Piece>, first: nat)

  /** A section-relative target rebased to its subsection. */
  function Rebased(r: Reloc, sects: seq<Sect>): Reloc
    requires r.target.Section? ==> r.target.i < |sects| && |sects[r.target.i].ps| > 0
  {
    match r.target
    case Sym(_) => r
    case Section(s) =>
      var (j, off) := SectionTarget(sects[s].h, sects[s].ps, r.addend);
      r.(target := Section(sects[s].first + j), addend := Signed(off))
  }

  /** Where piece j starts in its section. */
  function SubOff(h: Header, ps: seq<Piece>, j: nat): nat
    requires Tiles(h, ps) && j < |ps|
  {
    AddrsInSection(h, ps, j);
    ps[j].addr - h.addr
  }

  /** The arena's element k is element k - base of rels, moved to piece j, which holds
      its offset. */
  ghost predicate IsMoved(h: Header, ps: seq<Piece>, rels: seq<Reloc>, arena: seq<Reloc>, base: nat, j: nat, k: nat)
    requires Tiles(h, ps)
  {
    && j < |ps| && base <= k < |arena| && k - base < |rels|
    && arena[k] == rels[k - base].(offset := arena[k].offset)
    && ps[j].addr + arena[k].offset == h.addr + rels[k - base].offset
    && arena[k].offset < ps[j].size
  }

  /** Each of the run's elements was moved to piece j. */
  ghost predicate RunMoved(h: Header, ps: seq<Piece>, rels: seq<Reloc>, arena: seq<Reloc>, base: nat, j: nat, r: Run)
    requires Tiles(h, ps)
  {
    forall k: nat :: r.start <= k < r.start + r.n ==> IsMoved(h, ps, rels, arena, base, j, k)
  }

  /** The runs lie one after another from base to end. */
  ghost predicate InLine(runs: seq<Run>, base: nat, end: nat) {
    if runs == [] then base == end
    else
      && runs[0].start == base && runs[|runs| - 1].start + runs[|runs| - 1].n == end
      && forall j :: 0 <= j < |runs| - 1 ==> runs[j].start + runs[j].n == runs[j + 1].start
  }

  /** The first pieces' runs lie in line from base on, each holding relocations of its
      piece. */
  ghost predicate Handed(h: Header, ps: seq<Piece>, rels: seq<Reloc>, arena: seq<Reloc>, base: nat, runs: seq<Run>)
    requires Tiles(h, ps)
  {
    && |runs| <= |ps| && InLine(runs, base, |arena|)
    && forall j: nat :: j < |runs| ==> RunMoved(h, ps, rels, arena, base, j, runs[j])
  }

  /** The merge walk. Every relocation inside the section lands in the run of exactly
      the subsection that holds it, its absolute place unchanged, and the runs lie one
      after another in the order of the relocations. */
  method HandOut(h: Header, ps: seq<Piece>, rels: seq<Reloc>, arena: seq<Reloc>)
    returns (arena': seq<Reloc>, runs: seq<Run>)
    requires Tiles(h, ps) && Sorted(rels, OffsetOf)
    ensures arena <= arena' && |arena'| == |arena| + Reach(rels, OffsetOf, h.size)
    ensures |runs| == |ps| && Handed(h, ps, rels, arena', |arena|, runs)
  {
    var pos := 0;
    runs := [];
    arena' := arena;
    StartOfFirst(h, ps);
    ReachZero(rels, OffsetOf);
    for j := 0 to |ps|
      invariant |runs| == j && Handed(h, ps, rels, arena', |arena|, runs)
      invariant arena <= arena' && |arena'| == |arena| + pos && pos <= |rels|
      invariant pos == Reach(rels, OffsetOf, if j < |ps| then SubOff(h, ps, j) else h.size)
    {
      ghost var arena0, runs0 := arena', runs;
      var start := |arena'|;
      arena', pos := HandOne(h, ps, rels, arena', |arena|, pos, j);
      var run := Run(start, |arena'| - start);
      runs := runs + [run];
      NextSubOff(h, ps, j);
      HandedPush(h, ps, rels, arena0, arena', |arena|, runs0, run);
    }
  }

  /** The walk over one subsection's relocations. */
  method HandOne(h: Header, ps: seq<Piece>, rels: seq<Reloc>, arena: seq<Reloc>, ghost base: nat, from: nat, j: nat)
    returns (arena': seq<Reloc>, pos: nat)
    requires Tiles(h, ps) && Sorted(rels, OffsetOf) && j < |ps|
    requires from == Reach(rels, OffsetOf, SubOff(h, ps, j)) && |arena| == base + from
    ensures from <= pos == Reach(rels, OffsetOf, SubOff(h, ps, j) + ps[j].size)
    ensures arena <= arena' && |arena'| == base + pos
    ensures RunMoved(h, ps, rels, arena', base, j, Run(|arena|, |arena'| - |arena|))
  {
    var subOff := SubOff(h, ps, j);
    var end := subOff + ps[j].size;
    arena', pos := arena, from;
    while pos < |rels| && rels[pos].offset < end
      invariant from <= pos <= |rels| && |arena'| == base + pos && arena <= arena'
      invariant AllBelow(rels, from, pos, end)
      invariant RunMoved(h, ps, rels, arena', base, j, Run(|arena|, |arena'| - |arena|))
    {
      LaterOffsets(rels, from, pos, subOff);
      var rel := rels[pos];
      ghost var before := arena';
      arena' := arena' + [rel.(offset := rel.offset - subOff)];
      JustMoved(h, ps, rels, before, base, j, pos);
      MovedPush(h, ps, rels, before, arena', base, j, |arena|);
      pos := pos + 1;
    }
    ReachIs(rels, from, pos, subOff, end);
  }

  ghost predicate AllBelow(rels: seq<Reloc>, from: nat, pos: nat, end: nat)
    requires pos <= |rels|
  {
    forall k: nat :: from <= k < pos ==> OffsetOf(rels[k]) < end
  }

  /** The relocation just appended, its offset rebased, was moved. */
  lemma JustMoved(h: Header, ps: seq<Piece>, rels: seq<Reloc>, arena: seq<Reloc>, base: nat, j: nat, pos: nat)
    requires Tiles(h, ps) && j < |ps| && pos < |rels| && |arena| == base + pos
    requires SubOff(h, ps, j) <= rels[pos].offset < SubOff(h, ps, j) + ps[j].size
    ensures IsMoved(h, ps, rels, arena + [rels[pos].(offset := rels[pos].offset - SubOff(h, ps, j))], base, j, |arena|)
  {
  }

  lemma MovedPush(
    h: Header, ps: seq<Piece>, rels: seq<Reloc>, arena: seq<Reloc>, arena': seq<Reloc>, base: nat, j: nat,
    start: nat)
    requires Tiles(h, ps) && start <= |arena| && arena <= arena' && |arena'| == |arena| + 1
    requires RunMoved(h, ps, rels, arena, base, j, Run(start, |arena| - start))
    requires IsMoved(h, ps, rels, arena', base, j, |arena|)
    ensures RunMoved(h, ps, rels, arena', base, j, Run(start, |arena'| - start))
  {
    forall k: nat | start <= k < |arena'| ensures IsMoved(h, ps, rels, arena', base, j, k) {
      if k < |arena| {
        assert IsMoved(h, ps, rels, arena, base, j, k);
        StillMoved(h, ps, rels, arena, arena', base, j, k);
      }
    }
  }

  lemma StartOfFirst(h: Header, ps: seq<Piece>)
    requires Tiles(h, ps)
    ensures SubOff(h, ps, 0) == 0
  {
  }

  lemma NextSubOff(h: Header, ps: seq<Piece>, j: nat)
    requires Tiles(h, ps) && j < |ps|
    ensures SubOff(h, ps, j) + ps[j].size == if j + 1 < |ps| then SubOff(h, ps, j + 1) else h.size
  {
  }

  lemma LaterOffsets(rels: seq<Reloc>, from: nat, pos: nat, x: nat)
    requires Sorted(rels, OffsetOf) && from == Reach(rels, OffsetOf, x) && from <= pos < |rels|
    ensures rels[pos].offset >= x
  {
    if from < pos {
      assert OffsetOf(rels[from]) <= OffsetOf(rels[pos]);
    }
  }

  lemma ReachIs(rels: seq<Reloc>, from: nat, pos: nat, x: nat, end: nat)
    requires Sorted(rels, OffsetOf) && from == Reach(rels, OffsetOf, x) && from <= pos <= |rels| && x <= end
    requires AllBelow(rels, from, pos, end) && (pos < |rels| ==> rels[pos].offset >= end)
    ensures pos == Reach(rels, OffsetOf, end)
  {
    var r := Reach(rels, OffsetOf, end);
    assert pos < r ==> OffsetOf(rels[pos]) < end;
    assert forall k :: 0 <= k < from ==> OffsetOf(rels[k]) < x;
  }

  lemma HandedPush(h: Header, ps: seq<Piece>, rels: seq<Reloc>, arena: seq<Reloc>, arena': seq<Reloc>, base: nat,
                   runs: seq<Run>, r: Run)
    requires Tiles(h, ps) && Handed(h, ps, rels, arena, base, runs) && |runs| < |ps|
    requires arena <= arena' && r == Run(|arena|, |arena'| - |arena|)
    requires RunMoved(h, ps, rels, arena', base, |runs|, r)
    ensures Handed(h, ps, rels, arena', base, runs + [r])
  {
    forall j: nat | j < |runs| ensures RunMoved(h, ps, rels, arena', base, j, runs[j]) {
      assert RunMoved(h, ps, rels, arena, base, j, runs[j]);
      forall k: nat | runs[j].start <= k < runs[j].start + runs[j].n ensures IsMoved(h, ps, rels, arena', base, j, k) {
        StillMoved(h, ps, rels, arena, arena', base, j, k);
      }
    }
  }

  lemma StillMoved(
    h: Header, ps: seq<Piece>, rels: seq<Reloc>, arena: seq<Reloc>, arena': seq<Reloc>, base: nat, j: nat, k: nat)
    requires Tiles(h, ps) && arena <= arena' && IsMoved(h, ps, rels, arena, base, j, k)
    ensures IsMoved(h, ps, rels, arena', base, j, k)
  {
    assert arena'[k] == arena[k];
  }

  lemma {:induction false} RunsInOrder(runs: seq<Run>, base: nat, end: nat, i: nat, j: nat)
    requires InLine(runs, base, end) && i < j < |runs|
    ensures base <= runs[i].start + runs[i].n <= runs[j].start
    decreases j
  {
    assert runs[j - 1].start + runs[j - 1].n == runs[j].start;
    if i < j - 1 {
      RunsInOrder(runs, base, end, i, j - 1);
    } else if i > 0 {
      RunsInOrder(runs, base, end, 0, i);
    }
  }

  /** Each relocation handed out is in exactly one run. */
  lemma InOneRun(runs: seq<Run>, base: nat, end: nat, k: nat) returns (j: nat)
    requires InLine(runs, base, end) && base <= k < end
    ensures j < |runs| && runs[j].start <= k < runs[j].start + runs[j].n
    ensures forall i: nat :: i < |runs| && runs[i].start <= k < runs[i].start + runs[i].n ==> i == j
  {
    j := 0;
    while k >= runs[j].start + runs[j].n
      invariant j < |runs| && runs[j].start <= k
      decreases |runs| - j
    {
      j := j + 1;
    }
    forall i: nat | i < |runs| && runs[i].start <= k < runs[i].start + runs[i].n ensures i == j {
      if i < j {
        RunsInOrder(runs, base, end, i, j);
      } else if j < i {
        RunsInOrder(runs, base, end, j, i);
      }
    }
  }

  // ---- Pairs ----

  /** A SUBTRACTOR and its UNSIGNED, neighbours at one offset, are neighbours after the
      sort, in the same order. */
  lemma PairStaysTogether(rels: seq<Reloc>, i: nat) returns (p: nat)
    requires i + 1 < |rels| && rels[i].offset == rels[i + 1].offset
    ensures var s := SortBy(rels, OffsetOf); p + 1 < |s| && s[p] == rels[i] && s[p + 1] == rels[i + 1]
  {
    p := PairStays(rels, OffsetOf, i);
  }

  /** And they go to one subsection's run. */
  lemma PairInOneRun(h: Header, ps: seq<Piece>, rels: seq<Reloc>, arena: seq<Reloc>, base: nat, runs: seq<Run>, p: nat,
                     i: nat, j: nat)
    requires Tiles(h, ps) && Handed(h, ps, rels, arena, base, runs) && p + 1 < |rels|
    requires rels[p].offset == rels[p + 1].offset
    requires i < |runs| && runs[i].start <= base + p < runs[i].start + runs[i].n
    requires j < |runs| && runs[j].start <= base + p + 1 < runs[j].start + runs[j].n
    ensures i == j
  {
    assert RunMoved(h, ps, rels, arena, base, i, runs[i]) && RunMoved(h, ps, rels, arena, base, j, runs[j]);
    assert IsMoved(h, ps, rels, arena, base, i, base + p) && IsMoved(h, ps, rels, arena, base, j, base + p + 1);
    if i < j {
      TilesInOrder(h, ps, i, j);
    } else if j < i {
      TilesInOrder(h, ps, j, i);
    }
  }

  // ---- One section ----

  /** A section's subsections as initialize_sections lays them out. */
  ghost predicate Laid(sect: Sect) { Tiles(sect.h, sect.ps) && sect.h.addr + sect.h.size < WORD }

  /** A section-relative target names one of the object's sections. */
  predicate NamesSection(r: Reloc, sects: seq<Sect>) { r.target.Section? ==> r.target.i < |sects| }

  predicate IsDiscarded(r: Reloc, sects: seq<Sect>)
    requires NamesSection(r, sects)
  {
    r.target.Section? && sects[r.target.i].ps == []
  }

  /** r' is r: with the same symbol and addend, or with the address it gave by section
      and addend given by a subsection of that section, the one that holds it. */
  ghost predicate IsRebased(sects: seq<Sect>, r: Reloc, r': Reloc)
    requires NamesSection(r, sects)
  {
    && r'.offset == r.offset && r'.body == r.body
    && match r.target
       case Sym(_) => r' == r
       case Section(s) => exists j: nat :: IsIn(sects[s], r.addend, r', j)
  }

  ghost predicate IsIn(sect: Sect, addend: int, r': Reloc, j: nat) {
    && r'.target == Section(sect.first + j)
    && TargetIs(sect.h, sect.ps, (sect.h.addr + addend) % WORD, j, r'.addend)
  }

  lemma RebasedIs(r: Reloc, sects: seq<Sect>)
    requires NamesSection(r, sects) && !IsDiscarded(r, sects)
    requires r.target.Section? ==> Laid(sects[r.target.i])
    ensures IsRebased(sects, r, Rebased(r, sects))
  {
    match r.target
    case Sym(_) =>
    case Section(s) =>
      SectionTargetKeepsAddress(sects[s].h, sects[s].ps, r.addend);
      assert IsIn(sects[s], r.addend, Rebased(r, sects), SectionTarget(sects[s].h, sects[s].ps, r.addend).0);
  }

  /** The relocations with their section-relative targets rebased. */
  ghost predicate AllRebased(rels: seq<Reloc>, sects: seq<Sect>, rebased: seq<Reloc>) {
    |rebased| == |rels| && forall k: nat :: k < |rels| ==>
      NamesSection(rels[k], sects) && IsRebased(sects, rels[k], rebased[k])
  }

  /** What section_target demands of the object: ordinals of its sections, laid out. */
  ghost predicate Readable(rels: seq<Reloc>, sects: seq<Sect>) {
    && (forall k: nat :: k < |rels| ==> NamesSection(rels[k], sects))
    && forall s: nat :: s < |sects| && sects[s].ps != [] ==> Laid(sects[s])
  }

  ghost predicate SomeDiscarded(rels: seq<Reloc>, sects: seq<Sect>)
    requires Readable(rels, sects)
  {
    exists k: nat :: k < |rels| && IsDiscarded(rels[k], sects)
  }

  /** It fails the link on a target in a discarded section. */
  method RebaseTargets(rels: seq<Reloc>, sects: seq<Sect>) returns (rebased: Option<seq<Reloc>>)
    requires Readable(rels, sects)
    ensures rebased.None? <==> SomeDiscarded(rels, sects)
    ensures rebased.Some? ==> AllRebased(rels, sects, rebased.value)
  {
    var out := [];
    for k := 0 to |rels|
      invariant |out| == k && forall l: nat :: l < k ==> !IsDiscarded(rels[l], sects)
      invariant forall l: nat :: l < k ==> IsRebased(sects, rels[l], out[l])
    {
      if IsDiscarded(rels[k], sects) {
        return None;
      }
      RebasedIs(rels[k], sects);
      out := out + [Rebased(rels[k], sects)];
    }
    rebased := Some(out);
  }

  lemma SortReadable(rels: seq<Reloc>, sects: seq<Sect>)
    requires Readable(rels, sects)
    ensures Readable(SortBy(rels, OffsetOf), sects) && Sorted(SortBy(rels, OffsetOf), OffsetOf)
    ensures SomeDiscarded(SortBy(rels, OffsetOf), sects) <==> SomeDiscarded(rels, sects)
  {
    var s := SortBy(rels, OffsetOf);
    SortMembers(rels, OffsetOf);
    SortPermutes(rels, OffsetOf);
    forall k: nat | k < |s| ensures NamesSection(s[k], sects) {
      assert s[k] in rels;
    }
    if k: nat :| k < |rels| && IsDiscarded(rels[k], sects) {
      assert rels[k] in multiset(s);
      var l: nat :| l < |s| && s[l] == rels[k];
    }
    if k: nat :| k < |s| && IsDiscarded(s[k], sects) {
      assert s[k] in rels;
    }
  }

  /** read_relocations of one section: sorted, their section-relative targets rebased,
      and handed out; unless one's target is in a discarded section. */
  method ReadRelocations(sect: Sect, rels: seq<Reloc>, sects: seq<Sect>, arena: seq<Reloc>)
    returns (ok: bool, arena': seq<Reloc>, runs: seq<Run>, ghost sorted: seq<Reloc>)
    requires Tiles(sect.h, sect.ps) && Readable(rels, sects)
    ensures !ok <==> SomeDiscarded(rels, sects)
    ensures ok ==> AllRebased(SortBy(rels, OffsetOf), sects, sorted)
    ensures ok ==> arena <= arena' && |arena'| == |arena| + Reach(sorted, OffsetOf, sect.h.size)
    ensures ok ==> |runs| == |sect.ps| && Handed(sect.h, sect.ps, sorted, arena', |arena|, runs)
  {
    var s := SortBy(rels, OffsetOf);
    SortReadable(rels, sects);
    var rebased := RebaseTargets(s, sects);
    if rebased.None? {
      return false, arena, [], [];
    }
    StillSorted(s, rebased.value);
    arena', runs := HandOut(sect.h, sect.ps, rebased.value, arena);
    ok, sorted := true, rebased.value;
  }

  lemma StillSorted(rels: seq<Reloc>, rebased: seq<Reloc>)
    requires Sorted(rels, OffsetOf) && |rebased| == |rels|
    requires forall k :: 0 <= k < |rels| ==> rebased[k].offset == rels[k].offset
    ensures Sorted(rebased, OffsetOf)
  {
    forall i, j | 0 <= i < j < |rebased| ensures OffsetOf(rebased[i]) <= OffsetOf(rebased[j]) {
      assert OffsetOf(rels[i]) <= OffsetOf(rels[j]);
    }
  }
}
