/** The layout of a DOF (dtrace.rs, lay_out_dof and write_dof): the header, the section
    headers, the sections' data, the string table last; and each site's slot. */
module DofLayout {
  import opened DofBytes
  import opened Sequences
  import opened Alignment

  const HDR_SIZE: nat := 64
  const SEC_SIZE: nat := 32

  const STRTAB: nat := 8
  const RELTAB: nat := 10
  const URELHDR: nat := 12
  const PROVIDER: nat := 15
  const PROBES: nat := 16
  const PRARGS: nat := 17
  const PROFFS: nat := 18
  const PRENOFFS: nat := 26

  /** A section's type, the logarithm of its alignment, its entries' size and its data. */
  datatype Section = Section(ty: nat, p2align: nat, entsize: nat, data: seq<byte>)

  /** A section's header; flags 1 are of one to load. */
  datatype Header = Header(ty: nat, align: nat, flags: nat, entsize: nat, off: nat, size: nat)

  function HeaderBytes(h: Header): (b: seq<byte>)
    ensures |b| == SEC_SIZE
  {
    Le(h.ty, 4) + Le(h.align, 4) + Le(h.flags, 4) + Le(h.entsize, 4) + Le(h.off, 8) + Le(h.size, 8)
  }

  function ReadHeader(b: seq<byte>): Header
    requires |b| == SEC_SIZE
  {
    Header(Num(b[0..4]), Num(b[4..8]), Num(b[8..12]), Num(b[12..16]), Num(b[16..24]), Num(b[24..32]))
  }

  predicate FitsHeader(h: Header) {
    && h.ty < Pow256(4) && h.align < Pow256(4) && h.flags < Pow256(4) && h.entsize < Pow256(4)
    && h.off < Pow256(8) && h.size < Pow256(8)
  }

  lemma HeaderReadsBack(h: Header)
    ensures ReadHeader(HeaderBytes(h)) == h <==> FitsHeader(h)
  {
    var b := HeaderBytes(h);
    var p1 := Le(h.ty, 4);
    var p2 := p1 + Le(h.align, 4);
    var p3 := p2 + Le(h.flags, 4);
    var p4 := p3 + Le(h.entsize, 4);
    var p5 := p4 + Le(h.off, 8);
    FieldAt(p5, Le(h.size, 8), b);
    FieldAt(p4, Le(h.off, 8), b);
    FieldAt(p3, Le(h.entsize, 4), b);
    FieldAt(p2, Le(h.flags, 4), b);
    FieldAt(p1, Le(h.align, 4), b);
    FieldAt([], p1, b);
    LeNum(h.ty, 4);
    LeNum(h.align, 4);
    LeNum(h.flags, 4);
    LeNum(h.entsize, 4);
    LeNum(h.off, 8);
    LeNum(h.size, 8);
  }

  /** Where the data of n sections and their headers start. */
  function DataStart(n: nat): nat { HDR_SIZE + SEC_SIZE * (n + 1) }

  /** A section's data: in place, aligned, inside lo..hi. */
  predicate PlacedAt(data: seq<byte>, start: nat, s: Section, h: Header, lo: nat, hi: nat) {
    && h == HeaderOf(s, h.off)
    && Low(h.off, s.p2align) == 0 && start <= h.off && lo <= h.off && h.off + h.size <= hi
    && HoldsAt(data, h.off - start, s.data)
  }

  /** The first sections' data: each in place, one after another, up to the data's
      end. */
  ghost predicate Placed(data: seq<byte>, start: nat, sections: seq<Section>, headers: seq<Header>) {
    && |headers| == |sections|
    && forall i: nat :: i < |sections| ==> PlacedIn(data, start, sections, headers, i)
  }

  predicate PlacedIn(data: seq<byte>, start: nat, sections: seq<Section>, headers: seq<Header>, i: nat)
    requires |headers| == |sections| && i < |sections|
  {
    PlacedAt(data, start, sections[i], headers[i], EndOfPrevious(start, headers, i), start + |data|)
  }

  function EndOfPrevious(start: nat, headers: seq<Header>, i: nat): nat
    requires i <= |headers|
  {
    if i == 0 then start else headers[i - 1].off + headers[i - 1].size
  }

  ghost predicate Alignable(sections: seq<Section>) {
    forall i :: 0 <= i < |sections| ==> sections[i].p2align <= 5
  }

  function Zeros(n: nat): (r: seq<byte>)
    ensures |r| == n
  {
    if n == 0 then [] else Zeros(n - 1) + [0]
  }

  /** The data start at a multiple of 32. */
  lemma StartAligned(n: nat, off: nat, p: nat)
    requires p <= 5 && Low(off, p) == 0
    ensures Low(DataStart(n) + off, p) == 0
  {
    LowOf32(n + 3);
    LowOfSum(32 * (n + 3), off, p, 5);
  }

  lemma {:induction false} LowOf32(m: nat)
    ensures Low(32 * m, 5) == 0
  {
    if m == 0 {
      NoLow(5);
    } else {
      LowOf32(m - 1);
      OneOf32();
      LowOfSum(32 * (m - 1), 32, 5, 5);
    }
  }

  lemma OneOf32()
    ensures Low(32, 5) == 0
  {
    assert Low(8, 3) == 0;
  }

  /** Adding a multiple of 2^bits to one of 2^p gives one of 2^p. */
  lemma {:induction false} LowOfSum(x: nat, off: nat, p: nat, bits: nat)
    requires p <= bits && Low(x, bits) == 0 && Low(off, p) == 0
    ensures Low(x + off, p) == 0
  {
    if p > 0 {
      LowOfSum(x / 2, off / 2, p - 1, bits - 1);
      assert (x + off) / 2 == x / 2 + off / 2 && (x + off) % 2 == 0;
    }
  }

  lemma StillPlaced(data: seq<byte>, data': seq<byte>, start: nat, s: Section, h: Header, lo: nat)
    requires PlacedAt(data, start, s, h, lo, start + |data|) && data <= data'
    ensures PlacedAt(data', start, s, h, lo, start + |data'|)
  {
    HoldsStill(data, data', h.off - start, s.data);
  }

  /** Room enough for the sections' data, each with its padding. */
  function Room(sections: seq<Section>): nat {
    if sections == [] then 0 else Room(sections[..|sections| - 1]) + 32 + |sections[|sections| - 1].data|
  }

  function HeaderOf(s: Section, off: nat): Header { Header(s.ty, Pow2(s.p2align), 1, s.entsize, off, |s.data|) }

  /** lay_out_dof, its loop over the sections. */
  method PlaceSections(sections: seq<Section>) returns (data: seq<byte>, headers: seq<Header>)
    requires Alignable(sections)
    ensures Placed(data, DataStart(|sections|), sections, headers) && |data| <= Room(sections)
  {
    data, headers := [], [];
    var start := DataStart(|sections|);
    for i := 0 to |sections|
      invariant Placed(data, start, sections[..i], headers) && |data| <= Room(sections[..i])
    {
      ghost var before, headers0 := data, headers;
      var s := sections[i];
      data := data + Zeros(Padding(|data|, s.p2align));
      var h := HeaderOf(s, start + |data|);
      headers := headers + [h];
      data := data + s.data;
      NextPlaced(before, data, |sections|, sections[..i], headers0, s, h);
      RoomNext(sections, i);
    }
    assert sections[..|sections|] == sections;
  }

  lemma RoomNext(sections: seq<Section>, i: nat)
    requires i < |sections|
    ensures sections[..i + 1] == sections[..i] + [sections[i]]
    ensures Room(sections[..i + 1]) == Room(sections[..i]) + 32 + |sections[i].data|
  {
    SliceNext(sections, i);
    assert sections[..i + 1][..i] == sections[..i];
  }

  lemma NextPlaced(
    data: seq<byte>, data': seq<byte>, n: nat, sections: seq<Section>, headers: seq<Header>, s: Section, h: Header)
    requires Placed(data, DataStart(n), sections, headers) && s.p2align <= 5
    requires data' == data + Zeros(Padding(|data|, s.p2align)) + s.data
    requires h == HeaderOf(s, DataStart(n) + |data| + Padding(|data|, s.p2align))
    ensures Placed(data', DataStart(n), sections + [s], headers + [h]) && |data'| <= |data| + 32 + |s.data|
  {
    AlignedAt(n, |data|, s.p2align);
    PaddingBelow(|data|, s.p2align);
    JustPlaced(data, Padding(|data|, s.p2align), DataStart(n), s, h);
    OneMorePlaced(data, data', DataStart(n), sections, headers, s, h);
  }

  lemma PaddingBelow(n: nat, p: nat)
    requires p <= 5
    ensures Padding(n, p) <= 32
  {
    AlignToIsLeast(n, p);
    SmallPow2(p);
  }

  lemma SmallPow2(p: nat)
    requires p <= 5
    ensures Pow2(p) <= 32
  {
    assert Pow2(5) == 2 * Pow2(4) == 4 * Pow2(3) == 8 * Pow2(2) == 16 * Pow2(1);
  }

  function Padding(n: nat, p: nat): nat {
    AlignToIsLeast(n, p);
    AlignTo(n, p) - n
  }

  lemma AlignedAt(n: nat, len: nat, p: nat)
    requires p <= 5
    ensures Low(DataStart(n) + len + Padding(len, p), p) == 0
  {
    var off := AlignTo(len, p);
    AlignToIsLeast(len, p);
    assert len + Padding(len, p) == off;
    StartAligned(n, off, p);
    assert DataStart(n) + len + Padding(len, p) == DataStart(n) + off;
  }

  lemma JustPlaced(before: seq<byte>, pad: nat, start: nat, s: Section, h: Header)
    requires h == HeaderOf(s, start + |before| + pad) && Low(h.off, s.p2align) == 0
    ensures var data := before + Zeros(pad) + s.data;
            before <= data && PlacedAt(data, start, s, h, start + |before|, start + |data|)
  {
    var data := before + Zeros(pad) + s.data;
    assert data[|before| + pad..|before| + pad + |s.data|] == s.data;
  }

  lemma OneMorePlaced(
    data: seq<byte>, data': seq<byte>, start: nat, sections: seq<Section>, headers: seq<Header>, s: Section, h: Header)
    requires Placed(data, start, sections, headers) && data <= data'
    requires PlacedAt(data', start, s, h, start + |data|, start + |data'|)
    ensures Placed(data', start, sections + [s], headers + [h])
  {
    var n, ss, hs := |sections|, sections + [s], headers + [h];
    forall i: nat | i <= n ensures PlacedIn(data', start, ss, hs, i) {
      if i < n {
        FrontPlaced(data, data', start, sections, headers, s, h, i);
      } else {
        LastEnds(data, start, sections, headers);
        assert EndOfPrevious(start, hs, n) == EndOfPrevious(start, headers, n);
      }
    }
  }

  lemma FrontPlaced(
    data: seq<byte>, data': seq<byte>, start: nat, sections: seq<Section>, headers: seq<Header>, s: Section, h: Header,
    i: nat)
    requires |headers| == |sections| && i < |sections| && PlacedIn(data, start, sections, headers, i) && data <= data'
    ensures PlacedIn(data', start, sections + [s], headers + [h], i)
  {
    StillPlaced(data, data', start, sections[i], headers[i], EndOfPrevious(start, headers, i));
    assert EndOfPrevious(start, headers + [h], i) == EndOfPrevious(start, headers, i);
  }

  /** The last section so far ends inside the data. */
  lemma LastEnds(data: seq<byte>, start: nat, sections: seq<Section>, headers: seq<Header>)
    requires Placed(data, start, sections, headers)
    ensures EndOfPrevious(start, headers, |headers|) <= start + |data|
  {
    if sections != [] {
      assert PlacedIn(data, start, sections, headers, |sections| - 1);
    }
  }
}
