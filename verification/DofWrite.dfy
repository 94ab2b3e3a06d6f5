/** A DOF laid out (dtrace.rs, lay_out_dof): its header, section headers, data and string
    table, and each read back. */
module DofWrite {
  import opened Sequences
  import opened Alignment
  import opened DofBytes
  import opened DofTables
  import opened DofLayout

  // ---- The file ----

  /** The magic number; then LP64, little-endian, DOF version 3, DIF version 2, and 8
      integer and 8 tuple registers. */
  function Ident(): seq<byte> { [0x7f, 0x44, 0x4f, 0x46, 2, 1, 3, 2, 8, 8, 0, 0, 0, 0, 0, 0] }

  function HeadBytes(nsec: nat, total: nat): (b: seq<byte>)
    ensures |b| == HDR_SIZE
  {
    Ident() + Le(0, 4) + Le(HDR_SIZE, 4) + Le(SEC_SIZE, 4) + Le(nsec, 4)
    + Le(HDR_SIZE, 8) + Le(total, 8) + Le(total, 8) + Le(0, 8)
  }

  function HeaderBlocks(hs: seq<Header>): (r: seq<seq<byte>>)
    ensures |r| == |hs| && forall j :: 0 <= j < |r| ==> r[j] == HeaderBytes(hs[j]) && |r[j]| == SEC_SIZE
  {
    seq(|hs|, j requires 0 <= j < |hs| => HeaderBytes(hs[j]))
  }

  /** Blocks of one size lie at its multiples. */
  lemma {:induction false} BlockAt(blocks: seq<seq<byte>>, j: nat)
    requires forall k :: 0 <= k < |blocks| ==> |blocks[k]| == SEC_SIZE
    ensures |Flat(blocks)| == SEC_SIZE * |blocks|
    ensures j < |blocks| ==> HoldsAt(Flat(blocks), SEC_SIZE * j, blocks[j])
  {
    if blocks != [] {
      var n := |blocks| - 1;
      BlockAt(blocks[..n], j);
      if j < n {
        HoldsStill(Flat(blocks[..n]), Flat(blocks), SEC_SIZE * j, blocks[j]);
      }
    }
  }

  /** The parts of a DOF: its header and section headers, its data, its string table. */
  datatype Parts = Parts(head: seq<byte>, data: seq<byte>, strtab: seq<byte>) {
    function Bytes(): seq<byte> { head + data + strtab }
  }

  /** The string table's header comes first; `hs` are the sections'. */
  function AllHeaders(p: Parts, hs: seq<Header>): seq<Header> {
    [Header(STRTAB, 1, 1, 0, |p.head| + |p.data|, |p.strtab|)] + hs
  }

  predicate HeaderIn(p: Parts, hs: seq<Header>, j: nat) {
    j <= |hs| && HoldsAt(p.head, HDR_SIZE + SEC_SIZE * j, HeaderBytes(AllHeaders(p, hs)[j]))
  }

  /** Every section's data is in place, aligned and after the one before, and every
      header is there. */
  ghost predicate LaidOut(p: Parts, sections: seq<Section>, hs: seq<Header>) {
    && |p.head| == DataStart(|sections|) && Placed(p.data, |p.head|, sections, hs)
    && forall j: nat :: j <= |hs| ==> HeaderIn(p, hs, j)
  }

  /** The file header is first, with the number of sections and the file's size. */
  ghost predicate Headed(p: Parts, nsec: nat) { HoldsAt(p.head, 0, HeadBytes(nsec, |p.Bytes()|)) }

  /** lay_out_dof. */
  method LayOutDof(sections: seq<Section>, strtab: seq<byte>) returns (p: Parts, hs: seq<Header>)
    requires Alignable(sections)
    ensures LaidOut(p, sections, hs) && Headed(p, |sections| + 1) && p.strtab == strtab && |p.data| <= Room(sections)
  {
    var data;
    data, hs := PlaceSections(sections);
    var total := DataStart(|sections|) + |data| + |strtab|;
    p := Assemble(HeadBytes(|sections| + 1, total), sections, data, hs, strtab);
    HeadedBy(p, |sections| + 1, total);
  }

  method Assemble(first: seq<byte>, ghost sections: seq<Section>, data: seq<byte>, hs: seq<Header>, strtab: seq<byte>)
    returns (p: Parts)
    requires |first| == HDR_SIZE && Placed(data, DataStart(|sections|), sections, hs)
    ensures LaidOut(p, sections, hs) && first <= p.head && |p.head| == DataStart(|sections|)
    ensures p.data == data && p.strtab == strtab
  {
    var headers := [Header(STRTAB, 1, 1, 0, DataStart(|hs|) + |data|, |strtab|)] + hs;
    p := Parts(first + Flat(HeaderBlocks(headers)), data, strtab);
    Assembled(p, sections, hs, first, headers);
  }

  lemma HeadLength(first: seq<byte>, headers: seq<Header>)
    requires |first| == HDR_SIZE
    ensures |first + Flat(HeaderBlocks(headers))| == HDR_SIZE + SEC_SIZE * |headers|
  {
    BlockAt(HeaderBlocks(headers), 0);
  }

  lemma Assembled(p: Parts, sections: seq<Section>, hs: seq<Header>, first: seq<byte>, headers: seq<Header>)
    requires |first| == HDR_SIZE && Placed(p.data, DataStart(|sections|), sections, hs)
    requires headers == [Header(STRTAB, 1, 1, 0, DataStart(|sections|) + |p.data|, |p.strtab|)] + hs
    requires p.head == first + Flat(HeaderBlocks(headers))
    ensures LaidOut(p, sections, hs) && |p.head| == DataStart(|sections|)
  {
    HeadLength(first, headers);
    assert headers == AllHeaders(p, hs);
    AllIn(p, hs, first);
  }

  lemma HeadedBy(p: Parts, nsec: nat, total: nat)
    requires HeadBytes(nsec, total) <= p.head && total == |p.Bytes()|
    ensures Headed(p, nsec)
  {
  }

  lemma AllIn(p: Parts, hs: seq<Header>, first: seq<byte>)
    requires p.head == first + Flat(HeaderBlocks(AllHeaders(p, hs))) && |first| == HDR_SIZE
    ensures forall j: nat :: j <= |hs| ==> HeaderIn(p, hs, j)
  {
    forall j: nat | j <= |hs| ensures HeaderIn(p, hs, j) {
      BlockAfter(first, HeaderBlocks(AllHeaders(p, hs)), j);
    }
  }

  lemma BlockAfter(first: seq<byte>, blocks: seq<seq<byte>>, j: nat)
    requires j < |blocks| && forall k :: 0 <= k < |blocks| ==> |blocks[k]| == SEC_SIZE
    ensures HoldsAt(first + Flat(blocks), |first| + SEC_SIZE * j, blocks[j])
  {
    BlockAt(blocks, j);
    Shifted(first, Flat(blocks), SEC_SIZE * j, blocks[j]);
  }

  lemma Shifted(a: seq<byte>, b: seq<byte>, off: nat, bytes: seq<byte>)
    requires HoldsAt(b, off, bytes)
    ensures HoldsAt(a + b, |a| + off, bytes)
  {
    assert (a + b)[|a| + off..|a| + off + |bytes|] == b[off..off + |bytes|];
  }

  // ---- Reading the header and sections ----

  /** A file header's fields: the identification, the sizes of the header and of a section
      header, the number of sections, where their headers start, and the size to load and
      of the whole file. */
  datatype FileHead = FileHead(
    ident: seq<byte>, flags: nat, hdrsize: nat, secsize: nat, nsec: nat, secoff: nat,
    loadsize: nat, filesize: nat, pad: nat)

  function ReadHead(out: seq<byte>): FileHead
    requires HDR_SIZE <= |out|
  {
    FileHead(out[..16], U32(out, 16), U32(out, 20), U32(out, 24), U32(out, 28), Num(out[32..40]), Num(out[40..48]),
             Num(out[48..56]), Num(out[56..64]))
  }

  lemma HeadParts(nsec: nat, total: nat)
    ensures var b := HeadBytes(nsec, total);
            && b[..16] == Ident() && b[16..20] == Le(0, 4) && b[20..24] == Le(HDR_SIZE, 4)
            && b[24..28] == Le(SEC_SIZE, 4)
            && b[28..32] == Le(nsec, 4) && b[32..40] == Le(HDR_SIZE, 8) && b[40..48] == Le(total, 8)
            && b[48..56] == Le(total, 8) && b[56..64] == Le(0, 8)
  {
    var b := HeadBytes(nsec, total);
    var p1 := Ident();
    var p2 := p1 + Le(0, 4);
    var p3 := p2 + Le(HDR_SIZE, 4);
    var p4 := p3 + Le(SEC_SIZE, 4);
    var p5 := p4 + Le(nsec, 4);
    var p6 := p5 + Le(HDR_SIZE, 8);
    var p7 := p6 + Le(total, 8);
    var p8 := p7 + Le(total, 8);
    FieldAt(p8, Le(0, 8), b);
    FieldAt(p7, Le(total, 8), b);
    FieldAt(p6, Le(total, 8), b);
    FieldAt(p5, Le(HDR_SIZE, 8), b);
    FieldAt(p4, Le(nsec, 4), b);
    FieldAt(p3, Le(SEC_SIZE, 4), b);
    FieldAt(p2, Le(HDR_SIZE, 4), b);
    FieldAt(p1, Le(0, 4), b);
  }

  /** The header reads back, with the file's whole size. */
  lemma HeadReadsBack(p: Parts, nsec: nat)
    requires Headed(p, nsec) && nsec < 0x1_0000_0000 && |p.Bytes()| < 0x1_0000_0000
    ensures var n := |p.Bytes()|;
            HDR_SIZE <= n && ReadHead(p.Bytes()) == FileHead(Ident(), 0, HDR_SIZE, SEC_SIZE, nsec, HDR_SIZE, n, n, 0)
  {
    HeadSlice(p, 0, HeadBytes(nsec, |p.Bytes()|));
    HeadAgrees(p.Bytes(), nsec, |p.Bytes()|);
  }

  lemma HeadAgrees(out: seq<byte>, nsec: nat, total: nat)
    requires HoldsAt(out, 0, HeadBytes(nsec, total)) && nsec < 0x1_0000_0000 && total < 0x1_0000_0000
    ensures ReadHead(out) == FileHead(Ident(), 0, HDR_SIZE, SEC_SIZE, nsec, HDR_SIZE, total, total, 0)
  {
    HeadParts(nsec, total);
    SameHead(out, HeadBytes(nsec, total));
    PowersOf256();
    LeNum(0, 4);
    LeNum(HDR_SIZE, 4);
    LeNum(SEC_SIZE, 4);
    LeNum(nsec, 4);
    LeNum(HDR_SIZE, 8);
    LeNum(total, 8);
    LeNum(0, 8);
  }

  lemma SameHead(out: seq<byte>, b: seq<byte>)
    requires HoldsAt(out, 0, b) && |b| == HDR_SIZE
    ensures ReadHead(out) == ReadHead(b)
  {
    assert forall i, j :: 0 <= i <= j <= HDR_SIZE ==> out[i..j] == b[i..j];
  }

  /** The header of section j, as it is in the file. */
  function HeaderAt(out: seq<byte>, j: nat): Header {
    var at := HDR_SIZE + SEC_SIZE * j;
    if at + SEC_SIZE > |out| then Header(0, 0, 0, 0, 0, 0) else ReadHeader(out[at..at + SEC_SIZE])
  }

  /** The data of section j, as its header names it. */
  function SectionData(out: seq<byte>, j: nat): seq<byte> { Slice(out, HeaderAt(out, j).off, HeaderAt(out, j).size) }

  predicate SmallSections(sections: seq<Section>, p: Parts) {
    |p.Bytes()| < 0x1_0000_0000 && forall s :: s in sections ==> s.ty < 0x100 && s.p2align <= 5 && s.entsize < 0x100
  }

  lemma HeaderFits(h: Header)
    requires h.ty < 0x100 && h.align < 0x100 && h.flags < 0x100 && h.entsize < 0x100
    requires h.off < 0x1_0000_0000 && h.size < 0x1_0000_0000
    ensures FitsHeader(h)
  {
    PowersOf256();
    assert Pow256(8) == 256 * (256 * (256 * (256 * Pow256(4))));
  }

  /** A section by a header in the file. */
  lemma ReadByHeader(p: Parts, j: nat, h: Header)
    requires HoldsAt(p.head, HDR_SIZE + SEC_SIZE * j, HeaderBytes(h)) && FitsHeader(h)
    ensures HeaderAt(p.Bytes(), j) == h && SectionData(p.Bytes(), j) == Slice(p.Bytes(), h.off, h.size)
  {
    ReadInHead(p, HDR_SIZE + SEC_SIZE * j, h);
  }

  lemma ReadInHead(p: Parts, at: nat, h: Header)
    requires HoldsAt(p.head, at, HeaderBytes(h)) && FitsHeader(h)
    ensures at + SEC_SIZE <= |p.Bytes()| && ReadHeader(p.Bytes()[at..at + SEC_SIZE]) == h
  {
    HeadSlice(p, at, HeaderBytes(h));
    ReadAt(p.Bytes(), at, h);
  }

  lemma ReadAt(out: seq<byte>, at: nat, h: Header)
    requires HoldsAt(out, at, HeaderBytes(h)) && FitsHeader(h)
    ensures at + SEC_SIZE <= |out| && ReadHeader(out[at..at + SEC_SIZE]) == h
  {
    HeaderReadsBack(h);
  }

  lemma HeadSlice(p: Parts, at: nat, bytes: seq<byte>)
    requires HoldsAt(p.head, at, bytes)
    ensures HoldsAt(p.Bytes(), at, bytes)
  {
    HoldsStill(p.head, p.head + p.data, at, bytes);
    HoldsStill(p.head + p.data, p.Bytes(), at, bytes);
  }

  /** Section 0 reads back as the string table. */
  lemma StringTableReadsBack(p: Parts, sections: seq<Section>, hs: seq<Header>)
    requires LaidOut(p, sections, hs) && SmallSections(sections, p)
    ensures SectionData(p.Bytes(), 0) == p.strtab && HeaderAt(p.Bytes(), 0) == AllHeaders(p, hs)[0]
  {
    assert HeaderIn(p, hs, 0);
    HeaderFits(AllHeaders(p, hs)[0]);
    ReadByHeader(p, 0, AllHeaders(p, hs)[0]);
  }

  /** Section j + 1 reads back as the j-th given, at an aligned offset before the string
      table. */
  lemma SectionReadsBack(p: Parts, sections: seq<Section>, hs: seq<Header>, j: nat)
    requires LaidOut(p, sections, hs) && SmallSections(sections, p) && j < |sections|
    ensures SectionData(p.Bytes(), j + 1) == sections[j].data && Low(hs[j].off, sections[j].p2align) == 0
    ensures hs[j].off + hs[j].size <= |p.Bytes()| - |p.strtab| && HeaderAt(p.Bytes(), j + 1) == hs[j]
  {
    assert HeaderIn(p, hs, j + 1);
    InPlace(p.data, |p.head|, sections, hs, j);
    SmallPow2(sections[j].p2align);
    HeaderFits(hs[j]);
    PlacedReadsBack(p, sections[j].data, hs, j);
  }

  lemma InPlace(data: seq<byte>, start: nat, sections: seq<Section>, hs: seq<Header>, j: nat)
    requires Placed(data, start, sections, hs) && j < |sections|
    ensures PlacedAt(data, start, sections[j], hs[j], EndOfPrevious(start, hs, j), start + |data|)
    ensures sections[j] in sections
  {
    assert PlacedIn(data, start, sections, hs, j);
  }

  lemma PlacedReadsBack(p: Parts, bytes: seq<byte>, hs: seq<Header>, j: nat)
    requires j < |hs| && HeaderIn(p, hs, j + 1) && FitsHeader(hs[j]) && hs[j].size == |bytes| && |p.head| <= hs[j].off
    requires HoldsAt(p.data, hs[j].off - |p.head|, bytes)
    ensures SectionData(p.Bytes(), j + 1) == bytes && HeaderAt(p.Bytes(), j + 1) == hs[j]
  {
    assert AllHeaders(p, hs)[j + 1] == hs[j];
    ReadByHeader(p, j + 1, hs[j]);
    InData(p, hs[j].off - |p.head|, bytes);
  }

  lemma InData(p: Parts, off: nat, bytes: seq<byte>)
    requires HoldsAt(p.data, off, bytes)
    ensures Slice(p.Bytes(), |p.head| + off, |bytes|) == bytes
  {
    Shifted(p.head, p.data, off, bytes);
    HoldsStill(p.head + p.data, p.Bytes(), |p.head| + off, bytes);
  }

  ghost predicate Consecutive(hs: seq<Header>) {
    forall j :: 1 <= j < |hs| ==> hs[j - 1].off + hs[j - 1].size <= hs[j].off
  }

  lemma AfterPrevious(data: seq<byte>, start: nat, sections: seq<Section>, hs: seq<Header>)
    requires Placed(data, start, sections, hs)
    ensures Consecutive(hs)
  {
    forall j: nat | 1 <= j < |hs| ensures hs[j - 1].off + hs[j - 1].size <= hs[j].off {
      InPlace(data, start, sections, hs, j);
    }
  }

  lemma {:induction false} InOrder(hs: seq<Header>, i: nat, j: nat)
    requires Consecutive(hs) && i < j < |hs|
    ensures hs[i].off + hs[i].size <= hs[j].off
    decreases j
  {
    if i < j - 1 {
      InOrder(hs, i, j - 1);
    }
  }

  /** Data areas are disjoint and in order. */
  lemma SectionsInOrder(p: Parts, sections: seq<Section>, hs: seq<Header>, i: nat, j: nat)
    requires LaidOut(p, sections, hs) && i < j < |hs|
    ensures hs[i].off + hs[i].size <= hs[j].off
  {
    AfterPrevious(p.data, |p.head|, sections, hs);
    InOrder(hs, i, j);
  }
}
