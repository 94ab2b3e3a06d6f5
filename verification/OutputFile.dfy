/** How output_file.rs cuts a queued range: whole pages go to the writers in blocks,
    the partial pages at its ends wait until the writers are done. */
module OutputFile {
  const PAGE: nat := 0x4000
  const BLOCK: nat := 0x80_0000

  /** The bytes off..off + len. */
  datatype Range = Range(off: nat, len: nat)

  predicate Has(r: Range, i: nat) { r.off <= i < r.off + r.len }

  ghost predicate Disjoint(a: Range, b: Range) { forall i: nat :: !(Has(a, i) && Has(b, i)) }

  function NextMultiple(x: nat): nat { (x + PAGE - 1) / PAGE * PAGE }

  function Min(a: nat, b: nat): nat { if a < b then a else b }

  function Max(a: nat, b: nat): nat { if a < b then b else a }

  /** Where the whole pages of off..end start and end; both `end` if there are none. */
  function WholeStart(off: nat, end: nat): nat { Min(NextMultiple(off), end) }

  function WholeEnd(off: nat, end: nat): nat { Max(end / PAGE * PAGE, WholeStart(off, end)) }

  function EdgesOf(r: Range): seq<Range> {
    var end := r.off + r.len;
    var lo, hi := WholeStart(r.off, end), WholeEnd(r.off, end);
    (if r.off < lo then [Range(r.off, lo - r.off)] else []) + (if hi < end then [Range(hi, end - hi)] else [])
  }

  function BlocksFrom(pos: nat, hi: nat): seq<Range>
    decreases hi - pos
  {
    if pos >= hi then [] else
      var n := Min(BLOCK, hi - pos);
      [Range(pos, n)] + BlocksFrom(pos + n, hi)
  }

  function BlocksOf(r: Range): seq<Range> {
    var end := r.off + r.len;
    BlocksFrom(WholeStart(r.off, end), WholeEnd(r.off, end))
  }

  /** A write of whole pages only. */
  predicate Whole(b: Range) { b.len > 0 && b.off % PAGE == 0 && b.len % PAGE == 0 }

  /** A write inside one page, which it does not fill. */
  predicate Partial(e: Range) {
    0 < e.len < PAGE && e.off / PAGE == (e.off + e.len - 1) / PAGE
  }

  function End(r: Range): nat { r.off + r.len }

  /** Whole pages, inside pos..hi, one after another. */
  ghost predicate InOrder(bs: seq<Range>, pos: nat, hi: nat) {
    && (forall b :: 0 <= b < |bs| ==> Whole(bs[b]) && pos <= bs[b].off && End(bs[b]) <= hi)
    && (forall b, c :: 0 <= b < c < |bs| ==> End(bs[b]) <= bs[c].off)
  }

  lemma OnPages(x: nat, y: nat)
    requires x % PAGE == 0 && y % PAGE == 0
    ensures (x + y) % PAGE == 0 && (y - x) % PAGE == 0
  {
  }

  lemma {:induction false} BlocksShape(pos: nat, hi: nat)
    requires pos % PAGE == 0 && hi % PAGE == 0
    ensures InOrder(BlocksFrom(pos, hi), pos, hi)
    decreases hi - pos
  {
    if pos < hi {
      var n := Min(BLOCK, hi - pos);
      OnPages(pos, hi);
      assert n % PAGE == 0;
      OnPages(pos, n);
      BlocksShape(pos + n, hi);
      OneMore(Range(pos, n), BlocksFrom(pos + n, hi), hi);
    }
  }

  lemma OneMore(b: Range, rest: seq<Range>, hi: nat)
    requires Whole(b) && InOrder(rest, End(b), hi) && End(b) <= hi
    ensures InOrder([b] + rest, b.off, hi)
  {
    var bs := [b] + rest;
    forall c | 0 <= c < |bs| ensures Whole(bs[c]) && b.off <= bs[c].off && End(bs[c]) <= hi {
      assert c > 0 ==> bs[c] == rest[c - 1];
    }
    forall c, d | 0 <= c < d < |bs| ensures End(bs[c]) <= bs[d].off {
      assert bs[d] == rest[d - 1];
      assert c > 0 ==> bs[c] == rest[c - 1];
    }
  }

  /** Of 8 MiB, but for a shorter last one. */
  ghost predicate Even(bs: seq<Range>) {
    forall b :: 0 <= b < |bs| ==> if b < |bs| - 1 then bs[b].len == 0x80_0000 else bs[b].len <= 0x80_0000
  }

  lemma {:induction false} BlocksEven(pos: nat, hi: nat)
    ensures Even(BlocksFrom(pos, hi)) && (pos < hi ==> BlocksFrom(pos, hi) != [])
    decreases hi - pos
  {
    if pos < hi {
      var n := Min(BLOCK, hi - pos);
      BlocksEven(pos + n, hi);
    }
  }

  /** Every byte of pos..hi is in some block. */
  lemma {:induction false} BlocksCover(pos: nat, hi: nat, i: nat) returns (b: nat)
    requires pos <= i < hi
    ensures b < |BlocksFrom(pos, hi)| && Has(BlocksFrom(pos, hi)[b], i)
    decreases hi - pos
  {
    var n := Min(BLOCK, hi - pos);
    if i < pos + n {
      b := 0;
    } else {
      b := BlocksCover(pos + n, hi, i);
      b := b + 1;
    }
  }

  lemma WholePages(off: nat, end: nat)
    requires off <= end
    ensures var lo, hi := WholeStart(off, end), WholeEnd(off, end);
            && off <= lo <= hi <= end
            && (lo < hi ==> lo % PAGE == 0 && hi % PAGE == 0)
            && (off < lo ==> Partial(Range(off, lo - off)))
            && (hi < end ==> Partial(Range(hi, end - hi)))
  {
  }

  /** A queued range's pieces: the edges, then the blocks. */
  function PiecesOf(r: Range): seq<Range> { EdgesOf(r) + BlocksOf(r) }

  lemma CutShape(r: Range)
    ensures InOrder(BlocksOf(r), WholeStart(r.off, End(r)), WholeEnd(r.off, End(r)))
    ensures forall e :: e in EdgesOf(r) ==> Partial(e) && r.off <= e.off && End(e) <= End(r)
    ensures forall b :: b in BlocksOf(r) ==> Whole(b) && r.off <= b.off && End(b) <= End(r)
  {
    var end := End(r);
    WholePages(r.off, end);
    if WholeStart(r.off, end) < WholeEnd(r.off, end) {
      BlocksShape(WholeStart(r.off, end), WholeEnd(r.off, end));
    }
  }

  lemma CutCovers(r: Range, i: nat)
    requires Has(r, i)
    ensures exists k :: 0 <= k < |PiecesOf(r)| && Has(PiecesOf(r)[k], i)
  {
    var lo, hi := WholeStart(r.off, End(r)), WholeEnd(r.off, End(r));
    WholePages(r.off, End(r));
    var es, bs := EdgesOf(r), BlocksOf(r);
    if i < lo {
      assert Has(PiecesOf(r)[0], i);
    } else if i >= hi {
      assert Has(PiecesOf(r)[|es| - 1], i);
    } else {
      var b := BlocksCover(lo, hi, i);
      assert PiecesOf(r)[|es| + b] == bs[b];
    }
  }

  ghost predicate Apart(pieces: seq<Range>) {
    forall j, k :: 0 <= j < k < |pieces| ==> Disjoint(pieces[j], pieces[k])
  }

  lemma InOrderApart(bs: seq<Range>, pos: nat, hi: nat)
    requires InOrder(bs, pos, hi)
    ensures Apart(bs) && forall e: Range, k :: 0 <= k < |bs| && (End(e) <= pos || hi <= e.off) ==> Disjoint(e, bs[k])
  {
    forall j, k | 0 <= j < k < |bs| ensures Disjoint(bs[j], bs[k]) {
      assert End(bs[j]) <= bs[k].off;
    }
  }

  lemma CutApart(r: Range)
    ensures Apart(PiecesOf(r))
  {
    CutShape(r);
    WholePages(r.off, End(r));
    EdgesFirst(EdgesOf(r), BlocksOf(r), WholeStart(r.off, End(r)), WholeEnd(r.off, End(r)));
  }

  lemma EdgesFirst(es: seq<Range>, bs: seq<Range>, lo: nat, hi: nat)
    requires InOrder(bs, lo, hi) && Apart(es) && forall e :: e in es ==> End(e) <= lo || hi <= e.off
    ensures Apart(es + bs)
  {
    InOrderApart(bs, lo, hi);
    var all := es + bs;
    forall j, k | 0 <= j < k < |all| ensures Disjoint(all[j], all[k]) {
      if j >= |es| {
        assert Disjoint(bs[j - |es|], bs[k - |es|]);
      } else if k >= |es| {
        assert es[j] in es && Disjoint(es[j], bs[k - |es|]);
      }
    }
  }

  /** Each byte of the range is in exactly one piece, and no other byte is in any;
      blocks are whole pages, 8 MiB but for the last, edges partial ones. */
  lemma CutIsExact(r: Range)
    ensures forall b :: b in BlocksOf(r) ==> Whole(b) && r.off <= b.off && End(b) <= End(r)
    ensures forall e :: e in EdgesOf(r) ==> Partial(e) && r.off <= e.off && End(e) <= End(r)
    ensures forall i: nat :: Has(r, i) ==> exists k :: 0 <= k < |PiecesOf(r)| && Has(PiecesOf(r)[k], i)
    ensures Apart(PiecesOf(r)) && Even(BlocksOf(r))
  {
    CutShape(r);
    CutApart(r);
    BlocksEven(WholeStart(r.off, End(r)), WholeEnd(r.off, End(r)));
    forall i: nat | Has(r, i) ensures exists k :: 0 <= k < |PiecesOf(r)| && Has(PiecesOf(r)[k], i) {
      CutCovers(r, i);
    }
  }

  /** The queueing half of OutputFile: the channel's jobs and the edges so far. */
  class OutputFile {
    const len: nat
    var jobs: seq<Range>
    var edges: seq<Range>

    constructor (len: nat)
      ensures this.len == len && jobs == [] && edges == []
    {
      this.len := len;
      jobs, edges := [], [];
    }

    method Queue(off: nat, n: nat)
      requires off + n <= len
      modifies this
      ensures edges == old(edges) + EdgesOf(Range(off, n))
      ensures jobs == old(jobs) + BlocksOf(Range(off, n))
    {
      var end := off + n;
      var lo := Min(NextMultiple(off), end);
      var hi := Max(end / PAGE * PAGE, lo);
      if off < lo {
        edges := edges + [Range(off, lo - off)];
      }
      if hi < end {
        edges := edges + [Range(hi, end - hi)];
      }
      var pos := lo;
      while pos < hi
        invariant lo <= pos
        invariant jobs + BlocksFrom(pos, hi) == old(jobs) + BlocksFrom(lo, hi)
        invariant edges == old(edges) + EdgesOf(Range(off, n))
      {
        var m := Min(BLOCK, hi - pos);
        jobs := jobs + [Range(pos, m)];
        pos := pos + m;
      }
    }
  }
}
