/** The program as icf.rs sees it: subsections, their relocations and the symbols
    those name; what an edge is, what the base digest covers, and the CSR array of
    candidate edges. */
module IcfGraph {
  import opened Targets
  import opened Options
  import opened IcfRefine

  datatype Shape = Shape(offset: nat, ty: nat, size: nat, isPcrel: bool, isSubtracted: bool)

  datatype Reloc = Reloc(shape: Shape, target: Target, addend: int)

  /** A symbol: the subsection of an object that defines it, if one does. */
  datatype Symbol = Symbol(isec: Option<nat>, value: int)

  /** An unwind record: offsets, length, encoding and CFI bytes as one value, the
      personality symbol, and the LSDA's place. */
  datatype Unwind = Unwind(fixed: nat, personality: Option<nat>, lsda: Option<(nat, nat)>)

  datatype Isec = Isec(
    bytes: seq<nat>, size: nat, rels: seq<Reloc>, unwind: seq<Unwind>,
    alive: bool, isText: bool, insignificant: bool, addressTaken: bool, kept: bool)

  datatype Program = Program(isecs: seq<Isec>, symbols: seq<Symbol>) {
    ghost predicate Valid() {
      && |isecs| < NO_REPLACEMENT
      && (forall i, m {:trigger isecs[i].rels[m]} :: 0 <= i < |isecs| && 0 <= m < |isecs[i].rels|
            ==> TargetOk(isecs[i].rels[m].target))
      && (forall i, m {:trigger isecs[i].unwind[m]} :: 0 <= i < |isecs| && 0 <= m < |isecs[i].unwind|
            ==> LsdaOk(isecs[i].unwind[m].lsda))
      && (forall s :: 0 <= s < |symbols| && symbols[s].isec.Some? ==> symbols[s].isec.value < |isecs|)
    }

    predicate LsdaOk(lsda: Option<(nat, nat)>) {
      lsda.Some? ==> lsda.value.0 < |isecs|
    }

    predicate TargetOk(t: Target) {
      match t case Sym(s) => s < |symbols| case Section(i) => i < |isecs|
    }
  }

  const NO_REPLACEMENT: nat := 0xffff_ffff

  // ---- resolve ----

  /** Every replacement is a subsection. */
  ghost predicate InRange(repl: seq<nat>) {
    |repl| < NO_REPLACEMENT && forall i :: 0 <= i < |repl| ==> repl[i] < |repl| || repl[i] == NO_REPLACEMENT
  }

  ghost function Chase(repl: seq<nat>, id: nat, hops: nat): (r: nat)
    requires InRange(repl) && id < |repl|
    ensures r < |repl|
    decreases hops
  {
    if hops == 0 || repl[id] == NO_REPLACEMENT then id else Chase(repl, repl[id], hops - 1)
  }

  /** Replacement chains end, within `hops` steps. */
  ghost predicate Settled(repl: seq<nat>, hops: nat) {
    InRange(repl) && forall id: nat :: id < |repl| ==> Ends(repl, id, hops)
  }

  ghost predicate Ends(repl: seq<nat>, id: nat, hops: nat)
    requires InRange(repl) && id < |repl|
  {
    repl[Chase(repl, id, hops)] == NO_REPLACEMENT
  }

  lemma {:induction false} ChaseMore(repl: seq<nat>, id: nat, hops: nat, more: nat)
    requires InRange(repl) && id < |repl| && hops <= more
    requires repl[Chase(repl, id, hops)] == NO_REPLACEMENT
    ensures Chase(repl, id, more) == Chase(repl, id, hops)
    decreases hops
  {
    if hops > 0 && repl[id] != NO_REPLACEMENT {
      ChaseMore(repl, repl[id], hops - 1, more - 1);
    }
  }

  /** InputSections::resolve: it returns, at the end of the chain. */
  method Resolve(repl: array<nat>, start: nat, ghost hops: nat) returns (id: nat)
    requires Settled(repl[..], hops) && start < repl.Length
    ensures id == Chase(repl[..], start, hops) && id < repl.Length && repl[id] == NO_REPLACEMENT
  {
    id := start;
    assert Ends(repl[..], start, hops);
    ghost var left := hops;
    while repl[id] != NO_REPLACEMENT
      invariant id < repl.Length
      invariant Chase(repl[..], id, left) == Chase(repl[..], start, hops)
      decreases left
    {
      id := repl[id];
      left := left - 1;
    }
  }

  // ---- Edges ----

  datatype Edge = CandidateEdge(c: nat) | IsecEdge(isec: nat, value: int) | SymEdge(sym: nat)

  const NOT_CANDIDATE: nat := 0xffff_ffff_ffff_ffff

  /** What a relocation points at and its addend, given where subsections resolve to. */
  function EdgeTarget(p: Program, resolved: seq<nat>, candIndex: seq<nat>, rel: Reloc): (Edge, int)
    requires |resolved| == |candIndex| == |p.isecs| && (forall i :: 0 <= i < |resolved| ==> resolved[i] < |candIndex|)
    requires p.TargetOk(rel.target)
    requires forall s :: 0 <= s < |p.symbols| && p.symbols[s].isec.Some? ==> p.symbols[s].isec.value < |p.isecs|
  {
    match rel.target
    case Sym(s) =>
      if p.symbols[s].isec.Some? then
        var isec := resolved[p.symbols[s].isec.value];
        if candIndex[isec] != NOT_CANDIDATE then (CandidateEdge(candIndex[isec]), rel.addend + p.symbols[s].value)
        else (IsecEdge(isec, p.symbols[s].value), rel.addend)
      else (SymEdge(s), rel.addend)
    case Section(i) =>
      var isec := resolved[i];
      if candIndex[isec] != NOT_CANDIDATE then (CandidateEdge(candIndex[isec]), rel.addend)
      else (IsecEdge(isec, 0), rel.addend)
  }

  /** The part of an edge the base digest covers: a candidate edge leaves a mark only. */
  datatype BaseEdge = Mark | ToIsec(isec: nat, value: int) | ToSym(sym: nat)

  function BaseOf(e: Edge): BaseEdge {
    match e
    case CandidateEdge(_) => Mark
    case IsecEdge(i, v) => ToIsec(i, v)
    case SymEdge(s) => ToSym(s)
  }

  datatype BaseRel = BaseRel(shape: Shape, addend: int, edge: BaseEdge)

  datatype BaseUnwind = BaseUnwind(fixed: nat, personality: Option<nat>, lsda: Option<(nat, nat)>)

  /** Everything compute_digest hashes for one candidate. */
  datatype Base = Base(size: nat, bytes: seq<nat>, rels: seq<BaseRel>, unwind: seq<BaseUnwind>)

  /** The candidate indices among a list of edges, in order. */
  function CandidateEdges(es: seq<Edge>): (r: seq<nat>) {
    if es == [] then []
    else (if es[0].CandidateEdge? then [es[0].c] else []) + CandidateEdges(es[1..])
  }

  lemma {:induction false} CandidateEdgesIn(es: seq<Edge>, c: nat)
    ensures c in CandidateEdges(es) <==> CandidateEdge(c) in es
  {
    if es != [] {
      CandidateEdgesIn(es[1..], c);
      assert es == [es[0]] + es[1..];
    }
  }

  /** Two lists of edges with the same marks have equally many candidate edges
      before any place. */
  lemma {:induction false} SameMarks(es: seq<Edge>, fs: seq<Edge>)
    requires |es| == |fs| && forall k :: 0 <= k < |es| ==> BaseOf(es[k]) == BaseOf(fs[k])
    ensures |CandidateEdges(es)| == |CandidateEdges(fs)|
  {
    if es != [] {
      assert BaseOf(es[0]) == BaseOf(fs[0]);
      SameMarks(es[1..], fs[1..]);
    }
  }

  lemma {:induction false} EdgeAtMark(es: seq<Edge>, m: nat)
    requires m < |es| && es[m].CandidateEdge?
    ensures |CandidateEdges(es[..m])| < |CandidateEdges(es)|
    ensures CandidateEdges(es)[|CandidateEdges(es[..m])|] == es[m].c
  {
    if m > 0 {
      EdgeAtMark(es[1..], m - 1);
      assert es[..m][1..] == es[1..][..m - 1];
    }
  }

  /** Two lists of edges with the same marks and pairwise related candidate edges
      have related edges at every marked place. */
  lemma MarkedPair(es: seq<Edge>, fs: seq<Edge>, rel: set<(nat, nat)>, m: nat)
    requires |es| == |fs| && m < |es| && es[m].CandidateEdge?
    requires forall k :: 0 <= k < |es| ==> BaseOf(es[k]) == BaseOf(fs[k])
    requires forall q :: 0 <= q < |CandidateEdges(es)| && q < |CandidateEdges(fs)| ==>
               (CandidateEdges(es)[q], CandidateEdges(fs)[q]) in rel
    ensures fs[m].CandidateEdge? && (es[m].c, fs[m].c) in rel
  {
    assert BaseOf(es[m]) == BaseOf(fs[m]);
    SameMarks(es[..m], fs[..m]);
    EdgeAtMark(es, m);
    EdgeAtMark(fs, m);
  }

  // ---- gather_edges ----

  /** Where vertex i's edges start: the total of the degrees before it. */
  ghost function Start(graph: seq<seq<nat>>, i: nat): nat
    requires i <= |graph|
  {
    if i == 0 then 0 else Start(graph, i - 1) + |graph[i - 1]|
  }

  lemma {:induction false} StartMonotone(graph: seq<seq<nat>>, i: nat, j: nat)
    requires i <= j <= |graph|
    ensures Start(graph, i) <= Start(graph, j)
    ensures i < j ==> Start(graph, i) + |graph[i]| <= Start(graph, j)
  {
    if i < j {
      StartMonotone(graph, i, j - 1);
    }
  }

  const U32_LIMIT: nat := 0x1_0000_0000

  /** The counting pass and its prefix sum, which fails when it outgrows 32 bits. */
  method PrefixSum(graph: seq<seq<nat>>) returns (indices: Option<seq<nat>>)
    ensures indices.None? <==> Start(graph, |graph|) >= U32_LIMIT
    ensures indices.Some? ==> |indices.value| == |graph| + 1
    ensures indices.Some? ==> forall i :: 0 <= i <= |graph| ==> indices.value[i] == Start(graph, i)
  {
    var sum, out := 0, [];
    for i := 0 to |graph|
      invariant sum == Start(graph, i) < U32_LIMIT
      invariant |out| == i && forall k :: 0 <= k < i ==> out[k] == Start(graph, k)
    {
      if sum + |graph[i]| >= U32_LIMIT {
        StartMonotone(graph, i + 1, |graph|);
        return None;
      }
      out := out + [sum];
      sum := sum + |graph[i]|;
    }
    indices := Some(out + [sum]);
  }

  /** Vertex v's edges are in its slice of `values`, in order. */
  ghost predicate FilledAt(graph: seq<seq<nat>>, values: seq<nat>, v: nat)
    requires v < |graph|
  {
    var start := Start(graph, v);
    start + |graph[v]| <= |values| && values[start..start + |graph[v]|] == graph[v]
  }

  ghost predicate Filled(graph: seq<seq<nat>>, values: seq<nat>, lo: nat, hi: nat)
    requires lo <= hi <= |graph|
  {
    forall v: nat :: lo <= v < hi ==> FilledAt(graph, values, v)
  }

  /** One task of the recursive split over the vertices lo..hi, owning the slice of
      `out` at `at..at + Start(hi) - Start(lo)`. It may stop splitting at any range
      and may run its halves in either order. */
  method FillEdges(graph: seq<seq<nat>>, indices: seq<nat>, lo: nat, hi: nat, at: nat, out: array<nat>)
    requires lo <= hi <= |graph| && |indices| == |graph| + 1
    requires forall i :: 0 <= i <= |graph| ==> indices[i] == Start(graph, i)
    requires at == Start(graph, lo) && Start(graph, hi) <= out.Length
    modifies out
    ensures Filled(graph, out[..], lo, hi)
    ensures forall k :: 0 <= k < out.Length && !(Start(graph, lo) <= k < Start(graph, hi)) ==> out[k] == old(out[k])
    decreases hi - lo
  {
    StartMonotone(graph, lo, hi);
    if hi - lo > 1 {
      if * {
        FillHalves(graph, indices, lo, hi, at, out);
        return;
      }
    }
    FillSerially(graph, lo, hi, at, out);
  }

  method FillHalves(graph: seq<seq<nat>>, indices: seq<nat>, lo: nat, hi: nat, at: nat, out: array<nat>)
    requires lo + 1 < hi <= |graph| && |indices| == |graph| + 1
    requires forall i :: 0 <= i <= |graph| ==> indices[i] == Start(graph, i)
    requires at == Start(graph, lo) && Start(graph, hi) <= out.Length
    modifies out
    ensures Filled(graph, out[..], lo, hi)
    ensures forall k :: 0 <= k < out.Length && !(Start(graph, lo) <= k < Start(graph, hi)) ==> out[k] == old(out[k])
    decreases hi - lo, 0
  {
    var mid := lo + (hi - lo) / 2;
    StartMonotone(graph, lo, mid);
    StartMonotone(graph, mid, hi);
    var right := at + (indices[mid] - indices[lo]);
    if * {
      FillEdges(graph, indices, lo, mid, at, out);
      ghost var left := out[..];
      FillEdges(graph, indices, mid, hi, right, out);
      KeepFilled(graph, left, out[..], lo, mid);
    } else {
      FillEdges(graph, indices, mid, hi, right, out);
      ghost var rest := out[..];
      FillEdges(graph, indices, lo, mid, at, out);
      KeepFilled(graph, rest, out[..], mid, hi);
    }
  }

  lemma {:induction false} KeepFilled(graph: seq<seq<nat>>, a: seq<nat>, b: seq<nat>, lo: nat, hi: nat)
    requires lo <= hi <= |graph| && |a| == |b| && Filled(graph, a, lo, hi)
    requires forall k :: Start(graph, lo) <= k < Start(graph, hi) && k < |a| ==> a[k] == b[k]
    ensures Filled(graph, b, lo, hi)
  {
    forall v: nat | lo <= v < hi ensures FilledAt(graph, b, v) {
      StartMonotone(graph, lo, v);
      StartMonotone(graph, v, hi);
      var start := Start(graph, v);
      assert FilledAt(graph, a, v);
      assert a[start..start + |graph[v]|] == b[start..start + |graph[v]|];
    }
  }

  method FillSerially(graph: seq<seq<nat>>, lo: nat, hi: nat, at: nat, out: array<nat>)
    requires lo <= hi <= |graph| && at == Start(graph, lo) <= Start(graph, hi) <= out.Length
    modifies out
    ensures Filled(graph, out[..], lo, hi)
    ensures forall k :: 0 <= k < out.Length && !(Start(graph, lo) <= k < Start(graph, hi)) ==> out[k] == old(out[k])
  {
    var i := at;
    for v := lo to hi
      invariant i == Start(graph, v)
      invariant Start(graph, lo) <= i
      invariant Filled(graph, out[..], lo, v)
      invariant forall k :: 0 <= k < out.Length && !(Start(graph, lo) <= k < i) ==> out[k] == old(out[k])
    {
      StartMonotone(graph, v, hi);
      ghost var before := out[..];
      for m := 0 to |graph[v]|
        invariant i == Start(graph, v) + m
        invariant forall k :: 0 <= k < out.Length && !(Start(graph, v) <= k < i) ==> out[k] == before[k]
        invariant forall q :: 0 <= q < m ==> out[Start(graph, v) + q] == graph[v][q]
      {
        out[i] := graph[v][m];
        i := i + 1;
      }
      KeepFilled(graph, before, out[..], lo, v);
      assert FilledAt(graph, out[..], v);
    }
  }

  /** gather_edges: the CSR form of the candidate graph. Each task writes only its
      own slice, so the array ends the same whatever the splits. */
  method GatherEdges(graph: seq<seq<nat>>) returns (edges: Option<Edges>)
    requires forall v :: 0 <= v < |graph| ==> Within(graph[v], |graph|)
    ensures edges.None? <==> Start(graph, |graph|) >= U32_LIMIT
    ensures edges.Some? ==> edges.value.Valid(|graph|) && forall v :: 0 <= v < |graph| ==> edges.value.Of(v) == graph[v]
  {
    var indices := PrefixSum(graph);
    if indices.None? {
      return None;
    }
    var values := new nat[indices.value[|graph|]];
    FillEdges(graph, indices.value, 0, |graph|, 0, values);
    edges := Some(Edges(values[..], indices.value));
    FilledIsCsr(graph, edges.value);
  }

  /** Which vertex an array position belongs to. */
  lemma {:induction false} OwnerOf(graph: seq<seq<nat>>, n: nat, k: nat) returns (v: nat)
    requires n <= |graph| && k < Start(graph, n)
    ensures v < n && Start(graph, v) <= k < Start(graph, v) + |graph[v]|
  {
    if k < Start(graph, n - 1) {
      v := OwnerOf(graph, n - 1, k);
    } else {
      v := n - 1;
    }
  }

  lemma FilledIsCsr(graph: seq<seq<nat>>, edges: Edges)
    requires forall v :: 0 <= v < |graph| ==> Within(graph[v], |graph|)
    requires |edges.indices| == |graph| + 1 && |edges.values| == Start(graph, |graph|)
    requires forall i :: 0 <= i <= |graph| ==> edges.indices[i] == Start(graph, i)
    requires Filled(graph, edges.values, 0, |graph|)
    ensures edges.Valid(|graph|) && forall v :: 0 <= v < |graph| ==> edges.Of(v) == graph[v]
  {
    forall i, j | 0 <= i <= j <= |graph| ensures edges.indices[i] <= edges.indices[j] {
      StartMonotone(graph, i, j);
    }
    forall k | 0 <= k < |edges.values| ensures edges.values[k] < |graph| {
      var v := OwnerOf(graph, |graph|, k);
      assert FilledAt(graph, edges.values, v);
      assert graph[v][k - Start(graph, v)] == edges.values[k];
    }
    forall v | 0 <= v < |graph| ensures edges.Of(v) == graph[v] {
      StartMonotone(graph, v + 1, |graph|);
      assert FilledAt(graph, edges.values, v);
    }
  }
}
