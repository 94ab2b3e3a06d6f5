/** icf_sections end to end: candidates, digests, refinement, leaders, fold. */
module Icf {
  import opened Options
  import opened Classes
  import opened IcfAlike
  import opened IcfFold
  import opened IcfGraph
  import opened IcfRefine
  import DigestMap

  /** The eligible subsections in order, and their inverse index. */
  method CollectCandidates(p: Program, replacement: array<nat>) returns (c: Candidates)
    requires p.Valid() && replacement.Length == |p.isecs|
    ensures c.Valid(replacement[..])
    ensures IsCollected(p, replacement[..], c)
    ensures forall id :: 0 <= id < |p.isecs| ==> (id in c.ids <==> IsEligible(p.isecs[id], replacement[id]))
  {
    var ids: seq<nat>, index: seq<nat> := [], [];
    ghost var repl := replacement[..];
    for id := 0 to |p.isecs|
      invariant Collected(p, repl, id, ids, index)
    {
      CollectOne(p, repl, id, ids, index);
      if IsEligible(p.isecs[id], replacement[id]) {
        index := index + [|ids|];
        ids := ids + [id];
      } else {
        index := index + [NOT_CANDIDATE];
      }
    }
    c := Candidates(ids, index);
  }

  /** The candidates among the first n subsections, and where each is listed. */
  ghost predicate Collected(p: Program, repl: seq<nat>, n: nat, ids: seq<nat>, index: seq<nat>) {
    && |repl| == |p.isecs| && n <= |p.isecs| && |index| == n && |ids| <= n
    && (forall i :: 0 <= i < |ids| ==> ids[i] < n && repl[ids[i]] == NO_REPLACEMENT && index[ids[i]] == i)
    && (forall i, j :: 0 <= i < j < |ids| ==> ids[i] < ids[j])
    && (forall x :: 0 <= x < n && index[x] != NOT_CANDIDATE ==> index[x] < |ids| && ids[index[x]] == x)
    && (forall x :: 0 <= x < n ==> (index[x] != NOT_CANDIDATE <==> IsEligible(p.isecs[x], repl[x])))
  }

  lemma CollectOne(p: Program, repl: seq<nat>, n: nat, ids: seq<nat>, index: seq<nat>)
    requires p.Valid() && Collected(p, repl, n, ids, index) && n < |p.isecs|
    ensures if IsEligible(p.isecs[n], repl[n]) then Collected(p, repl, n + 1, ids + [n], index + [|ids|])
            else Collected(p, repl, n + 1, ids, index + [NOT_CANDIDATE])
  {
  }

  method ResolveAll(replacement: array<nat>, ghost hops: nat) returns (resolved: seq<nat>)
    requires Settled(replacement[..], hops)
    ensures resolved == ResolvedAll(replacement[..], hops)
  {
    resolved := [];
    for id := 0 to replacement.Length
      invariant |resolved| == id
      invariant forall i :: 0 <= i < id ==> resolved[i] == Chase(replacement[..], i, hops)
    {
      var r := Resolve(replacement, id, hops);
      resolved := resolved + [r];
    }
  }

  /** The base digests and the candidate graph, which later steps work on alone. */
  method BuildGraph<D>(p: Program, h0: Base -> D, resolved: seq<nat>, c: Candidates,
                       ghost repl: seq<nat>, ghost hops: nat)
    returns (base: seq<D>, graph: seq<seq<nat>>)
    requires GraphOk(p, repl, hops, c) && resolved == ResolvedAll(repl, hops)
    ensures graph == Graph(p, repl, hops, c)
    ensures base == Digested(h0, Bases(p, repl, hops, c))
  {
    base, graph := [], [];
    for i := 0 to |c.ids|
      invariant |base| == |graph| == i
      invariant forall j :: 0 <= j < i ==> base[j] == h0(Bases(p, repl, hops, c)[j])
      invariant forall j :: 0 <= j < i ==> graph[j] == Graph(p, repl, hops, c)[j]
    {
      base := base + [h0(BaseFor(p, resolved, c.index, c.ids[i]))];
      graph := graph + [CandidateEdges(Firsts(EdgesOf(p, resolved, c.index, c.ids[i])))];
    }
  }

  ghost function Digested<D>(h0: Base -> D, bases: seq<Base>): (r: seq<D>)
    ensures |r| == |bases| && forall i :: 0 <= i < |r| ==> r[i] == h0(bases[i])
  {
    seq(|bases|, i requires 0 <= i < |bases| => h0(bases[i]))
  }

  ghost predicate IsCsrOf(edges: Edges, graph: seq<seq<nat>>) {
    edges.Valid(|graph|) && forall v :: 0 <= v < |graph| ==> edges.Of(v) == graph[v]
  }

  /** The hash tells apart what this link hashes: base contents, and within each
      round the messages. */
  ghost predicate HashOk<D>(p: Program, h0: Base -> D, h: seq<D> -> D, repl: seq<nat>, hops: nat, c: Candidates)
    requires GraphOk(p, repl, hops, c)
  {
    var bases := Bases(p, repl, hops, c);
    && (forall i, j :: 0 <= i < |bases| && 0 <= j < |bases| && h0(bases[i]) == h0(bases[j]) ==> bases[i] == bases[j])
    && (forall edges :: IsCsrOf(edges, Graph(p, repl, hops, c)) ==> CollisionFree(h, Digested(h0, bases), edges))
  }

  /** It does for the candidates of the pass. */
  ghost predicate HashTells<D>(p: Program, h0: Base -> D, h: seq<D> -> D, repl: seq<nat>, hops: nat) {
    forall c: Candidates :: IsCollected(p, repl, c) && GraphOk(p, repl, hops, c) ==> HashOk(p, h0, h, repl, hops, c)
  }

  ghost predicate IsCollected(p: Program, repl: seq<nat>, c: Candidates) {
    Collected(p, repl, |p.isecs|, c.ids, c.index)
  }

  /** A bisimulation of the digested graph relates equal bases and related edges. */
  lemma BisimulationRelates<D>(p: Program, h0: Base -> D, h: seq<D> -> D, repl: seq<nat>, hops: nat, c: Candidates,
                               edges: Edges, rel: set<(nat, nat)>)
    requires GraphOk(p, repl, hops, c) && HashOk(p, h0, h, repl, hops, c)
    requires IsCsrOf(edges, Graph(p, repl, hops, c))
    requires IsBisimulation(Digested(h0, Bases(p, repl, hops, c)), edges, rel)
    ensures RelatesGraph(p, repl, hops, c, rel)
  {
    var bases, graph := Bases(p, repl, hops, c), Graph(p, repl, hops, c);
    forall i, j | (i, j) in rel
      ensures i < |c.ids| && j < |c.ids| && bases[i] == bases[j] && |graph[i]| == |graph[j]|
      ensures forall m :: 0 <= m < |graph[i]| ==> (graph[i][m], graph[j][m]) in rel
    {
      assert Matches(Digested(h0, bases), edges, rel, i, j);
      assert edges.Of(i) == graph[i] && edges.Of(j) == graph[j];
    }
  }

  /** Bisimilar candidates of the digested graph are exactly the functions that are alike. */
  lemma BisimilarIffAlike<D>(p: Program, h0: Base -> D, h: seq<D> -> D, repl: seq<nat>, hops: nat, c: Candidates,
                             edges: Edges, i: nat, j: nat)
    requires GraphOk(p, repl, hops, c) && HashOk(p, h0, h, repl, hops, c) && IsCollected(p, repl, c)
    requires IsCsrOf(edges, Graph(p, repl, hops, c)) && i < |c.ids| && j < |c.ids|
    ensures Bisimilar(Digested(h0, Bases(p, repl, hops, c)), edges, i, j) <==>
            Alike(p, repl, hops, c.ids[i], c.ids[j])
  {
    var base := Digested(h0, Bases(p, repl, hops, c));
    if Bisimilar(base, edges, i, j) {
      var rel :| IsBisimulation(base, edges, rel) && (i, j) in rel;
      BisimulationRelates(p, h0, h, repl, hops, c, edges, rel);
      RelatedIsAlikeness(p, repl, hops, c, rel);
      ByIdsHas(c, rel, i, j);
    }
    if Alike(p, repl, hops, c.ids[i], c.ids[j]) {
      var rel :| IsAlikeness(p, repl, hops, rel) && (c.ids[i], c.ids[j]) in rel;
      AlikenessRelates(p, repl, hops, c, rel);
      RelatedIsBisimulation(p, h0, repl, hops, c, edges, ByIndex(c, rel));
      ByIndexHas(c, rel, c.ids[i], c.ids[j]);
    }
  }

  lemma RelatedIsBisimulation<D>(p: Program, h0: Base -> D, repl: seq<nat>, hops: nat, c: Candidates,
                                 edges: Edges, rel: set<(nat, nat)>)
    requires GraphOk(p, repl, hops, c) && RelatesGraph(p, repl, hops, c, rel)
    requires IsCsrOf(edges, Graph(p, repl, hops, c))
    ensures IsBisimulation(Digested(h0, Bases(p, repl, hops, c)), edges, rel)
  {
    var base, graph := Digested(h0, Bases(p, repl, hops, c)), Graph(p, repl, hops, c);
    forall i, j | (i, j) in rel ensures Matches(base, edges, rel, i, j) {
      assert edges.Of(i) == graph[i] && edges.Of(j) == graph[j];
    }
  }

  lemma EqualDigestsUnfoldAlike<D>(p: Program, h0: Base -> D, h: seq<D> -> D, repl: seq<nat>, hops: nat, c: Candidates,
                                   edges: Edges, i: nat, j: nat, k: nat)
    requires GraphOk(p, repl, hops, c) && HashOk(p, h0, h, repl, hops, c)
    requires IsCsrOf(edges, Graph(p, repl, hops, c)) && i < |c.ids| && j < |c.ids|
    requires Bisimilar(Digested(h0, Bases(p, repl, hops, c)), edges, i, j)
    ensures Unfold(p, repl, hops, c.ids[i], k) == Unfold(p, repl, hops, c.ids[j], k)
  {
    var base := Digested(h0, Bases(p, repl, hops, c));
    var rel :| IsBisimulation(base, edges, rel) && (i, j) in rel;
    BisimulationRelates(p, h0, h, repl, hops, c, edges, rel);
    RelatedUnfold(p, repl, hops, c, rel, i, j, k);
  }

  /** The final lookup: each candidate's leader is the lowest with its digest. */
  method FindLeaders<D(==)>(digests: seq<D>) returns (leaders: seq<nat>)
    ensures LeadersOk(leaders, |digests|)
    ensures forall i, j :: 0 <= i < |digests| && 0 <= j < |digests|
              ==> (leaders[i] == leaders[j] <==> digests[i] == digests[j])
  {
    leaders := [];
    for i := 0 to |digests|
      invariant |leaders| == i
      invariant forall j :: 0 <= j < i ==> leaders[j] == Leader(digests, digests[j])
    {
      leaders := leaders + [Leader(digests, digests[i])];
    }
    forall i | 0 <= i < |digests| ensures leaders[i] <= i && leaders[leaders[i]] == leaders[i] {
      assert digests[leaders[i]] == digests[i];
    }
  }

  /** The rounds and, if the last one fits the table, the leaders it elected: leaders
      unfold like their members, and candidates share a leader exactly when they are
      bisimilar. */
  method ElectLeaders<D(==)>(p: Program, h0: Base -> D, h: seq<D> -> D, replacement: array<nat>, c: Candidates,
                             ghost hops: nat)
    returns (edges: Option<Edges>, round: nat, leaders: seq<nat>)
    requires GraphOk(p, replacement[..], hops, c) && HashOk(p, h0, h, replacement[..], hops, c)
    requires 2 <= |c.ids| < USIZE_MAX
    ensures edges.None? <==> Start(Graph(p, replacement[..], hops, c), |c.ids|) >= U32_LIMIT
    ensures edges.Some? ==> IsCsrOf(edges.value, Graph(p, replacement[..], hops, c))
    ensures edges.Some? ==>
      && IsLastRound(h, Digested(h0, Bases(p, replacement[..], hops, c)), edges.value, round)
      && 3 <= round <= |c.ids| + 2
    ensures edges.Some? && round < DigestMap.ROUND_LIMIT ==>
      && LeadersOk(leaders, |c.ids|) && LeadersAlike(p, replacement[..], hops, c, leaders)
      && SaysBisimilar(leaders, Digested(h0, Bases(p, replacement[..], hops, c)), edges.value)
  {
    ghost var repl := replacement[..];
    leaders, round := [], 0;
    var resolved := ResolveAll(replacement, hops);
    var base, graph := BuildGraph(p, h0, resolved, c, repl, hops);
    GraphWithin(p, repl, hops, c);
    edges := GatherEdges(graph);
    if edges.Some? {
      assert IsCsrOf(edges.value, graph);
      var digests;
      digests, round := Refine(h, base, edges.value);
      if round < DigestMap.ROUND_LIMIT {
        leaders := FindLeaders(digests);
        SameAsLeaders(p, h0, h, repl, hops, c, edges.value, digests, leaders);
      }
    }
  }

  lemma SameAsLeaders<D>(p: Program, h0: Base -> D, h: seq<D> -> D, repl: seq<nat>, hops: nat, c: Candidates,
                         edges: Edges, digests: seq<D>, leaders: seq<nat>)
    requires GraphOk(p, repl, hops, c) && HashOk(p, h0, h, repl, hops, c)
    requires IsCsrOf(edges, Graph(p, repl, hops, c)) && |digests| == |c.ids| && LeadersOk(leaders, |c.ids|)
    requires SaysBisimilar(digests, Digested(h0, Bases(p, repl, hops, c)), edges)
    requires forall i, j :: 0 <= i < |digests| && 0 <= j < |digests|
               ==> (leaders[i] == leaders[j] <==> digests[i] == digests[j])
    ensures LeadersAlike(p, repl, hops, c, leaders)
    ensures SaysBisimilar(leaders, Digested(h0, Bases(p, repl, hops, c)), edges)
  {
    forall i: nat, k: nat | i < |c.ids|
      ensures Unfold(p, repl, hops, c.ids[i], k) == Unfold(p, repl, hops, c.ids[leaders[i]], k)
    {
      assert leaders[leaders[i]] == leaders[i] && digests[leaders[i]] == digests[i];
      EqualDigestsUnfoldAlike(p, h0, h, repl, hops, c, edges, i, leaders[i], k);
    }
  }

  /** How the pass ends: with fewer than two candidates; with more edges than 32 bits
      count, where the linker gives up; at a round whose number does not fit the stamp of
      the table's slots, where the model ends; or with the candidates folded. */
  datatype Outcome = TooFew | TooManyEdges | TooManyRounds | Folded

  /** icf_sections. Which of the outcomes it has is decided by the candidates, which are
      the eligible subsections, their edges and the counts of the rounds. Unless the
      rounds run out, no reference's meaning changes and resolving still ends; if it folds,
      every candidate resolves to the lowest one bisimilar to it, and that one's alignment
      is the greatest of its class. */
  method IcfSections<D(==)>(p: Program, h0: Base -> D, h: seq<D> -> D,
                            replacement: array<nat>, p2align: array<nat>, ghost hops: nat)
    returns (outcome: Outcome, c: Candidates, round: nat, ghost edges: Edges, ghost leaders: seq<nat>)
    requires replacement != p2align && replacement.Length == p2align.Length && Fits(p, replacement[..], hops)
    requires HashTells(p, h0, h, replacement[..], hops)
    modifies replacement, p2align
    ensures IsCollected(p, old(replacement[..]), c) && GraphOk(p, old(replacement[..]), hops, c)
    ensures forall id: nat :: id in c.ids <==> MayFold(p, old(replacement[..]), id)
    ensures outcome == TooFew <==> |c.ids| < 2
    ensures outcome == TooManyEdges <==>
              |c.ids| >= 2 && Start(Graph(p, old(replacement[..]), hops, c), |c.ids|) >= U32_LIMIT
    ensures outcome == TooManyRounds || outcome == Folded ==>
      && IsCsrOf(edges, Graph(p, old(replacement[..]), hops, c))
      && IsLastRound(h, Digested(h0, Bases(p, old(replacement[..]), hops, c)), edges, round)
      && round <= |c.ids| + 2 && (outcome == Folded <==> round < DigestMap.ROUND_LIMIT)
    ensures outcome == TooFew || outcome == TooManyEdges ==>
              replacement[..] == old(replacement[..]) && p2align[..] == old(p2align[..])
    ensures outcome != TooManyRounds ==>
      && Fits(p, replacement[..], hops + 1)
      && (forall k: nat :: SameAt(p, old(replacement[..]), replacement[..], hops, k))
    ensures outcome == Folded ==>
      && ClassesFolded(replacement[..], hops, c, Digested(h0, Bases(p, old(replacement[..]), hops, c)), edges, leaders)
      && |p2align[..]| == |c.index| && AlignedTo(old(p2align[..]), p2align[..], c, leaders)
      && FoldsAlike(p, old(replacement[..]), replacement[..], hops)
  {
    ghost var repl0, align0 := replacement[..], p2align[..];
    edges, leaders, round := Edges([], []), [], 0;
    c := CollectCandidates(p, replacement);
    assert GraphOk(p, repl0, hops, c);
    CollectedMayFold(p, repl0, hops, c);
    NothingFolded(p, repl0, hops);
    if |c.ids| < 2 {
      return TooFew, c, round, edges, leaders;
    }
    var csr, last, elected := ElectLeaders(p, h0, h, replacement, c, hops);
    if csr.None? {
      return TooManyEdges, c, round, edges, leaders;
    }
    edges, leaders, round := csr.value, elected, last;
    if round >= DigestMap.ROUND_LIMIT {
      return TooManyRounds, c, round, edges, leaders;
    }
    FoldMembers(c, elected, replacement, p2align);
    Conclude(p, repl0, replacement[..], hops, c, leaders, Digested(h0, Bases(p, repl0, hops, c)), edges);
    FoldAligned(repl0, align0, c, leaders);
    FoldedAlike(p, h0, h, repl0, replacement[..], hops, c, edges, leaders);
    outcome := Folded;
  }

  lemma CollectedMayFold(p: Program, repl: seq<nat>, hops: nat, c: Candidates)
    requires GraphOk(p, repl, hops, c) && IsCollected(p, repl, c)
    ensures HasFoldable(p, repl, hops, c)
    ensures forall id: nat :: id in c.ids <==> MayFold(p, repl, id)
  {
    forall id: nat ensures id in c.ids <==> MayFold(p, repl, id) {
      if MayFold(p, repl, id) {
        assert c.ids[c.index[id]] == id;
      }
    }
  }

  /** Two functions that may fold resolve to one subsection exactly if they are alike, the
      lowest one alike; and no other subsection is touched. */
  ghost predicate FoldsAlike(p: Program, repl: seq<nat>, repl': seq<nat>, hops: nat) {
    && Fits(p, repl, hops) && Fits(p, repl', hops + 1)
    && (forall a: nat, b: nat {:trigger Alike(p, repl, hops, a, b)} :: MayFold(p, repl, a) && MayFold(p, repl, b) ==>
          (Chase(repl', a, hops + 1) == Chase(repl', b, hops + 1) <==> Alike(p, repl, hops, a, b)))
    && (forall a: nat :: MayFold(p, repl, a) ==> IsLowestAlike(p, repl, hops, Chase(repl', a, hops + 1), a))
    && forall id: nat :: id < |repl| && !MayFold(p, repl, id) ==> repl'[id] == repl[id]
  }

  ghost predicate IsLowestAlike(p: Program, repl: seq<nat>, hops: nat, l: nat, a: nat)
    requires Fits(p, repl, hops)
  {
    Alike(p, repl, hops, l, a) && forall b: nat :: b < l ==> !Alike(p, repl, hops, b, a)
  }

  lemma FoldedAlike<D>(p: Program, h0: Base -> D, h: seq<D> -> D, repl: seq<nat>, repl': seq<nat>, hops: nat,
                       c: Candidates, edges: Edges, leaders: seq<nat>)
    requires GraphOk(p, repl, hops, c) && HashOk(p, h0, h, repl, hops, c) && IsCollected(p, repl, c)
    requires IsCsrOf(edges, Graph(p, repl, hops, c)) && Fits(p, repl', hops + 1)
    requires LeadersOk(leaders, |c.ids|) && FoldedTo(repl, repl', c, leaders)
    requires ClassesFolded(repl', hops, c, Digested(h0, Bases(p, repl, hops, c)), edges, leaders)
    ensures FoldsAlike(p, repl, repl', hops)
  {
    var base := Digested(h0, Bases(p, repl, hops, c));
    CollectedMayFold(p, repl, hops, c);
    forall a: nat, b: nat | MayFold(p, repl, a) && MayFold(p, repl, b)
      ensures Chase(repl', a, hops + 1) == Chase(repl', b, hops + 1) <==> Alike(p, repl, hops, a, b)
    {
      BisimilarIffAlike(p, h0, h, repl, hops, c, edges, c.index[a], c.index[b]);
    }
    forall a: nat | MayFold(p, repl, a) ensures IsLowestAlike(p, repl, hops, Chase(repl', a, hops + 1), a) {
      LowestAlike(p, h0, h, repl, hops, c, edges, leaders[c.index[a]], c.index[a]);
    }
  }

  lemma LowestAlike<D>(p: Program, h0: Base -> D, h: seq<D> -> D, repl: seq<nat>, hops: nat,
                       c: Candidates, edges: Edges, l: nat, i: nat)
    requires GraphOk(p, repl, hops, c) && HashOk(p, h0, h, repl, hops, c) && IsCollected(p, repl, c)
    requires IsCsrOf(edges, Graph(p, repl, hops, c)) && l < |c.ids| && i < |c.ids|
    requires IsLowest(Digested(h0, Bases(p, repl, hops, c)), edges, l, i)
    ensures IsLowestAlike(p, repl, hops, c.ids[l], c.ids[i])
  {
    CollectedMayFold(p, repl, hops, c);
    BisimilarIffAlike(p, h0, h, repl, hops, c, edges, l, i);
    forall b: nat | b < c.ids[l] ensures !Alike(p, repl, hops, b, c.ids[i]) {
      if Alike(p, repl, hops, b, c.ids[i]) {
        var rel :| IsAlikeness(p, repl, hops, rel) && (b, c.ids[i]) in rel;
        assert SameCode(p, repl, hops, rel, b, c.ids[i]);
        BisimilarIffAlike(p, h0, h, repl, hops, c, edges, c.index[b], i);
      }
    }
  }

  /** Each candidate resolves to the lowest one bisimilar to it, so two resolve to one
      subsection exactly when they are bisimilar. */
  ghost predicate ClassesFolded<D>(
    repl': seq<nat>, hops: nat, c: Candidates, base: seq<D>, edges: Edges, leaders: seq<nat>)
  {
    && Settled(repl', hops + 1) && |base| == |c.ids| && edges.Valid(|base|) && LeadersOk(leaders, |base|)
    && (forall i :: 0 <= i < |c.ids| ==> c.ids[i] < |repl'| && Chase(repl', c.ids[i], hops + 1) == c.ids[leaders[i]])
    && (forall i :: 0 <= i < |c.ids| ==> IsLowest(base, edges, leaders[i], i))
    && forall i, j :: 0 <= i < |c.ids| && 0 <= j < |c.ids| ==>
         (Chase(repl', c.ids[i], hops + 1) == Chase(repl', c.ids[j], hops + 1) <==> Bisimilar(base, edges, i, j))
  }

  ghost predicate IsLowest<D>(base: seq<D>, edges: Edges, l: nat, i: nat)
    requires edges.Valid(|base|)
  {
    Bisimilar(base, edges, l, i) && forall j :: 0 <= j < l ==> !Bisimilar(base, edges, j, i)
  }

  lemma Conclude<D>(p: Program, repl: seq<nat>, repl': seq<nat>, hops: nat, c: Candidates, leaders: seq<nat>,
                    base: seq<D>, edges: Edges)
    requires GraphOk(p, repl, hops, c) && LeadersOk(leaders, |c.ids|) && FoldedTo(repl, repl', c, leaders)
    requires LeadersAlike(p, repl, hops, c, leaders)
    requires |base| == |c.ids| && edges.Valid(|base|) && SaysBisimilar(leaders, base, edges)
    ensures Fits(p, repl', hops + 1) && forall k: nat :: SameAt(p, repl, repl', hops, k)
    ensures ClassesFolded(repl', hops, c, base, edges, leaders)
  {
    FoldPreservesUnfolding(p, repl, repl', hops, c, leaders, 0);
    forall k: nat ensures SameAt(p, repl, repl', hops, k) {
      FoldPreservesUnfolding(p, repl, repl', hops, c, leaders, k);
    }
    FoldedSettles(repl, repl', hops, c, leaders);
    forall i | 0 <= i < |c.ids| ensures Chase(repl', c.ids[i], hops + 1) == c.ids[leaders[i]] {
      assert Chase(repl, c.ids[i], hops) == c.ids[i];
    }
    forall i | 0 <= i < |c.ids| ensures IsLowest(base, edges, leaders[i], i) {
      assert leaders[leaders[i]] == leaders[i];
    }
  }

  lemma NothingFolded(p: Program, repl: seq<nat>, hops: nat)
    requires Fits(p, repl, hops)
    ensures Fits(p, repl, hops + 1) && forall k: nat :: SameAt(p, repl, repl, hops, k)
  {
    var more := hops + 1;
    forall id: nat | id < |repl| ensures Ends(repl, id, more) {
      assert Ends(repl, id, hops);
      ChaseMore(repl, id, hops, more);
    }
    forall k: nat ensures SameAt(p, repl, repl, hops, k) {
      HopsDoNotMatter(p, repl, hops, k);
    }
  }

  lemma {:induction false} HopsDoNotMatter(p: Program, repl: seq<nat>, hops: nat, k: nat)
    requires Fits(p, repl, hops) && Fits(p, repl, hops + 1)
    ensures SameAt(p, repl, repl, hops, k)
  {
    if k > 0 {
      HopsDoNotMatter(p, repl, hops, k - 1);
      forall id: nat | id < |repl| ensures Unfold(p, repl, hops + 1, id, k) == Unfold(p, repl, hops, id, k) {
        assert Ends(repl, id, hops);
        ChaseMore(repl, id, hops, hops + 1);
        SameBody(p, repl, repl, hops, id, Chase(repl, id, hops), k - 1);
        UnfoldResolved(p, repl, hops, id, k);
      }
    }
  }

  lemma GraphWithin(p: Program, repl: seq<nat>, hops: nat, c: Candidates)
    requires GraphOk(p, repl, hops, c)
    ensures forall v :: 0 <= v < |c.ids| ==> Within(Graph(p, repl, hops, c)[v], |c.ids|)
  {
    forall v | 0 <= v < |c.ids| ensures Within(Graph(p, repl, hops, c)[v], |c.ids|) {
      var es := EdgesOf(p, ResolvedAll(repl, hops), c.index, c.ids[v]);
      forall m | 0 <= m < |Graph(p, repl, hops, c)[v]| ensures Graph(p, repl, hops, c)[v][m] < |c.ids| {
        var d := Graph(p, repl, hops, c)[v][m];
        CandidateEdgesIn(Firsts(es), d);
        var q :| 0 <= q < |es| && Firsts(es)[q] == CandidateEdge(d);
        assert p.TargetOk(p.isecs[c.ids[v]].rels[q].target);
        assert es[q] == EdgeTarget(p, ResolvedAll(repl, hops), c.index, p.isecs[c.ids[v]].rels[q]);
      }
    }
  }
}
