/** A link for which identical code folding runs out of rounds (icf.rs): functions of
    equal content, each referring to the next, so many that the digest table's round
    outgrows the stamp of its slots. */
module IcfChain {
  import opened Targets
  import opened Options
  import opened Classes
  import opened IcfRefine
  import opened IcfGraph
  import opened IcfFold
  import opened Icf

  // ---- Chains ----

  /** Each candidate refers to the next, and all but the last have equal content. */
  ghost predicate IsChain<D>(base: seq<D>, edges: Edges) {
    && |base| >= 2 && edges.Valid(|base|)
    && (forall v: nat :: v < |base| ==> edges.Of(v) == if v == |base| - 1 then [] else [v + 1])
    && forall v: nat :: v < |base| - 1 ==> base[v] == base[0] && base[v] != base[|base| - 1]
  }

  /** After k propagations, candidate i is more than k links from the end. */
  predicate Far(n: nat, k: nat, i: nat) { i + k + 1 < n }

  /** Each propagation tells one more candidate from the others, from the end. */
  lemma {:induction false} ChainDigests<D>(h: seq<D> -> D, base: seq<D>, edges: Edges, k: nat, i: nat, j: nat)
    requires IsChain(base, edges) && CollisionFree(h, base, edges) && i < |base| && j < |base|
    ensures Round(h, base, edges, k)[i] == Round(h, base, edges, k)[j] <==>
            i == j || (Far(|base|, k, i) && Far(|base|, k, j))
    decreases k
  {
    if k == 0 {
      ChainStart(base, edges, i, j);
    } else if i != j {
      ChainDigests(h, base, edges, k - 1, i, j);
      if i < |base| - 1 && j < |base| - 1 {
        ChainDigests(h, base, edges, k - 1, i + 1, j + 1);
      }
      ChainStep(h, base, edges, k, i, j);
    }
  }

  lemma ChainStart<D>(base: seq<D>, edges: Edges, i: nat, j: nat)
    requires IsChain(base, edges) && i < |base| && j < |base|
    ensures base[i] == base[j] <==> i == j || (Far(|base|, 0, i) && Far(|base|, 0, j))
  {
  }

  /** Two have one digest exactly if they, and the ones they refer to, had one before. */
  lemma ChainStep<D>(h: seq<D> -> D, base: seq<D>, edges: Edges, k: nat, i: nat, j: nat)
    requires IsChain(base, edges) && CollisionFree(h, base, edges) && i < |base| && j < |base| && i != j && k > 0
    ensures var r, next, last := Round(h, base, edges, k - 1), Round(h, base, edges, k), |base| - 1;
            next[i] == next[j] <==> r[i] == r[j] && i < last && j < last && r[i + 1] == r[j + 1]
  {
    var r, next, last := Round(h, base, edges, k - 1), Round(h, base, edges, k), |base| - 1;
    if next[i] == next[j] {
      EqualBefore(h, base, edges, k - 1, i, j);
    }
    if i < last && j < last && r[i] == r[j] && r[i + 1] == r[j + 1] {
      SameMessage(h, base, edges, k - 1, i, j);
    }
  }

  lemma EqualBefore<D>(h: seq<D> -> D, base: seq<D>, edges: Edges, k: nat, i: nat, j: nat)
    requires IsChain(base, edges) && CollisionFree(h, base, edges) && i < |base| && j < |base| && i != j
    requires Round(h, base, edges, k + 1)[i] == Round(h, base, edges, k + 1)[j]
    ensures i < |base| - 1 && j < |base| - 1
    ensures var r := Round(h, base, edges, k); r[i] == r[j] && r[i + 1] == r[j + 1]
  {
    EqualDigests(h, base, edges, k, i, j);
    NextInChain(base, edges, i, j);
    assert edges.Of(i)[0] == i + 1 && edges.Of(j)[0] == j + 1;
  }

  lemma NextInChain<D>(base: seq<D>, edges: Edges, i: nat, j: nat)
    requires IsChain(base, edges) && i < |base| && j < |base| && i != j && |edges.Of(i)| == |edges.Of(j)|
    ensures i < |base| - 1 && j < |base| - 1 && edges.Of(i) == [i + 1] && edges.Of(j) == [j + 1]
  {
    assert edges.Of(i) == if i == |base| - 1 then [] else [i + 1];
    assert edges.Of(j) == if j == |base| - 1 then [] else [j + 1];
  }

  lemma SameMessage<D>(h: seq<D> -> D, base: seq<D>, edges: Edges, k: nat, i: nat, j: nat)
    requires IsChain(base, edges) && i < |base| - 1 && j < |base| - 1
    requires var r := Round(h, base, edges, k); r[i] == r[j] && r[i + 1] == r[j + 1]
    ensures Round(h, base, edges, k + 1)[i] == Round(h, base, edges, k + 1)[j]
  {
    var r := Round(h, base, edges, k);
    assert edges.Of(i) == [i + 1] && edges.Of(j) == [j + 1];
    assert Gather(r, edges.Of(i)) == Gather(r, edges.Of(j));
  }

  lemma {:induction false} SegmentSize(a: set<nat>, lo: nat, hi: nat)
    requires lo <= hi && forall t: nat :: t in a <==> lo <= t < hi
    ensures |a| == hi - lo
  {
    if lo < hi {
      SegmentSize(a - {hi - 1}, lo, hi - 1);
    }
  }

  /** The first of the candidates still alike, and all those told apart. */
  function Apart(n: nat, k: nat): (a: set<nat>)
    requires n > 0
    ensures forall t: nat :: t in a <==> t < n && (t == 0 || !Far(n, k, t))
  {
    set t: nat | t < n && (t == 0 || !Far(n, k, t))
  }

  lemma ApartSize(n: nat, k: nat)
    requires n >= 2
    ensures |Apart(n, k)| == if k + 2 <= n then k + 2 else n
  {
    if k + 2 <= n {
      SegmentSize(Apart(n, k) - {0}, n - k - 1, n);
    } else {
      SegmentSize(Apart(n, k), 0, n);
    }
  }

  /** So on a chain the classes grow by one with each propagation, to its length. */
  lemma ChainCounts<D>(h: seq<D> -> D, base: seq<D>, edges: Edges, k: nat)
    requires IsChain(base, edges) && CollisionFree(h, base, edges)
    ensures NumClasses(Round(h, base, edges, k)) == if k + 2 <= |base| then k + 2 else |base|
  {
    var n, r := |base|, Round(h, base, edges, k);
    var a := Apart(n, k);
    forall t, u | t in a && u in a && r[t] == r[u] ensures t == u {
      ChainDigests(h, base, edges, k, t, u);
    }
    forall x | x in Distinct(r) ensures exists t :: t in a && r[t] == x {
      var v: nat :| v < n && r[v] == x;
      if Far(n, k, v) {
        ChainDigests(h, base, edges, k, 0, v);
        assert 0 in a && r[0] == x;
      } else {
        assert v in a;
      }
    }
    OnePerClass(r, a, Distinct(r));
    ApartSize(n, k);
  }

  /** A chain of 3 * 2^15 - 3 candidates or more reaches the second round whose number
      does not fit, and whatever round was the last, the digests say which candidates are
      bisimilar exactly if the chain has no more than 3 * 2^15 + 2. */
  lemma ChainRunsOut<D>(h: seq<D> -> D, base: seq<D>, edges: Edges, round: nat)
    requires IsChain(base, edges) && CollisionFree(h, base, edges) && IsLastRound(h, base, edges, round)
    ensures |base| > 3 * LIMIT - 4 ==> round == LIMIT + 1
    ensures SaysBisimilar(Round(h, base, edges, 3 * (round - 1)), base, edges) <==> |base| <= 3 * LIMIT + 2
  {
    FitsIffSettled(h, base, edges, round);
    LastRoundBound(h, base, edges, round);
    SaysIffSettled(h, base, edges, round);
    ChainCounts(h, base, edges, 3 * (LIMIT - 3));
    ChainCounts(h, base, edges, 3 * (LIMIT - 2));
    ChainCounts(h, base, edges, 3 * LIMIT);
    ChainCounts(h, base, edges, 3 * LIMIT + 1);
  }

  /** No two candidates of a chain are bisimilar. */
  lemma NoneBisimilar<D>(h: seq<D> -> D, base: seq<D>, edges: Edges, i: nat, j: nat)
    requires IsChain(base, edges) && CollisionFree(h, base, edges) && i < |base| && j < |base| && i != j
    ensures !Bisimilar(base, edges, i, j)
  {
    if Bisimilar(base, edges, i, j) {
      var rel :| IsBisimulation(base, edges, rel) && (i, j) in rel;
      BisimilarNeverSplit(h, base, edges, rel, i, j, |base|);
      ChainDigests(h, base, edges, |base|, i, j);
    }
  }

  // ---- A link that is one ----

  /** Function i of n: all have the same bytes, and each but the last calls the next. */
  function Caller(i: nat, n: nat): Isec {
    Isec([], 4, if i + 1 < n then [Reloc(Shape(0, 0, 4, true, false), Section(i + 1), 0)] else [], [],
         true, true, true, false, false)
  }

  function Callers(n: nat): Program { Program(seq(n, i requires 0 <= i < n => Caller(i, n)), []) }

  /** Nothing has been replaced. */
  predicate Unreplaced(repl: seq<nat>) {
    |repl| < NO_REPLACEMENT && forall i :: 0 <= i < |repl| ==> repl[i] == NO_REPLACEMENT
  }

  lemma CallersFit(n: nat, repl: seq<nat>)
    requires Unreplaced(repl) && |repl| == n
    ensures Fits(Callers(n), repl, 0)
  {
    forall id: nat | id < n ensures Ends(repl, id, 0) {
    }
  }

  /** All of them are candidates. */
  lemma {:induction false} AllCollected(n: nat, repl: seq<nat>, c: Candidates, x: nat)
    requires Unreplaced(repl) && |repl| == n && IsCollected(Callers(n), repl, c) && x < n
    ensures c.index[x] == x && x < |c.ids| && c.ids[x] == x
  {
    assert IsEligible(Callers(n).isecs[x], repl[x]);
    assert c.index[x] < |c.ids| && c.ids[c.index[x]] == x;
    if x > 0 {
      AllCollected(n, repl, c, x - 1);
    }
    IncreasingIds(c.ids, c.index[x]);
  }

  lemma {:induction false} IncreasingIds(ids: seq<nat>, i: nat)
    requires i < |ids| && forall j, k :: 0 <= j < k < |ids| ==> ids[j] < ids[k]
    ensures i <= ids[i]
  {
    if i > 0 {
      IncreasingIds(ids, i - 1);
    }
  }

  /** And their graph is a chain. */
  lemma CallerEdges(n: nat, repl: seq<nat>, c: Candidates, i: nat)
    requires Unreplaced(repl) && |repl| == n && IsCollected(Callers(n), repl, c) && GraphOk(Callers(n), repl, 0, c)
    requires i < n
    ensures i < |c.ids| && Graph(Callers(n), repl, 0, c)[i] == if i == n - 1 then [] else [i + 1]
    ensures Bases(Callers(n), repl, 0, c)[i] ==
            Base(4, [], if i == n - 1 then [] else [BaseRel(Shape(0, 0, 4, true, false), 0, Mark)], [])
  {
    var p, res := Callers(n), ResolvedAll(repl, 0);
    AllCollected(n, repl, c, i);
    var es := EdgesOf(p, res, c.index, i);
    if i < n - 1 {
      AllCollected(n, repl, c, i + 1);
      assert p.isecs[i].rels == [Reloc(Shape(0, 0, 4, true, false), Section(i + 1), 0)];
      assert es == [(CandidateEdge(i + 1), 0)];
      assert Firsts(es) == [CandidateEdge(i + 1)];
      OneEdge(i + 1);
    } else {
      assert es == [];
    }
  }

  lemma OneEdge(d: nat)
    ensures CandidateEdges([CandidateEdge(d)]) == [d]
  {
    assert [CandidateEdge(d)][1..] == [];
  }

  lemma CallersAreChain<D>(
    n: nat, h0: Base -> D, h: seq<D> -> D, repl: seq<nat>, c: Candidates, edges: Edges)
    requires n >= 2 && Unreplaced(repl) && |repl| == n && IsCollected(Callers(n), repl, c)
    requires GraphOk(Callers(n), repl, 0, c) && HashOk(Callers(n), h0, h, repl, 0, c)
    requires IsCsrOf(edges, Graph(Callers(n), repl, 0, c))
    ensures |c.ids| == n && IsChain(Digested(h0, Bases(Callers(n), repl, 0, c)), edges)
    ensures CollisionFree(h, Digested(h0, Bases(Callers(n), repl, 0, c)), edges)
  {
    var p := Callers(n);
    AllCollected(n, repl, c, n - 1);
    assert |c.ids| == n;
    forall v: nat | v < n
      ensures edges.Of(v) == if v == n - 1 then [] else [v + 1]
      ensures Bases(p, repl, 0, c)[v] ==
              Base(4, [], if v == n - 1 then [] else [BaseRel(Shape(0, 0, 4, true, false), 0, Mark)], [])
    {
      CallerEdges(n, repl, c, v);
      assert edges.Of(v) == Graph(p, repl, 0, c)[v];
    }
  }

  lemma {:induction false} FewEdges(graph: seq<seq<nat>>, i: nat)
    requires i <= |graph| && forall v :: 0 <= v < |graph| ==> |graph[v]| <= 1
    ensures Start(graph, i) <= i
  {
    if i > 0 {
      FewEdges(graph, i - 1);
    }
  }

  /** Whatever the hash, if it tells apart what the link hashes, the pass on 98,307 such
      functions gets to a round that does not fit, and the first two, which are not
      bisimilar, then have one digest. */
  lemma CallersRunOut<D>(
    n: nat, h0: Base -> D, h: seq<D> -> D, repl: seq<nat>, c: Candidates, edges: Edges, round: nat)
    requires n == 3 * LIMIT + 3 && Unreplaced(repl) && |repl| == n && IsCollected(Callers(n), repl, c)
    requires GraphOk(Callers(n), repl, 0, c) && HashOk(Callers(n), h0, h, repl, 0, c)
    requires IsCsrOf(edges, Graph(Callers(n), repl, 0, c))
    requires IsLastRound(h, Digested(h0, Bases(Callers(n), repl, 0, c)), edges, round)
    ensures round == LIMIT + 1 && |c.ids| == n
    ensures var base := Digested(h0, Bases(Callers(n), repl, 0, c));
            var digests := Round(h, base, edges, 3 * (round - 1));
            digests[0] == digests[1] && !Bisimilar(base, edges, 0, 1)
  {
    var base := Digested(h0, Bases(Callers(n), repl, 0, c));
    CallersAreChain(n, h0, h, repl, c, edges);
    ChainRunsOut(h, base, edges, round);
    ChainDigests(h, base, edges, 3 * LIMIT, 0, 1);
    NoneBisimilar(h, base, edges, 0, 1);
  }

  // ---- The pass on it ----

  /** Digests that keep what they are of, and so never collide. */
  datatype Term = Content(base: Base) | Hash(message: seq<Term>)

  function ContentOf(b: Base): Term { Content(b) }

  function HashOf(m: seq<Term>): Term { Hash(m) }

  lemma TermsTell(p: Program, repl: seq<nat>, hops: nat)
    ensures HashTells(p, ContentOf, HashOf, repl, hops)
  {
  }

  /** It takes 32,769 rounds to end, and does not fold. */
  method FoldCallers() returns (outcome: Outcome, round: nat)
    ensures outcome == TooManyRounds && round == LIMIT + 1
  {
    var n := 3 * LIMIT + 3;
    var replacement, p2align := new nat[n](_ => NO_REPLACEMENT), new nat[n](_ => 0);
    ghost var repl := replacement[..];
    CallersFit(n, repl);
    TermsTell(Callers(n), repl, 0);
    ghost var edges, leaders;
    var c;
    outcome, c, round, edges, leaders := IcfSections(Callers(n), ContentOf, HashOf, replacement, p2align, 0);
    AllCollected(n, repl, c, n - 1);
    forall v: nat | v < n ensures |Graph(Callers(n), repl, 0, c)[v]| <= 1 {
      CallerEdges(n, repl, c, v);
    }
    FewEdges(Graph(Callers(n), repl, 0, c), n);
    CallersRunOut(n, ContentOf, HashOf, repl, c, edges, round);
  }
}
