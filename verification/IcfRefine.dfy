/** The refinement rounds of icf.rs: each round rehashes every candidate with the
    digests of the candidates it refers to, until the number of distinct digests
    stops growing. The hash is any function `h` of a sequence of digests. */
module IcfRefine {
  import opened Classes
  import DigestMap

  /** Candidate i's edges are values[indices[i]..indices[i + 1]]. */
  datatype Edges = Edges(values: seq<nat>, indices: seq<nat>) {
    ghost predicate Valid(n: nat) {
      && |indices| == n + 1
      && (forall i, j :: 0 <= i <= j <= n ==> indices[i] <= indices[j])
      && indices[n] <= |values|
      && (forall k :: 0 <= k < |values| ==> values[k] < n)
    }

    function Of(i: nat): (e: seq<nat>)
      requires i + 1 < |indices| && indices[i] <= indices[i + 1] <= |values|
    {
      values[indices[i]..indices[i + 1]]
    }
  }

  ghost predicate Within(targets: seq<nat>, n: nat) {
    forall m :: 0 <= m < |targets| ==> targets[m] < n
  }

  ghost function Gather<D>(cur: seq<D>, targets: seq<nat>): (r: seq<D>)
    requires Within(targets, |cur|)
    ensures |r| == |targets| && forall m :: 0 <= m < |r| ==> r[m] == cur[targets[m]]
  {
    seq(|targets|, m requires 0 <= m < |targets| => cur[targets[m]])
  }

  ghost function Propagated<D>(h: seq<D> -> D, cur: seq<D>, edges: Edges): (next: seq<D>)
    requires edges.Valid(|cur|)
    ensures |next| == |cur|
  {
    seq(|cur|, i requires 0 <= i < |cur| => h([cur[i]] + Gather(cur, edges.Of(i))))
  }

  /** The digests after k propagations. */
  ghost function Round<D>(h: seq<D> -> D, base: seq<D>, edges: Edges, k: nat): (r: seq<D>)
    requires edges.Valid(|base|)
    ensures |r| == |base|
  {
    if k == 0 then base else Propagated(h, Round(h, base, edges, k - 1), edges)
  }

  /** What round k hashes for candidate i: its own digest, then its edges'. */
  ghost function Message<D>(h: seq<D> -> D, base: seq<D>, edges: Edges, k: nat, i: nat): seq<D>
    requires edges.Valid(|base|) && i < |base|
  {
    var r := Round(h, base, edges, k);
    [r[i]] + Gather(r, edges.Of(i))
  }

  /** The side condition on the hash: within one round, no two candidates'
      different messages collide. */
  ghost predicate CollisionFree<D>(h: seq<D> -> D, base: seq<D>, edges: Edges)
    requires edges.Valid(|base|)
  {
    forall k: nat, i: nat, j: nat {:trigger Message(h, base, edges, k, i), Message(h, base, edges, k, j)} ::
      i < |base| && j < |base| && h(Message(h, base, edges, k, i)) == h(Message(h, base, edges, k, j))
      ==> Message(h, base, edges, k, i) == Message(h, base, edges, k, j)
  }

  /** propagate: fills `next`, then swaps the two buffers. */
  method Propagate<D>(h: seq<D> -> D, cur: array<D>, next: array<D>, edges: Edges)
    returns (cur': array<D>, next': array<D>)
    requires cur != next && cur.Length == next.Length && edges.Valid(cur.Length)
    modifies next
    ensures cur' == next && next' == cur
    ensures cur'[..] == Propagated(h, old(cur[..]), edges) && next'[..] == old(cur[..])
  {
    ghost var before := cur[..];
    for i := 0 to next.Length
      invariant cur[..] == before
      invariant forall k :: 0 <= k < i ==> next[k] == Propagated(h, before, edges)[k]
    {
      var message := [cur[i]];
      var begin, end := edges.indices[i], edges.indices[i + 1];
      for j := begin to end
        invariant message == [before[i]] + Gather(before, edges.values[begin..j])
      {
        message := message + [cur[edges.values[j]]];
      }
      assert message == [before[i]] + Gather(before, edges.Of(i));
      next[i] := h(message);
    }
    assert next[..] == Propagated(h, before, edges);
    cur', next' := next, cur;
  }

  // ---- What the digests decide ----

  /** Candidates i and j have equal base content and their edges are pairwise related. */
  ghost predicate Matches<D>(base: seq<D>, edges: Edges, rel: set<(nat, nat)>, i: nat, j: nat)
    requires edges.Valid(|base|)
  {
    && i < |base| && j < |base|
    && base[i] == base[j]
    && |edges.Of(i)| == |edges.Of(j)|
    && forall m :: 0 <= m < |edges.Of(i)| ==> (edges.Of(i)[m], edges.Of(j)[m]) in rel
  }

  ghost predicate IsBisimulation<D>(base: seq<D>, edges: Edges, rel: set<(nat, nat)>)
    requires edges.Valid(|base|)
  {
    forall i, j {:trigger Matches(base, edges, rel, i, j)} :: (i, j) in rel ==> Matches(base, edges, rel, i, j)
  }

  /** Related by the coarsest such relation. */
  ghost predicate Bisimilar<D>(base: seq<D>, edges: Edges, i: nat, j: nat)
    requires edges.Valid(|base|)
  {
    exists rel :: IsBisimulation(base, edges, rel) && (i, j) in rel
  }

  /** No round ever tells bisimilar candidates apart. */
  lemma {:induction false} BisimilarNeverSplit<D>(
      h: seq<D> -> D, base: seq<D>, edges: Edges, rel: set<(nat, nat)>, i: nat, j: nat, k: nat)
    requires edges.Valid(|base|) && IsBisimulation(base, edges, rel) && (i, j) in rel
    ensures i < |base| && j < |base|
    ensures Round(h, base, edges, k)[i] == Round(h, base, edges, k)[j]
    decreases k
  {
    assert Matches(base, edges, rel, i, j);
    if k > 0 {
      var prev := Round(h, base, edges, k - 1);
      var e, f := edges.Of(i), edges.Of(j);
      BisimilarNeverSplit(h, base, edges, rel, i, j, k - 1);
      forall m | 0 <= m < |e| ensures prev[e[m]] == prev[f[m]] {
        BisimilarNeverSplit(h, base, edges, rel, e[m], f[m], k - 1);
      }
      assert Gather(prev, e) == Gather(prev, f);
    }
  }

  /** Equal digests mean equal digests one round earlier, here and along every edge. */
  lemma EqualDigests<D>(h: seq<D> -> D, base: seq<D>, edges: Edges, k: nat, i: nat, j: nat)
    requires edges.Valid(|base|) && CollisionFree(h, base, edges) && i < |base| && j < |base|
    requires Round(h, base, edges, k + 1)[i] == Round(h, base, edges, k + 1)[j]
    ensures var r := Round(h, base, edges, k);
            && r[i] == r[j]
            && |edges.Of(i)| == |edges.Of(j)|
            && forall m :: 0 <= m < |edges.Of(i)| ==> r[edges.Of(i)[m]] == r[edges.Of(j)[m]]
  {
    var r := Round(h, base, edges, k);
    var a, b := Message(h, base, edges, k, i), Message(h, base, edges, k, j);
    assert h(a) == h(b);
    assert a == b;
    assert a[0] == b[0];
    forall m | 0 <= m < |edges.Of(i)| ensures r[edges.Of(i)[m]] == r[edges.Of(j)[m]] {
      assert a[m + 1] == b[m + 1];
    }
  }

  lemma {:induction false} RoundsRefine<D>(h: seq<D> -> D, base: seq<D>, edges: Edges, k: nat, d: nat)
    requires edges.Valid(|base|) && CollisionFree(h, base, edges)
    ensures Refines(Round(h, base, edges, k + d), Round(h, base, edges, k))
  {
    if d > 0 {
      RoundsRefine(h, base, edges, k, d - 1);
      var fine, mid := Round(h, base, edges, k + d), Round(h, base, edges, k + d - 1);
      forall i, j | 0 <= i < |base| && 0 <= j < |base| && fine[i] == fine[j]
        ensures mid[i] == mid[j]
      {
        EqualDigests(h, base, edges, k + d - 1, i, j);
      }
    }
  }

  /** If three propagations added no class, the classes did not change on the way. */
  lemma StablePartition<D>(h: seq<D> -> D, base: seq<D>, edges: Edges, k: nat)
    requires edges.Valid(|base|) && CollisionFree(h, base, edges)
    requires NumClasses(Round(h, base, edges, k + 3)) == NumClasses(Round(h, base, edges, k))
    ensures Refines(Round(h, base, edges, k), Round(h, base, edges, k + 1))
    ensures Refines(Round(h, base, edges, k + 3), Round(h, base, edges, k))
    ensures Refines(Round(h, base, edges, k), base)
  {
    var a, b, c := Round(h, base, edges, k), Round(h, base, edges, k + 1), Round(h, base, edges, k + 3);
    RoundsRefine(h, base, edges, k, 3);
    RefinementCounts(c, a);
    RoundsRefine(h, base, edges, k + 1, 2);
    RoundsRefine(h, base, edges, 0, k);
    RefinesThrough(a, c, b);
  }

  /** The classes of a stable round, as a relation. */
  function SameClass<D(==)>(r: seq<D>): (rel: set<(nat, nat)>)
    ensures forall i: nat, j: nat :: (i, j) in rel <==> i < |r| && j < |r| && r[i] == r[j]
  {
    set i: nat, j: nat | i < |r| && j < |r| && r[i] == r[j] :: (i, j)
  }

  /** If one propagation splits no class, the classes are a bisimulation. */
  lemma UnsplitIsBisimulation<D>(h: seq<D> -> D, base: seq<D>, edges: Edges, k: nat)
    requires edges.Valid(|base|) && CollisionFree(h, base, edges)
    requires Refines(Round(h, base, edges, k), Round(h, base, edges, k + 1))
    ensures IsBisimulation(base, edges, SameClass(Round(h, base, edges, k)))
  {
    RoundsRefine(h, base, edges, 0, k);
    var r, next := Round(h, base, edges, k), Round(h, base, edges, k + 1);
    var rel := SameClass(r);
    forall i, j | (i, j) in rel ensures Matches(base, edges, rel, i, j) {
      assert next[i] == next[j];
      EqualDigests(h, base, edges, k, i, j);
    }
  }

  lemma StableIsBisimulation<D>(h: seq<D> -> D, base: seq<D>, edges: Edges, k: nat)
    requires edges.Valid(|base|) && CollisionFree(h, base, edges)
    requires NumClasses(Round(h, base, edges, k + 3)) == NumClasses(Round(h, base, edges, k))
    ensures IsBisimulation(base, edges, SameClass(Round(h, base, edges, k)))
  {
    StablePartition(h, base, edges, k);
    UnsplitIsBisimulation(h, base, edges, k);
  }

  /** Two candidates have one digest exactly when they are bisimilar. */
  ghost predicate SaysBisimilar<C, D>(digests: seq<C>, base: seq<D>, edges: Edges)
    requires edges.Valid(|base|) && |digests| == |base|
  {
    forall i, j :: 0 <= i < |base| && 0 <= j < |base| ==> (digests[i] == digests[j] <==> Bisimilar(base, edges, i, j))
  }

  /** Classes that are a bisimulation are those of the coarsest one. */
  lemma BisimulationSays<D>(h: seq<D> -> D, base: seq<D>, edges: Edges, k: nat)
    requires edges.Valid(|base|) && IsBisimulation(base, edges, SameClass(Round(h, base, edges, k)))
    ensures SaysBisimilar(Round(h, base, edges, k), base, edges)
  {
    var r := Round(h, base, edges, k);
    forall i: nat, j: nat | i < |base| && j < |base| ensures r[i] == r[j] <==> Bisimilar(base, edges, i, j) {
      if r[i] == r[j] {
        assert (i, j) in SameClass(r);
      }
      if Bisimilar(base, edges, i, j) {
        var rel :| IsBisimulation(base, edges, rel) && (i, j) in rel;
        BisimilarNeverSplit(h, base, edges, rel, i, j, k);
      }
    }
  }

  /** Digests that say it go on saying it, and their classes stay. */
  lemma SayingStays<D>(h: seq<D> -> D, base: seq<D>, edges: Edges, k: nat, m: nat)
    requires edges.Valid(|base|) && CollisionFree(h, base, edges) && k <= m
    requires SaysBisimilar(Round(h, base, edges, k), base, edges)
    ensures SaysBisimilar(Round(h, base, edges, m), base, edges)
    ensures NumClasses(Round(h, base, edges, m)) == NumClasses(Round(h, base, edges, k))
  {
    var r, s := Round(h, base, edges, k), Round(h, base, edges, m);
    RoundsRefine(h, base, edges, k, m - k);
    forall i: nat, j: nat | i < |base| && j < |base| ensures r[i] == r[j] <==> s[i] == s[j] {
      if Bisimilar(base, edges, i, j) {
        var rel :| IsBisimulation(base, edges, rel) && (i, j) in rel;
        BisimilarNeverSplit(h, base, edges, rel, i, j, m);
      }
    }
    RefinementCounts(s, r);
    RefinementCounts(r, s);
  }

  /** And they say it exactly if the next propagation adds no class. */
  lemma SaysIffUnsplit<D>(h: seq<D> -> D, base: seq<D>, edges: Edges, k: nat)
    requires edges.Valid(|base|) && CollisionFree(h, base, edges)
    ensures SaysBisimilar(Round(h, base, edges, k), base, edges) <==>
            NumClasses(Round(h, base, edges, k + 1)) == NumClasses(Round(h, base, edges, k))
  {
    if SaysBisimilar(Round(h, base, edges, k), base, edges) {
      SayingStays(h, base, edges, k, k + 1);
    }
    if NumClasses(Round(h, base, edges, k + 1)) == NumClasses(Round(h, base, edges, k)) {
      RoundsRefine(h, base, edges, k, 1);
      RefinementCounts(Round(h, base, edges, k + 1), Round(h, base, edges, k));
      UnsplitIsBisimulation(h, base, edges, k);
      BisimulationSays(h, base, edges, k);
    }
  }

  const USIZE_MAX: nat := 0xffff_ffff_ffff_ffff

  /** What three propagations add: never fewer classes, and at most one per candidate. */
  lemma CountsGrow<D>(h: seq<D> -> D, base: seq<D>, edges: Edges, k: nat)
    requires edges.Valid(|base|) && CollisionFree(h, base, edges)
    ensures NumClasses(Round(h, base, edges, k)) <= NumClasses(Round(h, base, edges, k + 3)) <= |base|
  {
    RoundsRefine(h, base, edges, k, 3);
    RefinementCounts(Round(h, base, edges, k + 3), Round(h, base, edges, k));
    NumClassesBound(Round(h, base, edges, k + 3));
  }

  method PropagateThrice<D>(
    h: seq<D> -> D, cur: array<D>, next: array<D>, edges: Edges, ghost base: seq<D>, ghost k: nat)
    returns (cur': array<D>, next': array<D>)
    requires cur != next && cur.Length == next.Length == |base| && edges.Valid(|base|)
    requires cur[..] == Round(h, base, edges, k)
    modifies cur, next
    ensures cur' == next && next' == cur
    ensures cur'[..] == Round(h, base, edges, k + 3)
  {
    cur', next' := Propagate(h, cur, next, edges);
    assert cur'[..] == Round(h, base, edges, k + 1);
    cur', next' := Propagate(h, cur', next', edges);
    assert cur'[..] == Round(h, base, edges, k + 2);
    cur', next' := Propagate(h, cur', next', edges);
  }

  // ---- The loop ----

  /** What the table's round q counts: it comes after 3 (q - 1) propagations. */
  ghost function CountAt<D>(h: seq<D> -> D, base: seq<D>, edges: Edges, q: nat): nat
    requires edges.Valid(|base|) && q > 0
  {
    DigestMap.Counted(Round(h, base, edges, 3 * (q - 1)), q)
  }

  /** Up to round m no count repeats the one before it; round 2 is the first that counts. */
  ghost predicate NoRepeat<D>(h: seq<D> -> D, base: seq<D>, edges: Edges, m: nat)
    requires edges.Valid(|base|)
  {
    forall q: nat :: 3 <= q <= m ==> CountAt(h, base, edges, q) != CountAt(h, base, edges, q - 1)
  }

  /** The table's first round that counts what the one before it did. */
  ghost predicate IsLastRound<D>(h: seq<D> -> D, base: seq<D>, edges: Edges, round: nat)
    requires edges.Valid(|base|)
  {
    && 3 <= round && CountAt(h, base, edges, round) == CountAt(h, base, edges, round - 1)
    && NoRepeat(h, base, edges, round - 1)
  }

  lemma CountAtGrows<D>(h: seq<D> -> D, base: seq<D>, edges: Edges, q: nat)
    requires edges.Valid(|base|) && CollisionFree(h, base, edges) && q > 0 && |base| > 0
    ensures 0 < CountAt(h, base, edges, q) <= CountAt(h, base, edges, q + 1) <= |base|
  {
    CountsGrow(h, base, edges, 3 * (q - 1));
    NumClassesBound(Round(h, base, edges, 3 * (q - 1)));
  }

  /** No count has been repeated up to this round, and it is the last one counted. */
  ghost predicate Counting<D>(h: seq<D> -> D, base: seq<D>, edges: Edges, round: nat, numClasses: nat)
    requires edges.Valid(|base|)
  {
    && 1 <= round && NoRepeat(h, base, edges, round)
    && if round == 1 then numClasses == USIZE_MAX
       else numClasses == CountAt(h, base, edges, round) && round <= 1 + numClasses <= 1 + |base|
  }

  /** After one more count. */
  lemma CountsOn<D>(h: seq<D> -> D, base: seq<D>, edges: Edges, round: nat, numClasses: nat, n: nat)
    requires edges.Valid(|base|) && CollisionFree(h, base, edges) && 0 < |base| < USIZE_MAX
    requires round > 1 && Counting(h, base, edges, round - 1, numClasses) && n == CountAt(h, base, edges, round)
    ensures n <= |base|
    ensures n == numClasses ==> IsLastRound(h, base, edges, round) && 3 <= round <= |base| + 2
    ensures n != numClasses ==> Counting(h, base, edges, round, n) && (numClasses < n || numClasses == USIZE_MAX)
  {
    CountAtGrows(h, base, edges, round - 1);
    if n != numClasses {
      NoRepeatYet(h, base, edges, round);
    }
  }

  lemma NoRepeatYet<D>(h: seq<D> -> D, base: seq<D>, edges: Edges, m: nat)
    requires edges.Valid(|base|) && m > 1 && NoRepeat(h, base, edges, m - 1)
    requires m >= 3 ==> CountAt(h, base, edges, m) != CountAt(h, base, edges, m - 1)
    ensures NoRepeat(h, base, edges, m)
  {
  }

  /** Three propagations and count_num_classes, as a round of the digest table counts. */
  method CountRound<D(==)>(
    h: seq<D> -> D, cur: array<D>, next: array<D>, edges: Edges, ghost base: seq<D>, round: nat)
    returns (cur': array<D>, next': array<D>, n: nat)
    requires cur != next && cur.Length == next.Length == |base| && edges.Valid(|base|)
    requires round > 1 && cur[..] == Round(h, base, edges, 3 * (round - 2))
    modifies cur, next
    ensures cur' == next && next' == cur && cur'[..] == Round(h, base, edges, 3 * (round - 1))
    ensures n == CountAt(h, base, edges, round)
  {
    cur', next' := PropagateThrice(h, cur, next, edges, base, 3 * (round - 2));
    n := DigestMap.Counted(cur'[..], round);
  }

  /** The refinement loop: three propagations per count, until the count repeats. It ends
      with the table's first round that repeats a count. If that round's number fits the
      stamp of the table's slots, two candidates then have one digest exactly when they
      are bisimilar; it fits if there are fewer than 2^15 - 2 candidates. */
  method Refine<D(==)>(h: seq<D> -> D, base: seq<D>, edges: Edges) returns (digests: seq<D>, round: nat)
    requires edges.Valid(|base|) && CollisionFree(h, base, edges)
    requires 0 < |base| < USIZE_MAX
    ensures 3 <= round <= |base| + 2 && digests == Round(h, base, edges, 3 * (round - 1))
    ensures IsLastRound(h, base, edges, round)
    ensures round < DigestMap.ROUND_LIMIT ==> SaysBisimilar(digests, base, edges)
  {
    var digestsNow := new D[|base|](i requires 0 <= i < |base| => base[i]);
    var scratch := new D[|base|](_ => base[0]);
    assert digestsNow[..] == base;
    digests, round := RefineIn(h, digestsNow, scratch, edges, base);
    if round < DigestMap.ROUND_LIMIT {
      EarlyRoundSays(h, base, edges, round);
    }
  }

  /** Its loop over the two buffers. */
  method RefineIn<D(==)>(h: seq<D> -> D, a: array<D>, b: array<D>, edges: Edges, ghost base: seq<D>)
    returns (digests: seq<D>, round: nat)
    requires edges.Valid(|base|) && CollisionFree(h, base, edges) && 0 < |base| < USIZE_MAX
    requires a != b && a.Length == b.Length == |base| && a[..] == base
    modifies a, b
    ensures 3 <= round <= |base| + 2 && digests == Round(h, base, edges, 3 * (round - 1))
    ensures IsLastRound(h, base, edges, round)
  {
    var cur, next, numClasses := a, b, USIZE_MAX;
    round := 1;
    while true
      invariant {cur, next} == {a, b} && cur != next
      invariant 1 <= round && cur[..] == Round(h, base, edges, 3 * (round - 1))
      invariant Counting(h, base, edges, round, numClasses)
      decreases if numClasses == USIZE_MAX then |base| + 1 else |base| - numClasses
    {
      var n;
      round := round + 1;
      cur, next, n := CountRound(h, cur, next, edges, base, round);
      CountsOn(h, base, edges, round, numClasses, n);
      if n == numClasses {
        break;
      }
      numClasses := n;
    }
    digests := cur[..];
  }

  lemma EarlyRoundSays<D>(h: seq<D> -> D, base: seq<D>, edges: Edges, round: nat)
    requires edges.Valid(|base|) && CollisionFree(h, base, edges)
    requires IsLastRound(h, base, edges, round) && round < DigestMap.ROUND_LIMIT
    ensures SaysBisimilar(Round(h, base, edges, 3 * (round - 2)), base, edges)
    ensures SaysBisimilar(Round(h, base, edges, 3 * (round - 1)), base, edges)
  {
    var k := 3 * (round - 2);
    StableIsBisimulation(h, base, edges, k);
    BisimulationSays(h, base, edges, k);
    SayingStays(h, base, edges, k, k + 3);
  }

  // ---- When the rounds run out ----

  const LIMIT: nat := DigestMap.ROUND_LIMIT

  /** The last round fits the stamp exactly if the classes have settled three propagations
      before the last round that does. */
  lemma FitsIffSettled<D>(h: seq<D> -> D, base: seq<D>, edges: Edges, round: nat)
    requires edges.Valid(|base|) && CollisionFree(h, base, edges) && IsLastRound(h, base, edges, round)
    ensures round < LIMIT <==>
            NumClasses(Round(h, base, edges, 3 * (LIMIT - 2))) == NumClasses(Round(h, base, edges, 3 * (LIMIT - 3)))
  {
    if round < LIMIT {
      EarlyRoundSays(h, base, edges, round);
      SayingStays(h, base, edges, 3 * (round - 2), 3 * (LIMIT - 3));
      SayingStays(h, base, edges, 3 * (round - 2), 3 * (LIMIT - 2));
    } else {
      assert CountAt(h, base, edges, LIMIT - 1) != CountAt(h, base, edges, (LIMIT - 1) - 1);
    }
  }

  /** From round 2^15 on every candidate is counted, so at most two such rounds come. */
  lemma LastRoundBound<D>(h: seq<D> -> D, base: seq<D>, edges: Edges, round: nat)
    requires edges.Valid(|base|) && IsLastRound(h, base, edges, round)
    ensures round <= LIMIT + 1
  {
    assert CountAt(h, base, edges, LIMIT + 1) == CountAt(h, base, edges, LIMIT + 1 - 1);
  }

  /** If all digests differ, they say it. */
  lemma AllDifferSays<D>(h: seq<D> -> D, base: seq<D>, edges: Edges, k: nat)
    requires edges.Valid(|base|) && CollisionFree(h, base, edges)
    requires NumClasses(Round(h, base, edges, k)) == |base|
    ensures SaysBisimilar(Round(h, base, edges, k), base, edges)
  {
    RoundsRefine(h, base, edges, k, 1);
    RefinementCounts(Round(h, base, edges, k + 1), Round(h, base, edges, k));
    NumClassesBound(Round(h, base, edges, k + 1));
    SaysIffUnsplit(h, base, edges, k);
  }

  /** Whatever round was the last, the digests say which candidates are bisimilar exactly
      if the classes have settled after 3 * 2^15 propagations. */
  lemma SaysIffSettled<D>(h: seq<D> -> D, base: seq<D>, edges: Edges, round: nat)
    requires edges.Valid(|base|) && CollisionFree(h, base, edges) && IsLastRound(h, base, edges, round)
    ensures SaysBisimilar(Round(h, base, edges, 3 * (round - 1)), base, edges) <==>
            NumClasses(Round(h, base, edges, 3 * LIMIT + 1)) == NumClasses(Round(h, base, edges, 3 * LIMIT))
  {
    LastRoundBound(h, base, edges, round);
    SaysIffUnsplit(h, base, edges, 3 * LIMIT);
    if round < LIMIT {
      EarlyRoundSays(h, base, edges, round);
    } else if round == LIMIT {
      AllDifferSays(h, base, edges, 3 * (round - 2));
      SayingStays(h, base, edges, 3 * (round - 2), 3 * (round - 1));
    }
    if SaysBisimilar(Round(h, base, edges, 3 * (round - 1)), base, edges) {
      SayingStays(h, base, edges, 3 * (round - 1), 3 * LIMIT);
    }
  }
}
