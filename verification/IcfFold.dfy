/** Folding: every member of a class is replaced by the class's lowest-index
    member. What a reference unfolds to is unchanged by it. */
module IcfFold {
  import opened Targets
  import opened Options
  import opened Classes
  import opened IcfGraph
  import opened IcfRefine

  // ---- The meaning of a subsection ----

  /** A subsection unfolded to some depth: its bytes, and what each relocation and
      each LSDA reference leads to. Identity of subsections does not appear. */
  datatype Tree = Leaf | Node(size: nat, bytes: seq<nat>, refs: seq<Ref>, unwind: seq<UnwindView>)

  datatype Ref =
    | ToSymbol(shape: Shape, sym: nat, addend: int)
    | ToTree(shape: Shape, target: Tree, offset: int)

  datatype UnwindView = UnwindView(fixed: nat, personality: Option<nat>, lsda: Option<(Tree, nat)>)

  ghost predicate Fits(p: Program, repl: seq<nat>, hops: nat) {
    p.Valid() && |repl| == |p.isecs| && Settled(repl, hops)
  }

  ghost function Unfold(p: Program, repl: seq<nat>, hops: nat, id: nat, k: nat): Tree
    requires Fits(p, repl, hops) && id < |repl|
    decreases k, 0
  {
    if k == 0 then Leaf else
      var isec := p.isecs[Chase(repl, id, hops)];
      Node(isec.size, isec.bytes,
           seq(|isec.rels|, m requires 0 <= m < |isec.rels| =>
             assert p.TargetOk(isec.rels[m].target); RefOf(p, repl, hops, isec.rels[m], k - 1)),
           seq(|isec.unwind|, m requires 0 <= m < |isec.unwind| =>
             assert p.LsdaOk(isec.unwind[m].lsda); ViewOf(p, repl, hops, isec.unwind[m], k - 1)))
  }

  ghost function RefOf(p: Program, repl: seq<nat>, hops: nat, rel: Reloc, k: nat): Ref
    requires Fits(p, repl, hops) && p.TargetOk(rel.target)
    decreases k, 1
  {
    match rel.target
    case Sym(s) =>
      if p.symbols[s].isec.Some?
      then ToTree(rel.shape, Unfold(p, repl, hops, p.symbols[s].isec.value, k), p.symbols[s].value + rel.addend)
      else ToSymbol(rel.shape, s, rel.addend)
    case Section(i) => ToTree(rel.shape, Unfold(p, repl, hops, i, k), rel.addend)
  }

  ghost function ViewOf(p: Program, repl: seq<nat>, hops: nat, u: Unwind, k: nat): UnwindView
    requires Fits(p, repl, hops) && p.LsdaOk(u.lsda)
    decreases k, 1
  {
    UnwindView(u.fixed, u.personality,
               if u.lsda.Some? then Some((Unfold(p, repl, hops, u.lsda.value.0, k), u.lsda.value.1)) else None)
  }

  lemma UnfoldResolved(p: Program, repl: seq<nat>, hops: nat, id: nat, k: nat)
    requires Fits(p, repl, hops) && id < |repl|
    ensures Unfold(p, repl, hops, id, k) == Unfold(p, repl, hops, Chase(repl, id, hops), k)
  {
    assert Ends(repl, id, hops);
  }

  // ---- Candidates, their bases and their graph ----

  predicate IsEligible(isec: Isec, replacement: nat) {
    && isec.alive && replacement == NO_REPLACEMENT && isec.isText
    && isec.size != 0 && (isec.insignificant || !isec.addressTaken) && !isec.kept
  }

  datatype Candidates = Candidates(ids: seq<nat>, index: seq<nat>) {
    /** `ids` is increasing and unreplaced, and `index` is its inverse. */
    ghost predicate Valid(repl: seq<nat>) {
      && |index| == |repl|
      && |ids| < NOT_CANDIDATE
      && (forall i :: 0 <= i < |ids| ==> ids[i] < |repl| && repl[ids[i]] == NO_REPLACEMENT && index[ids[i]] == i)
      && (forall i, j :: 0 <= i < j < |ids| ==> ids[i] < ids[j])
      && (forall id :: 0 <= id < |index| && index[id] != NOT_CANDIDATE
            ==> index[id] < |ids| && ids[index[id]] == id)
    }
  }

  ghost function ResolvedAll(repl: seq<nat>, hops: nat): (r: seq<nat>)
    requires InRange(repl)
    ensures |r| == |repl| && forall i :: 0 <= i < |r| ==> r[i] == Chase(repl, i, hops) < |repl|
  {
    seq(|repl|, i requires 0 <= i < |repl| => Chase(repl, i, hops))
  }

  function EdgesOf(p: Program, resolved: seq<nat>, index: seq<nat>, id: nat): (es: seq<(Edge, int)>)
    requires p.Valid() && |resolved| == |index| == |p.isecs| && id < |p.isecs|
    requires forall i :: 0 <= i < |resolved| ==> resolved[i] < |index|
    ensures |es| == |p.isecs[id].rels|
  {
    var rels := p.isecs[id].rels;
    seq(|rels|, m requires 0 <= m < |rels| =>
      assert p.TargetOk(p.isecs[id].rels[m].target); EdgeTarget(p, resolved, index, rels[m]))
  }

  function Firsts(es: seq<(Edge, int)>): (r: seq<Edge>)
    ensures |r| == |es| && forall m :: 0 <= m < |es| ==> r[m] == es[m].0
  {
    seq(|es|, m requires 0 <= m < |es| => es[m].0)
  }

  /** compute_digest's input for subsection `id`. */
  function BaseFor(p: Program, resolved: seq<nat>, index: seq<nat>, id: nat): (b: Base)
    requires p.Valid() && |resolved| == |index| == |p.isecs| && id < |p.isecs|
    requires forall i :: 0 <= i < |resolved| ==> resolved[i] < |index|
  {
    var isec := p.isecs[id];
    var es := EdgesOf(p, resolved, index, id);
    Base(isec.size, isec.bytes,
         seq(|es|, m requires 0 <= m < |es| => BaseRel(isec.rels[m].shape, es[m].1, BaseOf(es[m].0))),
         seq(|isec.unwind|, m requires 0 <= m < |isec.unwind| =>
           assert p.LsdaOk(isec.unwind[m].lsda);
           BaseUnwind(isec.unwind[m].fixed, isec.unwind[m].personality,
             if isec.unwind[m].lsda.Some?
             then Some((resolved[isec.unwind[m].lsda.value.0], isec.unwind[m].lsda.value.1)) else None)))
  }

  ghost predicate GraphOk(p: Program, repl: seq<nat>, hops: nat, c: Candidates) {
    Fits(p, repl, hops) && c.Valid(repl)
  }

  ghost function Graph(p: Program, repl: seq<nat>, hops: nat, c: Candidates): (g: seq<seq<nat>>)
    requires GraphOk(p, repl, hops, c)
    ensures |g| == |c.ids|
  {
    seq(|c.ids|, i requires 0 <= i < |c.ids| =>
      CandidateEdges(Firsts(EdgesOf(p, ResolvedAll(repl, hops), c.index, c.ids[i]))))
  }

  ghost function Bases(p: Program, repl: seq<nat>, hops: nat, c: Candidates): (b: seq<Base>)
    requires GraphOk(p, repl, hops, c)
    ensures |b| == |c.ids|
  {
    seq(|c.ids|, i requires 0 <= i < |c.ids| => BaseFor(p, ResolvedAll(repl, hops), c.index, c.ids[i]))
  }

  // ---- Bisimilar candidates unfold alike ----

  /** An edge names a subsection that exists. */
  ghost predicate EdgeOk(c: Candidates, e: Edge) {
    match e
    case CandidateEdge(d) => d < |c.ids|
    case IsecEdge(i, _) => i < |c.index|
    case SymEdge(_) => true
  }

  ghost function EdgeView(
    p: Program, repl: seq<nat>, hops: nat, c: Candidates, shape: Shape, e: Edge, a: int, k: nat): Ref
    requires GraphOk(p, repl, hops, c) && EdgeOk(c, e)
  {
    match e
    case CandidateEdge(d) => ToTree(shape, Unfold(p, repl, hops, c.ids[d], k), a)
    case IsecEdge(i, v) => ToTree(shape, Unfold(p, repl, hops, i, k), v + a)
    case SymEdge(s) => ToSymbol(shape, s, a)
  }

  /** A relocation's view is its edge's. */
  lemma RefByEdge(p: Program, repl: seq<nat>, hops: nat, c: Candidates, rel: Reloc, k: nat)
    requires GraphOk(p, repl, hops, c) && p.TargetOk(rel.target)
    ensures var ea := EdgeTarget(p, ResolvedAll(repl, hops), c.index, rel);
            EdgeOk(c, ea.0) && RefOf(p, repl, hops, rel, k) == EdgeView(p, repl, hops, c, rel.shape, ea.0, ea.1, k)
  {
    match rel.target
    case Sym(s) =>
      if p.symbols[s].isec.Some? {
        UnfoldResolved(p, repl, hops, p.symbols[s].isec.value, k);
      }
    case Section(i) => UnfoldResolved(p, repl, hops, i, k);
  }

  ghost predicate RelatesGraph(p: Program, repl: seq<nat>, hops: nat, c: Candidates, rel: set<(nat, nat)>)
    requires GraphOk(p, repl, hops, c)
  {
    var bases, graph := Bases(p, repl, hops, c), Graph(p, repl, hops, c);
    forall i, j {:trigger (i, j) in rel} :: (i, j) in rel ==>
      && i < |c.ids| && j < |c.ids| && bases[i] == bases[j] && |graph[i]| == |graph[j]|
      && forall m :: 0 <= m < |graph[i]| ==> (graph[i][m], graph[j][m]) in rel
  }

  /** Edge m of two related candidates: equal but for related candidate indices. */
  lemma RelatedEdge(p: Program, repl: seq<nat>, hops: nat, c: Candidates, rel: set<(nat, nat)>, i: nat, j: nat, m: nat)
    requires GraphOk(p, repl, hops, c) && RelatesGraph(p, repl, hops, c, rel) && (i, j) in rel
    ensures i < |c.ids| && j < |c.ids|
    ensures |p.isecs[c.ids[i]].rels| == |p.isecs[c.ids[j]].rels|
    ensures m < |p.isecs[c.ids[i]].rels| ==>
              var res := ResolvedAll(repl, hops);
              var (e, a), (f, b) := EdgesOf(p, res, c.index, c.ids[i])[m], EdgesOf(p, res, c.index, c.ids[j])[m];
              && a == b && p.isecs[c.ids[i]].rels[m].shape == p.isecs[c.ids[j]].rels[m].shape
              && (if e.CandidateEdge? then f.CandidateEdge? && (e.c, f.c) in rel else e == f)
  {
    var res := ResolvedAll(repl, hops);
    var es, fs := EdgesOf(p, res, c.index, c.ids[i]), EdgesOf(p, res, c.index, c.ids[j]);
    var x, y := BaseFor(p, res, c.index, c.ids[i]), BaseFor(p, res, c.index, c.ids[j]);
    assert Bases(p, repl, hops, c)[i] == x && Bases(p, repl, hops, c)[j] == y;
    assert |x.rels| == |y.rels|;
    forall k | 0 <= k < |es| ensures BaseOf(Firsts(es)[k]) == BaseOf(Firsts(fs)[k]) && es[k].1 == fs[k].1 {
      assert x.rels[k] == y.rels[k];
    }
    if m < |es| {
      assert x.rels[m] == y.rels[m];
      if es[m].0.CandidateEdge? {
        MarkedPair(Firsts(es), Firsts(fs), rel, m);
      }
    }
  }

  lemma {:induction false} RelatedUnfold(
      p: Program, repl: seq<nat>, hops: nat, c: Candidates, rel: set<(nat, nat)>, i: nat, j: nat, k: nat)
    requires GraphOk(p, repl, hops, c) && RelatesGraph(p, repl, hops, c, rel) && (i, j) in rel
    ensures i < |c.ids| && j < |c.ids|
    ensures Unfold(p, repl, hops, c.ids[i], k) == Unfold(p, repl, hops, c.ids[j], k)
    decreases k, 1
  {
    if k > 0 {
      var x, y := p.isecs[c.ids[i]], p.isecs[c.ids[j]];
      RelatedEdge(p, repl, hops, c, rel, i, j, 0);
      forall m | 0 <= m < |x.rels|
        ensures p.TargetOk(x.rels[m].target) && p.TargetOk(y.rels[m].target)
        ensures RefOf(p, repl, hops, x.rels[m], k - 1) == RefOf(p, repl, hops, y.rels[m], k - 1)
      {
        RelatedRef(p, repl, hops, c, rel, i, j, m, k);
      }
      RelatedUnwind(p, repl, hops, c, i, j, k);
      var s, t := Unfold(p, repl, hops, c.ids[i], k), Unfold(p, repl, hops, c.ids[j], k);
      assert s.refs == t.refs;
    }
  }

  /** Edges that differ only in which of two related candidates they name. */
  predicate SameEdge(rel: set<(nat, nat)>, x: (Edge, int), y: (Edge, int)) {
    x.1 == y.1 && if x.0.CandidateEdge? then y.0.CandidateEdge? && (x.0.c, y.0.c) in rel else x.0 == y.0
  }

  /** The m-th edges of related candidates, by their relocations. */
  lemma RelatedTargets(
    p: Program, repl: seq<nat>, hops: nat, c: Candidates, rel: set<(nat, nat)>, i: nat, j: nat, m: nat)
    requires GraphOk(p, repl, hops, c) && RelatesGraph(p, repl, hops, c, rel) && (i, j) in rel
    requires i < |c.ids| && j < |c.ids| && m < |p.isecs[c.ids[i]].rels| == |p.isecs[c.ids[j]].rels|
    ensures var x, y := p.isecs[c.ids[i]].rels[m], p.isecs[c.ids[j]].rels[m];
            && p.TargetOk(x.target) && p.TargetOk(y.target) && x.shape == y.shape
            && var res := ResolvedAll(repl, hops);
               SameEdge(rel, EdgeTarget(p, res, c.index, x), EdgeTarget(p, res, c.index, y))
  {
    var x, y := p.isecs[c.ids[i]].rels[m], p.isecs[c.ids[j]].rels[m];
    assert p.TargetOk(x.target) && p.TargetOk(y.target);
    RelatedEdge(p, repl, hops, c, rel, i, j, m);
  }

  /** Edges of one view: equal, or naming candidates that unfold alike. */
  ghost predicate AlikeEdges(
    p: Program, repl: seq<nat>, hops: nat, c: Candidates, x: (Edge, int), y: (Edge, int), k: nat)
    requires GraphOk(p, repl, hops, c) && EdgeOk(c, x.0) && EdgeOk(c, y.0)
  {
    && x.1 == y.1
    && if x.0.CandidateEdge? then
         y.0.CandidateEdge? && Unfold(p, repl, hops, c.ids[x.0.c], k) == Unfold(p, repl, hops, c.ids[y.0.c], k)
       else x.0 == y.0
  }

  lemma TargetEdgeOk(p: Program, repl: seq<nat>, hops: nat, c: Candidates, rel: Reloc)
    requires GraphOk(p, repl, hops, c) && p.TargetOk(rel.target)
    ensures EdgeOk(c, EdgeTarget(p, ResolvedAll(repl, hops), c.index, rel).0)
  {
    RefByEdge(p, repl, hops, c, rel, 0);
  }

  lemma RefsAgree(
    p: Program, repl: seq<nat>, hops: nat, c: Candidates, x: Reloc, y: Reloc, e: (Edge, int), f: (Edge, int), k: nat)
    requires GraphOk(p, repl, hops, c) && p.TargetOk(x.target) && p.TargetOk(y.target) && x.shape == y.shape
    requires e == EdgeTarget(p, ResolvedAll(repl, hops), c.index, x) && EdgeOk(c, e.0)
    requires f == EdgeTarget(p, ResolvedAll(repl, hops), c.index, y) && EdgeOk(c, f.0)
    requires AlikeEdges(p, repl, hops, c, e, f, k)
    ensures RefOf(p, repl, hops, x, k) == RefOf(p, repl, hops, y, k)
  {
    RefByEdge(p, repl, hops, c, x, k);
    RefByEdge(p, repl, hops, c, y, k);
  }

  /** The m-th references of related candidates. */
  lemma {:induction false} RelatedRef(
      p: Program, repl: seq<nat>, hops: nat, c: Candidates, rel: set<(nat, nat)>, i: nat, j: nat, m: nat, k: nat)
    requires GraphOk(p, repl, hops, c) && RelatesGraph(p, repl, hops, c, rel) && (i, j) in rel && k > 0
    requires i < |c.ids| && j < |c.ids| && m < |p.isecs[c.ids[i]].rels| == |p.isecs[c.ids[j]].rels|
    ensures var x, y := p.isecs[c.ids[i]].rels[m], p.isecs[c.ids[j]].rels[m];
            && p.TargetOk(x.target) && p.TargetOk(y.target)
            && RefOf(p, repl, hops, x, k - 1) == RefOf(p, repl, hops, y, k - 1)
    decreases k, 0
  {
    var res := ResolvedAll(repl, hops);
    var x, y := p.isecs[c.ids[i]].rels[m], p.isecs[c.ids[j]].rels[m];
    RelatedTargets(p, repl, hops, c, rel, i, j, m);
    TargetEdgeOk(p, repl, hops, c, x);
    TargetEdgeOk(p, repl, hops, c, y);
    var e, f := EdgeTarget(p, res, c.index, x), EdgeTarget(p, res, c.index, y);
    if e.0.CandidateEdge? {
      RelatedUnfold(p, repl, hops, c, rel, e.0.c, f.0.c, k - 1);
    }
    RefsAgree(p, repl, hops, c, x, y, e, f, k - 1);
  }

  lemma RelatedUnwind(p: Program, repl: seq<nat>, hops: nat, c: Candidates, i: nat, j: nat, k: nat)
    requires GraphOk(p, repl, hops, c) && i < |c.ids| && j < |c.ids| && k > 0
    requires Bases(p, repl, hops, c)[i] == Bases(p, repl, hops, c)[j]
    ensures var s, t := Unfold(p, repl, hops, c.ids[i], k), Unfold(p, repl, hops, c.ids[j], k);
            s.unwind == t.unwind && s.size == t.size && s.bytes == t.bytes
  {
    var res := ResolvedAll(repl, hops);
    var x, y := BaseFor(p, res, c.index, c.ids[i]), BaseFor(p, res, c.index, c.ids[j]);
    var u, v := p.isecs[c.ids[i]].unwind, p.isecs[c.ids[j]].unwind;
    assert x == Bases(p, repl, hops, c)[i] == Bases(p, repl, hops, c)[j] == y;
    assert |u| == |x.unwind| == |y.unwind| == |v|;
    forall m | 0 <= m < |u|
      ensures p.LsdaOk(u[m].lsda) && p.LsdaOk(v[m].lsda)
      ensures ViewOf(p, repl, hops, u[m], k - 1) == ViewOf(p, repl, hops, v[m], k - 1)
    {
      assert p.LsdaOk(p.isecs[c.ids[i]].unwind[m].lsda) && p.LsdaOk(p.isecs[c.ids[j]].unwind[m].lsda);
      assert x.unwind[m] == y.unwind[m];
      if u[m].lsda.Some? {
        UnfoldResolved(p, repl, hops, u[m].lsda.value.0, k - 1);
        UnfoldResolved(p, repl, hops, v[m].lsda.value.0, k - 1);
      }
    }
  }

  // ---- The fold ----

  /** Leaders are the lowest members of their classes. */
  ghost predicate LeadersOk(leaders: seq<nat>, n: nat) {
    |leaders| == n && forall i :: 0 <= i < n ==> leaders[i] <= i && leaders[leaders[i]] == leaders[i]
  }

  /** Where subsection `id`, once resolved, goes after the fold. */
  ghost function Lead(c: Candidates, leaders: seq<nat>, id: nat): nat
    requires id < |c.index| && LeadersOk(leaders, |c.ids|)
    requires c.index[id] != NOT_CANDIDATE ==> c.index[id] < |c.ids|
  {
    if c.index[id] == NOT_CANDIDATE then id else c.ids[leaders[c.index[id]]]
  }

  /** The replacements after the fold. */
  ghost predicate FoldedTo(repl: seq<nat>, repl': seq<nat>, c: Candidates, leaders: seq<nat>)
    requires c.Valid(repl) && LeadersOk(leaders, |c.ids|)
  {
    && |repl'| == |repl|
    && forall id :: 0 <= id < |repl| ==>
         repl'[id] == if Lead(c, leaders, id) != id then Lead(c, leaders, id) else repl[id]
  }

  /** The alignments after the fold: each leader's is the largest of its class. */
  ghost predicate AlignedTo(align: seq<nat>, align': seq<nat>, c: Candidates, leaders: seq<nat>)
    requires |c.index| == |align| && (forall i :: 0 <= i < |c.ids| ==> c.ids[i] < |align|)
    requires LeadersOk(leaders, |c.ids|)
  {
    && |align'| == |align|
    && (forall i :: 0 <= i < |c.ids| ==> align[c.ids[i]] <= align'[c.ids[leaders[i]]])
    && (forall l :: 0 <= l < |c.ids| && leaders[l] == l ==>
          exists i :: 0 <= i < |c.ids| && leaders[i] == l && align'[c.ids[l]] == align[c.ids[i]])
    && (forall i :: 0 <= i < |c.ids| && leaders[i] != i ==> align'[c.ids[i]] == align[c.ids[i]])
    && (forall id :: 0 <= id < |align| && c.index[id] == NOT_CANDIDATE ==> align'[id] == align[id])
  }

  /** The alignments once the first n candidates have been looked at. */
  ghost function FoldAlign(align: seq<nat>, c: Candidates, leaders: seq<nat>, n: nat): (r: seq<nat>)
    requires n <= |c.ids| && LeadersOk(leaders, |c.ids|) && (forall i :: 0 <= i < |c.ids| ==> c.ids[i] < |align|)
    ensures |r| == |align|
  {
    if n == 0 then align else
      var prev, l := FoldAlign(align, c, leaders, n - 1), leaders[n - 1];
      if l == n - 1 then prev
      else Raise(prev, c.ids[n - 1], c.ids[l])
  }

  ghost predicate Separate(ids: seq<nat>, n: nat) {
    (forall i :: 0 <= i < |ids| ==> ids[i] < n) && forall i, j :: 0 <= i < j < |ids| ==> ids[i] != ids[j]
  }

  lemma {:induction false} MemberKeeps(align: seq<nat>, c: Candidates, leaders: seq<nat>, n: nat, i: nat)
    requires Separate(c.ids, |align|) && LeadersOk(leaders, |c.ids|) && n <= |c.ids|
    requires i < |c.ids| && leaders[i] != i
    ensures FoldAlign(align, c, leaders, n)[c.ids[i]] == align[c.ids[i]]
  {
    if n > 0 {
      MemberKeeps(align, c, leaders, n - 1, i);
      AlignStep(align, FoldAlign(align, c, leaders, n - 1), c, leaders, n - 1);
      assert leaders[n - 1] != i;
    }
  }

  lemma {:induction false} OtherKeeps(align: seq<nat>, c: Candidates, leaders: seq<nat>, n: nat, id: nat)
    requires Separate(c.ids, |align|) && LeadersOk(leaders, |c.ids|) && n <= |c.ids|
    requires id < |align| && id !in c.ids
    ensures FoldAlign(align, c, leaders, n)[id] == align[id]
  {
    if n > 0 {
      OtherKeeps(align, c, leaders, n - 1, id);
      AlignStep(align, FoldAlign(align, c, leaders, n - 1), c, leaders, n - 1);
    }
  }

  /** What candidate n - 1 does to the alignment of leader l. */
  lemma LeaderStep(align: seq<nat>, c: Candidates, leaders: seq<nat>, n: nat, l: nat)
    requires Separate(c.ids, |align|) && LeadersOk(leaders, |c.ids|) && 0 < n <= |c.ids|
    requires l < |c.ids| && leaders[l] == l
    ensures var prev, a := FoldAlign(align, c, leaders, n - 1)[c.ids[l]], align[c.ids[n - 1]];
            FoldAlign(align, c, leaders, n)[c.ids[l]] ==
            if leaders[n - 1] == l && l != n - 1 && prev < a then a else prev
  {
    AlignStep(align, FoldAlign(align, c, leaders, n - 1), c, leaders, n - 1);
    if leaders[n - 1] != n - 1 {
      MemberKeeps(align, c, leaders, n - 1, n - 1);
    }
  }

  /** A leader's alignment, so far, is that of a member of its class. */
  lemma {:induction false} FoldAlignIsSome(align: seq<nat>, c: Candidates, leaders: seq<nat>, n: nat, l: nat)
    returns (i: nat)
    requires Separate(c.ids, |align|) && LeadersOk(leaders, |c.ids|) && n <= |c.ids|
    requires l < |c.ids| && leaders[l] == l
    ensures i < |c.ids| && leaders[i] == l && FoldAlign(align, c, leaders, n)[c.ids[l]] == align[c.ids[i]]
  {
    if n == 0 {
      i := l;
    } else {
      i := FoldAlignIsSome(align, c, leaders, n - 1, l);
      LeaderStep(align, c, leaders, n, l);
      if FoldAlign(align, c, leaders, n)[c.ids[l]] != align[c.ids[i]] {
        i := n - 1;
      }
    }
  }

  /** And no lower than that of any. */
  lemma {:induction false} FoldAlignBounds(align: seq<nat>, c: Candidates, leaders: seq<nat>, n: nat, l: nat, i: nat)
    requires Separate(c.ids, |align|) && LeadersOk(leaders, |c.ids|) && n <= |c.ids|
    requires l < |c.ids| && leaders[l] == l && i < |c.ids| && leaders[i] == l && (i < n || i == l)
    ensures align[c.ids[i]] <= FoldAlign(align, c, leaders, n)[c.ids[l]]
  {
    if n > 0 {
      LeaderStep(align, c, leaders, n, l);
      if i < n - 1 || i == l {
        FoldAlignBounds(align, c, leaders, n - 1, l, i);
      }
    }
  }

  lemma FoldAlignIsMax(repl: seq<nat>, align: seq<nat>, c: Candidates, leaders: seq<nat>, n: nat, l: nat)
    requires c.Valid(repl) && |align| == |repl| && LeadersOk(leaders, |c.ids|) && n <= |c.ids|
    requires l < |c.ids| && leaders[l] == l
    ensures var top := FoldAlign(align, c, leaders, n)[c.ids[l]];
            && align[c.ids[l]] <= top
            && (forall i :: 0 <= i < n && leaders[i] == l ==> align[c.ids[i]] <= top)
            && (exists i :: 0 <= i < |c.ids| && leaders[i] == l && top == align[c.ids[i]])
  {
    forall i | 0 <= i < |c.ids| && leaders[i] == l && (i < n || i == l)
      ensures align[c.ids[i]] <= FoldAlign(align, c, leaders, n)[c.ids[l]]
    {
      FoldAlignBounds(align, c, leaders, n, l, i);
    }
    var i := FoldAlignIsSome(align, c, leaders, n, l);
  }

  /** The replacements once the first n candidates have been looked at. */
  ghost predicate FoldedUpTo(repl: seq<nat>, repl': seq<nat>, c: Candidates, leaders: seq<nat>, n: nat)
    requires c.Valid(repl) && LeadersOk(leaders, |c.ids|)
  {
    && |repl'| == |repl|
    && forall id :: 0 <= id < |repl| ==>
         repl'[id] == (if c.index[id] < n && Lead(c, leaders, id) != id then Lead(c, leaders, id) else repl[id])
  }

  lemma NoneFoldedYet(repl: seq<nat>, c: Candidates, leaders: seq<nat>)
    requires c.Valid(repl) && LeadersOk(leaders, |c.ids|)
    ensures FoldedUpTo(repl, repl, c, leaders, 0)
  {
  }

  lemma FoldedStep(repl: seq<nat>, cur: seq<nat>, c: Candidates, leaders: seq<nat>, i: nat)
    requires c.Valid(repl) && LeadersOk(leaders, |c.ids|) && i < |c.ids|
    requires FoldedUpTo(repl, cur, c, leaders, i)
    ensures leaders[i] != i ==> FoldedUpTo(repl, cur[c.ids[i] := c.ids[leaders[i]]], c, leaders, i + 1)
    ensures leaders[i] == i ==> FoldedUpTo(repl, cur, c, leaders, i + 1)
    ensures c.ids[i] < |repl| && c.ids[leaders[i]] < |repl|
  {
    forall id | 0 <= id < |repl| && c.index[id] == i ensures id == c.ids[i] {
    }
  }

  lemma FoldedAll(repl: seq<nat>, cur: seq<nat>, c: Candidates, leaders: seq<nat>)
    requires c.Valid(repl) && LeadersOk(leaders, |c.ids|) && FoldedUpTo(repl, cur, c, leaders, |c.ids|)
    ensures FoldedTo(repl, cur, c, leaders)
  {
  }

  lemma FoldAligned(repl: seq<nat>, align: seq<nat>, c: Candidates, leaders: seq<nat>)
    requires c.Valid(repl) && |align| == |repl| && LeadersOk(leaders, |c.ids|)
    ensures AlignedTo(align, FoldAlign(align, c, leaders, |c.ids|), c, leaders)
  {
    var align' := FoldAlign(align, c, leaders, |c.ids|);
    forall i | 0 <= i < |c.ids| && leaders[i] != i ensures align'[c.ids[i]] == align[c.ids[i]] {
      MemberKeeps(align, c, leaders, |c.ids|, i);
    }
    forall id | 0 <= id < |align| && c.index[id] == NOT_CANDIDATE ensures align'[id] == align[id] {
      OtherKeeps(align, c, leaders, |c.ids|, id);
    }
    forall i | 0 <= i < |c.ids| ensures align[c.ids[i]] <= align'[c.ids[leaders[i]]] {
      FoldAlignIsMax(repl, align, c, leaders, |c.ids|, leaders[i]);
    }
    forall l | 0 <= l < |c.ids| && leaders[l] == l
      ensures exists i :: 0 <= i < |c.ids| && leaders[i] == l && align'[c.ids[l]] == align[c.ids[i]]
    {
      FoldAlignIsMax(repl, align, c, leaders, |c.ids|, l);
    }
  }

  /** The leader's alignment becomes at least the member's. */
  function Raise(align: seq<nat>, member: nat, leader: nat): seq<nat>
    requires member < |align| && leader < |align|
  {
    align[leader := if align[leader] < align[member] then align[member] else align[leader]]
  }

  lemma AlignStep(align: seq<nat>, cur: seq<nat>, c: Candidates, leaders: seq<nat>, i: nat)
    requires i < |c.ids| && LeadersOk(leaders, |c.ids|) && (forall i :: 0 <= i < |c.ids| ==> c.ids[i] < |align|)
    requires cur == FoldAlign(align, c, leaders, i)
    ensures FoldAlign(align, c, leaders, i + 1) ==
            if leaders[i] == i then cur else Raise(cur, c.ids[i], c.ids[leaders[i]])
  {
  }

  method FoldMembers(c: Candidates, leaders: seq<nat>, replacement: array<nat>, p2align: array<nat>)
    requires replacement != p2align && replacement.Length == p2align.Length
    requires c.Valid(replacement[..]) && LeadersOk(leaders, |c.ids|)
    modifies replacement, p2align
    ensures FoldedTo(old(replacement[..]), replacement[..], c, leaders)
    ensures p2align[..] == FoldAlign(old(p2align[..]), c, leaders, |c.ids|)
  {
    ghost var repl0, align0 := replacement[..], p2align[..];
    FoldStarts(repl0, align0, c, leaders);
    ghost var repl, align := repl0, align0;
    for i := 0 to |c.ids|
      invariant repl == replacement[..] && align == p2align[..]
      invariant FoldState(repl0, align0, repl, align, c, leaders, i)
    {
      repl, align := FoldNext(c, leaders, i, replacement, p2align, repl0, align0, repl, align);
    }
    FoldEnds(repl0, align0, repl, align, c, leaders);
  }

  /** The arrays once the first n candidates have been looked at. */
  ghost predicate FoldState(
    repl0: seq<nat>, align0: seq<nat>, repl: seq<nat>, align: seq<nat>, c: Candidates, leaders: seq<nat>, n: nat)
  {
    && n <= |c.ids| && |repl0| == |align0| == |repl| == |align| && c.Valid(repl0) && LeadersOk(leaders, |c.ids|)
    && FoldedUpTo(repl0, repl, c, leaders, n) && align == FoldAlign(align0, c, leaders, n)
  }

  lemma FoldStarts(repl: seq<nat>, align: seq<nat>, c: Candidates, leaders: seq<nat>)
    requires c.Valid(repl) && LeadersOk(leaders, |c.ids|) && |align| == |repl|
    ensures FoldState(repl, align, repl, align, c, leaders, 0)
  {
    NoneFoldedYet(repl, c, leaders);
  }

  lemma FoldEnds(
    repl0: seq<nat>, align0: seq<nat>, repl: seq<nat>, align: seq<nat>, c: Candidates, leaders: seq<nat>)
    requires FoldState(repl0, align0, repl, align, c, leaders, |c.ids|)
    ensures c.Valid(repl0) && LeadersOk(leaders, |c.ids|) && FoldedTo(repl0, repl, c, leaders)
    ensures align == FoldAlign(align0, c, leaders, |c.ids|)
  {
    FoldedAll(repl0, repl, c, leaders);
  }

  /** One turn of the fold's loop. */
  method FoldNext(c: Candidates, leaders: seq<nat>, i: nat, replacement: array<nat>, p2align: array<nat>,
                  ghost repl0: seq<nat>, ghost align0: seq<nat>, ghost repl: seq<nat>, ghost align: seq<nat>)
    returns (ghost repl': seq<nat>, ghost align': seq<nat>)
    requires replacement != p2align && i < |c.ids| && repl == replacement[..] && align == p2align[..]
    requires FoldState(repl0, align0, repl, align, c, leaders, i)
    modifies replacement, p2align
    ensures repl' == replacement[..] && align' == p2align[..]
    ensures FoldState(repl0, align0, repl', align', c, leaders, i + 1)
  {
    FoldedStep(repl0, repl, c, leaders, i);
    AlignStep(align0, align, c, leaders, i);
    if leaders[i] != i {
      FoldOne(c.ids[i], c.ids[leaders[i]], replacement, p2align);
    }
    repl', align' := replacement[..], p2align[..];
  }

  method FoldOne(member: nat, leader: nat, replacement: array<nat>, p2align: array<nat>)
    requires replacement != p2align && replacement.Length == p2align.Length
    requires member < replacement.Length && leader < replacement.Length
    modifies replacement, p2align
    ensures replacement[..] == old(replacement[..])[member := leader]
    ensures p2align[..] == Raise(old(p2align[..]), member, leader)
  {
    replacement[member] := leader;
    var a := p2align[member];
    p2align[leader] := if p2align[leader] < a then a else p2align[leader];
  }

  lemma {:induction false} ChaseFolded(
      repl: seq<nat>, repl': seq<nat>, c: Candidates, leaders: seq<nat>, id: nat, hops: nat)
    requires InRange(repl) && c.Valid(repl) && LeadersOk(leaders, |c.ids|) && FoldedTo(repl, repl', c, leaders)
    requires InRange(repl') && id < |repl| && repl[Chase(repl, id, hops)] == NO_REPLACEMENT
    ensures Chase(repl', id, hops + 1) == Lead(c, leaders, Chase(repl, id, hops))
    ensures repl'[Chase(repl', id, hops + 1)] == NO_REPLACEMENT
    decreases hops
  {
    if repl[id] == NO_REPLACEMENT {
      var l := Lead(c, leaders, id);
      assert l < |repl| && repl[l] == NO_REPLACEMENT && Lead(c, leaders, l) == l;
      if l != id {
        assert Chase(repl', id, hops + 1) == Chase(repl', l, hops);
      }
    } else {
      assert repl'[id] == repl[id];
      ChaseFolded(repl, repl', c, leaders, repl[id], hops - 1);
    }
  }

  /** After the fold resolving still ends, one hop later, at the leader of what it
      ended at before; and each fold goes to a strictly lower, unreplaced subsection. */
  lemma FoldedSettles(repl: seq<nat>, repl': seq<nat>, hops: nat, c: Candidates, leaders: seq<nat>)
    requires Settled(repl, hops) && c.Valid(repl) && LeadersOk(leaders, |c.ids|) && FoldedTo(repl, repl', c, leaders)
    ensures Settled(repl', hops + 1)
    ensures forall id: nat :: id < |repl| ==>
              Chase(repl', id, hops + 1) == Lead(c, leaders, Chase(repl, id, hops))
    ensures forall id: nat :: id < |repl| && repl'[id] != repl[id] ==>
              repl'[id] < id && repl'[repl'[id]] == NO_REPLACEMENT
  {
    assert InRange(repl');
    assert |repl'| == |repl|;
    var more := hops + 1;
    forall id: nat | id < |repl| ensures Ends(repl', id, more) {
      assert Ends(repl, id, hops);
      ChaseFolded(repl, repl', c, leaders, id, hops);
    }
    forall id: nat | id < |repl| ensures Chase(repl', id, hops + 1) == Lead(c, leaders, Chase(repl, id, hops)) {
      assert Ends(repl, id, hops);
      ChaseFolded(repl, repl', c, leaders, id, hops);
    }
    forall id: nat | id < |repl| && repl'[id] != repl[id]
      ensures repl'[id] < id && repl'[repl'[id]] == NO_REPLACEMENT
    {
      var l := Lead(c, leaders, id);
      assert Lead(c, leaders, l) == l && repl[l] == NO_REPLACEMENT;
    }
  }

  /** Members and leaders of a class unfold alike. */
  ghost predicate LeadersAlike(p: Program, repl: seq<nat>, hops: nat, c: Candidates, leaders: seq<nat>)
    requires GraphOk(p, repl, hops, c) && LeadersOk(leaders, |c.ids|)
  {
    forall i: nat, k: nat :: i < |c.ids| ==>
      Unfold(p, repl, hops, c.ids[i], k) == Unfold(p, repl, hops, c.ids[leaders[i]], k)
  }

  /** The two programs agree at depth k. */
  ghost predicate SameAt(p: Program, repl: seq<nat>, repl': seq<nat>, hops: nat, k: nat)
    requires Fits(p, repl, hops) && Fits(p, repl', hops + 1)
  {
    forall id: nat :: id < |repl| ==> Unfold(p, repl', hops + 1, id, k) == Unfold(p, repl, hops, id, k)
  }

  /** Then a given subsection's own relocations and unwind records agree one deeper. */
  lemma SameBody(p: Program, repl: seq<nat>, repl': seq<nat>, hops: nat, id: nat, r: nat, k: nat)
    requires Fits(p, repl, hops) && Fits(p, repl', hops + 1) && SameAt(p, repl, repl', hops, k)
    requires id < |repl| && r == Chase(repl', id, hops + 1) && repl[r] == NO_REPLACEMENT
    ensures Unfold(p, repl', hops + 1, id, k + 1) == Unfold(p, repl, hops, r, k + 1)
  {
    var isec := p.isecs[r];
    forall m | 0 <= m < |isec.rels|
      ensures p.TargetOk(isec.rels[m].target)
      ensures RefOf(p, repl', hops + 1, isec.rels[m], k) == RefOf(p, repl, hops, isec.rels[m], k)
    {
      assert p.TargetOk(p.isecs[r].rels[m].target);
    }
    forall m | 0 <= m < |isec.unwind|
      ensures p.LsdaOk(isec.unwind[m].lsda)
      ensures ViewOf(p, repl', hops + 1, isec.unwind[m], k) == ViewOf(p, repl, hops, isec.unwind[m], k)
    {
      assert p.LsdaOk(p.isecs[r].unwind[m].lsda);
    }
    assert Unfold(p, repl', hops + 1, id, k + 1).refs == Unfold(p, repl, hops, r, k + 1).refs;
    assert Unfold(p, repl', hops + 1, id, k + 1).unwind == Unfold(p, repl, hops, r, k + 1).unwind;
  }

  /** Folding preserves meaning: what any subsection unfolds to, at any depth. */
  lemma {:induction false} FoldPreservesUnfolding(
      p: Program, repl: seq<nat>, repl': seq<nat>, hops: nat, c: Candidates, leaders: seq<nat>, k: nat)
    requires GraphOk(p, repl, hops, c) && LeadersOk(leaders, |c.ids|) && FoldedTo(repl, repl', c, leaders)
    requires LeadersAlike(p, repl, hops, c, leaders)
    ensures Fits(p, repl', hops + 1) && SameAt(p, repl, repl', hops, k)
  {
    FoldedSettles(repl, repl', hops, c, leaders);
    if k > 0 {
      FoldPreservesUnfolding(p, repl, repl', hops, c, leaders, k - 1);
      forall id: nat | id < |repl|
        ensures Unfold(p, repl', hops + 1, id, k) == Unfold(p, repl, hops, id, k)
      {
        var r := Chase(repl, id, hops);
        assert Ends(repl, id, hops);
        SameBody(p, repl, repl', hops, id, Lead(c, leaders, r), k - 1);
        UnfoldResolved(p, repl, hops, id, k);
        if c.index[r] != NOT_CANDIDATE {
          assert c.ids[c.index[r]] == r;
        }
      }
    }
  }
}
