/** When two functions may share one address: what identical code folding is to decide,
    said of the program alone, and that the digested graph says the same. */
module IcfAlike {
  import opened Targets
  import opened Options
  import opened IcfGraph
  import opened IcfRefine
  import opened IcfFold

  // ---- Alike functions ----

  /** A live, nonempty, unreplaced function whose address nobody compares and which no
      option keeps apart. */
  ghost predicate MayFold(p: Program, repl: seq<nat>, id: nat) {
    && id < |p.isecs| == |repl| && repl[id] == NO_REPLACEMENT
    && var isec := p.isecs[id];
       isec.alive && isec.isText && isec.size > 0 && !isec.kept && (isec.addressTaken ==> isec.insignificant)
  }

  ghost predicate IsUndefined(p: Program, t: Target) {
    t.Sym? && t.i < |p.symbols| && p.symbols[t.i].isec == None
  }

  /** The target is `offset` into what now stands for subsection `id`. */
  ghost predicate IsAt(p: Program, repl: seq<nat>, hops: nat, t: Target, id: nat, offset: int)
    requires Fits(p, repl, hops)
  {
    match t
    case Section(i) => i < |repl| && id == Chase(repl, i, hops) && offset == 0
    case Sym(s) =>
      && s < |p.symbols| && p.symbols[s].isec.Some? && p.symbols[s].value == offset
      && id == Chase(repl, p.symbols[s].isec.value, hops)
  }

  /** Places in related functions, as far in; or one place of something that does not
      fold, named in the same way. */
  ghost predicate SamePlace(p: Program, repl: seq<nat>, rel: set<(nat, nat)>,
                            a: nat, u: int, x: int, b: nat, v: int, y: int) {
    if MayFold(p, repl, a) then (a, b) in rel && u + x == v + y else a == b && u == v && x == y
  }

  ghost predicate SameReference(p: Program, repl: seq<nat>, hops: nat, rel: set<(nat, nat)>, x: Reloc, y: Reloc)
    requires Fits(p, repl, hops)
  {
    && x.shape == y.shape
    && (|| (IsUndefined(p, x.target) && x.target == y.target && x.addend == y.addend)
        || exists a: nat, u: int, b: nat, v: int ::
             && IsAt(p, repl, hops, x.target, a, u) && IsAt(p, repl, hops, y.target, b, v)
             && SamePlace(p, repl, rel, a, u, x.addend, b, v, y.addend))
  }

  /** Unwound alike: with one personality, and one LSDA if any. */
  ghost predicate SameUnwind(p: Program, repl: seq<nat>, hops: nat, x: Unwind, y: Unwind)
    requires Fits(p, repl, hops) && p.LsdaOk(x.lsda) && p.LsdaOk(y.lsda)
  {
    && x.fixed == y.fixed && x.personality == y.personality
    && match (x.lsda, y.lsda)
       case (None, None) => true
       case (Some(l), Some(m)) => Chase(repl, l.0, hops) == Chase(repl, m.0, hops) && l.1 == m.1
       case _ => false
  }

  ghost predicate SameCode(p: Program, repl: seq<nat>, hops: nat, rel: set<(nat, nat)>, a: nat, b: nat)
    requires Fits(p, repl, hops)
  {
    && MayFold(p, repl, a) && MayFold(p, repl, b)
    && var (x, y) := (p.isecs[a], p.isecs[b]);
    && x.size == y.size && x.bytes == y.bytes && |x.rels| == |y.rels| && |x.unwind| == |y.unwind|
    && (forall m :: 0 <= m < |x.rels| ==> SameReference(p, repl, hops, rel, x.rels[m], y.rels[m]))
    && forall m :: 0 <= m < |x.unwind| ==>
         && p.LsdaOk(x.unwind[m].lsda) && p.LsdaOk(y.unwind[m].lsda)
         && SameUnwind(p, repl, hops, x.unwind[m], y.unwind[m])
  }

  ghost predicate IsAlikeness(p: Program, repl: seq<nat>, hops: nat, rel: set<(nat, nat)>)
    requires Fits(p, repl, hops)
  {
    forall a, b {:trigger (a, b) in rel} :: (a, b) in rel ==> SameCode(p, repl, hops, rel, a, b)
  }

  /** Two functions are alike: the same code, but for references to functions alike. */
  ghost predicate Alike(p: Program, repl: seq<nat>, hops: nat, a: nat, b: nat)
    requires Fits(p, repl, hops)
  {
    exists rel :: IsAlikeness(p, repl, hops, rel) && (a, b) in rel
  }

  // ---- The digested graph says which are ----

  /** The candidates are the functions that may fold. */
  ghost predicate HasFoldable(p: Program, repl: seq<nat>, hops: nat, c: Candidates) {
    && GraphOk(p, repl, hops, c)
    && forall id: nat :: id < |repl| ==> (c.index[id] != NOT_CANDIDATE <==> MayFold(p, repl, id))
  }

  ghost function ByIds(c: Candidates, rel: set<(nat, nat)>): set<(nat, nat)> {
    set q | q in rel && q.0 < |c.ids| && q.1 < |c.ids| :: (c.ids[q.0], c.ids[q.1])
  }

  ghost function ByIndex(c: Candidates, rel: set<(nat, nat)>): set<(nat, nat)> {
    set q | q in rel && q.0 < |c.index| && q.1 < |c.index| :: (c.index[q.0], c.index[q.1])
  }

  lemma ByIdsHas(c: Candidates, rel: set<(nat, nat)>, i: nat, j: nat)
    requires (i, j) in rel && i < |c.ids| && j < |c.ids|
    ensures (c.ids[i], c.ids[j]) in ByIds(c, rel)
  {
    var q := (i, j);
    assert q in rel && (c.ids[q.0], c.ids[q.1]) == (c.ids[i], c.ids[j]);
  }

  lemma ByIndexHas(c: Candidates, rel: set<(nat, nat)>, a: nat, b: nat)
    requires (a, b) in rel && a < |c.index| && b < |c.index|
    ensures (c.index[a], c.index[b]) in ByIndex(c, rel)
  {
    var q := (a, b);
    assert q in rel && (c.index[q.0], c.index[q.1]) == (c.index[a], c.index[b]);
  }

  /** Where a relocation is at, and what edge that makes it. */
  lemma EdgeAt(p: Program, repl: seq<nat>, hops: nat, c: Candidates, r: Reloc) returns (id: nat, offset: int)
    requires HasFoldable(p, repl, hops, c) && p.TargetOk(r.target)
    ensures var e := EdgeTarget(p, ResolvedAll(repl, hops), c.index, r);
            if IsUndefined(p, r.target) then e == (SymEdge(r.target.i), r.addend)
            else
              && IsAt(p, repl, hops, r.target, id, offset) && id < |repl|
              && if MayFold(p, repl, id)
                 then c.index[id] < |c.ids| && c.ids[c.index[id]] == id
                      && e == (CandidateEdge(c.index[id]), offset + r.addend)
                 else e == (IsecEdge(id, offset), r.addend)
  {
    id, offset := 0, 0;
    match r.target
    case Section(i) => id := Chase(repl, i, hops);
    case Sym(s) =>
      if p.symbols[s].isec.Some? {
        id, offset := Chase(repl, p.symbols[s].isec.value, hops), p.symbols[s].value;
      }
  }

  /** Edges that agree but for related candidates come from references that agree. */
  lemma EdgesToReference(
    p: Program, repl: seq<nat>, hops: nat, c: Candidates, rel: set<(nat, nat)>, x: Reloc, y: Reloc)
    requires HasFoldable(p, repl, hops, c) && p.TargetOk(x.target) && p.TargetOk(y.target) && x.shape == y.shape
    requires var res := ResolvedAll(repl, hops);
             SameEdge(rel, EdgeTarget(p, res, c.index, x), EdgeTarget(p, res, c.index, y))
    ensures SameReference(p, repl, hops, ByIds(c, rel), x, y)
  {
    var a, u := EdgeAt(p, repl, hops, c, x);
    var b, v := EdgeAt(p, repl, hops, c, y);
    if !IsUndefined(p, x.target) {
      if MayFold(p, repl, a) {
        ByIdsHas(c, rel, c.index[a], c.index[b]);
      }
      assert SamePlace(p, repl, ByIds(c, rel), a, u, x.addend, b, v, y.addend);
    }
  }

  /** And the other way around. */
  lemma ReferenceToEdges(
    p: Program, repl: seq<nat>, hops: nat, c: Candidates, rel: set<(nat, nat)>, x: Reloc, y: Reloc)
    requires HasFoldable(p, repl, hops, c) && p.TargetOk(x.target) && p.TargetOk(y.target)
    requires SameReference(p, repl, hops, rel, x, y) && IsAlikeness(p, repl, hops, rel)
    ensures var res := ResolvedAll(repl, hops);
            SameEdge(ByIndex(c, rel), EdgeTarget(p, res, c.index, x), EdgeTarget(p, res, c.index, y))
  {
    var a, u := EdgeAt(p, repl, hops, c, x);
    var b, v := EdgeAt(p, repl, hops, c, y);
    if !IsUndefined(p, x.target) && MayFold(p, repl, a) {
      assert SameCode(p, repl, hops, rel, a, b);
      ByIndexHas(c, rel, a, b);
    }
  }

  /** Lists of edges that agree but for related candidates have related candidates. */
  lemma {:induction false} SameEdgeLists(rel: set<(nat, nat)>, es: seq<(Edge, int)>, fs: seq<(Edge, int)>)
    requires |es| == |fs| && forall k :: 0 <= k < |es| ==> SameEdge(rel, es[k], fs[k])
    ensures |CandidateEdges(Firsts(es))| == |CandidateEdges(Firsts(fs))|
    ensures forall m :: 0 <= m < |CandidateEdges(Firsts(es))| ==>
              (CandidateEdges(Firsts(es))[m], CandidateEdges(Firsts(fs))[m]) in rel
  {
    if es != [] {
      SameEdgeLists(rel, es[1..], fs[1..]);
      assert Firsts(es)[1..] == Firsts(es[1..]) && Firsts(fs)[1..] == Firsts(fs[1..]);
      assert SameEdge(rel, es[0], fs[0]);
    }
  }

  lemma SameCodeEdges(
    p: Program, repl: seq<nat>, hops: nat, c: Candidates, rel: set<(nat, nat)>, a: nat, b: nat)
    requires HasFoldable(p, repl, hops, c) && IsAlikeness(p, repl, hops, rel) && (a, b) in rel
    ensures a < |p.isecs| && b < |p.isecs| && |p.isecs[a].rels| == |p.isecs[b].rels|
    ensures var res := ResolvedAll(repl, hops);
            forall m :: 0 <= m < |p.isecs[a].rels| ==>
              && p.isecs[a].rels[m].shape == p.isecs[b].rels[m].shape
              && SameEdge(ByIndex(c, rel), EdgesOf(p, res, c.index, a)[m], EdgesOf(p, res, c.index, b)[m])
  {
    assert SameCode(p, repl, hops, rel, a, b);
    var res := ResolvedAll(repl, hops);
    forall m | 0 <= m < |p.isecs[a].rels|
      ensures p.isecs[a].rels[m].shape == p.isecs[b].rels[m].shape
      ensures SameEdge(ByIndex(c, rel), EdgesOf(p, res, c.index, a)[m], EdgesOf(p, res, c.index, b)[m])
    {
      assert p.TargetOk(p.isecs[a].rels[m].target) && p.TargetOk(p.isecs[b].rels[m].target);
      ReferenceToEdges(p, repl, hops, c, rel, p.isecs[a].rels[m], p.isecs[b].rels[m]);
    }
  }

  lemma SameCodeBases(
    p: Program, repl: seq<nat>, hops: nat, c: Candidates, rel: set<(nat, nat)>, a: nat, b: nat)
    requires HasFoldable(p, repl, hops, c) && IsAlikeness(p, repl, hops, rel) && (a, b) in rel
    ensures a < |p.isecs| && b < |p.isecs|
    ensures BaseFor(p, ResolvedAll(repl, hops), c.index, a) == BaseFor(p, ResolvedAll(repl, hops), c.index, b)
  {
    SameCodeEdges(p, repl, hops, c, rel, a, b);
    assert SameCode(p, repl, hops, rel, a, b);
    var res := ResolvedAll(repl, hops);
    var x, y := BaseFor(p, res, c.index, a), BaseFor(p, res, c.index, b);
    forall m | 0 <= m < |x.unwind| ensures x.unwind[m] == y.unwind[m] {
      assert SameUnwind(p, repl, hops, p.isecs[a].unwind[m], p.isecs[b].unwind[m]);
    }
    assert x.unwind == y.unwind;
    assert x.rels == y.rels;
  }

  /** An alikeness relates the graph's candidates. */
  lemma AlikenessRelates(p: Program, repl: seq<nat>, hops: nat, c: Candidates, rel: set<(nat, nat)>)
    requires HasFoldable(p, repl, hops, c) && IsAlikeness(p, repl, hops, rel)
    ensures RelatesGraph(p, repl, hops, c, ByIndex(c, rel))
  {
    var res, byIndex := ResolvedAll(repl, hops), ByIndex(c, rel);
    var bases, graph := Bases(p, repl, hops, c), Graph(p, repl, hops, c);
    forall i, j | (i, j) in byIndex
      ensures i < |c.ids| && j < |c.ids| && bases[i] == bases[j] && |graph[i]| == |graph[j]|
      ensures forall m :: 0 <= m < |graph[i]| ==> (graph[i][m], graph[j][m]) in byIndex
    {
      var q :| q in rel && q.0 < |c.index| && q.1 < |c.index| && (c.index[q.0], c.index[q.1]) == (i, j);
      assert (q.0, q.1) in rel && SameCode(p, repl, hops, rel, q.0, q.1);
      assert c.ids[i] == q.0 && c.ids[j] == q.1;
      SameCodeBases(p, repl, hops, c, rel, q.0, q.1);
      SameCodeEdges(p, repl, hops, c, rel, q.0, q.1);
      SameEdgeLists(byIndex, EdgesOf(p, res, c.index, q.0), EdgesOf(p, res, c.index, q.1));
    }
  }

  lemma RelatedSameUnwind(p: Program, repl: seq<nat>, hops: nat, c: Candidates, i: nat, j: nat, m: nat)
    requires HasFoldable(p, repl, hops, c) && i < |c.ids| && j < |c.ids|
    requires Bases(p, repl, hops, c)[i] == Bases(p, repl, hops, c)[j]
    ensures |p.isecs[c.ids[i]].unwind| == |p.isecs[c.ids[j]].unwind|
    ensures m < |p.isecs[c.ids[i]].unwind| ==>
              var u, v := p.isecs[c.ids[i]].unwind[m], p.isecs[c.ids[j]].unwind[m];
              p.LsdaOk(u.lsda) && p.LsdaOk(v.lsda) && SameUnwind(p, repl, hops, u, v)
  {
    var res := ResolvedAll(repl, hops);
    var x, y := BaseFor(p, res, c.index, c.ids[i]), BaseFor(p, res, c.index, c.ids[j]);
    assert Bases(p, repl, hops, c)[i] == x && Bases(p, repl, hops, c)[j] == y;
    assert |x.unwind| == |y.unwind|;
    if m < |x.unwind| {
      assert p.LsdaOk(p.isecs[c.ids[i]].unwind[m].lsda) && p.LsdaOk(p.isecs[c.ids[j]].unwind[m].lsda);
      assert x.unwind[m] == y.unwind[m];
    }
  }

  /** What relates the graph's candidates is an alikeness. */
  lemma RelatedIsAlikeness(p: Program, repl: seq<nat>, hops: nat, c: Candidates, rel: set<(nat, nat)>)
    requires HasFoldable(p, repl, hops, c) && RelatesGraph(p, repl, hops, c, rel)
    ensures IsAlikeness(p, repl, hops, ByIds(c, rel))
  {
    forall a, b | (a, b) in ByIds(c, rel) ensures SameCode(p, repl, hops, ByIds(c, rel), a, b) {
      var q :| q in rel && q.0 < |c.ids| && q.1 < |c.ids| && (c.ids[q.0], c.ids[q.1]) == (a, b);
      assert (q.0, q.1) in rel;
      RelatedSameCode(p, repl, hops, c, rel, q.0, q.1);
    }
  }

  lemma RelatedSameCode(p: Program, repl: seq<nat>, hops: nat, c: Candidates, rel: set<(nat, nat)>, i: nat, j: nat)
    requires HasFoldable(p, repl, hops, c) && RelatesGraph(p, repl, hops, c, rel) && (i, j) in rel
    ensures i < |c.ids| && j < |c.ids| && SameCode(p, repl, hops, ByIds(c, rel), c.ids[i], c.ids[j])
  {
    var res := ResolvedAll(repl, hops);
    RelatedEdge(p, repl, hops, c, rel, i, j, 0);
    RelatedSameUnwind(p, repl, hops, c, i, j, 0);
    var x, y := p.isecs[c.ids[i]], p.isecs[c.ids[j]];
    assert Bases(p, repl, hops, c)[i] == BaseFor(p, res, c.index, c.ids[i]);
    assert Bases(p, repl, hops, c)[j] == BaseFor(p, res, c.index, c.ids[j]);
    forall m | 0 <= m < |x.rels| ensures SameReference(p, repl, hops, ByIds(c, rel), x.rels[m], y.rels[m]) {
      RelatedTargets(p, repl, hops, c, rel, i, j, m);
      EdgesToReference(p, repl, hops, c, rel, x.rels[m], y.rels[m]);
    }
    forall m | 0 <= m < |x.unwind|
      ensures p.LsdaOk(x.unwind[m].lsda) && p.LsdaOk(y.unwind[m].lsda)
      ensures SameUnwind(p, repl, hops, x.unwind[m], y.unwind[m])
    {
      RelatedSameUnwind(p, repl, hops, c, i, j, m);
    }
  }
}
