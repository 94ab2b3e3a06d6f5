/** The reference graph dead stripping walks: what a subsection references by its
    relocations and its unwind records, each reference redirected to the
    replacement that stands in for its target. */
module LinkGraph {
  import opened Targets
  import opened Options

  /** An FDE, with its CIE's personality. */
  datatype Fde = Fde(lsda: Option<nat>, ciePersonality: Option<nat>)

  datatype UnwindRecord = UnwindRecord(lsda: Option<nat>, personality: Option<nat>, fde: Option<Fde>)

  datatype Subsection = Subsection(rels: seq<Target>, unwind: seq<UnwindRecord>)

  /** `symbols[s]` is the subsection symbol s is defined in, if any. */
  datatype Image = Image(isecs: seq<Subsection>, symbols: seq<Option<nat>>, redirects: seq<nat>) {
    ghost predicate Valid() {
      && |redirects| == |isecs|
      && (forall i :: 0 <= i < |redirects| ==> redirects[i] < |isecs|)
      && forall u: nat, v: nat {:trigger RefersTo(u, v)} :: RefersTo(u, v) ==> v < |isecs|
    }

    // ---- What a reference is ----

    ghost predicate DefinedIn(sym: nat, v: nat) { sym < |symbols| && symbols[sym] == Some(v) }

    /** A relocation's target is in subsection v: by its symbol, or by itself. */
    ghost predicate TargetIn(t: Target, v: nat) { t == Section(v) || (t.Sym? && DefinedIn(t.i, v)) }

    /** A record's LSDA is subsection v, or its FDE's is, or the personality is there: its
        own if it has one, and else that of the FDE's CIE. */
    ghost predicate RecordNeeds(r: UnwindRecord, v: nat) {
      || r.lsda == Some(v)
      || (r.fde.Some? && r.fde.value.lsda == Some(v))
      || exists sym: nat :: IsPersonality(r, sym) && DefinedIn(sym, v)
    }

    ghost predicate IsPersonality(r: UnwindRecord, sym: nat) {
      || r.personality == Some(sym)
      || (r.personality == None && r.fde.Some? && r.fde.value.ciePersonality == Some(sym))
    }

    ghost predicate RefersTo(u: nat, v: nat) {
      && u < |isecs|
      && (|| (exists m :: 0 <= m < |isecs[u].rels| && TargetIn(isecs[u].rels[m], v))
          || (exists m :: 0 <= m < |isecs[u].unwind| && RecordNeeds(isecs[u].unwind[m], v)))
    }

    /** `w` stands in for something `u` refers to. */
    ghost predicate Edge(u: nat, w: nat)
      requires Valid()
    {
      exists v: nat :: RefersTo(u, v) && redirects[v] == w
    }

    // ---- What for_each_edge visits ----

    function SymbolEdge(sym: nat): seq<nat> {
      if sym < |symbols| && symbols[sym].Some? then [symbols[sym].value] else []
    }

    function RelEdges(rels: seq<Target>): seq<nat> {
      if rels == [] then [] else
        (match rels[0] case Sym(s) => SymbolEdge(s) case Section(i) => [i]) + RelEdges(rels[1..])
    }

    /** A record's LSDA, its FDE's, and the personality: its own or else the CIE's. */
    function RecordEdges(r: UnwindRecord): seq<nat> {
      var personality :=
        if r.personality.Some? || r.fde.None? then r.personality else r.fde.value.ciePersonality;
      (if r.lsda.Some? then [r.lsda.value] else [])
      + (if r.fde.Some? && r.fde.value.lsda.Some? then [r.fde.value.lsda.value] else [])
      + (if personality.Some? then SymbolEdge(personality.value) else [])
    }

    function UnwindEdges(recs: seq<UnwindRecord>): seq<nat> {
      if recs == [] then [] else RecordEdges(recs[0]) + UnwindEdges(recs[1..])
    }

    /** What for_each_edge visits, in order. */
    function Edges(id: nat): seq<nat>
      requires id < |isecs|
    {
      RelEdges(isecs[id].rels) + UnwindEdges(isecs[id].unwind)
    }

    function Leads(u: nat, m: nat): (w: nat)
      requires Valid() && u < |isecs| && m < |Edges(u)|
      ensures w < |isecs| && Edge(u, w)
    {
      EdgesAreReferences(u, Edges(u)[m]);
      redirects[Edges(u)[m]]
    }

    lemma {:induction false} RelEdgesAre(rels: seq<Target>, v: nat)
      ensures v in RelEdges(rels) <==> exists m :: 0 <= m < |rels| && TargetIn(rels[m], v)
    {
      if rels != [] {
        RelEdgesAre(rels[1..], v);
        assert rels == [rels[0]] + rels[1..];
        FirstOrLater(rels, t => TargetIn(t, v));
      }
    }

    lemma RecordEdgesAre(r: UnwindRecord, v: nat)
      ensures v in RecordEdges(r) <==> RecordNeeds(r, v)
    {
      if v in RecordEdges(r) && r.lsda != Some(v) && !(r.fde.Some? && r.fde.value.lsda == Some(v)) {
        var sym := if r.personality.Some? then r.personality.value else r.fde.value.ciePersonality.value;
        assert IsPersonality(r, sym) && DefinedIn(sym, v);
      }
    }

    lemma {:induction false} UnwindEdgesAre(recs: seq<UnwindRecord>, v: nat)
      ensures v in UnwindEdges(recs) <==> exists m :: 0 <= m < |recs| && RecordNeeds(recs[m], v)
    {
      if recs != [] {
        UnwindEdgesAre(recs[1..], v);
        RecordEdgesAre(recs[0], v);
        FirstOrLater(recs, r => RecordNeeds(r, v));
      }
    }

    /** The list holds exactly what the subsection refers to. */
    lemma EdgesAreReferences(u: nat, v: nat)
      requires u < |isecs|
      ensures v in Edges(u) <==> RefersTo(u, v)
    {
      RelEdgesAre(isecs[u].rels, v);
      UnwindEdgesAre(isecs[u].unwind, v);
    }

    lemma EdgesInBounds(u: nat)
      requires Valid() && u < |isecs|
      ensures Bounded(Edges(u), |isecs|)
    {
      forall m | 0 <= m < |Edges(u)| ensures Edges(u)[m] < |isecs| {
        EdgesAreReferences(u, Edges(u)[m]);
      }
    }

    /** Every edge is led along by some place of the list. */
    lemma EdgeIsLed(u: nat, w: nat) returns (m: nat)
      requires Valid() && u < |isecs| && Edge(u, w)
      ensures m < |Edges(u)| && Leads(u, m) == w
    {
      var v: nat :| RefersTo(u, v) && redirects[v] == w;
      EdgesAreReferences(u, v);
      m :| 0 <= m < |Edges(u)| && Edges(u)[m] == v;
    }

    ghost predicate Closed(s: set<nat>)
      requires Valid()
    {
      forall u: nat, v: nat {:trigger Edge(u, v)} :: u in s && u < |isecs| && Edge(u, v) ==> v in s
    }

    /** The least set that contains `roots` and is closed under edges. */
    ghost predicate IsLeast(roots: set<nat>, s: set<nat>)
      requires Valid()
    {
      roots <= s && Closed(s) && forall t: set<nat> :: roots <= t && Closed(t) ==> s <= t
    }

    lemma LeastIsUnique(roots: set<nat>, a: set<nat>, b: set<nat>)
      requires Valid() && IsLeast(roots, a) && IsLeast(roots, b)
      ensures a == b
    {
      assert a <= b && b <= a;
    }

    // ---- Paths ----

    ghost predicate IsPath(path: seq<nat>)
      requires Valid()
    {
      && |path| > 0 && (forall i :: 0 <= i < |path| ==> path[i] < |isecs|)
      && forall i: nat :: i < |path| - 1 ==> Follows(path, i)
    }

    ghost predicate Follows(path: seq<nat>, i: nat)
      requires Valid()
    {
      i < |path| - 1 && path[i] < |isecs| && Edge(path[i], path[i + 1])
    }
  }

  lemma FirstOrLater<T>(s: seq<T>, p: T -> bool)
    requires s != []
    ensures (exists m :: 0 <= m < |s| && p(s[m])) <==> p(s[0]) || exists m :: 0 <= m < |s[1..]| && p(s[1..][m])
  {
    if m :| 0 <= m < |s| && p(s[m]) {
      assert m > 0 ==> s[1..][m - 1] == s[m];
    }
    if m :| 0 <= m < |s[1..]| && p(s[1..][m]) {
      assert s[m + 1] == s[1..][m];
    }
  }

  ghost predicate Bounded(xs: seq<nat>, n: nat) {
    forall m :: 0 <= m < |xs| ==> xs[m] < n
  }
}
