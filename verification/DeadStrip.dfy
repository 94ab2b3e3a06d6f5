/** The serial half of dead stripping: collecting the roots, the breadth-first walk
    that notes why each subsection lives, the live-support pass, and the sweep. */
module DeadStrip {
  import opened Sequences
  import opened LinkGraph

  datatype Root = Undefined | Export | Kept | Initializer | LiveSupport

  /** What made a subsection live, for -why_live. */
  datatype Why = Dead | IsRoot(root: Root) | From(id: nat)

  ghost function Marked(visited: seq<bool>): (s: set<nat>)
    ensures forall id: nat :: id in s <==> id < |visited| && visited[id]
  {
    set id: nat | id < |visited| && visited[id]
  }

  /** Candidate c is the first whose replacement is r. */
  predicate IsFirstTo(img: Image, candidates: seq<(nat, Root)>, r: nat, c: nat) {
    && c < |candidates| && candidates[c].0 < |img.redirects| && img.redirects[candidates[c].0] == r
    && forall d :: 0 <= d < c && candidates[d].0 < |img.redirects| ==> img.redirects[candidates[d].0] != r
  }

  /** The reason noted for r is that of the first candidate to lead to it. */
  ghost predicate NotesFirst(img: Image, candidates: seq<(nat, Root)>, r: nat, w: Why) {
    exists c: nat :: IsFirstTo(img, candidates, r, c) && w == IsRoot(candidates[c].1)
  }

  /** The enqueue closure of collect_root_set over the candidate roots, in order:
      marks each one's replacement, lists it once, and notes its first reason. */
  method CollectRoots(img: Image, candidates: seq<(nat, Root)>, visited: array<bool>, why: array<Why>)
    returns (roots: seq<nat>)
    requires img.Valid() && visited.Length == why.Length == |img.isecs|
    requires forall c :: 0 <= c < |candidates| ==> candidates[c].0 < |img.isecs|
    requires forall id :: 0 <= id < visited.Length ==> !visited[id]
    modifies visited, why
    ensures Marked(visited[..]) == SetOf(roots)
    ensures forall i, j :: 0 <= i < j < |roots| ==> roots[i] != roots[j]
    ensures forall r: nat :: r in roots <==> exists c :: 0 <= c < |candidates| && img.redirects[candidates[c].0] == r
    ensures forall r :: r in roots ==> NotesFirst(img, candidates, r, why[r])
    ensures forall id :: 0 <= id < why.Length && id !in roots ==> why[id] == old(why[id])
  {
    roots := [];
    for c := 0 to |candidates|
      invariant forall id: nat :: id < visited.Length ==> (visited[id] <==> id in roots)
      invariant Bounded(roots, visited.Length)
      invariant forall i, j :: 0 <= i < j < |roots| ==> roots[i] != roots[j]
      invariant forall r: nat :: r in roots <==> exists d :: 0 <= d < c && img.redirects[candidates[d].0] == r
      invariant forall r :: r in roots ==> r < why.Length && NotesFirst(img, candidates, r, why[r])
      invariant forall id :: 0 <= id < why.Length && id !in roots ==> why[id] == old(why[id])
    {
      var id := img.redirects[candidates[c].0];
      if !visited[id] {
        visited[id] := true;
        roots := roots + [id];
        why[id] := IsRoot(candidates[c].1);
        assert IsFirstTo(img, candidates, id, c);
      }
    }
    assert Marked(visited[..]) == SetOf(roots);
  }

  // ---- The walk ----

  /** The breadth-first level of each subsection a walk has reached. */
  type Levels = map<nat, nat>

  /** The state of a walk: the visited bits, the reasons, the levels so far (a history
      variable) and the queue. */
  datatype Walking = Walking(visited: seq<bool>, why: seq<Why>, level: Levels, queue: seq<nat>)

  ghost predicate Shaped(img: Image, w: Walking) {
    && img.Valid()
    && |w.visited| == |w.why| == |img.isecs|
    && (forall v :: v in w.level ==> v < |w.visited| && w.visited[v])
    && (forall q :: 0 <= q < |w.queue| ==> w.queue[q] in w.level)
    && (forall i, j :: 0 <= i < j < |w.queue| ==> w.queue[i] != w.queue[j])
  }

  /** The queue is sorted by level, and spans at most two of them: `l` and the next. */
  ghost predicate Sorted(w: Walking, l: nat) {
    && (forall v :: v in w.level ==> w.level[v] <= l + 1)
    && (forall q :: 0 <= q < |w.queue| && w.queue[q] in w.level ==> l <= w.level[w.queue[q]])
    && (forall i, j :: 0 <= i < j < |w.queue| && w.queue[i] in w.level && w.queue[j] in w.level
          ==> w.level[w.queue[i]] <= w.level[w.queue[j]])
  }

  /** No subsection: between two turns of the walk's loop. */
  const NOBODY: int := -1

  /** Every visited id but the queued ones and the one being expanded has all its
      successors visited, and those reached in this walk at most one level further. */
  ghost predicate Followed(img: Image, w: Walking, busy: int)
    requires Shaped(img, w)
  {
    forall u: nat, v: nat {:trigger img.Edge(u, v)} ::
      u < |w.visited| && w.visited[u] && u !in w.queue && u != busy && img.Edge(u, v) ==>
        && w.visited[v]
        && (u in w.level && v in w.level ==> w.level[v] <= w.level[u] + 1)
  }

  /** Every id reached past level 0 has the one that reached it as its reason. */
  ghost predicate Linked(img: Image, level: Levels, why: seq<Why>)
    requires img.Valid() && |why| == |img.isecs|
  {
    && (forall v :: v in level ==> v < |why|)
    && forall v: nat {:trigger LinkedAt(img, level, why, v)} ::
         v in level && level[v] > 0 ==> v < |why| && LinkedAt(img, level, why, v)
  }

  ghost predicate LinkedAt(img: Image, level: Levels, why: seq<Why>, v: nat)
    requires img.Valid()
  {
    && v < |why| && v in level && why[v].From?
    && why[v].id in level && why[v].id < |img.isecs|
    && img.Edge(why[v].id, v) && level[v] == level[why[v].id] + 1
  }

  /** How the walk has changed the state it started from. */
  ghost predicate Extends(img: Image, w0: Walking, w: Walking)
    requires Shaped(img, w0) && Shaped(img, w)
  {
    && (forall v: nat :: v < |w.visited| ==> (w0.visited[v] ==> w.visited[v]))
    && (forall v: nat :: v < |w.visited| ==> (v in w.level <==> v in w0.level || (w.visited[v] && !w0.visited[v])))
    && (forall v :: v in w.level ==> (w.level[v] == 0 <==> v in w0.level))
    && (forall v: nat :: v < |w.why| && (v in w0.level || v !in w.level) ==> w.why[v] == w0.why[v])
    && (forall t: set<nat> :: Marked(w0.visited) <= t && img.Closed(t) ==> Marked(w.visited) <= t)
  }

  ghost predicate WalkInv(img: Image, w0: Walking, w: Walking, busy: int, l: nat) {
    Shaped(img, w0) && Shaped(img, w) && Sorted(w, l) && Followed(img, w, busy)
    && Linked(img, w.level, w.why) && Extends(img, w0, w)
  }

  function Visit(w: Walking, id: nat, t: nat, l: nat): Walking
    requires t < |w.visited| == |w.why|
  {
    Walking(w.visited[t := true], w.why[t := From(id)], w.level[t := l + 1], w.queue + [t])
  }

  lemma VisitShaped(img: Image, w: Walking, id: nat, t: nat, l: nat)
    requires Shaped(img, w) && t < |w.visited| && !w.visited[t]
    ensures Shaped(img, Visit(w, id, t, l))
  {
    var w' := Visit(w, id, t, l);
    assert t !in w.level;
    forall q | 0 <= q < |w'.queue| ensures w'.queue[q] in w'.level {
      assert q < |w.queue| ==> w'.queue[q] == w.queue[q];
    }
  }

  lemma VisitBound(img: Image, w: Walking, id: nat, t: nat, l: nat, b: set<nat>)
    requires Shaped(img, w) && t < |w.visited| && id in w.level && img.Edge(id, t)
    requires img.Closed(b) && Marked(w.visited) <= b
    ensures Marked(Visit(w, id, t, l).visited) <= b
  {
    assert id in Marked(w.visited);
    assert t in b;
  }

  lemma VisitExtends(img: Image, w0: Walking, w: Walking, id: nat, t: nat, l: nat)
    requires Shaped(img, w0) && Shaped(img, w) && Extends(img, w0, w) && id in w.level && img.Edge(id, t)
    requires t < |w.visited| && !w.visited[t] && Shaped(img, Visit(w, id, t, l))
    ensures Extends(img, w0, Visit(w, id, t, l))
  {
    var w' := Visit(w, id, t, l);
    assert t !in w.level && t !in w0.level && !w0.visited[t];
    forall b: set<nat> | Marked(w0.visited) <= b && img.Closed(b) ensures Marked(w'.visited) <= b {
      VisitBound(img, w, id, t, l, b);
    }
  }

  lemma VisitFollowed(img: Image, w: Walking, busy: int, id: nat, t: nat, l: nat)
    requires Shaped(img, w) && Followed(img, w, busy)
    requires t < |w.visited| && !w.visited[t] && Shaped(img, Visit(w, id, t, l))
    ensures Followed(img, Visit(w, id, t, l), busy)
  {
    var w' := Visit(w, id, t, l);
    forall u: nat, v: nat | u < |w'.visited| && w'.visited[u] && u !in w'.queue && u != busy && img.Edge(u, v)
      ensures w'.visited[v] && (u in w'.level && v in w'.level ==> w'.level[v] <= w'.level[u] + 1)
    {
      assert t in w'.queue;
      assert u !in w.queue && w.visited[u] && w.visited[v];
    }
  }

  lemma VisitSorted(w: Walking, id: nat, t: nat, l: nat)
    requires Sorted(w, l) && t < |w.visited| == |w.why| && t !in w.level
    requires forall q :: 0 <= q < |w.queue| ==> w.queue[q] in w.level
    ensures Sorted(Visit(w, id, t, l), l)
  {
    var w' := Visit(w, id, t, l);
    assert forall q :: 0 <= q < |w.queue| ==> w'.queue[q] == w.queue[q] && w'.level[w.queue[q]] == w.level[w.queue[q]];
  }

  lemma VisitLinked(img: Image, w: Walking, id: nat, t: nat, l: nat)
    requires Shaped(img, w) && Linked(img, w.level, w.why)
    requires id in w.level && w.level[id] == l && img.Edge(id, t)
    requires t < |w.visited| && !w.visited[t]
    ensures var w' := Visit(w, id, t, l); Linked(img, w'.level, w'.why)
  {
    var w' := Visit(w, id, t, l);
    forall v: nat | v in w'.level && w'.level[v] > 0 ensures LinkedAt(img, w'.level, w'.why, v) {
      if v != t {
        assert LinkedAt(img, w.level, w.why, v);
      }
    }
  }

  /** Visiting a new target of the subsection being expanded keeps the invariant. */
  lemma VisitKeeps(img: Image, w0: Walking, w: Walking, id: nat, t: nat, l: nat)
    requires WalkInv(img, w0, w, id, l) && id in w.level && w.level[id] == l && img.Edge(id, t)
    requires t < |w.visited| && !w.visited[t]
    ensures WalkInv(img, w0, Visit(w, id, t, l), id, l)
    ensures Visit(w, id, t, l).level[id] == l
    ensures Unmarked(Visit(w, id, t, l).visited) < Unmarked(w.visited)
  {
    UnmarkedDrops(w.visited, t);
    VisitShaped(img, w, id, t, l);
    VisitExtends(img, w0, w, id, t, l);
    VisitLinked(img, w, id, t, l);
    VisitFollowed(img, w, id, id, t, l);
    VisitSorted(w, id, t, l);
  }

  /** Once all its edges are followed, it is done with. */
  lemma CloseKeeps(img: Image, w: Walking, id: nat, l: nat)
    requires Shaped(img, w) && Sorted(w, l) && Followed(img, w, id) && id in w.level && w.level[id] == l
    requires forall m :: 0 <= m < |img.Edges(id)| ==> w.visited[img.Leads(id, m)]
    ensures Followed(img, w, NOBODY)
  {
    forall u: nat, v: nat | u < |w.visited| && w.visited[u] && u !in w.queue && img.Edge(u, v)
      ensures w.visited[v] && (u in w.level && v in w.level ==> w.level[v] <= w.level[u] + 1)
    {
      if u == id {
        var m := img.EdgeIsLed(u, v);
      }
    }
  }

  function Unmarked(visited: seq<bool>): nat {
    if visited == [] then 0 else (if visited[0] then 0 else 1) + Unmarked(visited[1..])
  }

  lemma {:induction false} UnmarkedDrops(visited: seq<bool>, t: nat)
    requires t < |visited| && !visited[t]
    ensures Unmarked(visited[t := true]) == Unmarked(visited) - 1
  {
    if t > 0 {
      assert visited[t := true][1..] == visited[1..][t - 1 := true];
      UnmarkedDrops(visited[1..], t - 1);
    } else {
      assert visited[t := true][1..] == visited[1..];
    }
  }

  /** The state a walk starts in: the queued ids are its level 0. */
  ghost function Starting(visited: seq<bool>, why: seq<Why>, queue: seq<nat>): Walking {
    Walking(visited, why, map q | q in queue :: 0, queue)
  }

  /** What may start a walk: queued ids are visited, each once, and everything else
      visited already has its successors visited. */
  ghost predicate CanStart(img: Image, visited: seq<bool>, queue: seq<nat>) {
    && img.Valid() && |visited| == |img.isecs|
    && (forall q :: 0 <= q < |queue| ==> queue[q] < |visited| && visited[queue[q]])
    && (forall i, j :: 0 <= i < j < |queue| ==> queue[i] != queue[j])
    && forall u: nat, v: nat {:trigger img.Edge(u, v)} ::
         u < |visited| && visited[u] && u !in queue && img.Edge(u, v) ==> visited[v]
  }

  /** What a walk has done when it ends. */
  ghost predicate Walked(img: Image, w0: Walking, visited: seq<bool>, why: seq<Why>, level: Levels) {
    var w := Walking(visited, why, level, []);
    Shaped(img, w0) && Shaped(img, w) && Followed(img, w, NOBODY) && Linked(img, level, why) && Extends(img, w0, w)
  }

  /** walk: breadth first from `start`. */
  method Walk(img: Image, visited: array<bool>, why: array<Why>, start: seq<nat>) returns (ghost level: Levels)
    requires visited.Length == why.Length && CanStart(img, visited[..], start) && why.Length == |img.isecs|
    modifies visited, why
    ensures Walked(img, old(Starting(visited[..], why[..], start)), visited[..], why[..], level)
  {
    var queue := start;
    ghost var w0 := Starting(visited[..], why[..], start);
    ghost var w := w0;
    ghost var l := 0;
    while queue != []
      invariant w.visited == visited[..] && w.why == why[..] && w.queue == queue
      invariant WalkInv(img, w0, w, NOBODY, l)
      decreases Unmarked(visited[..]), |queue|
    {
      var id := queue[0];
      PopKeeps(img, w0, w, l);
      l := w.level[id];
      queue, w := Expand(img, visited, why, id, queue[1..], w0, w.(queue := queue[1..]), l);
    }
    level := w.level;
  }

  /** The body of the walk's loop: follows the edges of `id`. */
  method Expand(img: Image, visited: array<bool>, why: array<Why>, id: nat, rest: seq<nat>,
                ghost w0: Walking, ghost before: Walking, ghost l: nat)
    returns (queue: seq<nat>, ghost w: Walking)
    requires visited.Length == why.Length
    requires before.visited == visited[..] && before.why == why[..] && before.queue == rest
    requires WalkInv(img, w0, before, id, l) && id in before.level && before.level[id] == l
    modifies visited, why
    ensures w.visited == visited[..] && w.why == why[..] && w.queue == queue
    ensures WalkInv(img, w0, w, NOBODY, l)
    ensures Unmarked(w.visited) < Unmarked(before.visited)
            || (Unmarked(w.visited) == Unmarked(before.visited) && queue == rest)
  {
    queue, w := FollowEdges(img, visited, why, id, rest, w0, before, l);
    CloseKeeps(img, w, id, l);
  }

  method FollowEdges(img: Image, visited: array<bool>, why: array<Why>, id: nat, rest: seq<nat>,
                     ghost w0: Walking, ghost before: Walking, ghost l: nat)
    returns (queue: seq<nat>, ghost w: Walking)
    requires visited.Length == why.Length
    requires before.visited == visited[..] && before.why == why[..] && before.queue == rest
    requires WalkInv(img, w0, before, id, l) && id in before.level && before.level[id] == l
    modifies visited, why
    ensures w.visited == visited[..] && w.why == why[..] && w.queue == queue
    ensures WalkInv(img, w0, w, id, l) && id in w.level && w.level[id] == l
    ensures id < |img.isecs| && forall m :: 0 <= m < |img.Edges(id)| ==> w.visited[img.Leads(id, m)]
    ensures w == before || Unmarked(w.visited) < Unmarked(before.visited)
  {
    var edges := img.Edges(id);
    queue := rest;
    w := before;
    for m := 0 to |edges|
      invariant w.visited == visited[..] && w.why == why[..] && w.queue == queue
      invariant WalkInv(img, w0, w, id, l) && id in w.level && w.level[id] == l
      invariant forall k :: 0 <= k < m ==> w.visited[img.Leads(id, k)]
      invariant w == before || Unmarked(w.visited) < Unmarked(before.visited)
    {
      queue, w := FollowEdge(img, visited, why, id, m, queue, w0, w, l);
    }
  }

  method FollowEdge(img: Image, visited: array<bool>, why: array<Why>, id: nat, m: nat, rest: seq<nat>,
                    ghost w0: Walking, ghost before: Walking, ghost l: nat)
    returns (queue: seq<nat>, ghost w: Walking)
    requires visited.Length == why.Length
    requires before.visited == visited[..] && before.why == why[..] && before.queue == rest
    requires WalkInv(img, w0, before, id, l) && id in before.level && before.level[id] == l
    requires id < |img.isecs| && m < |img.Edges(id)|
    modifies visited, why
    ensures w.visited == visited[..] && w.why == why[..] && w.queue == queue
    ensures WalkInv(img, w0, w, id, l) && id in w.level && w.level[id] == l
    ensures w.visited[img.Leads(id, m)]
    ensures forall v :: 0 <= v < visited.Length && old(visited[v]) ==> visited[v]
    ensures w == before || Unmarked(w.visited) < Unmarked(before.visited)
  {
    queue, w := rest, before;
    var target := img.Leads(id, m);
    if !visited[target] {
      VisitKeeps(img, w0, w, id, target, l);
      w := Visit(w, id, target, l);
      visited[target] := true;
      why[target] := From(id);
      queue := queue + [target];
    }
  }

  lemma PopShaped(img: Image, w: Walking)
    requires w.queue != [] && Shaped(img, w)
    ensures Shaped(img, w.(queue := w.queue[1..])) && w.queue[0] !in w.queue[1..]
    ensures forall x :: x in w.queue <==> x == w.queue[0] || x in w.queue[1..]
  {
    assert forall q :: 0 <= q < |w.queue| - 1 ==> w.queue[1..][q] == w.queue[q + 1];
    assert w.queue == [w.queue[0]] + w.queue[1..];
  }

  lemma PopSorted(w: Walking, k: nat)
    requires w.queue != [] && Sorted(w, k) && forall q :: 0 <= q < |w.queue| ==> w.queue[q] in w.level
    ensures Sorted(w.(queue := w.queue[1..]), w.level[w.queue[0]])
  {
    assert forall q :: 0 <= q < |w.queue| - 1 ==> w.queue[1..][q] == w.queue[q + 1];
  }

  /** Taking the front of the queue, whose level is then the lowest open one. */
  lemma PopKeeps(img: Image, w0: Walking, w: Walking, k: nat)
    requires w.queue != [] && WalkInv(img, w0, w, NOBODY, k)
    ensures w.queue[0] in w.level
    ensures WalkInv(img, w0, w.(queue := w.queue[1..]), w.queue[0], w.level[w.queue[0]])
  {
    PopShaped(img, w);
    PopSorted(w, k);
  }

  // ---- What a walk computes ----

  /** A walk adds exactly what is reachable: the result is the least closed superset. */
  lemma WalkedIsLeast(img: Image, w0: Walking, visited: seq<bool>, why: seq<Why>, level: Levels)
    requires Walked(img, w0, visited, why, level)
    ensures img.IsLeast(Marked(w0.visited), Marked(visited))
  {
    assert Marked(w0.visited) <= Marked(visited);
  }

  /** No path from the start set to `v` is shorter than v's level. */
  lemma {:induction false} LevelIsLeastDistance(
    img: Image, w0: Walking, visited: seq<bool>, why: seq<Why>, level: Levels, path: seq<nat>)
    requires Walked(img, w0, visited, why, level)
    requires forall v: nat :: v < |w0.visited| && w0.visited[v] ==> v in w0.level
    requires img.IsPath(path) && path[0] in w0.level
    ensures path[|path| - 1] in level && level[path[|path| - 1]] <= |path| - 1
  {
    var n := |path| - 1;
    var w := Walking(visited, why, level, []);
    if n > 0 {
      var shorter := path[..n];
      forall i: nat | i < n - 1 ensures img.Follows(shorter, i) {
        assert img.Follows(path, i);
      }
      LevelIsLeastDistance(img, w0, visited, why, level, shorter);
      assert img.Follows(path, n - 1);
      assert Followed(img, w, NOBODY);
      assert w.visited[path[n - 1]];
      assert w.visited[path[n]] && path[n] in level;
    }
  }

  // ---- Why chains ----

  /** Every visited subsection has a rank; those of rank 0 are roots, the others were
      reached from one a rank lower. */
  ghost predicate Explained(img: Image, visited: seq<bool>, why: seq<Why>, rank: Levels) {
    && img.Valid() && |visited| == |why| == |img.isecs|
    && (forall v: nat :: v in rank <==> v < |visited| && visited[v])
    && (forall v :: v in rank && rank[v] == 0 ==> why[v].IsRoot?)
    && Linked(img, rank, why)
  }

  /** The chain's next id is the reason for this one, and refers to it. */
  ghost predicate LinkBack(img: Image, why: seq<Why>, chain: seq<nat>, i: nat)
    requires img.Valid()
  {
    && i < |chain| - 1 && chain[i] < |why| && why[chain[i]] == From(chain[i + 1])
    && chain[i + 1] < |img.isecs| && img.Edge(chain[i + 1], chain[i])
  }

  /** print_chain: it ends, at a root, after exactly as many links as the rank; every
      link is a real redirected edge. */
  method PrintChain(img: Image, ghost visited: seq<bool>, why: array<Why>, start: nat, ghost rank: Levels)
    returns (chain: seq<nat>, root: Root)
    requires Explained(img, visited, why[..], rank) && start in rank
    ensures |chain| == rank[start] + 1 && chain[0] == start
    ensures forall i :: 0 <= i < |chain| ==> chain[i] in rank && chain[i] < |img.isecs|
    ensures forall i: nat :: i < |chain| - 1 ==> LinkBack(img, why[..], chain, i)
    ensures why[chain[|chain| - 1]] == IsRoot(root)
  {
    chain := [start];
    var step := why[start];
    ghost var at := start;
    assert rank[at] > 0 ==> LinkedAt(img, rank, why[..], at);
    while step.From?
      invariant |chain| > 0 && chain[0] == start && chain[|chain| - 1] == at
      invariant at in rank && at < |img.isecs| && step == why[at]
      invariant |chain| + rank[at] == rank[start] + 1
      invariant rank[at] > 0 ==> LinkedAt(img, rank, why[..], at)
      invariant forall i :: 0 <= i < |chain| ==> chain[i] in rank && chain[i] < |img.isecs|
      invariant forall i: nat :: i < |chain| - 1 ==> LinkBack(img, why[..], chain, i)
      decreases rank[at]
    {
      var id := step.id;
      ghost var before := chain;
      chain := chain + [id];
      assert forall i: nat :: i < |before| - 1 ==> LinkBack(img, why[..], before, i);
      assert forall i: nat :: i < |before| - 1 && LinkBack(img, why[..], before, i) ==>
        LinkBack(img, why[..], chain, i);
      assert LinkBack(img, why[..], chain, |before| - 1);
      step := why[id];
      at := id;
      assert rank[at] > 0 ==> LinkedAt(img, rank, why[..], at);
    }
    root := step.root;
  }

  /** A chain is a path backwards. */
  function Reverse(xs: seq<nat>): (r: seq<nat>)
    ensures |r| == |xs| && forall i :: 0 <= i < |xs| ==> r[i] == xs[|xs| - 1 - i]
  {
    seq(|xs|, i requires 0 <= i < |xs| => xs[|xs| - 1 - i])
  }

  lemma ChainIsPath(img: Image, why: seq<Why>, chain: seq<nat>)
    requires img.Valid() && |chain| > 0
    requires forall i :: 0 <= i < |chain| ==> chain[i] < |img.isecs|
    requires forall i: nat :: i < |chain| - 1 ==> LinkBack(img, why, chain, i)
    ensures img.IsPath(Reverse(chain))
  {
    var r, n := Reverse(chain), |chain|;
    forall i: nat | i < n - 1 ensures img.Follows(r, i) {
      assert LinkBack(img, why, chain, n - 2 - i);
      Backward(img, why, chain, n - 2 - i);
    }
  }

  lemma Backward(img: Image, why: seq<Why>, chain: seq<nat>, i: nat)
    requires img.Valid() && LinkBack(img, why, chain, i)
    ensures img.Follows(Reverse(chain), |chain| - 2 - i)
  {
    var r := Reverse(chain);
    assert r[|chain| - 2 - i] == chain[i + 1] && r[|chain| - 1 - i] == chain[i];
  }

  /** So for what the roots' walk reached, a chain is a shortest path from the roots:
      it is one, and none is shorter. */
  lemma ChainIsShortest(
    img: Image, w0: Walking, visited: seq<bool>, why: seq<Why>, level: Levels, chain: seq<nat>, path: seq<nat>)
    requires Walked(img, w0, visited, why, level)
    requires forall v: nat :: v < |w0.visited| && w0.visited[v] ==> v in w0.level
    requires |chain| > 0 && chain[0] in level && |chain| == level[chain[0]] + 1
    requires forall i :: 0 <= i < |chain| ==> chain[i] < |img.isecs|
    requires forall i: nat :: i < |chain| - 1 ==> LinkBack(img, why, chain, i)
    requires img.IsPath(path) && path[0] in w0.level && path[|path| - 1] == chain[0]
    ensures img.IsPath(Reverse(chain)) && |chain| <= |path|
  {
    ChainIsPath(img, why, chain);
    LevelIsLeastDistance(img, w0, visited, why, level, path);
  }
}
