/** dead_strip's later stages on top of the walk: the order-dependent live-support
    pass, the sweep, and the whole pass put together. */
module LiveSupportPass {
  import opened Sequences
  import opened LinkGraph
  import opened DeadStrip

  /** Subsection `id` refers to a subsection of `s`. */
  ghost predicate Refers(img: Image, id: nat, s: set<nat>)
    requires img.Valid() && id < |img.isecs|
  {
    exists v: nat :: img.Edge(id, v) && v in s
  }

  /** The sets the pass goes through, one live-support subsection at a time: one that
      refers to a live subsection at its turn brings in its replacement and what that
      reaches; one that does not changes nothing. */
  ghost predicate Stages(img: Image, ids: seq<nat>, stages: seq<set<nat>>)
    requires img.Valid() && Bounded(ids, |img.isecs|)
  {
    && |stages| == |ids| + 1
    && forall k :: 0 <= k < |ids| ==>
         if Refers(img, ids[k], stages[k]) then img.IsLeast(stages[k] + {img.redirects[ids[k]]}, stages[k + 1])
         else stages[k + 1] == stages[k]
  }

  /** The pass leaves a closed set closed. */
  lemma {:induction false} StagesClosed(img: Image, ids: seq<nat>, stages: seq<set<nat>>, k: nat)
    requires img.Valid() && Bounded(ids, |img.isecs|) && Stages(img, ids, stages) && k <= |ids|
    requires img.Closed(stages[0])
    ensures img.Closed(stages[k]) && stages[0] <= stages[k]
  {
    if k > 0 {
      StagesClosed(img, ids, stages, k - 1);
    }
  }

  /** What the pass adds is reachable from the replacement of a live-support subsection
      that referred to a live one at its turn. */
  lemma {:induction false} NewlyLive(img: Image, ids: seq<nat>, stages: seq<set<nat>>, n: nat, v: nat) returns (k: nat)
    requires img.Valid() && Bounded(ids, |img.isecs|) && Stages(img, ids, stages) && n <= |ids|
    requires img.Closed(stages[0]) && v in stages[n] && v !in stages[0]
    ensures k < n && Refers(img, ids[k], stages[k])
    ensures forall t: set<nat> :: img.redirects[ids[k]] in t && img.Closed(t) ==> v in t
  {
    if v in stages[n - 1] {
      k := NewlyLive(img, ids, stages, n - 1, v);
    } else {
      k := n - 1;
      StagesClosed(img, ids, stages, k);
      forall t: set<nat> | img.redirects[ids[k]] in t && img.Closed(t) ensures v in t {
        assert img.Closed(stages[k] + t);
        assert stages[k] + {img.redirects[ids[k]]} <= stages[k] + t;
      }
    }
  }

  method RefersToLive(img: Image, id: nat, visited: array<bool>) returns (live: bool)
    requires img.Valid() && id < |img.isecs| && visited.Length == |img.isecs|
    ensures live == Refers(img, id, Marked(visited[..]))
  {
    live := false;
    var edges := img.Edges(id);
    for m := 0 to |edges|
      invariant live <==> exists k :: 0 <= k < m && img.Leads(id, k) in Marked(visited[..])
    {
      live := live || visited[img.Leads(id, m)];
    }
    if v: nat :| img.Edge(id, v) && v in Marked(visited[..]) {
      ghost var m := img.EdgeIsLed(id, v);
    }
  }

  /** Explained, for a closed visited set: what holds between walks. */
  ghost predicate Settled(img: Image, visited: seq<bool>, why: seq<Why>, rank: Levels) {
    Explained(img, visited, why, rank) && img.Closed(Marked(visited))
  }

  /** What a walk from one new root of rank 0 knows of each rank. */
  lemma RanksJoin(img: Image, visited: seq<bool>, why: seq<Why>, rank: Levels, id: nat,
                  visited': seq<bool>, why': seq<Why>, level: Levels)
    requires Explained(img, visited, why, rank) && id < |visited| && !visited[id]
    requires Walked(img, Starting(visited[id := true], why[id := IsRoot(LiveSupport)], [id]), visited', why', level)
    ensures rank.Keys !! level.Keys
    ensures forall v: nat :: v in rank + level <==> v < |visited'| && visited'[v]
    ensures forall v :: v in level && level[v] == 0 ==> why'[v].IsRoot?
    ensures forall v :: v in rank ==> v < |why'| && why'[v] == why[v]
  {
    var w0 := Starting(visited[id := true], why[id := IsRoot(LiveSupport)], [id]);
    assert id in w0.level && forall v :: v in w0.level ==> v == id;
    assert forall v :: v in rank ==> v != id;
  }

  lemma LinksJoin(img: Image, why: seq<Why>, rank: Levels, why': seq<Why>, level: Levels)
    requires img.Valid() && |why| == |why'| == |img.isecs| && rank.Keys !! level.Keys
    requires Linked(img, rank, why) && Linked(img, level, why')
    requires forall v :: v in rank ==> v < |why'| && why'[v] == why[v]
    ensures Linked(img, rank + level, why')
  {
    var all := rank + level;
    forall v: nat | v in all && all[v] > 0 ensures v < |why'| && LinkedAt(img, all, why', v) {
      if v in level {
        assert LinkedAt(img, level, why', v);
      } else {
        assert LinkedAt(img, rank, why, v);
      }
    }
  }

  /** A walk from one new root of rank 0 explains what it adds. */
  lemma WalkExplains(img: Image, visited: seq<bool>, why: seq<Why>, rank: Levels, id: nat,
                     visited': seq<bool>, why': seq<Why>, level: Levels)
    requires Settled(img, visited, why, rank) && id < |visited| && !visited[id]
    requires Walked(img, Starting(visited[id := true], why[id := IsRoot(LiveSupport)], [id]), visited', why', level)
    ensures Settled(img, visited', why', rank + level)
    ensures img.IsLeast(Marked(visited) + {id}, Marked(visited'))
  {
    var w0 := Starting(visited[id := true], why[id := IsRoot(LiveSupport)], [id]);
    WalkedIsLeast(img, w0, visited', why', level);
    assert Marked(visited[id := true]) == Marked(visited) + {id};
    RanksJoin(img, visited, why, rank, id, visited', why', level);
    LinksJoin(img, why, rank, why', level);
  }

  method MarkLiveSupport(img: Image, liveSupport: seq<nat>, visited: array<bool>, why: array<Why>, ghost rank0: Levels)
    returns (ghost rank: Levels, ghost stages: seq<set<nat>>)
    requires visited.Length == why.Length && Settled(img, visited[..], why[..], rank0)
    requires Bounded(liveSupport, |img.isecs|)
    modifies visited, why
    ensures Settled(img, visited[..], why[..], rank)
    ensures Stages(img, liveSupport, stages)
    ensures stages[0] == old(Marked(visited[..])) && stages[|liveSupport|] == Marked(visited[..])
    ensures forall v :: v in rank0 ==> v in rank && rank[v] == rank0[v] && why[v] == old(why[v])
  {
    rank := rank0;
    stages := [Marked(visited[..])];
    for k := 0 to |liveSupport|
      invariant Settled(img, visited[..], why[..], rank)
      invariant |stages| == k + 1 && Stages(img, liveSupport[..k], stages)
      invariant stages[0] == old(Marked(visited[..])) && stages[k] == Marked(visited[..])
      invariant forall v :: v in rank0 ==> v in rank && rank[v] == rank0[v] && why[v] == old(why[v])
    {
      ghost var before := Marked(visited[..]);
      rank := TryLiveSupport(img, liveSupport[k], visited, why, rank);
      SliceNext(liveSupport, k);
      StagesPush(img, liveSupport[..k], stages, liveSupport[k], Marked(visited[..]));
      stages := stages + [Marked(visited[..])];
    }
    assert liveSupport[..|liveSupport|] == liveSupport;
  }

  lemma StagesPush(img: Image, ids: seq<nat>, stages: seq<set<nat>>, id: nat, after: set<nat>)
    requires img.Valid() && Bounded(ids, |img.isecs|) && id < |img.isecs| && Stages(img, ids, stages)
    requires var before := stages[|ids|];
             if Refers(img, id, before) then img.IsLeast(before + {img.redirects[id]}, after) else after == before
    ensures Bounded(ids + [id], |img.isecs|) && Stages(img, ids + [id], stages + [after])
  {
    var ids', stages' := ids + [id], stages + [after];
    forall k | 0 <= k < |ids'|
      ensures if Refers(img, ids'[k], stages'[k])
              then img.IsLeast(stages'[k] + {img.redirects[ids'[k]]}, stages'[k + 1])
              else stages'[k + 1] == stages'[k]
    {
      assert k < |ids| ==> ids'[k] == ids[k] && stages'[k] == stages[k] && stages'[k + 1] == stages[k + 1];
    }
  }

  /** One turn of the pass. */
  method TryLiveSupport(img: Image, id: nat, visited: array<bool>, why: array<Why>, ghost rank0: Levels)
    returns (ghost rank: Levels)
    requires visited.Length == why.Length && Settled(img, visited[..], why[..], rank0) && id < |img.isecs|
    modifies visited, why
    ensures Settled(img, visited[..], why[..], rank)
    ensures var before, after := old(Marked(visited[..])), Marked(visited[..]);
            if Refers(img, id, before) then img.IsLeast(before + {img.redirects[id]}, after) else after == before
    ensures forall v :: v in rank0 ==> v in rank && rank[v] == rank0[v] && why[v] == old(why[v])
  {
    rank := rank0;
    var referencesLive := RefersToLive(img, id, visited);
    var r := img.redirects[id];
    if referencesLive && !visited[r] {
      rank := WalkFrom(img, r, visited, why, rank0);
    } else if referencesLive {
      assert Marked(visited[..]) + {r} == Marked(visited[..]);
    }
  }

  /** Marks one more root, kept by what it refers to, and what it leads to. */
  method WalkFrom(img: Image, r: nat, visited: array<bool>, why: array<Why>, ghost rank0: Levels)
    returns (ghost rank: Levels)
    requires visited.Length == why.Length && Settled(img, visited[..], why[..], rank0)
    requires r < visited.Length && !visited[r]
    modifies visited, why
    ensures Settled(img, visited[..], why[..], rank)
    ensures img.IsLeast(old(Marked(visited[..])) + {r}, Marked(visited[..]))
    ensures forall v :: v in rank0 ==> v in rank && rank[v] == rank0[v] && why[v] == old(why[v])
  {
    ghost var visited0, why0 := visited[..], why[..];
    visited[r] := true;
    why[r] := IsRoot(LiveSupport);
    assert visited[..] == visited0[r := true] && why[..] == why0[r := IsRoot(LiveSupport)];
    CanStartAt(img, visited0, why0, rank0, r);
    ghost var level := Walk(img, visited, why, [r]);
    WalkExplains(img, visited0, why0, rank0, r, visited[..], why[..], level);
    RanksJoin(img, visited0, why0, rank0, r, visited[..], why[..], level);
    rank := rank0 + level;
  }

  lemma CanStartAt(img: Image, visited: seq<bool>, why: seq<Why>, rank: Levels, r: nat)
    requires Settled(img, visited, why, rank) && r < |visited| && !visited[r]
    ensures CanStart(img, visited[r := true], [r])
  {
    forall u: nat, v: nat | u < |visited| && visited[r := true][u] && u !in [r] && img.Edge(u, v)
      ensures v < |visited| && visited[r := true][v]
    {
      assert u in Marked(visited) && v in Marked(visited);
    }
  }

  method Sweep(visited: array<bool>, alive: array<bool>)
    requires visited != alive && visited.Length == alive.Length
    modifies visited, alive
    ensures forall id :: 0 <= id < alive.Length ==> alive[id] == (old(visited[id]) && old(alive[id]))
    ensures forall id :: 0 <= id < visited.Length ==> !visited[id]
  {
    for id := 0 to alive.Length
      invariant forall k :: 0 <= k < id ==> alive[k] == (old(visited[k]) && old(alive[k])) && !visited[k]
      invariant forall k :: id <= k < alive.Length ==> alive[k] == old(alive[k]) && visited[k] == old(visited[k])
    {
      var v := visited[id];
      visited[id] := false;
      alive[id] := v && alive[id];
    }
  }

  /** The roots' walk explains everything it marks, at its breadth-first level. */
  lemma RootsExplained(img: Image, visited0: seq<bool>, why0: seq<Why>, roots: seq<nat>,
                       visited: seq<bool>, why: seq<Why>, level: Levels)
    requires Walked(img, Starting(visited0, why0, roots), visited, why, level)
    requires Marked(visited0) == SetOf(roots) && Bounded(roots, |why0|) && forall r :: r in roots ==> why0[r].IsRoot?
    ensures Settled(img, visited, why, level) && img.IsLeast(SetOf(roots), Marked(visited))
    ensures forall r :: r in roots ==> r in level && why[r] == why0[r]
  {
    var w0 := Starting(visited0, why0, roots);
    WalkedIsLeast(img, w0, visited, why, level);
    forall v: nat | v < |visited0| && visited0[v] ensures v in roots {
      assert v in Marked(visited0);
    }
  }

  /** dead_strip under -why_live. The live set before live support is the least one;
      the pass extends it stage by stage; then exactly the subsections alive before
      and marked stay alive, and every chain of reasons is sound. */
  method DeadStripAll(img: Image, candidates: seq<(nat, Root)>, liveSupport: seq<nat>,
                      visited: array<bool>, alive: array<bool>, why: array<Why>)
    returns (ghost roots: seq<nat>, ghost stages: seq<set<nat>>, ghost rank: Levels)
    requires img.Valid() && visited != alive && visited.Length == why.Length == alive.Length == |img.isecs|
    requires forall c :: 0 <= c < |candidates| ==> candidates[c].0 < |img.isecs|
    requires Bounded(liveSupport, |img.isecs|)
    requires forall id :: 0 <= id < visited.Length ==> !visited[id]
    modifies visited, alive, why
    ensures forall r: nat :: r in roots <==> exists c :: 0 <= c < |candidates| && img.redirects[candidates[c].0] == r
    ensures forall r :: r in roots ==> r < why.Length && NotesFirst(img, candidates, r, why[r])
    ensures Stages(img, liveSupport, stages) && img.IsLeast(SetOf(roots), stages[0])
    ensures forall id: nat :: id < alive.Length ==> (alive[id] <==> old(alive[id]) && id in stages[|liveSupport|])
    ensures forall id :: 0 <= id < visited.Length ==> !visited[id]
    ensures exists marked :: Settled(img, marked, why[..], rank) && Marked(marked) == stages[|liveSupport|]
  {
    var found;
    ghost var level;
    found, level := MarkRoots(img, candidates, visited, why);
    roots := found;
    rank, stages := MarkLiveSupport(img, liveSupport, visited, why, level);
    ghost var marked := visited[..];
    Sweep(visited, alive);
    assert Settled(img, marked, why[..], rank);
  }

  /** Its first half: the roots, and what they lead to. */
  method MarkRoots(img: Image, candidates: seq<(nat, Root)>, visited: array<bool>, why: array<Why>)
    returns (roots: seq<nat>, ghost level: Levels)
    requires img.Valid() && visited.Length == why.Length == |img.isecs|
    requires forall c :: 0 <= c < |candidates| ==> candidates[c].0 < |img.isecs|
    requires forall id :: 0 <= id < visited.Length ==> !visited[id]
    modifies visited, why
    ensures forall r: nat :: r in roots <==> exists c :: 0 <= c < |candidates| && img.redirects[candidates[c].0] == r
    ensures Settled(img, visited[..], why[..], level) && img.IsLeast(SetOf(roots), Marked(visited[..]))
    ensures forall r :: r in roots ==> r in level && r < why.Length && NotesFirst(img, candidates, r, why[r])
  {
    roots := CollectRoots(img, candidates, visited, why);
    ghost var visited0, why0 := visited[..], why[..];
    RootsCanStart(img, visited[..], roots);
    level := Walk(img, visited, why, roots);
    RootsExplained(img, visited0, why0, roots, visited[..], why[..], level);
  }

  lemma RootsCanStart(img: Image, visited: seq<bool>, roots: seq<nat>)
    requires img.Valid() && |visited| == |img.isecs| && Marked(visited) == SetOf(roots)
    requires forall i, j :: 0 <= i < j < |roots| ==> roots[i] != roots[j]
    ensures CanStart(img, visited, roots) && Bounded(roots, |visited|)
  {
    forall q | 0 <= q < |roots| ensures roots[q] < |visited| && visited[roots[q]] {
      assert roots[q] in Marked(visited);
    }
    forall u: nat | u < |visited| && visited[u] ensures u in roots {
      assert u in Marked(visited);
    }
  }
}
