/** Symbol resolution (input_files.rs and passes.rs): objects race the ranks of their
    definitions into `best` by atomic minimum, then each writes the symbols it won,
    all at once. */
module SymbolRace {
  import opened Options
  import opened SymbolRank

  /** Every entry names one of n symbols. */
  ghost predicate Named(ld: Link, n: nat) {
    ld.Valid() && forall o: nat, i: nat :: ld.IsEntry(o, i) ==>
      |ld.objs[o].ids| == |ld.objs[o].syms| && ld.objs[o].ids[i] < n
  }

  /** The rank entry i of object o races with, if it takes part. */
  function RankAt(ld: Link, o: nat, i: nat): Option<nat>
    requires ld.Valid() && ld.IsEntry(o, i)
  {
    if i < ld.objs[o].firstGlobal || (ld.onlyAlive && !ld.objs[o].reachable) then None else DefinitionRank(ld, o, i)
  }

  /** Entry i of object o defines symbol x with rank v. */
  predicate Defines(ld: Link, o: nat, i: nat, x: nat, v: nat)
    requires ld.Valid()
  {
    ld.IsEntry(o, i) && |ld.objs[o].ids| == |ld.objs[o].syms| && ld.objs[o].ids[i] == x && RankAt(ld, o, i) == Some(v)
  }

  /** Entry i of object o is a definition of symbol x that takes part in the race: it is
      among its object's global ones, and its object is in the link if only those race. */
  ghost predicate Competes(ld: Link, o: nat, i: nat, x: nat) {
    && IsDefinition(ld, o, i) && i < |ld.objs[o].ids| && ld.objs[o].ids[i] == x
    && i >= ld.objs[o].firstGlobal && (ld.onlyAlive ==> ld.objs[o].reachable)
  }

  lemma CompetesWithRank(ld: Link, o: nat, i: nat, x: nat)
    requires ld.Valid()
    ensures Competes(ld, o, i, x) <==> exists v: nat :: Defines(ld, o, i, x, v)
  {
    if ld.IsEntry(o, i) {
      assert ld.ObjectOk(ld.objs[o]);
      RankedIffDefinition(ld, o, i);
      assert RankAt(ld, o, i).Some? && ld.objs[o].ids[i] == x ==> Defines(ld, o, i, x, RankAt(ld, o, i).value);
    }
  }

  /** Among them, the ranks are in the order of preference. */
  lemma RanksArePreference(ld: Link, o: nat, i: nat, p: nat, j: nat, x: nat, v: nat, w: nat)
    requires ld.Valid() && Defines(ld, o, i, x, v) && Defines(ld, p, j, x, w)
    ensures v < w <==> Prefers(ld, o, i, p, j)
    ensures v < MAX_RANK && (o != p ==> v != w)
  {
    RankIsPreference(ld, o, i, p, j);
  }

  // ---- The race ----

  /** next[o]: the entry object o's task is at. */
  datatype Race = Race(next: seq<nat>, best: seq<nat>)

  ghost predicate RaceShape(ld: Link, s: Race) {
    && Named(ld, |s.best|) && |s.next| == |ld.objs|
    && forall o: nat :: o < |s.next| ==> s.next[o] <= |ld.objs[o].syms|
  }

  /** One step of object o's task. */
  function RaceStep(ld: Link, s: Race, o: nat): Race
    requires RaceShape(ld, s) && o < |s.next|
  {
    var i := s.next[o];
    if i == |ld.objs[o].syms| then s
    else
      assert ld.IsEntry(o, i);
      var x := ld.objs[o].ids[i];
      match RankAt(ld, o, i)
      case None => s.(next := s.next[o := i + 1])
      case Some(v) => Race(s.next[o := i + 1], s.best[x := if v < s.best[x] then v else s.best[x]])
  }

  /** Raced already: an entry behind its object's position. */
  predicate Raced(ld: Link, next: seq<nat>, o: nat, i: nat, x: nat, v: nat)
    requires ld.Valid()
  {
    o < |next| && i < next[o] && Defines(ld, o, i, x, v)
  }

  ghost predicate LeastRaced(ld: Link, next: seq<nat>, x: nat, b: nat)
    requires ld.Valid()
  {
    && b <= MAX_RANK
    && (b < MAX_RANK ==> exists o: nat, i: nat :: Raced(ld, next, o, i, x, b))
    && forall o: nat, i: nat, v: nat :: Raced(ld, next, o, i, x, v) ==> b <= v
  }

  ghost predicate RaceInv(ld: Link, s: Race) {
    RaceShape(ld, s) && forall x: nat :: x < |s.best| ==> LeastRaced(ld, s.next, x, s.best[x])
  }

  lemma RaceStepInv(ld: Link, s: Race, o: nat)
    requires RaceInv(ld, s) && o < |s.next|
    ensures RaceInv(ld, RaceStep(ld, s, o)) && |RaceStep(ld, s, o).next| == |s.next|
  {
    var s' := RaceStep(ld, s, o);
    if s.next[o] < |ld.objs[o].syms| {
      forall x: nat | x < |s'.best| ensures LeastRaced(ld, s'.next, x, s'.best[x]) {
        RaceStepLeast(ld, s, o, x);
      }
    }
  }

  lemma RaceStepLeast(ld: Link, s: Race, o: nat, x: nat)
    requires RaceInv(ld, s) && o < |s.next| && s.next[o] < |ld.objs[o].syms| && x < |s.best|
    ensures LeastRaced(ld, RaceStep(ld, s, o).next, x, RaceStep(ld, s, o).best[x])
  {
    var s', i := RaceStep(ld, s, o), s.next[o];
    assert LeastRaced(ld, s.next, x, s.best[x]);
    assert ld.IsEntry(o, i);
    if RankAt(ld, o, i).Some? {
      RankIsPreference(ld, o, i, o, i);
    }
    forall p: nat, j: nat, v: nat | Raced(ld, s'.next, p, j, x, v) ensures s'.best[x] <= v {
      assert Raced(ld, s.next, p, j, x, v) || (p == o && j == i);
    }
    if s'.best[x] < MAX_RANK {
      if s'.best[x] == s.best[x] {
        var p: nat, j: nat :| Raced(ld, s.next, p, j, x, s.best[x]);
        assert Raced(ld, s'.next, p, j, x, s.best[x]);
      } else {
        assert Raced(ld, s'.next, o, i, x, s'.best[x]);
      }
    }
  }

  ghost predicate RaceRun(ld: Link, s: Race, schedule: seq<nat>, s': Race)
    requires RaceShape(ld, s)
    decreases |schedule|
  {
    if schedule == [] then s' == s
    else
      && schedule[0] < |s.next|
      && RaceShape(ld, RaceStep(ld, s, schedule[0]))
      && RaceRun(ld, RaceStep(ld, s, schedule[0]), schedule[1..], s')
  }

  lemma {:induction false} RaceRunInv(ld: Link, s: Race, schedule: seq<nat>, s': Race)
    requires RaceInv(ld, s) && RaceRun(ld, s, schedule, s')
    ensures RaceInv(ld, s') && |s'.next| == |s.next| && |s'.best| == |s.best|
    decreases |schedule|
  {
    if schedule != [] {
      RaceStepInv(ld, s, schedule[0]);
      RaceRunInv(ld, RaceStep(ld, s, schedule[0]), schedule[1..], s');
    }
  }

  /** b is the least rank any definition of x has, or vacant if there is none. */
  ghost predicate IsLeastRank(ld: Link, x: nat, b: nat)
    requires ld.Valid()
  {
    && b <= MAX_RANK
    && (b < MAX_RANK ==> exists o: nat, i: nat :: Defines(ld, o, i, x, b))
    && forall o: nat, i: nat, v: nat :: Defines(ld, o, i, x, v) ==> b <= v
  }

  ghost predicate RaceDone(ld: Link, s: Race) {
    |s.next| == |ld.objs| && forall o: nat :: o < |s.next| ==> s.next[o] == |ld.objs[o].syms|
  }

  /** The race is order-free: whatever the schedule, `best` ends as the least rank of
      each symbol's definitions. */
  lemma RaceFindsLeast(ld: Link, n: nat, schedule: seq<nat>, s': Race)
    requires Named(ld, n)
    requires var s := Race(seq(|ld.objs|, _ => 0), seq(n, _ => MAX_RANK)); RaceRun(ld, s, schedule, s')
    requires RaceDone(ld, s')
    ensures |s'.best| == n && forall x: nat :: x < n ==> IsLeastRank(ld, x, s'.best[x])
  {
    var s := Race(seq(|ld.objs|, _ => 0), seq(n, _ => MAX_RANK));
    assert RaceInv(ld, s);
    RaceRunInv(ld, s, schedule, s');
    forall x: nat | x < n ensures IsLeastRank(ld, x, s'.best[x]) {
      var b := s'.best[x];
      assert LeastRaced(ld, s'.next, x, b);
      if b < MAX_RANK {
        var o: nat, i: nat :| Raced(ld, s'.next, o, i, x, b);
        assert Defines(ld, o, i, x, b);
      }
      forall o: nat, i: nat, v: nat | Defines(ld, o, i, x, v) ensures b <= v {
        assert Raced(ld, s'.next, o, i, x, v);
      }
    }
  }

  lemma LeastRankIsUnique(ld: Link, x: nat, a: nat, b: nat)
    requires ld.Valid() && IsLeastRank(ld, x, a) && IsLeastRank(ld, x, b)
    ensures a == b
  {
    if a < MAX_RANK {
      var o: nat, i: nat :| Defines(ld, o, i, x, a);
    }
    if b < MAX_RANK {
      var o: nat, i: nat :| Defines(ld, o, i, x, b);
    }
  }

  /** race_definitions of one object: its entries in order. */
  method RaceObject(ld: Link, o: nat, best: array<nat>)
    requires Named(ld, best.Length) && o < |ld.objs|
    modifies best
    ensures forall x :: 0 <= x < best.Length ==> best[x] <= old(best[x])
    ensures forall x: nat :: x < best.Length && best[x] < old(best[x]) ==>
              exists i: nat :: Defines(ld, o, i, x, best[x])
    ensures forall x: nat, i: nat, v: nat :: x < best.Length && Defines(ld, o, i, x, v) ==> best[x] <= v
  {
    var obj := ld.objs[o];
    for i := 0 to |obj.syms|
      invariant forall x :: 0 <= x < best.Length ==> best[x] <= old(best[x])
      invariant forall x: nat :: x < best.Length && best[x] < old(best[x]) ==>
                  exists j: nat :: Defines(ld, o, j, x, best[x])
      invariant forall x: nat, j: nat, v: nat :: j < i && x < best.Length && Defines(ld, o, j, x, v) ==> best[x] <= v
    {
      assert ld.IsEntry(o, i);
      var rank := RankAt(ld, o, i);
      if rank.Some? {
        var x := obj.ids[i];
        assert Defines(ld, o, i, x, rank.value);
        if rank.value < best[x] {
          best[x] := rank.value;
        }
      }
    }
  }
}
