/** Pairing page halves with offset halves (objc.rs, pair_classref_uses). */
module ObjcPairs {
  import opened Options

  datatype Half = Page | Offset | Neither

  /** A reference to a class slot: relocation k, in subsection isec. */
  datatype Use = Use(isec: nat, k: nat, cls: nat, half: Half)

  predicate IsHalf(uses: seq<Use>, i: nat, c: nat) { i < |uses| && uses[i].cls == c && uses[i].half != Neither }

  /** i..j is within one subsection's uses. */
  predicate OneIsec(uses: seq<Use>, i: nat, j: nat) {
    forall m :: i <= m <= j && m < |uses| ==> i < |uses| && uses[m].isec == uses[i].isec
  }

  /** No half of class c strictly between i and j. */
  predicate NoneBetween(uses: seq<Use>, c: nat, i: nat, j: nat) { forall m: nat :: i < m < j ==> !IsHalf(uses, m, c) }

  /** A page half and the next half of its class in its subsection, an offset half. */
  predicate Paired(uses: seq<Use>, i: nat, j: nat) {
    && i < j < |uses| && uses[i].half == Page && uses[j].half == Offset && uses[i].cls == uses[j].cls
    && OneIsec(uses, i, j) && NoneBetween(uses, uses[i].cls, i, j)
  }

  ghost predicate Matched(uses: seq<Use>, i: nat) {
    (exists j: nat :: Paired(uses, i, j)) || (exists j: nat :: Paired(uses, j, i))
  }

  /** A page half is in one pair at most, and so is an offset half. */
  lemma PairsAreOne(uses: seq<Use>, i: nat, j: nat, i': nat, j': nat)
    requires Paired(uses, i, j) && Paired(uses, i', j') && (i == i' || j == j')
    ensures i == i' && j == j'
  {
    assert i == i' && j < j' ==> IsHalf(uses, j, uses[i].cls);
    assert i == i' && j' < j ==> IsHalf(uses, j', uses[i].cls);
    assert j == j' && i < i' ==> IsHalf(uses, i', uses[i].cls);
    assert j == j' && i' < i ==> IsHalf(uses, i, uses[i'].cls);
  }

  /** A page half at i waiting for its offset half when the loop has come to n. */
  predicate Waiting(uses: seq<Use>, i: nat, n: nat) {
    i < n < |uses| && uses[i].half == Page && OneIsec(uses, i, n) && NoneBetween(uses, uses[i].cls, i, n)
  }

  /** Half i is left over, as known at n. */
  ghost predicate LeftOver(uses: seq<Use>, i: nat, n: nat) {
    && i < n && i < |uses| && uses[i].half != Neither && !Waiting(uses, i, n)
    && (forall j: nat :: Paired(uses, i, j) ==> j >= n) && forall j: nat :: !Paired(uses, j, i)
  }

  ghost predicate DistinctKeys(uses: seq<Use>) { forall i, j :: 0 <= i < j < |uses| ==> uses[i].k != uses[j].k }

  ghost predicate MapOk(uses: seq<Use>, n: nat, offsetHalf: map<nat, nat>) {
    && (forall p :: p in offsetHalf ==>
          exists i: nat, j: nat :: Paired(uses, i, j) && j < n && uses[i].k == p && uses[j].k == offsetHalf[p])
    && forall i: nat, j: nat :: Paired(uses, i, j) && j < n ==>
      uses[i].k in offsetHalf && offsetHalf[uses[i].k] == uses[j].k
  }

  ghost predicate OpenOk(uses: seq<Use>, n: nat, open: map<nat, nat>) {
    && (forall c :: c in open ==> exists i: nat :: Waiting(uses, i, n) && uses[i].cls == c && uses[i].k == open[c])
    && forall i: nat :: Waiting(uses, i, n) ==> uses[i].cls in open && open[uses[i].cls] == uses[i].k
  }

  ghost predicate UnpairedOk(uses: seq<Use>, n: nat, unpaired0: set<nat>, unpaired: set<nat>) {
    forall c: nat :: c in unpaired <==> c in unpaired0 || exists i: nat :: LeftOver(uses, i, n) && uses[i].cls == c
  }

  // ---- One use ----

  datatype State = State(offsetHalf: map<nat, nat>, open: map<nat, nat>, unpaired: set<nat>)

  ghost predicate Inv(uses: seq<Use>, n: nat, unpaired0: set<nat>, s: State) {
    n <= |uses| && MapOk(uses, n, s.offsetHalf) && OpenOk(uses, n, s.open) && UnpairedOk(uses, n, unpaired0, s.unpaired)
  }

  /** The use itself, before the check for the subsection's end. */
  function Take(s: State, u: Use): State {
    match u.half
    case Page =>
      State(s.offsetHalf, s.open[u.cls := u.k], if u.cls in s.open then s.unpaired + {u.cls} else s.unpaired)
    case Offset =>
      if u.cls in s.open then State(s.offsetHalf[s.open[u.cls] := u.k], s.open - {u.cls}, s.unpaired)
      else s.(unpaired := s.unpaired + {u.cls})
    case Neither => s
  }

  predicate IsecEnds(uses: seq<Use>, n: nat) { n + 1 >= |uses| || (n < |uses| && uses[n + 1].isec != uses[n].isec) }

  function Next(s: State, uses: seq<Use>, n: nat): State
    requires n < |uses|
  {
    var t := Take(s, uses[n]);
    if IsecEnds(uses, n) then State(t.offsetHalf, map[], t.unpaired + t.open.Keys) else t
  }

  lemma WaitingNext(uses: seq<Use>, i: nat, n: nat)
    requires n < |uses|
    ensures Waiting(uses, i, n + 1) <==>
            !IsecEnds(uses, n)
            && (if i == n then uses[n].half == Page else Waiting(uses, i, n) && !IsHalf(uses, n, uses[i].cls))
  {
    if i < n && Waiting(uses, i, n + 1) {
      assert uses[n].isec == uses[i].isec && uses[n + 1].isec == uses[i].isec;
    }
    if i < n && Waiting(uses, i, n) && !IsecEnds(uses, n) {
      assert uses[n].isec == uses[i].isec;
    }
  }

  lemma PairedNext(uses: seq<Use>, i: nat, n: nat)
    requires n < |uses|
    ensures Paired(uses, i, n) <==> Waiting(uses, i, n) && uses[n].half == Offset && uses[n].cls == uses[i].cls
  {
  }

  lemma OpenNext(uses: seq<Use>, n: nat, unpaired0: set<nat>, s: State)
    requires Inv(uses, n, unpaired0, s) && n < |uses|
    ensures OpenOk(uses, n + 1, Next(s, uses, n).open)
  {
    var open := Next(s, uses, n).open;
    forall c | c in open ensures exists i: nat :: Waiting(uses, i, n + 1) && uses[i].cls == c && uses[i].k == open[c] {
      WaitingNext(uses, n, n);
      if !(uses[n].half == Page && uses[n].cls == c) {
        var i: nat :| Waiting(uses, i, n) && uses[i].cls == c && uses[i].k == s.open[c];
        WaitingNext(uses, i, n);
      }
    }
    forall i: nat | Waiting(uses, i, n + 1) ensures uses[i].cls in open && open[uses[i].cls] == uses[i].k {
      WaitingNext(uses, i, n);
    }
  }

  lemma MapNext(uses: seq<Use>, n: nat, unpaired0: set<nat>, s: State)
    requires Inv(uses, n, unpaired0, s) && n < |uses| && DistinctKeys(uses)
    ensures MapOk(uses, n + 1, Next(s, uses, n).offsetHalf)
  {
    var next, u := Next(s, uses, n).offsetHalf, uses[n];
    if u.half == Offset && u.cls in s.open {
      var w: nat :| Waiting(uses, w, n) && uses[w].cls == u.cls && uses[w].k == s.open[u.cls];
      PairedNext(uses, w, n);
      forall i: nat, j: nat | Paired(uses, i, j) && j < n + 1
        ensures uses[i].k in next && next[uses[i].k] == uses[j].k
      {
        if j == n {
          PairsAreOne(uses, i, j, w, n);
        } else if i == w {
          PairsAreOne(uses, i, j, w, n);
        }
      }
    } else {
      forall i: nat | Paired(uses, i, n) ensures false {
        PairedNext(uses, i, n);
      }
    }
  }

  /** Which halves turn out left over at n. */
  lemma LeftNext(uses: seq<Use>, i: nat, n: nat)
    requires n < |uses|
    ensures LeftOver(uses, i, n + 1) <==>
            LeftOver(uses, i, n)
            || (Waiting(uses, i, n) && ((IsHalf(uses, n, uses[i].cls) && uses[n].half == Page)
                                        || (IsecEnds(uses, n) && !IsHalf(uses, n, uses[i].cls))))
            || (i == n && uses[n].half == Page && IsecEnds(uses, n))
            || (i == n && uses[n].half == Offset && forall j: nat :: !Waiting(uses, j, n) || uses[j].cls != uses[n].cls)
  {
    WaitingNext(uses, i, n);
    PairedNext(uses, i, n);
    if i == n {
      forall j: nat
        ensures Paired(uses, j, n) <==> Waiting(uses, j, n) && uses[n].half == Offset && uses[n].cls == uses[j].cls
      {
        PairedNext(uses, j, n);
      }
    } else if Waiting(uses, i, n) {
      forall j: nat | Paired(uses, i, j) ensures j >= n {
        assert j < n ==> IsHalf(uses, j, uses[i].cls);
      }
    }
  }

  lemma UnpairedNext(uses: seq<Use>, n: nat, unpaired0: set<nat>, s: State)
    requires Inv(uses, n, unpaired0, s) && n < |uses|
    ensures UnpairedOk(uses, n + 1, unpaired0, Next(s, uses, n).unpaired)
  {
    forall c: nat
      ensures c in Next(s, uses, n).unpaired
              <==> c in unpaired0 || exists i: nat :: LeftOver(uses, i, n + 1) && uses[i].cls == c
    {
      if i: nat :| LeftOver(uses, i, n + 1) && uses[i].cls == c {
        LeftNext(uses, i, n);
      }
      if c in Next(s, uses, n).unpaired && c !in unpaired0 {
        var i := WhoIsLeft(uses, n, unpaired0, s, c);
      }
    }
  }

  /** A half of a class that has just become unpaired, or was. */
  lemma WhoIsLeft(uses: seq<Use>, n: nat, unpaired0: set<nat>, s: State, c: nat) returns (i: nat)
    requires Inv(uses, n, unpaired0, s) && n < |uses| && c in Next(s, uses, n).unpaired && c !in unpaired0
    ensures LeftOver(uses, i, n + 1) && uses[i].cls == c
  {
    if c in s.unpaired {
      i :| LeftOver(uses, i, n) && uses[i].cls == c;
      LeftNext(uses, i, n);
    } else if c == uses[n].cls && (uses[n].half == Offset || (uses[n].half == Page && c !in s.open)) {
      i := n;
      LeftNext(uses, n, n);
    } else {
      i :| Waiting(uses, i, n) && uses[i].cls == c && uses[i].k == s.open[c];
      LeftNext(uses, i, n);
    }
  }

  lemma NextInv(uses: seq<Use>, n: nat, unpaired0: set<nat>, s: State)
    requires Inv(uses, n, unpaired0, s) && n < |uses| && DistinctKeys(uses)
    ensures Inv(uses, n + 1, unpaired0, Next(s, uses, n))
  {
    OpenNext(uses, n, unpaired0, s);
    MapNext(uses, n, unpaired0, s);
    UnpairedNext(uses, n, unpaired0, s);
  }

  /** pair_classref_uses. Each page half is mapped to the next half of its class in its
      subsection exactly if that is an offset half, so no two page halves share one;
      and a class joins `unpaired` exactly if one of its halves is in no pair. */
  method PairClassrefUses(uses: seq<Use>, unpaired0: set<nat>) returns (offsetHalf: map<nat, nat>, unpaired: set<nat>)
    requires DistinctKeys(uses)
    ensures forall i: nat, j: nat :: Paired(uses, i, j) ==>
              uses[i].k in offsetHalf && offsetHalf[uses[i].k] == uses[j].k
    ensures forall p :: p in offsetHalf ==>
              exists i: nat, j: nat :: Paired(uses, i, j) && uses[i].k == p && uses[j].k == offsetHalf[p]
    ensures forall p, q :: p in offsetHalf && q in offsetHalf && offsetHalf[p] == offsetHalf[q] ==> p == q
    ensures forall c: nat :: c in unpaired <==>
              c in unpaired0 || exists i: nat :: IsHalf(uses, i, c) && !Matched(uses, i)
  {
    offsetHalf, unpaired := map[], unpaired0;
    var open: map<nat, nat> := map[];
    assert Inv(uses, 0, unpaired0, State(offsetHalf, open, unpaired));
    for n := 0 to |uses|
      invariant Inv(uses, n, unpaired0, State(offsetHalf, open, unpaired))
    {
      NextInv(uses, n, unpaired0, State(offsetHalf, open, unpaired));
      offsetHalf, open, unpaired := PairNext(uses, n, offsetHalf, open, unpaired);
    }
    Outcome(uses, unpaired0, State(offsetHalf, open, unpaired));
  }

  /** One turn of its loop. */
  method PairNext(uses: seq<Use>, n: nat, offsetHalf0: map<nat, nat>, open0: map<nat, nat>, unpaired0: set<nat>)
    returns (offsetHalf: map<nat, nat>, open: map<nat, nat>, unpaired: set<nat>)
    requires n < |uses|
    ensures State(offsetHalf, open, unpaired) == Next(State(offsetHalf0, open0, unpaired0), uses, n)
  {
    offsetHalf, open, unpaired := offsetHalf0, open0, unpaired0;
    var u := uses[n];
    match u.half {
      case Page =>
        if u.cls in open {
          unpaired := unpaired + {u.cls};
        }
        open := open[u.cls := u.k];
      case Offset =>
        if u.cls in open {
          offsetHalf := offsetHalf[open[u.cls] := u.k];
          open := open - {u.cls};
        } else {
          unpaired := unpaired + {u.cls};
        }
      case Neither =>
    }
    if n + 1 >= |uses| || uses[n + 1].isec != u.isec {
      unpaired := unpaired + open.Keys;
      open := map[];
    }
  }

  /** What the state says after the last use. */
  lemma Outcome(uses: seq<Use>, unpaired0: set<nat>, s: State)
    requires Inv(uses, |uses|, unpaired0, s) && DistinctKeys(uses)
    ensures forall i: nat, j: nat :: Paired(uses, i, j) ==>
              uses[i].k in s.offsetHalf && s.offsetHalf[uses[i].k] == uses[j].k
    ensures forall p :: p in s.offsetHalf ==>
              exists i: nat, j: nat :: Paired(uses, i, j) && uses[i].k == p && uses[j].k == s.offsetHalf[p]
    ensures forall p, q :: p in s.offsetHalf && q in s.offsetHalf && s.offsetHalf[p] == s.offsetHalf[q] ==> p == q
    ensures forall c: nat :: c in s.unpaired <==>
              c in unpaired0 || exists i: nat :: IsHalf(uses, i, c) && !Matched(uses, i)
  {
    Injective(uses, s.offsetHalf);
    LeftIsUnmatched(uses, unpaired0, s.unpaired);
  }

  lemma Injective(uses: seq<Use>, offsetHalf: map<nat, nat>)
    requires MapOk(uses, |uses|, offsetHalf) && DistinctKeys(uses)
    ensures forall p, q :: p in offsetHalf && q in offsetHalf && offsetHalf[p] == offsetHalf[q] ==> p == q
  {
    forall p, q | p in offsetHalf && q in offsetHalf && offsetHalf[p] == offsetHalf[q] ensures p == q {
      var i: nat, j: nat :| Paired(uses, i, j) && uses[i].k == p && uses[j].k == offsetHalf[p];
      var i': nat, j': nat :| Paired(uses, i', j') && uses[i'].k == q && uses[j'].k == offsetHalf[q];
      PairsAreOne(uses, i, j, i', j');
    }
  }

  lemma LeftIsUnmatched(uses: seq<Use>, unpaired0: set<nat>, unpaired: set<nat>)
    requires UnpairedOk(uses, |uses|, unpaired0, unpaired)
    ensures forall c: nat :: c in unpaired <==>
              c in unpaired0 || exists i: nat :: IsHalf(uses, i, c) && !Matched(uses, i)
  {
    forall c: nat
      ensures c in unpaired <==> c in unpaired0 || exists i: nat :: IsHalf(uses, i, c) && !Matched(uses, i)
    {
      if i: nat :| IsHalf(uses, i, c) && !Matched(uses, i) {
        assert LeftOver(uses, i, |uses|) && uses[i].cls == c;
      }
      if c in unpaired && c !in unpaired0 {
        var i: nat :| LeftOver(uses, i, |uses|) && uses[i].cls == c;
        assert IsHalf(uses, i, c) && !Matched(uses, i);
      }
    }
  }
}
