/** Equivalence classes of a sequence under equality: how many there are, and the
    lowest index of each, which are what icf.rs counts and elects. */
module Classes {
  function NumClasses<T(==)>(s: seq<T>): nat { |Distinct(s)| }

  function Distinct<T(==)>(s: seq<T>): set<T> { set i | 0 <= i < |s| :: s[i] }

  /** The lowest index of an element. */
  function Leader<T(==)>(s: seq<T>, x: T): (i: nat)
    requires x in s
    ensures i < |s| && s[i] == x && forall j :: 0 <= j < i ==> s[j] != x
  {
    if s[0] == x then 0 else 1 + Leader(s[1..], x)
  }

  lemma DistinctPush<T>(s: seq<T>, x: T)
    ensures Distinct(s + [x]) == Distinct(s) + {x}
    ensures NumClasses(s + [x]) == NumClasses(s) + if x in Distinct(s) then 0 else 1
  {
    assert (s + [x])[|s|] == x;
    forall y | y in Distinct(s) ensures y in Distinct(s + [x]) {
      var i :| 0 <= i < |s| && s[i] == y;
      assert (s + [x])[i] == y;
    }
    assert Distinct(s + [x]) == Distinct(s) + {x};
    assert x in Distinct(s) ==> Distinct(s) + {x} == Distinct(s);
  }

  /** A set of indices that names every element exactly once has NumClasses members. */
  lemma OnePerClass<T>(s: seq<T>, a: set<nat>, b: set<T>)
    requires forall t :: t in a ==> t < |s| && s[t] in b
    requires forall t, u :: t in a && u in a && s[t] == s[u] ==> t == u
    requires forall x :: x in b ==> exists t :: t in a && s[t] == x
    ensures |a| == |b|
    decreases a
  {
    if a == {} {
      assert b == {};
    } else {
      var t :| t in a;
      OnePerClass(s, a - {t}, b - {s[t]});
    }
  }

  /** Elements equal in `fine` are equal in `coarse`. */
  ghost predicate Refines<S, T>(fine: seq<S>, coarse: seq<T>) {
    |fine| == |coarse|
    && forall i, j :: 0 <= i < |fine| && 0 <= j < |fine| && fine[i] == fine[j] ==> coarse[i] == coarse[j]
  }

  lemma RefinesThrough<R, S, T>(fine: seq<R>, mid: seq<S>, coarse: seq<T>)
    requires Refines(fine, mid) && Refines(mid, coarse)
    ensures Refines(fine, coarse)
  {
  }

  lemma {:induction false} RefinementCounts<S, T>(fine: seq<S>, coarse: seq<T>)
    requires Refines(fine, coarse)
    ensures NumClasses(coarse) <= NumClasses(fine)
    ensures NumClasses(coarse) == NumClasses(fine) ==> Refines(coarse, fine)
  {
    if |fine| > 0 {
      var n := |fine| - 1;
      var f, c := fine[..n], coarse[..n];
      assert fine == f + [fine[n]] && coarse == c + [coarse[n]];
      assert Refines(f, c);
      RefinementCounts(f, c);
      DistinctPush(f, fine[n]);
      DistinctPush(c, coarse[n]);
      if fine[n] in Distinct(f) {
        var m :| 0 <= m < n && f[m] == fine[n];
        assert fine[m] == fine[n];
        assert c[m] == coarse[n] && coarse[n] in Distinct(c);
      }
      assert NumClasses(coarse) <= NumClasses(fine);
      if Refines(c, f) && NumClasses(coarse) == NumClasses(fine) {
        BothGrowOrNeither(f, c, fine[n], coarse[n]);
      }
    }
  }

  lemma BothGrowOrNeither<S, T>(f: seq<S>, c: seq<T>, x: S, y: T)
    requires Refines(c, f) && Refines(f + [x], c + [y]) && (x in Distinct(f) <==> y in Distinct(c))
    ensures Refines(c + [y], f + [x])
  {
    var n, fine, coarse := |f|, f + [x], c + [y];
    if x in Distinct(f) {
      var m :| 0 <= m < n && f[m] == x;
      assert fine[m] == fine[n];
      forall i, j | 0 <= i <= n && 0 <= j <= n && coarse[i] == coarse[j] ensures fine[i] == fine[j] {
        var i', j' := if i == n then m else i, if j == n then m else j;
        assert c[i'] == c[j'];
      }
    } else {
      assert forall i :: 0 <= i < n ==> c[i] in Distinct(c) && c[i] == coarse[i];
      forall i, j | 0 <= i <= n && 0 <= j <= n && coarse[i] == coarse[j] ensures fine[i] == fine[j] {
        if i < n && j < n {
          assert c[i] == c[j];
        }
      }
    }
  }

  lemma NumClassesBound<T>(s: seq<T>)
    ensures NumClasses(s) <= |s|
    ensures |s| > 0 ==> NumClasses(s) > 0
  {
    if |s| > 0 {
      var n := |s| - 1;
      NumClassesBound(s[..n]);
      assert s == s[..n] + [s[n]];
      DistinctPush(s[..n], s[n]);
    }
  }
}
