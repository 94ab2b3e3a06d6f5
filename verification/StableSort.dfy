/** The stable sort the linker's sort_by_key calls rely on, and the part of a sequence
    that has one mark. */
module StableSort {
  /** The elements marked x, in order. */
  function Filter<T>(xs: seq<T>, mark: T -> nat, x: nat): seq<T> {
    if xs == [] then []
    else Filter(xs[..|xs| - 1], mark, x) + if mark(xs[|xs| - 1]) == x then [xs[|xs| - 1]] else []
  }

  lemma FilterPush<T>(xs: seq<T>, t: T, mark: T -> nat, x: nat)
    ensures Filter(xs + [t], mark, x) == Filter(xs, mark, x) + if mark(t) == x then [t] else []
  {
    assert (xs + [t])[..|xs|] == xs;
  }

  lemma {:induction false} FilterAppend<T>(a: seq<T>, b: seq<T>, mark: T -> nat, x: nat)
    ensures Filter(a + b, mark, x) == Filter(a, mark, x) + Filter(b, mark, x)
    decreases |b|
  {
    if b == [] {
      assert a + b == a;
    } else {
      FilterAppend(a, b[..|b| - 1], mark, x);
      assert (a + b)[..|a + b| - 1] == a + b[..|b| - 1];
    }
  }

  lemma {:induction false} FilterAll<T>(xs: seq<T>, mark: T -> nat, x: nat)
    requires forall k :: 0 <= k < |xs| ==> mark(xs[k]) == x
    ensures Filter(xs, mark, x) == xs
  {
    if xs != [] {
      FilterAll(xs[..|xs| - 1], mark, x);
      assert xs == xs[..|xs| - 1] + [xs[|xs| - 1]];
    }
  }

  lemma {:induction false} FilterNone<T>(xs: seq<T>, mark: T -> nat, x: nat)
    ensures Filter(xs, mark, x) == [] <==> forall k :: 0 <= k < |xs| ==> mark(xs[k]) != x
  {
    if xs != [] {
      var n := |xs| - 1;
      FilterNone(xs[..n], mark, x);
      assert xs == xs[..n] + [xs[n]];
      if Filter(xs, mark, x) == [] {
        assert forall k :: 0 <= k < n ==> xs[..n][k] == xs[k];
      } else {
        assert mark(xs[n]) != x ==> exists k :: 0 <= k < n && mark(xs[..n][k]) == x;
      }
    }
  }

  // ---- Sorting ----

  ghost predicate Sorted<T>(xs: seq<T>, key: T -> nat) {
    forall i, j :: 0 <= i < j < |xs| ==> key(xs[i]) <= key(xs[j])
  }

  function Insert<T>(xs: seq<T>, t: T, key: T -> nat): seq<T> {
    if xs == [] || key(xs[|xs| - 1]) <= key(t) then xs + [t]
    else Insert(xs[..|xs| - 1], t, key) + [xs[|xs| - 1]]
  }

  function SortBy<T>(xs: seq<T>, key: T -> nat): seq<T> {
    if xs == [] then [] else Insert(SortBy(xs[..|xs| - 1], key), xs[|xs| - 1], key)
  }

  lemma {:induction false} InsertSorts<T>(xs: seq<T>, t: T, key: T -> nat)
    requires Sorted(xs, key)
    ensures var s := Insert(xs, t, key);
            && Sorted(s, key) && |s| == |xs| + 1
            && forall k :: 0 <= k < |s| ==> s[k] == t || (exists j :: 0 <= j < |xs| && s[k] == xs[j])
  {
    if xs != [] && key(xs[|xs| - 1]) > key(t) {
      var n := |xs| - 1;
      InsertSorts(xs[..n], t, key);
      var s := Insert(xs[..n], t, key);
      forall k | 0 <= k < |s| ensures key(s[k]) <= key(xs[n]) {
        assert s[k] == t || exists j :: 0 <= j < n && s[k] == xs[j];
      }
    }
  }

  /** Elements with one mark have one key. */
  ghost predicate Marks<T(!new)>(mark: T -> nat, key: T -> nat) {
    forall a: T, b: T :: mark(a) == mark(b) ==> key(a) == key(b)
  }

  lemma {:induction false} InsertIsStable<T(!new)>(xs: seq<T>, t: T, key: T -> nat, mark: T -> nat, x: nat)
    requires Marks(mark, key)
    ensures Filter(Insert(xs, t, key), mark, x) == Filter(xs + [t], mark, x)
  {
    FilterPush(xs, t, mark, x);
    if xs != [] && key(xs[|xs| - 1]) > key(t) {
      var n := |xs| - 1;
      var ins, before := Insert(xs[..n], t, key), Filter(xs[..n], mark, x);
      InsertIsStable(xs[..n], t, key, mark, x);
      FilterPush(xs[..n], t, mark, x);
      FilterPush(ins, xs[n], mark, x);
      assert mark(xs[n]) != mark(t);
      if mark(t) == x {
        assert Filter(xs, mark, x) == before;
      } else {
        assert Filter(ins, mark, x) == before;
      }
    }
  }

  /** Sorting orders the keys and leaves the elements of each mark in their old order. */
  lemma {:induction false} SortIsStable<T(!new)>(xs: seq<T>, key: T -> nat, mark: T -> nat, x: nat)
    requires Marks(mark, key)
    ensures Sorted(SortBy(xs, key), key) && Filter(SortBy(xs, key), mark, x) == Filter(xs, mark, x)
    ensures |SortBy(xs, key)| == |xs|
  {
    if xs != [] {
      var n := |xs| - 1;
      var s := SortBy(xs[..n], key);
      SortIsStable(xs[..n], key, mark, x);
      InsertSorts(s, xs[n], key);
      InsertIsStable(s, xs[n], key, mark, x);
      FilterPush(s, xs[n], mark, x);
      assert Filter(xs, mark, x) == Filter(xs[..n], mark, x) + if mark(xs[n]) == x then [xs[n]] else [];
    }
  }

  lemma {:induction false} SortMembers<T>(xs: seq<T>, key: T -> nat)
    ensures forall k :: 0 <= k < |SortBy(xs, key)| ==> SortBy(xs, key)[k] in xs
    ensures Sorted(SortBy(xs, key), key)
  {
    if xs != [] {
      var n := |xs| - 1;
      SortMembers(xs[..n], key);
      InsertSorts(SortBy(xs[..n], key), xs[n], key);
    }
  }

  lemma {:induction false} InsertAdds<T>(xs: seq<T>, t: T, key: T -> nat)
    ensures multiset(Insert(xs, t, key)) == multiset(xs) + multiset{t}
  {
    if xs != [] && key(xs[|xs| - 1]) > key(t) {
      InsertAdds(xs[..|xs| - 1], t, key);
      assert xs == xs[..|xs| - 1] + [xs[|xs| - 1]];
    }
  }

  lemma {:induction false} SortPermutes<T>(xs: seq<T>, key: T -> nat)
    ensures multiset(SortBy(xs, key)) == multiset(xs)
  {
    if xs != [] {
      var n := |xs| - 1;
      SortPermutes(xs[..n], key);
      InsertAdds(SortBy(xs[..n], key), xs[n], key);
      assert xs == xs[..n] + [xs[n]];
    }
  }

  // ---- Where a sorted sequence keeps one key ----

  /** Where the keys reach x. */
  function Reach<T>(xs: seq<T>, key: T -> nat, x: nat): (r: nat)
    ensures r <= |xs| && (forall k :: 0 <= k < r ==> key(xs[k]) < x) && (r < |xs| ==> key(xs[r]) >= x)
  {
    if xs == [] then 0
    else
      var r := Reach(xs[..|xs| - 1], key, x);
      if r < |xs| - 1 || key(xs[r]) >= x then r else |xs|
  }

  lemma FilterMiddle<T>(a: seq<T>, b: seq<T>, c: seq<T>, mark: T -> nat, x: nat)
    requires forall k :: 0 <= k < |a| ==> mark(a[k]) != x
    requires forall k :: 0 <= k < |b| ==> mark(b[k]) == x
    requires forall k :: 0 <= k < |c| ==> mark(c[k]) != x
    ensures Filter(a + b + c, mark, x) == b
  {
    FilterAppend(a + b, c, mark, x);
    FilterAppend(a, b, mark, x);
    FilterNone(a, mark, x);
    FilterAll(b, mark, x);
    FilterNone(c, mark, x);
  }

  lemma SortedMiddle<T>(xs: seq<T>, key: T -> nat, x: nat)
    requires Sorted(xs, key)
    ensures var lo, hi := Reach(xs, key, x), Reach(xs, key, x + 1);
            && lo <= hi && (forall k :: lo <= k < hi ==> key(xs[k]) == x)
            && forall k :: hi <= k < |xs| ==> key(xs[k]) != x
  {
    var lo, hi := Reach(xs, key, x), Reach(xs, key, x + 1);
    forall k | lo <= k < hi ensures key(xs[k]) == x {
      assert lo < k ==> key(xs[lo]) <= key(xs[k]);
    }
    forall k | hi <= k < |xs| ensures key(xs[k]) != x {
      assert hi < k ==> key(xs[hi]) <= key(xs[k]);
    }
  }

  lemma InThree<T>(xs: seq<T>, lo: nat, hi: nat)
    requires lo <= hi <= |xs|
    ensures xs == xs[..lo] + xs[lo..hi] + xs[hi..]
  {
  }

  /** A sorted sequence holds the elements with key x next to each other, in order. */
  lemma SortedHolds<T>(xs: seq<T>, key: T -> nat, x: nat)
    requires Sorted(xs, key)
    ensures var lo, hi := Reach(xs, key, x), Reach(xs, key, x + 1);
            lo <= hi && xs[lo..hi] == Filter(xs, key, x)
  {
    var lo, hi := Reach(xs, key, x), Reach(xs, key, x + 1);
    SortedMiddle(xs, key, x);
    InThree(xs, lo, hi);
    FilterMiddle(xs[..lo], xs[lo..hi], xs[hi..], key, x);
  }

  lemma ReachZero<T>(xs: seq<T>, key: T -> nat)
    ensures Reach(xs, key, 0) == 0
  {
    if xs != [] {
      ReachZero(xs[..|xs| - 1], key);
    }
  }

  /** Two neighbours with one mark are neighbours among the elements so marked. */
  lemma FilterPair<T>(xs: seq<T>, mark: T -> nat, x: nat, i: nat)
    requires i + 1 < |xs| && mark(xs[i]) == mark(xs[i + 1]) == x
    ensures var f, c := Filter(xs, mark, x), |Filter(xs[..i], mark, x)|;
            c + 1 < |f| && f[c] == xs[i] && f[c + 1] == xs[i + 1]
  {
    var f := Filter(xs[..i], mark, x);
    FilterPush(xs[..i], xs[i], mark, x);
    FilterPush(xs[..i] + [xs[i]], xs[i + 1], mark, x);
    assert xs[..i] + [xs[i]] + [xs[i + 1]] == xs[..i + 2];
    FilterAppend(xs[..i + 2], xs[i + 2..], mark, x);
    assert xs[..i + 2] + xs[i + 2..] == xs;
  }

  /** Two neighbours with one key are neighbours after the sort, in the same order. */
  lemma PairStays<T(!new)>(xs: seq<T>, key: T -> nat, i: nat) returns (p: nat)
    requires i + 1 < |xs| && key(xs[i]) == key(xs[i + 1])
    ensures var s := SortBy(xs, key); p + 1 < |s| && s[p] == xs[i] && s[p + 1] == xs[i + 1]
  {
    FilterPair(xs, key, key(xs[i]), i);
    var lo, hi := SortedHoldsFilter(xs, key, key(xs[i]));
    p := SliceAt(SortBy(xs, key), lo, hi, Filter(xs, key, key(xs[i])), |Filter(xs[..i], key, key(xs[i]))|);
  }

  lemma SortedHoldsFilter<T(!new)>(xs: seq<T>, key: T -> nat, x: nat) returns (lo: nat, hi: nat)
    ensures lo <= hi <= |SortBy(xs, key)| && SortBy(xs, key)[lo..hi] == Filter(xs, key, x)
  {
    var s := SortBy(xs, key);
    SortIsStable(xs, key, key, x);
    SortedHolds(s, key, x);
    lo, hi := Reach(s, key, x), Reach(s, key, x + 1);
  }

  lemma SliceAt<T>(s: seq<T>, lo: nat, hi: nat, f: seq<T>, c: nat) returns (p: nat)
    requires lo <= hi <= |s| && s[lo..hi] == f && c + 1 < |f|
    ensures p + 1 < |s| && s[p] == f[c] && s[p + 1] == f[c + 1]
  {
    p := lo + c;
    assert s[lo..hi][c] == s[p] && s[lo..hi][c + 1] == s[p + 1];
  }
}
