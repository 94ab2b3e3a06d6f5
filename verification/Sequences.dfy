/** Sequences joined, and stripped of repeats. */
module Sequences {
  /** The parts, one after another. */
  function Flat<T>(parts: seq<seq<T>>): seq<T> {
    if parts == [] then [] else Flat(parts[..|parts| - 1]) + parts[|parts| - 1]
  }

  function Sum(lens: seq<nat>): nat { if lens == [] then 0 else Sum(lens[..|lens| - 1]) + lens[|lens| - 1] }

  function Lens<T>(parts: seq<seq<T>>): (r: seq<nat>)
    ensures |r| == |parts| && forall p :: 0 <= p < |parts| ==> r[p] == |parts[p]|
  {
    seq(|parts|, p requires 0 <= p < |parts| => |parts[p]|)
  }

  lemma {:induction false} FlatLength<T>(parts: seq<seq<T>>)
    ensures |Flat(parts)| == Sum(Lens(parts))
  {
    if parts != [] {
      FlatLength(parts[..|parts| - 1]);
      assert Lens(parts)[..|parts| - 1] == Lens(parts[..|parts| - 1]);
    }
  }

  lemma SliceNext<T>(s: seq<T>, n: nat)
    requires n < |s|
    ensures s[..n + 1] == s[..n] + [s[n]]
  {
  }

  lemma FlatPush<T>(parts: seq<seq<T>>, part: seq<T>)
    ensures Flat(parts + [part]) == Flat(parts) + part
  {
    assert (parts + [part])[..|parts|] == parts;
  }

  /** Item k of part p is at its part's start plus k. */
  lemma {:induction false} FlatAt<T>(parts: seq<seq<T>>, p: nat, k: nat)
    requires p < |parts| && k < |parts[p]|
    ensures var j := Sum(Lens(parts)[..p]) + k; j < |Flat(parts)| && Flat(parts)[j] == parts[p][k]
  {
    var n := |parts| - 1;
    FlatLength(parts[..n]);
    assert Lens(parts)[..n] == Lens(parts[..n]);
    if p < n {
      FlatAt(parts[..n], p, k);
      assert Lens(parts[..n])[..p] == Lens(parts)[..p];
    }
  }

  /** And every place is some item's. */
  lemma {:induction false} FlatFrom<T>(parts: seq<seq<T>>, j: nat) returns (p: nat, k: nat)
    requires j < |Flat(parts)|
    ensures p < |parts| && k < |parts[p]| && j == Sum(Lens(parts)[..p]) + k
  {
    var n := |parts| - 1;
    FlatLength(parts[..n]);
    assert Lens(parts)[..n] == Lens(parts[..n]);
    if j < |Flat(parts[..n])| {
      p, k := FlatFrom(parts[..n], j);
      assert Lens(parts[..n])[..p] == Lens(parts)[..p];
    } else {
      p, k := n, j - |Flat(parts[..n])|;
    }
  }

  lemma {:induction false} SumGrows(lens: seq<nat>, p: nat, q: nat)
    requires p < q <= |lens|
    ensures Sum(lens[..p]) + lens[p] <= Sum(lens[..q])
  {
    assert lens[..q][..q - 1] == lens[..q - 1];
    if p < q - 1 {
      SumGrows(lens, p, q - 1);
    }
  }

  ghost predicate NoRepeats<T>(xs: seq<T>) { forall i, j :: 0 <= i < j < |xs| ==> xs[i] != xs[j] }

  /** The parts have no element in common, and none twice. */
  ghost predicate AllDiffer<T>(parts: seq<seq<T>>) {
    forall p: nat, k: nat, q: nat, m: nat {:trigger parts[p][k], parts[q][m]} ::
      p < |parts| && k < |parts[p]| && q < |parts| && m < |parts[q]| && parts[p][k] == parts[q][m] ==> p == q && k == m
  }

  lemma FlatDiffers<T>(parts: seq<seq<T>>)
    requires AllDiffer(parts)
    ensures NoRepeats(Flat(parts))
  {
    forall i: nat, j: nat | i < j < |Flat(parts)| ensures Flat(parts)[i] != Flat(parts)[j] {
      var p, k := FlatFrom(parts, i);
      var q, m := FlatFrom(parts, j);
      FlatAt(parts, p, k);
      FlatAt(parts, q, m);
    }
  }

  lemma FlatHas<T>(parts: seq<seq<T>>, x: T)
    ensures x in Flat(parts) <==> exists p :: 0 <= p < |parts| && x in parts[p]
  {
    if x in Flat(parts) {
      var j: nat :| j < |Flat(parts)| && Flat(parts)[j] == x;
      var p, k := FlatFrom(parts, j);
      FlatAt(parts, p, k);
      assert parts[p][k] in parts[p];
    }
    if p: nat :| p < |parts| && x in parts[p] {
      var k: nat :| k < |parts[p]| && parts[p][k] == x;
      FlatAt(parts, p, k);
    }
  }

  /** The first occurrence of each element. */
  function Firsts<T(==)>(xs: seq<T>): seq<T> {
    if xs == [] then []
    else
      var prev, x := Firsts(xs[..|xs| - 1]), xs[|xs| - 1];
      if x in prev then prev else prev + [x]
  }

  lemma {:induction false} FirstsHas<T>(xs: seq<T>, x: T)
    ensures x in Firsts(xs) <==> x in xs
  {
    if xs != [] {
      FirstsHas(xs[..|xs| - 1], x);
      assert xs == xs[..|xs| - 1] + [xs[|xs| - 1]];
    }
  }

  lemma {:induction false} FirstsDiffer<T>(xs: seq<T>, i: nat, j: nat)
    requires i < j < |Firsts(xs)|
    ensures Firsts(xs)[i] != Firsts(xs)[j]
  {
    var prev := Firsts(xs[..|xs| - 1]);
    if j < |prev| {
      FirstsDiffer(xs[..|xs| - 1], i, j);
    }
  }

  lemma FirstsPush<T>(xs: seq<T>, x: T)
    ensures Firsts(xs + [x]) == if x in Firsts(xs) then Firsts(xs) else Firsts(xs) + [x]
  {
    assert (xs + [x])[..|xs|] == xs;
  }

  function SetOf<T(==)>(xs: seq<T>): set<T> { set x | x in xs }
}
