/** The unwind tables (input_files.rs): records gathered into one run per subsection,
    the ranges that name the runs, and their compaction after dead stripping. */
module Unwind {
  import opened Options
  import opened StableSort

  /** `body` stands for a record's other fields. */
  datatype Record = Record(isec: nat, personality: Option<nat>, lsda: Option<nat>, fde: Option<nat>, body: nat)

  datatype Fde = Fde(obj: nat, isec: nat, cie: nat, lsda: Option<nat>, body: nat)

  /** A subsection's unwind_offset and nunwind. */
  datatype Span = Span(off: nat, n: nat)

  ghost predicate InRange(recs: seq<Record>, n: nat) { forall k :: 0 <= k < |recs| ==> recs[k].isec < n }

  function IsecOf(r: Record): nat { r.isec }

  /** The records of subsection x, in order. */
  function Of(recs: seq<Record>, x: nat): seq<Record> { Filter(recs, IsecOf, x) }

  /** Each subsection's records are next to each other. */
  ghost predicate Grouped(recs: seq<Record>) {
    forall i, j, k :: 0 <= i < j < k < |recs| && recs[i].isec == recs[k].isec ==> recs[j].isec == recs[i].isec
  }

  /** The span's records are exactly those of x. */
  ghost predicate Spans(recs: seq<Record>, base: nat, x: nat, s: Span) {
    if exists k: nat :: k < |recs| && recs[k].isec == x then
      && base <= s.off && s.off - base + s.n <= |recs|
      && forall k: nat :: k < |recs| ==> (recs[k].isec == x <==> s.off - base <= k < s.off - base + s.n)
    else s.n == 0
  }

  /** What a span names. */
  lemma SpanIsOf(recs: seq<Record>, base: nat, x: nat, s: Span)
    requires Spans(recs, base, x, s)
    ensures s.n == |Of(recs, x)|
    ensures s.n > 0 ==>
              base <= s.off && s.off - base + s.n <= |recs| && recs[s.off - base..s.off - base + s.n] == Of(recs, x)
  {
    if k: nat :| k < |recs| && recs[k].isec == x {
      var lo, hi := s.off - base, s.off - base + s.n;
      assert recs == recs[..lo] + recs[lo..hi] + recs[hi..];
      FilterMiddle(recs[..lo], recs[lo..hi], recs[hi..], IsecOf, x);
    } else {
      FilterNone(recs, IsecOf, x);
    }
  }

  // ---- Ranges ----

  /** The walk over runs that gives each subsection its range; of the records from
      `start` on. */
  ghost function WithSpans(spans: seq<Span>, recs: seq<Record>, base: nat, start: nat): (r: seq<Span>)
    requires InRange(recs, |spans|) && start <= |recs|
    ensures |r| == |spans|
    decreases |recs| - start
  {
    if start == |recs| then spans
    else
      var end := RunEnd(recs, start);
      WithSpans(spans[recs[start].isec := Span(base + start, end - start)], recs, base, end)
  }

  ghost function RunEnd(recs: seq<Record>, start: nat): (end: nat)
    requires start < |recs|
    ensures start < end <= |recs| && (forall k :: start <= k < end ==> recs[k].isec == recs[start].isec)
    ensures end < |recs| ==> recs[end].isec != recs[start].isec
    decreases |recs| - start
  {
    if start + 1 == |recs| || recs[start + 1].isec != recs[start].isec then start + 1 else RunEnd(recs, start + 1)
  }

  lemma {:induction false} RunEndIs(recs: seq<Record>, start: nat, end: nat)
    requires start < end <= |recs| && (forall k :: start <= k < end ==> recs[k].isec == recs[start].isec)
    requires end < |recs| ==> recs[end].isec != recs[start].isec
    ensures RunEnd(recs, start) == end
    decreases end - start
  {
    if start + 1 < end {
      RunEndIs(recs, start + 1, end);
    }
  }

  method SetRanges(recs: seq<Record>, spans: array<Span>, base: nat)
    requires InRange(recs, spans.Length)
    modifies spans
    ensures spans[..] == WithSpans(old(spans[..]), recs, base, 0)
  {
    var i := 0;
    while i < |recs|
      invariant i <= |recs|
      invariant WithSpans(spans[..], recs, base, i) == WithSpans(old(spans[..]), recs, base, 0)
    {
      var isec, start := recs[i].isec, i;
      while i < |recs| && recs[i].isec == isec
        invariant start <= i <= |recs| && (i == start ==> start < |recs|)
        invariant forall k :: start <= k < i ==> recs[k].isec == isec
      {
        i := i + 1;
      }
      RunEndIs(recs, start, i);
      ghost var before := spans[..];
      spans[isec] := Span(base + start, i - start);
      assert spans[..] == before[isec := Span(base + start, i - start)];
    }
  }

  /** x's span after the walk from `start`: its records from there on, or as before. */
  ghost predicate SpanFrom(spans: seq<Span>, recs: seq<Record>, base: nat, start: nat, x: nat, s: Span)
    requires x < |spans|
  {
    if exists k: nat :: start <= k < |recs| && recs[k].isec == x then
      && base + start <= s.off && s.off - base + s.n <= |recs|
      && forall k: nat :: start <= k < |recs| ==> (recs[k].isec == x <==> s.off - base <= k < s.off - base + s.n)
    else s == spans[x]
  }

  lemma {:induction false} WithSpansFrom(spans: seq<Span>, recs: seq<Record>, base: nat, start: nat, x: nat)
    requires InRange(recs, |spans|) && Grouped(recs) && start <= |recs| && x < |spans|
    ensures SpanFrom(spans, recs, base, start, x, WithSpans(spans, recs, base, start)[x])
    decreases |recs| - start
  {
    if start < |recs| {
      var end := RunEnd(recs, start);
      var spans' := spans[recs[start].isec := Span(base + start, end - start)];
      WithSpansFrom(spans', recs, base, end, x);
      assert recs[start].isec == x ==> forall k: nat :: end <= k < |recs| ==> recs[k].isec != x;
      if k: nat :| start <= k < |recs| && recs[k].isec == x {
        assert recs[start].isec != x ==> end <= k;
      }
    }
  }

  /** After the walk every span is exact, if the records were grouped and the spans of
      subsections without any were empty. */
  lemma SpansAreExact(spans: seq<Span>, recs: seq<Record>, base: nat, x: nat)
    requires InRange(recs, |spans|) && Grouped(recs) && x < |spans|
    requires (forall k: nat :: k < |recs| ==> recs[k].isec != x) ==> spans[x].n == 0
    ensures Spans(recs, base, x, WithSpans(spans, recs, base, 0)[x])
  {
    WithSpansFrom(spans, recs, base, 0, x);
  }

  // ---- Grouping ----

  /** Where x's first record is; |recs| if it has none. */
  function First(recs: seq<Record>, x: nat): (i: nat)
    ensures i <= |recs| && (i < |recs| ==> recs[i].isec == x)
    ensures forall j :: 0 <= j < i ==> recs[j].isec != x
  {
    if recs == [] then 0
    else
      var i := First(recs[..|recs| - 1], x);
      if i < |recs| - 1 || recs[i].isec == x then i else |recs|
  }

  lemma FirstAndOf(recs: seq<Record>, x: nat)
    ensures First(recs, x) < |recs| <==> Of(recs, x) != []
  {
    FilterNone(recs, IsecOf, x);
    var i := First(recs, x);
    assert i < |recs| ==> IsecOf(recs[i]) == x;
    assert i == |recs| ==> forall k :: 0 <= k < |recs| ==> IsecOf(recs[k]) != x;
  }

  const NO_RANK: nat := 0xFFFF_FFFF

  /** rank numbers the subsections among the first i records in the order of their
      first ones. */
  ghost predicate Ranks(recs: seq<Record>, i: nat, rank: seq<nat>, runs: nat) {
    && (forall x: nat :: x < |rank| ==> if First(recs, x) < i then rank[x] < runs else rank[x] == NO_RANK)
    && (forall x: nat, y: nat :: x < |rank| && y < |rank| && First(recs, x) < First(recs, y) < i ==> rank[x] < rank[y])
  }

  ghost predicate InOrderOf(recs: seq<Record>, s: seq<Record>) {
    forall x: nat, y: nat :: First(recs, x) < First(recs, y) < |recs| ==> First(s, x) < First(s, y) < |s|
  }

  function RankOf(rank: seq<nat>): Record -> nat { (r: Record) => if r.isec < |rank| then rank[r.isec] else 0 }

  /** The stable sort by rank. */
  function ByRank(recs: seq<Record>, rank: seq<nat>): seq<Record> { SortBy(recs, RankOf(rank)) }

  lemma ByRankKeeps(recs: seq<Record>, rank: seq<nat>, x: nat)
    ensures Sorted(ByRank(recs, rank), RankOf(rank)) && Of(ByRank(recs, rank), x) == Of(recs, x)
    ensures First(ByRank(recs, rank), x) < |ByRank(recs, rank)| <==> First(recs, x) < |recs|
  {
    SortIsStable(recs, RankOf(rank), IsecOf, x);
    FirstAndOf(ByRank(recs, rank), x);
    FirstAndOf(recs, x);
  }

  lemma RanksDiffer(recs: seq<Record>, rank: seq<nat>, runs: nat, x: nat, y: nat)
    requires InRange(recs, |rank|) && Ranks(recs, |recs|, rank, runs)
    requires x < |rank| && y < |rank| && First(recs, x) < |recs| && First(recs, y) < |recs| && rank[x] == rank[y]
    ensures x == y
  {
    if First(recs, x) == First(recs, y) {
      assert recs[First(recs, x)].isec == x;
    }
  }

  lemma SortedBetween(s: seq<Record>, key: Record -> nat, i: nat, j: nat, k: nat)
    requires Sorted(s, key) && i < j < k < |s| && key(s[i]) == key(s[k])
    ensures key(s[j]) == key(s[i])
  {
  }

  lemma SortedIsGrouped(recs: seq<Record>, rank: seq<nat>, runs: nat)
    requires InRange(recs, |rank|) && Ranks(recs, |recs|, rank, runs)
    ensures Grouped(ByRank(recs, rank))
  {
    var s := ByRank(recs, rank);
    forall i, j, k | 0 <= i < j < k < |s| && s[i].isec == s[k].isec ensures s[j].isec == s[i].isec {
      ByRankKeeps(recs, rank, s[i].isec);
      ByRankKeeps(recs, rank, s[j].isec);
      assert First(s, s[i].isec) <= i && First(s, s[j].isec) <= j;
      SortedBetween(s, RankOf(rank), i, j, k);
      assert recs[First(recs, s[i].isec)].isec == s[i].isec && recs[First(recs, s[j].isec)].isec == s[j].isec;
      RanksDiffer(recs, rank, runs, s[i].isec, s[j].isec);
    }
  }

  lemma SortedEarlier(s: seq<Record>, key: Record -> nat, i: nat, j: nat)
    requires Sorted(s, key) && i < |s| && j < |s| && key(s[i]) < key(s[j])
    ensures i < j
  {
  }

  lemma SortedInOrder(recs: seq<Record>, rank: seq<nat>, runs: nat, x: nat, y: nat)
    requires InRange(recs, |rank|) && Ranks(recs, |recs|, rank, runs)
    requires First(recs, x) < First(recs, y) < |recs|
    ensures First(ByRank(recs, rank), x) < First(ByRank(recs, rank), y) < |ByRank(recs, rank)|
  {
    var s := ByRank(recs, rank);
    ByRankKeeps(recs, rank, x);
    ByRankKeeps(recs, rank, y);
    assert recs[First(recs, x)].isec == x && recs[First(recs, y)].isec == y;
    assert rank[x] < rank[y];
    SortedEarlier(s, RankOf(rank), First(s, x), First(s, y));
  }

  lemma SortedAll(recs: seq<Record>, rank: seq<nat>, runs: nat)
    requires InRange(recs, |rank|) && Ranks(recs, |recs|, rank, runs)
    ensures var s := ByRank(recs, rank); Grouped(s) && InOrderOf(recs, s) && forall x: nat :: Of(s, x) == Of(recs, x)
  {
    SortedIsGrouped(recs, rank, runs);
    forall x: nat ensures Of(ByRank(recs, rank), x) == Of(recs, x) {
      ByRankKeeps(recs, rank, x);
    }
    var s := ByRank(recs, rank);
    forall x: nat, y: nat | First(recs, x) < First(recs, y) < |recs| ensures First(s, x) < First(s, y) < |s| {
      SortedInOrder(recs, rank, runs, x, y);
    }
  }

  lemma KeptInRange(recs: seq<Record>, s: seq<Record>, n: nat)
    requires InRange(recs, n) && forall x: nat :: Of(s, x) == Of(recs, x)
    ensures InRange(s, n)
  {
    forall k | 0 <= k < |s| ensures s[k].isec < n {
      FirstAndOf(s, s[k].isec);
      FirstAndOf(recs, s[k].isec);
      assert First(s, s[k].isec) <= k;
    }
  }

  lemma OldRun(recs: seq<Record>, i: nat, rank: seq<nat>, runs: nat)
    requires Ranks(recs, i, rank, runs) && i < |recs| && First(recs, recs[i].isec) < i
    ensures Ranks(recs, i + 1, rank, runs)
  {
    forall x: nat | First(recs, x) == i ensures false {
    }
  }

  lemma NewRun(recs: seq<Record>, i: nat, rank: seq<nat>, runs: nat)
    requires Ranks(recs, i, rank, runs) && i < |recs| && recs[i].isec < |rank| && First(recs, recs[i].isec) == i
    ensures Ranks(recs, i + 1, rank[recs[i].isec := runs], runs + 1)
  {
    forall x: nat | First(recs, x) == i ensures x == recs[i].isec {
    }
  }

  /** group_unwind_records: afterwards each subsection's records are one run, in their
      old order, the runs in the order of their first records; and records already
      in runs stay as they were. */
  method GroupUnwindRecords(recs: seq<Record>, numIsecs: nat) returns (r: seq<Record>)
    requires InRange(recs, numIsecs) && |recs| < NO_RANK
    ensures Grouped(r) && InOrderOf(recs, r) && InRange(r, numIsecs)
    ensures forall x: nat :: Of(r, x) == Of(recs, x)
    ensures Grouped(recs) ==> r == recs
  {
    if recs == [] {
      return recs;
    }
    var rank: seq<nat> := seq(numIsecs, _ => NO_RANK);
    var runs := 0;
    var grouped := true;
    for i := 0 to |recs|
      invariant |rank| == numIsecs && Ranks(recs, i, rank, runs) && runs <= i
      invariant grouped <==> Grouped(recs[..i])
    {
      var x := recs[i].isec;
      GroupedMore(recs, i);
      if i > 0 && recs[i - 1].isec == x {
        OldRun(recs, i, rank, runs);
      } else if rank[x] == NO_RANK {
        NewRun(recs, i, rank, runs);
        rank := rank[x := runs];
        runs := runs + 1;
      } else {
        OldRun(recs, i, rank, runs);
        grouped := false;
      }
    }
    assert recs[..|recs|] == recs;
    if grouped {
      r := recs;
    } else {
      r := ByRank(recs, rank);
      SortedAll(recs, rank, runs);
      KeptInRange(recs, r, numIsecs);
    }
  }

  /** x's records, if any, end the table. */
  ghost predicate Trailing(recs: seq<Record>, x: nat) {
    forall i, j :: 0 <= i < j < |recs| && recs[i].isec == x ==> recs[j].isec == x
  }

  lemma GroupedPush(a: seq<Record>, r: Record)
    ensures Grouped(a + [r]) <==> Grouped(a) && Trailing(a, r.isec)
  {
    var b, n := a + [r], |a|;
    if Grouped(b) {
      forall i, j, k | 0 <= i < j < k < n && a[i].isec == a[k].isec ensures a[j].isec == a[i].isec {
        assert b[i] == a[i] && b[j] == a[j] && b[k] == a[k];
      }
      forall i, j | 0 <= i < j < n && a[i].isec == r.isec ensures a[j].isec == r.isec {
        assert b[i].isec == b[n].isec && b[j].isec == b[i].isec;
      }
    }
    if Grouped(a) && Trailing(a, r.isec) {
      forall i, j, k | 0 <= i < j < k <= n && b[i].isec == b[k].isec ensures b[j].isec == b[i].isec {
        assert b[i] == a[i] && b[j] == a[j];
      }
    }
  }

  /** One more record keeps the runs exactly if it continues the last one or starts a
      new one. */
  lemma GroupedMore(recs: seq<Record>, i: nat)
    requires i < |recs|
    ensures Grouped(recs[..i + 1]) <==>
      Grouped(recs[..i]) && ((i > 0 && recs[i - 1].isec == recs[i].isec) || First(recs, recs[i].isec) == i)
  {
    var a, x := recs[..i], recs[i].isec;
    GroupedPush(a, recs[i]);
    assert recs[..i + 1] == a + [recs[i]];
    if Grouped(a) {
      TrailingIs(a, x);
      assert First(recs, x) < i ==> a[First(recs, x)].isec == x;
      assert First(recs, x) == i ==> forall k :: 0 <= k < i ==> a[k].isec == recs[k].isec;
    }
  }

  lemma TrailingIs(a: seq<Record>, x: nat)
    requires Grouped(a)
    ensures Trailing(a, x) <==> (|a| > 0 && a[|a| - 1].isec == x) || forall k :: 0 <= k < |a| ==> a[k].isec != x
  {
    var n := |a| - 1;
    if n >= 0 && a[n].isec == x {
      forall p, q | 0 <= p < q < |a| && a[p].isec == x ensures a[q].isec == x {
        assert q < n ==> a[p].isec == a[n].isec;
      }
    } else if k :| 0 <= k < |a| && a[k].isec == x {
      assert k < n;
    }
  }
}
