/** Dropping the unwind records and FDEs of dead subsections (input_files.rs,
    remove_dead_unwind_info). */
module UnwindCompact {
  import opened Options
  import opened StableSort
  import opened Unwind

  /** map[f] is where the kept FDEs hold FDE f; none exactly if f's subsection died. */
  ghost predicate MapOk(fdes: seq<Fde>, kept: seq<Fde>, alive: seq<bool>, newFde: seq<Option<nat>>) {
    && |newFde| == |fdes|
    && forall f: nat :: f < |fdes| ==>
         && fdes[f].isec < |alive| && (newFde[f].Some? <==> alive[fdes[f].isec])
         && (newFde[f].Some? ==> newFde[f].value < |kept| && kept[newFde[f].value] == fdes[f])
  }

  /** And they are in their old order, with no others among them. */
  ghost predicate InOrder(newFde: seq<Option<nat>>, n: nat) {
    && (forall f: nat, g: nat :: f < g < |newFde| && newFde[f].Some? && newFde[g].Some? ==>
          newFde[f].value < newFde[g].value)
    && forall k: nat :: k < n ==> Some(k) in newFde
  }

  function Remapped(r: Record, newFde: seq<Option<nat>>): Record
    requires r.fde.Some? ==> r.fde.value < |newFde|
  {
    if r.fde.Some? then r.(fde := newFde[r.fde.value]) else r
  }

  ghost predicate FdesIn(recs: seq<Record>, n: nat) {
    forall k :: 0 <= k < |recs| && recs[k].fde.Some? ==> recs[k].fde.value < n
  }

  function Compacted(recs: seq<Record>, alive: seq<bool>, newFde: seq<Option<nat>>): (r: seq<Record>)
    requires InRange(recs, |alive|) && FdesIn(recs, |newFde|)
    ensures InRange(r, |alive|) && forall k :: 0 <= k < |r| ==> alive[r[k].isec]
  {
    if recs == [] then []
    else
      var n := |recs| - 1;
      Compacted(recs[..n], alive, newFde) + if alive[recs[n].isec] then [Remapped(recs[n], newFde)] else []
  }

  /** The same records, each with its FDE looked up in the map. */
  ghost predicate SameBut(oldRecs: seq<Record>, recs: seq<Record>, newFde: seq<Option<nat>>) {
    && |recs| == |oldRecs| && FdesIn(oldRecs, |newFde|)
    && forall k :: 0 <= k < |recs| ==> recs[k] == Remapped(oldRecs[k], newFde)
  }

  lemma SamePush(a: seq<Record>, b: seq<Record>, newFde: seq<Option<nat>>, r: Record)
    requires SameBut(a, b, newFde) && FdesIn([r], |newFde|)
    ensures FdesIn(a + [r], |newFde|) && ([r][0].fde.Some? ==> r.fde.value < |newFde|)
    ensures SameBut(a + [r], b + [Remapped(r, newFde)], newFde)
  {
    assert [r][0] == r;
  }

  lemma {:induction false} CompactedOf(recs: seq<Record>, alive: seq<bool>, newFde: seq<Option<nat>>, x: nat)
    requires InRange(recs, |alive|) && FdesIn(recs, |newFde|) && x < |alive|
    ensures if alive[x] then SameBut(Of(recs, x), Of(Compacted(recs, alive, newFde), x), newFde)
            else Of(Compacted(recs, alive, newFde), x) == []
  {
    if recs != [] {
      var n := |recs| - 1;
      var front, r := recs[..n], recs[n];
      CompactedOf(front, alive, newFde, x);
      var c, of := Compacted(front, alive, newFde), Of(front, x);
      if alive[r.isec] {
        FilterPush(c, Remapped(r, newFde), IsecOf, x);
        assert Compacted(recs, alive, newFde) == c + [Remapped(r, newFde)];
      } else {
        assert Compacted(recs, alive, newFde) == c;
      }
      if r.isec == x {
        assert Of(recs, x) == of + [r];
        if alive[x] {
          SamePush(of, Of(c, x), newFde, r);
        }
      } else {
        assert Of(recs, x) == of;
      }
    }
  }

  lemma {:induction false} CompactedGrouped(recs: seq<Record>, alive: seq<bool>, newFde: seq<Option<nat>>)
    requires InRange(recs, |alive|) && FdesIn(recs, |newFde|) && Grouped(recs)
    ensures Grouped(Compacted(recs, alive, newFde))
  {
    if recs != [] {
      var n := |recs| - 1;
      GroupedFront(recs);
      CompactedGrouped(recs[..n], alive, newFde);
      if alive[recs[n].isec] {
        LastRun(recs[..n], alive, newFde, recs[n].isec);
        GroupedPush(Compacted(recs[..n], alive, newFde), Remapped(recs[n], newFde));
      }
    }
  }

  lemma GroupedFront(recs: seq<Record>)
    requires recs != [] && Grouped(recs)
    ensures var n := |recs| - 1; Grouped(recs[..n]) && Trailing(recs[..n], recs[n].isec)
  {
    var n := |recs| - 1;
    GroupedPush(recs[..n], recs[n]);
    assert recs == recs[..n] + [recs[n]];
  }

  /** If x's records end the table, they end the compacted one. */
  lemma {:induction false} LastRun(recs: seq<Record>, alive: seq<bool>, newFde: seq<Option<nat>>, x: nat)
    requires InRange(recs, |alive|) && FdesIn(recs, |newFde|) && x < |alive| && alive[x]
    requires Trailing(recs, x)
    ensures Trailing(Compacted(recs, alive, newFde), x)
  {
    if recs != [] {
      var n := |recs| - 1;
      var c := Compacted(recs[..n], alive, newFde);
      LastRun(recs[..n], alive, newFde, x);
      if recs[n].isec != x {
        FilterNone(recs[..n], IsecOf, x);
        CompactedOf(recs[..n], alive, newFde, x);
        FilterNone(c, IsecOf, x);
      }
      var c' := Compacted(recs, alive, newFde);
      assert c' == c + (if alive[recs[n].isec] then [Remapped(recs[n], newFde)] else []);
      forall i, j | 0 <= i < j < |c'| && c'[i].isec == x ensures c'[j].isec == x {
        assert c'[i] == c[i];
        if j < |c| {
          assert c'[j] == c[j];
        }
      }
    }
  }

  /** Of two records, the second is the first, its FDE kept exactly if the FDE's own
      subsection is alive. */
  predicate KeepsFde(fdes: seq<Fde>, kept: seq<Fde>, alive: seq<bool>, r: Record, r': Record)
    requires r.fde.Some? ==> r.fde.value < |fdes| && fdes[r.fde.value].isec < |alive|
  {
    && r' == r.(fde := r'.fde)
    && (r'.fde.Some? <==> r.fde.Some? && alive[fdes[r.fde.value].isec])
    && (r'.fde.Some? ==> r'.fde.value < |kept| && kept[r'.fde.value] == fdes[r.fde.value])
  }

  /** The places of the records that stay: those of live subsections, in order. */
  ghost predicate LivePlaces(recs: seq<Record>, alive: seq<bool>, from: seq<nat>) {
    && (forall i, j :: 0 <= i < j < |from| ==> from[i] < from[j]) && (forall i :: 0 <= i < |from| ==> from[i] < |recs|)
    && forall k: nat :: k in from <==> k < |recs| && recs[k].isec < |alive| && alive[recs[k].isec]
  }

  /** Each record that stays is the one of its old place. */
  ghost predicate Taken(
    fdes: seq<Fde>, kept: seq<Fde>, alive: seq<bool>, recs: seq<Record>, recs': seq<Record>, from: seq<nat>)
    requires FdesIn(recs, |fdes|) && forall f: nat :: f < |fdes| ==> fdes[f].isec < |alive|
  {
    |recs'| == |from| && forall k: nat :: k < |from| ==>
      from[k] < |recs| && KeepsFde(fdes, kept, alive, recs[from[k]], recs'[k])
  }

  /** remove_dead_unwind_info. The FDEs and records of live subsections stay, in order
      and no others; a record still points at the FDE it did, or at none if that FDE's
      subsection died. Afterwards the span of every live subsection names exactly its
      records of before, in order. */
  method RemoveDead(fdes: seq<Fde>, recs: seq<Record>, alive: seq<bool>, spans: array<Span>)
    returns (fdes': seq<Fde>, recs': seq<Record>, ghost newFde: seq<Option<nat>>, ghost from: seq<nat>)
    requires spans.Length == |alive| && InRange(recs, |alive|) && Grouped(recs) && FdesIn(recs, |fdes|)
    requires forall f: nat :: f < |fdes| ==> fdes[f].isec < |alive|
    requires forall x: nat :: x < |alive| ==> Spans(recs, 0, x, spans[x])
    modifies spans
    ensures MapOk(fdes, fdes', alive, newFde) && InOrder(newFde, |fdes'|)
    ensures LivePlaces(recs, alive, from) && Taken(fdes, fdes', alive, recs, recs', from)
    ensures forall x: nat :: x < |alive| && alive[x] ==>
              Spans(recs', 0, x, spans[x]) && FdesIn(Of(recs, x), |fdes|)
              && AllKeepFdes(fdes, fdes', alive, Of(recs, x), Of(recs', x))
  {
    var fdeMap;
    fdes', fdeMap := KeepFdes(fdes, alive);
    newFde := fdeMap;
    recs', from := KeepRecords(fdes, fdes', recs, alive, fdeMap);
    ghost var spans0 := spans[..];
    SetRanges(recs', spans, 0);
    CompactedGrouped(recs, alive, newFde);
    forall x: nat | x < |alive| && alive[x]
      ensures Spans(recs', 0, x, spans[x]) && FdesIn(Of(recs, x), |fdes|)
      ensures AllKeepFdes(fdes, fdes', alive, Of(recs, x), Of(recs', x))
    {
      CompactedOf(recs, alive, newFde, x);
      SpanIsOf(recs, 0, x, spans0[x]);
      StillNone(recs, recs', x, spans0[x]);
      SpansAreExact(spans0, recs', 0, x);
      SameButKeeps(fdes, fdes', alive, newFde, Of(recs, x), Of(recs', x));
    }
  }

  /** Its loop over the FDEs. */
  method KeepFdes(fdes: seq<Fde>, alive: seq<bool>) returns (kept: seq<Fde>, newFde: seq<Option<nat>>)
    requires forall f: nat :: f < |fdes| ==> fdes[f].isec < |alive|
    ensures MapOk(fdes, kept, alive, newFde) && InOrder(newFde, |kept|)
  {
    kept, newFde := [], [];
    for i := 0 to |fdes|
      invariant MapOk(fdes[..i], kept, alive, newFde) && InOrder(newFde, |kept|)
    {
      ghost var before := newFde;
      if alive[fdes[i].isec] {
        newFde := newFde + [Some(|kept|)];
        kept := kept + [fdes[i]];
        assert newFde[i] == Some(|kept| - 1);
      } else {
        newFde := newFde + [None];
      }
      assert forall o :: o in before ==> o in newFde;
    }
    assert fdes[..|fdes|] == fdes;
  }

  /** And the one over the records. */
  method KeepRecords(
    fdes: seq<Fde>, kept: seq<Fde>, recs: seq<Record>, alive: seq<bool>, newFde: seq<Option<nat>>)
    returns (recs': seq<Record>, ghost from: seq<nat>)
    requires MapOk(fdes, kept, alive, newFde) && InRange(recs, |alive|) && FdesIn(recs, |fdes|)
    ensures recs' == Compacted(recs, alive, newFde)
    ensures LivePlaces(recs, alive, from) && Taken(fdes, kept, alive, recs, recs', from)
  {
    recs', from := [], [];
    for i := 0 to |recs|
      invariant recs' == Compacted(recs[..i], alive, newFde)
      invariant LivePlaces(recs[..i], alive, from) && Taken(fdes, kept, alive, recs, recs', from)
    {
      assert recs[..i + 1][..i] == recs[..i];
      if alive[recs[i].isec] {
        recs' := recs' + [Remapped(recs[i], newFde)];
        PlacePush(recs, alive, from, i);
        from := from + [i];
      }
    }
    assert recs[..|recs|] == recs;
  }

  lemma PlacePush(recs: seq<Record>, alive: seq<bool>, from: seq<nat>, i: nat)
    requires i < |recs| && recs[i].isec < |alive| && alive[recs[i].isec] && LivePlaces(recs[..i], alive, from)
    ensures LivePlaces(recs[..i + 1], alive, from + [i])
  {
    assert forall k: nat :: k in from + [i] <==> k in from || k == i;
  }

  lemma StillNone(recs: seq<Record>, recs': seq<Record>, x: nat, s: Span)
    requires Spans(recs, 0, x, s) && |Of(recs', x)| == |Of(recs, x)|
    ensures (forall k: nat :: k < |recs'| ==> recs'[k].isec != x) ==> s.n == 0
  {
    SpanIsOf(recs, 0, x, s);
    if forall k: nat :: k < |recs'| ==> recs'[k].isec != x {
      FilterNone(recs', IsecOf, x);
    }
  }

  /** The records are the same but for their FDEs. */
  ghost predicate AllKeepFdes(fdes: seq<Fde>, kept: seq<Fde>, alive: seq<bool>, rs: seq<Record>, rs': seq<Record>)
    requires FdesIn(rs, |fdes|) && forall f: nat :: f < |fdes| ==> fdes[f].isec < |alive|
  {
    |rs'| == |rs| && forall k: nat :: k < |rs| ==> KeepsFde(fdes, kept, alive, rs[k], rs'[k])
  }

  lemma SameButKeeps(
    fdes: seq<Fde>, kept: seq<Fde>, alive: seq<bool>, newFde: seq<Option<nat>>, rs: seq<Record>, rs': seq<Record>)
    requires MapOk(fdes, kept, alive, newFde) && FdesIn(rs, |fdes|) && SameBut(rs, rs', newFde)
    ensures AllKeepFdes(fdes, kept, alive, rs, rs')
  {
  }
}
