/** What category merging does to message dispatch (objc.rs): whether every message still
    finds the method it did. */
module ObjcDispatch {
  import opened Options
  import opened Sequences
  import opened ObjcMerge
  import opened ObjcCategories

  /** Class c's categories all merge, or none does: not if more than one +load would
      meet in it, its records cannot be rewritten, or merge_lists gives up. */
  method MergeClass(img: Image, c: nat, ids: seq<nat>, nonlazy: set<nat>, relative: bool) returns (r: Option<Merged>)
    requires img.Valid() && c < |img.classes| && InTable(img.cats, ids)
    ensures r.Some? ==> IsMerged(img.classes[c].own, ListsOf(img.cats, ids), r.value)
    ensures r.Some? <==> MergeTogether(img, c, ids, nonlazy, relative)
  {
    TooManyIfMeet(img.classes[c], ids, nonlazy);
    if ids == [] || TooManyLoads(img.classes[c], ids, nonlazy) || !img.classes[c].rewritable {
      return None;
    }
    r := MergeLists(img.classes[c].own, ListsOf(img.cats, ids), relative);
  }

  function ListsOf(cats: seq<Category>, ids: seq<nat>): seq<Lists>
    requires forall i :: 0 <= i < |ids| ==> ids[i] < |cats|
  {
    seq(|ids|, i requires 0 <= i < |ids| => cats[ids[i]].lists)
  }

  predicate TooManyLoads(cls: Class, ids: seq<nat>, nonlazy: set<nat>) {
    |Only(ids, nonlazy)| + (if cls.nonlazy then 1 else 0) > 1
  }

  /** The class and a category each have a +load, or two of the categories do. */
  ghost predicate LoadsMeet(cls: Class, ids: seq<nat>, nonlazy: set<nat>) {
    || (cls.nonlazy && exists i :: 0 <= i < |ids| && ids[i] in nonlazy)
    || exists i, j :: 0 <= i < j < |ids| && ids[i] in nonlazy && ids[j] in nonlazy
  }

  lemma {:induction false} TooManyIfMeet(cls: Class, ids: seq<nat>, nonlazy: set<nat>)
    ensures |Only(ids, nonlazy)| > 0 <==> exists i :: 0 <= i < |ids| && ids[i] in nonlazy
    ensures TooManyLoads(cls, ids, nonlazy) <==> LoadsMeet(cls, ids, nonlazy)
  {
    if ids != [] {
      var n := |ids| - 1;
      TooManyIfMeet(cls, ids[..n], nonlazy);
      assert ids == ids[..n] + [ids[n]];
    }
  }

  /** The category can merge and is in a nonlazy category list: it has a +load. */
  ghost predicate Loads(img: Image, x: nat) {
    && x < |img.cats| && img.cats[x].ok && img.cats[x].cls.Some?
    && exists k :: 0 <= k < |img.lists| && img.lists[k].nonlazy && Some(x) in img.lists[k].entries
  }

  ghost function LoadSet(img: Image): set<nat> { set x: nat | x < |img.cats| && Loads(img, x) }

  /** There are some, at most one +load meets in the class, its records can be rewritten,
      every list can be read and the merged lists can be rebased. */
  ghost predicate MergeTogether(img: Image, c: nat, ids: seq<nat>, nonlazy: set<nat>, relative: bool)
    requires c < |img.classes| && InTable(img.cats, ids)
  {
    var cls := img.classes[c];
    && ids != [] && !LoadsMeet(cls, ids, nonlazy) && cls.rewritable
    && AllJoin(cls.own, ListsOf(img.cats, ids), relative)
  }

  /** The categories of class c merge. */
  ghost predicate Merges(img: Image, c: nat, relative: bool)
    requires c < |img.classes|
  {
    var ids := Noted(img.cats, Slots(img.lists), c);
    InTable(img.cats, ids) && MergeTogether(img, c, ids, LoadSet(img), relative)
  }

  /** Those noted on the classes whose categories merged, of the classes with a result. */
  ghost predicate AreGone(of: seq<seq<nat>>, results: seq<Option<Merged>>, merged: set<nat>) {
    && |results| <= |of|
    && forall x: nat :: x in merged <==> exists c: nat :: c < |results| && results[c].Some? && x in of[c]
  }

  lemma GonePush(of: seq<seq<nat>>, results: seq<Option<Merged>>, merged: set<nat>, m: Option<Merged>)
    requires |results| < |of| && AreGone(of, results, merged)
    ensures AreGone(of, results + [m], if m.Some? then merged + set x | x in of[|results|] else merged)
  {
    var rs := results + [m];
    assert rs[|results|] == m && forall c: nat :: c < |results| ==> rs[c] == results[c];
    forall x: nat | x in merged || (m.Some? && x in of[|results|])
      ensures exists c: nat :: c < |rs| && rs[c].Some? && x in of[c]
    {
      if x in merged {
        var c: nat :| c < |results| && results[c].Some? && x in of[c];
        assert rs[c].Some? && x in of[c];
      } else {
        assert rs[|results|].Some? && x in of[|results|];
      }
    }
  }

  function Owns(img: Image, results: seq<Option<Merged>>): seq<Class>
    requires |results| == |img.classes|
  {
    seq(|results|, c requires 0 <= c < |results| =>
      if results[c].Some? then img.classes[c].(own := Replaced(img.classes[c].own, results[c].value))
      else img.classes[c])
  }

  /** Category x merges: it is noted on a class whose categories do. */
  ghost predicate IsMergedCat(img: Image, relative: bool, x: nat) {
    exists c: nat :: c < |img.classes| && Merges(img, c, relative) && x in Noted(img.cats, Slots(img.lists), c)
  }

  ghost function MergedSet(img: Image, relative: bool): set<nat> {
    set x: nat | x < |img.cats| && IsMergedCat(img, relative, x)
  }

  /** Class c's own lists hold its categories' too if they merge, and nothing else
      changes. */
  ghost predicate ClassAfter(img: Image, relative: bool, r: Image, c: nat)
    requires c < |img.classes| == |r.classes|
  {
    var cls, ids := img.classes[c], Noted(img.cats, Slots(img.lists), c);
    && r.classes[c] == cls.(own := r.classes[c].own)
    && if Merges(img, c, relative) then SameItems(r.classes[c].own, Whole(cls.own, ListsOf(img.cats, ids)))
       else r.classes[c].own == cls.own
  }

  /** What merge_objc_categories makes of an image: a class's categories all merge if they
      can, its own lists become the merged ones, and the lists lose what merged. */
  ghost predicate IsResult(img: Image, relative: bool, r: Image) {
    && img.Valid() && r.cats == img.cats && |r.classes| == |img.classes|
    && (forall c: nat :: c < |img.classes| ==> ClassAfter(img, relative, r, c))
    && IsRebuilt(img, r, MergedSet(img, relative))
  }

  /** merge_objc_categories. */
  method MergeCategories(img: Image, relative: bool) returns (r: Image)
    requires img.Valid()
    ensures IsResult(img, relative, r)
  {
    var found, nonlazy := FindCategories(img);
    NotedInTable(img, found);
    assert nonlazy == LoadSet(img);
    var gone, rs := MergeClasses(img, found, nonlazy, relative);
    GoneIsMerged(img, relative, found, gone, rs);
    var lists := RebuildLists(img.lists, gone);
    r := Image(img.cats, lists, Owns(img, rs));
    forall c: nat | c < |img.classes| ensures ClassAfter(img, relative, r, c) {
      assert rs[c].Some? <==> Merges(img, c, relative);
      assert rs[c].Some? ==> MergedOk(img, found, c, rs[c].value);
    }
  }

  lemma GoneIsMerged(img: Image, relative: bool, of: seq<seq<nat>>, gone: set<nat>, rs: seq<Option<Merged>>)
    requires IsNoted(img, of) && AreGone(of, rs, gone) && AllDecided(img, relative, rs) && |rs| == |img.classes|
    requires forall c: nat :: c < |of| ==> InTable(img.cats, of[c])
    ensures gone == MergedSet(img, relative)
  {
    forall x: nat | x in gone ensures x in MergedSet(img, relative) {
      var c: nat :| c < |rs| && rs[c].Some? && x in of[c];
      assert InTable(img.cats, of[c]);
      MergesHere(img, relative, c, x);
    }
    forall x: nat | x in MergedSet(img, relative) ensures x in gone {
      var c := MergingClass(img, relative, x);
      assert rs[c].Some? && x in of[c];
    }
  }

  lemma MergesHere(img: Image, relative: bool, c: nat, x: nat)
    requires c < |img.classes| && Merges(img, c, relative) && x in Noted(img.cats, Slots(img.lists), c)
    requires x < |img.cats|
    ensures x in MergedSet(img, relative)
  {
  }

  lemma MergingClass(img: Image, relative: bool, x: nat) returns (c: nat)
    requires x in MergedSet(img, relative)
    ensures c < |img.classes| && Merges(img, c, relative) && x in Noted(img.cats, Slots(img.lists), c)
  {
    c :| c < |img.classes| && Merges(img, c, relative) && x in Noted(img.cats, Slots(img.lists), c);
  }

  method MergeClasses(img: Image, of: seq<seq<nat>>, nonlazy: set<nat>, relative: bool)
    returns (gone: set<nat>, rs: seq<Option<Merged>>)
    requires img.Valid() && IsNoted(img, of) && forall c: nat :: c < |of| ==> InTable(img.cats, of[c])
    requires nonlazy == LoadSet(img)
    ensures |rs| == |img.classes| && AreGone(of, rs, gone) && AllMerged(img, of, rs) && AllDecided(img, relative, rs)
  {
    gone, rs := {}, [];
    for c := 0 to |img.classes|
      invariant |rs| == c && AreGone(of, rs, gone) && AllMerged(img, of, rs) && AllDecided(img, relative, rs)
    {
      assert InTable(img.cats, of[c]);
      var m := MergeClass(img, c, of[c], nonlazy, relative);
      GonePush(of, rs, gone, m);
      MergedPush(img, of, rs, m);
      DecidedPush(img, relative, rs, m);
      rs := rs + [m];
      if m.Some? {
        gone := gone + set x | x in of[c];
      }
    }
  }

  ghost predicate IsNoted(img: Image, of: seq<seq<nat>>) {
    |of| == |img.classes| && forall c: nat :: c < |of| ==> of[c] == Noted(img.cats, Slots(img.lists), c)
  }

  ghost predicate MergedOk(img: Image, of: seq<seq<nat>>, c: nat, m: Merged) {
    && c < |of| == |img.classes| && InTable(img.cats, of[c])
    && IsMerged(img.classes[c].own, ListsOf(img.cats, of[c]), m)
  }

  ghost predicate AllMerged(img: Image, of: seq<seq<nat>>, results: seq<Option<Merged>>) {
    |results| <= |of| && forall c: nat :: c < |results| && results[c].Some? ==> MergedOk(img, of, c, results[c].value)
  }

  ghost predicate AllDecided(img: Image, relative: bool, results: seq<Option<Merged>>) {
    && |results| <= |img.classes|
    && forall c: nat :: c < |results| ==> (results[c].Some? <==> Merges(img, c, relative))
  }

  lemma MergedPush(img: Image, of: seq<seq<nat>>, rs: seq<Option<Merged>>, m: Option<Merged>)
    requires AllMerged(img, of, rs) && |rs| < |of| && (m.Some? ==> MergedOk(img, of, |rs|, m.value))
    ensures AllMerged(img, of, rs + [m])
  {
  }

  lemma DecidedPush(img: Image, relative: bool, rs: seq<Option<Merged>>, m: Option<Merged>)
    requires |rs| < |img.classes| && AllDecided(img, relative, rs)
    requires m.Some? <==> Merges(img, |rs|, relative)
    ensures AllDecided(img, relative, rs + [m])
  {
    forall c: nat | c < |rs + [m]| ensures (rs + [m])[c].Some? <==> Merges(img, c, relative) {
      assert c < |rs| ==> (rs + [m])[c] == rs[c];
    }
  }

  ghost predicate IsRebuilt(img: Image, r: Image, merged: set<nat>) {
    && |r.lists| == |img.lists|
    && forall k :: 0 <= k < |img.lists| ==>
         r.lists[k] == CatList(img.lists[k].nonlazy, Survivors(img.lists[k].entries, merged))
  }

  lemma NotedInTable(img: Image, of: seq<seq<nat>>)
    requires IsNoted(img, of)
    ensures forall c: nat :: c < |of| ==> InTable(img.cats, of[c])
  {
    forall c: nat, i | c < |of| && 0 <= i < |of[c]| ensures of[c][i] < |img.cats| {
      NotedAre(img.cats, Slots(img.lists), c, of[c][i]);
    }
  }

  // ---- Which category a message is answered by ----

  ghost predicate InTable(cats: seq<Category>, ids: seq<nat>) { forall i :: 0 <= i < |ids| ==> ids[i] < |cats| }

  predicate Has(cats: seq<Category>, x: nat, meta: bool, sel: nat) {
    x < |cats| && Defines(MethodsOf(cats[x].lists, meta), sel)
  }

  /** The last of the categories that has the selector. */
  function LastWith(cats: seq<Category>, ids: seq<nat>, meta: bool, sel: nat): (r: Option<nat>)
    ensures r.Some? ==> r.value in ids && Has(cats, r.value, meta, sel)
  {
    if ids == [] then None
    else if Has(cats, ids[|ids| - 1], meta, sel) then Some(ids[|ids| - 1])
    else LastWith(cats, ids[..|ids| - 1], meta, sel)
  }

  lemma {:induction false} SearchIsLast(cats: seq<Category>, ids: seq<nat>, meta: bool, sel: nat)
    requires InTable(cats, ids)
    ensures Search(PartsOf(cats, ids, meta), sel) ==
            var l := LastWith(cats, ids, meta, sel);
            if l.Some? then Lookup(MethodsOf(cats[l.value].lists, meta), sel) else None
  {
    if ids != [] {
      var n := |ids| - 1;
      SearchIsLast(cats, ids[..n], meta, sel);
      assert PartsOf(cats, ids, meta)[..n] == PartsOf(cats, ids[..n], meta);
    }
  }

  lemma LastPush(cats: seq<Category>, ids: seq<nat>, x: nat, meta: bool, sel: nat)
    ensures LastWith(cats, ids + [x], meta, sel) ==
            if Has(cats, x, meta, sel) then Some(x) else LastWith(cats, ids, meta, sel)
  {
    assert (ids + [x])[..|ids|] == ids;
  }

  lemma {:induction false} WithoutHas(ids: seq<nat>, merged: set<nat>, x: nat)
    ensures x in Without(ids, merged) <==> x in ids && x !in merged
  {
    if ids != [] {
      WithoutHas(ids[..|ids| - 1], merged, x);
      assert ids == ids[..|ids| - 1] + [ids[|ids| - 1]];
    }
  }

  /** If the category that answers stays, it goes on answering. */
  lemma {:induction false} LastStays(cats: seq<Category>, ids: seq<nat>, merged: set<nat>, meta: bool, sel: nat)
    ensures var l := LastWith(cats, ids, meta, sel);
            l.Some? && l.value !in merged ==> LastWith(cats, Without(ids, merged), meta, sel) == l
  {
    if ids != [] {
      var n := |ids| - 1;
      LastStays(cats, ids[..n], merged, meta, sel);
      if ids[n] in merged {
        assert Without(ids, merged) == Without(ids[..n], merged);
      } else {
        LastPush(cats, Without(ids[..n], merged), ids[n], meta, sel);
      }
    }
  }

  lemma {:induction false} LastIsNone(cats: seq<Category>, ids: seq<nat>, meta: bool, sel: nat)
    ensures LastWith(cats, ids, meta, sel).None? <==> forall x: nat :: x in ids ==> !Has(cats, x, meta, sel)
  {
    if ids != [] {
      var n := |ids| - 1;
      LastIsNone(cats, ids[..n], meta, sel);
      assert ids == ids[..n] + [ids[n]];
    }
  }

  /** What is left of the answering categories when the merged ones go. */
  lemma LastWithout(cats: seq<Category>, ids: seq<nat>, merged: set<nat>, meta: bool, sel: nat)
    ensures var l, u := LastWith(cats, ids, meta, sel), LastWith(cats, Without(ids, merged), meta, sel);
            && (l.Some? && l.value !in merged ==> u == l)
            && (u.Some? ==> l.Some? && u.value in ids && u.value !in merged)
            && (u.None? ==> forall x: nat :: x in ids && x !in merged ==> !Has(cats, x, meta, sel))
  {
    LastStays(cats, ids, merged, meta, sel);
    LastIsNone(cats, ids, meta, sel);
    LastIsNone(cats, Without(ids, merged), meta, sel);
    forall x: nat ensures x in Without(ids, merged) <==> x in ids && x !in merged {
      WithoutHas(ids, merged, x);
    }
  }

  // ---- By slots of the category lists ----

  /** The runtime attaches the slot's category to class c, and it has the selector. */
  predicate Holds(cats: seq<Category>, s: Slot, c: nat, meta: bool, sel: nat) {
    IsOf(cats, s, c) && Has(cats, s.cat.value, meta, sel)
  }

  predicate HoldsUnmergeable(cats: seq<Category>, s: Slot, c: nat, meta: bool, sel: nat) {
    Holds(cats, s, c, meta, sel) && !cats[s.cat.value].ok
  }

  /** The first slot of a category that can merge into class c, which has the selector. */
  predicate Brings(cats: seq<Category>, slots: seq<Slot>, k: nat, c: nat, meta: bool, sel: nat) {
    && k < |slots| && CanMerge(cats, slots[k], c) && Has(cats, slots[k].cat.value, meta, sel)
    && forall j :: 0 <= j < k ==> slots[j].cat != slots[k].cat
  }

  predicate LastHolds(cats: seq<Category>, slots: seq<Slot>, k: nat, c: nat, meta: bool, sel: nat) {
    k < |slots| && Holds(cats, slots[k], c, meta, sel) && forall j :: k < j < |slots| ==>
      !Holds(cats, slots[j], c, meta, sel)
  }

  predicate LastBrings(cats: seq<Category>, slots: seq<Slot>, k: nat, c: nat, meta: bool, sel: nat) {
    && Brings(cats, slots, k, c, meta, sel)
    && forall j: nat :: k < j < |slots| ==> !Brings(cats, slots, j, c, meta, sel)
  }

  ghost predicate SomeUnmergeable(cats: seq<Category>, slots: seq<Slot>, c: nat, meta: bool, sel: nat) {
    exists j :: 0 <= j < |slots| && HoldsUnmergeable(cats, slots[j], c, meta, sel)
  }

  ghost predicate EndsAttachedAs(
    cats: seq<Category>, slots: seq<Slot>, x: Option<nat>, c: nat, meta: bool, sel: nat)
  {
    exists l: nat :: LastHolds(cats, slots, l, c, meta, sel) && slots[l].cat == x
  }

  /** Nothing is shadowed: if a category that cannot merge has the selector, the last one
      attached with it is such a category. */
  ghost predicate NoneShadowed(cats: seq<Category>, slots: seq<Slot>, c: nat, meta: bool, sel: nat) {
    SomeUnmergeable(cats, slots, c, meta, sel) ==>
      forall k: nat :: LastHolds(cats, slots, k, c, meta, sel) ==> !cats[slots[k].cat.value].ok
  }

  /** The order is kept: if all categories with the selector can merge, the one mentioned
      last for the first time is the one attached last. */
  ghost predicate OrderKept(cats: seq<Category>, slots: seq<Slot>, c: nat, meta: bool, sel: nat) {
    !SomeUnmergeable(cats, slots, c, meta, sel) ==>
      forall k: nat :: LastBrings(cats, slots, k, c, meta, sel) ==>
        EndsAttachedAs(cats, slots, slots[k].cat, c, meta, sel)
  }

  /** Both. */
  ghost predicate Kept(cats: seq<Category>, slots: seq<Slot>, c: nat, meta: bool, sel: nat) {
    NoneShadowed(cats, slots, c, meta, sel) && OrderKept(cats, slots, c, meta, sel)
  }

  /** The attached category that answers is that of the last slot that holds the selector. */
  lemma {:induction false} LastAttached(cats: seq<Category>, slots: seq<Slot>, c: nat, meta: bool, sel: nat)
    ensures var l := LastWith(cats, Attached(cats, slots, c), meta, sel);
            && (l.None? ==> forall k :: 0 <= k < |slots| ==> !Holds(cats, slots[k], c, meta, sel))
            && (l.Some? ==> EndsAttachedAs(cats, slots, l, c, meta, sel))
  {
    if slots != [] {
      var n := |slots| - 1;
      var front := slots[..n];
      LastAttached(cats, front, c, meta, sel);
      AttachedPush(cats, front, slots[n], c);
      assert slots == front + [slots[n]];
      if IsOf(cats, slots[n], c) {
        LastPush(cats, Attached(cats, front, c), slots[n].cat.value, meta, sel);
      }
      if Holds(cats, slots[n], c, meta, sel) {
        assert LastHolds(cats, slots, n, c, meta, sel);
      } else if k: nat :| LastHolds(cats, front, k, c, meta, sel) {
        assert LastHolds(cats, slots, k, c, meta, sel);
      }
    }
  }

  /** Of the categories noted on the class, the last with the selector is that of the last
      slot that brings it. */
  lemma {:induction false} LastNoted(cats: seq<Category>, slots: seq<Slot>, c: nat, meta: bool, sel: nat)
    ensures var l := LastWith(cats, Noted(cats, slots, c), meta, sel);
            && (l.None? ==> forall k: nat :: !Brings(cats, slots, k, c, meta, sel))
            && (l.Some? ==> exists k: nat :: LastBrings(cats, slots, k, c, meta, sel) && slots[k].cat == l)
  {
    if slots != [] {
      var n := |slots| - 1;
      var front, s := slots[..n], slots[n];
      LastNoted(cats, front, c, meta, sel);
      assert slots == front + [s];
      NotedPush(cats, front, s);
      forall k: nat | k < n ensures Brings(cats, slots, k, c, meta, sel) <==> Brings(cats, front, k, c, meta, sel) {
        assert forall j :: 0 <= j <= k ==> front[j] == slots[j];
      }
      if CanMerge(cats, s, c) {
        NotedAre(cats, front, c, s.cat.value);
        BringsLast(cats, front, s, c, meta, sel);
        if s.cat.value !in Noted(cats, front, c) {
          LastPush(cats, Noted(cats, front, c), s.cat.value, meta, sel);
        }
      }
      if Brings(cats, slots, n, c, meta, sel) {
        assert LastBrings(cats, slots, n, c, meta, sel);
      } else if k: nat :| LastBrings(cats, front, k, c, meta, sel) {
        assert LastBrings(cats, slots, k, c, meta, sel);
      }
    }
  }

  lemma BringsLast(cats: seq<Category>, front: seq<Slot>, s: Slot, c: nat, meta: bool, sel: nat)
    requires CanMerge(cats, s, c)
    ensures Brings(cats, front + [s], |front|, c, meta, sel) <==>
            s.cat.value !in Noted(cats, front, c) && Has(cats, s.cat.value, meta, sel)
  {
    NotedAre(cats, front, c, s.cat.value);
    forall j | 0 <= j < |front| ensures (front + [s])[j] == front[j] {
    }
    if s.cat.value !in Noted(cats, front, c) {
      assert forall j :: 0 <= j < |front| && front[j].cat == s.cat ==> CanMerge(cats, front[j], c);
    }
  }

  // ---- Before and after ----

  /** What a message to class c finds in an image. */
  ghost function FindsIn(img: Image, c: nat, meta: bool, sel: nat): Option<Method>
    requires c < |img.classes|
  {
    AttachedInTable(img.cats, Slots(img.lists), c);
    Finds(img.cats, Attached(img.cats, Slots(img.lists), c), img.classes[c].own, meta, sel)
  }

  lemma {:induction false} AttachedInTable(cats: seq<Category>, slots: seq<Slot>, c: nat)
    ensures forall x :: x in Attached(cats, slots, c) ==>
              x < |cats| && exists k :: 0 <= k < |slots| && IsOf(cats, slots[k], c) && slots[k].cat == Some(x)
    ensures InTable(cats, Attached(cats, slots, c))
  {
    if slots != [] {
      var n := |slots| - 1;
      AttachedInTable(cats, slots[..n], c);
      assert forall k :: 0 <= k < n ==> slots[..n][k] == slots[k];
      assert forall i :: 0 <= i < |Attached(cats, slots, c)| ==>
        Attached(cats, slots, c)[i] in Attached(cats, slots, c);
    }
  }

  /** What one category answers. */
  function Answer(cats: seq<Category>, x: Option<nat>, own: Lists, meta: bool, sel: nat): Option<Method> {
    if x.Some? && Has(cats, x.value, meta, sel) then Lookup(MethodsOf(cats[x.value].lists, meta), sel)
    else Lookup(MethodsOf(own, meta), sel)
  }

  lemma FindsBefore(cats: seq<Category>, ids: seq<nat>, own: Lists, meta: bool, sel: nat)
    requires InTable(cats, ids)
    ensures Finds(cats, ids, own, meta, sel) == Answer(cats, LastWith(cats, ids, meta, sel), own, meta, sel)
  {
    SearchIsLast(cats, ids, meta, sel);
  }

  lemma FindsAfter(cats: seq<Category>, left: seq<nat>, ids: seq<nat>, own: Lists, own': Lists, meta: bool, sel: nat)
    requires InTable(cats, left) && InTable(cats, ids)
    requires MethodsOf(own', meta) == Backward(PartsOf(cats, ids, meta)) + MethodsOf(own, meta)
    ensures var u := LastWith(cats, left, meta, sel);
            Finds(cats, left, own', meta, sel) ==
            Answer(cats, if u.Some? then u else LastWith(cats, ids, meta, sel), own, meta, sel)
  {
    SearchIsLast(cats, left, meta, sel);
    SearchIsLast(cats, ids, meta, sel);
    MergedFinds(PartsOf(cats, ids, meta), MethodsOf(own, meta), sel);
  }

  lemma {:induction false} WithoutNone(ids: seq<nat>, merged: set<nat>)
    requires forall i :: 0 <= i < |ids| ==> ids[i] !in merged
    ensures Without(ids, merged) == ids
  {
    if ids != [] {
      var n := |ids| - 1;
      WithoutNone(ids[..n], merged);
      SliceNext(ids, n);
    }
  }

  /** An attached category merged exactly if its class's did and it can. */
  lemma MergedIffOk(img: Image, relative: bool, c: nat)
    requires img.Valid() && c < |img.classes|
    ensures forall x :: x in Attached(img.cats, Slots(img.lists), c) ==>
              x < |img.cats| && (x in MergedSet(img, relative) <==> Merges(img, c, relative) && img.cats[x].ok)
  {
    var slots := Slots(img.lists);
    AttachedInTable(img.cats, slots, c);
    forall x | x in Attached(img.cats, slots, c)
      ensures x in MergedSet(img, relative) <==> Merges(img, c, relative) && img.cats[x].ok
    {
      NotedAre(img.cats, slots, c, x);
      var k :| 0 <= k < |slots| && IsOf(img.cats, slots[k], c) && slots[k].cat == Some(x);
      assert x in Noted(img.cats, slots, c) <==> img.cats[x].ok by {
        assert CanMerge(img.cats, slots[k], c) <==> img.cats[x].ok;
      }
      if d: nat :| d < |img.classes| && Merges(img, d, relative) && x in Noted(img.cats, slots, d) {
        NotedAre(img.cats, slots, d, x);
      }
    }
  }

  /** The category that answers once class c's categories merged: an attached one that is
      left if any has the selector, else the last of those noted. */
  ghost function AnswersMerged(img: Image, merged: set<nat>, c: nat, meta: bool, sel: nat): Option<nat> {
    var slots := Slots(img.lists);
    var u := LastWith(img.cats, Without(Attached(img.cats, slots, c), merged), meta, sel);
    if u.Some? then u else LastWith(img.cats, Noted(img.cats, slots, c), meta, sel)
  }

  /** What each message to class c finds before the pass and after it. */
  lemma AnsweredBy(img: Image, relative: bool, r: Image, c: nat, meta: bool, sel: nat)
    requires IsResult(img, relative, r) && c < |img.classes|
    ensures var before := LastWith(img.cats, Attached(img.cats, Slots(img.lists), c), meta, sel);
            var merged := AnswersMerged(img, MergedSet(img, relative), c, meta, sel);
            var after := if Merges(img, c, relative) then merged else before;
            && FindsIn(img, c, meta, sel) == Answer(img.cats, before, img.classes[c].own, meta, sel)
            && FindsIn(r, c, meta, sel) == Answer(img.cats, after, img.classes[c].own, meta, sel)
  {
    var a := Attached(img.cats, Slots(img.lists), c);
    AttachedInTable(img.cats, Slots(img.lists), c);
    AttachedInTable(r.cats, Slots(r.lists), c);
    var merged := MergedSet(img, relative);
    RebuiltAttached(img.cats, img.lists, r.lists, merged, c);
    FindsBefore(img.cats, a, img.classes[c].own, meta, sel);
    if Merges(img, c, relative) {
      OwnAfter(img, relative, r, c, meta);
      var ids := Noted(img.cats, Slots(img.lists), c);
      FindsAfter(img.cats, Without(a, merged), ids, img.classes[c].own, r.classes[c].own, meta, sel);
    } else {
      assert ClassAfter(img, relative, r, c);
      MergedIffOk(img, relative, c);
      assert forall i :: 0 <= i < |a| ==> a[i] in a;
      WithoutNone(a, merged);
    }
  }

  /** The own list of a class whose categories merged. */
  lemma OwnAfter(img: Image, relative: bool, r: Image, c: nat, meta: bool)
    requires IsResult(img, relative, r) && c < |img.classes| && Merges(img, c, relative)
    ensures var ids := Noted(img.cats, Slots(img.lists), c);
            && InTable(img.cats, ids)
            && MethodsOf(r.classes[c].own, meta) ==
               Backward(PartsOf(img.cats, ids, meta)) + MethodsOf(img.classes[c].own, meta)
  {
    assert ClassAfter(img, relative, r, c);
    WholeMethods(img.cats, Noted(img.cats, Slots(img.lists), c), img.classes[c].own, meta);
  }

  lemma WholeMethods(cats: seq<Category>, ids: seq<nat>, own: Lists, meta: bool)
    requires InTable(cats, ids)
    ensures MethodsOf(Whole(own, ListsOf(cats, ids)), meta) == Backward(PartsOf(cats, ids, meta)) + MethodsOf(own, meta)
  {
    if meta {
      assert CMethods(ListsOf(cats, ids)) == PartsOf(cats, ids, true);
    } else {
      assert IMethods(ListsOf(cats, ids)) == PartsOf(cats, ids, false);
    }
  }

  // ---- When dispatch is kept ----

  /** Class c's categories and the class itself share no method. */
  ghost predicate DistinctMethods(img: Image, c: nat, meta: bool)
    requires c < |img.classes|
  {
    && (forall x: nat, m :: x < |img.cats| && img.cats[x].cls == Some(c) && m in MethodsOf(img.cats[x].lists, meta) ==>
          m !in MethodsOf(img.classes[c].own, meta))
    && forall x: nat, y: nat, m ::
         (x < |img.cats| && y < |img.cats| && x != y && img.cats[x].cls == img.cats[y].cls == Some(c)
          && m in MethodsOf(img.cats[x].lists, meta)) ==> m !in MethodsOf(img.cats[y].lists, meta)
  }

  lemma {:induction false} LookupIn(ms: seq<Method>, sel: nat)
    ensures Lookup(ms, sel).Some? ==> Lookup(ms, sel).value in ms
  {
    if ms != [] && ms[0].sel != sel {
      LookupIn(ms[1..], sel);
    }
  }

  ghost predicate OfClass(img: Image, x: Option<nat>, c: nat, meta: bool, sel: nat) {
    x.Some? ==> Has(img.cats, x.value, meta, sel) && img.cats[x.value].cls == Some(c)
  }

  lemma OtherCategory(img: Image, x: Option<nat>, y: Option<nat>, c: nat, meta: bool, sel: nat)
    requires c < |img.classes| && DistinctMethods(img, c, meta)
    requires OfClass(img, x, c, meta, sel) && OfClass(img, y, c, meta, sel) && x != y
    ensures Answer(img.cats, x, img.classes[c].own, meta, sel) != Answer(img.cats, y, img.classes[c].own, meta, sel)
  {
    LookupIn(MethodsOf(img.classes[c].own, meta), sel);
    if x.Some? {
      LookupIn(MethodsOf(img.cats[x.value].lists, meta), sel);
    }
    if y.Some? {
      LookupIn(MethodsOf(img.cats[y.value].lists, meta), sel);
    }
  }

  lemma LastIsOne(cats: seq<Category>, slots: seq<Slot>, k: nat, l: nat, c: nat, meta: bool, sel: nat)
    requires LastHolds(cats, slots, k, c, meta, sel) && LastHolds(cats, slots, l, c, meta, sel)
    ensures k == l
  {
  }

  lemma LastBringsIsOne(cats: seq<Category>, slots: seq<Slot>, k: nat, l: nat, c: nat, meta: bool, sel: nat)
    requires LastBrings(cats, slots, k, c, meta, sel) && LastBrings(cats, slots, l, c, meta, sel)
    ensures k == l
  {
  }

  /** An unmergeable category with the selector is attached: merging keeps the answer
      exactly if such a category gave it. */
  lemma WhenUnmergeable(img: Image, merged: set<nat>, c: nat, meta: bool, sel: nat)
    requires forall x :: x in Attached(img.cats, Slots(img.lists), c) ==>
               x < |img.cats| && (x in merged <==> img.cats[x].ok)
    requires SomeUnmergeable(img.cats, Slots(img.lists), c, meta, sel)
    ensures AnswersMerged(img, merged, c, meta, sel) ==
            LastWith(img.cats, Attached(img.cats, Slots(img.lists), c), meta, sel)
            <==> NoneShadowed(img.cats, Slots(img.lists), c, meta, sel)
  {
    var slots := Slots(img.lists);
    var a := Attached(img.cats, slots, c);
    LastAttached(img.cats, slots, c, meta, sel);
    LastWithout(img.cats, a, merged, meta, sel);
    var j :| 0 <= j < |slots| && HoldsUnmergeable(img.cats, slots[j], c, meta, sel);
    AttachedHas(img.cats, slots, c, j);
    var l: nat :| LastHolds(img.cats, slots, l, c, meta, sel) && slots[l].cat == LastWith(img.cats, a, meta, sel);
    forall k: nat | LastHolds(img.cats, slots, k, c, meta, sel) ensures k == l {
      LastIsOne(img.cats, slots, k, l, c, meta, sel);
    }
  }

  lemma {:induction false} AttachedHas(cats: seq<Category>, slots: seq<Slot>, c: nat, j: nat)
    requires j < |slots| && IsOf(cats, slots[j], c)
    ensures slots[j].cat.value in Attached(cats, slots, c)
  {
    var n := |slots| - 1;
    if j < n {
      AttachedHas(cats, slots[..n], c, j);
    }
  }

  /** None is: it is kept exactly if the last one noted is the last one attached. */
  lemma WhenAllMergeable(img: Image, merged: set<nat>, c: nat, meta: bool, sel: nat)
    requires forall x :: x in Attached(img.cats, Slots(img.lists), c) ==>
               x < |img.cats| && (x in merged <==> img.cats[x].ok)
    requires !SomeUnmergeable(img.cats, Slots(img.lists), c, meta, sel)
    ensures AnswersMerged(img, merged, c, meta, sel) ==
            LastWith(img.cats, Attached(img.cats, Slots(img.lists), c), meta, sel)
            <==> OrderKept(img.cats, Slots(img.lists), c, meta, sel)
  {
    var cats, slots := img.cats, Slots(img.lists);
    var a := Attached(cats, slots, c);
    var l, noted := LastWith(cats, a, meta, sel), LastWith(cats, Noted(cats, slots, c), meta, sel);
    LastAttached(cats, slots, c, meta, sel);
    LastNoted(cats, slots, c, meta, sel);
    NoneUnmergeable(img, merged, c, meta, sel);
    if noted.Some? {
      var k: nat :| LastBrings(cats, slots, k, c, meta, sel) && slots[k].cat == noted;
      forall k': nat | LastBrings(cats, slots, k', c, meta, sel) ensures k' == k {
        LastBringsIsOne(cats, slots, k', k, c, meta, sel);
      }
      forall i: nat | LastHolds(cats, slots, i, c, meta, sel) ensures slots[i].cat == l {
        if l.Some? {
          var i': nat :| LastHolds(cats, slots, i', c, meta, sel) && slots[i'].cat == l;
          LastIsOne(cats, slots, i, i', c, meta, sel);
        }
      }
    } else if l.Some? {
      var i: nat :| LastHolds(cats, slots, i, c, meta, sel) && slots[i].cat == l;
      FirstBrings(cats, slots, i, c, meta, sel);
    }
  }

  lemma NoneUnmergeable(img: Image, merged: set<nat>, c: nat, meta: bool, sel: nat)
    requires forall x :: x in Attached(img.cats, Slots(img.lists), c) ==>
               x < |img.cats| && (x in merged <==> img.cats[x].ok)
    requires !SomeUnmergeable(img.cats, Slots(img.lists), c, meta, sel)
    ensures LastWith(img.cats, Without(Attached(img.cats, Slots(img.lists), c), merged), meta, sel) == None
  {
    var slots := Slots(img.lists);
    LastWithout(img.cats, Attached(img.cats, slots, c), merged, meta, sel);
    AttachedInTable(img.cats, slots, c);
    var u := LastWith(img.cats, Without(Attached(img.cats, slots, c), merged), meta, sel);
    if u.Some? {
      var k :| 0 <= k < |slots| && IsOf(img.cats, slots[k], c) && slots[k].cat == u;
      assert HoldsUnmergeable(img.cats, slots[k], c, meta, sel);
    }
  }

  /** A mergeable category with the selector that is attached is brought by some slot. */
  lemma FirstBrings(cats: seq<Category>, slots: seq<Slot>, i: nat, c: nat, meta: bool, sel: nat)
    requires i < |slots| && Holds(cats, slots[i], c, meta, sel) && cats[slots[i].cat.value].ok
    ensures exists k: nat :: Brings(cats, slots, k, c, meta, sel)
  {
    var k: nat := 0;
    while slots[k].cat != slots[i].cat
      invariant k <= i && forall j :: 0 <= j < k ==> slots[j].cat != slots[i].cat
      decreases i - k
    {
      k := k + 1;
    }
    assert Brings(cats, slots, k, c, meta, sel);
  }

  /** The categories that answer are the class's own and have the selector. */
  lemma AnswerersAreOf(img: Image, merged: set<nat>, c: nat, meta: bool, sel: nat)
    ensures OfClass(img, LastWith(img.cats, Attached(img.cats, Slots(img.lists), c), meta, sel), c, meta, sel)
    ensures OfClass(img, AnswersMerged(img, merged, c, meta, sel), c, meta, sel)
  {
    var slots := Slots(img.lists);
    AttachedInTable(img.cats, slots, c);
    LastWithout(img.cats, Attached(img.cats, slots, c), merged, meta, sel);
    var n := LastWith(img.cats, Noted(img.cats, slots, c), meta, sel);
    if n.Some? {
      NotedAre(img.cats, slots, c, n.value);
    }
  }

  /** The same category answers after class c's categories merged exactly if it is not
      shadowed and the order is kept. */
  lemma SameAnswerer(img: Image, relative: bool, r: Image, c: nat, meta: bool, sel: nat)
    requires IsResult(img, relative, r) && c < |img.classes| && Merges(img, c, relative)
    ensures AnswersMerged(img, MergedSet(img, relative), c, meta, sel) ==
            LastWith(img.cats, Attached(img.cats, Slots(img.lists), c), meta, sel)
            <==> Kept(img.cats, Slots(img.lists), c, meta, sel)
  {
    MergedIffOk(img, relative, c);
    if SomeUnmergeable(img.cats, Slots(img.lists), c, meta, sel) {
      WhenUnmergeable(img, MergedSet(img, relative), c, meta, sel);
    } else {
      WhenAllMergeable(img, MergedSet(img, relative), c, meta, sel);
    }
  }

  /** If a class's categories stay, or nothing is shadowed and the order is kept, the
      message finds the method it did. */
  lemma UnshadowedIsKept(img: Image, relative: bool, r: Image, c: nat, meta: bool, sel: nat)
    requires IsResult(img, relative, r) && c < |img.classes|
    requires Merges(img, c, relative) ==>
               Kept(img.cats, Slots(img.lists), c, meta, sel)
    ensures FindsIn(r, c, meta, sel) == FindsIn(img, c, meta, sel)
  {
    AnsweredBy(img, relative, r, c, meta, sel);
    if Merges(img, c, relative) {
      SameAnswerer(img, relative, r, c, meta, sel);
    }
  }

  /** And only then, where the categories and the class share no method. */
  lemma DispatchKept(img: Image, relative: bool, r: Image, c: nat, meta: bool, sel: nat)
    requires IsResult(img, relative, r) && c < |img.classes| && DistinctMethods(img, c, meta)
    ensures FindsIn(r, c, meta, sel) == FindsIn(img, c, meta, sel) <==>
            (Merges(img, c, relative) ==>
               Kept(img.cats, Slots(img.lists), c, meta, sel))
  {
    AnsweredBy(img, relative, r, c, meta, sel);
    if Merges(img, c, relative) {
      SameAnswerer(img, relative, r, c, meta, sel);
      var merged := MergedSet(img, relative);
      AnswerersAreOf(img, merged, c, meta, sel);
      var before := LastWith(img.cats, Attached(img.cats, Slots(img.lists), c), meta, sel);
      if AnswersMerged(img, merged, c, meta, sel) != before {
        OtherCategory(img, AnswersMerged(img, merged, c, meta, sel), before, c, meta, sel);
      }
    }
  }

  // ---- Where it is not ----

  /** Class 0 and two categories of it, both with selector 7. */
  function TwoCategories(firstOk: bool, lists: seq<CatList>): Image {
    Image([OneMethod(firstOk, 10), OneMethod(true, 11)], lists, [Class(ListsWith([]), false, true)])
  }

  function OneMethod(ok: bool, imp: nat): Category { Category(Some(0), ok, ListsWith([Method(7, imp, true)])) }

  function ListsWith(ms: seq<Method>): Lists {
    var none: List<Item> := List(false, true, []);
    Lists(List(ms != [], true, ms), List(false, true, []), none, none, none)
  }

  function InOrder(): CatList { CatList(false, [Some(0), Some(1)]) }

  /** One list, whose first category is too short to merge. */
  function ShortFirst(): Image { TwoCategories(false, [InOrder()]) }

  /** The second category has a +load, and the list that says so is read first. */
  function NonlazyFirst(): Image { TwoCategories(true, [CatList(true, [Some(1)]), InOrder()]) }

  /** Methods alone, which can be read and rebased. */
  predicate Plain(l: Lists) {
    && l.Readable() && l.Ok() && LocalMethods(l.imethods.items) && l.cmethods.items == []
    && l.protocols.items == [] && l.iprops.items == [] && l.cprops.items == []
  }

  lemma PlainListed(ms: seq<Method>)
    requires LocalMethods(ms)
    ensures Plain(ListsWith(ms))
  {
  }

  ghost predicate AllPlain(img: Image) {
    && |img.cats| == 2 && |img.classes| == 1 && Plain(img.classes[0].own) && img.classes[0].rewritable
    && !img.classes[0].nonlazy && Plain(img.cats[0].lists) && Plain(img.cats[1].lists)
  }

  lemma TheyMerge(img: Image, relative: bool)
    requires AllPlain(img)
    requires var ids := Noted(img.cats, Slots(img.lists), 0);
             InTable(img.cats, ids) && ids != [] && !LoadsMeet(img.classes[0], ids, LoadSet(img))
    ensures Merges(img, 0, relative)
  {
    var ids := Noted(img.cats, Slots(img.lists), 0);
    forall i | 0 <= i < |ids| ensures Plain(ListsOf(img.cats, ids)[i]) {
      assert ids[i] == 0 || ids[i] == 1;
    }
  }

  lemma TwoArePlain(firstOk: bool, lists: seq<CatList>)
    ensures AllPlain(TwoCategories(firstOk, lists))
  {
    PlainListed([]);
    PlainListed([Method(7, 10, true)]);
    PlainListed([Method(7, 11, true)]);
  }

  lemma TwoAnswer(firstOk: bool, lists: seq<CatList>)
    ensures var img := TwoCategories(firstOk, lists);
            AnswersAs(img, 0, Method(7, 10, true)) && AnswersAs(img, 1, Method(7, 11, true))
  {
  }

  ghost predicate AnswersAs(img: Image, i: nat, m: Method) {
    i < |img.cats| && Lookup(MethodsOf(img.cats[i].lists, false), 7) == Some(m)
  }

  lemma ShortSlots()
    ensures Slots(ShortFirst().lists) == [] + [Slot(false, Some(0))] + [Slot(false, Some(1))]
    ensures ShortFirst().Valid()
  {
    assert [InOrder()][..0] == [];
    assert Slots([InOrder()]) == Slots([]) + SlotsOf(InOrder());
  }

  lemma NonlazySlots()
    ensures Slots(NonlazyFirst().lists) == [] + [Slot(true, Some(1))] + [Slot(false, Some(0))] + [Slot(false, Some(1))]
    ensures NonlazyFirst().Valid()
  {
    var one := CatList(true, [Some(1)]);
    assert [one, InOrder()][..1] == [one] && [one][..0] == [];
    assert Slots([one]) == Slots([]) + SlotsOf(one);
    assert Slots([one, InOrder()]) == Slots([one]) + SlotsOf(InOrder());
  }

  lemma ShortLists(img: Image)
    requires img == ShortFirst()
    ensures Noted(img.cats, Slots(img.lists), 0) == [1] && Attached(img.cats, Slots(img.lists), 0) == [0, 1]
  {
    var a, b := Slot(false, Some(0)), Slot(false, Some(1));
    ShortSlots();
    NotedPush(img.cats, [], a);
    NotedPush(img.cats, [] + [a], b);
    AttachedPush(img.cats, [], a, 0);
    AttachedPush(img.cats, [] + [a], b, 0);
  }

  lemma NonlazyLists(img: Image)
    requires img == NonlazyFirst()
    ensures Noted(img.cats, Slots(img.lists), 0) == [1, 0] && Attached(img.cats, Slots(img.lists), 0) == [0, 1]
  {
    var a, b, d := Slot(true, Some(1)), Slot(false, Some(0)), Slot(false, Some(1));
    NonlazySlots();
    NotedPush(img.cats, [], a);
    NotedPush(img.cats, [] + [a], b);
    NotedPush(img.cats, [] + [a] + [b], d);
    AttachedPush(img.cats, [], a, 0);
    AttachedPush(img.cats, [] + [a], b, 0);
    AttachedPush(img.cats, [] + [a] + [b], d, 0);
  }

  /** Which of two attached categories answers, for each way their class can merge. */
  lemma TwoAttached(img: Image, merged: set<nat>)
    requires Has(img.cats, 0, false, 7) && Has(img.cats, 1, false, 7)
    requires Attached(img.cats, Slots(img.lists), 0) == [0, 1]
    ensures LastWith(img.cats, Attached(img.cats, Slots(img.lists), 0), false, 7) == Some(1)
    ensures merged == {1} ==> AnswersMerged(img, merged, 0, false, 7) == Some(0)
    ensures merged == {0, 1} && Noted(img.cats, Slots(img.lists), 0) == [1, 0] ==>
              AnswersMerged(img, merged, 0, false, 7) == Some(0)
  {
    assert [0, 1][..1] == [0] && [0][..0] == [] && [1, 0][..1] == [1];
    assert Without([0, 1], merged) == Without([0], merged) + if 1 in merged then [] else [1];
    assert Without([0], merged) == Without([], merged) + if 0 in merged then [] else [0];
  }

  lemma OneClassMerged(img: Image, relative: bool, x: nat)
    requires |img.classes| == 1 && Merges(img, 0, relative)
    ensures IsMergedCat(img, relative, x) <==> x in Noted(img.cats, Slots(img.lists), 0)
  {
    if c: nat :| c < |img.classes| && Merges(img, c, relative) && x in Noted(img.cats, Slots(img.lists), c) {
      assert c == 0;
    }
  }

  lemma MergedAre(img: Image, relative: bool, noted: seq<nat>)
    requires |img.cats| == 2 && (noted == [1] || noted == [1, 0])
    requires forall x: nat :: x < 2 ==> (IsMergedCat(img, relative, x) <==> x in noted)
    ensures noted == [1] ==> MergedSet(img, relative) == {1}
    ensures noted == [1, 0] ==> MergedSet(img, relative) == {0, 1}
  {
    assert noted == [1] ==> forall x: nat :: x in noted <==> x == 1;
    assert noted == [1, 0] ==> forall x: nat :: x in noted <==> x == 0 || x == 1;
  }

  lemma AnswerOf(img: Image, i: nat, m: Method, own: Lists)
    requires AnswersAs(img, i, m)
    ensures Has(img.cats, i, false, 7) && Answer(img.cats, Some(i), own, false, 7) == Some(m)
  {
  }

  /** In an image of two attached categories with selector 7, the first one answers once
      the second merged alone, or both merged the second first. */
  lemma FirstAnswers(
    img: Image, relative: bool, r: Image, merged: set<nat>, m: Method, m': Method)
    requires IsResult(img, relative, r) && 0 < |img.classes| && Merges(img, 0, relative)
    requires merged == MergedSet(img, relative)
    requires AnswersAs(img, 0, m) && AnswersAs(img, 1, m') && Attached(img.cats, Slots(img.lists), 0) == [0, 1]
    requires merged == {1} || (merged == {0, 1} && Noted(img.cats, Slots(img.lists), 0) == [1, 0])
    ensures FindsIn(img, 0, false, 7) == Some(m') && FindsIn(r, 0, false, 7) == Some(m)
  {
    AnswerOf(img, 0, m, img.classes[0].own);
    AnswerOf(img, 1, m', img.classes[0].own);
    TwoAttached(img, merged);
    AnsweredBy(img, relative, r, 0, false, 7);
  }

  /** What merged of the two, and which one answers. */
  lemma TwoMerged(img: Image, relative: bool, r: Image, noted: seq<nat>, m: Method, m': Method)
    requires IsResult(img, relative, r) && |img.classes| == 1 && |img.cats| == 2 && Merges(img, 0, relative)
    requires noted == Noted(img.cats, Slots(img.lists), 0) && (noted == [1] || noted == [1, 0])
    requires AnswersAs(img, 0, m) && AnswersAs(img, 1, m') && Attached(img.cats, Slots(img.lists), 0) == [0, 1]
    ensures noted == [1] ==> MergedSet(img, relative) == {1}
    ensures noted == [1, 0] ==> MergedSet(img, relative) == {0, 1}
    ensures FindsIn(img, 0, false, 7) == Some(m') && FindsIn(r, 0, false, 7) == Some(m)
  {
    TwoMergedSet(img, relative, noted);
    FirstAnswers(img, relative, r, MergedSet(img, relative), m, m');
  }

  lemma TwoMergedSet(img: Image, relative: bool, noted: seq<nat>)
    requires |img.classes| == 1 && |img.cats| == 2 && Merges(img, 0, relative)
    requires noted == Noted(img.cats, Slots(img.lists), 0) && (noted == [1] || noted == [1, 0])
    ensures noted == [1] ==> MergedSet(img, relative) == {1}
    ensures noted == [1, 0] ==> MergedSet(img, relative) == {0, 1}
  {
    forall x: nat | x < 2 ensures IsMergedCat(img, relative, x) <==> x in noted {
      OneClassMerged(img, relative, x);
    }
    MergedAre(img, relative, noted);
  }

  /** A category too short to merge, listed before one that merges, with a selector in
      common: it now comes before the other's method. */
  lemma ShortCategoryShadows(relative: bool, r: Image)
    requires IsResult(ShortFirst(), relative, r)
    ensures MergedSet(ShortFirst(), relative) == {1}
    ensures FindsIn(ShortFirst(), 0, false, 7) == Some(Method(7, 11, true))
    ensures FindsIn(r, 0, false, 7) == Some(Method(7, 10, true))
  {
    var img := ShortFirst();
    ShortLists(img);
    TwoArePlain(false, [InOrder()]);
    TheyMerge(img, relative);
    TwoAnswer(false, [InOrder()]);
    TwoMerged(img, relative, r, [1], Method(7, 10, true), Method(7, 11, true));
  }

  /** A +load category whose __objc_nlcatlist entry is read before its object's
      __objc_catlist is noted first: the merged list has the categories in another order
      than the runtime attaches them in, and the other one's method is found. */
  lemma NonlazyFirstReorders(relative: bool, r: Image)
    requires IsResult(NonlazyFirst(), relative, r)
    ensures MergedSet(NonlazyFirst(), relative) == {0, 1}
    ensures FindsIn(NonlazyFirst(), 0, false, 7) == Some(Method(7, 11, true))
    ensures FindsIn(r, 0, false, 7) == Some(Method(7, 10, true))
  {
    var img := NonlazyFirst();
    NonlazyLists(img);
    OneLoad(img);
    TwoArePlain(true, img.lists);
    TheyMerge(img, relative);
    TwoAnswer(true, img.lists);
    TwoMerged(img, relative, r, [1, 0], Method(7, 10, true), Method(7, 11, true));
  }

  lemma OneLoad(img: Image)
    requires img == NonlazyFirst()
    ensures !LoadsMeet(img.classes[0], [1, 0], LoadSet(img))
  {
    assert !Loads(img, 0);
  }

  /** The pass run on both images: in each, selector 7 then finds another method. */
  method MergeBoth(relative: bool) returns (short: Image, reordered: Image)
    ensures |short.classes| == 1 && FindsIn(short, 0, false, 7) != FindsIn(ShortFirst(), 0, false, 7)
    ensures |reordered.classes| == 1 && FindsIn(reordered, 0, false, 7) != FindsIn(NonlazyFirst(), 0, false, 7)
  {
    ShortSlots();
    NonlazySlots();
    short := MergeCategories(ShortFirst(), relative);
    ShortCategoryShadows(relative, short);
    reordered := MergeCategories(NonlazyFirst(), relative);
    NonlazyFirstReorders(relative, reordered);
  }
}
