/** Category merging over a whole image (objc.rs, merge_objc_categories): which
    categories merge, what is left of the category lists, and which method a message
    finds before and after. */
module ObjcCategories {
  import opened Options
  import opened ObjcMerge

  /** A category: the class it extends, if defined in the image, and whether its record
      starts a subsection, is long enough and has a readable name. */
  datatype Category = Category(cls: Option<nat>, ok: bool, lists: Lists)

  datatype Class = Class(own: Lists, nonlazy: bool, rewritable: bool)

  /** A subsection of __objc_catlist, or if nonlazy of __objc_nlcatlist; each entry
      names a category, or nothing in the image. */
  datatype CatList = CatList(nonlazy: bool, entries: seq<Option<nat>>)

  datatype Image = Image(cats: seq<Category>, lists: seq<CatList>, classes: seq<Class>) {
    ghost predicate Valid() {
      && (forall i :: 0 <= i < |cats| ==> cats[i].lists.Ok() && (cats[i].cls.Some? ==> cats[i].cls.value < |classes|))
      && (forall c :: 0 <= c < |classes| ==> classes[c].own.Ok())
      && forall k, e :: 0 <= k < |lists| && e in lists[k].entries && e.Some? ==> e.value < |cats|
    }
  }

  // ---- Finding categories ----

  /** A list entry with the list's kind. */
  datatype Slot = Slot(nonlazy: bool, cat: Option<nat>)

  function SlotsOf(list: CatList): seq<Slot> {
    seq(|list.entries|, i requires 0 <= i < |list.entries| => Slot(list.nonlazy, list.entries[i]))
  }

  function Slots(lists: seq<CatList>): seq<Slot> {
    if lists == [] then [] else Slots(lists[..|lists| - 1]) + SlotsOf(lists[|lists| - 1])
  }

  /** The slot's category can merge into class c. */
  predicate CanMerge(cats: seq<Category>, s: Slot, c: nat) {
    s.cat.Some? && s.cat.value < |cats| && cats[s.cat.value].ok && cats[s.cat.value].cls == Some(c)
  }

  /** The categories noted on class c, in the order first listed. */
  function Noted(cats: seq<Category>, slots: seq<Slot>, c: nat): seq<nat> {
    if slots == [] then []
    else
      var s, prev := slots[|slots| - 1], Noted(cats, slots[..|slots| - 1], c);
      if CanMerge(cats, s, c) && s.cat.value !in prev then prev + [s.cat.value] else prev
  }

  lemma {:induction false} NotedAre(cats: seq<Category>, slots: seq<Slot>, c: nat, x: nat)
    ensures x in Noted(cats, slots, c)
            <==> exists k :: 0 <= k < |slots| && CanMerge(cats, slots[k], c) && slots[k].cat == Some(x)
  {
    if slots != [] {
      var n := |slots| - 1;
      NotedAre(cats, slots[..n], c, x);
      assert forall k :: 0 <= k < n ==> slots[..n][k] == slots[k];
    }
  }

  /** The category x is mentioned before y is. */
  ghost predicate MentionedBefore(slots: seq<Slot>, x: nat, y: nat) {
    exists k: nat :: k < |slots| && slots[k].cat == Some(x) && forall j :: 0 <= j <= k ==> slots[j].cat != Some(y)
  }

  /** They are in the order of their first mention. */
  lemma {:induction false} NotedInOrder(cats: seq<Category>, slots: seq<Slot>, c: nat, i: nat, j: nat)
    requires i < j < |Noted(cats, slots, c)|
    ensures MentionedBefore(slots, Noted(cats, slots, c)[i], Noted(cats, slots, c)[j])
  {
    var n := |slots| - 1;
    var front := slots[..n];
    var prev := Noted(cats, front, c);
    var x, y := Noted(cats, slots, c)[i], Noted(cats, slots, c)[j];
    if j < |prev| {
      NotedInOrder(cats, front, c, i, j);
      var k: nat :| k < n && front[k].cat == Some(x) && forall l :: 0 <= l <= k ==> front[l].cat != Some(y);
      assert slots[k].cat == Some(x) && forall l :: 0 <= l <= k ==> slots[l].cat == front[l].cat;
    } else {
      NotedAre(cats, front, c, x);
      NotedAre(cats, front, c, y);
      var k :| 0 <= k < n && CanMerge(cats, front[k], c) && front[k].cat == Some(x);
      forall l | 0 <= l <= k ensures slots[l].cat != Some(y) {
        assert front[l] == slots[l];
        assert CanMerge(cats, front[l], c) || slots[l].cat != Some(y);
      }
      assert slots[k].cat == Some(x);
    }
  }

  predicate ListsNonlazy(img: Image, nonlazy: bool, entries: seq<Option<nat>>, x: nat) {
    nonlazy && Some(x) in entries && x < |img.cats| && img.cats[x].ok && img.cats[x].cls.Some?
  }

  /** One category list, entry by entry. */
  method FindInList(img: Image, list: CatList, ghost before: seq<Slot>, of0: seq<seq<nat>>, nonlazy0: set<nat>)
    returns (of: seq<seq<nat>>, nonlazy: set<nat>)
    requires img.Valid() && forall e :: e in list.entries && e.Some? ==> e.value < |img.cats|
    requires AreNoted(img, before, of0)
    ensures AreNoted(img, before + SlotsOf(list), of)
    ensures forall x :: x in nonlazy <==> x in nonlazy0 || ListsNonlazy(img, list.nonlazy, list.entries, x)
  {
    of, nonlazy := of0, nonlazy0;
    assert before + SlotsOf(list)[..0] == before;
    for i := 0 to |list.entries|
      invariant AreNoted(img, before + SlotsOf(list)[..i], of)
      invariant forall x :: x in nonlazy <==> x in nonlazy0 || ListsNonlazy(img, list.nonlazy, list.entries[..i], x)
    {
      var e := list.entries[i];
      assert e in list.entries;
      ghost var slots := before + SlotsOf(list)[..i];
      assert before + SlotsOf(list)[..i + 1] == slots + [Slot(list.nonlazy, e)];
      assert list.entries[..i + 1] == list.entries[..i] + [e];
      of := NoteEntry(img, Slot(list.nonlazy, e), slots, of);
      if list.nonlazy && e.Some? && img.cats[e.value].ok && img.cats[e.value].cls.Some? {
        nonlazy := nonlazy + {e.value};
      }
    }
    assert SlotsOf(list)[..|list.entries|] == SlotsOf(list) && list.entries[..|list.entries|] == list.entries;
  }

  ghost predicate AreNoted(img: Image, slots: seq<Slot>, of: seq<seq<nat>>) {
    |of| == |img.classes| && forall c: nat :: c < |of| ==> of[c] == Noted(img.cats, slots, c)
  }

  /** An entry's category is noted on its class, unless it has been. */
  method NoteEntry(img: Image, s: Slot, ghost before: seq<Slot>, of0: seq<seq<nat>>) returns (of: seq<seq<nat>>)
    requires img.Valid() && (s.cat.Some? ==> s.cat.value < |img.cats|)
    requires AreNoted(img, before, of0)
    ensures AreNoted(img, before + [s], of)
  {
    of := of0;
    NotedPush(img.cats, before, s);
    if s.cat.Some? && img.cats[s.cat.value].ok && img.cats[s.cat.value].cls.Some? {
      var c := img.cats[s.cat.value].cls.value;
      if s.cat.value !in of[c] {
        of := of[c := of[c] + [s.cat.value]];
      }
    }
  }

  lemma NotedPush(cats: seq<Category>, slots: seq<Slot>, s: Slot)
    ensures forall c: nat :: Noted(cats, slots + [s], c) ==
              var noted := Noted(cats, slots, c);
              noted + if CanMerge(cats, s, c) && s.cat.value !in noted then [s.cat.value] else []
  {
    assert (slots + [s])[..|slots|] == slots;
  }

  /** find_categories: the categories of each class, and those with a +load. */
  method FindCategories(img: Image) returns (of: seq<seq<nat>>, nonlazy: set<nat>)
    requires img.Valid()
    ensures |of| == |img.classes| && forall c: nat :: c < |of| ==> of[c] == Noted(img.cats, Slots(img.lists), c)
    ensures forall x :: x in nonlazy <==>
              exists k :: 0 <= k < |img.lists| && ListsNonlazy(img, img.lists[k].nonlazy, img.lists[k].entries, x)
  {
    of, nonlazy := seq(|img.classes|, _ => []), {};
    for k := 0 to |img.lists|
      invariant |of| == |img.classes|
      invariant forall c: nat :: c < |of| ==> of[c] == Noted(img.cats, Slots(img.lists[..k]), c)
      invariant forall x :: x in nonlazy <==>
                  exists j :: 0 <= j < k && ListsNonlazy(img, img.lists[j].nonlazy, img.lists[j].entries, x)
    {
      assert img.lists[..k + 1][..k] == img.lists[..k];
      of, nonlazy := FindInList(img, img.lists[k], Slots(img.lists[..k]), of, nonlazy);
    }
    assert img.lists[..|img.lists|] == img.lists;
  }

  // ---- What the runtime sees ----

  /** The categories the runtime attaches to class c, in the order it does: those
      __objc_catlist lists. */
  function Attached(cats: seq<Category>, slots: seq<Slot>, c: nat): seq<nat> {
    if slots == [] then []
    else
      var s, prev := slots[|slots| - 1], Attached(cats, slots[..|slots| - 1], c);
      if IsOf(cats, s, c) then prev + [s.cat.value] else prev
  }

  predicate IsOf(cats: seq<Category>, s: Slot, c: nat) {
    !s.nonlazy && s.cat.Some? && s.cat.value < |cats| && cats[s.cat.value].cls == Some(c)
  }

  function MethodsOf(l: Lists, meta: bool): seq<Method> { if meta then l.cmethods.items else l.imethods.items }

  function PartsOf(cats: seq<Category>, ids: seq<nat>, meta: bool): seq<seq<Method>>
    requires forall i :: 0 <= i < |ids| ==> ids[i] < |cats|
  {
    seq(|ids|, i requires 0 <= i < |ids| => MethodsOf(cats[ids[i]].lists, meta))
  }

  /** The method a message to class c (or its metaclass) finds: attached categories from
      the last to the first, then the class. */
  function Finds(cats: seq<Category>, attached: seq<nat>, own: Lists, meta: bool, sel: nat): Option<Method>
    requires forall i :: 0 <= i < |attached| ==> attached[i] < |cats|
  {
    var r := Search(PartsOf(cats, attached, meta), sel);
    if r.Some? then r else Lookup(MethodsOf(own, meta), sel)
  }

  // ---- After merging ----

  function Without(ids: seq<nat>, merged: set<nat>): seq<nat> {
    if ids == [] then []
    else Without(ids[..|ids| - 1], merged) + if ids[|ids| - 1] in merged then [] else [ids[|ids| - 1]]
  }

  function Only(ids: seq<nat>, merged: set<nat>): seq<nat> {
    if ids == [] then []
    else Only(ids[..|ids| - 1], merged) + if ids[|ids| - 1] in merged then [ids[|ids| - 1]] else []
  }

  predicate Gone(e: Option<nat>, merged: set<nat>) { e.Some? && e.value in merged }

  function Survivors(entries: seq<Option<nat>>, merged: set<nat>): seq<Option<nat>> {
    if entries == [] then []
    else
      var e := entries[|entries| - 1];
      Survivors(entries[..|entries| - 1], merged) + if Gone(e, merged) then [] else [e]
  }

  /** The places of the entries that did not merge, in order. */
  ghost predicate AreLeft(entries: seq<Option<nat>>, merged: set<nat>, from: seq<nat>) {
    && (forall i, j :: 0 <= i < j < |from| ==> from[i] < from[j])
    && (forall i :: 0 <= i < |from| ==> from[i] < |entries|)
    && forall k: nat :: k in from <==> k < |entries| && (entries[k].Some? ==> entries[k].value !in merged)
  }

  ghost predicate TakenFrom(entries: seq<Option<nat>>, from: seq<nat>, left: seq<Option<nat>>) {
    |left| == |from| && forall i :: 0 <= i < |from| ==> from[i] < |entries| && left[i] == entries[from[i]]
  }

  lemma LeftPush(entries: seq<Option<nat>>, merged: set<nat>, from: seq<nat>, e: Option<nat>)
    requires AreLeft(entries, merged, from)
    ensures AreLeft(entries + [e], merged, if Gone(e, merged) then from else from + [|entries|])
  {
    assert forall k: nat :: k in from + [|entries|] <==> k in from || k == |entries|;
  }

  lemma TakenPush(entries: seq<Option<nat>>, from: seq<nat>, left: seq<Option<nat>>, e: Option<nat>)
    requires TakenFrom(entries, from, left)
    ensures TakenFrom(entries + [e], from, left) && TakenFrom(entries + [e], from + [|entries|], left + [e])
  {
  }

  /** What a rebuilt list holds: exactly the entries that did not merge, in order. */
  lemma {:induction false} SurvivorsAreLeft(entries: seq<Option<nat>>, merged: set<nat>) returns (from: seq<nat>)
    ensures AreLeft(entries, merged, from) && TakenFrom(entries, from, Survivors(entries, merged))
  {
    from := [];
    if entries != [] {
      var n := |entries| - 1;
      var front := entries[..n];
      from := SurvivorsAreLeft(front, merged);
      assert entries == front + [entries[n]];
      LeftPush(front, merged, from, entries[n]);
      TakenPush(front, from, Survivors(front, merged), entries[n]);
      if !Gone(entries[n], merged) {
        from := from + [n];
      }
    }
  }

  /** rebuild_category_lists: every list keeps its place, with the entries that did not
      merge, in order. */
  method RebuildLists(lists: seq<CatList>, merged: set<nat>) returns (r: seq<CatList>)
    ensures |r| == |lists|
    ensures forall k :: 0 <= k < |lists| ==> r[k] == CatList(lists[k].nonlazy, Survivors(lists[k].entries, merged))
  {
    r := [];
    for k := 0 to |lists|
      invariant |r| == k
      invariant forall j :: 0 <= j < k ==> r[j] == CatList(lists[j].nonlazy, Survivors(lists[j].entries, merged))
    {
      var survivors, any := [], false;
      for i := 0 to |lists[k].entries|
        invariant survivors == Survivors(lists[k].entries[..i], merged) && (!any ==> survivors == lists[k].entries[..i])
      {
        assert lists[k].entries[..i + 1][..i] == lists[k].entries[..i];
        if Gone(lists[k].entries[i], merged) {
          any := true;
        } else {
          survivors := survivors + [lists[k].entries[i]];
        }
      }
      assert lists[k].entries[..|lists[k].entries|] == lists[k].entries;
      r := r + [if any then lists[k].(entries := survivors) else lists[k]];
    }
  }

  /** What is attached after the lists are rebuilt: what was, less the merged ones. */
  lemma {:induction false} RebuiltAttached(
    cats: seq<Category>, lists: seq<CatList>, r: seq<CatList>, merged: set<nat>, c: nat)
    requires |r| == |lists|
    requires forall k :: 0 <= k < |lists| ==> r[k] == CatList(lists[k].nonlazy, Survivors(lists[k].entries, merged))
    ensures Attached(cats, Slots(r), c) == Without(Attached(cats, Slots(lists), c), merged)
  {
    if lists != [] {
      var n := |lists| - 1;
      RebuiltAttached(cats, lists[..n], r[..n], merged, c);
      AttachedJoin(cats, Slots(lists[..n]), SlotsOf(lists[n]), c);
      AttachedJoin(cats, Slots(r[..n]), SlotsOf(r[n]), c);
      OneListAttached(cats, lists[n], r[n], merged, c);
      WithoutJoin(Attached(cats, Slots(lists[..n]), c), Attached(cats, SlotsOf(lists[n]), c), merged);
    }
  }

  lemma {:induction false} AttachedJoin(cats: seq<Category>, a: seq<Slot>, b: seq<Slot>, c: nat)
    ensures Attached(cats, a + b, c) == Attached(cats, a, c) + Attached(cats, b, c)
    decreases |b|
  {
    if b == [] {
      assert a + b == a;
    } else {
      AttachedJoin(cats, a, b[..|b| - 1], c);
      assert (a + b)[..|a + b| - 1] == a + b[..|b| - 1];
    }
  }

  lemma {:induction false} WithoutJoin(a: seq<nat>, b: seq<nat>, merged: set<nat>)
    ensures Without(a + b, merged) == Without(a, merged) + Without(b, merged)
    decreases |b|
  {
    if b == [] {
      assert a + b == a;
    } else {
      WithoutJoin(a, b[..|b| - 1], merged);
      assert (a + b)[..|a + b| - 1] == a + b[..|b| - 1];
    }
  }

  lemma {:induction false} OneListAttached(cats: seq<Category>, list: CatList, r: CatList, merged: set<nat>, c: nat)
    requires r == CatList(list.nonlazy, Survivors(list.entries, merged))
    ensures Attached(cats, SlotsOf(r), c) == Without(Attached(cats, SlotsOf(list), c), merged)
    decreases |list.entries|
  {
    if list.entries != [] {
      var n := |list.entries| - 1;
      var e := list.entries[n];
      var front := CatList(list.nonlazy, list.entries[..n]);
      var rfront := CatList(list.nonlazy, Survivors(front.entries, merged));
      OneListAttached(cats, front, rfront, merged, c);
      assert SlotsOf(list) == SlotsOf(front) + [Slot(list.nonlazy, e)];
      assert SlotsOf(r) == SlotsOf(rfront) + if Gone(e, merged) then [] else [Slot(list.nonlazy, e)];
      OneSlotAttached(cats, SlotsOf(front), SlotsOf(rfront), Slot(list.nonlazy, e), merged, c);
    }
  }

  lemma OneSlotAttached(cats: seq<Category>, slots: seq<Slot>, left: seq<Slot>, s: Slot, merged: set<nat>, c: nat)
    requires Attached(cats, left, c) == Without(Attached(cats, slots, c), merged)
    ensures Attached(cats, left + if Gone(s.cat, merged) then [] else [s], c) ==
            Without(Attached(cats, slots + [s], c), merged)
  {
    AttachedPush(cats, slots, s, c);
    AttachedPush(cats, left, s, c);
    assert left + [] == left;
    if s.cat.Some? {
      WithoutPush(Attached(cats, slots, c), s.cat.value, merged);
    }
  }

  lemma AttachedPush(cats: seq<Category>, slots: seq<Slot>, s: Slot, c: nat)
    ensures Attached(cats, slots + [s], c) ==
            if IsOf(cats, s, c) then Attached(cats, slots, c) + [s.cat.value] else Attached(cats, slots, c)
  {
    assert (slots + [s])[..|slots|] == slots;
  }

  lemma WithoutPush(ids: seq<nat>, x: nat, merged: set<nat>)
    ensures Without(ids + [x], merged) == if x in merged then Without(ids, merged) else Without(ids, merged) + [x]
  {
    assert (ids + [x])[..|ids|] == ids;
  }
}
