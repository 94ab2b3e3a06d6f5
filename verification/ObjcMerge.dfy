/** Merging a class's lists with its categories' (objc.rs, merge_lists). */
module ObjcMerge {
  import opened Options
  import opened Sequences

  /** `local`: every pointer of the method is into the image, or null. */
  datatype Method = Method(sel: nat, imp: nat, local: bool)

  /** A protocol, or a property. */
  datatype Item = Item(id: nat, local: bool)

  /** A list some record refers to. The runtime finds `items` there; the linker reads
      them only if the list is in a shape it knows. No list holds no items. */
  datatype List<T> = List(present: bool, readable: bool, items: seq<T>) {
    predicate Ok() { present || items == [] }

    function Read(): Option<seq<T>> {
      if !present then Some([]) else if readable then Some(items) else None
    }
  }

  datatype Lists = Lists(
    imethods: List<Method>, cmethods: List<Method>, protocols: List<Item>, iprops: List<Item>, cprops: List<Item>)
  {
    predicate Ok() { imethods.Ok() && cmethods.Ok() && protocols.Ok() && iprops.Ok() && cprops.Ok() }

    predicate Readable() {
      imethods.Read().Some? && cmethods.Read().Some? && protocols.Read().Some? && iprops.Read().Some?
      && cprops.Read().Some?
    }
  }

  /** Each None where no category has a list of that kind. */
  datatype Merged = Merged(
    imethods: Option<seq<Method>>, cmethods: Option<seq<Method>>, protocols: Option<seq<Item>>,
    iprops: Option<seq<Item>>, cprops: Option<seq<Item>>)

  // ---- What the merged lists are ----

  /** The parts, last one first. */
  function Backward<T>(parts: seq<seq<T>>): seq<T> {
    if parts == [] then [] else parts[|parts| - 1] + Backward(parts[..|parts| - 1])
  }

  function IMethods(cats: seq<Lists>): seq<seq<Method>> {
    seq(|cats|, i requires 0 <= i < |cats| => cats[i].imethods.items)
  }

  function CMethods(cats: seq<Lists>): seq<seq<Method>> {
    seq(|cats|, i requires 0 <= i < |cats| => cats[i].cmethods.items)
  }

  function Protocols(cats: seq<Lists>): seq<seq<Item>> {
    seq(|cats|, i requires 0 <= i < |cats| => cats[i].protocols.items)
  }

  function IProps(cats: seq<Lists>): seq<seq<Item>> { seq(|cats|, i requires 0 <= i < |cats| => cats[i].iprops.items) }

  function CProps(cats: seq<Lists>): seq<seq<Item>> { seq(|cats|, i requires 0 <= i < |cats| => cats[i].cprops.items) }

  predicate LocalMethods(ms: seq<Method>) { forall m :: m in ms ==> m.local }

  predicate LocalItems(xs: seq<Item>) { forall x :: x in xs ==> x.local }

  /** Each kind of list whole: methods and protocols from the category attached last to
      the first, properties from the first to the last, the class's own at the end. */
  function Whole(own: Lists, cats: seq<Lists>): Lists {
    Lists(
      List(true, true, Backward(IMethods(cats)) + own.imethods.items),
      List(true, true, Backward(CMethods(cats)) + own.cmethods.items),
      List(true, true, Backward(Protocols(cats)) + own.protocols.items),
      List(true, true, Flat(IProps(cats)) + own.iprops.items),
      List(true, true, Flat(CProps(cats)) + own.cprops.items))
  }

  /** The lists can go into synthesized records. */
  predicate AllLocal(w: Lists, relative: bool) {
    && (relative || (LocalMethods(w.imethods.items) && LocalMethods(w.cmethods.items)))
    && LocalItems(w.protocols.items) && LocalItems(w.iprops.items) && LocalItems(w.cprops.items)
  }

  predicate ReadableBackward(c: Lists) {
    c.imethods.Read().Some? && c.cmethods.Read().Some? && c.protocols.Read().Some?
  }

  predicate ReadableForward(c: Lists) { c.iprops.Read().Some? && c.cprops.Read().Some? }

  lemma {:induction false} BackwardPrepend<T>(first: seq<T>, rest: seq<seq<T>>)
    ensures Backward([first] + rest) == Backward(rest) + first
  {
    var all, n := [first] + rest, |rest|;
    if rest == [] {
      assert all == [first] && all[..0] == [];
    } else {
      BackwardPrepend(first, rest[..n - 1]);
      assert all[..n] == [first] + rest[..n - 1];
    }
  }

  lemma TakeLast<T>(parts: seq<seq<T>>, i: nat)
    requires i < |parts|
    ensures Backward(parts[i..]) == Backward(parts[i + 1..]) + parts[i]
  {
    BackwardPrepend(parts[i], parts[i + 1..]);
    assert parts[i..] == [parts[i]] + parts[i + 1..];
  }

  lemma TakeNext<T>(parts: seq<seq<T>>, i: nat)
    requires i < |parts|
    ensures Flat(parts[..i + 1]) == Flat(parts[..i]) + parts[i]
  {
    assert parts[..i + 1][..i] == parts[..i];
  }

  lemma Ends<T>(parts: seq<seq<T>>)
    ensures parts[|parts|..] == [] && parts[0..] == parts && parts[..|parts|] == parts && parts[..0] == []
  {
  }

  /** merge_lists, its loop from the last category to the first. */
  method GatherBackward(cats: seq<Lists>)
    returns (ok: bool, imethods: seq<Method>, cmethods: seq<Method>, protocols: seq<Item>)
    requires forall i :: 0 <= i < |cats| ==> cats[i].Ok()
    ensures ok <==> forall i :: 0 <= i < |cats| ==> ReadableBackward(cats[i])
    ensures ok ==> imethods == Backward(IMethods(cats)) && cmethods == Backward(CMethods(cats))
    ensures ok ==> protocols == Backward(Protocols(cats))
  {
    imethods, cmethods, protocols := [], [], [];
    var i := |cats|;
    ghost var ims, cms, ps := IMethods(cats), CMethods(cats), Protocols(cats);
    Ends(ims);
    Ends(cms);
    Ends(ps);
    while i > 0
      invariant 0 <= i <= |cats| && forall j :: i <= j < |cats| ==> ReadableBackward(cats[j])
      invariant imethods == Backward(ims[i..]) && cmethods == Backward(cms[i..]) && protocols == Backward(ps[i..])
    {
      i := i - 1;
      var c := cats[i];
      if !ReadableBackward(c) {
        return false, [], [], [];
      }
      TakeLast(ims, i);
      TakeLast(cms, i);
      TakeLast(ps, i);
      imethods := imethods + c.imethods.Read().value;
      cmethods := cmethods + c.cmethods.Read().value;
      protocols := protocols + c.protocols.Read().value;
    }
    ok := true;
  }

  /** And the one from the first to the last. */
  method GatherForward(cats: seq<Lists>) returns (ok: bool, iprops: seq<Item>, cprops: seq<Item>)
    requires forall i :: 0 <= i < |cats| ==> cats[i].Ok()
    ensures ok <==> forall i :: 0 <= i < |cats| ==> ReadableForward(cats[i])
    ensures ok ==> iprops == Flat(IProps(cats)) && cprops == Flat(CProps(cats))
  {
    iprops, cprops := [], [];
    Ends(IProps(cats));
    Ends(CProps(cats));
    for k := 0 to |cats|
      invariant forall j :: 0 <= j < k ==> ReadableForward(cats[j])
      invariant iprops == Flat(IProps(cats)[..k]) && cprops == Flat(CProps(cats)[..k])
    {
      var c := cats[k];
      if !ReadableForward(c) {
        return false, [], [];
      }
      TakeNext(IProps(cats), k);
      TakeNext(CProps(cats), k);
      iprops := iprops + c.iprops.Read().value;
      cprops := cprops + c.cprops.Read().value;
    }
    ok := true;
  }

  /** merge_lists: all or nothing. */
  method MergeLists(own: Lists, cats: seq<Lists>, relative: bool) returns (r: Option<Merged>)
    requires own.Ok() && forall i :: 0 <= i < |cats| ==> cats[i].Ok()
    ensures r.Some? <==> AllJoin(own, cats, relative)
    ensures r.Some? ==> IsMerged(own, cats, r.value) && InPlace(own, cats, Replaced(own, r.value))
  {
    var ok, imethods, cmethods, protocols := GatherBackward(cats);
    var ok', iprops, cprops := GatherForward(cats);
    ReadableBoth(cats);
    JoinIffLocal(own, cats, relative);
    if !ok || !ok' || !own.Readable() {
      return None;
    }
    var whole := Lists(
      List(true, true, imethods + own.imethods.items), List(true, true, cmethods + own.cmethods.items),
      List(true, true, protocols + own.protocols.items),
      List(true, true, iprops + own.iprops.items), List(true, true, cprops + own.cprops.items));
    assert whole == Whole(own, cats);
    if !AllLocal(whole, relative) {
      return None;
    }
    r := Some(Picked(cats, whole));
    PickedIsMerged(own, cats);
    WholeInPlace(own, cats, Replaced(own, r.value));
  }

  // ---- What merges, and where it goes ----

  /** Every list there can be read, and what goes into a synthesized record is local: all
      but the methods, if those go into relative lists. */
  ghost predicate CanJoin(l: Lists, relative: bool) {
    && (l.imethods.present ==> l.imethods.readable) && (l.cmethods.present ==> l.cmethods.readable)
    && (l.protocols.present ==> l.protocols.readable)
    && (l.iprops.present ==> l.iprops.readable) && (l.cprops.present ==> l.cprops.readable)
    && (relative || forall m :: m in l.imethods.items || m in l.cmethods.items ==> m.local)
    && forall x :: x in l.protocols.items || x in l.iprops.items || x in l.cprops.items ==> x.local
  }

  /** In the class's own list, or a category's. */
  ghost predicate Among<T(!new)>(x: T, own: seq<T>, cats: seq<Lists>, items: Lists -> seq<T>) {
    x in own || exists i :: 0 <= i < |cats| && x in items(cats[i])
  }

  ghost predicate ArePartsOf<T>(parts: seq<seq<T>>, cats: seq<Lists>, items: Lists -> seq<T>) {
    |parts| == |cats| && forall i :: 0 <= i < |cats| ==> parts[i] == items(cats[i])
  }

  lemma {:induction false} BackwardHas<T(!new)>(
    parts: seq<seq<T>>, own: seq<T>, cats: seq<Lists>, items: Lists -> seq<T>, x: T)
    requires ArePartsOf(parts, cats, items)
    ensures x in Backward(parts) + own <==> Among(x, own, cats, items)
  {
    if parts != [] {
      var n := |parts| - 1;
      BackwardHas(parts[..n], own, cats[..n], items, x);
      assert cats == cats[..n] + [cats[n]];
      if Among(x, own, cats[..n], items) && x !in own {
        var i :| 0 <= i < n && x in items(cats[..n][i]);
        assert x in items(cats[i]);
      }
    }
  }

  lemma ForwardHas<T(!new)>(parts: seq<seq<T>>, own: seq<T>, cats: seq<Lists>, items: Lists -> seq<T>, x: T)
    requires ArePartsOf(parts, cats, items)
    ensures x in Flat(parts) + own <==> Among(x, own, cats, items)
  {
    FlatHas(parts, x);
  }

  lemma MethodsHas(own: Lists, cats: seq<Lists>, m: Method)
    ensures m in Whole(own, cats).imethods.items <==>
            Among(m, own.imethods.items, cats, (l: Lists) => l.imethods.items)
    ensures m in Whole(own, cats).cmethods.items <==>
            Among(m, own.cmethods.items, cats, (l: Lists) => l.cmethods.items)
  {
    BackwardHas(IMethods(cats), own.imethods.items, cats, (l: Lists) => l.imethods.items, m);
    BackwardHas(CMethods(cats), own.cmethods.items, cats, (l: Lists) => l.cmethods.items, m);
  }

  lemma ItemsHas(own: Lists, cats: seq<Lists>, x: Item)
    ensures x in Whole(own, cats).protocols.items <==>
            Among(x, own.protocols.items, cats, (l: Lists) => l.protocols.items)
    ensures x in Whole(own, cats).iprops.items <==>
            Among(x, own.iprops.items, cats, (l: Lists) => l.iprops.items)
    ensures x in Whole(own, cats).cprops.items <==>
            Among(x, own.cprops.items, cats, (l: Lists) => l.cprops.items)
  {
    BackwardHas(Protocols(cats), own.protocols.items, cats, (l: Lists) => l.protocols.items, x);
    ForwardHas(IProps(cats), own.iprops.items, cats, (l: Lists) => l.iprops.items, x);
    ForwardHas(CProps(cats), own.cprops.items, cats, (l: Lists) => l.cprops.items, x);
  }

  ghost predicate AllJoin(own: Lists, cats: seq<Lists>, relative: bool) {
    CanJoin(own, relative) && forall i :: 0 <= i < |cats| ==> CanJoin(cats[i], relative)
  }

  lemma MethodsLocal(own: Lists, cats: seq<Lists>)
    ensures var w := Whole(own, cats);
            LocalMethods(w.imethods.items) && LocalMethods(w.cmethods.items) <==>
            LocalMethods(own.imethods.items) && LocalMethods(own.cmethods.items)
            && forall i :: 0 <= i < |cats| ==>
                 LocalMethods(cats[i].imethods.items) && LocalMethods(cats[i].cmethods.items)
  {
    var w := Whole(own, cats);
    forall m: Method
      ensures m in w.imethods.items <==> Among(m, own.imethods.items, cats, (l: Lists) => l.imethods.items)
      ensures m in w.cmethods.items <==> Among(m, own.cmethods.items, cats, (l: Lists) => l.cmethods.items)
    {
      MethodsHas(own, cats, m);
    }
  }

  lemma ItemsLocal(own: Lists, cats: seq<Lists>)
    ensures var w := Whole(own, cats);
            LocalItems(w.protocols.items) && LocalItems(w.iprops.items) && LocalItems(w.cprops.items) <==>
            LocalItems(own.protocols.items) && LocalItems(own.iprops.items) && LocalItems(own.cprops.items)
            && forall i :: 0 <= i < |cats| ==>
                 LocalItems(cats[i].protocols.items) && LocalItems(cats[i].iprops.items)
                 && LocalItems(cats[i].cprops.items)
  {
    var w := Whole(own, cats);
    forall x: Item
      ensures x in w.protocols.items <==> Among(x, own.protocols.items, cats, (l: Lists) => l.protocols.items)
      ensures x in w.iprops.items <==> Among(x, own.iprops.items, cats, (l: Lists) => l.iprops.items)
      ensures x in w.cprops.items <==> Among(x, own.cprops.items, cats, (l: Lists) => l.cprops.items)
    {
      ItemsHas(own, cats, x);
    }
  }

  /** Reading the lists and looking at the merged ones decides whether each can join. */
  lemma JoinIffLocal(own: Lists, cats: seq<Lists>, relative: bool)
    ensures AllJoin(own, cats, relative) <==>
            own.Readable() && (forall i :: 0 <= i < |cats| ==> cats[i].Readable())
            && AllLocal(Whole(own, cats), relative)
  {
    MethodsLocal(own, cats);
    ItemsLocal(own, cats);
  }

  ghost function Total<T>(cats: seq<Lists>, items: Lists -> seq<T>): nat {
    if cats == [] then 0 else Total(cats[..|cats| - 1], items) + |items(cats[|cats| - 1])|
  }

  ghost predicate Holds<T>(all: seq<T>, at: nat, x: T) { at < |all| && all[at] == x }

  /** The categories' items from the last category to the first, then the class's. */
  ghost predicate LastFirst<T(!new)>(all: seq<T>, own: seq<T>, cats: seq<Lists>, items: Lists -> seq<T>) {
    && |all| == Total(cats, items) + |own| && all[Total(cats, items)..] == own
    && forall i: nat, k: nat :: i < |cats| && k < |items(cats[i])| ==>
         Holds(all, Total(cats[i + 1..], items) + k, items(cats[i])[k])
  }

  /** From the first to the last, then the class's. */
  ghost predicate FirstFirst<T(!new)>(all: seq<T>, own: seq<T>, cats: seq<Lists>, items: Lists -> seq<T>) {
    && |all| == Total(cats, items) + |own| && all[Total(cats, items)..] == own
    && forall i: nat, k: nat :: i < |cats| && k < |items(cats[i])| ==>
         Holds(all, Total(cats[..i], items) + k, items(cats[i])[k])
  }

  /** Methods and protocols of the category attached last come first, properties in the
      order of the categories, the class's own at the end. */
  ghost predicate InPlace(own: Lists, cats: seq<Lists>, w: Lists) {
    && LastFirst(w.imethods.items, own.imethods.items, cats, (l: Lists) => l.imethods.items)
    && LastFirst(w.cmethods.items, own.cmethods.items, cats, (l: Lists) => l.cmethods.items)
    && LastFirst(w.protocols.items, own.protocols.items, cats, (l: Lists) => l.protocols.items)
    && FirstFirst(w.iprops.items, own.iprops.items, cats, (l: Lists) => l.iprops.items)
    && FirstFirst(w.cprops.items, own.cprops.items, cats, (l: Lists) => l.cprops.items)
  }

  lemma {:induction false} PlaceBackward<T>(
    parts: seq<seq<T>>, cats: seq<Lists>, items: Lists -> seq<T>, i: nat, k: nat)
    requires ArePartsOf(parts, cats, items)
    ensures |Backward(parts)| == Total(cats, items)
    ensures i < |cats| && k < |parts[i]| ==>
              var at := Total(cats[i + 1..], items) + k; at < |Backward(parts)| && Backward(parts)[at] == parts[i][k]
  {
    if cats != [] {
      var n := |cats| - 1;
      PlaceBackward(parts[..n], cats[..n], items, i, k);
      if i < n {
        assert cats[i + 1..][..n - i - 1] == cats[..n][i + 1..];
      }
    }
  }

  lemma {:induction false} PlaceForward<T>(
    parts: seq<seq<T>>, cats: seq<Lists>, items: Lists -> seq<T>, i: nat, k: nat)
    requires ArePartsOf(parts, cats, items)
    ensures |Flat(parts)| == Total(cats, items)
    ensures i < |cats| && k < |parts[i]| ==>
              var at := Total(cats[..i], items) + k; at < |Flat(parts)| && Flat(parts)[at] == parts[i][k]
  {
    if cats != [] {
      var n := |cats| - 1;
      PlaceForward(parts[..n], cats[..n], items, i, k);
      if i < n {
        assert cats[..i] == cats[..n][..i];
      } else if i == n {
        PlaceForward(parts[..n], cats[..n], items, 0, 0);
      }
    }
  }

  lemma AllBackward<T(!new)>(parts: seq<seq<T>>, own: seq<T>, cats: seq<Lists>, items: Lists -> seq<T>)
    requires ArePartsOf(parts, cats, items)
    ensures LastFirst(Backward(parts) + own, own, cats, items)
  {
    PlaceBackward(parts, cats, items, 0, 0);
    var all := Backward(parts) + own;
    assert all[Total(cats, items)..] == own;
    forall i: nat, k: nat | i < |cats| && k < |items(cats[i])|
      ensures Holds(all, Total(cats[i + 1..], items) + k, items(cats[i])[k])
    {
      PlaceBackward(parts, cats, items, i, k);
    }
  }

  lemma AllForward<T(!new)>(parts: seq<seq<T>>, own: seq<T>, cats: seq<Lists>, items: Lists -> seq<T>)
    requires ArePartsOf(parts, cats, items)
    ensures FirstFirst(Flat(parts) + own, own, cats, items)
  {
    PlaceForward(parts, cats, items, 0, 0);
    var all := Flat(parts) + own;
    assert all[Total(cats, items)..] == own;
    forall i: nat, k: nat | i < |cats| && k < |items(cats[i])|
      ensures Holds(all, Total(cats[..i], items) + k, items(cats[i])[k])
    {
      PlaceForward(parts, cats, items, i, k);
    }
  }

  lemma WholeInPlace(own: Lists, cats: seq<Lists>, w: Lists)
    requires SameItems(w, Whole(own, cats))
    ensures InPlace(own, cats, w)
  {
    AllBackward(IMethods(cats), own.imethods.items, cats, (l: Lists) => l.imethods.items);
    AllBackward(CMethods(cats), own.cmethods.items, cats, (l: Lists) => l.cmethods.items);
    AllBackward(Protocols(cats), own.protocols.items, cats, (l: Lists) => l.protocols.items);
    AllForward(IProps(cats), own.iprops.items, cats, (l: Lists) => l.iprops.items);
    AllForward(CProps(cats), own.cprops.items, cats, (l: Lists) => l.cprops.items);
  }

  lemma ReadableBoth(cats: seq<Lists>)
    ensures (forall i :: 0 <= i < |cats| ==> cats[i].Readable()) <==>
            (forall i :: 0 <= i < |cats| ==> ReadableBackward(cats[i]))
            && (forall i :: 0 <= i < |cats| ==> ReadableForward(cats[i]))
  {
  }

  predicate Any(cats: seq<Lists>, has: Lists -> bool) { exists i :: 0 <= i < |cats| && has(cats[i]) }

  function Picked(cats: seq<Lists>, whole: Lists): Merged {
    Merged(
      if Any(cats, (l: Lists) => l.imethods.present) then Some(whole.imethods.items) else None,
      if Any(cats, (l: Lists) => l.cmethods.present) then Some(whole.cmethods.items) else None,
      if Any(cats, (l: Lists) => l.protocols.present) then Some(whole.protocols.items) else None,
      if Any(cats, (l: Lists) => l.iprops.present) then Some(whole.iprops.items) else None,
      if Any(cats, (l: Lists) => l.cprops.present) then Some(whole.cprops.items) else None)
  }

  lemma {:induction false} NoneIsEmpty<T>(parts: seq<seq<T>>)
    ensures (forall i :: 0 <= i < |parts| ==> parts[i] == []) ==> Backward(parts) == [] && Flat(parts) == []
  {
    if parts != [] {
      NoneIsEmpty(parts[..|parts| - 1]);
    }
  }

  /** A list no category has is already whole. */
  lemma PickedList<T>(own: List<T>, parts: seq<seq<T>>, whole: seq<T>, any: bool)
    requires whole == Backward(parts) + own.items || whole == Flat(parts) + own.items
    requires any || forall i :: 0 <= i < |parts| ==> parts[i] == []
    ensures ReplacedList(own, if any then Some(whole) else None).items == whole
  {
    NoneIsEmpty(parts);
  }

  lemma PickedIsMerged(own: Lists, cats: seq<Lists>)
    requires forall i :: 0 <= i < |cats| ==> cats[i].Ok()
    ensures IsMerged(own, cats, Picked(cats, Whole(own, cats)))
  {
    var w := Whole(own, cats);
    PickedList(own.imethods, IMethods(cats), w.imethods.items, Any(cats, (l: Lists) => l.imethods.present));
    PickedList(own.cmethods, CMethods(cats), w.cmethods.items, Any(cats, (l: Lists) => l.cmethods.present));
    PickedList(own.protocols, Protocols(cats), w.protocols.items, Any(cats, (l: Lists) => l.protocols.present));
    PickedList(own.iprops, IProps(cats), w.iprops.items, Any(cats, (l: Lists) => l.iprops.present));
    PickedList(own.cprops, CProps(cats), w.cprops.items, Any(cats, (l: Lists) => l.cprops.present));
  }

  /** What the class's own lists become: the whole lists, or as before where no category
      has one of the kind. */
  ghost predicate IsMerged(own: Lists, cats: seq<Lists>, m: Merged) { SameItems(Replaced(own, m), Whole(own, cats)) }

  predicate SameItems(a: Lists, b: Lists) {
    && a.imethods.items == b.imethods.items && a.cmethods.items == b.cmethods.items
    && a.protocols.items == b.protocols.items
    && a.iprops.items == b.iprops.items && a.cprops.items == b.cprops.items
  }

  function ReplacedList<T>(own: List<T>, m: Option<seq<T>>): List<T> {
    if m.Some? then List(true, true, m.value) else own
  }

  /** rewrite_ro: the class's lists once its records point at the merged ones. */
  function Replaced(own: Lists, m: Merged): Lists {
    Lists(ReplacedList(own.imethods, m.imethods), ReplacedList(own.cmethods, m.cmethods),
          ReplacedList(own.protocols, m.protocols), ReplacedList(own.iprops, m.iprops),
          ReplacedList(own.cprops, m.cprops))
  }

  // ---- Lookup ----

  /** The first method of a list with the selector. */
  function Lookup(ms: seq<Method>, sel: nat): Option<Method> {
    if ms == [] then None else if ms[0].sel == sel then Some(ms[0]) else Lookup(ms[1..], sel)
  }

  predicate Defines(ms: seq<Method>, sel: nat) { Lookup(ms, sel).Some? }

  lemma {:induction false} LookupJoin(a: seq<Method>, b: seq<Method>, sel: nat)
    ensures Lookup(a + b, sel) == if Defines(a, sel) then Lookup(a, sel) else Lookup(b, sel)
  {
    if a == [] {
      assert a + b == b;
    } else if a[0].sel != sel {
      LookupJoin(a[1..], b, sel);
      assert (a + b)[1..] == a[1..] + b;
    }
  }

  /** Looking from the last list to the first. */
  function Search(parts: seq<seq<Method>>, sel: nat): Option<Method> {
    if parts == [] then None
    else if Defines(parts[|parts| - 1], sel) then Lookup(parts[|parts| - 1], sel)
    else Search(parts[..|parts| - 1], sel)
  }

  /** The merged list finds what searching the categories from the last to the first,
      and then the class, would. */
  lemma {:induction false} MergedFinds(parts: seq<seq<Method>>, own: seq<Method>, sel: nat)
    ensures Lookup(Backward(parts) + own, sel) ==
            if Search(parts, sel).Some? then Search(parts, sel) else Lookup(own, sel)
  {
    if parts == [] {
      assert Backward(parts) + own == own;
    } else {
      var n := |parts| - 1;
      MergedFinds(parts[..n], own, sel);
      LookupJoin(parts[n], Backward(parts[..n]) + own, sel);
      assert Backward(parts) + own == parts[n] + (Backward(parts[..n]) + own);
    }
  }
}
