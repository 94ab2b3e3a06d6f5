/** Integrating a whole batch at once (input_files.rs, integrate_objects): prefix sums
    give every object its place, the vectors are moved there in any order, and the
    outcome is that of one object at a time. */
module IntegrateBatch {
  import opened Options
  import opened Sequences
  import opened Unwind
  import opened Integrate

  // ---- Appending in parallel ----

  /** No two items share a place, so the moves need no order. */
  lemma PlacesAreDisjoint<T>(parts: seq<seq<T>>, p: nat, k: nat, q: nat, m: nat)
    requires p < |parts| && k < |parts[p]| && q < |parts| && m < |parts[q]| && (p, k) != (q, m)
    ensures Sum(Lens(parts)[..p]) + k != Sum(Lens(parts)[..q]) + m
  {
    if p < q {
      SumGrows(Lens(parts), p, q);
    } else if q < p {
      SumGrows(Lens(parts), q, p);
    }
  }

  /** spare_ranges: where each run of the spare room starts. */
  method SpareRanges(lens: seq<nat>) returns (starts: seq<nat>)
    ensures |starts| == |lens| && forall p :: 0 <= p < |lens| ==> starts[p] == Sum(lens[..p])
  {
    starts := [];
    var spare := 0;
    for p := 0 to |lens|
      invariant |starts| == p && spare == Sum(lens[..p])
      invariant forall q :: 0 <= q < p ==> starts[q] == Sum(lens[..q])
    {
      assert lens[..p + 1][..p] == lens[..p];
      starts := starts + [spare];
      spare := spare + lens[p];
    }
  }

  /** An order in which the items may be moved: each at least once. */
  ghost predicate Covers(lens: seq<nat>, order: seq<(nat, nat)>) {
    && (forall e :: e in order ==> e.0 < |lens| && e.1 < lens[e.0])
    && forall p: nat, k: nat :: p < |lens| && k < lens[p] ==> (p, k) in order
  }

  ghost predicate Written<T>(slots: seq<Option<T>>, starts: seq<nat>, e: (nat, nat)) {
    e.0 < |starts| && starts[e.0] + e.1 < |slots| && slots[starts[e.0] + e.1].Some?
  }

  /** append_in_parallel, the items moved in the order given: a slot nobody wrote yet
      is uninitialized. */
  method AppendInParallel<T>(v: seq<T>, parts: seq<seq<T>>, order: seq<(nat, nat)>) returns (r: seq<T>)
    requires Covers(Lens(parts), order)
    ensures r == v + Flat(parts)
  {
    var starts := SpareRanges(Lens(parts));
    ghost var flat := Flat(parts);
    var slots := seq(Sum(Lens(parts)), _ => None);
    FlatLength(parts);
    for i := 0 to |order|
      invariant |slots| == |flat|
      invariant forall j :: 0 <= j < |slots| ==> slots[j] == None || slots[j] == Some(flat[j])
      invariant forall h: nat :: h < i ==> Written(slots, starts, order[h])
    {
      var (p, k) := order[i];
      assert order[i] in order;
      FlatAt(parts, p, k);
      slots := slots[starts[p] + k := Some(parts[p][k])];
    }
    AllWritten(parts, order, starts, slots);
    r := v + seq(|slots|, j requires 0 <= j < |slots| && slots[j].Some? => slots[j].value);
  }

  /** Once every item has been moved no slot is uninitialized. */
  lemma AllWritten<T>(parts: seq<seq<T>>, order: seq<(nat, nat)>, starts: seq<nat>, slots: seq<Option<T>>)
    requires Covers(Lens(parts), order) && |slots| == |Flat(parts)|
    requires |starts| == |parts| && forall p :: 0 <= p < |parts| ==> starts[p] == Sum(Lens(parts)[..p])
    requires forall h: nat :: h < |order| ==> Written(slots, starts, order[h])
    ensures forall j :: 0 <= j < |slots| ==> slots[j].Some?
  {
    forall j: nat | j < |slots| ensures slots[j].Some? {
      var p, k := FlatFrom(parts, j);
      assert (p, k) in order;
      var h: nat :| h < |order| && order[h] == (p, k);
      assert Written(slots, starts, order[h]);
    }
  }

  // ---- Symbols ----

  datatype MachSym = MachSym(local: bool, name: nat)

  function LocalNames(ms: seq<MachSym>): seq<nat> {
    if ms == [] then []
    else LocalNames(ms[..|ms| - 1]) + if ms[|ms| - 1].local then [ms[|ms| - 1].name] else []
  }

  function NumGlobals(ms: seq<MachSym>): nat {
    if ms == [] then 0 else NumGlobals(ms[..|ms| - 1]) + if ms[|ms| - 1].local then 0 else 1
  }

  /** The symbol of entry m. */
  function SymbolAt(ms: seq<MachSym>, m: nat, firstLocal: nat, ids: seq<nat>): nat
    requires m < |ms| && NumGlobals(ms) <= |ids|
  {
    GlobalsBefore(ms, m);
    if ms[m].local then firstLocal + |LocalNames(ms[..m])| else ids[NumGlobals(ms[..m])]
  }

  lemma {:induction false} GlobalsBefore(ms: seq<MachSym>, m: nat)
    requires m <= |ms|
    ensures NumGlobals(ms[..m]) <= NumGlobals(ms)
    ensures m < |ms| && !ms[m].local ==> NumGlobals(ms[..m]) < NumGlobals(ms)
  {
    if m < |ms| {
      var n := |ms| - 1;
      GlobalsBefore(ms[..n], m);
      assert ms[..n][..m] == ms[..m];
    } else {
      assert ms[..m] == ms;
    }
  }

  lemma {:induction false} LocalName(ms: seq<MachSym>, m: nat)
    requires m < |ms| && ms[m].local
    ensures |LocalNames(ms[..m])| < |LocalNames(ms)| && LocalNames(ms)[|LocalNames(ms[..m])|] == ms[m].name
  {
    var n := |ms| - 1;
    assert ms[..n][..m] == ms[..m];
    if m < n {
      LocalName(ms[..n], m);
    }
  }

  method SymbolIds(ms: seq<MachSym>, firstLocal: nat, ids: seq<nat>) returns (syms: seq<nat>)
    requires NumGlobals(ms) <= |ids|
    ensures |syms| == |ms| && forall m: nat :: m < |ms| ==> syms[m] == SymbolAt(ms, m, firstLocal, ids)
  {
    syms := [];
    var nextLocal, nextId := firstLocal, 0;
    for m := 0 to |ms|
      invariant |syms| == m && nextLocal == firstLocal + |LocalNames(ms[..m])| && nextId == NumGlobals(ms[..m])
      invariant forall l: nat :: l < m ==> syms[l] == SymbolAt(ms, l, firstLocal, ids)
    {
      assert ms[..m + 1][..m] == ms[..m];
      if ms[m].local {
        syms := syms + [nextLocal];
        nextLocal := nextLocal + 1;
      } else {
        GlobalsBefore(ms, m);
        syms := syms + [ids[nextId]];
        nextId := nextId + 1;
      }
    }
  }

  // ---- The batch ----

  function Field<T>(sts: seq<Staged>, f: Staged -> seq<T>): (r: seq<seq<T>>)
    ensures |r| == |sts| && forall i :: 0 <= i < |sts| ==> r[i] == f(sts[i])
  {
    seq(|sts|, i requires 0 <= i < |sts| => f(sts[i]))
  }

  function IsecsOf(sts: seq<Staged>): seq<seq<Isec>> { Field(sts, (st: Staged) => st.isecs) }

  function UnwindOf(sts: seq<Staged>): seq<seq<Record>> { Field(sts, (st: Staged) => st.unwind) }

  function CiesOf(sts: seq<Staged>): seq<seq<Cie>> { Field(sts, (st: Staged) => st.cies) }

  function FdesOf(sts: seq<Staged>): seq<seq<Fde>> { Field(sts, (st: Staged) => st.fdes) }

  /** The bases prefix sums give object i. */
  function SumBases(a: Arenas, sts: seq<Staged>, i: nat): Bases
    requires i <= |sts|
  {
    Bases(|a.isecs| + Sum(Lens(IsecsOf(sts[..i]))), |a.unwind| + Sum(Lens(UnwindOf(sts[..i]))),
          |a.cies| + Sum(Lens(CiesOf(sts[..i]))), |a.fdes| + Sum(Lens(FdesOf(sts[..i]))), |a.objs| + i)
  }

  /** Where the next object starts if this one starts at b. */
  function BasesAfter(b: Bases, st: Staged): Bases {
    Bases(b.isec + |st.isecs|, b.unwind + |st.unwind|, b.cie + |st.cies|, b.fde + |st.fdes|, b.obj + 1)
  }

  lemma SumOne(a: Arenas, sts: seq<Staged>, i: nat)
    requires i < |sts|
    ensures SumBases(a, sts, i + 1) == BasesAfter(SumBases(a, sts, i), sts[i])
  {
    var s, t := sts[..i], sts[..i + 1];
    assert t[..i] == s;
    assert Lens(IsecsOf(t))[..i] == Lens(IsecsOf(s)) && Lens(UnwindOf(t))[..i] == Lens(UnwindOf(s));
    assert Lens(CiesOf(t))[..i] == Lens(CiesOf(s)) && Lens(FdesOf(t))[..i] == Lens(FdesOf(s));
  }

  /** arena_bases. */
  method ArenaBases(a: Arenas, sts: seq<Staged>) returns (bases: seq<Bases>)
    ensures |bases| == |sts| && forall i :: 0 <= i < |sts| ==> bases[i] == SumBases(a, sts, i)
  {
    bases := [];
    var next := BasesOf(a);
    for i := 0 to |sts|
      invariant |bases| == i && next == SumBases(a, sts, i)
      invariant forall j :: 0 <= j < i ==> bases[j] == SumBases(a, sts, j)
    {
      bases := bases + [next];
      SumOne(a, sts, i);
      next := BasesAfter(next, sts[i]);
    }
  }

  lemma OneMore(a: Arenas, st: Staged, syms: seq<nat>)
    requires Valid(st, |syms|)
    ensures BasesOf(IntegrateObject(a, st, syms)) == BasesAfter(BasesOf(a), st)
  {
    PlacedSizes(a, st, syms);
  }

  lemma FrontSums(a: Arenas, sts: seq<Staged>, n: nat, i: nat)
    requires i <= n <= |sts|
    ensures SumBases(a, sts[..n], i) == SumBases(a, sts, i)
  {
    assert sts[..n][..i] == sts[..i];
  }

  /** The prefix sums are where the objects end up one at a time. */
  lemma {:induction false} SumsAreBases(a: Arenas, sts: seq<Staged>, syms: seq<seq<nat>>)
    requires AllValid(sts, syms)
    ensures BasesOf(IntegrateEach(a, sts, syms)) == SumBases(a, sts, |sts|)
  {
    if sts == [] {
      NoSums(a);
    } else {
      var n := |sts| - 1;
      SumsAreBases(a, sts[..n], syms[..n]);
      FrontSums(a, sts, n, n);
      SumOne(a, sts, n);
      OneMore(IntegrateEach(a, sts[..n], syms[..n]), sts[n], syms[n]);
    }
  }

  lemma NoSums(a: Arenas)
    ensures SumBases(a, [], 0) == BasesOf(a)
  {
    var none: seq<Staged> := [];
    assert none[..0] == none && IsecsOf(none) == [] && UnwindOf(none) == [] && CiesOf(none) == [] && FdesOf(none) == [];
  }

  /** set_unwind_ranges and rebase, of one object. */
  method Place(st: Staged, b: Bases, syms: seq<nat>) returns (p: Staged)
    requires Valid(st, |syms|)
    ensures p == Placed(st, b, syms)
  {
    var spans := new Span[|st.isecs|](i requires 0 <= i < |st.isecs| => st.isecs[i].span);
    assert spans[..] == SpansOf(st.isecs);
    SetRanges(st.unwind, spans, b.unwind);
    var ranges := spans[..];
    var isecs := seq(|st.isecs|, k requires 0 <= k < |st.isecs| => st.isecs[k].(span := ranges[k]));
    p := Rebase(st.(isecs := isecs), b, syms);
  }

  /** The arenas with the placed objects' vectors appended. */
  ghost function Joined(a: Arenas, placed: seq<Staged>, syms: seq<seq<nat>>): Arenas
    requires |syms| == |placed|
  {
    Arenas(a.isecs + Flat(IsecsOf(placed)), a.unwind + Flat(UnwindOf(placed)),
           a.cies + Flat(CiesOf(placed)), a.fdes + Flat(FdesOf(placed)),
           a.objs + seq(|placed|, i requires 0 <= i < |placed| => ObjectOf(placed[i], syms[i])))
  }

  lemma JoinedPush(a: Arenas, placed: seq<Staged>, syms: seq<seq<nat>>, p: Staged, s: seq<nat>)
    requires |syms| == |placed|
    ensures Joined(a, placed + [p], syms + [s]) == Append(Joined(a, placed, syms), p, s)
  {
    FieldsPush(placed, p);
    FlatPush(IsecsOf(placed), p.isecs);
    FlatPush(UnwindOf(placed), p.unwind);
    FlatPush(CiesOf(placed), p.cies);
    FlatPush(FdesOf(placed), p.fdes);
  }

  lemma FieldsPush(placed: seq<Staged>, p: Staged)
    ensures IsecsOf(placed + [p]) == IsecsOf(placed) + [p.isecs]
    ensures UnwindOf(placed + [p]) == UnwindOf(placed) + [p.unwind]
    ensures CiesOf(placed + [p]) == CiesOf(placed) + [p.cies] && FdesOf(placed + [p]) == FdesOf(placed) + [p.fdes]
  {
  }

  lemma EachPush(a: Arenas, sts: seq<Staged>, syms: seq<seq<nat>>, st: Staged, s: seq<nat>)
    requires AllValid(sts, syms) && Valid(st, |s|)
    ensures AllValid(sts + [st], syms + [s])
    ensures IntegrateEach(a, sts + [st], syms + [s]) == IntegrateObject(IntegrateEach(a, sts, syms), st, s)
  {
    assert (sts + [st])[..|sts|] == sts && (syms + [s])[..|syms|] == syms;
  }

  /** The objects so far, placed: joined they are what one at a time gives. */
  ghost predicate SoFar(a: Arenas, sts: seq<Staged>, syms: seq<seq<nat>>, placed: seq<Staged>) {
    && AllValid(sts, syms) && |placed| == |sts| && (forall i :: 0 <= i < |sts| ==> SameSizes(placed[i], sts[i]))
    && Joined(a, placed, syms) == IntegrateEach(a, sts, syms)
  }

  lemma OneMorePlaced(
    a: Arenas, sts: seq<Staged>, syms: seq<seq<nat>>, placed: seq<Staged>, st: Staged, s: seq<nat>, p: Staged)
    requires SoFar(a, sts, syms, placed) && Valid(st, |s|) && SameSizes(p, st)
    requires IntegrateObject(IntegrateEach(a, sts, syms), st, s) == Append(IntegrateEach(a, sts, syms), p, s)
    ensures SoFar(a, sts + [st], syms + [s], placed + [p])
  {
    EachPush(a, sts, syms, st, s);
    JoinedPush(a, placed, syms, p, s);
  }

  /** The orders in which the parts' items are moved. */
  datatype Orders = Orders(
    isecs: seq<(nat, nat)>, unwind: seq<(nat, nat)>, cies: seq<(nat, nat)>, fdes: seq<(nat, nat)>)

  ghost predicate OrdersOk(sts: seq<Staged>, o: Orders) {
    && Covers(Lens(IsecsOf(sts)), o.isecs) && Covers(Lens(UnwindOf(sts)), o.unwind)
    && Covers(Lens(CiesOf(sts)), o.cies) && Covers(Lens(FdesOf(sts)), o.fdes)
  }

  lemma SameLens(placed: seq<Staged>, sts: seq<Staged>, o: Orders)
    requires |placed| == |sts| && (forall i :: 0 <= i < |sts| ==> SameSizes(placed[i], sts[i])) && OrdersOk(sts, o)
    ensures OrdersOk(placed, o)
  {
    assert Lens(IsecsOf(placed)) == Lens(IsecsOf(sts)) && Lens(UnwindOf(placed)) == Lens(UnwindOf(sts));
    assert Lens(CiesOf(placed)) == Lens(CiesOf(sts)) && Lens(FdesOf(placed)) == Lens(FdesOf(sts));
  }

  /** integrate_objects, once the symbols are known: whatever the orders, the arenas end
      as one object at a time would leave them. */
  method IntegrateObjects(a: Arenas, sts: seq<Staged>, syms: seq<seq<nat>>, orders: Orders) returns (r: Arenas)
    requires AllValid(sts, syms) && OrdersOk(sts, orders)
    ensures r == IntegrateEach(a, sts, syms)
  {
    var placed := PlaceAll(a, sts, syms);
    SameLens(placed, sts, orders);
    var isecs := AppendInParallel(a.isecs, IsecsOf(placed), orders.isecs);
    var unwind := AppendInParallel(a.unwind, UnwindOf(placed), orders.unwind);
    var cies := AppendInParallel(a.cies, CiesOf(placed), orders.cies);
    var fdes := AppendInParallel(a.fdes, FdesOf(placed), orders.fdes);
    r := Arenas(isecs, unwind, cies, fdes,
                a.objs + seq(|placed|, i requires 0 <= i < |placed| => ObjectOf(placed[i], syms[i])));
    assert r == Joined(a, placed, syms);
  }

  method PlaceAll(a: Arenas, sts: seq<Staged>, syms: seq<seq<nat>>) returns (placed: seq<Staged>)
    requires AllValid(sts, syms)
    ensures SoFar(a, sts, syms, placed)
  {
    var bases := ArenaBases(a, sts);
    placed := [];
    NoneSoFar(a, sts, syms);
    for i := 0 to |sts|
      invariant SoFarUpTo(a, sts, syms, i, placed)
    {
      var p := PlaceNext(a, sts, syms, placed, i, bases[i]);
      placed := placed + [p];
    }
    AllSoFar(a, sts, syms, placed);
  }

  ghost predicate SoFarUpTo(a: Arenas, sts: seq<Staged>, syms: seq<seq<nat>>, n: nat, placed: seq<Staged>) {
    n <= |sts| == |syms| && SoFar(a, sts[..n], syms[..n], placed)
  }

  lemma AllSoFar(a: Arenas, sts: seq<Staged>, syms: seq<seq<nat>>, placed: seq<Staged>)
    requires SoFarUpTo(a, sts, syms, |sts|, placed)
    ensures SoFar(a, sts, syms, placed)
  {
    assert sts[..|sts|] == sts && syms[..|syms|] == syms;
  }

  method PlaceNext(a: Arenas, sts: seq<Staged>, syms: seq<seq<nat>>, ghost placed: seq<Staged>, n: nat, b: Bases)
    returns (p: Staged)
    requires AllValid(sts, syms) && n < |sts| && SoFarUpTo(a, sts, syms, n, placed) && b == SumBases(a, sts, n)
    ensures SoFarUpTo(a, sts, syms, n + 1, placed + [p])
  {
    ghost var before := IntegrateEach(a, sts[..n], syms[..n]);
    FrontSums(a, sts, n, n);
    SumsAreBases(a, sts[..n], syms[..n]);
    p := PlaceOne(before, sts[n], b, syms[n]);
    NextSoFar(a, sts, syms, placed, n, p);
  }

  lemma NextSoFar(a: Arenas, sts: seq<Staged>, syms: seq<seq<nat>>, placed: seq<Staged>, n: nat, p: Staged)
    requires n < |sts| && SoFarUpTo(a, sts, syms, n, placed) && Valid(sts[n], |syms[n]|) && SameSizes(p, sts[n])
    requires var before := IntegrateEach(a, sts[..n], syms[..n]);
             IntegrateObject(before, sts[n], syms[n]) == Append(before, p, syms[n])
    ensures SoFarUpTo(a, sts, syms, n + 1, placed + [p])
  {
    OneMorePlaced(a, sts[..n], syms[..n], placed, sts[n], syms[n], p);
    SliceNext(sts, n);
    SliceNext(syms, n);
  }

  lemma NoneSoFar(a: Arenas, sts: seq<Staged>, syms: seq<seq<nat>>)
    requires |sts| == |syms|
    ensures SoFarUpTo(a, sts, syms, 0, [])
  {
    assert IsecsOf([]) == [] && UnwindOf([]) == [] && CiesOf([]) == [] && FdesOf([]) == [];
  }

  /** Placed at the bases of the arenas before it, an object is appended as
      integrate_object appends it. */
  method PlaceOne(ghost before: Arenas, st: Staged, b: Bases, syms: seq<nat>) returns (p: Staged)
    requires Valid(st, |syms|) && b == BasesOf(before)
    ensures SameSizes(p, st) && IntegrateObject(before, st, syms) == Append(before, p, syms)
  {
    PlacedLike(st, b, syms);
    p := Place(st, b, syms);
  }

  /** The symbols of a batch: after the locals have been appended to the table in any
      order, each local entry's symbol is a new slot that holds its name and is no other
      local entry's, and each global entry's is the id interned for it. */
  method BatchSymbols(table: seq<nat>, machs: seq<seq<MachSym>>, ids: seq<seq<nat>>, order: seq<(nat, nat)>)
    returns (table': seq<nat>, syms: seq<seq<nat>>)
    requires |ids| == |machs| && forall i :: 0 <= i < |machs| ==> NumGlobals(machs[i]) <= |ids[i]|
    requires Covers(Lens(NamesOf(machs)), order)
    ensures table <= table' && |table'| == |table| + Sum(Lens(NamesOf(machs)))
    ensures |syms| == |machs| && forall i :: 0 <= i < |machs| ==> |syms[i]| == |machs[i]|
    ensures forall i: nat, m: nat :: i < |machs| && m < |machs[i]| ==>
              SymbolOk(table, table', machs, ids, i, m, syms[i][m])
    ensures SlotsDiffer(machs, syms)
  {
    syms := [];
    var nextLocal := |table|;
    for i := 0 to |machs|
      invariant |syms| == i && nextLocal == FirstLocal(table, machs, i)
      invariant forall j :: 0 <= j < i ==> |syms[j]| == |machs[j]|
      invariant forall j: nat, m: nat :: j < i && m < |machs[j]| ==>
                  syms[j][m] == SymbolAt(machs[j], m, FirstLocal(table, machs, j), ids[j])
    {
      var s := SymbolIds(machs[i], nextLocal, ids[i]);
      syms := syms + [s];
      NextFirst(table, machs, i);
      nextLocal := nextLocal + |LocalNames(machs[i])|;
    }
    table' := AppendInParallel(table, NamesOf(machs), order);
    FlatLength(NamesOf(machs));
    forall i: nat, m: nat | i < |machs| && m < |machs[i]|
      ensures SymbolOk(table, table', machs, ids, i, m, syms[i][m])
    {
      SymbolAtOk(table, machs, ids, i, m);
    }
    forall i: nat, m: nat, j: nat, l: nat
      | IsLocal(machs, i, m) && IsLocal(machs, j, l) && m < |syms[i]| && l < |syms[j]| && syms[i][m] == syms[j][l]
      ensures i == j && m == l
    {
      OwnSlot(table, machs, ids, i, m, j, l);
    }
  }

  predicate IsLocal(machs: seq<seq<MachSym>>, i: nat, m: nat) { i < |machs| && m < |machs[i]| && machs[i][m].local }

  /** No two local entries, of whatever objects, have one symbol. */
  ghost predicate SlotsDiffer(machs: seq<seq<MachSym>>, syms: seq<seq<nat>>)
    requires |syms| == |machs|
  {
    forall i: nat, m: nat, j: nat, l: nat ::
      (IsLocal(machs, i, m) && IsLocal(machs, j, l)
       && m < |syms[i]| && l < |syms[j]| && syms[i][m] == syms[j][l]) ==> i == j && m == l
  }

  lemma {:induction false} LocalRank(ms: seq<MachSym>, m: nat, l: nat)
    requires m < l <= |ms| && ms[m].local
    ensures |LocalNames(ms[..m])| < |LocalNames(ms[..l])|
  {
    assert ms[..l][..l - 1] == ms[..l - 1];
    if m < l - 1 {
      LocalRank(ms, m, l - 1);
    }
  }

  lemma OwnSlot(table: seq<nat>, machs: seq<seq<MachSym>>, ids: seq<seq<nat>>, i: nat, m: nat, j: nat, l: nat)
    requires IsLocal(machs, i, m) && IsLocal(machs, j, l) && |ids| == |machs|
    requires NumGlobals(machs[i]) <= |ids[i]| && NumGlobals(machs[j]) <= |ids[j]|
    requires SymbolAt(machs[i], m, FirstLocal(table, machs, i), ids[i]) ==
             SymbolAt(machs[j], l, FirstLocal(table, machs, j), ids[j])
    ensures i == j && m == l
  {
    var k, n := |LocalNames(machs[i][..m])|, |LocalNames(machs[j][..l])|;
    LocalName(machs[i], m);
    LocalName(machs[j], l);
    if (i, k) != (j, n) {
      PlacesAreDisjoint(NamesOf(machs), i, k, j, n);
    } else if m < l {
      LocalRank(machs[i], m, l);
    } else if l < m {
      LocalRank(machs[i], l, m);
    }
  }

  function FirstLocal(table: seq<nat>, machs: seq<seq<MachSym>>, i: nat): nat
    requires i <= |machs|
  {
    |table| + Sum(Lens(NamesOf(machs))[..i])
  }

  lemma NextFirst(table: seq<nat>, machs: seq<seq<MachSym>>, i: nat)
    requires i < |machs|
    ensures FirstLocal(table, machs, i + 1) == FirstLocal(table, machs, i) + |LocalNames(machs[i])|
  {
    assert Lens(NamesOf(machs))[..i + 1][..i] == Lens(NamesOf(machs))[..i];
  }

  lemma SymbolAtOk(table: seq<nat>, machs: seq<seq<MachSym>>, ids: seq<seq<nat>>, i: nat, m: nat)
    requires |ids| == |machs| && i < |machs| && m < |machs[i]| && NumGlobals(machs[i]) <= |ids[i]|
    ensures SymbolOk(table, table + Flat(NamesOf(machs)), machs, ids, i, m,
                     SymbolAt(machs[i], m, FirstLocal(table, machs, i), ids[i]))
  {
    GlobalsBefore(machs[i], m);
    if machs[i][m].local {
      LocalName(machs[i], m);
      FlatAt(NamesOf(machs), i, |LocalNames(machs[i][..m])|);
    }
  }

  function NamesOf(machs: seq<seq<MachSym>>): (r: seq<seq<nat>>)
    ensures |r| == |machs| && forall i :: 0 <= i < |machs| ==> r[i] == LocalNames(machs[i])
  {
    seq(|machs|, i requires 0 <= i < |machs| => LocalNames(machs[i]))
  }

  ghost predicate SymbolOk(
    table: seq<nat>, table': seq<nat>, machs: seq<seq<MachSym>>, ids: seq<seq<nat>>, i: nat, m: nat, s: nat)
    requires i < |machs| == |ids| && m < |machs[i]|
  {
    if machs[i][m].local then
      |table| <= s < |table'| && table'[s] == machs[i][m].name
    else
      var g := NumGlobals(machs[i][..m]);
      g < |ids[i]| && s == ids[i][g]
  }
}
