/** Making a provider's DOF from its sites (dtrace.rs, build_dof). */
module DofBuild {
  import opened Options
  import opened Sequences
  import opened DofBytes
  import opened DofTables
  import opened DofWrite
  import opened DofFile
  import opened DofRead
  import opened DofLayout
  import DofRegister

  function AsProbe(g: DofRegister.Group): Probe {
    Probe(DofRegister.Hyphenate(g.field), if g.args.Some? then g.args.value else [], g.instances)
  }

  function AsProbes(gs: seq<DofRegister.Group>): (r: seq<Probe>)
    ensures |r| == |gs| && forall k :: 0 <= k < |r| ==> r[k] == AsProbe(gs[k])
  {
    seq(|gs|, k requires 0 <= k < |gs| => AsProbe(gs[k]))
  }

  // ---- Entries and their sites as flat sequences ----

  function Parts(ps: seq<Probe>): (r: seq<seq<Entry>>)
    ensures |r| == |ps| && forall k :: 0 <= k < |r| ==> r[k] == EntriesOf(ps[k], |ps[k].instances|)
  {
    seq(|ps|, k requires 0 <= k < |ps| => EntriesOf(ps[k], |ps[k].instances|))
  }

  lemma {:induction false} EntriesAreFlat(ps: seq<Probe>)
    ensures Entries(ps) == Flat(Parts(ps))
  {
    if ps != [] {
      var n := |ps| - 1;
      EntriesAreFlat(ps[..n]);
      assert Parts(ps)[..n] == Parts(ps[..n]);
    }
  }

  function ListOf(inst: Instance, tests: bool): seq<nat> { if tests then inst.tests else inst.sites }

  function ListsOf(es: seq<Entry>, tests: bool): (r: seq<seq<nat>>)
    ensures |r| == |es| && forall k :: 0 <= k < |r| ==> r[k] == ListOf(es[k].inst, tests)
  {
    seq(|es|, k requires 0 <= k < |es| => ListOf(es[k].inst, tests))
  }

  lemma {:induction false} SitesAreFlat(es: seq<Entry>, tests: bool)
    ensures SitesOf(es, tests) == Flat(ListsOf(es, tests))
  {
    if es != [] {
      var n := |es| - 1;
      SitesAreFlat(es[..n], tests);
      assert ListsOf(es, tests)[..n] == ListsOf(es[..n], tests);
    }
  }

  // ---- Each site is in one list ----

  lemma {:induction false} SitesIncrease(ss: seq<DofRegister.Site>, field: seq<byte>, f: seq<byte>, test: bool)
    ensures NoRepeats(DofRegister.SitesAt(ss, field, f, test))
  {
    if ss != [] {
      var n := |ss| - 1;
      var prev := DofRegister.SitesAt(ss[..n], field, f, test);
      SitesIncrease(ss[..n], field, f, test);
      forall k | 0 <= k < |prev| ensures prev[k] < n {
        DofRegister.SitesAre(ss[..n], field, f, test, prev[k]);
      }
    }
  }

  /** The instance an entry comes from. */
  lemma EntryFrom(gs: seq<DofRegister.Group>, e: nat) returns (k: nat, j: nat)
    requires e < |Entries(AsProbes(gs))|
    ensures k < |gs| && j < |gs[k].instances| && Entries(AsProbes(gs))[e].inst == gs[k].instances[j]
    ensures e == Sum(Lens(Parts(AsProbes(gs)))[..k]) + j
  {
    EntriesAreFlat(AsProbes(gs));
    k, j := FlatFrom(Parts(AsProbes(gs)), e);
    FlatAt(Parts(AsProbes(gs)), k, j);
  }

  /** An index in the lists of two entries: they are one. */
  lemma OneEntry(ss: seq<DofRegister.Site>, gs: seq<DofRegister.Group>, i: nat, e: nat, f: nat)
    requires DofRegister.AllRegistered(ss, gs)
    requires e < |Entries(AsProbes(gs))| && f < |Entries(AsProbes(gs))|
    requires DofRegister.Lists(Entries(AsProbes(gs))[e].inst, i) && DofRegister.Lists(Entries(AsProbes(gs))[f].inst, i)
    ensures e == f
  {
    var k, j := EntryFrom(gs, e);
    var k', j' := EntryFrom(gs, f);
    DofRegister.OnlyThere(ss, gs, i, k, j);
    DofRegister.OnlyThere(ss, gs, i, k', j');
    DofRegister.OneGroup(ss, gs, k, j, k', j');
  }

  lemma ListsDiffer(ss: seq<DofRegister.Site>, gs: seq<DofRegister.Group>, tests: bool)
    requires DofRegister.AllRegistered(ss, gs)
    ensures AllDiffer(ListsOf(Entries(AsProbes(gs)), tests))
  {
    var es := Entries(AsProbes(gs));
    var ls := ListsOf(es, tests);
    forall e: nat, a: nat, f: nat, b: nat | e < |ls| && a < |ls[e]| && f < |ls| && b < |ls[f]| && ls[e][a] == ls[f][b]
      ensures e == f && a == b
    {
      OneEntry(ss, gs, ls[e][a], e, f);
      ListNoRepeats(ss, gs, e, tests);
    }
  }

  lemma ListNoRepeats(ss: seq<DofRegister.Site>, gs: seq<DofRegister.Group>, e: nat, tests: bool)
    requires DofRegister.AllRegistered(ss, gs) && e < |Entries(AsProbes(gs))|
    ensures NoRepeats(ListOf(Entries(AsProbes(gs))[e].inst, tests))
  {
    var k, j := EntryFrom(gs, e);
    assert DofRegister.ProbeOk(ss, gs[k]);
    assert DofRegister.InstanceOk(ss, gs[k].field, gs[k].instances[j]);
    SitesIncrease(ss, gs[k].field, gs[k].instances[j].funcName, tests);
  }

  lemma ListedIsSite(ss: seq<DofRegister.Site>, gs: seq<DofRegister.Group>, i: nat, tests: bool)
    requires DofRegister.AllRegistered(ss, gs) && i in SitesOf(Entries(AsProbes(gs)), tests)
    ensures i < |ss| && ss[i].test == tests
  {
    var es := Entries(AsProbes(gs));
    SitesAreFlat(es, tests);
    FlatHas(ListsOf(es, tests), i);
    var e: nat :| e < |es| && i in ListsOf(es, tests)[e];
    var k, j := EntryFrom(gs, e);
    DofRegister.OnlyThere(ss, gs, i, k, j);
    assert DofRegister.ProbeOk(ss, gs[k]);
    assert DofRegister.InstanceOk(ss, gs[k].field, gs[k].instances[j]);
    DofRegister.SitesAre(ss, gs[k].field, gs[k].instances[j].funcName, tests, i);
  }

  lemma SiteIsListed(ss: seq<DofRegister.Site>, gs: seq<DofRegister.Group>, i: nat)
    requires DofRegister.AllRegistered(ss, gs) && i < |ss|
    ensures i in SitesOf(Entries(AsProbes(gs)), ss[i].test)
  {
    var e := SiteEntry(ss, gs, i);
    InFlat(Entries(AsProbes(gs)), ss[i].test, e, i);
  }

  lemma SiteEntry(ss: seq<DofRegister.Site>, gs: seq<DofRegister.Group>, i: nat) returns (e: nat)
    requires DofRegister.AllRegistered(ss, gs) && i < |ss|
    ensures e < |Entries(AsProbes(gs))| && i in ListOf(Entries(AsProbes(gs))[e].inst, ss[i].test)
  {
    var k, j := DofRegister.EachSiteRegistered(ss, gs, i);
    e := EntryOf(gs, k, j);
  }

  lemma EntryOf(gs: seq<DofRegister.Group>, k: nat, j: nat) returns (e: nat)
    requires k < |gs| && j < |gs[k].instances|
    ensures e < |Entries(AsProbes(gs))| && Entries(AsProbes(gs))[e] == Entry(AsProbe(gs[k]), gs[k].instances[j])
  {
    EntriesAreFlat(AsProbes(gs));
    FlatAt(Parts(AsProbes(gs)), k, j);
    e := Sum(Lens(Parts(AsProbes(gs)))[..k]) + j;
  }

  lemma InFlat(es: seq<Entry>, tests: bool, e: nat, i: nat)
    requires e < |es| && i in ListOf(es[e].inst, tests)
    ensures i in SitesOf(es, tests)
  {
    SitesAreFlat(es, tests);
    FlatHas(ListsOf(es, tests), i);
    assert i in ListsOf(es, tests)[e];
  }

  lemma NoSiteTwice(ss: seq<DofRegister.Site>, gs: seq<DofRegister.Group>, tests: bool)
    requires DofRegister.AllRegistered(ss, gs)
    ensures NoRepeats(SitesOf(Entries(AsProbes(gs)), tests))
  {
    SitesAreFlat(Entries(AsProbes(gs)), tests);
    ListsDiffer(ss, gs, tests);
    FlatDiffers(ListsOf(Entries(AsProbes(gs)), tests));
  }

  lemma RegisteredOnce(ss: seq<DofRegister.Site>, gs: seq<DofRegister.Group>)
    requires DofRegister.AllRegistered(ss, gs)
    ensures EachOnce(|ss|, SitesOf(Entries(AsProbes(gs)), false), SitesOf(Entries(AsProbes(gs)), true))
  {
    var sites, tests := SitesOf(Entries(AsProbes(gs)), false), SitesOf(Entries(AsProbes(gs)), true);
    NoSiteTwice(ss, gs, false);
    NoSiteTwice(ss, gs, true);
    forall i: nat | i < |ss| ensures i in sites || i in tests {
      SiteIsListed(ss, gs, i);
    }
    forall k | 0 <= k < |sites| ensures sites[k] < |ss| && sites[k] !in tests {
      ListedIsSite(ss, gs, sites[k], false);
      if sites[k] in tests {
        ListedIsSite(ss, gs, sites[k], true);
      }
    }
    forall k | 0 <= k < |tests| ensures tests[k] < |ss| {
      ListedIsSite(ss, gs, tests[k], true);
    }
  }

  // ---- The whole ----

  /** A DOF of all the sites by probe and function, with a slot for each. */
  ghost predicate IsBuilt(
    ss: seq<DofRegister.Site>, gs: seq<DofRegister.Group>, p: DofWrite.Parts, slots: seq<nat>,
    hs: seq<DofLayout.Header>, t: Tables, rs: seq<Record>, name: nat, provider: seq<byte>, attributes: seq<nat>)
  {
    && DofRegister.AllRegistered(ss, gs) && IsFile(p, hs, t, rs, name, provider, attributes, AsProbes(gs))
    && SlotsFilled(hs, t, slots) && |t.prargs| <= 255 * |gs| && |p.data| <= DataBound(t, attributes)
  }

  /** build_dof, from the sites' fields: a site of an encoding that is not known, or the
      DOF's bytes and every site's slot, no two the same. */
  method BuildDof(provider: seq<byte>, attributes: seq<nat>, ss: seq<DofRegister.Site>)
    returns (bad: Option<nat>, p: DofWrite.Parts, slots: seq<nat>, ghost gs: seq<DofRegister.Group>,
             ghost hs: seq<DofLayout.Header>, ghost t: Tables, ghost rs: seq<Record>, ghost name: nat)
    ensures bad.Some? ==>
              DofRegister.BadAt(ss, bad.value) && forall i: nat :: i < bad.value ==> !DofRegister.BadAt(ss, i)
    ensures bad.None? ==> forall i: nat :: !DofRegister.BadAt(ss, i)
    ensures bad.None? ==> IsBuilt(ss, gs, p, slots, hs, t, rs, name, provider, attributes)
    ensures bad.None? ==> |slots| == |ss| && forall i, j :: 0 <= i < j < |ss| ==> slots[i] != slots[j]
  {
    p, slots, gs, hs, t, rs, name := DofWrite.Parts([], [], []), [], [], [], Tables([], [], [], [], [], []), [], 0;
    var r := DofRegister.Register(ss);
    if r.Err? {
      bad := Some(r.site);
      return;
    }
    bad, gs := None, r.groups;
    RegisteredOnce(ss, gs);
    p, slots, hs, t, rs, name := WriteDof(provider, attributes, AsProbes(r.groups), |ss|);
    forall i, j | 0 <= i < j < |ss| ensures slots[i] != slots[j] {
      DofLayoutOrder(p, hs, t, attributes, name);
      if slots[i] == slots[j] {
        SlotsDiffer(|ss|, slots, t.sites, t.tests, hs[2].off, if t.tests == [] then 0 else hs[3].off, i, j);
      }
    }
  }

  /** The tests' slots come after the sites'. */
  lemma DofLayoutOrder(p: DofWrite.Parts, hs: seq<DofLayout.Header>, t: Tables, attributes: seq<nat>, name: nat)
    requires IsDof(p, hs, t, attributes, name)
    ensures |hs| == ProviderIndex(t) + 2 && (t.tests != [] ==> hs[2].off + 4 * |t.sites| <= hs[3].off)
  {
    var sections := Sections(t, attributes, name);
    SectionsAre(t, attributes, name);
    InPlace(p.data, |p.head|, sections, hs, 2);
    if t.tests != [] {
      SectionsInOrder(p, sections, hs, 2, 3);
    }
  }

  // ---- Names of symbols have no NUL in them ----

  lemma {:induction false} HyphenateNulFree(name: seq<byte>)
    requires NulFree(name)
    ensures NulFree(DofRegister.Hyphenate(name))
  {
    if |name| >= 2 {
      if name[0] == DofRegister.UNDERSCORE && name[1] == DofRegister.UNDERSCORE {
        HyphenateNulFree(name[2..]);
      } else {
        HyphenateNulFree(name[1..]);
      }
    }
  }

  predicate SiteNamed(s: DofRegister.Site) { NulFree(s.field) && NulFree(s.subsection) }

  lemma {:induction false} FieldFrom(ss: seq<DofRegister.Site>, field: seq<byte>)
    requires field in DofRegister.FieldsOf(ss) && forall i :: 0 <= i < |ss| ==> SiteNamed(ss[i])
    ensures NulFree(field) && DofRegister.FunctionsOf(ss, field) != []
  {
    var n := |ss| - 1;
    if ss[n].field != field {
      FieldFrom(ss[..n], field);
    }
  }

  lemma {:induction false} FunctionFrom(ss: seq<DofRegister.Site>, field: seq<byte>, f: seq<byte>)
    requires f in DofRegister.FunctionsOf(ss, field) && forall i :: 0 <= i < |ss| ==> SiteNamed(ss[i])
    ensures NulFree(f)
  {
    var n := |ss| - 1;
    assert SiteNamed(ss[n]);
    if f in DofRegister.FunctionsOf(ss[..n], field) {
      FunctionFrom(ss[..n], field, f);
    }
  }

  lemma GroupNamed(ss: seq<DofRegister.Site>, gs: seq<DofRegister.Group>, k: nat)
    requires DofRegister.AllRegistered(ss, gs) && k < |gs| && forall i :: 0 <= i < |ss| ==> SiteNamed(ss[i])
    ensures ProbeNamed(AsProbe(gs[k]))
  {
    var g := gs[k];
    assert DofRegister.ProbeOk(ss, g);
    assert DofRegister.Keys(gs)[k] == g.field;
    FirstsHas(DofRegister.FieldsOf(ss), g.field);
    FieldFrom(ss, g.field);
    HyphenateNulFree(g.field);
    var names := DofRegister.FunctionsOf(ss, g.field);
    FirstsHas(names, names[0]);
    forall j | 0 <= j < |g.instances| ensures NulFree(g.instances[j].funcName) {
      assert DofRegister.Names(g.instances)[j] in Firsts(names);
      FirstsHas(names, g.instances[j].funcName);
      FunctionFrom(ss, g.field, g.instances[j].funcName);
    }
  }

  /** So every DOF below 4 GiB of a named provider decodes to what was registered exactly
      if all counts fit and each probe's argument types can be stored. */
  lemma BuiltReadsBack(
    ss: seq<DofRegister.Site>, gs: seq<DofRegister.Group>, p: DofWrite.Parts, slots: seq<nat>,
    hs: seq<DofLayout.Header>, t: Tables, rs: seq<Record>, name: nat, provider: seq<byte>, attributes: seq<nat>)
    requires IsBuilt(ss, gs, p, slots, hs, t, rs, name, provider, attributes)
    requires forall i :: 0 <= i < |ss| ==> SiteNamed(ss[i])
    requires |p.Bytes()| < 0x1_0000_0000 && |attributes| == 5 && Storable(provider)
    ensures CanBeRead(p, hs, t, rs, name, provider, attributes, AsProbes(gs), slots) && HDR_SIZE <= |p.Bytes()|
    ensures AllRead(FileTables(p.Bytes()), LocatedEntries(Entries(AsProbes(gs)), slots))
            <==> AllRecordable(Entries(AsProbes(gs)))
  {
    forall k: nat | k < |gs| ensures ProbeNamed(AsProbes(gs)[k]) {
      GroupNamed(ss, gs, k);
    }
    DofReadsBack(p, hs, t, rs, name, provider, attributes, AsProbes(gs), slots);
  }

  // ---- Each site, from its symbol to the bytes ----

  /** What is read is the instance of the site: its probe's name spelled out of the field,
      its function's, the arguments the probe's first probe site declares, and among its
      sites' places, or its tests', the site's slot. */
  ghost predicate IsOfSite(ss: seq<DofRegister.Site>, slots: seq<nat>, i: nat, r: Read)
    requires i < |ss| == |slots|
  {
    && (exists at :: DofRegister.Spells(ss[i].field, r.name, at))
    && DofRegister.IsFunctionName(ss[i].subsection, r.funcName)
    && (forall f: nat :: DofRegister.IsFirstProbeSite(ss, ss[i].field, f) ==>
          ss[f].args == Some(r.args) == Some(r.nativeArgs) && r.mapping == Iota(|r.args| % 256))
    && slots[i] in if ss[i].test then r.tests else r.sites
  }

  lemma SiteGroup(ss: seq<DofRegister.Site>, gs: seq<DofRegister.Group>, i: nat) returns (k: nat, j: nat)
    requires DofRegister.AllRegistered(ss, gs) && i < |ss|
    ensures k < |gs| && j < |gs[k].instances| && i in ListOf(gs[k].instances[j], ss[i].test)
    ensures gs[k].field == ss[i].field && gs[k].args == DofRegister.ArgsOf(ss, ss[i].field)
    ensures gs[k].instances[j].funcName == DofRegister.FunctionName(ss[i].subsection)
  {
    k, j := DofRegister.EachSiteRegistered(ss, gs, i);
    DofRegister.OnlyThere(ss, gs, i, k, j);
    assert DofRegister.ProbeOk(ss, gs[k]);
  }

  lemma SlotAmong(slots: seq<nat>, list: seq<nat>, i: nat)
    requires i in list && i < |slots|
    ensures slots[i] in AtSlots(slots, list)
  {
    var k :| 0 <= k < |list| && list[k] == i;
    assert AtSlots(slots, list)[k] == slots[i];
  }

  /** Of a built DOF that reads back, each site has an entry. */
  lemma SiteReadsBack(
    ss: seq<DofRegister.Site>, gs: seq<DofRegister.Group>, p: DofWrite.Parts, slots: seq<nat>,
    hs: seq<DofLayout.Header>, t: Tables, rs: seq<Record>, name: nat, provider: seq<byte>, attributes: seq<nat>, i: nat)
    returns (e: nat)
    requires IsBuilt(ss, gs, p, slots, hs, t, rs, name, provider, attributes)
    requires (forall i :: 0 <= i < |ss| ==> SiteNamed(ss[i])) && forall i: nat :: !DofRegister.BadAt(ss, i)
    requires |p.Bytes()| < 0x1_0000_0000 && |attributes| == 5 && Storable(provider) && i < |ss| == |slots|
    requires AllRecordable(Entries(AsProbes(gs)))
    ensures HDR_SIZE <= |p.Bytes()| && PROBE_SIZE * e + PROBE_SIZE <= |FileTables(p.Bytes()).records|
    ensures IsOfSite(ss, slots, i, ReadEntry(FileTables(p.Bytes()), e))
  {
    BuiltReadsBack(ss, gs, p, slots, hs, t, rs, name, provider, attributes);
    var k, j := SiteGroup(ss, gs, i);
    e := EntryOf(gs, k, j);
    var entry := LocatedEntry(Entry(AsProbe(gs[k]), gs[k].instances[j]), slots);
    assert LocatedEntries(Entries(AsProbes(gs)), slots)[e] == entry;
    assert Reads(FileTables(p.Bytes()), e, entry);
    EntryIsOfSite(ss, gs, slots, i, k, j);
  }

  lemma EntryIsOfSite(
    ss: seq<DofRegister.Site>, gs: seq<DofRegister.Group>, slots: seq<nat>, i: nat, k: nat, j: nat)
    requires i < |ss| == |slots| && k < |gs| && j < |gs[k].instances| && forall i: nat :: !DofRegister.BadAt(ss, i)
    requires i in ListOf(gs[k].instances[j], ss[i].test)
    requires gs[k].field == ss[i].field && gs[k].args == DofRegister.ArgsOf(ss, ss[i].field)
    requires gs[k].instances[j].funcName == DofRegister.FunctionName(ss[i].subsection)
    ensures IsOfSite(ss, slots, i, Registered(LocatedEntry(Entry(AsProbe(gs[k]), gs[k].instances[j]), slots)))
  {
    var at := DofRegister.HyphenateSpells(ss[i].field);
    DofRegister.FunctionNameIs(ss[i].subsection);
    SlotAmong(slots, ListOf(gs[k].instances[j], ss[i].test), i);
    forall f: nat | DofRegister.IsFirstProbeSite(ss, ss[i].field, f)
      ensures ss[f].args == gs[k].args && gs[k].args.Some?
    {
      DofRegister.ArgsAreFirst(ss, ss[i].field, f);
    }
  }

  // ---- A type that is lost ----

  /** In place of an empty argument the string after it is read. */
  lemma NextIsRead(tab: seq<byte>, strs: seq<seq<byte>>, last: seq<byte>, n: nat, at: nat)
    requires ArgsAt(strs, n, [[]], at) && n + 1 < |strs| && Storable(strs[n + 1]) && tab == [0] + Packed(strs + [last])
    ensures ReadStrs(tab, at, 1) == [strs[n + 1]]
  {
    var after := strs[n + 1..] + [last];
    HeldFrom(tab, strs, last, n, [[]], at);
    SkipEmpty(after);
    ReadFirst(tab, at, after);
  }

  lemma SkipEmpty(after: seq<seq<byte>>)
    ensures Packed([[]] + after) == Packed(after)
  {
    JoinTail([[]], after);
    assert [[]][1..] + after == after;
  }

  lemma ReadFirst(tab: seq<byte>, at: nat, strs: seq<seq<byte>>)
    requires strs != [] && Storable(strs[0]) && HoldsAt(tab, at, Packed(strs))
    ensures ReadStrs(tab, at, 1) == [strs[0]]
  {
    FirstReads(tab, at, strs[0], Packed(strs[1..]));
  }

  /** A site of probe "p" in function "f" with one argument, of the empty type. */
  function EmptyTyped(): DofRegister.Site { DofRegister.Site([0x70], Some([[]]), false, [0x66]) }

  function EmptyTypedProbe(): Probe { Probe([0x70], [[]], [DofTables.Instance([0x66], [0], [])]) }

  lemma OneSite(ss: seq<DofRegister.Site>)
    requires ss == [EmptyTyped()]
    ensures Firsts(DofRegister.FieldsOf(ss)) == [[0x70]] && Firsts(DofRegister.FunctionsOf(ss, [0x70])) == [[0x66]]
    ensures DofRegister.ArgsOf(ss, [0x70]) == Some([[]])
    ensures DofRegister.SitesAt(ss, [0x70], [0x66], false) == [0] && DofRegister.SitesAt(ss, [0x70], [0x66], true) == []
  {
    var none: seq<DofRegister.Site> := [];
    assert ss == none + [EmptyTyped()];
    DofRegister.FieldsPush(none, EmptyTyped());
    DofRegister.FunctionsPush(none, EmptyTyped(), [0x70]);
    DofRegister.ArgsPush(none, EmptyTyped(), [0x70]);
    DofRegister.SitesPush(none, EmptyTyped(), [0x70], [0x66], false);
    DofRegister.SitesPush(none, EmptyTyped(), [0x70], [0x66], true);
  }

  lemma OneGroupIs(ss: seq<DofRegister.Site>, g: DofRegister.Group)
    requires ss == [EmptyTyped()] && DofRegister.ProbeOk(ss, g) && g.field == [0x70]
    ensures AsProbe(g) == EmptyTypedProbe()
  {
    OneSite(ss);
    assert DofRegister.Names(g.instances)[0] == [0x66];
    assert DofRegister.InstanceOk(ss, [0x70], g.instances[0]);
    assert g.instances == [DofTables.Instance([0x66], [0], [])];
    assert DofRegister.Hyphenate([0x70]) == [0x70];
  }

  lemma OneGroupOnly(ss: seq<DofRegister.Site>, gs: seq<DofRegister.Group>)
    requires ss == [EmptyTyped()] && DofRegister.AllRegistered(ss, gs)
    ensures AsProbes(gs) == [EmptyTypedProbe()] && |gs| == 1
  {
    OneSite(ss);
    assert |DofRegister.Keys(gs)| == 1 && DofRegister.Keys(gs)[0] == gs[0].field;
    OneGroupIs(ss, gs[0]);
  }

  lemma OneEntryOnly(q: Probe)
    requires |q.instances| == 1
    ensures Entries([q]) == [Entry(q, q.instances[0])]
    ensures StringsOf([q]) == [q.name] + q.args + q.args + [q.instances[0].funcName]
    ensures SitesOf(Entries([q]), false) == q.instances[0].sites && SitesOf(Entries([q]), true) == q.instances[0].tests
  {
    var es := [Entry(q, q.instances[0])];
    assert [q][..0] == [] && es[..0] == [];
    assert Entries([q]) == Entries([]) + EntriesOf(q, 1);
    assert StringsOf([q]) == StringsOf([]) + StringsTo(q, 1);
    assert FunctionNames(q, 1) == [q.instances[0].funcName];
    assert SitesOf(es, false) == SitesOf([], false) + q.instances[0].sites;
    assert SitesOf(es, true) == SitesOf([], true) + q.instances[0].tests;
  }

  lemma {:induction false} PackedBelow(strs: seq<seq<byte>>, most: nat)
    requires forall i :: 0 <= i < |strs| ==> |strs[i]| <= most
    ensures |Packed(strs)| <= |strs| * (most + 1)
  {
    if strs != [] {
      PackedBelow(strs[1..], most);
      assert |strs| * (most + 1) == |strs[1..]| * (most + 1) + (most + 1);
      assert |Packed(strs)| == |Stored(strs[0])| + |Packed(strs[1..])|;
    }
  }

  lemma ArgsRead(tab: seq<byte>, strs: seq<seq<byte>>, provider: seq<byte>, nargv: nat, xargv: nat)
    requires |strs| == 4 && strs[0] != [] && strs[1] == strs[2] == [] && Storable(strs[3])
    requires ArgsAmong(strs, [[]], nargv, xargv) && tab == [0] + Packed(strs + [provider])
    ensures ReadStrs(tab, xargv, 1) == [strs[3]]
  {
    var n: nat :| ArgsFrom(strs, n, [[]], nargv, xargv);
    assert strs[n..n + 1][0] == [] && strs[n + 1..n + 2][0] == [];
    assert n == 1;
    NextIsRead(tab, strs, provider, 2, xargv);
  }

  lemma RecordRead(file: Tables, e: Entry, r: Record)
    requires EntryAt(file, 0, e.probe, e.inst, r) && Small(file)
    requires |e.probe.args| == 1 && |e.inst.sites| < 0x1_0000 && |e.inst.tests| < 0x1_0000
    ensures PROBE_SIZE <= |file.records| && ReadEntry(file, 0).args == ReadStrs(file.strtab, r.xargv, 1)
  {
    RecordIn(file, 0, r);
    OffsetsFit(file, e, r);
    RecordReadsBack(r);
  }

  /** A probe of one empty type, in one function: the function's name is read for the type. */
  lemma EmptyTypeRead(
    p: DofWrite.Parts, hs: seq<DofLayout.Header>, t: Tables, rs: seq<Record>, name: nat,
    provider: seq<byte>, attributes: seq<nat>, slots: seq<nat>, q: Probe)
    requires CanBeRead(p, hs, t, rs, name, provider, attributes, [q], slots)
    requires q.args == [[]] && |q.instances| == 1 && q.name != [] && q.instances[0].funcName != []
    requires |q.instances[0].sites| == 1 && q.instances[0].tests == []
    ensures HDR_SIZE <= |p.Bytes()| && PROBE_SIZE <= |FileTables(p.Bytes()).records|
    ensures ReadEntry(FileTables(p.Bytes()), 0).args == [q.instances[0].funcName]
  {
    OneEntryOnly(q);
    FileReadable(p, hs, t, rs, name, provider, attributes, [q], slots);
    assert ProbeNamed([q][0]);
    OneStrings(q, StringsOf([q]));
    LocatedOne(Entries([q]), slots);
    ReadsNext(Located(t, slots), LocatedEntries(Entries([q]), slots), rs, StringsOf([q]), provider);
  }

  lemma OneStrings(q: Probe, strs: seq<seq<byte>>)
    requires q.args == [[]] && |q.instances| == 1 && strs == [q.name] + q.args + q.args + [q.instances[0].funcName]
    ensures |strs| == 4 && strs[0] == q.name && strs[1] == strs[2] == [] && strs[3] == q.instances[0].funcName
  {
  }

  lemma LocatedOne(es: seq<Entry>, slots: seq<nat>)
    requires |es| == 1
    ensures var l := LocatedEntries(es, slots);
            && |l| == 1 && l[0].probe == es[0].probe
            && |l[0].inst.sites| == |es[0].inst.sites| && |l[0].inst.tests| == |es[0].inst.tests|
  {
  }

  lemma ReadsNext(file: Tables, es: seq<Entry>, rs: seq<Record>, strs: seq<seq<byte>>, provider: seq<byte>)
    requires Readable(file, es, rs, strs, provider) && |es| == 1 && es[0].probe.args == [[]]
    requires |es[0].inst.sites| < 0x1_0000 && |es[0].inst.tests| < 0x1_0000
    requires |strs| == 4 && strs[0] != [] && strs[1] == strs[2] == [] && Storable(strs[3])
    ensures PROBE_SIZE <= |file.records| && ReadEntry(file, 0).args == [strs[3]]
  {
    assert EntryNamed(strs, es[0], rs[0]);
    assert EntryAt(file, 0, es[0].probe, es[0].inst, rs[0]);
    RecordRead(file, es[0], rs[0]);
    ArgsRead(file.strtab, strs, provider, rs[0].nargv, rs[0].xargv);
  }

  lemma OneIsWritten(t: Tables, rs: seq<Record>, q: Probe)
    requires Written(t, Entries([q]), rs) && |q.instances| == 1
    requires |q.instances[0].sites| == 1 && q.instances[0].tests == []
    ensures |t.records| == PROBE_SIZE && |t.relocs| == RELO_SIZE && |t.sites| == 1 && t.tests == []
  {
    OneEntryOnly(q);
  }

  lemma OneIsPacked(q: Probe, provider: seq<byte>)
    requires q.args == [[]] && |q.instances| == 1 && |q.name| == |q.instances[0].funcName| == |provider| == 1
    ensures |Packed(StringsOf([q]) + [provider])| <= 10
  {
    OneEntryOnly(q);
    OneStrings(q, StringsOf([q]));
    PackedBelow(StringsOf([q]) + [provider], 1);
  }

  lemma EmptyTypedSize(
    p: DofWrite.Parts, hs: seq<DofLayout.Header>, t: Tables, rs: seq<Record>, name: nat,
    provider: seq<byte>, attributes: seq<nat>, q: Probe)
    requires IsFile(p, hs, t, rs, name, provider, attributes, [q]) && |attributes| == 5 && |provider| == 1
    requires q.args == [[]] && |q.instances| == 1 && |q.name| == |q.instances[0].funcName| == 1
    requires |q.instances[0].sites| == 1 && q.instances[0].tests == []
    requires |t.prargs| <= 255 && |p.data| <= DataBound(t, attributes)
    ensures |p.Bytes()| < 0x1_0000_0000
  {
    OneIsWritten(t, rs, q);
    OneIsPacked(q, provider);
    DofLayoutOrder(p, hs, t, attributes, name);
    HeadIsShort(p, hs, t, attributes, name);
  }

  lemma HeadIsShort(p: DofWrite.Parts, hs: seq<DofLayout.Header>, t: Tables, attributes: seq<nat>, name: nat)
    requires IsDof(p, hs, t, attributes, name)
    ensures |p.head| <= 320 && p.strtab == t.strtab
  {
    SectionsAre(t, attributes, name);
  }

  lemma EmptyTypedIs(q: Probe)
    requires q == EmptyTypedProbe()
    ensures q.args == [[]] && |q.instances| == 1 && |q.name| == |q.instances[0].funcName| == 1 && AllNamed([q])
    ensures |q.instances[0].sites| == 1 && q.instances[0].tests == [] && q.instances[0].funcName == [0x66]
  {
    assert ProbeNamed(q);
  }

  lemma EmptyTypedReads(
    ss: seq<DofRegister.Site>, gs: seq<DofRegister.Group>, p: DofWrite.Parts, slots: seq<nat>,
    hs: seq<DofLayout.Header>, t: Tables, rs: seq<Record>, name: nat, provider: seq<byte>, attributes: seq<nat>)
    requires IsBuilt(ss, gs, p, slots, hs, t, rs, name, provider, attributes)
    requires ss == [EmptyTyped()] && |attributes| == 5 && |provider| == 1 && Storable(provider)
    ensures HDR_SIZE <= |p.Bytes()| && PROBE_SIZE <= |FileTables(p.Bytes()).records|
    ensures ReadEntry(FileTables(p.Bytes()), 0).args == [[0x66]]
  {
    OneGroupOnly(ss, gs);
    var q := EmptyTypedProbe();
    EmptyTypedIs(q);
    EmptyTypedSize(p, hs, t, rs, name, provider, attributes, q);
    EmptyTypeRead(p, hs, t, rs, name, provider, attributes, slots, q);
  }

  lemma NoneBad(ss: seq<DofRegister.Site>, bad: Option<nat>)
    requires ss == [EmptyTyped()] && (bad.Some? ==> DofRegister.BadAt(ss, bad.value))
    ensures bad.None?
  {
  }

  /** A DOF of that site: its argument's type reads as "f". */
  method EmptyTypeIsLost(provider: seq<byte>, attributes: seq<nat>) returns (p: DofWrite.Parts)
    requires |attributes| == 5 && |provider| == 1 && Storable(provider)
    ensures HDR_SIZE <= |p.Bytes()| && PROBE_SIZE <= |FileTables(p.Bytes()).records|
    ensures ReadEntry(FileTables(p.Bytes()), 0).args == [[0x66]] && EmptyTyped().args == Some([[]])
  {
    var ss := [EmptyTyped()];
    var bad, slots;
    ghost var gs, hs, t, rs, name;
    bad, p, slots, gs, hs, t, rs, name := BuildDof(provider, attributes, ss);
    NoneBad(ss, bad);
    EmptyTypedReads(ss, gs, p, slots, hs, t, rs, name, provider, attributes);
  }
}
