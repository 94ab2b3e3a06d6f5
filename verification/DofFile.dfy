/** A provider's DOF, whole (dtrace.rs, write_dof). */
module DofFile {
  import opened DofBytes
  import opened DofTables
  import opened DofLayout
  import opened DofWrite

  // ---- The sections ----

  function U32s(vals: seq<nat>): (b: seq<byte>)
    ensures |b| == 4 * |vals|
  {
    if vals == [] then [] else U32s(vals[..|vals| - 1]) + Le(vals[|vals| - 1], 4)
  }

  lemma {:induction false} U32At(vals: seq<nat>, k: nat)
    requires k < |vals| && vals[k] < 0x1_0000_0000
    ensures U32(U32s(vals), 4 * k) == vals[k]
  {
    var n := |vals| - 1;
    if k == n {
      PowersOf256();
      LeNum(vals[n], 4);
      assert U32s(vals)[4 * k..4 * k + 4] == Le(vals[n], 4);
    } else {
      U32At(vals[..n], k);
      assert U32s(vals)[4 * k..4 * k + 4] == U32s(vals[..n])[4 * k..4 * k + 4];
    }
  }

  /** The provider's record: the indices of its sections, its name, its attributes, and
      the index of its is-enabled tests' offsets, 0 if it has none. */
  function ProviderFields(t: Tables, attributes: seq<nat>, name: nat): seq<nat> {
    [0, 1, 2, 3, name] + attributes + [if t.tests == [] then 0 else 4]
  }

  function TestSections(t: Tables): seq<Section> {
    if t.tests == [] then [] else [Section(PRENOFFS, 2, 4, Zeros(4 * |t.tests|))]
  }

  /** ProbeTables::sections. */
  function Sections(t: Tables, attributes: seq<nat>, name: nat): seq<Section> {
    var first := [
      Section(PROBES, 3, PROBE_SIZE, t.records), Section(PRARGS, 0, 1, t.prargs),
      Section(PROFFS, 2, 4, Zeros(4 * |t.sites|))] + TestSections(t);
    first + [
      Section(PROVIDER, 2, 0, U32s(ProviderFields(t, attributes, name))),
      Section(RELTAB, 3, RELO_SIZE, t.relocs),
      Section(URELHDR, 2, 0, U32s([0, |first| + 2, 1]))]
  }

  /** Where the provider's record is among the DOF's sections. */
  function ProviderIndex(t: Tables): nat { if t.tests == [] then 4 else 5 }

  lemma SectionsAre(t: Tables, attributes: seq<nat>, name: nat)
    ensures var ss := Sections(t, attributes, name);
            && |ss| == ProviderIndex(t) + 2
            && ss[0].data == t.records && ss[1].data == t.prargs && |ss[2].data| == 4 * |t.sites|
            && (t.tests != [] ==> |ss[3].data| == 4 * |t.tests|)
            && ss[ProviderIndex(t) - 1].data == U32s(ProviderFields(t, attributes, name))
            && ss[ProviderIndex(t)].data == t.relocs
            && Alignable(ss) && forall s :: s in ss ==> s.ty < 0x100 && s.p2align <= 5 && s.entsize < 0x100
  {
  }

  lemma RoomPush(ss: seq<Section>, s: Section)
    ensures Room(ss + [s]) == Room(ss) + 32 + |s.data|
  {
    assert (ss + [s])[..|ss|] == ss;
  }

  /** What the data of all sections take at most. */
  function DataBound(t: Tables, attributes: seq<nat>): nat {
    7 * 32 + |t.records| + |t.prargs| + 4 * |t.sites| + 4 * |t.tests| + 4 * (6 + |attributes|) + |t.relocs| + 12
  }

  lemma RoomOfThree(ss: seq<Section>, a: Section, b: Section, c: Section)
    ensures Room(ss + [a, b, c]) == Room(ss) + 96 + |a.data| + |b.data| + |c.data|
  {
    RoomPush(ss, a);
    RoomPush(ss + [a], b);
    RoomPush(ss + [a] + [b], c);
    assert ss + [a, b, c] == ss + [a] + [b] + [c];
  }

  lemma RoomIsBound(t: Tables, attributes: seq<nat>, name: nat)
    ensures Room(Sections(t, attributes, name)) <= DataBound(t, attributes)
  {
    var a, b, c := Section(PROBES, 3, PROBE_SIZE, t.records), Section(PRARGS, 0, 1, t.prargs),
                   Section(PROFFS, 2, 4, Zeros(4 * |t.sites|));
    RoomOfThree([], a, b, c);
    assert [] + [a, b, c] == [a, b, c];
    var first := [a, b, c] + TestSections(t);
    if t.tests == [] {
      assert first == [a, b, c];
    } else {
      RoomPush([a, b, c], TestSections(t)[0]);
    }
    RoomOfThree(first, Section(PROVIDER, 2, 0, U32s(ProviderFields(t, attributes, name))),
                Section(RELTAB, 3, RELO_SIZE, t.relocs), Section(URELHDR, 2, 0, U32s([0, |first| + 2, 1])));
  }

  // ---- Slots ----

  /** Each index below n is in one of the lists, at one place. */
  ghost predicate EachOnce(n: nat, sites: seq<nat>, tests: seq<nat>) {
    && (forall i: nat :: i < n ==> i in sites || i in tests)
    && (forall k :: 0 <= k < |sites| ==> sites[k] < n && sites[k] !in tests)
    && (forall k :: 0 <= k < |tests| ==> tests[k] < n)
    && (forall j, k :: 0 <= j < k < |sites| ==> sites[j] != sites[k])
    && (forall j, k :: 0 <= j < k < |tests| ==> tests[j] != tests[k])
  }

  ghost predicate SlotsAre(slots: seq<nat>, list: seq<nat>, base: nat) {
    forall k :: 0 <= k < |list| ==> list[k] < |slots| && slots[list[k]] == base + 4 * k
  }

  method FillSlots(n: nat, sites: seq<nat>, tests: seq<nat>, siteBase: nat, testBase: nat) returns (slots: seq<nat>)
    requires EachOnce(n, sites, tests)
    ensures |slots| == n && SlotsAre(slots, sites, siteBase) && SlotsAre(slots, tests, testBase)
  {
    slots := seq(n, _ => 0);
    for k := 0 to |sites|
      invariant |slots| == n && forall j :: 0 <= j < k ==> slots[sites[j]] == siteBase + 4 * j
    {
      slots := slots[sites[k] := siteBase + 4 * k];
    }
    for k := 0 to |tests|
      invariant |slots| == n && SlotsAre(slots, sites, siteBase)
      invariant forall j :: 0 <= j < k ==> slots[tests[j]] == testBase + 4 * j
    {
      slots := slots[tests[k] := testBase + 4 * k];
    }
  }

  /** No two sites share a slot, if the tests' offsets come after the sites'. */
  lemma SlotsDiffer(
    n: nat, slots: seq<nat>, sites: seq<nat>, tests: seq<nat>, siteBase: nat, testBase: nat, i: nat, j: nat)
    requires EachOnce(n, sites, tests) && |slots| == n && SlotsAre(slots, sites, siteBase)
    requires SlotsAre(slots, tests, testBase)
    requires tests != [] ==> siteBase + 4 * |sites| <= testBase
    requires i < n && j < n && slots[i] == slots[j]
    ensures i == j
  {
    var (p, k) := Where(n, sites, tests, i);
    var (q, m) := Where(n, sites, tests, j);
    assert slots[i] == (if p then testBase else siteBase) + 4 * k;
    assert slots[j] == (if q then testBase else siteBase) + 4 * m;
  }

  /** The list a site is in, and its place there. */
  ghost function Where(n: nat, sites: seq<nat>, tests: seq<nat>, i: nat): (r: (bool, nat))
    requires EachOnce(n, sites, tests) && i < n
    ensures if r.0 then r.1 < |tests| && tests[r.1] == i else r.1 < |sites| && sites[r.1] == i
  {
    if i in sites then
      var k: nat :| k < |sites| && sites[k] == i;
      (false, k)
    else
      var k: nat :| k < |tests| && tests[k] == i;
      (true, k)
  }

  // ---- The whole ----

  /** What write_dof made: the parts of the file, the sections' headers, and the tables
      it wrote. */
  ghost predicate IsDof(p: Parts, hs: seq<Header>, t: Tables, attributes: seq<nat>, name: nat) {
    && LaidOut(p, Sections(t, attributes, name), hs) && Headed(p, |Sections(t, attributes, name)| + 1)
    && p.strtab == t.strtab
  }

  /** And what the tables hold: every instance of the probes, their strings in the order
      added, the provider's name last. */
  ghost predicate IsFile(
    p: Parts, hs: seq<Header>, t: Tables, rs: seq<Record>, name: nat,
    provider: seq<byte>, attributes: seq<nat>, probes: seq<Probe>)
  {
    && IsDof(p, hs, t, attributes, name) && Written(t, Entries(probes), rs)
    && ArgsFound(StringsOf(probes), Entries(probes), rs)
    && t.strtab == [0] + Packed(StringsOf(probes) + [provider]) && HoldsAt(t.strtab, name, provider + [0])
  }

  /** The offset of the first section of the type, 0 if there is none. */
  function OffsetOf(hs: seq<Header>, ty: nat): nat {
    if hs == [] then 0 else if hs[0].ty == ty then hs[0].off else OffsetOf(hs[1..], ty)
  }

  lemma {:induction false} OffsetIs(hs: seq<Header>, ty: nat, j: nat)
    requires j < |hs| && hs[j].ty == ty && forall i :: 0 <= i < j ==> hs[i].ty != ty
    ensures OffsetOf(hs, ty) == hs[j].off
  {
    if j > 0 {
      OffsetIs(hs[1..], ty, j - 1);
    }
  }

  lemma TypesOf(p: Parts, t: Tables, attributes: seq<nat>, name: nat, hs: seq<Header>)
    requires LaidOut(p, Sections(t, attributes, name), hs)
    ensures |hs| == ProviderIndex(t) + 2 && OffsetOf(AllHeaders(p, hs), PROFFS) == hs[2].off
    ensures t.tests != [] ==> OffsetOf(AllHeaders(p, hs), PRENOFFS) == hs[3].off
  {
    var ss := Sections(t, attributes, name);
    SectionTypes(t, attributes, name);
    SameTypes(p, ss, hs);
    FirstOfType(Header(STRTAB, 1, 1, 0, |p.head| + |p.data|, |p.strtab|), hs, PROFFS, 2);
    if t.tests != [] {
      FirstOfType(Header(STRTAB, 1, 1, 0, |p.head| + |p.data|, |p.strtab|), hs, PRENOFFS, 3);
    }
  }

  lemma SectionTypes(t: Tables, attributes: seq<nat>, name: nat)
    ensures var ss := Sections(t, attributes, name);
            && |ss| == ProviderIndex(t) + 2 && ss[0].ty == PROBES && ss[1].ty == PRARGS && ss[2].ty == PROFFS
            && (t.tests != [] ==> ss[3].ty == PRENOFFS)
  {
  }

  lemma SameTypes(p: Parts, ss: seq<Section>, hs: seq<Header>)
    requires LaidOut(p, ss, hs)
    ensures |hs| == |ss| && forall j: nat :: j < |ss| ==> hs[j].ty == ss[j].ty
  {
    forall j: nat | j < |ss| ensures hs[j].ty == ss[j].ty {
      InPlace(p.data, |p.head|, ss, hs, j);
    }
  }

  lemma FirstOfType(first: Header, hs: seq<Header>, ty: nat, j: nat)
    requires j < |hs| && hs[j].ty == ty && first.ty != ty && forall i :: 0 <= i < j ==> hs[i].ty != ty
    ensures OffsetOf([first] + hs, ty) == hs[j].off
  {
    var all := [first] + hs;
    assert all[j + 1] == hs[j] && forall i :: 0 < i <= j ==> all[i] == hs[i - 1];
    OffsetIs(all, ty, j + 1);
  }

  /** write_dof. */
  method WriteDof(provider: seq<byte>, attributes: seq<nat>, probes: seq<Probe>, n: nat)
    returns (p: Parts, slots: seq<nat>, ghost hs: seq<Header>, ghost t: Tables, ghost rs: seq<Record>, ghost name: nat)
    requires EachOnce(n, SitesOf(Entries(probes), false), SitesOf(Entries(probes), true))
    ensures IsFile(p, hs, t, rs, name, provider, attributes, probes)
    ensures |hs| == ProviderIndex(t) + 2 && |slots| == n && SlotsAre(slots, t.sites, hs[2].off)
    ensures t.tests != [] ==> SlotsAre(slots, t.tests, hs[3].off)
    ensures |t.prargs| <= 255 * |probes| && |p.data| <= DataBound(t, attributes)
  {
    var tables;
    tables, rs := BuildTables(probes);
    var at := AddedAt(tables.strtab, provider);
    var whole := tables.(strtab := Added(tables.strtab, provider));
    ProviderAdded(tables, whole, probes, rs, provider);
    SectionsAre(whole, attributes, at);
    RoomIsBound(whole, attributes, at);
    var headers;
    p, headers := LayOutDof(Sections(whole, attributes, at), whole.strtab);
    TypesOf(p, whole, attributes, at, headers);
    var all := AllHeaders(p, headers);
    slots := FillSlots(n, whole.sites, whole.tests, OffsetOf(all, PROFFS), OffsetOf(all, PRENOFFS));
    hs, t, name := headers, whole, at;
  }

  lemma ProviderAdded(t: Tables, t': Tables, probes: seq<Probe>, rs: seq<Record>, provider: seq<byte>)
    requires Written(t, Entries(probes), rs) && StringsAt(t, StringsOf(probes), Entries(probes), rs)
    requires t' == t.(strtab := Added(t.strtab, provider))
    ensures Written(t', Entries(probes), rs) && t'.strtab == [0] + Packed(StringsOf(probes) + [provider])
    ensures HoldsAt(t'.strtab, AddedAt(t.strtab, provider), provider + [0])
  {
    AddedIsThere(t.strtab, provider);
    WrittenStill(t, t', Entries(probes), rs);
    AddedPacked([0], StringsOf(probes), provider);
  }
}
