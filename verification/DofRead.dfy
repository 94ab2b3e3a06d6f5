/** A DOF read from its bytes alone, as the kernel would: what write_dof (dtrace.rs)
    wrote, and when it reads back. */
module DofRead {
  import opened Alignment
  import opened DofBytes
  import opened DofTables
  import opened DofLayout
  import opened DofWrite
  import opened DofFile

  // ---- The reader ----

  function Word(bytes: seq<byte>, off: nat): nat { if off + 4 <= |bytes| then U32(bytes, off) else 0 }

  /** The first section of the type from the j-th on, n if there is none. */
  function SectionOf(out: seq<byte>, ty: nat, j: nat, n: nat): nat
    decreases n - j
  {
    if j >= n then n else if HeaderAt(out, j).ty == ty then j else SectionOf(out, ty, j + 1, n)
  }

  function ProviderRecord(out: seq<byte>): seq<byte>
    requires HDR_SIZE <= |out|
  {
    SectionData(out, SectionOf(out, PROVIDER, 0, ReadHead(out).nsec))
  }

  function RelocationHeader(out: seq<byte>): seq<byte>
    requires HDR_SIZE <= |out|
  {
    SectionData(out, SectionOf(out, URELHDR, 0, ReadHead(out).nsec))
  }

  /** Where the words of a section are in the file. */
  function Positions(h: Header): seq<nat> { seq(h.size / 4, i requires 0 <= i < h.size / 4 => h.off + 4 * i) }

  /** The tables: by the sections the provider's record names, and the relocation header.
      In place of the sites, which the link fills in, the places of their slots. */
  function FileTables(out: seq<byte>): Tables
    requires HDR_SIZE <= |out|
  {
    var provider := ProviderRecord(out);
    Tables(
      SectionData(out, Word(provider, 4)), SectionData(out, Word(provider, 8)),
      SectionData(out, Word(RelocationHeader(out), 4)),
      Positions(HeaderAt(out, Word(provider, 12))),
      if Word(provider, 40) == 0 then [] else Positions(HeaderAt(out, Word(provider, 40))),
      SectionData(out, Word(provider, 0)))
  }

  // ---- What it finds ----

  lemma {:induction false} SectionFound(out: seq<byte>, ty: nat, j: nat, n: nat, at: nat)
    requires j <= at < n && HeaderAt(out, at).ty == ty && forall i: nat :: j <= i < at ==> HeaderAt(out, i).ty != ty
    ensures SectionOf(out, ty, j, n) == at
    decreases n - j
  {
    if j < at {
      SectionFound(out, ty, j + 1, n, at);
    }
  }

  /** The headers and the data of all sections. */
  lemma AllReadBack(p: Parts, ss: seq<Section>, hs: seq<Header>)
    requires LaidOut(p, ss, hs) && SmallSections(ss, p)
    ensures |hs| == |ss| && forall j: nat :: j <= |ss| ==> HeaderAt(p.Bytes(), j) == AllHeaders(p, hs)[j]
    ensures SectionData(p.Bytes(), 0) == p.strtab
    ensures forall j: nat :: 0 < j <= |ss| ==> SectionData(p.Bytes(), j) == ss[j - 1].data
    ensures forall j: nat :: j < |ss| ==>
              hs[j].size == |ss[j].data| && hs[j].off + hs[j].size <= |p.Bytes()| && hs[j].ty == ss[j].ty
  {
    StringTableReadsBack(p, ss, hs);
    forall j: nat | j < |ss|
      ensures SectionData(p.Bytes(), j + 1) == ss[j].data && HeaderAt(p.Bytes(), j + 1) == hs[j]
      ensures hs[j].size == |ss[j].data| && hs[j].off + hs[j].size <= |p.Bytes()| && hs[j].ty == ss[j].ty
    {
      SectionReadsBack(p, ss, hs, j);
      InPlace(p.data, |p.head|, ss, hs, j);
    }
    forall j: nat | 0 < j <= |ss| ensures SectionData(p.Bytes(), j) == ss[j - 1].data {
      assert SectionData(p.Bytes(), (j - 1) + 1) == ss[j - 1].data;
    }
    forall j: nat | j <= |ss| ensures HeaderAt(p.Bytes(), j) == AllHeaders(p, hs)[j] {
      if j > 0 {
        assert HeaderAt(p.Bytes(), (j - 1) + 1) == hs[j - 1];
      }
    }
  }

  /** The reader finds every section the writer wrote. */
  ghost predicate Found(out: seq<byte>, hs: seq<Header>, t: Tables, attributes: seq<nat>, name: nat) {
    && HDR_SIZE <= |out| && |hs| == ProviderIndex(t) + 2
    && ProviderRecord(out) == U32s(ProviderFields(t, attributes, name))
    && RelocationHeader(out) == U32s([0, ProviderIndex(t) + 1, 1])
    && SectionData(out, 0) == t.strtab && SectionData(out, 1) == t.records && SectionData(out, 2) == t.prargs
    && SectionData(out, ProviderIndex(t) + 1) == t.relocs && HeaderAt(out, 3) == hs[2]
    && hs[2].size == 4 * |t.sites| && hs[2].off + hs[2].size <= |out|
    && (t.tests != [] ==> HeaderAt(out, 4) == hs[3] && hs[3].size == 4 * |t.tests| && hs[3].off + hs[3].size <= |out|)
  }

  lemma SectionList(t: Tables, attributes: seq<nat>, name: nat)
    ensures var ss, i := Sections(t, attributes, name), ProviderIndex(t);
            && |ss| == i + 2 && ss[i - 1].ty == PROVIDER && ss[i + 1].ty == URELHDR
            && ss[i + 1].data == U32s([0, i + 1, 1])
            && forall j: nat :: j < i + 1 ==> ss[j].ty != URELHDR && (j < i - 1 ==> ss[j].ty != PROVIDER)
  {
  }

  lemma FindProvider(out: seq<byte>, p: Parts, hs: seq<Header>, t: Tables, attributes: seq<nat>, name: nat)
    requires |hs| == ProviderIndex(t) + 2
    requires forall j: nat :: j <= |hs| ==> HeaderAt(out, j) == AllHeaders(p, hs)[j]
    requires forall j: nat :: j < |hs| ==> hs[j].ty == Sections(t, attributes, name)[j].ty
    ensures SectionOf(out, PROVIDER, 0, |hs| + 1) == ProviderIndex(t)
    ensures SectionOf(out, URELHDR, 0, |hs| + 1) == ProviderIndex(t) + 2
  {
    var i := ProviderIndex(t);
    SectionList(t, attributes, name);
    forall j: nat | j <= i + 2 ensures HeaderAt(out, j).ty == if j == 0 then STRTAB else hs[j - 1].ty {
    }
    SectionFound(out, PROVIDER, 0, |hs| + 1, i);
    SectionFound(out, URELHDR, 0, |hs| + 1, i + 2);
  }

  lemma AllFound(p: Parts, hs: seq<Header>, t: Tables, attributes: seq<nat>, name: nat)
    requires IsDof(p, hs, t, attributes, name) && |p.Bytes()| < 0x1_0000_0000
    ensures Found(p.Bytes(), hs, t, attributes, name)
  {
    var ss := Sections(t, attributes, name);
    SectionsAre(t, attributes, name);
    SectionList(t, attributes, name);
    AllReadBack(p, ss, hs);
    HeadReadsBack(p, |ss| + 1);
    FindProvider(p.Bytes(), p, hs, t, attributes, name);
  }

  lemma ProviderWords(t: Tables, attributes: seq<nat>, name: nat)
    requires |attributes| == 5
    ensures var w := U32s(ProviderFields(t, attributes, name));
            && |w| == 44 && Word(w, 0) == 0 && Word(w, 4) == 1 && Word(w, 8) == 2 && Word(w, 12) == 3
            && Word(w, 40) == if t.tests == [] then 0 else 4
  {
    var f := ProviderFields(t, attributes, name);
    U32At(f, 0);
    U32At(f, 1);
    U32At(f, 2);
    U32At(f, 3);
    U32At(f, 10);
  }

  lemma RelocationWords(i: nat)
    requires i < 0x1_0000_0000
    ensures Word(U32s([0, i, 1]), 4) == i
  {
    U32At([0, i, 1], 1);
  }

  /** The entries' sites and tests at their slots. */
  function AtSlots(slots: seq<nat>, list: seq<nat>): seq<nat> {
    seq(|list|, i requires 0 <= i < |list| => if list[i] < |slots| then slots[list[i]] else 0)
  }

  /** The tables with their slots for the sites. */
  function Located(t: Tables, slots: seq<nat>): Tables {
    t.(sites := AtSlots(slots, t.sites), tests := AtSlots(slots, t.tests))
  }

  lemma PositionsAre(h: Header, slots: seq<nat>, list: seq<nat>)
    requires h.size == 4 * |list| && SlotsAre(slots, list, h.off)
    ensures Positions(h) == AtSlots(slots, list)
  {
  }

  /** The slots are where the headers of the offsets' sections say. */
  ghost predicate SlotsFilled(hs: seq<Header>, t: Tables, slots: seq<nat>) {
    |hs| > 3 && SlotsAre(slots, t.sites, hs[2].off) && (t.tests != [] ==> SlotsAre(slots, t.tests, hs[3].off))
  }

  lemma FileTablesAre(p: Parts, hs: seq<Header>, t: Tables, attributes: seq<nat>, name: nat, slots: seq<nat>)
    requires IsDof(p, hs, t, attributes, name) && |p.Bytes()| < 0x1_0000_0000 && |attributes| == 5
    requires SlotsFilled(hs, t, slots)
    ensures HDR_SIZE <= |p.Bytes()| && FileTables(p.Bytes()) == Located(t, slots) && Small(t)
  {
    AllFound(p, hs, t, attributes, name);
    FoundTables(p.Bytes(), hs, t, attributes, name, slots);
    FoundSmall(p.Bytes(), hs, t, attributes, name);
  }

  lemma FoundSmall(out: seq<byte>, hs: seq<Header>, t: Tables, attributes: seq<nat>, name: nat)
    requires Found(out, hs, t, attributes, name) && |out| < 0x1_0000_0000
    ensures Small(t) && |t.records| < 0x1_0000_0000
  {
  }

  lemma FoundTables(out: seq<byte>, hs: seq<Header>, t: Tables, attributes: seq<nat>, name: nat, slots: seq<nat>)
    requires Found(out, hs, t, attributes, name) && |attributes| == 5 && SlotsFilled(hs, t, slots)
    ensures FileTables(out) == Located(t, slots)
  {
    ProviderWords(t, attributes, name);
    RelocationWords(ProviderIndex(t) + 1);
    PositionsAre(hs[2], slots, t.sites);
    if t.tests != [] {
      PositionsAre(hs[3], slots, t.tests);
    }
  }

  // ---- Entries by their slots ----

  function LocatedEntry(e: Entry, slots: seq<nat>): Entry {
    e.(inst := e.inst.(sites := AtSlots(slots, e.inst.sites), tests := AtSlots(slots, e.inst.tests)))
  }

  function LocatedEntries(es: seq<Entry>, slots: seq<nat>): seq<Entry> {
    seq(|es|, k requires 0 <= k < |es| => LocatedEntry(es[k], slots))
  }

  lemma AtSlotsJoin(slots: seq<nat>, a: seq<nat>, b: seq<nat>)
    ensures AtSlots(slots, a + b) == AtSlots(slots, a) + AtSlots(slots, b)
  {
  }

  lemma {:induction false} LocatedSites(es: seq<Entry>, slots: seq<nat>, tests: bool)
    ensures SitesOf(LocatedEntries(es, slots), tests) == AtSlots(slots, SitesOf(es, tests))
  {
    if es != [] {
      var n := |es| - 1;
      LocatedSites(es[..n], slots, tests);
      assert LocatedEntries(es, slots)[..n] == LocatedEntries(es[..n], slots);
      AtSlotsJoin(slots, SitesOf(es[..n], tests), if tests then es[n].inst.tests else es[n].inst.sites);
    }
  }

  lemma LocatedHas(xs: seq<nat>, off: nat, ys: seq<nat>, slots: seq<nat>)
    requires HasAt(xs, off, ys)
    ensures HasAt(AtSlots(slots, xs), off, AtSlots(slots, ys))
  {
    forall i | 0 <= i < |ys| ensures AtSlots(slots, xs)[off + i] == AtSlots(slots, ys)[i] {
      assert xs[off..off + |ys|][i] == ys[i];
    }
  }

  lemma LocatedWritten(t: Tables, es: seq<Entry>, rs: seq<Record>, slots: seq<nat>)
    requires Written(t, es, rs)
    ensures Written(Located(t, slots), LocatedEntries(es, slots), rs)
  {
    var es' := LocatedEntries(es, slots);
    LocatedSites(es, slots, false);
    LocatedSites(es, slots, true);
    forall k: nat | k < |es| ensures EntryAt(Located(t, slots), k, es'[k].probe, es'[k].inst, rs[k]) {
      assert EntryAt(t, k, es[k].probe, es[k].inst, rs[k]);
      LocatedHas(t.sites, rs[k].offidx, es[k].inst.sites, slots);
      LocatedHas(t.tests, rs[k].enoffidx, es[k].inst.tests, slots);
    }
  }

  // ---- When everything reads back ----

  /** No name has a NUL in it, and each probe has an instance. */
  ghost predicate AllNamed(probes: seq<Probe>) { forall i :: 0 <= i < |probes| ==> ProbeNamed(probes[i]) }

  ghost predicate ProbeNamed(p: Probe) {
    NulFree(p.name) && p.instances != [] && forall j :: 0 <= j < |p.instances| ==> NulFree(p.instances[j].funcName)
  }

  lemma {:induction false} EntriesNamed(probes: seq<Probe>)
    requires AllNamed(probes)
    ensures forall k: nat :: k < |Entries(probes)| ==> Named(Entries(probes)[k])
  {
    if probes != [] {
      EntriesNamed(probes[..|probes| - 1]);
      assert ProbeNamed(probes[|probes| - 1]);
    }
  }

  lemma ArgStill(s: seq<byte>, es: seq<Entry>, more: seq<Entry>)
    requires IsArg(s, es)
    ensures IsArg(s, es + more)
  {
    var k :| 0 <= k < |es| && s in es[k].probe.args;
    assert (es + more)[k] == es[k];
  }

  lemma ProbeStrings(p: Probe, es: seq<Entry>)
    requires ProbeNamed(p)
    ensures StringsFrom(StringsTo(p, |p.instances|), es + EntriesOf(p, |p.instances|))
  {
    var strs, all := StringsTo(p, |p.instances|), es + EntriesOf(p, |p.instances|);
    assert all[|es|] == Entry(p, p.instances[0]);
    forall i | 0 <= i < |strs| ensures NulFree(strs[i]) || IsArg(strs[i], all) {
      if 0 < i <= 2 * |p.args| {
        assert strs[i] in p.args && all[|es|].probe == p;
      } else if i > 2 * |p.args| {
        assert strs[i] == p.instances[i - 1 - 2 * |p.args|].funcName;
      }
    }
  }

  lemma {:induction false} StringsAreFrom(probes: seq<Probe>)
    requires AllNamed(probes)
    ensures StringsFrom(StringsOf(probes), Entries(probes))
  {
    if probes != [] {
      var n := |probes| - 1;
      var front, p := probes[..n], probes[n];
      StringsAreFrom(front);
      assert ProbeNamed(p);
      ProbeStrings(p, Entries(front));
      forall i | 0 <= i < |StringsOf(front)|
        ensures NulFree(StringsOf(front)[i]) || IsArg(StringsOf(front)[i], Entries(probes))
      {
        if IsArg(StringsOf(front)[i], Entries(front)) {
          ArgStill(StringsOf(front)[i], Entries(front), EntriesOf(p, |p.instances|));
        }
      }
    }
  }

  lemma ArgsOfLocated(strs: seq<seq<byte>>, es: seq<Entry>, slots: seq<nat>)
    requires StringsFrom(strs, es)
    ensures StringsFrom(strs, LocatedEntries(es, slots))
  {
    forall i | 0 <= i < |strs| && IsArg(strs[i], es) ensures IsArg(strs[i], LocatedEntries(es, slots)) {
      var k :| 0 <= k < |es| && strs[i] in es[k].probe.args;
      assert LocatedEntries(es, slots)[k].probe == es[k].probe;
    }
  }

  /** A file whose names can be read. */
  ghost predicate CanBeRead(
    p: Parts, hs: seq<Header>, t: Tables, rs: seq<Record>, name: nat,
    provider: seq<byte>, attributes: seq<nat>, probes: seq<Probe>, slots: seq<nat>)
  {
    && IsFile(p, hs, t, rs, name, provider, attributes, probes) && |p.Bytes()| < 0x1_0000_0000
    && |attributes| == 5 && Storable(provider) && AllNamed(probes)
    && SlotsFilled(hs, t, slots)
  }

  lemma FileReadable(
    p: Parts, hs: seq<Header>, t: Tables, rs: seq<Record>, name: nat,
    provider: seq<byte>, attributes: seq<nat>, probes: seq<Probe>, slots: seq<nat>)
    requires CanBeRead(p, hs, t, rs, name, provider, attributes, probes, slots)
    ensures HDR_SIZE <= |p.Bytes()| && FileTables(p.Bytes()) == Located(t, slots)
    ensures Readable(Located(t, slots), LocatedEntries(Entries(probes), slots), rs, StringsOf(probes), provider)
  {
    var es := LocatedEntries(Entries(probes), slots);
    FileTablesAre(p, hs, t, attributes, name, slots);
    LocatedWritten(t, Entries(probes), rs, slots);
    EntriesNamed(probes);
    StringsAreFrom(probes);
    ArgsOfLocated(StringsOf(probes), Entries(probes), slots);
    forall k: nat | k < |es| ensures EntryNamed(StringsOf(probes), es[k], rs[k]) {
      assert Named(Entries(probes)[k]);
    }
  }

  /** Decoding the file's bytes yields exactly the registered instances, in order (names,
      argument types, the identity mapping, functions, and the places of their sites' and
      tests' slots), if and only if all counts fit their fields and no argument type is
      empty or has a NUL in it. */
  lemma DofReadsBack(
    p: Parts, hs: seq<Header>, t: Tables, rs: seq<Record>, name: nat,
    provider: seq<byte>, attributes: seq<nat>, probes: seq<Probe>, slots: seq<nat>)
    requires CanBeRead(p, hs, t, rs, name, provider, attributes, probes, slots)
    ensures HDR_SIZE <= |p.Bytes()| && |FileTables(p.Bytes()).records| == PROBE_SIZE * |Entries(probes)|
    ensures AllRead(FileTables(p.Bytes()), LocatedEntries(Entries(probes), slots)) <==> AllRecordable(Entries(probes))
  {
    FileReadable(p, hs, t, rs, name, provider, attributes, probes, slots);
    TablesReadBack(Located(t, slots), LocatedEntries(Entries(probes), slots), rs, StringsOf(probes), provider);
    LocatedRecordable(Entries(probes), slots);
  }

  lemma LocatedRecordable(es: seq<Entry>, slots: seq<nat>)
    ensures AllRecordable(LocatedEntries(es, slots)) <==> AllRecordable(es)
  {
    assert forall k: nat :: k < |es| ==> (Recordable(LocatedEntries(es, slots)[k]) <==> Recordable(es[k]));
  }

  /** Relocation k is of a function, to record k. */
  ghost predicate Relocates(file: Tables, k: nat, funcName: seq<byte>) {
    && RELO_SIZE * k + RELO_SIZE <= |file.relocs|
    && var relo := ReadRelo(file.relocs[RELO_SIZE * k..RELO_SIZE * k + RELO_SIZE]);
       relo == Relo(relo.func, 1, PROBE_SIZE * k, 0) && ReadStr(file.strtab, relo.func) == funcName
  }

  lemma RelocationAt(t: Tables, k: nat, e: Entry, r: Record)
    requires EntryAt(t, k, e.probe, e.inst, r) && Small(t) && |t.records| < 0x1_0000_0000 && NulFree(e.inst.funcName)
    ensures Relocates(t, k, e.inst.funcName)
  {
    PowersOf256();
    ReloReadsBack(r.func, PROBE_SIZE * k);
    ReadBack(t.strtab, r.func, e.inst.funcName);
  }

  /** And there is a relocation for each: of the function's name, to its record. */
  lemma RelocationsReadBack(
    p: Parts, hs: seq<Header>, t: Tables, rs: seq<Record>, name: nat,
    provider: seq<byte>, attributes: seq<nat>, probes: seq<Probe>, slots: seq<nat>, k: nat)
    requires CanBeRead(p, hs, t, rs, name, provider, attributes, probes, slots) && k < |Entries(probes)|
    ensures HDR_SIZE <= |p.Bytes()| && |FileTables(p.Bytes()).relocs| == RELO_SIZE * |Entries(probes)|
    ensures Relocates(FileTables(p.Bytes()), k, Entries(probes)[k].inst.funcName)
  {
    FileReadable(p, hs, t, rs, name, provider, attributes, probes, slots);
    AllFound(p, hs, t, attributes, name);
    FoundSmall(p.Bytes(), hs, t, attributes, name);
    EntriesNamed(probes);
    RelocationAt(t, k, Entries(probes)[k], rs[k]);
  }

  /** And the provider's record has its name and its attributes. */
  lemma ProviderReadsBack(
    p: Parts, hs: seq<Header>, t: Tables, provider: seq<byte>, attributes: seq<nat>, name: nat)
    requires IsDof(p, hs, t, attributes, name) && |p.Bytes()| < 0x1_0000_0000
    requires HoldsAt(t.strtab, name, provider + [0]) && NulFree(provider)
    requires |attributes| == 5 && forall a :: 0 <= a < 5 ==> attributes[a] < 0x1_0000_0000
    ensures HDR_SIZE <= |p.Bytes()|
    ensures var record := ProviderRecord(p.Bytes());
            && |record| == 44 && ReadStr(SectionData(p.Bytes(), Word(record, 0)), Word(record, 16)) == provider
            && forall a: nat :: a < 5 ==> Word(record, 20 + 4 * a) == attributes[a]
  {
    AllFound(p, hs, t, attributes, name);
    ProviderWords(t, attributes, name);
    FieldsRead(t, attributes, name);
    ReadBack(t.strtab, name, provider);
  }

  lemma FieldsRead(t: Tables, attributes: seq<nat>, name: nat)
    requires |attributes| == 5 && (forall a :: 0 <= a < 5 ==> attributes[a] < 0x1_0000_0000) && name < 0x1_0000_0000
    ensures var record := U32s(ProviderFields(t, attributes, name));
            Word(record, 16) == name && forall a: nat :: a < 5 ==> Word(record, 20 + 4 * a) == attributes[a]
  {
    var fields := ProviderFields(t, attributes, name);
    assert fields[4] == name;
    U32At(fields, 4);
    forall a: nat | a < 5 ensures Word(U32s(fields), 20 + 4 * a) == attributes[a] {
      assert fields[5 + a] == attributes[a];
      U32At(fields, 5 + a);
    }
  }

  // ---- What the format says ----

  /** A section's type, alignment, its entries' size and its own. */
  datatype Shape = Shape(ty: nat, align: nat, entsize: nat, size: nat)

  /** The sections of a DOF: strings; records of 48 bytes; argument mappings; the places of
      sites, and of is-enabled tests if there are any; the provider; relocations of 24
      bytes, and their header. */
  function Format(t: Tables): seq<Shape> {
    [Shape(8, 1, 0, |t.strtab|), Shape(16, 8, 48, |t.records|), Shape(17, 1, 1, |t.prargs|),
     Shape(18, 4, 4, 4 * |t.sites|)]
    + (if t.tests == [] then [] else [Shape(26, 4, 4, 4 * |t.tests|)])
    + [Shape(15, 4, 0, 44), Shape(10, 8, 24, |t.relocs|), Shape(12, 4, 0, 12)]
  }

  /** The header of section j has that shape, flags 1, and an offset that is a multiple of
      the alignment. */
  ghost predicate Says(out: seq<byte>, j: nat, shape: Shape) {
    var h := HeaderAt(out, j);
    && h == Header(shape.ty, shape.align, 1, shape.entsize, h.off, shape.size)
    && shape.align > 0 && h.off % shape.align == 0
  }

  ghost predicate IsShaped(s: Section, shape: Shape) {
    shape == Shape(s.ty, Pow2(s.p2align), s.entsize, |s.data|)
  }

  lemma HeaderSays(p: Parts, hs: seq<Header>, ss: seq<Section>, j: nat, shape: Shape)
    requires LaidOut(p, ss, hs) && SmallSections(ss, p) && j < |ss| && IsShaped(ss[j], shape)
    ensures Says(p.Bytes(), j + 1, shape)
  {
    SectionReadsBack(p, ss, hs, j);
    InPlace(p.data, |p.head|, ss, hs, j);
    LowIsRemainder(hs[j].off, ss[j].p2align);
  }

  lemma StringsSay(p: Parts, hs: seq<Header>, ss: seq<Section>)
    requires LaidOut(p, ss, hs) && SmallSections(ss, p)
    ensures Says(p.Bytes(), 0, Shape(8, 1, 0, |p.strtab|))
  {
    StringTableReadsBack(p, ss, hs);
  }

  lemma SectionShapes(t: Tables, attributes: seq<nat>, name: nat)
    requires |attributes| == 5
    ensures var ss, shapes := Sections(t, attributes, name), Format(t);
            |shapes| == |ss| + 1 && forall j: nat :: j < |ss| ==> IsShaped(ss[j], shapes[j + 1])
  {
    assert Pow2(0) == 1 && Pow2(1) == 2 && Pow2(2) == 4 && Pow2(3) == 8;
  }

  /** What identifies a DOF, and how many sections it has. */
  lemma HeadSays(p: Parts, hs: seq<Header>, t: Tables, attributes: seq<nat>, name: nat)
    requires IsDof(p, hs, t, attributes, name) && |p.Bytes()| < 0x1_0000_0000
    ensures var n, out := |p.Bytes()|, p.Bytes();
            HDR_SIZE <= n && ReadHead(out) == FileHead(
              [0x7f, 0x44, 0x4f, 0x46, 2, 1, 3, 2, 8, 8, 0, 0, 0, 0, 0, 0], 0, 64, 32,
              if t.tests == [] then 7 else 8, 64, n, n, 0)
  {
    SectionsAre(t, attributes, name);
    HeadReadsBack(p, |Sections(t, attributes, name)| + 1);
  }

  /** Every header is what the format has in its place. */
  lemma SectionsSay(p: Parts, hs: seq<Header>, t: Tables, attributes: seq<nat>, name: nat)
    requires IsDof(p, hs, t, attributes, name) && |p.Bytes()| < 0x1_0000_0000 && |attributes| == 5
    ensures forall j: nat :: j < |Format(t)| ==> Says(p.Bytes(), j, Format(t)[j])
  {
    var ss := Sections(t, attributes, name);
    SectionsAre(t, attributes, name);
    SectionShapes(t, attributes, name);
    forall j: nat | j < |Format(t)| ensures Says(p.Bytes(), j, Format(t)[j]) {
      if j == 0 {
        StringsSay(p, hs, ss);
      } else {
        HeaderSays(p, hs, ss, j - 1, Format(t)[j]);
      }
    }
  }
}
