/** The tables of a DOF (dtrace.rs, ProbeTables): probes and their instances written as
    records, strings and relocations, and read back. */
module DofTables {
  import opened DofBytes
  import opened Sequences

  /** A function a probe has sites in: the indices of its sites and is-enabled tests. */
  datatype Instance = Instance(funcName: seq<byte>, sites: seq<nat>, tests: seq<nat>)

  /** A probe; no arguments if no probe site declares any. */
  datatype Probe = Probe(name: seq<byte>, args: seq<seq<byte>>, instances: seq<Instance>)

  /** A dof_probe_t's fields: nargc counts the native arguments, xargc the translated ones. */
  datatype Record = Record(
    func: nat, name: nat, nargv: nat, xargv: nat, argidx: nat, offidx: nat,
    nargc: nat, xargc: nat, noffs: nat, enoffidx: nat, nenoffs: nat)

  const PROBE_SIZE: nat := 48
  const RELO_SIZE: nat := 24

  function RecordBytes(r: Record): (b: seq<byte>)
    ensures |b| == PROBE_SIZE
  {
    Le(0, 8) + Le(r.func, 4) + Le(r.name, 4) + Le(r.nargv, 4) + Le(r.xargv, 4) + Le(r.argidx, 4) + Le(r.offidx, 4)
    + Le(r.nargc, 1) + Le(r.xargc, 1) + Le(r.noffs, 2) + Le(r.enoffidx, 4) + Le(r.nenoffs, 2) + Le(0, 6)
  }

  /** A relocation: the function's name, type 1, the record's place, no data. */
  function ReloBytes(func: nat, at: nat): (b: seq<byte>)
    ensures |b| == RELO_SIZE
  {
    Le(func, 4) + Le(1, 4) + Le(at, 8) + Le(0, 8)
  }

  function U32(bytes: seq<byte>, off: nat): nat
    requires off + 4 <= |bytes|
  {
    Num(bytes[off..off + 4])
  }

  function ReadRecord(b: seq<byte>): Record
    requires |b| == PROBE_SIZE
  {
    Record(U32(b, 8), U32(b, 12), U32(b, 16), U32(b, 20), U32(b, 24), U32(b, 28),
           Num(b[32..33]), Num(b[33..34]), Num(b[34..36]), U32(b, 36), Num(b[40..42]))
  }

  /** The record's counts and offsets fit their fields. */
  predicate Fits(r: Record) {
    && r.func < 0x1_0000_0000 && r.name < 0x1_0000_0000 && r.nargv < 0x1_0000_0000 && r.xargv < 0x1_0000_0000
    && r.argidx < 0x1_0000_0000 && r.offidx < 0x1_0000_0000 && r.enoffidx < 0x1_0000_0000
    && r.nargc < 0x100 && r.xargc < 0x100 && r.noffs < 0x1_0000 && r.nenoffs < 0x1_0000
  }

  lemma PowersOf256()
    ensures Pow256(1) == 0x100 && Pow256(2) == 0x1_0000 && Pow256(4) == 0x1_0000_0000 && Pow256(4) < Pow256(8)
  {
    assert Pow256(0) == 1;
    assert Pow256(3) == 256 * Pow256(2);
    assert Pow256(8) == 256 * (256 * (256 * (256 * Pow256(4))));
  }

  lemma RecordParts(r: Record)
    ensures var b := RecordBytes(r);
            && b[8..12] == Le(r.func, 4) && b[12..16] == Le(r.name, 4) && b[16..20] == Le(r.nargv, 4)
            && b[20..24] == Le(r.xargv, 4) && b[24..28] == Le(r.argidx, 4) && b[28..32] == Le(r.offidx, 4)
            && b[32..33] == Le(r.nargc, 1) && b[33..34] == Le(r.xargc, 1) && b[34..36] == Le(r.noffs, 2)
            && b[36..40] == Le(r.enoffidx, 4) && b[40..42] == Le(r.nenoffs, 2)
  {
    var b := RecordBytes(r);
    var p1 := Le(0, 8);
    var p2 := p1 + Le(r.func, 4);
    var p3 := p2 + Le(r.name, 4);
    var p4 := p3 + Le(r.nargv, 4);
    var p5 := p4 + Le(r.xargv, 4);
    var p6 := p5 + Le(r.argidx, 4);
    var p7 := p6 + Le(r.offidx, 4);
    var p8 := p7 + Le(r.nargc, 1);
    var p9 := p8 + Le(r.xargc, 1);
    var p10 := p9 + Le(r.noffs, 2);
    var p11 := p10 + Le(r.enoffidx, 4);
    var p12 := p11 + Le(r.nenoffs, 2);
    FieldAt(p12, Le(0, 6), b);
    FieldAt(p11, Le(r.nenoffs, 2), b);
    FieldAt(p10, Le(r.enoffidx, 4), b);
    FieldAt(p9, Le(r.noffs, 2), b);
    FieldAt(p8, Le(r.xargc, 1), b);
    FieldAt(p7, Le(r.nargc, 1), b);
    FieldAt(p6, Le(r.offidx, 4), b);
    FieldAt(p5, Le(r.argidx, 4), b);
    FieldAt(p4, Le(r.xargv, 4), b);
    FieldAt(p3, Le(r.nargv, 4), b);
    FieldAt(p2, Le(r.name, 4), b);
    FieldAt(p1, Le(r.func, 4), b);
  }

  /** A record reads back exactly if its fields fit. */
  lemma RecordReadsBack(r: Record)
    ensures ReadRecord(RecordBytes(r)) == r <==> Fits(r)
  {
    PowersOf256();
    RecordParts(r);
    LeNum(r.func, 4);
    LeNum(r.name, 4);
    LeNum(r.nargv, 4);
    LeNum(r.xargv, 4);
    LeNum(r.argidx, 4);
    LeNum(r.offidx, 4);
    LeNum(r.nargc, 1);
    LeNum(r.xargc, 1);
    LeNum(r.noffs, 2);
    LeNum(r.enoffidx, 4);
    LeNum(r.nenoffs, 2);
  }

  /** A relocation read: the function's name, the type, the place and the addend. */
  datatype Relo = Relo(func: nat, ty: nat, at: nat, addend: nat)

  function ReadRelo(b: seq<byte>): Relo
    requires |b| == RELO_SIZE
  {
    Relo(U32(b, 0), U32(b, 4), Num(b[8..16]), Num(b[16..24]))
  }

  lemma ReloParts(func: nat, at: nat)
    ensures var b := ReloBytes(func, at);
            b[0..4] == Le(func, 4) && b[4..8] == Le(1, 4) && b[8..16] == Le(at, 8) && b[16..24] == Le(0, 8)
  {
    var b := ReloBytes(func, at);
    var p1 := Le(func, 4);
    var p2 := p1 + Le(1, 4);
    var p3 := p2 + Le(at, 8);
    FieldAt(p3, Le(0, 8), b);
    FieldAt(p2, Le(at, 8), b);
    FieldAt(p1, Le(1, 4), b);
    FieldAt([], p1, b);
  }

  /** A relocation reads back exactly if its offsets fit. */
  lemma ReloReadsBack(func: nat, at: nat)
    ensures ReadRelo(ReloBytes(func, at)) == Relo(func, 1, at, 0) <==> func < Pow256(4) && at < Pow256(8)
  {
    ReloParts(func, at);
    PowersOf256();
    LeNum(func, 4);
    LeNum(1, 4);
    LeNum(at, 8);
    LeNum(0, 8);
  }

  // ---- Writing the tables ----

  datatype Tables = Tables(
    records: seq<byte>, prargs: seq<byte>, relocs: seq<byte>, sites: seq<nat>, tests: seq<nat>, strtab: seq<byte>)

  predicate Extends(t: Tables, t': Tables) {
    && t.records <= t'.records && t.prargs <= t'.prargs && t.relocs <= t'.relocs
    && t.sites <= t'.sites && t.tests <= t'.tests && t.strtab <= t'.strtab
  }

  /** The identity mapping of n arguments. */
  function Iota(n: nat): (r: seq<byte>)
    requires n <= 256
    ensures |r| == n && forall i :: 0 <= i < n ==> r[i] == i
  {
    seq(n, i requires 0 <= i < n => ToByte(i))
  }

  function ToByte(i: nat): byte
    requires i < 256
  {
    i
  }

  predicate HasAt(xs: seq<nat>, off: nat, ys: seq<nat>) { off + |ys| <= |xs| && xs[off..off + |ys|] == ys }

  /** What the strings and the argument mapping of a probe are, by its record. */
  predicate ProbeAt(t: Tables, p: Probe, r: Record) {
    && HoldsAt(t.strtab, r.name, p.name + [0])
    && HoldsAt(t.strtab, r.nargv, Packed(p.args)) && HoldsAt(t.strtab, r.xargv, Packed(p.args))
    && HoldsAt(t.prargs, r.argidx, Iota(|p.args| % 256)) && r.nargc == r.xargc == |p.args|
  }

  /** What the names and the sites of an instance are, by its record. */
  predicate InstanceAt(t: Tables, p: Probe, inst: Instance, r: Record) {
    && ProbeAt(t, p, r) && HoldsAt(t.strtab, r.func, inst.funcName + [0])
    && HasAt(t.sites, r.offidx, inst.sites) && r.noffs == |inst.sites|
    && HasAt(t.tests, r.enoffidx, inst.tests) && r.nenoffs == |inst.tests|
  }

  /** The tables hold instance `inst` of probe p as entry k, by record r. */
  ghost predicate EntryAt(t: Tables, k: nat, p: Probe, inst: Instance, r: Record) {
    && InstanceAt(t, p, inst, r) && HoldsAt(t.records, PROBE_SIZE * k, RecordBytes(r))
    && HoldsAt(t.relocs, RELO_SIZE * k, ReloBytes(r.func, PROBE_SIZE * k))
  }

  lemma HasStill(xs: seq<nat>, xs': seq<nat>, off: nat, ys: seq<nat>)
    requires HasAt(xs, off, ys) && xs <= xs'
    ensures HasAt(xs', off, ys)
  {
    assert xs'[off..off + |ys|] == xs[off..off + |ys|];
  }

  lemma ProbeStill(t: Tables, t': Tables, p: Probe, r: Record)
    requires ProbeAt(t, p, r) && Extends(t, t')
    ensures ProbeAt(t', p, r)
  {
    HoldsStill(t.strtab, t'.strtab, r.name, p.name + [0]);
    HoldsStill(t.strtab, t'.strtab, r.nargv, Packed(p.args));
    HoldsStill(t.strtab, t'.strtab, r.xargv, Packed(p.args));
    HoldsStill(t.prargs, t'.prargs, r.argidx, Iota(|p.args| % 256));
  }

  lemma EntryStill(t: Tables, t': Tables, k: nat, p: Probe, inst: Instance, r: Record)
    requires EntryAt(t, k, p, inst, r) && Extends(t, t')
    ensures EntryAt(t', k, p, inst, r)
  {
    ProbeStill(t, t', p, r);
    HoldsStill(t.records, t'.records, PROBE_SIZE * k, RecordBytes(r));
    HoldsStill(t.strtab, t'.strtab, r.func, inst.funcName + [0]);
    HoldsStill(t.relocs, t'.relocs, RELO_SIZE * k, ReloBytes(r.func, PROBE_SIZE * k));
    HasStill(t.sites, t'.sites, r.offidx, inst.sites);
    HasStill(t.tests, t'.tests, r.enoffidx, inst.tests);
  }

  /** A probe and one of its instances. */
  datatype Entry = Entry(probe: Probe, inst: Instance)

  function EntriesOf(p: Probe, n: nat): (r: seq<Entry>)
    requires n <= |p.instances|
  {
    seq(n, i requires 0 <= i < n => Entry(p, p.instances[i]))
  }

  function Entries(probes: seq<Probe>): seq<Entry> {
    if probes == [] then []
    else Entries(probes[..|probes| - 1]) + EntriesOf(probes[|probes| - 1], |probes[|probes| - 1].instances|)
  }

  /** The entries' sites, or is-enabled tests, in order. */
  function SitesOf(es: seq<Entry>, tests: bool): seq<nat> {
    if es == [] then []
    else SitesOf(es[..|es| - 1], tests) + if tests then es[|es| - 1].inst.tests else es[|es| - 1].inst.sites
  }

  /** The tables hold exactly these entries. */
  ghost predicate Written(t: Tables, es: seq<Entry>, rs: seq<Record>) {
    && |rs| == |es| && |t.records| == PROBE_SIZE * |es| && |t.relocs| == RELO_SIZE * |es| && HoldsAt(t.strtab, 0, [0])
    && t.sites == SitesOf(es, false) && t.tests == SitesOf(es, true)
    && forall k: nat :: k < |es| ==> EntryAt(t, k, es[k].probe, es[k].inst, rs[k])
  }

  lemma WrittenStill(t: Tables, t': Tables, es: seq<Entry>, rs: seq<Record>)
    requires Written(t, es, rs) && Extends(t, t') && t' == t.(prargs := t'.prargs, strtab := t'.strtab)
    ensures Written(t', es, rs)
  {
    HoldsStill(t.strtab, t'.strtab, 0, [0]);
    EntriesStill(t, t', es, rs);
  }

  /** The record of an instance: what its probe's share, and its own. */
  function InstanceRecord(t: Tables, inst: Instance, probe: Record): Record {
    Record(AddedAt(t.strtab, inst.funcName), probe.name, probe.nargv, probe.xargv, probe.argidx, |t.sites|,
           probe.nargc, probe.xargc, |inst.sites|, |t.tests|, |inst.tests|)
  }

  function WithInstance(t: Tables, inst: Instance, r: Record): Tables {
    Tables(t.records + RecordBytes(r), t.prargs, t.relocs + ReloBytes(r.func, |t.records|),
           t.sites + inst.sites, t.tests + inst.tests, Added(t.strtab, inst.funcName))
  }

  /** One instance: a record, a relocation, its name and its sites. */
  method AddInstance(t: Tables, inst: Instance, probe: Record) returns (t': Tables, r: Record)
    ensures r == InstanceRecord(t, inst, probe) && t' == WithInstance(t, inst, r)
  {
    var func := AddedAt(t.strtab, inst.funcName);
    r := Record(func, probe.name, probe.nargv, probe.xargv, probe.argidx, |t.sites|, probe.nargc, probe.xargc,
                |inst.sites|, |t.tests|, |inst.tests|);
    t' := Tables(t.records + RecordBytes(r), t.prargs, t.relocs + ReloBytes(func, |t.records|),
                 t.sites + inst.sites, t.tests + inst.tests, Added(t.strtab, inst.funcName));
  }

  lemma TablesGrow(t: Tables, inst: Instance, r: Record)
    requires HoldsAt(t.strtab, 0, [0])
    ensures Extends(t, WithInstance(t, inst, r)) && HoldsAt(Added(t.strtab, inst.funcName), 0, [0])
    ensures HoldsAt(Added(t.strtab, inst.funcName), AddedAt(t.strtab, inst.funcName), inst.funcName + [0])
  {
    AddedIsThere(t.strtab, inst.funcName);
  }

  lemma InstanceWritten(
    t: Tables, t': Tables, p: Probe, inst: Instance, probe: Record, es: seq<Entry>, rs: seq<Record>, r: Record)
    requires Written(t, es, rs) && ProbeAt(t, p, probe)
    requires r == InstanceRecord(t, inst, probe) && t' == WithInstance(t, inst, r)
    ensures Extends(t, t') && Written(t', es + [Entry(p, inst)], rs + [r])
  {
    TablesGrow(t, inst, r);
    InstanceHeld(t, t', p, inst, probe, r);
    RecordHeld(t, t', inst, r, |es|);
    OneMoreEntry(t, t', es, rs, p, inst, r);
  }

  lemma InstanceHeld(t: Tables, t': Tables, p: Probe, inst: Instance, probe: Record, r: Record)
    requires HoldsAt(t.strtab, 0, [0]) && ProbeAt(t, p, probe) && Extends(t, t')
    requires r == InstanceRecord(t, inst, probe) && t'.strtab == Added(t.strtab, inst.funcName)
    requires t'.sites == t.sites + inst.sites && t'.tests == t.tests + inst.tests
    ensures InstanceAt(t', p, inst, r)
  {
    AddedIsThere(t.strtab, inst.funcName);
    ProbeStill(t, t', p, probe);
  }

  lemma RecordHeld(t: Tables, t': Tables, inst: Instance, r: Record, k: nat)
    requires t' == WithInstance(t, inst, r) && |t.records| == PROBE_SIZE * k && |t.relocs| == RELO_SIZE * k
    ensures HoldsAt(t'.records, PROBE_SIZE * k, RecordBytes(r))
    ensures HoldsAt(t'.relocs, RELO_SIZE * k, ReloBytes(r.func, PROBE_SIZE * k))
  {
    Appended(t.records, RecordBytes(r));
    Appended(t.relocs, ReloBytes(r.func, |t.records|));
  }

  lemma Appended(tab: seq<byte>, bytes: seq<byte>)
    ensures HoldsAt(tab + bytes, |tab|, bytes)
  {
  }

  lemma OneMoreEntry(t: Tables, t': Tables, es: seq<Entry>, rs: seq<Record>, p: Probe, inst: Instance, r: Record)
    requires Written(t, es, rs) && Extends(t, t') && EntryAt(t', |es|, p, inst, r)
    requires |t'.records| == |t.records| + PROBE_SIZE && |t'.relocs| == |t.relocs| + RELO_SIZE
    requires HoldsAt(t'.strtab, 0, [0])
    requires t'.sites == t.sites + inst.sites && t'.tests == t.tests + inst.tests
    ensures Written(t', es + [Entry(p, inst)], rs + [r])
  {
    EntriesStill(t, t', es, rs);
    SitesPush(es, Entry(p, inst));
    EntryPush(t', es, rs, Entry(p, inst), r);
  }

  lemma EntriesStill(t: Tables, t': Tables, es: seq<Entry>, rs: seq<Record>)
    requires Written(t, es, rs) && Extends(t, t')
    ensures forall k: nat :: k < |es| ==> EntryAt(t', k, es[k].probe, es[k].inst, rs[k])
  {
    forall k: nat | k < |es| ensures EntryAt(t', k, es[k].probe, es[k].inst, rs[k]) {
      EntryStill(t, t', k, es[k].probe, es[k].inst, rs[k]);
    }
  }

  lemma SitesPush(es: seq<Entry>, e: Entry)
    ensures SitesOf(es + [e], false) == SitesOf(es, false) + e.inst.sites
    ensures SitesOf(es + [e], true) == SitesOf(es, true) + e.inst.tests
  {
    assert (es + [e])[..|es|] == es;
  }

  lemma EntryPush(t: Tables, es: seq<Entry>, rs: seq<Record>, e: Entry, r: Record)
    requires |es| == |rs| && EntryAt(t, |es|, e.probe, e.inst, r)
    requires forall k: nat :: k < |es| ==> EntryAt(t, k, es[k].probe, es[k].inst, rs[k])
    ensures forall k: nat :: k < |es + [e]| ==> EntryAt(t, k, (es + [e])[k].probe, (es + [e])[k].inst, (rs + [r])[k])
  {
    var es', rs' := es + [e], rs + [r];
    forall k: nat | k < |es'| ensures EntryAt(t, k, es'[k].probe, es'[k].inst, rs'[k]) {
      if k < |es| {
        assert es'[k] == es[k] && rs'[k] == rs[k];
      } else {
        assert es'[k] == e && rs'[k] == r;
      }
    }
  }

  /** The arguments, added in a row. */
  method AddArgs(strtab: seq<byte>, args: seq<seq<byte>>) returns (strtab': seq<byte>)
    ensures strtab' == strtab + Packed(args)
  {
    strtab' := strtab;
    assert args[..0] == [];
    for i := 0 to |args|
      invariant strtab' == strtab + Packed(args[..i])
    {
      AddedPacked(strtab, args[..i], args[i]);
      SliceNext(args, i);
      strtab' := Added(strtab', args[i]);
    }
    assert args[..|args|] == args;
  }

  // ---- The strings of the table ----

  function FunctionNames(p: Probe, n: nat): (r: seq<seq<byte>>)
    requires n <= |p.instances|
    ensures |r| == n
  {
    seq(n, i requires 0 <= i < n => p.instances[i].funcName)
  }

  /** A probe's strings up to its first n instances: its name, its argument types twice,
      the functions. */
  function StringsTo(p: Probe, n: nat): seq<seq<byte>>
    requires n <= |p.instances|
  {
    [p.name] + p.args + p.args + FunctionNames(p, n)
  }

  /** The strings of the table in the order they are added. */
  function StringsOf(probes: seq<Probe>): seq<seq<byte>> {
    if probes == [] then []
    else StringsOf(probes[..|probes| - 1]) + StringsTo(probes[|probes| - 1], |probes[|probes| - 1].instances|)
  }

  /** The arguments are the table's strings from the n-th, at that offset. */
  predicate ArgsAt(strs: seq<seq<byte>>, n: nat, args: seq<seq<byte>>, at: nat) {
    n + |args| <= |strs| && strs[n..n + |args|] == args && at == 1 + |Packed(strs[..n])|
  }

  /** And again right after. */
  predicate ArgsFrom(strs: seq<seq<byte>>, n: nat, args: seq<seq<byte>>, nargv: nat, xargv: nat) {
    ArgsAt(strs, n, args, nargv) && ArgsAt(strs, n + |args|, args, xargv)
  }

  ghost predicate ArgsAmong(strs: seq<seq<byte>>, args: seq<seq<byte>>, nargv: nat, xargv: nat) {
    exists n: nat :: ArgsFrom(strs, n, args, nargv, xargv)
  }

  /** Every entry's arguments are among the strings. */
  ghost predicate ArgsFound(strs: seq<seq<byte>>, es: seq<Entry>, rs: seq<Record>) {
    && |rs| == |es|
    && forall k: nat :: k < |es| ==> ArgsAmong(strs, es[k].probe.args, rs[k].nargv, rs[k].xargv)
  }

  /** The string table is the strings packed. */
  ghost predicate StringsAt(t: Tables, strs: seq<seq<byte>>, es: seq<Entry>, rs: seq<Record>) {
    t.strtab == [0] + Packed(strs) && ArgsFound(strs, es, rs)
  }

  lemma AmongStill(strs: seq<seq<byte>>, more: seq<seq<byte>>, args: seq<seq<byte>>, nargv: nat, xargv: nat)
    requires ArgsAmong(strs, args, nargv, xargv)
    ensures ArgsAmong(strs + more, args, nargv, xargv)
  {
    var n: nat :| ArgsFrom(strs, n, args, nargv, xargv);
    StillAt(strs, more, n, args, nargv);
    StillAt(strs, more, n + |args|, args, xargv);
    assert ArgsFrom(strs + more, n, args, nargv, xargv);
  }

  lemma StillAt(strs: seq<seq<byte>>, more: seq<seq<byte>>, n: nat, args: seq<seq<byte>>, at: nat)
    requires ArgsAt(strs, n, args, at)
    ensures ArgsAt(strs + more, n, args, at)
  {
    assert (strs + more)[n..n + |args|] == strs[n..n + |args|] && (strs + more)[..n] == strs[..n];
  }

  lemma StringsStill(t: Tables, t': Tables, strs: seq<seq<byte>>, more: seq<seq<byte>>, es: seq<Entry>, rs: seq<Record>)
    requires StringsAt(t, strs, es, rs) && t'.strtab == t.strtab + Packed(more)
    ensures StringsAt(t', strs + more, es, rs)
  {
    PackedJoin(strs, more);
    Bracket([0], Packed(strs), Packed(more));
    forall k: nat | k < |es| ensures ArgsAmong(strs + more, es[k].probe.args, rs[k].nargv, rs[k].xargv) {
      AmongStill(strs, more, es[k].probe.args, rs[k].nargv, rs[k].xargv);
    }
  }

  lemma ThreeParts<T>(a: seq<T>, b: seq<T>, c: seq<T>)
    ensures var s, i, j := a + b + c, |a|, |a| + |b|;
            s[..i] == a && s[i..j] == b && s[..j] == a + b && s[j..j + |c|] == c
  {
  }

  /** Where arguments that follow other strings are. */
  lemma ArgsAdded(strs: seq<seq<byte>>, args: seq<seq<byte>>, nargv: nat, xargv: nat)
    requires nargv == 1 + |Packed(strs)| && xargv == nargv + |Packed(args)|
    ensures ArgsAmong(strs + args + args, args, nargv, xargv)
  {
    ThreeParts(strs, args, args);
    PackedJoin(strs, args);
    assert ArgsFrom(strs + args + args, |strs|, args, nargv, xargv);
  }

  /** The table with the probe's name, and its arguments twice. */
  lemma StringsAdded(strtab: seq<byte>, name: seq<byte>, args: seq<seq<byte>>)
    ensures Added(strtab, name) + Packed(args) + Packed(args) == strtab + Packed([name] + args + args)
  {
    PackedJoin([name] + args, args);
    PackedJoin([name], args);
    PackedOne(name);
    Four(strtab, Stored(name), Packed(args), Packed(args));
    AddedStored(strtab, name);
  }

  lemma AddedStored(strtab: seq<byte>, name: seq<byte>)
    ensures Added(strtab, name) == strtab + Stored(name)
  {
  }

  lemma AddedLength(strtab: seq<byte>, strs: seq<seq<byte>>, name: seq<byte>)
    requires strtab == [0] + Packed(strs)
    ensures |Added(strtab, name)| == 1 + |Packed(strs + [name])|
  {
    AddedPacked([0], strs, name);
  }

  lemma Four<T>(a: seq<T>, b: seq<T>, c: seq<T>, d: seq<T>)
    ensures a + (b + c + d) == a + b + c + d
  {
  }

  lemma StringsPlaced(s0: seq<byte>, args: seq<seq<byte>>)
    ensures var s1 := s0 + Packed(args);
            var s2 := s1 + Packed(args);
            s0 <= s2 && HoldsAt(s2, |s0|, Packed(args)) && HoldsAt(s2, |s1|, Packed(args))
  {
    ThreeParts(s0, Packed(args), Packed(args));
  }

  lemma SharedIn(t: Tables, p: Probe, r: Record, s0: seq<byte>, prargs: seq<byte>)
    requires HoldsAt(s0, r.name, p.name + [0]) && t.strtab == s0 + Packed(p.args) + Packed(p.args)
    requires r.nargv == |s0| && r.xargv == |s0| + |Packed(p.args)|
    requires t.prargs == prargs + Iota(|p.args| % 256) && r.argidx == |prargs| && r.nargc == r.xargc == |p.args|
    ensures ProbeAt(t, p, r) && s0 <= t.strtab && prargs <= t.prargs
  {
    StringsPlaced(s0, p.args);
    HoldsStill(s0, t.strtab, r.name, p.name + [0]);
    Appended(prargs, Iota(|p.args| % 256));
  }

  /** The probe's strings and its mapping are added, and the record says where. */
  ghost predicate IsShared(t: Tables, t': Tables, p: Probe, r: Record) {
    && Extends(t, t') && t' == t.(prargs := t.prargs + Iota(|p.args| % 256), strtab := t'.strtab) && ProbeAt(t', p, r)
    && t'.strtab == t.strtab + Packed([p.name] + p.args + p.args)
  }

  /** The record of what a probe's instances share. */
  function SharedRecord(t: Tables, p: Probe): Record {
    var start := |Added(t.strtab, p.name)|;
    Record(0, AddedAt(t.strtab, p.name), start, start + |Packed(p.args)|, |t.prargs|, 0, |p.args|, |p.args|, 0, 0, 0)
  }

  function WithStrings(t: Tables, p: Probe): Tables {
    t.(prargs := t.prargs + Iota(|p.args| % 256), strtab := Added(t.strtab, p.name) + Packed(p.args) + Packed(p.args))
  }

  lemma SharedAdded(t: Tables, t': Tables, p: Probe, r: Record)
    requires HoldsAt(t.strtab, 0, [0]) && t' == WithStrings(t, p) && r == SharedRecord(t, p)
    ensures IsShared(t, t', p, r)
  {
    AddedIsThere(t.strtab, p.name);
    SharedIn(t', p, r, Added(t.strtab, p.name), t.prargs);
    StringsAdded(t.strtab, p.name, p.args);
  }

  /** The strings and the mapping that all of a probe's instances share. */
  method AddProbeStrings(t: Tables, p: Probe) returns (t': Tables, r: Record)
    ensures t' == WithStrings(t, p) && r == SharedRecord(t, p)
  {
    var s0 := Added(t.strtab, p.name);
    var s1 := AddArgs(s0, p.args);
    var s2 := AddArgs(s1, p.args);
    t' := t.(strtab := s2, prargs := t.prargs + Iota(|p.args| % 256));
    r := Record(0, AddedAt(t.strtab, p.name), |s0|, |s1|, |t.prargs|, 0, |p.args|, |p.args|, 0, 0, 0);
  }

  /** The tables with a probe's own strings: nothing of its instances yet. */
  lemma ProbeStarted(t: Tables, t': Tables, p: Probe, r: Record, es: seq<Entry>, rs: seq<Record>, strs: seq<seq<byte>>)
    requires Written(t, es, rs) && StringsAt(t, strs, es, rs) && t' == WithStrings(t, p) && r == SharedRecord(t, p)
    ensures Adding(t', es, rs, strs + [p.name] + p.args + p.args, p, r)
  {
    SharedAdded(t, t', p, r);
    WrittenStill(t, t', es, rs);
    StringsStill(t, t', strs, [p.name] + p.args + p.args, es, rs);
    Four(strs, [p.name], p.args, p.args);
    AddedLength(t.strtab, strs, p.name);
    ArgsAdded(strs + [p.name], p.args, r.nargv, r.xargv);
  }

  /** The tables so far, and what the next instance of p shares. */
  ghost predicate Adding(t: Tables, es: seq<Entry>, rs: seq<Record>, strs: seq<seq<byte>>, p: Probe, shared: Record) {
    && Written(t, es, rs) && StringsAt(t, strs, es, rs) && ProbeAt(t, p, shared)
    && ArgsAmong(strs, p.args, shared.nargv, shared.xargv)
  }

  method AddProbe(t: Tables, p: Probe, ghost es: seq<Entry>, ghost rs: seq<Record>, ghost strs: seq<seq<byte>>)
    returns (t': Tables, ghost rs': seq<Record>)
    requires Written(t, es, rs) && StringsAt(t, strs, es, rs)
    ensures Written(t', es + EntriesOf(p, |p.instances|), rs')
    ensures StringsAt(t', strs + StringsTo(p, |p.instances|), es + EntriesOf(p, |p.instances|), rs')
    ensures |t'.prargs| == |t.prargs| + |p.args| % 256
  {
    var shared;
    t', shared := AddProbeStrings(t, p);
    ProbeStarted(t, t', p, shared, es, rs, strs);
    rs' := rs;
    NoneDone(es, p);
    NoneNamed(strs, p);
    for i := 0 to |p.instances|
      invariant |t'.prargs| == |t.prargs| + |p.args| % 256
      invariant Adding(t', es + EntriesOf(p, i), rs', strs + StringsTo(p, i), p, shared)
    {
      var r;
      ghost var before := t';
      t', r := AddInstance(t', p.instances[i], shared);
      OneMoreInstance(before, t', es + EntriesOf(p, i), rs', strs + StringsTo(p, i), p, p.instances[i], shared, r);
      DonePush(es, p, i);
      NamePush(strs, p, i);
      rs' := rs' + [r];
    }
  }

  lemma OneMoreInstance(
    t: Tables, t': Tables, es: seq<Entry>, rs: seq<Record>, strs: seq<seq<byte>>, p: Probe, inst: Instance,
    shared: Record, r: Record)
    requires Adding(t, es, rs, strs, p, shared)
    requires r == InstanceRecord(t, inst, shared) && t' == WithInstance(t, inst, r)
    ensures Adding(t', es + [Entry(p, inst)], rs + [r], strs + [inst.funcName], p, shared)
  {
    InstanceWritten(t, t', p, inst, shared, es, rs, r);
    ProbeStill(t, t', p, shared);
    InstanceStrings(t, t', strs, inst.funcName, es, rs, Entry(p, inst), r);
  }

  lemma NoneNamed(strs: seq<seq<byte>>, p: Probe)
    ensures strs + StringsTo(p, 0) == strs + [p.name] + p.args + p.args
  {
  }

  lemma NamePush(strs: seq<seq<byte>>, p: Probe, i: nat)
    requires i < |p.instances|
    ensures strs + StringsTo(p, i) + [p.instances[i].funcName] == strs + StringsTo(p, i + 1)
  {
    assert FunctionNames(p, i + 1) == FunctionNames(p, i) + [p.instances[i].funcName];
  }

  lemma InstanceStrings(
    t: Tables, t': Tables, strs: seq<seq<byte>>, func: seq<byte>, es: seq<Entry>, rs: seq<Record>, e: Entry, r: Record)
    requires StringsAt(t, strs, es, rs) && t'.strtab == Added(t.strtab, func)
    requires ArgsAmong(strs, e.probe.args, r.nargv, r.xargv)
    ensures StringsAt(t', strs + [func], es + [e], rs + [r])
    ensures ArgsAmong(strs + [func], e.probe.args, r.nargv, r.xargv)
  {
    PackedOne(func);
    assert t'.strtab == t.strtab + Packed([func]);
    StringsStill(t, t', strs, [func], es, rs);
    AmongStill(strs, [func], e.probe.args, r.nargv, r.xargv);
  }

  lemma NoneDone(es: seq<Entry>, p: Probe)
    ensures es + EntriesOf(p, 0) == es
  {
  }

  lemma DonePush(es: seq<Entry>, p: Probe, i: nat)
    requires i < |p.instances|
    ensures es + EntriesOf(p, i) + [Entry(p, p.instances[i])] == es + EntriesOf(p, i + 1)
  {
  }

  /** ProbeTables::new, from a string table of one NUL. */
  method BuildTables(probes: seq<Probe>) returns (t: Tables, ghost rs: seq<Record>)
    ensures Written(t, Entries(probes), rs) && StringsAt(t, StringsOf(probes), Entries(probes), rs)
    ensures |t.prargs| <= 255 * |probes|
  {
    t, rs := Tables([], [], [], [], [], [0]), [];
    for p := 0 to |probes|
      invariant Written(t, Entries(probes[..p]), rs) && StringsAt(t, StringsOf(probes[..p]), Entries(probes[..p]), rs)
      invariant |t.prargs| <= 255 * p
    {
      assert probes[..p + 1][..p] == probes[..p];
      t, rs := AddProbe(t, probes[p], Entries(probes[..p]), rs, StringsOf(probes[..p]));
    }
    assert probes[..|probes|] == probes;
  }

  // ---- Reading them back ----

  /** What a reader makes of entry k. */
  datatype Read = Read(name: seq<byte>, nativeArgs: seq<seq<byte>>, args: seq<seq<byte>>, mapping: seq<byte>,
                       funcName: seq<byte>, sites: seq<nat>, tests: seq<nat>)

  function Slice<T>(xs: seq<T>, off: nat, n: nat): seq<T> { if off + n <= |xs| then xs[off..off + n] else [] }

  function ReadEntry(t: Tables, k: nat): Read
    requires PROBE_SIZE * k + PROBE_SIZE <= |t.records|
  {
    ReadFields(t, ReadRecord(t.records[PROBE_SIZE * k..PROBE_SIZE * k + PROBE_SIZE]))
  }

  function ReadFields(t: Tables, r: Record): Read {
    Read(ReadStr(t.strtab, r.name), ReadStrs(t.strtab, r.nargv, r.nargc), ReadStrs(t.strtab, r.xargv, r.xargc),
         Slice(t.prargs, r.argidx, r.xargc), ReadStr(t.strtab, r.func),
         Slice(t.sites, r.offidx, r.noffs), Slice(t.tests, r.enoffidx, r.nenoffs))
  }

  /** What was registered: the arguments mapped to themselves. */
  function Registered(e: Entry): Read {
    Read(e.probe.name, e.probe.args, e.probe.args, Iota(|e.probe.args| % 256),
         e.inst.funcName, e.inst.sites, e.inst.tests)
  }

  /** The tables fit 32-bit offsets. */
  predicate Small(t: Tables) {
    && |t.strtab| < 0x1_0000_0000 && |t.prargs| < 0x1_0000_0000
    && |t.sites| < 0x1_0000_0000 && |t.tests| < 0x1_0000_0000
  }

  /** The counts fit their fields, and every argument type can be stored. */
  predicate Recordable(e: Entry) {
    && |e.probe.args| < 0x100 && |e.inst.sites| < 0x1_0000 && |e.inst.tests| < 0x1_0000 && AllStorable(e.probe.args)
  }

  predicate Named(e: Entry) { NulFree(e.probe.name) && NulFree(e.inst.funcName) }

  lemma MappingReadsBack(prargs: seq<byte>, at: nat, n: nat)
    requires n < 0x100 && HoldsAt(prargs, at, Iota(n % 256))
    ensures Slice(prargs, at, n) == Iota(n % 256)
  {
  }

  /** Arguments among the table's strings, in any place before its last, read back exactly
      if they can be stored. */
  lemma NativeReadBack(
    tab: seq<byte>, strs: seq<seq<byte>>, last: seq<byte>, args: seq<seq<byte>>, nargv: nat, xargv: nat)
    requires ArgsAmong(strs, args, nargv, xargv) && tab == [0] + Packed(strs + [last])
    requires AllNulFree(strs) && Storable(last)
    ensures ReadStrs(tab, nargv, |args|) == args <==> AllStorable(args)
  {
    var n: nat :| ArgsFrom(strs, n, args, nargv, xargv);
    ReadFrom(tab, strs, last, n, args, nargv);
  }

  lemma ArgsReadBack(
    tab: seq<byte>, strs: seq<seq<byte>>, last: seq<byte>, args: seq<seq<byte>>, nargv: nat, xargv: nat)
    requires ArgsAmong(strs, args, nargv, xargv) && tab == [0] + Packed(strs + [last])
    requires AllNulFree(strs) && Storable(last)
    ensures ReadStrs(tab, xargv, |args|) == args <==> AllStorable(args)
  {
    var n: nat :| ArgsFrom(strs, n, args, nargv, xargv);
    ReadFrom(tab, strs, last, n + |args|, args, xargv);
  }

  lemma ReadFrom(tab: seq<byte>, strs: seq<seq<byte>>, last: seq<byte>, n: nat, args: seq<seq<byte>>, at: nat)
    requires ArgsAt(strs, n, args, at)
    requires tab == [0] + Packed(strs + [last]) && AllNulFree(strs) && Storable(last)
    ensures ReadStrs(tab, at, |args|) == args <==> AllStorable(args)
  {
    HeldFrom(tab, strs, last, n, args, at);
    ReadBackIffStorable(tab, at, args, strs[n + |args|..] + [last]);
  }

  lemma HeldFrom(tab: seq<byte>, strs: seq<seq<byte>>, last: seq<byte>, n: nat, args: seq<seq<byte>>, at: nat)
    requires ArgsAt(strs, n, args, at) && tab == [0] + Packed(strs + [last])
    ensures HoldsAt(tab, at, Packed(args + (strs[n + |args|..] + [last])))
  {
    var before, after := strs[..n], strs[n + |args|..] + [last];
    Cut(strs, last, n, |args|);
    PackedJoin(before, args + after);
    Appended([0] + Packed(before), Packed(args + after));
    Bracket([0], Packed(before), Packed(args + after));
  }

  lemma Cut<T>(s: seq<T>, last: T, n: nat, count: nat)
    requires n + count <= |s|
    ensures s + [last] == s[..n] + (s[n..n + count] + (s[n + count..] + [last]))
  {
  }

  lemma OffsetsFit(t: Tables, e: Entry, r: Record)
    requires InstanceAt(t, e.probe, e.inst, r) && Small(t)
    requires |e.probe.args| < 0x100 && |e.inst.sites| < 0x1_0000 && |e.inst.tests| < 0x1_0000
    ensures Fits(r)
  {
  }

  /** What is read of an entry besides its arguments. */
  lemma FieldsReadBack(t: Tables, e: Entry, r: Record)
    requires InstanceAt(t, e.probe, e.inst, r) && Named(e) && |e.probe.args| < 0x100
    ensures ReadFields(t, r) ==
            Registered(e).(nativeArgs := ReadStrs(t.strtab, r.nargv, |e.probe.args|),
                           args := ReadStrs(t.strtab, r.xargv, |e.probe.args|))
  {
    ReadBack(t.strtab, r.name, e.probe.name);
    ReadBack(t.strtab, r.func, e.inst.funcName);
    MappingReadsBack(t.prargs, r.argidx, |e.probe.args|);
  }

  lemma RecordIn(t: Tables, k: nat, r: Record)
    requires HoldsAt(t.records, PROBE_SIZE * k, RecordBytes(r))
    ensures PROBE_SIZE * k + PROBE_SIZE <= |t.records| && ReadEntry(t, k) == ReadFields(t, ReadRecord(RecordBytes(r)))
  {
  }

  /** No more can be read than fits a count. */
  lemma CountsFit(t: Tables, b: seq<byte>)
    requires |b| == PROBE_SIZE
    ensures var f := ReadFields(t, ReadRecord(b));
            |f.args| < 0x100 && |f.sites| < 0x1_0000 && |f.tests| < 0x1_0000 && AllNulFree(f.args)
  {
    var r := ReadRecord(b);
    PowersOf256();
    NumBelow(b[33..34]);
    NumBelow(b[34..36]);
    NumBelow(b[40..42]);
    ReadStrsNulFree(t.strtab, r.xargv, r.xargc);
  }

  lemma {:induction false} NumBelow(bs: seq<byte>)
    ensures Num(bs) < Pow256(|bs|)
  {
    if bs != [] {
      NumBelow(bs[1..]);
    }
  }

  /** One entry reads back exactly if its counts fit and its arguments can be stored. */
  lemma EntryReadsBack(t: Tables, k: nat, e: Entry, r: Record, strs: seq<seq<byte>>, last: seq<byte>)
    requires EntryAt(t, k, e.probe, e.inst, r) && Small(t) && Named(e)
    requires ArgsAmong(strs, e.probe.args, r.nargv, r.xargv) && t.strtab == [0] + Packed(strs + [last])
    requires AllNulFree(strs) && Storable(last)
    ensures PROBE_SIZE * k + PROBE_SIZE <= |t.records| && (ReadEntry(t, k) == Registered(e) <==> Recordable(e))
  {
    RecordIn(t, k, r);
    CountsFit(t, RecordBytes(r));
    NativeReadBack(t.strtab, strs, last, e.probe.args, r.nargv, r.xargv);
    ArgsReadBack(t.strtab, strs, last, e.probe.args, r.nargv, r.xargv);
    if |e.probe.args| < 0x100 && |e.inst.sites| < 0x1_0000 && |e.inst.tests| < 0x1_0000 {
      OffsetsFit(t, e, r);
      RecordReadsBack(r);
      FieldsReadBack(t, e, r);
    }
  }

  /** The table's strings are names, which have no NUL in them, and argument types. */
  ghost predicate StringsFrom(strs: seq<seq<byte>>, es: seq<Entry>) {
    forall i :: 0 <= i < |strs| ==> NulFree(strs[i]) || IsArg(strs[i], es)
  }

  ghost predicate IsArg(s: seq<byte>, es: seq<Entry>) { exists k :: 0 <= k < |es| && s in es[k].probe.args }

  /** Tables whose strings are these and then `last`, a storable one. */
  ghost predicate Readable(t: Tables, es: seq<Entry>, rs: seq<Record>, strs: seq<seq<byte>>, last: seq<byte>) {
    && Written(t, es, rs) && Small(t) && t.strtab == [0] + Packed(strs + [last]) && Storable(last)
    && StringsFrom(strs, es) && forall k: nat :: k < |es| ==> EntryNamed(strs, es[k], rs[k])
  }

  ghost predicate EntryNamed(strs: seq<seq<byte>>, e: Entry, r: Record) {
    Named(e) && ArgsAmong(strs, e.probe.args, r.nargv, r.xargv)
  }

  lemma NoNulIn(strs: seq<seq<byte>>, es: seq<Entry>)
    requires StringsFrom(strs, es) && forall k: nat :: k < |es| ==> AllNulFree(es[k].probe.args)
    ensures AllNulFree(strs)
  {
  }

  /** The entry reads back as it was registered. */
  ghost predicate Reads(t: Tables, k: nat, e: Entry) {
    PROBE_SIZE * k + PROBE_SIZE <= |t.records| && ReadEntry(t, k) == Registered(e)
  }

  lemma ReadIsNulFree(t: Tables, k: nat, e: Entry)
    requires Reads(t, k, e)
    ensures AllNulFree(e.probe.args)
  {
    CountsFit(t, t.records[PROBE_SIZE * k..PROBE_SIZE * k + PROBE_SIZE]);
  }

  ghost predicate AllRead(t: Tables, es: seq<Entry>) { forall k: nat :: k < |es| ==> Reads(t, k, es[k]) }

  ghost predicate AllRecordable(es: seq<Entry>) { forall k: nat :: k < |es| ==> Recordable(es[k]) }

  /** Decoding the tables yields exactly the probes, their argument types, the functions
      and their sites, in order, if and only if all counts fit and no argument type is
      empty or has a NUL in it. */
  lemma TablesReadBack(t: Tables, es: seq<Entry>, rs: seq<Record>, strs: seq<seq<byte>>, last: seq<byte>)
    requires Readable(t, es, rs, strs, last)
    ensures AllRead(t, es) <==> AllRecordable(es)
  {
    if AllRead(t, es) {
      forall k: nat | k < |es| ensures AllNulFree(es[k].probe.args) {
        ReadIsNulFree(t, k, es[k]);
      }
      EachReadsBack(t, es, rs, strs, last);
    }
    if AllRecordable(es) {
      forall k: nat | k < |es| ensures AllNulFree(es[k].probe.args) {
        assert Recordable(es[k]);
      }
      EachReadsBack(t, es, rs, strs, last);
    }
  }

  lemma EachReadsBack(t: Tables, es: seq<Entry>, rs: seq<Record>, strs: seq<seq<byte>>, last: seq<byte>)
    requires Readable(t, es, rs, strs, last) && forall k: nat :: k < |es| ==> AllNulFree(es[k].probe.args)
    ensures forall k: nat :: k < |es| ==> (Reads(t, k, es[k]) <==> Recordable(es[k]))
  {
    NoNulIn(strs, es);
    forall k: nat | k < |es| ensures Reads(t, k, es[k]) <==> Recordable(es[k]) {
      assert EntryNamed(strs, es[k], rs[k]);
      EntryReadsBack(t, k, es[k], rs[k], strs, last);
    }
  }
}
