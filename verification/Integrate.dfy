/** Integrating staged objects into the global arenas (input_files.rs): indices are
    rebased, and the objects' vectors appended. */
module Integrate {
  import opened Targets
  import opened Options
  import opened Unwind

  // ---- Relocation targets ----

  const TARGET_SECTION: nat := 0x8000_0000

  function Pack(t: Target): nat {
    match t
    case Sym(i) => i
    case Section(i) => if i < TARGET_SECTION then i + TARGET_SECTION else i
  }

  function Unpack(w: nat): Target {
    if w < TARGET_SECTION then Sym(w) else Section(w - TARGET_SECTION)
  }

  /** A 32-bit index survives packing exactly if its top bit is clear. */
  lemma PackRoundTrip(t: Target)
    requires t.i < 2 * TARGET_SECTION
    ensures Unpack(Pack(t)) == t <==> t.i < TARGET_SECTION
  {
  }

  // ---- Data ----

  /** `body` stands for the fields integration leaves alone; the index of a subsection
      in its own object is one. */
  datatype Isec = Isec(file: nat, span: Span, body: nat)

  datatype Cie = Cie(obj: nat, personality: Option<nat>, body: nat)

  /** An object's vectors, its indices local. `relocs` are packed targets. */
  datatype Staged = Staged(
    isecs: seq<Isec>, unwind: seq<Record>, cies: seq<Cie>, fdes: seq<Fde>,
    relocs: seq<nat>, subsecs: seq<nat>, symSubsecs: seq<Option<nat>>)

  datatype Object = Object(relocs: seq<nat>, subsecs: seq<nat>, symSubsecs: seq<Option<nat>>, syms: seq<nat>)

  datatype Arenas = Arenas(isecs: seq<Isec>, unwind: seq<Record>, cies: seq<Cie>, fdes: seq<Fde>, objs: seq<Object>)

  datatype Bases = Bases(isec: nat, unwind: nat, cie: nat, fde: nat, obj: nat)

  predicate Below(i: Option<nat>, n: nat) { i.Some? ==> i.value < n }

  /** Every local index is in range; `nsyms` symbols. */
  ghost predicate Valid(st: Staged, nsyms: nat) {
    && (forall k :: 0 <= k < |st.unwind| ==>
          && st.unwind[k].isec < |st.isecs| && Below(st.unwind[k].lsda, |st.isecs|)
          && Below(st.unwind[k].fde, |st.fdes|) && Below(st.unwind[k].personality, nsyms))
    && (forall k :: 0 <= k < |st.cies| ==> Below(st.cies[k].personality, nsyms))
    && (forall k :: 0 <= k < |st.fdes| ==>
          st.fdes[k].isec < |st.isecs| && st.fdes[k].cie < |st.cies| && Below(st.fdes[k].lsda, |st.isecs|))
    && (forall k :: 0 <= k < |st.relocs| ==> Unpack(st.relocs[k]).Section? ==> Unpack(st.relocs[k]).i < |st.isecs|)
    && (forall k :: 0 <= k < |st.subsecs| ==> st.subsecs[k] < |st.isecs|)
    && (forall k :: 0 <= k < |st.symSubsecs| ==> Below(st.symSubsecs[k], |st.isecs|))
  }

  // ---- One object ----

  function Plus(i: Option<nat>, base: nat): Option<nat> { if i.Some? then Some(base + i.value) else None }

  function Shifted(i: nat, base: nat): nat { i + base }

  function Named(i: Option<nat>, syms: seq<nat>): Option<nat>
    requires Below(i, |syms|)
  {
    if i.Some? then Some(syms[i.value]) else None
  }

  function RebaseReloc(w: nat, isec: nat): nat {
    match Unpack(w)
    case Section(local) => Pack(Section(isec + local))
    case Sym(_) => w
  }

  function RebaseRecord(r: Record, b: Bases, syms: seq<nat>): Record
    requires Below(r.personality, |syms|)
  {
    r.(isec := r.isec + b.isec, lsda := Plus(r.lsda, b.isec), fde := Plus(r.fde, b.fde),
       personality := Named(r.personality, syms))
  }

  function RebaseFde(f: Fde, b: Bases): Fde {
    f.(obj := b.obj, isec := f.isec + b.isec, cie := f.cie + b.cie, lsda := Plus(f.lsda, b.isec))
  }

  function Rebase(st: Staged, b: Bases, syms: seq<nat>): (r: Staged)
    requires Valid(st, |syms|)
  {
    Staged(
      seq(|st.isecs|, k requires 0 <= k < |st.isecs| => st.isecs[k].(file := b.obj)),
      seq(|st.unwind|, k requires 0 <= k < |st.unwind| => RebaseRecord(st.unwind[k], b, syms)),
      seq(|st.cies|, k requires 0 <= k < |st.cies| =>
        st.cies[k].(obj := b.obj, personality := Named(st.cies[k].personality, syms))),
      seq(|st.fdes|, k requires 0 <= k < |st.fdes| => RebaseFde(st.fdes[k], b)),
      seq(|st.relocs|, k requires 0 <= k < |st.relocs| => RebaseReloc(st.relocs[k], b.isec)),
      seq(|st.subsecs|, k requires 0 <= k < |st.subsecs| => Shifted(st.subsecs[k], b.isec)),
      seq(|st.symSubsecs|, k requires 0 <= k < |st.symSubsecs| => Plus(st.symSubsecs[k], b.isec)))
  }

  function SpansOf(isecs: seq<Isec>): seq<Span> { seq(|isecs|, k requires 0 <= k < |isecs| => isecs[k].span) }

  /** set_unwind_ranges, by the walk over runs that Unwind.SetRanges makes. */
  ghost function SetUnwindRanges(st: Staged, base: nat): Staged
    requires InRange(st.unwind, |st.isecs|)
  {
    var spans := WithSpans(SpansOf(st.isecs), st.unwind, base, 0);
    st.(isecs := seq(|st.isecs|, k requires 0 <= k < |st.isecs| => st.isecs[k].(span := spans[k])))
  }

  /** A staged object, rebased to where the arenas will hold it. */
  ghost function Placed(st: Staged, b: Bases, syms: seq<nat>): Staged
    requires Valid(st, |syms|)
  {
    Rebase(SetUnwindRanges(st, b.unwind), b, syms)
  }

  function ObjectOf(st: Staged, syms: seq<nat>): Object { Object(st.relocs, st.subsecs, st.symSubsecs, syms) }

  function BasesOf(a: Arenas): Bases { Bases(|a.isecs|, |a.unwind|, |a.cies|, |a.fdes|, |a.objs|) }

  /** integrate_object. */
  ghost function IntegrateObject(a: Arenas, st: Staged, syms: seq<nat>): Arenas
    requires Valid(st, |syms|)
  {
    Append(a, Placed(st, BasesOf(a), syms), syms)
  }

  /** The arenas with a rebased object's vectors appended. */
  function Append(a: Arenas, p: Staged, syms: seq<nat>): Arenas {
    Arenas(a.isecs + p.isecs, a.unwind + p.unwind, a.cies + p.cies, a.fdes + p.fdes, a.objs + [ObjectOf(p, syms)])
  }

  ghost predicate AllValid(sts: seq<Staged>, syms: seq<seq<nat>>) {
    |syms| == |sts| && forall i :: 0 <= i < |sts| ==> Valid(sts[i], |syms[i]|)
  }

  /** One object at a time. */
  ghost function IntegrateEach(a: Arenas, sts: seq<Staged>, syms: seq<seq<nat>>): Arenas
    requires AllValid(sts, syms)
  {
    if sts == [] then a
    else
      var n := |sts| - 1;
      IntegrateObject(IntegrateEach(a, sts[..n], syms[..n]), sts[n], syms[n])
  }

  // ---- What an index denotes ----

  /** Global subsection g is object b.obj's local subsection l. */
  ghost predicate IsIsec(a: Arenas, st: Staged, b: Bases, g: nat, l: nat) {
    g < |a.isecs| && l < |st.isecs| && g == b.isec + l && a.isecs[g].file == b.obj
    && a.isecs[g].body == st.isecs[l].body
  }

  ghost predicate IsOptional(a: Arenas, st: Staged, b: Bases, g: Option<nat>, l: Option<nat>) {
    g.Some? == l.Some? && (l.Some? ==> IsIsec(a, st, b, g.value, l.value))
  }

  ghost predicate IsCie(a: Arenas, st: Staged, b: Bases, g: nat, l: nat) {
    g < |a.cies| && l < |st.cies| && g == b.cie + l && a.cies[g].obj == b.obj && a.cies[g].body == st.cies[l].body
  }

  ghost predicate IsFde(a: Arenas, st: Staged, b: Bases, g: nat, l: nat) {
    && g < |a.fdes| && l < |st.fdes| && g == b.fde + l && a.fdes[g].obj == b.obj && a.fdes[g].body == st.fdes[l].body
    && IsIsec(a, st, b, a.fdes[g].isec, st.fdes[l].isec) && IsCie(a, st, b, a.fdes[g].cie, st.fdes[l].cie)
    && IsOptional(a, st, b, a.fdes[g].lsda, st.fdes[l].lsda)
  }

  ghost predicate IsRecord(a: Arenas, st: Staged, b: Bases, g: nat, l: nat) {
    && g < |a.unwind| && l < |st.unwind| && g == b.unwind + l && a.unwind[g].body == st.unwind[l].body
    && IsIsec(a, st, b, a.unwind[g].isec, st.unwind[l].isec)
    && IsOptional(a, st, b, a.unwind[g].lsda, st.unwind[l].lsda) && a.unwind[g].fde.Some? == st.unwind[l].fde.Some?
    && (st.unwind[l].fde.Some? ==> IsFde(a, st, b, a.unwind[g].fde.value, st.unwind[l].fde.value))
  }

  ghost predicate HasIsec(a: Arenas, st: Staged, b: Bases, l: nat) { IsIsec(a, st, b, b.isec + l, l) }

  /** Global symbol index g is the one the object's local index l stands for. */
  predicate IsNamed(g: Option<nat>, l: Option<nat>, syms: seq<nat>) {
    g.Some? == l.Some? && (l.Some? ==> l.value < |syms| && g.value == syms[l.value])
  }

  ghost predicate HasCie(a: Arenas, st: Staged, b: Bases, syms: seq<nat>, l: nat) {
    IsCie(a, st, b, b.cie + l, l) && IsNamed(a.cies[b.cie + l].personality, st.cies[l].personality, syms)
  }

  ghost predicate HasFde(a: Arenas, st: Staged, b: Bases, l: nat) { IsFde(a, st, b, b.fde + l, l) }

  ghost predicate HasRecord(a: Arenas, st: Staged, b: Bases, syms: seq<nat>, l: nat) {
    IsRecord(a, st, b, b.unwind + l, l) && IsNamed(a.unwind[b.unwind + l].personality, st.unwind[l].personality, syms)
  }

  ghost predicate IsTarget(a: Arenas, st: Staged, b: Bases, g: nat, l: nat) {
    match Unpack(l)
    case Sym(_) => g == l
    case Section(i) => Unpack(g).Section? && IsIsec(a, st, b, Unpack(g).i, i)
  }

  ghost predicate IsObject(a: Arenas, st: Staged, b: Bases, o: Object) {
    && |o.relocs| == |st.relocs| && |o.subsecs| == |st.subsecs| && |o.symSubsecs| == |st.symSubsecs|
    && (forall k :: 0 <= k < |o.relocs| ==> IsTarget(a, st, b, o.relocs[k], st.relocs[k]))
    && (forall k :: 0 <= k < |o.subsecs| ==> IsIsec(a, st, b, o.subsecs[k], st.subsecs[k]))
    && (forall k :: 0 <= k < |o.symSubsecs| ==> IsOptional(a, st, b, o.symSubsecs[k], st.symSubsecs[k]))
  }

  /** The arenas hold object b.obj at the bases, and each of its indices denotes there
      what it denoted in the object, a symbol index the symbol `syms` gives it; and the
      span of each of its subsections names the subsection's records. */
  ghost predicate Denotes(a: Arenas, st: Staged, b: Bases, syms: seq<nat>) {
    && (forall l: nat :: l < |st.isecs| ==> HasIsec(a, st, b, l))
    && (forall l: nat :: l < |st.cies| ==> HasCie(a, st, b, syms, l))
    && (forall l: nat :: l < |st.fdes| ==> HasFde(a, st, b, l))
    && (forall l: nat :: l < |st.unwind| ==> HasRecord(a, st, b, syms, l))
    && b.obj < |a.objs| && IsObject(a, st, b, a.objs[b.obj]) && a.objs[b.obj].syms == syms
    && (forall l: nat :: l < |st.isecs| ==> SpanDenotes(a, st, b, l))
  }

  ghost predicate SpanDenotes(a: Arenas, st: Staged, b: Bases, l: nat) {
    && b.isec + l < |a.isecs| && l < |st.isecs|
    && Spans(st.unwind, b.unwind, l, a.isecs[b.isec + l].span)
  }

  ghost predicate Tidy(st: Staged) {
    Grouped(st.unwind) && forall l :: 0 <= l < |st.isecs| ==> st.isecs[l].span.n == 0
  }

  lemma PlacedSizes(a: Arenas, st: Staged, syms: seq<nat>)
    requires Valid(st, |syms|)
    ensures var a' := IntegrateObject(a, st, syms);
            && |a'.isecs| == |a.isecs| + |st.isecs| && |a'.unwind| == |a.unwind| + |st.unwind|
            && |a'.cies| == |a.cies| + |st.cies| && |a'.fdes| == |a.fdes| + |st.fdes| && |a'.objs| == |a.objs| + 1
  {
  }

  lemma PlacedLike(st: Staged, b: Bases, syms: seq<nat>)
    requires Valid(st, |syms|)
    ensures SameSizes(Placed(st, b, syms), st)
  {
  }

  predicate SameSizes(p: Staged, q: Staged) {
    |p.isecs| == |q.isecs| && |p.unwind| == |q.unwind| && |p.cies| == |q.cies| && |p.fdes| == |q.fdes|
  }

  lemma IsecAt(a: Arenas, st: Staged, syms: seq<nat>, l: nat)
    requires Valid(st, |syms|) && l < |st.isecs|
    ensures |IntegrateObject(a, st, syms).isecs| == |a.isecs| + |st.isecs|
    ensures IntegrateObject(a, st, syms).isecs[|a.isecs| + l] ==
            Isec(|a.objs|, WithSpans(SpansOf(st.isecs), st.unwind, |a.unwind|, 0)[l], st.isecs[l].body)
  {
    var p := Placed(st, BasesOf(a), syms);
    assert p.isecs[l] == Isec(|a.objs|, WithSpans(SpansOf(st.isecs), st.unwind, |a.unwind|, 0)[l], st.isecs[l].body);
  }

  lemma CieAt(a: Arenas, st: Staged, syms: seq<nat>, l: nat)
    requires Valid(st, |syms|) && l < |st.cies|
    ensures |IntegrateObject(a, st, syms).cies| == |a.cies| + |st.cies|
    ensures IntegrateObject(a, st, syms).cies[|a.cies| + l] ==
            Cie(|a.objs|, Named(st.cies[l].personality, syms), st.cies[l].body)
  {
    var p := Placed(st, BasesOf(a), syms);
    assert p.cies[l] == Cie(|a.objs|, Named(st.cies[l].personality, syms), st.cies[l].body);
  }

  lemma IsecsDenote(a: Arenas, st: Staged, syms: seq<nat>, l: nat)
    requires Valid(st, |syms|) && l < |st.isecs|
    ensures HasIsec(IntegrateObject(a, st, syms), st, BasesOf(a), l)
  {
    IsecAt(a, st, syms, l);
  }

  lemma CiesDenote(a: Arenas, st: Staged, syms: seq<nat>, l: nat)
    requires Valid(st, |syms|) && l < |st.cies|
    ensures HasCie(IntegrateObject(a, st, syms), st, BasesOf(a), syms, l)
  {
    CieAt(a, st, syms, l);
  }

  lemma OptionalDenotes(a: Arenas, st: Staged, syms: seq<nat>, i: Option<nat>)
    requires Valid(st, |syms|) && Below(i, |st.isecs|)
    ensures IsOptional(IntegrateObject(a, st, syms), st, BasesOf(a), Plus(i, |a.isecs|), i)
  {
    if i.Some? {
      IsecsDenote(a, st, syms, i.value);
    }
  }

  lemma FdeAt(a: Arenas, st: Staged, syms: seq<nat>, l: nat)
    requires Valid(st, |syms|) && l < |st.fdes|
    ensures |IntegrateObject(a, st, syms).fdes| == |a.fdes| + |st.fdes|
    ensures IntegrateObject(a, st, syms).fdes[|a.fdes| + l] == RebaseFde(st.fdes[l], BasesOf(a))
  {
    var p := Placed(st, BasesOf(a), syms);
    assert p.fdes[l] == RebaseFde(st.fdes[l], BasesOf(a));
  }

  lemma FdesDenote(a: Arenas, st: Staged, syms: seq<nat>, l: nat)
    requires Valid(st, |syms|) && l < |st.fdes|
    ensures HasFde(IntegrateObject(a, st, syms), st, BasesOf(a), l)
  {
    FdeAt(a, st, syms, l);
    IsecsDenote(a, st, syms, st.fdes[l].isec);
    CiesDenote(a, st, syms, st.fdes[l].cie);
    OptionalDenotes(a, st, syms, st.fdes[l].lsda);
  }

  lemma RecordAt(a: Arenas, st: Staged, syms: seq<nat>, l: nat)
    requires Valid(st, |syms|) && l < |st.unwind|
    ensures |IntegrateObject(a, st, syms).unwind| == |a.unwind| + |st.unwind|
    ensures IntegrateObject(a, st, syms).unwind[|a.unwind| + l] == RebaseRecord(st.unwind[l], BasesOf(a), syms)
  {
    var p := Placed(st, BasesOf(a), syms);
    assert p.unwind[l] == RebaseRecord(st.unwind[l], BasesOf(a), syms);
  }

  lemma RecordsDenote(a: Arenas, st: Staged, syms: seq<nat>, l: nat)
    requires Valid(st, |syms|) && l < |st.unwind|
    ensures HasRecord(IntegrateObject(a, st, syms), st, BasesOf(a), syms, l)
  {
    RecordAt(a, st, syms, l);
    IsecsDenote(a, st, syms, st.unwind[l].isec);
    OptionalDenotes(a, st, syms, st.unwind[l].lsda);
    if st.unwind[l].fde.Some? {
      FdesDenote(a, st, syms, st.unwind[l].fde.value);
    }
  }

  lemma ObjectDenotes(a: Arenas, st: Staged, syms: seq<nat>)
    requires Valid(st, |syms|) && |a.isecs| + |st.isecs| <= TARGET_SECTION
    ensures var a' := IntegrateObject(a, st, syms); IsObject(a', st, BasesOf(a), a'.objs[|a.objs|])
  {
    assert IntegrateObject(a, st, syms).objs[|a.objs|] == ObjectOf(Placed(st, BasesOf(a), syms), syms);
    forall l: nat | l < |st.isecs| ensures HasIsec(IntegrateObject(a, st, syms), st, BasesOf(a), l) {
      IsecsDenote(a, st, syms, l);
    }
  }

  lemma SpansDenote(a: Arenas, st: Staged, syms: seq<nat>, l: nat)
    requires Valid(st, |syms|) && Tidy(st) && l < |st.isecs|
    ensures SpanDenotes(IntegrateObject(a, st, syms), st, BasesOf(a), l)
  {
    IsecAt(a, st, syms, l);
    SpansAreExact(SpansOf(st.isecs), st.unwind, |a.unwind|, l);
  }

  lemma OneDenotes(a: Arenas, st: Staged, syms: seq<nat>)
    requires Valid(st, |syms|) && Tidy(st) && |a.isecs| + |st.isecs| <= TARGET_SECTION
    ensures Denotes(IntegrateObject(a, st, syms), st, BasesOf(a), syms)
  {
    var a', b := IntegrateObject(a, st, syms), BasesOf(a);
    PlacedSizes(a, st, syms);
    ObjectDenotes(a, st, syms);
    forall l: nat | l < |st.isecs| ensures HasIsec(a', st, b, l) && SpanDenotes(a', st, b, l) {
      IsecsDenote(a, st, syms, l);
      SpansDenote(a, st, syms, l);
    }
    forall l: nat | l < |st.cies| ensures HasCie(a', st, b, syms, l) {
      CiesDenote(a, st, syms, l);
    }
    forall l: nat | l < |st.fdes| ensures HasFde(a', st, b, l) {
      FdesDenote(a, st, syms, l);
    }
    forall l: nat | l < |st.unwind| ensures HasRecord(a', st, b, syms, l) {
      RecordsDenote(a, st, syms, l);
    }
  }

  // ---- A batch ----

  ghost predicate Extends(a: Arenas, a': Arenas) {
    a.isecs <= a'.isecs && a.unwind <= a'.unwind && a.cies <= a'.cies && a.fdes <= a'.fdes && a.objs <= a'.objs
  }

  lemma StillDenotes(a: Arenas, a': Arenas, st: Staged, b: Bases, syms: seq<nat>)
    requires Extends(a, a') && Denotes(a, st, b, syms)
    ensures Denotes(a', st, b, syms)
  {
    forall l: nat | l < |st.cies| ensures HasCie(a', st, b, syms, l) {
      assert HasCie(a, st, b, syms, l);
    }
    forall l: nat | l < |st.fdes| ensures HasFde(a', st, b, l) {
      assert HasFde(a, st, b, l);
    }
    forall l: nat | l < |st.unwind| ensures HasRecord(a', st, b, syms, l) {
      assert HasRecord(a, st, b, syms, l);
    }
    forall l: nat | l < |st.isecs| ensures HasIsec(a', st, b, l) && SpanDenotes(a', st, b, l) {
      assert HasIsec(a, st, b, l) && SpanDenotes(a, st, b, l);
    }
  }

  function NumIsecs(sts: seq<Staged>): nat {
    if sts == [] then 0 else NumIsecs(sts[..|sts| - 1]) + |sts[|sts| - 1].isecs|
  }

  /** The bases of object i. */
  ghost function BasesAt(a: Arenas, sts: seq<Staged>, syms: seq<seq<nat>>, i: nat): Bases
    requires AllValid(sts, syms) && i <= |sts|
  {
    BasesOf(IntegrateEach(a, sts[..i], syms[..i]))
  }

  lemma {:induction false} IsecsGrow(a: Arenas, sts: seq<Staged>, syms: seq<seq<nat>>)
    requires AllValid(sts, syms)
    ensures |IntegrateEach(a, sts, syms).isecs| == |a.isecs| + NumIsecs(sts)
  {
    if sts != [] {
      var n := |sts| - 1;
      IsecsGrow(a, sts[..n], syms[..n]);
      PlacedSizes(IntegrateEach(a, sts[..n], syms[..n]), sts[n], syms[n]);
    }
  }

  /** After integration every index of every object denotes what it did before. */
  lemma {:induction false} EachDenotes(a: Arenas, sts: seq<Staged>, syms: seq<seq<nat>>, i: nat)
    requires AllValid(sts, syms) && i < |sts| && |a.isecs| + NumIsecs(sts) <= TARGET_SECTION
    requires forall j :: 0 <= j < |sts| ==> Tidy(sts[j])
    ensures Denotes(IntegrateEach(a, sts, syms), sts[i], BasesAt(a, sts, syms, i), syms[i])
  {
    var n := |sts| - 1;
    if i == n {
      LastDenotes(a, sts, syms);
    } else {
      EachDenotes(a, sts[..n], syms[..n], i);
      BasesStay(a, sts, syms, i);
      LastKeeps(a, sts, syms, i, BasesAt(a, sts, syms, i));
    }
  }

  lemma LastDenotes(a: Arenas, sts: seq<Staged>, syms: seq<seq<nat>>)
    requires AllValid(sts, syms) && |sts| > 0 && |a.isecs| + NumIsecs(sts) <= TARGET_SECTION && Tidy(sts[|sts| - 1])
    ensures Denotes(IntegrateEach(a, sts, syms), sts[|sts| - 1], BasesAt(a, sts, syms, |sts| - 1), syms[|sts| - 1])
  {
    var n := |sts| - 1;
    IsecsGrow(a, sts[..n], syms[..n]);
    OneDenotes(IntegrateEach(a, sts[..n], syms[..n]), sts[n], syms[n]);
  }

  lemma BasesStay(a: Arenas, sts: seq<Staged>, syms: seq<seq<nat>>, i: nat)
    requires AllValid(sts, syms) && i < |sts|
    ensures var n := |sts| - 1; BasesAt(a, sts[..n], syms[..n], i) == BasesAt(a, sts, syms, i)
  {
    var n := |sts| - 1;
    assert sts[..n][..i] == sts[..i] && syms[..n][..i] == syms[..i];
  }

  lemma LastKeeps(a: Arenas, sts: seq<Staged>, syms: seq<seq<nat>>, i: nat, b: Bases)
    requires AllValid(sts, syms) && i < |sts| - 1
    requires Denotes(IntegrateEach(a, sts[..|sts| - 1], syms[..|sts| - 1]), sts[i], b, syms[i])
    ensures Denotes(IntegrateEach(a, sts, syms), sts[i], b, syms[i])
  {
    var n := |sts| - 1;
    var before := IntegrateEach(a, sts[..n], syms[..n]);
    IntegrateExtends(before, sts[n], syms[n]);
    StillDenotes(before, IntegrateObject(before, sts[n], syms[n]), sts[i], b, syms[i]);
  }

  lemma IntegrateExtends(a: Arenas, st: Staged, syms: seq<nat>)
    requires Valid(st, |syms|)
    ensures Extends(a, IntegrateObject(a, st, syms))
  {
  }
}
