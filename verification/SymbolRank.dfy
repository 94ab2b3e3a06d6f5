/** The order of preference between definitions of one symbol, and the number it is
    packed into (input_files.rs, definition_rank). */
module SymbolRank {
  import opened Options
  import opened Alignment

  datatype Kind = Section | Absolute | Undefined | Other

  /** A symbol table entry; `keep` and `dynamic` are its no-dead-strip and
      referenced-dynamically bits. */
  datatype MachSym = MachSym(
    stab: bool, external: bool, kind: Kind, weakDef: bool, weakRef: bool, privateExt: bool,
    keep: bool, dynamic: bool, altEntry: bool, commonP2align: nat, value: nat)
  {
    predicate IsCommon() { !stab && kind == Undefined && external && value != 0 }
  }

  /** `ids` and `subsecs` say, entry by entry, which symbol of the link it names and
      which subsection it is in. */
  datatype Object = Object(
    priority: nat, reachable: bool, hidden: bool, firstGlobal: nat,
    syms: seq<MachSym>, ids: seq<nat>, subsecs: seq<Option<nat>>)

  datatype Link = Link(objs: seq<Object>, isecs: seq<Place>, autolink: nat, onlyAlive: bool) {
    ghost predicate Valid() {
      && (forall o: nat :: o < |objs| ==> ObjectOk(objs[o]))
      && (forall k: nat :: k < |isecs| ==> isecs[k].p2align <= 63)
      && (forall o: nat, p: nat :: o < p < |objs| ==> objs[o].priority != objs[p].priority)
    }

    ghost predicate ObjectOk(obj: Object) {
      && obj.priority < 0x1_0000_0000
      && |obj.ids| == |obj.subsecs| == |obj.syms|
      && forall i: nat :: i < |obj.subsecs| && obj.subsecs[i].Some? ==> obj.subsecs[i].value < |isecs|
    }

    predicate IsEntry(o: nat, i: nat) { o < |objs| && i < |objs[o].syms| }
  }

  const MAX_RANK: nat := 0xFFFF_FFFF_FFFF_FFFF

  function Class(obj: Object, m: MachSym): Option<nat> {
    if m.stab || !m.external then None
    else match m.kind
      case Section | Absolute =>
        if obj.reachable then Some(if m.weakDef then 1 else 0) else Some(if m.weakDef then 3 else 2)
      case Undefined => if !m.IsCommon() then None else Some(if obj.reachable then 4 else 5)
      case Other => None
  }

  function Private(obj: Object, m: MachSym): bool { m.privateExt || obj.hidden }

  function AutoHide(obj: Object, m: MachSym): bool { !Private(obj, m) && m.weakRef }

  function WeakDefinitionRank(obj: Object, m: MachSym, isec: Place): nat
    requires isec.P2AlignAt(m.value) <= 63
  {
    (if AutoHide(obj, m) then 128 else 0) + (if Private(obj, m) then 64 else 0) + (63 - isec.P2AlignAt(m.value))
  }

  lemma P2AlignFits(isec: Place, at: nat)
    requires isec.p2align <= 63
    ensures isec.P2AlignAt(at) <= 63
  {
    P2AlignAtIsGreatest(isec, at, 0);
  }

  /** The term a live weak definition's order takes in its rank. */
  function WeakTerm(ld: Link, o: nat, i: nat): (t: nat)
    requires ld.Valid() && ld.IsEntry(o, i)
    ensures t < 256
  {
    var obj, m := ld.objs[o], ld.objs[o].syms[i];
    if Class(obj, m) == Some(1) && m.kind == Section && obj.subsecs[i].Some? then
      P2AlignFits(ld.isecs[obj.subsecs[i].value], m.value);
      WeakDefinitionRank(obj, m, ld.isecs[obj.subsecs[i].value])
    else 0
  }

  function Phase(ld: Link, obj: Object, c: nat): nat {
    if (c == 2 || c == 3) && obj.priority >= ld.autolink then 2 else 0
  }

  /** definition_rank. The weak term and the phase share bits, but never both have
      any, so or-ing them adds them. */
  function DefinitionRank(ld: Link, o: nat, i: nat): Option<nat>
    requires ld.Valid() && ld.IsEntry(o, i)
  {
    var obj := ld.objs[o];
    match Class(obj, obj.syms[i])
    case None => None
    case Some(c) =>
      Some(c * 0x100_0000_0000 + (WeakTerm(ld, o, i) + Phase(ld, obj, c)) * 0x1_0000_0000 + obj.priority)
  }

  // ---- What the rank stands for ----

  /** Entry i of object o defines its symbol: an external one, in a section, absolute or
      tentative. */
  ghost predicate IsDefinition(ld: Link, o: nat, i: nat) {
    && ld.IsEntry(o, i)
    && var m := ld.objs[o].syms[i];
       !m.stab && m.external && (m.kind == Section || m.kind == Absolute || (m.kind == Undefined && m.value > 0))
  }

  lemma RankedIffDefinition(ld: Link, o: nat, i: nat)
    requires ld.Valid() && ld.IsEntry(o, i)
    ensures DefinitionRank(ld, o, i).Some? <==> IsDefinition(ld, o, i)
  {
  }

  /** What ld64 compares of two copies of a weak definition. An absolute one, or one
      in a discarded section, has the best of everything. */
  datatype Copy = Copy(autoHide: bool, private: bool, p2align: nat)

  ghost function CopyOf(ld: Link, o: nat, i: nat): Copy
    requires ld.Valid() && ld.IsEntry(o, i)
  {
    var obj, m := ld.objs[o], ld.objs[o].syms[i];
    var private := m.privateExt || obj.hidden;
    if m.kind == Section && obj.subsecs[i].Some? then
      Copy(!private && m.weakRef, private, ld.isecs[obj.subsecs[i].value].P2AlignAt(m.value))
    else Copy(false, false, 63)
  }

  /** One that cannot be hidden before one that can, then a global before a private
      extern, then the more aligned. */
  ghost predicate BetterCopy(a: Copy, b: Copy) {
    if a.autoHide != b.autoHide then b.autoHide
    else if a.private != b.private then b.private
    else a.p2align > b.p2align
  }

  /** A lazy definition of an archive that an auto-link option named. */
  ghost predicate Late(ld: Link, o: nat)
    requires o < |ld.objs|
  {
    ld.objs[o].priority >= ld.autolink
  }

  /** Definition (o, i) is preferred to (p, j): a real one to a tentative one, then a live
      object's to a lazy one's, then a strong one to a weak one, then the better of two
      live weak copies or the earlier phase of two lazy ones, then the earlier file. */
  ghost predicate Prefers(ld: Link, o: nat, i: nat, p: nat, j: nat)
    requires ld.Valid() && ld.IsEntry(o, i) && ld.IsEntry(p, j)
  {
    var (a, m, b, n) := (ld.objs[o], ld.objs[o].syms[i], ld.objs[p], ld.objs[p].syms[j]);
    if (m.kind == Undefined) != (n.kind == Undefined) then n.kind == Undefined
    else if a.reachable != b.reachable then a.reachable
    else if m.kind == Undefined then a.priority < b.priority
    else if m.weakDef != n.weakDef then n.weakDef
    else if a.reachable && m.weakDef && CopyOf(ld, o, i) != CopyOf(ld, p, j) then
      BetterCopy(CopyOf(ld, o, i), CopyOf(ld, p, j))
    else if !a.reachable && Late(ld, o) != Late(ld, p) then Late(ld, p)
    else a.priority < b.priority
  }

  lemma TermIsCopy(ld: Link, o: nat, i: nat)
    requires ld.Valid() && ld.IsEntry(o, i) && Class(ld.objs[o], ld.objs[o].syms[i]) == Some(1)
    ensures var c := CopyOf(ld, o, i);
            && c.p2align <= 63 && !(c.autoHide && c.private)
            && WeakTerm(ld, o, i) == (if c.autoHide then 128 else 0) + (if c.private then 64 else 0) + (63 - c.p2align)
  {
    var obj := ld.objs[o];
    if obj.syms[i].kind == Section && obj.subsecs[i].Some? {
      P2AlignFits(ld.isecs[obj.subsecs[i].value], obj.syms[i].value);
    }
  }

  lemma Packed(c: nat, t: nat, p: nat, d: nat, u: nat, q: nat)
    requires t < 256 && u < 256 && p < 0x1_0000_0000 && q < 0x1_0000_0000
    ensures c * 0x100_0000_0000 + t * 0x1_0000_0000 + p < d * 0x100_0000_0000 + u * 0x1_0000_0000 + q
            <==> c < d || (c == d && (t < u || (t == u && p < q)))
  {
  }

  /** The packed rank orders definitions by preference, no rank is the vacant one, and
      definitions of different objects never tie. */
  lemma RankIsPreference(ld: Link, o: nat, i: nat, p: nat, j: nat)
    requires ld.Valid() && ld.IsEntry(o, i) && ld.IsEntry(p, j)
    requires DefinitionRank(ld, o, i).Some? && DefinitionRank(ld, p, j).Some?
    ensures DefinitionRank(ld, o, i).value < DefinitionRank(ld, p, j).value <==> Prefers(ld, o, i, p, j)
    ensures DefinitionRank(ld, o, i).value < MAX_RANK
    ensures o != p ==> DefinitionRank(ld, o, i) != DefinitionRank(ld, p, j)
  {
    var a, b := ld.objs[o], ld.objs[p];
    var c, d := Class(a, a.syms[i]).value, Class(b, b.syms[j]).value;
    var t, u := WeakTerm(ld, o, i) + Phase(ld, a, c), WeakTerm(ld, p, j) + Phase(ld, b, d);
    assert ld.ObjectOk(a) && ld.ObjectOk(b);
    Packed(c, t, a.priority, d, u, b.priority);
    if c == 1 { TermIsCopy(ld, o, i); }
    if d == 1 { TermIsCopy(ld, p, j); }
    if o != p { assert a.priority != b.priority; }
  }
}
