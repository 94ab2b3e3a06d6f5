/** The claims: every object writes the symbols whose race it won, all objects at once.
    Each step of a task below is one load of `best`, one symbol write or one store. */
module SymbolClaim {
  import opened Options
  import opened SymbolRank
  import opened Alignment
  import opened SymbolRace

  datatype Symbol = Symbol(
    file: Option<nat>, isec: Option<nat>, value: nat, common: bool, commonP2align: nat,
    external: bool, imported: bool, weakDef: bool, privateExtern: bool,
    noDeadStrip: bool, refDynamic: bool, altEntry: bool)

  /** Of a claim: the symbol written, and whether it is defined; a symbol in a
      discarded section is not. */
  datatype Claimed = Claimed(sym: Symbol, defined: bool)

  const WORD: nat := 0x1_0000_0000_0000_0000

  function ClaimDefinition(ld: Link, o: nat, i: nat, oldSym: Symbol): Claimed
    requires ld.Valid() && ld.IsEntry(o, i)
  {
    var obj, m := ld.objs[o], ld.objs[o].syms[i];
    var sym := oldSym.(
      external := true, imported := false, common := false, weakDef := m.weakDef,
      privateExtern := m.privateExt || obj.hidden, noDeadStrip := m.keep || m.dynamic,
      refDynamic := m.kind == Section && m.dynamic && !m.weakDef, altEntry := m.altEntry);
    match m.kind
    case Absolute => Claimed(sym.(file := Some(o), isec := None, value := m.value), true)
    case Section =>
      (match obj.subsecs[i]
       case None => Claimed(sym.(file := None), false)
       case Some(k) =>
         Claimed(sym.(file := Some(o), isec := Some(k), value := (m.value - ld.isecs[k].addr) % WORD), true))
    case Undefined =>
      if !obj.reachable then Claimed(sym.(file := Some(o), isec := None, common := true, value := 0), true)
      else Claimed(sym.(file := None, common := true, value := m.value, commonP2align := m.commonP2align), true)
    case Other => Claimed(sym, true)
  }

  // ---- One object alone ----

  /** What one symbol's slots hold. */
  datatype Cell = Cell(best: nat, sym: Symbol)

  /** Entry i of object o, as its loop handles it with nobody in between. */
  function ClaimEntry(ld: Link, o: nat, i: nat, c: Cell): Cell
    requires ld.Valid() && ld.IsEntry(o, i)
  {
    if RankAt(ld, o, i) != Some(c.best) then c
    else
      var r := ClaimDefinition(ld, o, i, c.sym);
      Cell(if r.defined then c.best else MAX_RANK, r.sym)
  }

  /** What object o's first k entries make of symbol x. */
  function ClaimUpTo(ld: Link, o: nat, k: nat, x: nat, c: Cell): Cell
    requires ld.Valid() && o < |ld.objs| && k <= |ld.objs[o].syms| == |ld.objs[o].ids|
  {
    if k == 0 then c
    else
      assert ld.IsEntry(o, k - 1);
      var prev := ClaimUpTo(ld, o, k - 1, x, c);
      if ld.objs[o].ids[k - 1] == x then ClaimEntry(ld, o, k - 1, prev) else prev
  }

  lemma {:induction false} BestOrVacant(ld: Link, o: nat, k: nat, x: nat, c: Cell)
    requires ld.Valid() && o < |ld.objs| && k <= |ld.objs[o].syms| == |ld.objs[o].ids|
    ensures ClaimUpTo(ld, o, k, x, c).best == c.best || ClaimUpTo(ld, o, k, x, c).best == MAX_RANK
  {
    if k > 0 {
      BestOrVacant(ld, o, k - 1, x, c);
    }
  }

  // ---- All at once ----

  datatype Pc = Ready | Writing | Resetting

  /** next[o]: the entry object o's task is at; pc[o]: Writing once its rank was found
      to be the best, Resetting once it wrote a discarded one. */
  datatype State = State(next: seq<nat>, pc: seq<Pc>, best: seq<nat>, syms: seq<Symbol>)

  ghost predicate Shape(ld: Link, s: State) {
    && Named(ld, |s.best|) && |s.syms| == |s.best| && |s.next| == |s.pc| == |ld.objs|
    && forall o: nat :: o < |s.next| ==>
         s.next[o] <= |ld.objs[o].syms| && (s.pc[o] != Ready ==> s.next[o] < |ld.objs[o].syms|)
  }

  function Step(ld: Link, s: State, o: nat): State
    requires Shape(ld, s) && o < |s.next|
  {
    var i := s.next[o];
    if i == |ld.objs[o].syms| then s
    else
      assert ld.IsEntry(o, i);
      var x := ld.objs[o].ids[i];
      var done := s.(next := s.next[o := i + 1], pc := s.pc[o := Ready]);
      match s.pc[o]
      case Ready => if RankAt(ld, o, i) == Some(s.best[x]) then s.(pc := s.pc[o := Writing]) else done
      case Writing =>
        var r := ClaimDefinition(ld, o, i, s.syms[x]);
        if r.defined then done.(syms := s.syms[x := r.sym])
        else s.(pc := s.pc[o := Resetting], syms := s.syms[x := r.sym])
      case Resetting => done.(best := s.best[x := MAX_RANK])
  }

  /** Object o won symbol x: one of its entries has the best rank. */
  predicate Owns(ld: Link, best0: seq<nat>, o: nat, x: nat)
    requires ld.Valid()
  {
    x < |best0| && exists i: nat :: i < EntriesOf(ld, o) && Defines(ld, o, i, x, best0[x])
  }

  function EntriesOf(ld: Link, o: nat): nat { if o < |ld.objs| then |ld.objs[o].syms| else 0 }

  lemma OneOwner(ld: Link, best0: seq<nat>, o: nat, p: nat, x: nat)
    requires ld.Valid() && Owns(ld, best0, o, x) && Owns(ld, best0, p, x)
    ensures o == p
  {
    var i: nat :| i < EntriesOf(ld, o) && Defines(ld, o, i, x, best0[x]);
    var j: nat :| j < EntriesOf(ld, p) && Defines(ld, p, j, x, best0[x]);
    RankIsPreference(ld, o, i, p, j);
  }

  /** Object o's task is in the middle of claiming symbol x. */
  predicate Claiming(ld: Link, s: State, o: nat, x: nat)
    requires ld.Valid()
  {
    o < |s.pc| == |s.next| == |ld.objs| && s.pc[o] != Ready && s.next[o] < |ld.objs[o].ids|
    && ld.objs[o].ids[s.next[o]] == x
  }

  /** Where its owner o has got with symbol x, which held c before the claims. */
  ghost predicate At(ld: Link, s: State, o: nat, x: nat, c: Cell)
    requires Shape(ld, s) && o < |s.next| && x < |s.best|
  {
    var i := s.next[o];
    var done := ClaimUpTo(ld, o, i, x, c);
    if !Claiming(ld, s, o, x) then Cell(s.best[x], s.syms[x]) == done
    else
      && ld.IsEntry(o, i) && RankAt(ld, o, i) == Some(done.best) && s.best[x] == done.best
      && (s.pc[o] == Writing ==> s.syms[x] == done.sym)
      && (s.pc[o] == Resetting ==> ClaimDefinition(ld, o, i, done.sym) == Claimed(s.syms[x], false))
  }

  ghost predicate Owned(ld: Link, s: State, best0: seq<nat>, x: nat)
    requires ld.Valid()
  {
    exists o: nat :: o < |ld.objs| && Owns(ld, best0, o, x)
  }

  ghost predicate CellOk(ld: Link, s: State, best0: seq<nat>, syms0: seq<Symbol>, x: nat)
    requires Shape(ld, s) && x < |s.best| == |best0| == |syms0|
  {
    && (forall o: nat :: o < |ld.objs| && Owns(ld, best0, o, x) ==> At(ld, s, o, x, Cell(best0[x], syms0[x])))
    && (!Owned(ld, s, best0, x) ==> s.best[x] == best0[x] && s.syms[x] == syms0[x])
    && (forall o: nat :: o < |ld.objs| && Claiming(ld, s, o, x) ==> Owns(ld, best0, o, x))
  }

  ghost predicate Inv(ld: Link, s: State, best0: seq<nat>, syms0: seq<Symbol>) {
    && Shape(ld, s) && |s.best| == |best0| == |syms0|
    && forall x: nat :: x < |s.best| ==> CellOk(ld, s, best0, syms0, x)
  }

  /** No two objects are ever at one symbol: the unguarded writes do not race. */
  lemma WritersAreAlone(ld: Link, s: State, best0: seq<nat>, syms0: seq<Symbol>, o: nat, p: nat, x: nat)
    requires Inv(ld, s, best0, syms0) && x < |s.best| && Claiming(ld, s, o, x) && Claiming(ld, s, p, x)
    ensures o == p
  {
    assert CellOk(ld, s, best0, syms0, x);
    OneOwner(ld, best0, o, p, x);
  }

  lemma BestStays(ld: Link, s: State, best0: seq<nat>, syms0: seq<Symbol>, x: nat)
    requires Inv(ld, s, best0, syms0) && x < |s.best|
    ensures s.best[x] == best0[x] || s.best[x] == MAX_RANK
  {
    assert CellOk(ld, s, best0, syms0, x);
    if o: nat :| o < |ld.objs| && Owns(ld, best0, o, x) {
      assert At(ld, s, o, x, Cell(best0[x], syms0[x]));
      BestOrVacant(ld, o, s.next[o], x, Cell(best0[x], syms0[x]));
    }
  }

  /** An object that finds its rank to be the best owns the symbol. */
  lemma FoundBestOwns(ld: Link, s: State, best0: seq<nat>, syms0: seq<Symbol>, o: nat)
    requires Inv(ld, s, best0, syms0) && o < |s.next| && s.next[o] < |ld.objs[o].syms|
    requires var i := s.next[o]; ld.IsEntry(o, i) && RankAt(ld, o, i) == Some(s.best[ld.objs[o].ids[i]])
    ensures Owns(ld, best0, o, ld.objs[o].ids[s.next[o]])
  {
    var i := s.next[o];
    BestStays(ld, s, best0, syms0, ld.objs[o].ids[i]);
    RankIsPreference(ld, o, i, o, i);
    assert Defines(ld, o, i, ld.objs[o].ids[i], s.best[ld.objs[o].ids[i]]);
  }

  /** A step of object o, seen from the symbol it is at, if o owns it. */
  lemma StepOwn(ld: Link, s: State, o: nat, x: nat, c: Cell)
    requires Shape(ld, s) && o < |s.next| && s.next[o] < |ld.objs[o].syms| && ld.IsEntry(o, s.next[o])
    requires x < |s.best| && x == ld.objs[o].ids[s.next[o]] && At(ld, s, o, x, c)
    ensures Shape(ld, Step(ld, s, o)) && At(ld, Step(ld, s, o), o, x, c)
  {
    var i := s.next[o];
    assert Claiming(ld, s, o, x) == (s.pc[o] != Ready);
    assert ClaimUpTo(ld, o, i + 1, x, c) == ClaimEntry(ld, o, i, ClaimUpTo(ld, o, i, x, c));
  }

  /** And if somebody else does: o then finds its rank not to be the best. */
  lemma StepOther(ld: Link, s: State, best0: seq<nat>, syms0: seq<Symbol>, o: nat, x: nat)
    requires Inv(ld, s, best0, syms0) && o < |s.next| && s.next[o] < |ld.objs[o].syms| && ld.IsEntry(o, s.next[o])
    requires x < |s.best| && x == ld.objs[o].ids[s.next[o]] && !Owns(ld, best0, o, x)
    ensures s.pc[o] == Ready && RankAt(ld, o, s.next[o]) != Some(s.best[x])
  {
    assert CellOk(ld, s, best0, syms0, x);
    assert s.pc[o] != Ready ==> Claiming(ld, s, o, x);
    if RankAt(ld, o, s.next[o]) == Some(s.best[x]) {
      FoundBestOwns(ld, s, best0, syms0, o);
    }
  }

  lemma StepHere(ld: Link, s: State, best0: seq<nat>, syms0: seq<Symbol>, o: nat, x: nat)
    requires Inv(ld, s, best0, syms0) && o < |s.next| && s.next[o] < |ld.objs[o].syms| && ld.IsEntry(o, s.next[o])
    requires x == ld.objs[o].ids[s.next[o]] && x < |s.best|
    ensures Shape(ld, Step(ld, s, o)) && CellOk(ld, Step(ld, s, o), best0, syms0, x)
  {
    var s', c := Step(ld, s, o), Cell(best0[x], syms0[x]);
    assert CellOk(ld, s, best0, syms0, x);
    if Owns(ld, best0, o, x) {
      StepOwn(ld, s, o, x, c);
      forall p: nat | p < |ld.objs| && Owns(ld, best0, p, x) ensures At(ld, s', p, x, c) {
        OneOwner(ld, best0, o, p, x);
      }
    } else {
      StepOther(ld, s, best0, syms0, o, x);
      forall p: nat | p < |ld.objs| && Owns(ld, best0, p, x) ensures At(ld, s', p, x, c) {
        assert At(ld, s, p, x, c);
        assert Claiming(ld, s', p, x) == Claiming(ld, s, p, x);
      }
    }
    forall p: nat | p < |ld.objs| && Claiming(ld, s', p, x) ensures Owns(ld, best0, p, x) {
      if p != o {
        assert Claiming(ld, s, p, x);
      }
    }
  }

  lemma AtElsewhere(ld: Link, s: State, o: nat, p: nat, x: nat, c: Cell)
    requires Shape(ld, s) && o < |s.next| && s.next[o] < |ld.objs[o].syms| && ld.IsEntry(o, s.next[o])
    requires x < |s.best| && x != ld.objs[o].ids[s.next[o]] && p < |s.next| && At(ld, s, p, x, c)
    ensures Shape(ld, Step(ld, s, o)) && At(ld, Step(ld, s, o), p, x, c)
  {
    var s' := Step(ld, s, o);
    assert Claiming(ld, s', p, x) ==> p != o && Claiming(ld, s, p, x);
    assert Claiming(ld, s, p, x) ==> p != o && Claiming(ld, s', p, x);
  }

  /** And from any other. */
  lemma StepElsewhere(ld: Link, s: State, best0: seq<nat>, syms0: seq<Symbol>, o: nat, x: nat)
    requires Inv(ld, s, best0, syms0) && o < |s.next| && s.next[o] < |ld.objs[o].syms| && ld.IsEntry(o, s.next[o])
    requires x < |s.best| && x != ld.objs[o].ids[s.next[o]]
    ensures Shape(ld, Step(ld, s, o)) && CellOk(ld, Step(ld, s, o), best0, syms0, x)
  {
    var s', i := Step(ld, s, o), s.next[o];
    assert ld.IsEntry(o, i);
    assert CellOk(ld, s, best0, syms0, x);
    assert s'.best[x] == s.best[x] && s'.syms[x] == s.syms[x];
    forall p: nat | p < |ld.objs| && Owns(ld, best0, p, x) ensures At(ld, s', p, x, Cell(best0[x], syms0[x])) {
      AtElsewhere(ld, s, o, p, x, Cell(best0[x], syms0[x]));
    }
    forall p: nat | p < |ld.objs| && Claiming(ld, s', p, x) ensures Owns(ld, best0, p, x) {
      assert Claiming(ld, s, p, x);
    }
  }

  lemma StepInv(ld: Link, s: State, best0: seq<nat>, syms0: seq<Symbol>, o: nat)
    requires Inv(ld, s, best0, syms0) && o < |s.next|
    ensures Inv(ld, Step(ld, s, o), best0, syms0)
  {
    if s.next[o] < |ld.objs[o].syms| {
      assert ld.IsEntry(o, s.next[o]);
      StepHere(ld, s, best0, syms0, o, ld.objs[o].ids[s.next[o]]);
      forall x: nat | x < |s.best| && x != ld.objs[o].ids[s.next[o]]
        ensures CellOk(ld, Step(ld, s, o), best0, syms0, x)
      {
        StepElsewhere(ld, s, best0, syms0, o, x);
      }
    }
  }

  // ---- Whole runs ----

  ghost predicate IsRun(ld: Link, s: State, schedule: seq<nat>, s': State)
    requires Shape(ld, s)
    decreases |schedule|
  {
    if schedule == [] then s' == s
    else
      && schedule[0] < |s.next|
      && Shape(ld, Step(ld, s, schedule[0]))
      && IsRun(ld, Step(ld, s, schedule[0]), schedule[1..], s')
  }

  lemma {:induction false} RunInv(
    ld: Link, s: State, schedule: seq<nat>, s': State, best0: seq<nat>, syms0: seq<Symbol>)
    requires Inv(ld, s, best0, syms0) && IsRun(ld, s, schedule, s')
    ensures Inv(ld, s', best0, syms0)
    decreases |schedule|
  {
    if schedule != [] {
      StepInv(ld, s, best0, syms0, schedule[0]);
      RunInv(ld, Step(ld, s, schedule[0]), schedule[1..], s', best0, syms0);
    }
  }

  function Start(ld: Link, best0: seq<nat>, syms0: seq<Symbol>): State {
    State(seq(|ld.objs|, _ => 0), seq(|ld.objs|, _ => Ready), best0, syms0)
  }

  ghost predicate Done(ld: Link, s: State) {
    |s.next| == |ld.objs| && forall o: nat :: o < |s.next| ==> s.next[o] == |ld.objs[o].syms|
  }

  /** What becomes of symbol x: its owner's entries are applied in order; without an
      owner it stays as it was. */
  ghost predicate IsFinal(ld: Link, best0: seq<nat>, syms0: seq<Symbol>, x: nat, r: Cell)
    requires ld.Valid() && x < |best0| == |syms0|
  {
    && (forall o: nat :: o < |ld.objs| && Owns(ld, best0, o, x) ==>
          |ld.objs[o].syms| == |ld.objs[o].ids|
          && r == ClaimUpTo(ld, o, |ld.objs[o].syms|, x, Cell(best0[x], syms0[x])))
    && ((forall o: nat :: o < |ld.objs| ==> !Owns(ld, best0, o, x)) ==> r == Cell(best0[x], syms0[x]))
  }

  lemma StartInv(ld: Link, best0: seq<nat>, syms0: seq<Symbol>)
    requires Named(ld, |best0|) && |syms0| == |best0|
    ensures Inv(ld, Start(ld, best0, syms0), best0, syms0)
  {
    var s := Start(ld, best0, syms0);
    assert Shape(ld, s);
    forall x: nat | x < |best0| ensures CellOk(ld, s, best0, syms0, x) {
    }
  }

  /** Whatever the schedule, and whatever `best` held, each symbol ends as its owner
      alone makes it; until then nobody shares a symbol with its writer. */
  lemma ClaimsAreOrderFree(ld: Link, best0: seq<nat>, syms0: seq<Symbol>, schedule: seq<nat>, s: State)
    requires Named(ld, |best0|) && |syms0| == |best0|
    requires Shape(ld, Start(ld, best0, syms0)) && IsRun(ld, Start(ld, best0, syms0), schedule, s)
    ensures |s.best| == |s.syms| == |best0|
    ensures forall o: nat, p: nat, x: nat :: x < |best0| && Claiming(ld, s, o, x) && Claiming(ld, s, p, x) ==> o == p
    ensures Done(ld, s) ==> forall x: nat :: x < |best0| ==> IsFinal(ld, best0, syms0, x, Cell(s.best[x], s.syms[x]))
  {
    StartInv(ld, best0, syms0);
    RunInv(ld, Start(ld, best0, syms0), schedule, s, best0, syms0);
    forall o: nat, p: nat, x: nat | x < |best0| && Claiming(ld, s, o, x) && Claiming(ld, s, p, x) ensures o == p {
      WritersAreAlone(ld, s, best0, syms0, o, p, x);
    }
    if Done(ld, s) {
      forall x: nat | x < |best0| ensures IsFinal(ld, best0, syms0, x, Cell(s.best[x], s.syms[x])) {
        assert CellOk(ld, s, best0, syms0, x);
        forall o: nat | o < |ld.objs| && Owns(ld, best0, o, x)
          ensures Cell(s.best[x], s.syms[x]) == ClaimUpTo(ld, o, |ld.objs[o].syms|, x, Cell(best0[x], syms0[x]))
        {
          assert At(ld, s, o, x, Cell(best0[x], syms0[x]));
        }
      }
    }
  }

  lemma FinalIsUnique(ld: Link, best0: seq<nat>, syms0: seq<Symbol>, x: nat, a: Cell, b: Cell)
    requires ld.Valid() && x < |best0| == |syms0| && IsFinal(ld, best0, syms0, x, a) && IsFinal(ld, best0, syms0, x, b)
    ensures a == b
  {
  }

  // ---- One object after another ----

  /** claim_definitions of one object, with nobody else about. */
  method ClaimObject(ld: Link, o: nat, best: array<nat>, syms: array<Symbol>)
    requires Named(ld, best.Length) && best.Length == syms.Length && o < |ld.objs|
    requires |ld.objs[o].syms| == |ld.objs[o].ids|
    modifies best, syms
    ensures forall x: nat :: x < best.Length ==>
              Cell(best[x], syms[x]) == ClaimUpTo(ld, o, |ld.objs[o].syms|, x, old(Cell(best[x], syms[x])))
  {
    var obj := ld.objs[o];
    for i := 0 to |obj.syms|
      invariant forall x: nat :: x < best.Length ==>
                  Cell(best[x], syms[x]) == ClaimUpTo(ld, o, i, x, old(Cell(best[x], syms[x])))
    {
      assert ld.IsEntry(o, i);
      var x := obj.ids[i];
      var rank := RankAt(ld, o, i);
      if rank.Some? && best[x] == rank.value {
        var r := ClaimDefinition(ld, o, i, syms[x]);
        syms[x] := r.sym;
        if !r.defined {
          best[x] := MAX_RANK;
        }
      }
    }
  }

  /** An object that does not own a symbol leaves it alone. */
  lemma {:induction false} OthersLeave(ld: Link, best0: seq<nat>, o: nat, k: nat, x: nat, c: Cell)
    requires ld.Valid() && o < |ld.objs| && k <= |ld.objs[o].syms| == |ld.objs[o].ids| && x < |best0|
    requires !Owns(ld, best0, o, x) && (c.best == best0[x] || c.best == MAX_RANK)
    ensures ClaimUpTo(ld, o, k, x, c) == c
  {
    if k > 0 {
      OthersLeave(ld, best0, o, k - 1, x, c);
      assert ld.IsEntry(o, k - 1);
      if ld.objs[o].ids[k - 1] == x && RankAt(ld, o, k - 1) == Some(c.best) {
        RankIsPreference(ld, o, k - 1, o, k - 1);
        assert Defines(ld, o, k - 1, x, best0[x]);
      }
    }
  }

  /** The serial loop, object by object, gives what every schedule of the parallel one
      gives; and after the race, what the entry that decides a symbol says. */
  method ClaimAll(ld: Link, best: array<nat>, syms: array<Symbol>)
    requires Named(ld, best.Length) && best.Length == syms.Length
    modifies best, syms
    ensures forall x: nat :: x < best.Length ==> IsFinal(ld, old(best[..]), old(syms[..]), x, Cell(best[x], syms[x]))
    ensures forall x: nat, o: nat, i: nat {:trigger Decides(ld, x, o, i)} ::
              x < best.Length && IsLeastRank(ld, x, old(best[x])) && Decides(ld, x, o, i) ==>
              IsAsDefined(ld, o, i, syms[x]) && (best[x] == MAX_RANK <==> IsDiscarded(ld, o, i))
  {
    ghost var best0, syms0 := best[..], syms[..];
    ClaimEach(ld, best, syms);
    forall x: nat, o: nat, i: nat | x < best.Length && IsLeastRank(ld, x, best0[x]) && Decides(ld, x, o, i)
      ensures IsAsDefined(ld, o, i, syms[x]) && (best[x] == MAX_RANK <==> IsDiscarded(ld, o, i))
    {
      PreferredDefinitionWins(ld, best0, syms0, x, o, i, Cell(best[x], syms[x]));
    }
  }

  /** Its loop. */
  method ClaimEach(ld: Link, best: array<nat>, syms: array<Symbol>)
    requires Named(ld, best.Length) && best.Length == syms.Length
    modifies best, syms
    ensures forall x: nat :: x < best.Length ==> IsFinal(ld, old(best[..]), old(syms[..]), x, Cell(best[x], syms[x]))
  {
    ghost var best0, syms0 := best[..], syms[..];
    for o := 0 to |ld.objs|
      invariant forall x: nat :: x < best.Length ==> Passed(ld, best0, syms0, o, x, Cell(best[x], syms[x]))
    {
      assert ld.ObjectOk(ld.objs[o]);
      ghost var best1, syms1 := best[..], syms[..];
      ClaimObject(ld, o, best, syms);
      forall x: nat | x < best.Length ensures Passed(ld, best0, syms0, o + 1, x, Cell(best[x], syms[x])) {
        PassOne(ld, best0, syms0, o, x, Cell(best1[x], syms1[x]));
      }
    }
  }

  /** Symbol x after the first n objects. */
  ghost predicate Passed(ld: Link, best0: seq<nat>, syms0: seq<Symbol>, n: nat, x: nat, r: Cell)
    requires ld.Valid() && x < |best0| == |syms0|
  {
    && (forall o: nat :: o < |ld.objs| && o < n && Owns(ld, best0, o, x) ==>
          |ld.objs[o].syms| == |ld.objs[o].ids|
          && r == ClaimUpTo(ld, o, |ld.objs[o].syms|, x, Cell(best0[x], syms0[x])))
    && ((forall o: nat :: o < |ld.objs| && o < n ==> !Owns(ld, best0, o, x)) ==> r == Cell(best0[x], syms0[x]))
  }

  lemma PassOwner(ld: Link, best0: seq<nat>, syms0: seq<Symbol>, n: nat, x: nat, r: Cell)
    requires ld.Valid() && n < |ld.objs| && |ld.objs[n].syms| == |ld.objs[n].ids| && x < |best0| == |syms0|
    requires Passed(ld, best0, syms0, n, x, r) && Owns(ld, best0, n, x)
    ensures Passed(ld, best0, syms0, n + 1, x, ClaimUpTo(ld, n, |ld.objs[n].syms|, x, r))
  {
    forall o: nat | o < n && Owns(ld, best0, o, x) ensures false {
      OneOwner(ld, best0, o, n, x);
    }
  }

  lemma PassedBest(ld: Link, best0: seq<nat>, syms0: seq<Symbol>, n: nat, x: nat, r: Cell)
    requires ld.Valid() && n <= |ld.objs| && x < |best0| == |syms0| && Passed(ld, best0, syms0, n, x, r)
    ensures r.best == best0[x] || r.best == MAX_RANK
  {
    if o: nat :| o < n && Owns(ld, best0, o, x) {
      BestOrVacant(ld, o, |ld.objs[o].syms|, x, Cell(best0[x], syms0[x]));
    }
  }

  lemma PassOne(ld: Link, best0: seq<nat>, syms0: seq<Symbol>, n: nat, x: nat, r: Cell)
    requires ld.Valid() && n < |ld.objs| && |ld.objs[n].syms| == |ld.objs[n].ids| && x < |best0| == |syms0|
    requires Passed(ld, best0, syms0, n, x, r)
    ensures Passed(ld, best0, syms0, n + 1, x, ClaimUpTo(ld, n, |ld.objs[n].syms|, x, r))
  {
    if Owns(ld, best0, n, x) {
      PassOwner(ld, best0, syms0, n, x, r);
    } else {
      PassedBest(ld, best0, syms0, n, x, r);
      OthersLeave(ld, best0, n, |ld.objs[n].syms|, x, r);
      PassOther(ld, best0, syms0, n, x, r);
    }
  }

  lemma PassOther(ld: Link, best0: seq<nat>, syms0: seq<Symbol>, n: nat, x: nat, r: Cell)
    requires ld.Valid() && n < |ld.objs| && x < |best0| == |syms0|
    requires Passed(ld, best0, syms0, n, x, r) && !Owns(ld, best0, n, x)
    ensures Passed(ld, best0, syms0, n + 1, x, r)
  {
    forall o: nat | o < |ld.objs| && o < n + 1 && Owns(ld, best0, o, x)
      ensures |ld.objs[o].syms| == |ld.objs[o].ids|
      ensures r == ClaimUpTo(ld, o, |ld.objs[o].syms|, x, Cell(best0[x], syms0[x]))
    {
      assert o != n;
    }
  }

  // ---- What the winner defines ----

  ghost predicate IsDiscarded(ld: Link, o: nat, i: nat)
    requires ld.Valid() && ld.IsEntry(o, i)
  {
    assert ld.ObjectOk(ld.objs[o]);
    ld.objs[o].syms[i].kind == Section && ld.objs[o].subsecs[i] == None
  }

  /** The symbol is what entry i of object o says. */
  ghost predicate IsAsDefined(ld: Link, o: nat, i: nat, s: Symbol)
    requires ld.Valid() && ld.IsEntry(o, i)
  {
    assert ld.ObjectOk(ld.objs[o]);
    var (obj, m) := (ld.objs[o], ld.objs[o].syms[i]);
    && s.external && !s.imported && (s.weakDef <==> m.weakDef) && (s.privateExtern <==> m.privateExt || obj.hidden)
    && (s.noDeadStrip <==> m.keep || m.dynamic) && (s.altEntry <==> m.altEntry)
    && (s.refDynamic <==> m.dynamic && !m.weakDef && m.kind == Section) && (s.common <==> m.kind == Undefined)
    && match (m.kind, obj.subsecs[i])
       case (Absolute, _) => s.file == Some(o) && s.isec == None && s.value == m.value
       case (Section, Some(k)) =>
         // The subsection and the offset from its start, wrapped to 64 bits.
         && s.file == Some(o) && s.isec == Some(k)
         && s.value < WORD && (ld.isecs[k].addr + s.value) % WORD == m.value % WORD
       case (Section, None) => s.file == None
       case (Undefined, _) =>
         if obj.reachable then s.file == None && s.value == m.value && s.commonP2align == m.commonP2align
         else s.file == Some(o) && s.isec == None && s.value == 0
       case (Other, _) => true
  }

  /** What such a definition does not say stays as it was. */
  ghost predicate RestStays(ld: Link, o: nat, i: nat, was: Symbol, s: Symbol)
    requires ld.Valid() && ld.IsEntry(o, i)
  {
    var (obj, m) := (ld.objs[o], ld.objs[o].syms[i]);
    && (m.kind == Undefined && obj.reachable ==> s.isec == was.isec)
    && (!(m.kind == Undefined && obj.reachable) ==> s.commonP2align == was.commonP2align)
    && (IsDiscarded(ld, o, i) ==> s.isec == was.isec && s.value == was.value)
  }

  lemma ClaimIsAsDefined(ld: Link, o: nat, i: nat, was: Symbol)
    requires ld.Valid() && ld.IsEntry(o, i)
    ensures var r := ClaimDefinition(ld, o, i, was);
            IsAsDefined(ld, o, i, r.sym) && RestStays(ld, o, i, was, r.sym) && (r.defined <==> !IsDiscarded(ld, o, i))
  {
    assert ld.ObjectOk(ld.objs[o]);
    var m, subsec := ld.objs[o].syms[i], ld.objs[o].subsecs[i];
    if m.kind == Section && subsec.Some? {
      OffsetGivesBack(ld.isecs[subsec.value].addr, m.value);
    }
  }

  lemma OffsetGivesBack(addr: nat, value: nat)
    ensures (addr + (value - addr) % WORD) % WORD == value % WORD
  {
    var q := (value - addr) / WORD;
    assert (value - addr) % WORD == value - addr - WORD * q;
  }

  /** Of the definitions of x with rank b, all of object o, entry i has the last word: the
      first whose section was discarded, or the last if none was. */
  ghost predicate HasLastWord(ld: Link, o: nat, i: nat, x: nat, b: nat)
    requires ld.Valid() && ld.IsEntry(o, i)
  {
    && Defines(ld, o, i, x, b)
    && forall j: nat :: Defines(ld, o, j, x, b) ==>
         if IsDiscarded(ld, o, i) then j < i ==> !IsDiscarded(ld, o, j) else j <= i && !IsDiscarded(ld, o, j)
  }

  /** Until then nothing has been discarded. */
  lemma {:induction false} UntilLastWord(ld: Link, o: nat, i: nat, k: nat, x: nat, c: Cell)
    requires ld.Valid() && ld.IsEntry(o, i) && k <= i < |ld.objs[o].syms| == |ld.objs[o].ids|
    requires HasLastWord(ld, o, i, x, c.best)
    ensures ClaimUpTo(ld, o, k, x, c).best == c.best
    ensures (forall j: nat :: Defines(ld, o, j, x, c.best) ==> j == i) ==> ClaimUpTo(ld, o, k, x, c) == c
  {
    if k > 0 {
      UntilLastWord(ld, o, i, k - 1, x, c);
      assert ld.IsEntry(o, k - 1);
      if ld.objs[o].ids[k - 1] == x && RankAt(ld, o, k - 1) == Some(c.best) {
        assert Defines(ld, o, k - 1, x, c.best);
        ClaimIsAsDefined(ld, o, k - 1, ClaimUpTo(ld, o, k - 1, x, c).sym);
      }
    }
  }

  /** And nothing is claimed after it. */
  lemma {:induction false} AfterLastWord(ld: Link, o: nat, i: nat, k: nat, x: nat, c: Cell)
    requires ld.Valid() && ld.IsEntry(o, i) && i < k <= |ld.objs[o].syms| == |ld.objs[o].ids|
    requires HasLastWord(ld, o, i, x, c.best)
    ensures var r := ClaimUpTo(ld, o, k, x, c);
            && IsAsDefined(ld, o, i, r.sym) && r.best == (if IsDiscarded(ld, o, i) then MAX_RANK else c.best)
            && ((forall j: nat :: Defines(ld, o, j, x, c.best) ==> j == i) ==> RestStays(ld, o, i, c.sym, r.sym))
  {
    assert ld.IsEntry(o, k - 1);
    if k == i + 1 {
      UntilLastWord(ld, o, i, i, x, c);
      ClaimIsAsDefined(ld, o, i, ClaimUpTo(ld, o, i, x, c).sym);
    } else {
      AfterLastWord(ld, o, i, k - 1, x, c);
      if RankAt(ld, o, k - 1).Some? {
        RankIsPreference(ld, o, k - 1, o, k - 1);
      }
      assert ld.objs[o].ids[k - 1] == x && RankAt(ld, o, k - 1) == Some(c.best) ==> Defines(ld, o, k - 1, x, c.best);
    }
  }

  /** Entry i of object o is what decides symbol x: no definition of x that takes part in
      the race is preferred to it; and of those not preferred to each other, which are all
      of its object, it is the first whose section was discarded, or the last if none was. */
  ghost predicate Decides(ld: Link, x: nat, o: nat, i: nat)
    requires ld.Valid()
  {
    && Competes(ld, o, i, x)
    && (forall p: nat, j: nat :: Competes(ld, p, j, x) ==> !Prefers(ld, p, j, o, i))
    && forall j: nat :: Competes(ld, o, j, x) && !Prefers(ld, o, i, o, j) ==>
         if IsDiscarded(ld, o, i) then j < i ==> !IsDiscarded(ld, o, j) else j <= i && !IsDiscarded(ld, o, j)
  }

  /** No definition preferred to it: it has the least rank. */
  lemma UnbeatenIsLeast(ld: Link, x: nat, b: nat, o: nat, i: nat)
    requires ld.Valid() && IsLeastRank(ld, x, b) && Competes(ld, o, i, x)
    requires forall p: nat, j: nat :: Competes(ld, p, j, x) ==> !Prefers(ld, p, j, o, i)
    ensures Defines(ld, o, i, x, b)
  {
    CompetesWithRank(ld, o, i, x);
    var v: nat :| Defines(ld, o, i, x, v);
    RanksArePreference(ld, o, i, o, i, x, v, v);
    var p: nat, j: nat :| Defines(ld, p, j, x, b);
    CompetesWithRank(ld, p, j, x);
    RanksArePreference(ld, p, j, o, i, x, b, v);
  }

  lemma DecidesHasLastWord(ld: Link, x: nat, b: nat, o: nat, i: nat)
    requires ld.Valid() && IsLeastRank(ld, x, b) && Decides(ld, x, o, i)
    ensures HasLastWord(ld, o, i, x, b)
  {
    UnbeatenIsLeast(ld, x, b, o, i);
    forall j: nat | Defines(ld, o, j, x, b)
      ensures if IsDiscarded(ld, o, i) then j < i ==> !IsDiscarded(ld, o, j) else j <= i && !IsDiscarded(ld, o, j)
    {
      CompetesWithRank(ld, o, j, x);
      RanksArePreference(ld, o, i, o, j, x, b, b);
    }
  }

  /** Race, then claim: the symbol becomes what the entry that decides it says. If that
      one was discarded with its section the symbol is left undefined and vacant, and no
      other definition steps in. */
  lemma PreferredDefinitionWins(ld: Link, best0: seq<nat>, syms0: seq<Symbol>, x: nat, o: nat, i: nat, r: Cell)
    requires Named(ld, |best0|) && x < |best0| == |syms0| && IsLeastRank(ld, x, best0[x])
    requires IsFinal(ld, best0, syms0, x, r) && Decides(ld, x, o, i)
    ensures IsAsDefined(ld, o, i, r.sym) && (r.best == MAX_RANK <==> IsDiscarded(ld, o, i))
    ensures (forall j: nat :: Competes(ld, o, j, x) && !Prefers(ld, o, i, o, j) ==> j == i) ==>
              RestStays(ld, o, i, syms0[x], r.sym)
  {
    var b := best0[x];
    DecidesHasLastWord(ld, x, b, o, i);
    RanksArePreference(ld, o, i, o, i, x, b, b);
    assert ld.ObjectOk(ld.objs[o]) && Owns(ld, best0, o, x);
    AfterLastWord(ld, o, i, |ld.objs[o].syms|, x, Cell(b, syms0[x]));
    if forall j: nat :: Competes(ld, o, j, x) && !Prefers(ld, o, i, o, j) ==> j == i {
      forall j: nat | Defines(ld, o, j, x, b) ensures j == i {
        CompetesWithRank(ld, o, j, x);
        RanksArePreference(ld, o, i, o, j, x, b, b);
      }
    }
  }

  /** Some entry decides a symbol with definitions in the race; one without stays as it
      was, vacant. */
  lemma SomeDecides(ld: Link, best0: seq<nat>, syms0: seq<Symbol>, x: nat, r: Cell) returns (o: nat, i: nat)
    requires Named(ld, |best0|) && x < |best0| == |syms0| && IsLeastRank(ld, x, best0[x])
    requires IsFinal(ld, best0, syms0, x, r)
    ensures if exists p: nat, j: nat :: Competes(ld, p, j, x) then Decides(ld, x, o, i)
            else r == Cell(MAX_RANK, syms0[x])
  {
    o, i := 0, 0;
    var b := best0[x];
    if p: nat, j: nat :| Competes(ld, p, j, x) {
      CompetesWithRank(ld, p, j, x);
      var v: nat :| Defines(ld, p, j, x, v);
      RanksArePreference(ld, p, j, p, j, x, v, v);
      o, i :| Defines(ld, o, i, x, b);
      i := LastWord(ld, o, i, x, b);
      LastWordDecides(ld, o, i, x, b);
    } else {
      forall p: nat, j: nat, v: nat | Defines(ld, p, j, x, v) ensures false {
        CompetesWithRank(ld, p, j, x);
      }
    }
  }

  lemma LastWord(ld: Link, o: nat, first: nat, x: nat, b: nat) returns (i: nat)
    requires ld.Valid() && Defines(ld, o, first, x, b)
    ensures ld.IsEntry(o, i) && HasLastWord(ld, o, i, x, b)
  {
    i := first;
    var n := |ld.objs[o].syms|;
    for j := 0 to n
      invariant Defines(ld, o, i, x, b)
      invariant forall k: nat :: k < j && Defines(ld, o, k, x, b) ==>
                  if IsDiscarded(ld, o, i) then k < i ==> !IsDiscarded(ld, o, k) else k <= i && !IsDiscarded(ld, o, k)
      invariant IsDiscarded(ld, o, i) ==>
                  i < j || forall k: nat :: k < j && Defines(ld, o, k, x, b) ==> !IsDiscarded(ld, o, k)
    {
      if Defines(ld, o, j, x, b) {
        if IsDiscarded(ld, o, j) {
          if !(IsDiscarded(ld, o, i) && i < j) {
            i := j;
          }
        } else if !IsDiscarded(ld, o, i) && i < j {
          i := j;
        }
      }
    }
  }

  lemma LeastIsUnbeaten(ld: Link, o: nat, i: nat, p: nat, j: nat, x: nat, b: nat)
    requires ld.Valid() && Defines(ld, o, i, x, b) && IsLeastRank(ld, x, b) && Competes(ld, p, j, x)
    ensures !Prefers(ld, p, j, o, i)
    ensures Prefers(ld, o, i, p, j) || Defines(ld, p, j, x, b)
  {
    CompetesWithRank(ld, p, j, x);
    var v: nat :| Defines(ld, p, j, x, v);
    RanksArePreference(ld, p, j, o, i, x, v, b);
    RanksArePreference(ld, o, i, p, j, x, b, v);
  }

  lemma LastWordDecides(ld: Link, o: nat, i: nat, x: nat, b: nat)
    requires ld.Valid() && ld.IsEntry(o, i) && HasLastWord(ld, o, i, x, b) && IsLeastRank(ld, x, b)
    ensures Decides(ld, x, o, i)
  {
    CompetesWithRank(ld, o, i, x);
    forall p: nat, j: nat | Competes(ld, p, j, x) ensures !Prefers(ld, p, j, o, i) {
      LeastIsUnbeaten(ld, o, i, p, j, x, b);
    }
    forall j: nat | Competes(ld, o, j, x) && !Prefers(ld, o, i, o, j)
      ensures if IsDiscarded(ld, o, i) then j < i ==> !IsDiscarded(ld, o, j) else j <= i && !IsDiscarded(ld, o, j)
    {
      LeastIsUnbeaten(ld, o, i, o, j, x, b);
    }
  }

  // ---- A symbol left undefined though defined twice ----

  /** An object with one strong external definition of symbol 0. */
  function Definer(priority: nat, subsec: Option<nat>): Object {
    Object(priority, true, false, 0,
           [MachSym(false, true, Section, false, false, false, false, false, false, 0, 16)], [0], [subsec])
  }

  /** Two of them: of the preferred one the section was discarded, the other's stays. */
  function DefinedTwice(): Link { Link([Definer(1, None), Definer(2, Some(0))], [Place(16, 3, false)], 10, false) }

  /** The second alone. */
  function DefinedOnce(): Link { Link([Definer(2, Some(0))], [Place(16, 3, false)], 10, false) }

  lemma DefinedOnceIs(ld: Link)
    requires ld == DefinedOnce()
    ensures Named(ld, 1) && Decides(ld, 0, 0, 0) && !IsDiscarded(ld, 0, 0)
  {
    forall o: nat | o < |ld.objs| ensures ld.ObjectOk(ld.objs[o]) {
    }
    assert ld.Valid();
  }

  lemma DefinedTwiceIs(ld: Link)
    requires ld == DefinedTwice()
    ensures Named(ld, 1) && |ld.objs| == 2 && |ld.objs[0].syms| == |ld.objs[1].syms| == 1
    ensures ld.IsEntry(0, 0) && ld.IsEntry(1, 0) && ld.objs[0].ids[0] == ld.objs[1].ids[0] == 0
    ensures Decides(ld, 0, 0, 0) && IsDiscarded(ld, 0, 0) && Competes(ld, 1, 0, 0) && !IsDiscarded(ld, 1, 0)
  {
    forall o: nat | o < |ld.objs| ensures ld.ObjectOk(ld.objs[o]) {
    }
    assert ld.Valid();
  }

  /** The symbol ends undefined and vacant, although the second object defines it in a
      subsection of the link. In a link without the first it decides it. */
  lemma DiscardedHidesDefinition(ld: Link, best0: seq<nat>, syms0: seq<Symbol>, r: Cell)
    requires ld == DefinedTwice() && |best0| == |syms0| == 1 && ld.Valid()
    requires IsLeastRank(ld, 0, best0[0]) && IsFinal(ld, best0, syms0, 0, r)
    ensures r.sym.file == None && r.best == MAX_RANK
    ensures Competes(ld, 1, 0, 0) && !IsDiscarded(ld, 1, 0)
    ensures var one := DefinedOnce(); Named(one, 1) && Decides(one, 0, 0, 0) && !IsDiscarded(one, 0, 0)
  {
    DefinedOnceIs(DefinedOnce());
    DefinedTwiceIs(ld);
    PreferredDefinitionWins(ld, best0, syms0, 0, 0, 0, r);
  }
}
