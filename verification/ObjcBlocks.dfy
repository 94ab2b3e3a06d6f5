/** Following blocks of list subsections with a finder each and keeping the first
    visits finds what one finder does (objc.rs, runtime_method_lists). */
module ObjcBlocks {
  import opened Options
  import opened Sequences
  import opened ObjcFinder

  /** The elements outside s, in order. */
  function NotIn(xs: seq<nat>, s: set<nat>): seq<nat> {
    if xs == [] then [] else NotIn(xs[..|xs| - 1], s) + if xs[|xs| - 1] in s then [] else [xs[|xs| - 1]]
  }

  /** Whatever a visited class leads to has been visited. */
  ghost predicate Closed(classes: seq<ClassInfo>, s: State) { ClosedBut(classes, s, None) }

  /** The same, but for the class about to be visited. */
  ghost predicate ClosedBut(classes: seq<ClassInfo>, s: State, next: Option<nat>) {
    forall c: nat {:trigger ClosedAt(classes, s, next, c)} :: c in s.classesSeen ==> ClosedAt(classes, s, next, c)
  }

  ghost predicate ClosedAt(classes: seq<ClassInfo>, s: State, next: Option<nat>, c: nat) {
    && c < |classes| && (classes[c].list.Some? ==> classes[c].list.value in s.seen)
    && (classes[c].isa.Some? ==> classes[c].isa.value in s.classesSeen || classes[c].isa == next)
  }

  /** f went on from f0 where g started fresh. */
  ghost predicate Ahead(f0: State, g: State, f: State) {
    && f0.seen == SetOf(f0.lists) && g.seen == SetOf(g.lists)
    && f.lists == f0.lists + NotIn(g.lists, f0.seen) && f.seen == f0.seen + g.seen
    && f.classesSeen == f0.classesSeen + g.classesSeen
  }

  lemma NotInPush(xs: seq<nat>, x: nat, s: set<nat>)
    ensures NotIn(xs + [x], s) == if x in s then NotIn(xs, s) else NotIn(xs, s) + [x]
    ensures SetOf(xs + [x]) == SetOf(xs) + {x}
  {
    assert (xs + [x])[..|xs|] == xs;
  }

  lemma NoteKeeps(f0: State, g: State, f: State, list: Option<nat>)
    requires Ahead(f0, g, f)
    ensures Ahead(f0, Note(g, list), Note(f, list))
    ensures list.Some? && list.value in f0.seen ==> Note(f, list) == f
  {
    if list.Some? && list.value !in g.seen {
      NewNote(f0, g, f, list.value);
    }
  }

  lemma NewNote(f0: State, g: State, f: State, x: nat)
    requires Ahead(f0, g, f) && x !in g.seen
    ensures Ahead(f0, Note(g, Some(x)), Note(f, Some(x)))
  {
    NotInPush(g.lists, x, f0.seen);
    var kept := NotIn(g.lists, f0.seen);
    if x in f0.seen {
      assert f0.seen + (g.seen + {x}) == f0.seen + g.seen;
      assert NotIn(g.lists + [x], f0.seen) == kept;
    } else {
      assert f0.lists + (kept + [x]) == f0.lists + kept + [x];
      assert f0.seen + (g.seen + {x}) == f0.seen + g.seen + {x};
    }
  }

  /** Only g follows a class f0 has visited: f has been there. */
  lemma {:induction false} VisitOld(classes: seq<ClassInfo>, f0: State, g: State, f: State, c: nat)
    requires Valid(classes) && c < |classes| && Ahead(f0, g, f) && Closed(classes, f0) && c in f0.classesSeen
    ensures Ahead(f0, VisitFrom(classes, g, c), f)
    decreases Unseen(classes, g)
  {
    if c !in g.classesSeen {
      var g' := g.(classesSeen := g.classesSeen + {c});
      assert ClosedAt(classes, f0, None, c);
      assert Ahead(f0, g', f);
      NoteKeeps(f0, g', f, classes[c].list);
      if classes[c].isa.Some? {
        VisitOld(classes, f0, Note(g', classes[c].list), f, classes[c].isa.value);
      }
    }
  }

  lemma {:induction false} VisitKeeps(classes: seq<ClassInfo>, f0: State, g: State, f: State, c: nat)
    requires Valid(classes) && c < |classes| && Ahead(f0, g, f) && Closed(classes, f0)
    ensures Ahead(f0, VisitFrom(classes, g, c), VisitFrom(classes, f, c))
    decreases Unseen(classes, g)
  {
    if c in f0.classesSeen {
      VisitOld(classes, f0, g, f, c);
    } else if c !in g.classesSeen {
      var g', f' := g.(classesSeen := g.classesSeen + {c}), f.(classesSeen := f.classesSeen + {c});
      assert Ahead(f0, g', f');
      NoteKeeps(f0, g', f', classes[c].list);
      if classes[c].isa.Some? {
        VisitKeeps(classes, f0, Note(g', classes[c].list), Note(f', classes[c].list), classes[c].isa.value);
      }
    }
  }

  lemma ClosedWhenSeen(classes: seq<ClassInfo>, s: State, c: nat)
    requires ClosedBut(classes, s, Some(c)) && c in s.classesSeen
    ensures Closed(classes, s)
  {
    forall d: nat | d in s.classesSeen ensures ClosedAt(classes, s, None, d) {
      assert ClosedAt(classes, s, Some(c), d);
    }
  }

  lemma ClosedBefore(classes: seq<ClassInfo>, s: State, c: nat)
    requires Closed(classes, s)
    ensures ClosedBut(classes, s, Some(c))
  {
    forall d: nat | d in s.classesSeen ensures ClosedAt(classes, s, Some(c), d) {
      assert ClosedAt(classes, s, None, d);
    }
  }

  lemma NoteCloses(classes: seq<ClassInfo>, s: State, list: Option<nat>)
    requires Closed(classes, s)
    ensures Closed(classes, Note(s, list))
  {
    forall d: nat | d in s.classesSeen ensures ClosedAt(classes, Note(s, list), None, d) {
      assert ClosedAt(classes, s, None, d);
    }
  }

  lemma {:induction false} VisitCloses(classes: seq<ClassInfo>, s: State, c: nat)
    requires Valid(classes) && c < |classes| && ClosedBut(classes, s, Some(c))
    ensures Closed(classes, VisitFrom(classes, s, c))
    decreases Unseen(classes, s)
  {
    if c !in s.classesSeen {
      var noted := Note(s.(classesSeen := s.classesSeen + {c}), classes[c].list);
      forall d: nat | d in noted.classesSeen ensures ClosedAt(classes, noted, classes[c].isa, d) {
        assert d != c ==> ClosedAt(classes, s, Some(c), d);
      }
      if classes[c].isa.Some? {
        VisitCloses(classes, noted, classes[c].isa.value);
      }
    } else {
      ClosedWhenSeen(classes, s, c);
    }
  }

  lemma {:induction false} FollowKeeps(classes: seq<ClassInfo>, f0: State, g: State, f: State, section: Section)
    requires Valid(classes) && SectionOk(classes, section) && Ahead(f0, g, f) && Closed(classes, f0)
    requires Closed(classes, f)
    ensures Ahead(f0, Follow(classes, g, section), Follow(classes, f, section))
    ensures Closed(classes, Follow(classes, f, section))
  {
    if section != [] {
      var n := |section| - 1;
      FollowKeeps(classes, f0, g, f, section[..n]);
      var g', f' := Follow(classes, g, section[..n]), Follow(classes, f, section[..n]);
      match section[n]
      case VisitClass(c) =>
        VisitKeeps(classes, f0, g', f', c);
        ClosedBefore(classes, f', c);
        VisitCloses(classes, f', c);
      case NoteList(l) =>
        NoteKeeps(f0, g', f', l);
        NoteCloses(classes, f', l);
    }
  }

  ghost predicate AllOk(classes: seq<ClassInfo>, block: seq<Section>) {
    forall k :: 0 <= k < |block| ==> SectionOk(classes, block[k])
  }

  function FollowAll(classes: seq<ClassInfo>, s: State, block: seq<Section>): State
    requires Valid(classes) && AllOk(classes, block)
  {
    if block == [] then s else Follow(classes, FollowAll(classes, s, block[..|block| - 1]), block[|block| - 1])
  }

  lemma {:induction false} BlockKeeps(classes: seq<ClassInfo>, f0: State, block: seq<Section>)
    requires Valid(classes) && AllOk(classes, block)
    requires Closed(classes, f0) && f0.seen == SetOf(f0.lists)
    ensures Ahead(f0, FollowAll(classes, FRESH, block), FollowAll(classes, f0, block))
    ensures Closed(classes, FollowAll(classes, f0, block))
  {
    if block == [] {
      assert f0.lists + NotIn([], f0.seen) == f0.lists;
    } else {
      var n := |block| - 1;
      BlockKeeps(classes, f0, block[..n]);
      FollowKeeps(classes, f0, FollowAll(classes, FRESH, block[..n]), FollowAll(classes, f0, block[..n]), block[n]);
    }
  }

  lemma {:induction false} FollowJoin(classes: seq<ClassInfo>, s: State, a: seq<Section>, b: seq<Section>)
    requires Valid(classes) && AllOk(classes, a) && AllOk(classes, b)
    ensures AllOk(classes, a + b) && FollowAll(classes, s, a + b) == FollowAll(classes, FollowAll(classes, s, a), b)
    decreases |b|
  {
    if b == [] {
      assert a + b == a;
    } else {
      FollowJoin(classes, s, a, b[..|b| - 1]);
      assert (a + b)[..|a + b| - 1] == a + b[..|b| - 1];
    }
  }

  // ---- First visits ----

  lemma {:induction false} FirstsJoin(xs: seq<nat>, ys: seq<nat>)
    requires NoRepeats(ys)
    ensures Firsts(xs + ys) == Firsts(xs) + NotIn(ys, SetOf(xs))
    decreases |ys|
  {
    if ys == [] {
      assert xs + ys == xs;
    } else {
      var n := |ys| - 1;
      FirstsJoin(xs, ys[..n]);
      assert ys == ys[..n] + [ys[n]];
      FirstsJoinOne(xs, ys[..n], ys[n]);
    }
  }

  lemma FirstsJoinOne(xs: seq<nat>, ys: seq<nat>, y: nat)
    requires y !in ys && Firsts(xs + ys) == Firsts(xs) + NotIn(ys, SetOf(xs))
    ensures Firsts(xs + (ys + [y])) == Firsts(xs) + NotIn(ys + [y], SetOf(xs))
  {
    Bracket(xs, ys, [y]);
    FirstsPush(xs + ys, y);
    FirstsHas(xs + ys, y);
    NotInPush(ys, y, SetOf(xs));
    Bracket(Firsts(xs), NotIn(ys, SetOf(xs)), [y]);
  }

  lemma Bracket(a: seq<nat>, b: seq<nat>, c: seq<nat>)
    ensures a + b + c == a + (b + c)
  {
  }

  lemma FirstsSet(xs: seq<nat>)
    ensures SetOf(Firsts(xs)) == SetOf(xs)
  {
    forall x: nat ensures x in SetOf(Firsts(xs)) <==> x in SetOf(xs) {
      FirstsHas(xs, x);
    }
  }

  /** A finder's lists have no repeats. */
  ghost predicate Fine(s: State) { NoRepeats(s.lists) && s.seen == SetOf(s.lists) }

  lemma {:induction false} VisitFine(classes: seq<ClassInfo>, s: State, c: nat)
    requires Valid(classes) && c < |classes| && Fine(s)
    ensures Fine(VisitFrom(classes, s, c))
    decreases Unseen(classes, s)
  {
    if c !in s.classesSeen && classes[c].isa.Some? {
      VisitFine(classes, Note(s.(classesSeen := s.classesSeen + {c}), classes[c].list), classes[c].isa.value);
    }
  }

  lemma {:induction false} FollowFine(classes: seq<ClassInfo>, s: State, section: Section)
    requires Valid(classes) && SectionOk(classes, section) && Fine(s)
    ensures Fine(Follow(classes, s, section))
  {
    if section != [] {
      var n := |section| - 1;
      FollowFine(classes, s, section[..n]);
      if section[n].VisitClass? {
        VisitFine(classes, Follow(classes, s, section[..n]), section[n].cls);
      }
    }
  }

  lemma {:induction false} BlockFine(classes: seq<ClassInfo>, block: seq<Section>)
    requires Valid(classes) && AllOk(classes, block)
    ensures Fine(FollowAll(classes, FRESH, block))
  {
    if block != [] {
      BlockFine(classes, block[..|block| - 1]);
      FollowFine(classes, FollowAll(classes, FRESH, block[..|block| - 1]), block[|block| - 1]);
    }
  }

  const CHUNK: nat := 16

  method FollowBlock(classes: seq<ClassInfo>, block: seq<Section>) returns (found: seq<nat>)
    requires Valid(classes) && AllOk(classes, block)
    ensures found == FollowAll(classes, FRESH, block).lists
  {
    var finder := new MethodListFinder();
    assert block[..0] == [];
    for k := 0 to |block|
      invariant AllOk(classes, block[..k]) && finder.Contents() == FollowAll(classes, FRESH, block[..k])
    {
      assert block[..k + 1][..k] == block[..k];
      finder.VisitSection(classes, block[k]);
    }
    assert block[..|block|] == block;
    found := finder.lists;
  }

  /** One more block, whatever a finder of its own finds in it. */
  lemma OneMoreBlock(classes: seq<ClassInfo>, before: seq<Section>, block: seq<Section>, found: seq<nat>)
    requires Valid(classes) && AllOk(classes, before) && AllOk(classes, block)
    requires var s := FollowAll(classes, FRESH, before);
             Closed(classes, s) && s.lists == Firsts(found) && s.seen == SetOf(found)
    ensures AllOk(classes, before + block)
    ensures var s, more := FollowAll(classes, FRESH, before + block), FollowAll(classes, FRESH, block).lists;
            Closed(classes, s) && s.lists == Firsts(found + more) && s.seen == SetOf(found + more)
  {
    var s, more := FollowAll(classes, FRESH, before), FollowAll(classes, FRESH, block).lists;
    FirstsSet(found);
    BlockKeeps(classes, s, block);
    BlockFine(classes, block);
    FirstsJoin(found, more);
    FollowJoin(classes, FRESH, before, block);
    assert SetOf(found + more) == SetOf(found) + SetOf(more);
  }

  /** runtime_method_lists: a finder for every 16 list subsections, none knowing what the
      others visit; of the lists they find, in order, the first visits. */
  method RuntimeMethodLists(classes: seq<ClassInfo>, sections: seq<Section>) returns (lists: seq<nat>)
    requires Valid(classes) && AllOk(classes, sections)
    ensures lists == FollowAll(classes, FRESH, sections).lists
  {
    var found: seq<nat> := [];
    var i := 0;
    assert sections[..0] == [];
    while i < |sections|
      invariant i <= |sections| && AllOk(classes, sections[..i])
      invariant var s := FollowAll(classes, FRESH, sections[..i]);
                Closed(classes, s) && s.lists == Firsts(found) && s.seen == SetOf(found)
    {
      var end := if i + CHUNK < |sections| then i + CHUNK else |sections|;
      var block := sections[i..end];
      var more := FollowBlock(classes, block);
      OneMoreBlock(classes, sections[..i], block, found);
      assert sections[..end] == sections[..i] + block;
      found := found + more;
      i := end;
    }
    assert sections[..i] == sections;
    lists := Firsts(found);
  }
}
