/** What a finder of method lists finds (objc.rs, MethodListFinder): the first mention of
    every list its sections lead to, although it skips every class it has visited. */
module ObjcMentions {
  import opened Options
  import opened Sequences
  import opened ObjcFinder
  import opened ObjcBlocks

  /** The lists of a class, of the class its isa names, and so on, n classes long. */
  function Chain(classes: seq<ClassInfo>, c: nat, n: nat): seq<nat>
    requires Valid(classes) && c < |classes|
    decreases n
  {
    if n == 0 then []
    else Own(classes[c].list) + if classes[c].isa.Some? then Chain(classes, classes[c].isa.value, n - 1) else []
  }

  function Own(list: Option<nat>): seq<nat> { if list.Some? then [list.value] else [] }

  /** What one entry of a list section leads to, no class skipped. */
  function LeadsTo(classes: seq<ClassInfo>, lead: Lead): seq<nat>
    requires Valid(classes) && (lead.VisitClass? ==> lead.cls < |classes|)
  {
    match lead
    case VisitClass(c) => Chain(classes, c, |classes|)
    case NoteList(l) => Own(l)
  }

  function Mentioned(classes: seq<ClassInfo>, section: Section): seq<nat>
    requires Valid(classes) && SectionOk(classes, section)
  {
    if section == [] then []
    else Mentioned(classes, section[..|section| - 1]) + LeadsTo(classes, section[|section| - 1])
  }

  function AllMentioned(classes: seq<ClassInfo>, sections: seq<Section>): seq<nat>
    requires Valid(classes) && AllOk(classes, sections)
  {
    if sections == [] then []
    else AllMentioned(classes, sections[..|sections| - 1]) + Mentioned(classes, sections[|sections| - 1])
  }

  /** The finder's lists are the first mentions among xs. */
  ghost predicate HasFirsts(s: State, xs: seq<nat>) {
    s.lists == Firsts(xs) && forall x: nat :: x in s.seen <==> x in xs
  }

  lemma NoteFirsts(s: State, xs: seq<nat>, list: Option<nat>)
    requires HasFirsts(s, xs)
    ensures HasFirsts(Note(s, list), xs + Own(list))
  {
    if list.Some? {
      FirstsPush(xs, list.value);
      FirstsHas(xs, list.value);
    } else {
      assert xs + [] == xs;
    }
  }

  /** Mentioning again what is known adds nothing. */
  lemma {:induction false} FirstsKnown(xs: seq<nat>, ys: seq<nat>)
    requires forall y :: y in ys ==> y in xs
    ensures Firsts(xs + ys) == Firsts(xs)
    decreases |ys|
  {
    if ys == [] {
      assert xs + ys == xs;
    } else {
      var n := |ys| - 1;
      FirstsKnown(xs, ys[..n]);
      assert xs + ys == xs + ys[..n] + [ys[n]];
      FirstsPush(xs + ys[..n], ys[n]);
      FirstsHas(xs, ys[n]);
    }
  }

  /** All that a class visited before leads to has been noted. */
  lemma {:induction false} ChainKnown(classes: seq<ClassInfo>, s: State, c: nat, n: nat)
    requires Valid(classes) && c < |classes| && Closed(classes, s) && c in s.classesSeen
    ensures forall x :: x in Chain(classes, c, n) ==> x in s.seen
    decreases n
  {
    assert ClosedAt(classes, s, None, c);
    if n > 0 && classes[c].isa.Some? {
      ChainKnown(classes, s, classes[c].isa.value, n - 1);
    }
  }

  /** The state once class c is seen and its list noted. */
  function Entered(classes: seq<ClassInfo>, s: State, c: nat): State
    requires c < |classes|
  {
    Note(s.(classesSeen := s.classesSeen + {c}), classes[c].list)
  }

  /** Visiting a class visited before adds nothing. */
  lemma SeenFirsts(classes: seq<ClassInfo>, s: State, xs: seq<nat>, c: nat, n: nat)
    requires Valid(classes) && c < |classes| && ClosedBut(classes, s, Some(c)) && HasFirsts(s, xs)
    requires c in s.classesSeen
    ensures HasFirsts(VisitFrom(classes, s, c), xs + Chain(classes, c, n))
  {
    ClosedWhenSeen(classes, s, c);
    ChainKnown(classes, s, c, n);
    FirstsKnown(xs, Chain(classes, c, n));
  }

  /** Visiting a new one adds its own list first. */
  lemma NewFirsts(classes: seq<ClassInfo>, s: State, xs: seq<nat>, c: nat)
    requires c < |classes| && HasFirsts(s, xs)
    ensures HasFirsts(Entered(classes, s, c), xs + Own(classes[c].list))
  {
    NoteFirsts(s.(classesSeen := s.classesSeen + {c}), xs, classes[c].list);
  }

  lemma NewCloses(classes: seq<ClassInfo>, s: State, c: nat)
    requires Valid(classes) && c < |classes| && ClosedBut(classes, s, Some(c)) && c !in s.classesSeen
    ensures ClosedBut(classes, Entered(classes, s, c), classes[c].isa)
    ensures Unseen'(|classes|, Entered(classes, s, c).classesSeen) < Unseen'(|classes|, s.classesSeen)
  {
    var noted := Entered(classes, s, c);
    forall d: nat | d in noted.classesSeen ensures ClosedAt(classes, noted, classes[c].isa, d) {
      assert d != c ==> ClosedAt(classes, s, Some(c), d);
    }
    FewerUnseen(|classes|, s.classesSeen, c);
  }

  lemma ChainMore(classes: seq<ClassInfo>, xs: seq<nat>, c: nat, isa: nat, n: nat)
    requires Valid(classes) && c < |classes| && classes[c].isa == Some(isa) && n > 0
    ensures xs + Own(classes[c].list) + Chain(classes, isa, n - 1) == xs + Chain(classes, c, n)
  {
    Bracket(xs, Own(classes[c].list), Chain(classes, isa, n - 1));
  }

  lemma ChainEnds(classes: seq<ClassInfo>, c: nat, n: nat)
    requires Valid(classes) && c < |classes| && classes[c].isa.None? && n > 0
    ensures Chain(classes, c, n) == Own(classes[c].list)
  {
    assert Own(classes[c].list) + [] == Own(classes[c].list);
  }

  lemma VisitOn(classes: seq<ClassInfo>, s: State, xs: seq<nat>, c: nat, n: nat)
    requires Valid(classes) && c < |classes| && c !in s.classesSeen && classes[c].isa.Some? && n > 0
    requires HasFirsts(VisitFrom(classes, Entered(classes, s, c), classes[c].isa.value),
                       xs + Own(classes[c].list) + Chain(classes, classes[c].isa.value, n - 1))
    ensures HasFirsts(VisitFrom(classes, s, c), xs + Chain(classes, c, n))
  {
    ChainMore(classes, xs, c, classes[c].isa.value, n);
  }

  /** Stopping at a class visited before loses nothing. */
  lemma {:induction false} VisitFirsts(classes: seq<ClassInfo>, s: State, xs: seq<nat>, c: nat, n: nat)
    requires Valid(classes) && c < |classes| && ClosedBut(classes, s, Some(c)) && HasFirsts(s, xs)
    requires Unseen'(|classes|, s.classesSeen) <= n
    ensures HasFirsts(VisitFrom(classes, s, c), xs + Chain(classes, c, n))
    decreases n
  {
    if c in s.classesSeen {
      SeenFirsts(classes, s, xs, c, n);
    } else {
      var ys := xs + Own(classes[c].list);
      NewFirsts(classes, s, xs, c);
      NewCloses(classes, s, c);
      if classes[c].isa.Some? {
        VisitFirsts(classes, Entered(classes, s, c), ys, classes[c].isa.value, n - 1);
        VisitOn(classes, s, xs, c, n);
      } else {
        ChainEnds(classes, c, n);
      }
    }
  }

  lemma {:induction false} UnseenBound(n: nat, seen: set<nat>)
    ensures Unseen'(n, seen) <= n
  {
    if n > 0 {
      UnseenBound(n - 1, seen);
    }
  }

  lemma LeadFirsts(classes: seq<ClassInfo>, s: State, xs: seq<nat>, lead: Lead)
    requires Valid(classes) && (lead.VisitClass? ==> lead.cls < |classes|) && Closed(classes, s) && HasFirsts(s, xs)
    ensures var r := match lead case VisitClass(c) => VisitFrom(classes, s, c) case NoteList(l) => Note(s, l);
            HasFirsts(r, xs + LeadsTo(classes, lead)) && Closed(classes, r)
  {
    match lead
    case VisitClass(c) =>
      UnseenBound(|classes|, s.classesSeen);
      ClosedBefore(classes, s, c);
      VisitFirsts(classes, s, xs, c, |classes|);
      VisitCloses(classes, s, c);
    case NoteList(l) =>
      NoteFirsts(s, xs, l);
      NoteCloses(classes, s, l);
  }

  lemma {:induction false} FollowFirsts(classes: seq<ClassInfo>, s: State, xs: seq<nat>, section: Section)
    requires Valid(classes) && SectionOk(classes, section) && Closed(classes, s) && HasFirsts(s, xs)
    ensures HasFirsts(Follow(classes, s, section), xs + Mentioned(classes, section))
    ensures Closed(classes, Follow(classes, s, section))
  {
    if section == [] {
      assert xs + [] == xs;
    } else {
      var n := |section| - 1;
      var prev, ms := Follow(classes, s, section[..n]), Mentioned(classes, section[..n]);
      FollowFirsts(classes, s, xs, section[..n]);
      LeadFirsts(classes, prev, xs + ms, section[n]);
      Bracket(xs, ms, LeadsTo(classes, section[n]));
    }
  }

  /** One finder finds the first mentions of all the lists the sections lead to, in order,
      although it skips every class it has visited. */
  lemma {:induction false} FinderFindsFirsts(classes: seq<ClassInfo>, sections: seq<Section>)
    requires Valid(classes) && AllOk(classes, sections)
    ensures HasFirsts(FollowAll(classes, FRESH, sections), AllMentioned(classes, sections))
    ensures Closed(classes, FollowAll(classes, FRESH, sections))
  {
    if sections != [] {
      var n := |sections| - 1;
      FinderFindsFirsts(classes, sections[..n]);
      var s := FollowAll(classes, FRESH, sections[..n]);
      FollowFirsts(classes, s, AllMentioned(classes, sections[..n]), sections[n]);
    }
  }
}
