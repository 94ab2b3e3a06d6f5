/** Finding the method lists the runtime visits (objc.rs, runtime_method_lists): blocks
    of list subsections followed independently, the first visits kept, against one
    finder following them all in order. */
module ObjcFinder {
  import opened Options

  /** Of a class: the method list its ro record leads to, if the list starts a
      subsection, and the class its isa names. The isa graph may have cycles. */
  datatype ClassInfo = ClassInfo(list: Option<nat>, isa: Option<nat>)

  /** What a list subsection leads to: classes to visit, or lists of categories,
      protocols and ro records. */
  datatype Lead = VisitClass(cls: nat) | NoteList(list: Option<nat>)

  type Section = seq<Lead>

  ghost predicate Valid(classes: seq<ClassInfo>) {
    forall c :: 0 <= c < |classes| && classes[c].isa.Some? ==> classes[c].isa.value < |classes|
  }

  ghost predicate SectionOk(classes: seq<ClassInfo>, s: Section) {
    forall k :: 0 <= k < |s| && s[k].VisitClass? ==> s[k].cls < |classes|
  }

  /** A MethodListFinder's fields. */
  datatype State = State(lists: seq<nat>, seen: set<nat>, classesSeen: set<nat>)

  const FRESH: State := State([], {}, {})

  // ---- One finder ----

  function Note(s: State, list: Option<nat>): State {
    if list.Some? && list.value !in s.seen then s.(lists := s.lists + [list.value], seen := s.seen + {list.value})
    else s
  }

  function Unseen(classes: seq<ClassInfo>, s: State): (n: nat)
    ensures forall c: nat :: c < |classes| && c !in s.classesSeen ==>
              Unseen'(|classes|, s.classesSeen + {c}) < n
  {
    forall c: nat | c < |classes| && c !in s.classesSeen
      ensures Unseen'(|classes|, s.classesSeen + {c}) < Unseen'(|classes|, s.classesSeen)
    {
      FewerUnseen(|classes|, s.classesSeen, c);
    }
    Unseen'(|classes|, s.classesSeen)
  }

  function Unseen'(n: nat, seen: set<nat>): nat {
    if n == 0 then 0 else Unseen'(n - 1, seen) + if n - 1 in seen then 0 else 1
  }

  lemma {:induction false} FewerUnseen(n: nat, seen: set<nat>, c: nat)
    ensures Unseen'(n, seen + {c}) <= Unseen'(n, seen)
    ensures c < n && c !in seen ==> Unseen'(n, seen + {c}) < Unseen'(n, seen)
  {
    if n > 0 {
      FewerUnseen(n - 1, seen, c);
    }
  }

  function VisitFrom(classes: seq<ClassInfo>, s: State, c: nat): (r: State)
    requires Valid(classes) && c < |classes|
    decreases Unseen(classes, s)
  {
    if c in s.classesSeen then s
    else
      var noted := Note(s.(classesSeen := s.classesSeen + {c}), classes[c].list);
      if classes[c].isa.None? then noted else VisitFrom(classes, noted, classes[c].isa.value)
  }

  function Follow(classes: seq<ClassInfo>, s: State, section: Section): State
    requires Valid(classes) && SectionOk(classes, section)
  {
    if section == [] then s
    else
      var n := |section| - 1;
      var prev := Follow(classes, s, section[..n]);
      match section[n]
      case VisitClass(c) => VisitFrom(classes, prev, c)
      case NoteList(l) => Note(prev, l)
  }

  class MethodListFinder {
    var lists: seq<nat>
    var seen: set<nat>
    var classesSeen: set<nat>

    ghost function Contents(): State
      reads this
    {
      State(lists, seen, classesSeen)
    }

    constructor ()
      ensures Contents() == FRESH
    {
      lists, seen, classesSeen := [], {}, {};
    }

    method NoteList(list: Option<nat>)
      modifies this
      ensures Contents() == Note(old(Contents()), list)
    {
      if list.Some? && list.value !in seen {
        seen := seen + {list.value};
        lists := lists + [list.value];
      }
    }

    method Visit(classes: seq<ClassInfo>, c: nat)
      requires Valid(classes) && c < |classes|
      modifies this
      ensures Contents() == VisitFrom(classes, old(Contents()), c)
      decreases Unseen(classes, Contents())
    {
      if c in classesSeen {
        return;
      }
      classesSeen := classesSeen + {c};
      NoteList(classes[c].list);
      if classes[c].isa.Some? {
        Visit(classes, classes[c].isa.value);
      }
    }

    method VisitSection(classes: seq<ClassInfo>, section: Section)
      requires Valid(classes) && SectionOk(classes, section)
      modifies this
      ensures Contents() == Follow(classes, old(Contents()), section)
    {
      for k := 0 to |section|
        invariant Contents() == Follow(classes, old(Contents()), section[..k])
      {
        assert section[..k + 1][..k] == section[..k];
        match section[k]
        case VisitClass(c) => Visit(classes, c);
        case NoteList(l) => NoteList(l);
      }
      assert section[..|section|] == section;
    }
  }
}
