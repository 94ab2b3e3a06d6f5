/** Registering probe sites (dtrace.rs, register): each with its probe, in the instance
    of its function. */
module DofRegister {
  import opened Options
  import opened Sequences
  import opened DofBytes
  import DofTables

  /** A site, by its symbol's fields: the probe's, the arguments if the encoding is the
      one known, and whether it is an is-enabled test; and the name of its function's
      subsection. */
  datatype Site = Site(field: seq<byte>, args: Option<seq<seq<byte>>>, test: bool, subsection: seq<byte>)

  const UNDERSCORE: byte := 0x5f
  const HYPHEN: byte := 0x2d

  /** Each "__" a "-", from the left. */
  function Hyphenate(name: seq<byte>): seq<byte> {
    if |name| < 2 then name
    else if name[0] == UNDERSCORE && name[1] == UNDERSCORE then [HYPHEN] + Hyphenate(name[2..])
    else [name[0]] + Hyphenate(name[1..])
  }

  /** `at` are where the bytes of the spelled name come from, in order and up to the end:
      a "-" from two underscores, and any other from itself, which is never the first of
      two underscores. */
  ghost predicate Spells(name: seq<byte>, out: seq<byte>, at: seq<nat>) {
    && |at| == |out| + 1 && at[0] == 0 && at[|out|] == |name|
    && forall i: nat :: i < |out| ==> SpellsAt(name, out[i], at[i], at[i + 1])
  }

  ghost predicate SpellsAt(name: seq<byte>, b: byte, from: nat, to: nat) {
    && from < |name|
    && if [0x5f, 0x5f] <= name[from..] then b == 0x2d && to == from + 2 else b == name[from] && to == from + 1
  }

  function Moved(at: seq<nat>, n: nat): (r: seq<nat>)
    ensures |r| == |at| && forall i :: 0 <= i < |at| ==> r[i] == at[i] + n
  {
    seq(|at|, i requires 0 <= i < |at| => at[i] + n)
  }

  lemma SpellsLater(name: seq<byte>, n: nat, b: byte, from: nat, to: nat)
    requires n <= |name| && SpellsAt(name[n..], b, from, to)
    ensures SpellsAt(name, b, from + n, to + n)
  {
    assert name[n..][from..] == name[from + n..];
  }

  /** What the rest spells, after what its first byte or two do. */
  lemma SpellsMore(name: seq<byte>, n: nat, b: byte, out: seq<byte>, at: seq<nat>)
    requires n <= |name| && SpellsAt(name, b, 0, n) && Spells(name[n..], out, at)
    ensures Spells(name, [b] + out, [0] + Moved(at, n))
  {
    var out', at' := [b] + out, [0] + Moved(at, n);
    forall i: nat | i < |out'| ensures SpellsAt(name, out'[i], at'[i], at'[i + 1]) {
      if i > 0 {
        assert SpellsAt(name[n..], out[i - 1], at[i - 1], at[i]);
        SpellsLater(name, n, out[i - 1], at[i - 1], at[i]);
      }
    }
  }

  /** A probe's name is spelled out of its field. */
  lemma {:induction false} HyphenateSpells(name: seq<byte>) returns (at: seq<nat>)
    ensures Spells(name, Hyphenate(name), at)
  {
    assert name[0..] == name;
    if name == [] {
      at := [0];
    } else if |name| == 1 {
      at := [0, 1];
    } else {
      var n := if name[0] == UNDERSCORE && name[1] == UNDERSCORE then 2 else 1;
      var rest := HyphenateSpells(name[n..]);
      SpellsMore(name, n, Hyphenate(name)[0], Hyphenate(name[n..]), rest);
      at := [0] + Moved(rest, n);
    }
  }

  /** One leading underscore less, cut to 127 bytes. */
  function FunctionName(l: seq<byte>): seq<byte> {
    var f := if l != [] && l[0] == UNDERSCORE then l[1..] else l;
    if |f| <= 127 then f else f[..127]
  }

  /** As many bytes as the kernel takes of what follows the underscore, if there is one. */
  ghost predicate IsFunctionName(l: seq<byte>, name: seq<byte>) {
    var rest := if [0x5f] <= l then l[1..] else l;
    |name| <= 127 && name <= rest && (|name| < 127 ==> name == rest)
  }

  lemma FunctionNameIs(l: seq<byte>)
    ensures IsFunctionName(l, FunctionName(l))
  {
  }

  type Instance = DofTables.Instance

  /** A probe as it is built: by the field that names it, without arguments until a
      probe site declares them. */
  datatype Group = Group(field: seq<byte>, args: Option<seq<seq<byte>>>, instances: seq<Instance>)

  // ---- What is registered ----

  /** The probes' fields, site by site. */
  function FieldsOf(ss: seq<Site>): seq<seq<byte>> {
    if ss == [] then [] else FieldsOf(ss[..|ss| - 1]) + [ss[|ss| - 1].field]
  }

  /** The functions of one probe's sites. */
  function FunctionsOf(ss: seq<Site>, field: seq<byte>): seq<seq<byte>> {
    if ss == [] then []
    else
      var s := ss[|ss| - 1];
      FunctionsOf(ss[..|ss| - 1], field) + if s.field == field then [FunctionName(s.subsection)] else []
  }

  predicate IsAt(s: Site, field: seq<byte>, funcName: seq<byte>, test: bool) {
    s.field == field && FunctionName(s.subsection) == funcName && s.test == test
  }

  /** The indices of a probe's sites, or tests, in a function. */
  function SitesAt(ss: seq<Site>, field: seq<byte>, funcName: seq<byte>, test: bool): seq<nat> {
    if ss == [] then []
    else
      var n := |ss| - 1;
      SitesAt(ss[..n], field, funcName, test) + if IsAt(ss[n], field, funcName, test) then [n] else []
  }

  /** The arguments the first probe site of a probe declares. */
  function ArgsOf(ss: seq<Site>, field: seq<byte>): Option<seq<seq<byte>>> {
    if ss == [] then None
    else
      var prev, s := ArgsOf(ss[..|ss| - 1], field), ss[|ss| - 1];
      if prev.Some? || s.field != field || s.test then prev else s.args
  }

  ghost predicate InstanceOk(ss: seq<Site>, field: seq<byte>, inst: Instance) {
    inst.sites == SitesAt(ss, field, inst.funcName, false) && inst.tests == SitesAt(ss, field, inst.funcName, true)
  }

  function Names(instances: seq<Instance>): (r: seq<seq<byte>>)
    ensures |r| == |instances| && forall j :: 0 <= j < |r| ==> r[j] == instances[j].funcName
  {
    seq(|instances|, j requires 0 <= j < |instances| => instances[j].funcName)
  }

  /** The probe holds exactly the sites of its field, grouped by function, the functions
      in the order of their first sites. */
  ghost predicate ProbeOk(ss: seq<Site>, p: Group) {
    && p.args == ArgsOf(ss, p.field) && Names(p.instances) == Firsts(FunctionsOf(ss, p.field))
    && forall j :: 0 <= j < |p.instances| ==> InstanceOk(ss, p.field, p.instances[j])
  }

  function Keys(ps: seq<Group>): (r: seq<seq<byte>>)
    ensures |r| == |ps| && forall k :: 0 <= k < |r| ==> r[k] == ps[k].field
  {
    seq(|ps|, k requires 0 <= k < |ps| => ps[k].field)
  }

  /** All sites, each with its probe, the probes in the order of their first sites. */
  ghost predicate AllRegistered(ss: seq<Site>, ps: seq<Group>) {
    Keys(ps) == Firsts(FieldsOf(ss)) && forall k :: 0 <= k < |ps| ==> ProbeOk(ss, ps[k])
  }

  /** A site whose arguments would be read, in an encoding that is not known. */
  ghost predicate BadAt(ss: seq<Site>, i: nat) {
    i < |ss| && !ss[i].test && ss[i].args.None? && ArgsOf(ss[..i], ss[i].field).None?
  }

  // ---- What that says of one site ----

  /** Site i is the first probe site of the probe; tests declare no arguments. */
  ghost predicate IsFirstProbeSite(ss: seq<Site>, field: seq<byte>, i: nat) {
    && i < |ss| && ss[i].field == field && !ss[i].test
    && forall j :: 0 <= j < i ==> ss[j].field != field || ss[j].test
  }

  lemma {:induction false} NoArgsBefore(ss: seq<Site>, field: seq<byte>)
    requires forall j :: 0 <= j < |ss| ==> ss[j].field != field || ss[j].test
    ensures ArgsOf(ss, field) == None
  {
    if ss != [] {
      NoArgsBefore(ss[..|ss| - 1], field);
    }
  }

  /** Unless it is bad, a probe's arguments are those its first probe site declares. */
  lemma {:induction false} ArgsAreFirst(ss: seq<Site>, field: seq<byte>, i: nat)
    requires IsFirstProbeSite(ss, field, i) && !BadAt(ss, i)
    ensures ss[i].args.Some? && ArgsOf(ss, field) == ss[i].args
  {
    var n := |ss| - 1;
    if i < n {
      assert ss[..n][..i] == ss[..i];
      ArgsAreFirst(ss[..n], field, i);
    } else {
      NoArgsBefore(ss[..n], field);
    }
  }

  // ---- One more site ----

  lemma FieldsPush(ss: seq<Site>, s: Site)
    ensures Firsts(FieldsOf(ss + [s])) ==
            if s.field in Firsts(FieldsOf(ss)) then Firsts(FieldsOf(ss)) else Firsts(FieldsOf(ss)) + [s.field]
  {
    assert (ss + [s])[..|ss|] == ss;
    FirstsPush(FieldsOf(ss), s.field);
  }

  lemma FunctionsPush(ss: seq<Site>, s: Site, field: seq<byte>)
    ensures s.field != field ==> FunctionsOf(ss + [s], field) == FunctionsOf(ss, field)
    ensures s.field == field ==>
              var f, fs := FunctionName(s.subsection), Firsts(FunctionsOf(ss, field));
              Firsts(FunctionsOf(ss + [s], field)) == if f in fs then fs else fs + [f]
  {
    assert (ss + [s])[..|ss|] == ss;
    FirstsPush(FunctionsOf(ss, field), FunctionName(s.subsection));
  }

  lemma SitesPush(ss: seq<Site>, s: Site, field: seq<byte>, f: seq<byte>, test: bool)
    ensures SitesAt(ss + [s], field, f, test) ==
            SitesAt(ss, field, f, test) + if IsAt(s, field, f, test) then [|ss|] else []
  {
    assert (ss + [s])[..|ss|] == ss;
  }

  lemma ArgsPush(ss: seq<Site>, s: Site, field: seq<byte>)
    ensures ArgsOf(ss + [s], field) ==
            if ArgsOf(ss, field).Some? || s.field != field || s.test then ArgsOf(ss, field) else s.args
  {
    assert (ss + [s])[..|ss|] == ss;
  }

  /** A field never seen has nothing registered. */
  lemma {:induction false} NothingYet(ss: seq<Site>, field: seq<byte>, f: seq<byte>)
    requires f !in FunctionsOf(ss, field)
    ensures SitesAt(ss, field, f, false) == [] && SitesAt(ss, field, f, true) == []
  {
    if ss != [] {
      NothingYet(ss[..|ss| - 1], field, f);
    }
  }

  lemma {:induction false} NoField(ss: seq<Site>, field: seq<byte>)
    requires field !in FieldsOf(ss)
    ensures FunctionsOf(ss, field) == [] && ArgsOf(ss, field) == None
  {
    if ss != [] {
      NoField(ss[..|ss| - 1], field);
    }
  }

  /** A site of another probe changes nothing. */
  lemma OtherProbe(ss: seq<Site>, s: Site, p: Group)
    requires ProbeOk(ss, p) && s.field != p.field
    ensures ProbeOk(ss + [s], p)
  {
    FunctionsPush(ss, s, p.field);
    ArgsPush(ss, s, p.field);
    forall j | 0 <= j < |p.instances| ensures InstanceOk(ss + [s], p.field, p.instances[j]) {
      SitesPush(ss, s, p.field, p.instances[j].funcName, false);
      SitesPush(ss, s, p.field, p.instances[j].funcName, true);
    }
  }

  /** The instance with the site's index added. */
  function WithSite(inst: Instance, n: nat, test: bool): Instance {
    if test then inst.(tests := inst.tests + [n]) else inst.(sites := inst.sites + [n])
  }

  lemma SameFunction(ss: seq<Site>, s: Site, inst: Instance)
    requires InstanceOk(ss, s.field, inst) && FunctionName(s.subsection) == inst.funcName
    ensures InstanceOk(ss + [s], s.field, WithSite(inst, |ss|, s.test))
  {
    SitesPush(ss, s, s.field, inst.funcName, false);
    SitesPush(ss, s, s.field, inst.funcName, true);
  }

  lemma OtherFunction(ss: seq<Site>, s: Site, inst: Instance)
    requires InstanceOk(ss, s.field, inst) && FunctionName(s.subsection) != inst.funcName
    ensures InstanceOk(ss + [s], s.field, inst)
  {
    SitesPush(ss, s, s.field, inst.funcName, false);
    SitesPush(ss, s, s.field, inst.funcName, true);
  }

  /** The site goes to its function's instance, a new one if it has none. */
  method AddToInstances(ghost ss: seq<Site>, n: nat, s: Site, p: Group) returns (instances: seq<Instance>)
    requires n == |ss| && p.field == s.field && Names(p.instances) == Firsts(FunctionsOf(ss, s.field))
    requires forall j :: 0 <= j < |p.instances| ==> InstanceOk(ss, s.field, p.instances[j])
    ensures Names(instances) == Firsts(FunctionsOf(ss + [s], s.field))
    ensures forall j :: 0 <= j < |instances| ==> InstanceOk(ss + [s], s.field, instances[j])
  {
    var f := FunctionName(s.subsection);
    var j := 0;
    while j < |p.instances| && p.instances[j].funcName != f
      invariant j <= |p.instances| && forall i :: 0 <= i < j ==> p.instances[i].funcName != f
    {
      j := j + 1;
    }
    FunctionsPush(ss, s, s.field);
    if j < |p.instances| {
      assert Names(p.instances)[j] == f;
      instances := p.instances[j := WithSite(p.instances[j], n, s.test)];
      assert Names(instances) == Names(p.instances);
    } else {
      assert f !in Names(p.instances);
      FirstsHas(FunctionsOf(ss, s.field), f);
      NothingYet(ss, s.field, f);
      assert InstanceOk(ss, s.field, DofTables.Instance(f, [], []));
      instances := p.instances + [WithSite(DofTables.Instance(f, [], []), n, s.test)];
      assert Names(instances) == Names(p.instances) + [f];
      SameFunction(ss, s, DofTables.Instance(f, [], []));
    }
    forall i | 0 <= i < |p.instances| ensures InstanceOk(ss + [s], s.field, instances[i]) {
      if i == j {
        SameFunction(ss, s, p.instances[i]);
      } else {
        if j < i && j < |p.instances| {
          FirstsDiffer(FunctionsOf(ss, s.field), j, i);
        }
        OtherFunction(ss, s, p.instances[i]);
      }
    }
  }

  // ---- All sites ----

  datatype Result = Ok(groups: seq<Group>) | Err(site: nat)

  /** register: all the sites, or the first whose encoding is not the one known. */
  method Register(ss: seq<Site>) returns (r: Result)
    ensures r.Ok? ==> AllRegistered(ss, r.groups) && forall i: nat :: !BadAt(ss, i)
    ensures r.Err? ==> BadAt(ss, r.site) && forall i: nat :: i < r.site ==> !BadAt(ss, i)
  {
    r := Ok([]);
    for i := 0 to |ss|
      invariant r.Ok? && AllRegistered(ss[..i], r.groups) && forall j: nat :: j < i ==> !BadAt(ss, j)
    {
      assert ss[..i + 1] == ss[..i] + [ss[i]];
      var bad, groups := AddSite(ss[..i], i, ss[i], r.groups);
      if bad {
        return Err(i);
      }
      r := Ok(groups);
    }
    assert ss[..|ss|] == ss;
  }

  method AddSite(ghost before: seq<Site>, i: nat, s: Site, groups: seq<Group>) returns (bad: bool, groups': seq<Group>)
    requires i == |before| && AllRegistered(before, groups)
    ensures bad <==> !s.test && s.args.None? && ArgsOf(before, s.field).None?
    ensures !bad ==> AllRegistered(before + [s], groups')
  {
    var k := 0;
    while k < |groups| && groups[k].field != s.field
      invariant k <= |groups| && forall j :: 0 <= j < k ==> groups[j].field != s.field
    {
      k := k + 1;
    }
    var p := if k < |groups| then groups[k] else Group(s.field, None, []);
    FoundOrNew(before, groups, s.field, k);
    if !s.test && p.args.None? && s.args.None? {
      return true, groups;
    }
    bad := false;
    ArgsPush(before, s, s.field);
    var args := if !s.test && p.args.None? then s.args else p.args;
    var instances := AddToInstances(before, i, s, p);
    var q := Group(s.field, args, instances);
    if k < |groups| {
      groups' := groups[k := q];
      SiteOfGroup(before, s, groups, k, q);
    } else {
      groups' := groups + [q];
      SiteOfNew(before, s, groups, q);
    }
  }

  /** The group the index finds, or a new one, is right for the sites so far. */
  lemma FoundOrNew(ss: seq<Site>, ps: seq<Group>, field: seq<byte>, k: nat)
    requires AllRegistered(ss, ps) && k <= |ps| && (k < |ps| ==> ps[k].field == field)
    requires forall j :: 0 <= j < k ==> ps[j].field != field
    ensures ProbeOk(ss, if k < |ps| then ps[k] else Group(field, None, []))
    ensures field in Keys(ps) <==> k < |ps|
  {
    assert k < |ps| ==> Keys(ps)[k] == field;
    if k == |ps| {
      FirstsHas(FieldsOf(ss), field);
      NoField(ss, field);
    }
  }

  /** The site goes to group k, which becomes q. */
  lemma SiteOfGroup(ss: seq<Site>, s: Site, ps: seq<Group>, k: nat, q: Group)
    requires AllRegistered(ss, ps) && k < |ps| && ps[k].field == q.field == s.field && ProbeOk(ss + [s], q)
    ensures AllRegistered(ss + [s], ps[k := q])
  {
    var ps' := ps[k := q];
    assert Keys(ps)[k] == s.field;
    FieldsPush(ss, s);
    assert Keys(ps') == Keys(ps);
    forall j: nat | j < |ps'| ensures ProbeOk(ss + [s], ps'[j]) {
      if j != k {
        GroupStays(ss, s, ps, j, k);
      }
    }
  }

  /** Or to a new one. */
  lemma SiteOfNew(ss: seq<Site>, s: Site, ps: seq<Group>, q: Group)
    requires AllRegistered(ss, ps) && s.field !in Keys(ps) && q.field == s.field && ProbeOk(ss + [s], q)
    ensures AllRegistered(ss + [s], ps + [q])
  {
    var ps' := ps + [q];
    FieldsPush(ss, s);
    assert Keys(ps') == Keys(ps) + [s.field];
    forall j: nat | j < |ps'| ensures ProbeOk(ss + [s], ps'[j]) {
      if j < |ps| {
        assert ps'[j] == ps[j];
        GroupStays(ss, s, ps, j, |ps|);
      } else {
        assert ps'[j] == q;
      }
    }
  }

  lemma GroupStays(ss: seq<Site>, s: Site, ps: seq<Group>, j: nat, k: nat)
    requires AllRegistered(ss, ps) && j < |ps| && j != k && k <= |ps| && (s.field in Keys(ps) <==> k < |ps|)
    requires k < |ps| ==> ps[k].field == s.field
    ensures ProbeOk(ss + [s], ps[j])
  {
    OthersDiffer(ss, s, ps, j, k);
    OtherProbe(ss, s, ps[j]);
  }

  /** Only group k has its field. */
  lemma OthersDiffer(ss: seq<Site>, s: Site, ps: seq<Group>, j: nat, k: nat)
    requires AllRegistered(ss, ps) && j < |ps| && j != k && k <= |ps| && (s.field in Keys(ps) <==> k < |ps|)
    requires k < |ps| ==> ps[k].field == s.field
    ensures ps[j].field != s.field
  {
    assert Keys(ps)[j] == ps[j].field;
    if j < k < |ps| {
      FirstsDiffer(FieldsOf(ss), j, k);
    } else if k < j {
      FirstsDiffer(FieldsOf(ss), k, j);
    }
  }

  // ---- Each site once ----

  lemma {:induction false} SitesAre(ss: seq<Site>, field: seq<byte>, f: seq<byte>, test: bool, i: nat)
    ensures i in SitesAt(ss, field, f, test) <==> i < |ss| && IsAt(ss[i], field, f, test)
  {
    if ss != [] {
      SitesAre(ss[..|ss| - 1], field, f, test, i);
    }
  }

  lemma {:induction false} FieldIn(ss: seq<Site>, i: nat)
    requires i < |ss|
    ensures ss[i].field in FieldsOf(ss) && FunctionName(ss[i].subsection) in FunctionsOf(ss, ss[i].field)
  {
    if i < |ss| - 1 {
      FieldIn(ss[..|ss| - 1], i);
    }
  }

  /** Each site is in the lists of exactly one instance, as what it is. */
  lemma EachSiteRegistered(ss: seq<Site>, ps: seq<Group>, i: nat) returns (k: nat, j: nat)
    requires AllRegistered(ss, ps) && i < |ss|
    ensures k < |ps| && j < |ps[k].instances|
    ensures i in if ss[i].test then ps[k].instances[j].tests else ps[k].instances[j].sites
    ensures forall k': nat, j': nat :: k' < |ps| && j' < |ps[k'].instances| && Lists(ps[k'].instances[j'], i) ==>
              k' == k && j' == j
    ensures i !in if ss[i].test then ps[k].instances[j].sites else ps[k].instances[j].tests
  {
    var s := ss[i];
    FieldIn(ss, i);
    FirstsHas(FieldsOf(ss), s.field);
    k :| 0 <= k < |ps| && Keys(ps)[k] == s.field;
    FirstsHas(FunctionsOf(ss, s.field), FunctionName(s.subsection));
    assert ProbeOk(ss, ps[k]);
    j :| 0 <= j < |ps[k].instances| && Names(ps[k].instances)[j] == FunctionName(s.subsection);
    assert InstanceOk(ss, ps[k].field, ps[k].instances[j]);
    SitesAre(ss, s.field, FunctionName(s.subsection), false, i);
    SitesAre(ss, s.field, FunctionName(s.subsection), true, i);
    forall k': nat, j': nat | k' < |ps| && j' < |ps[k'].instances| && Lists(ps[k'].instances[j'], i)
      ensures k' == k && j' == j
    {
      OnlyThere(ss, ps, i, k', j');
      OnlyThere(ss, ps, i, k, j);
      OneGroup(ss, ps, k, j, k', j');
    }
  }

  predicate Lists(inst: Instance, i: nat) { i in inst.sites || i in inst.tests }

  lemma OneGroup(ss: seq<Site>, ps: seq<Group>, k: nat, j: nat, k': nat, j': nat)
    requires AllRegistered(ss, ps) && k < |ps| && j < |ps[k].instances| && k' < |ps| && j' < |ps[k'].instances|
    requires ps[k].field == ps[k'].field && ps[k].instances[j].funcName == ps[k'].instances[j'].funcName
    ensures k == k' && j == j'
  {
    assert Keys(ps)[k] == Keys(ps)[k'];
    if k != k' {
      FirstsDiffer(FieldsOf(ss), if k < k' then k else k', if k < k' then k' else k);
    }
    assert ProbeOk(ss, ps[k]);
    assert Names(ps[k].instances)[j] == Names(ps[k].instances)[j'];
    if j != j' {
      FirstsDiffer(FunctionsOf(ss, ps[k].field), if j < j' then j else j', if j < j' then j' else j);
    }
  }

  lemma OnlyThere(ss: seq<Site>, ps: seq<Group>, i: nat, k: nat, j: nat)
    requires AllRegistered(ss, ps) && k < |ps| && j < |ps[k].instances|
    requires Lists(ps[k].instances[j], i)
    ensures i < |ss| && ps[k].field == ss[i].field && ps[k].instances[j].funcName == FunctionName(ss[i].subsection)
  {
    assert ProbeOk(ss, ps[k]);
    assert InstanceOk(ss, ps[k].field, ps[k].instances[j]);
    SitesAre(ss, ps[k].field, ps[k].instances[j].funcName, false, i);
    SitesAre(ss, ps[k].field, ps[k].instances[j].funcName, true, i);
  }
}
