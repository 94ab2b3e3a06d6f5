/** The lock-free digest-to-leader table of icf.rs.

    A slot's `hi` word packs, from the top, a 15-bit round stamp, a busy bit and
    the top 48 bits of the digest. Several inserts of one round run at once; each
    is a small program whose every load, store and compare-exchange is one atomic
    step, and a schedule is any sequence of (insert, spurious-failure) choices. */
module DigestMap {
  import opened Arith
  import opened Classes

  const TAG_LIMIT: nat := 0x1_0000_0000_0000
  const ROUND_UNIT: nat := 0x2_0000_0000_0000
  const ROUND_LIMIT: nat := 0x8000
  const WORD_LIMIT: nat := 0x1_0000_0000_0000_0000

  datatype Digest = Digest(hi: nat, lo: nat)

  ghost predicate IsDigest(d: Digest) {
    d.hi < WORD_LIMIT && d.lo < WORD_LIMIT
  }

  /** The 48 bits of a digest's `hi` that a slot keeps. */
  function Tag(d: Digest): nat { d.hi / 0x1_0000 }

  /** What two digests are compared by: 48 + 64 of their 128 bits. */
  function Key(d: Digest): (nat, nat) { (Tag(d), d.lo) }

  // The packed word, as a u64: a round past 15 bits loses its top bits.
  function PublishedWord(round: nat, tag: nat): nat { round * ROUND_UNIT % WORD_LIMIT + tag }

  function BusyWord(round: nat, tag: nat): nat { PublishedWord(round, tag) + TAG_LIMIT }

  function RoundOf(w: nat): nat { w / ROUND_UNIT }

  function TagOf(w: nat): nat { w % TAG_LIMIT }

  predicate IsBusy(w: nat) { w / TAG_LIMIT % 2 == 1 }

  lemma WordFields(round: nat, tag: nat)
    requires tag < TAG_LIMIT
    ensures var p, b := PublishedWord(round, tag), BusyWord(round, tag);
            && p < WORD_LIMIT && b < WORD_LIMIT
            && RoundOf(p) == RoundOf(b) == round % ROUND_LIMIT
            && TagOf(p) == TagOf(b) == tag && !IsBusy(p) && IsBusy(b)
  {
    var q, r := round / ROUND_LIMIT, round % ROUND_LIMIT;
    assert round * ROUND_UNIT == WORD_LIMIT * q + r * ROUND_UNIT;
    ModIs(round * ROUND_UNIT, WORD_LIMIT, q, r * ROUND_UNIT);
    FieldsOf(r, tag);
  }

  lemma FieldsOf(r: nat, tag: nat)
    requires r < ROUND_LIMIT && tag < TAG_LIMIT
    ensures var p, b := r * ROUND_UNIT + tag, r * ROUND_UNIT + tag + TAG_LIMIT;
            && p < WORD_LIMIT && b < WORD_LIMIT && RoundOf(p) == RoundOf(b) == r
            && TagOf(p) == TagOf(b) == tag && !IsBusy(p) && IsBusy(b)
  {
    var p := r * ROUND_UNIT + tag;
    ModIs(p, ROUND_UNIT, r, tag);
    ModIs(p, TAG_LIMIT, 2 * r, tag);
    ModIs(p + TAG_LIMIT, ROUND_UNIT, r, tag + TAG_LIMIT);
    ModIs(p + TAG_LIMIT, TAG_LIMIT, 2 * r + 1, tag);
  }

  /** The stamp of a round is readable exactly while it fits 15 bits; a later
      round sees every slot as vacant, even the ones it has just published. */
  lemma RoundStampReadsBack(round: nat, tag: nat)
    requires tag < TAG_LIMIT
    ensures RoundOf(PublishedWord(round, tag)) == round <==> round < ROUND_LIMIT
    ensures round >= ROUND_LIMIT ==> forall w: nat :: w < WORD_LIMIT ==> RoundOf(w) != round
  {
    WordFields(round, tag);
  }

  datatype Slot = Slot(hi: nat, lo: nat, leader: nat)

  /** Where an insert is: `k` counts the slots it has probed past. */
  datatype Pc =
    | Load(k: nat)
    | Test(k: nat, x: nat)
    | StoreLo(k: nat)
    | StoreLeader(k: nat)
    | Publish(k: nat)
    | LoadLeader(k: nat)
    | Lower(k: nat, cur: nat)
    | Done(k: nat, added: bool)

  function NextPowerOfTwo(n: nat, p: nat): (r: nat)
    requires 0 < p
    ensures n <= r && p <= r
    decreases n - p
  {
    if n <= p then p else NextPowerOfTwo(n, 2 * p)
  }

  /** The number of slots DigestMap::new allocates for n candidates. */
  function TableLen(n: nat): (len: nat)
    ensures 2 * n <= len && 0 < len
  {
    NextPowerOfTwo(2 * n, 1)
  }

  /** One round: insert `t` puts digests[t] with candidate index t. */
  datatype Round = Round(round: nat, len: nat, digests: seq<Digest>) {
    ghost predicate Valid() { Sized() && 0 < round < ROUND_LIMIT }

    /** The table is one that DigestMap::new makes for as many candidates, and distinct
        digests differ in the 112 bits a slot compares. */
    ghost predicate Sized() {
      && 0 < |digests|
      && len == TableLen(|digests|)
      && (forall t :: 0 <= t < |digests| ==> IsDigest(digests[t]))
      && (forall t, u {:trigger Key(digests[t]), Key(digests[u])} ::
            (0 <= t < |digests| && 0 <= u < |digests| && digests[t].lo == digests[u].lo
             && digests[t].hi / 0x1_0000 == digests[u].hi / 0x1_0000) ==> digests[t] == digests[u])
    }

    function At(t: nat, k: nat): nat
      requires t < |digests| && 0 < len
    {
      (digests[t].hi + k) % len
    }

    function KeyAt(t: nat): (nat, nat)
      requires t < |digests|
    {
      Key(digests[t])
    }
  }

  /** `owner` is a history variable: which insert claimed which slot. */
  datatype State = State(slots: seq<Slot>, pcs: seq<Pc>, owner: map<nat, nat>)

  /** The fields of a valid round's words. */
  lemma StampFields(c: Round, tag: nat)
    requires c.Valid() && tag < TAG_LIMIT
    ensures var p, b := PublishedWord(c.round, tag), BusyWord(c.round, tag);
            && RoundOf(p) == RoundOf(b) == c.round && TagOf(p) == TagOf(b) == tag && !IsBusy(p) && IsBusy(b)
  {
    WordFields(c.round, tag);
  }

  predicate Shaped(c: Round, s: State) {
    |s.slots| == c.len && |s.pcs| == |c.digests|
  }

  ghost predicate Init(c: Round, s: State) {
    && Shaped(c, s)
    && s.owner == map[]
    && (forall t :: 0 <= t < |s.pcs| ==> s.pcs[t] == Load(0))
    && (forall i :: 0 <= i < |s.slots| ==> RoundOf(s.slots[i].hi) < c.round)
  }

  /** One atomic step of insert `t`; `weak` lets a compare-exchange fail although
      the value matched, as compare_exchange_weak may. */
  function Step(c: Round, s: State, t: nat, weak: bool): (s': State)
    requires c.Sized() && Shaped(c, s) && t < |s.pcs|
    ensures Shaped(c, s')
  {
    var d := c.digests[t];
    var i := c.At(t, s.pcs[t].k);
    var slot := s.slots[i];
    match s.pcs[t]
    case Load(k) => s.(pcs := s.pcs[t := Test(k, slot.hi)])
    case Test(k, x) =>
      if RoundOf(x) != c.round then
        if slot.hi == x && !weak then
          s.(slots := s.slots[i := slot.(hi := BusyWord(c.round, Tag(d)))],
             pcs := s.pcs[t := StoreLo(k)], owner := s.owner[i := t])
        else
          s.(pcs := s.pcs[t := Test(k, slot.hi)])
      else if TagOf(x) != Tag(d) then s.(pcs := s.pcs[t := Load(k + 1)])
      else if IsBusy(x) then s.(pcs := s.pcs[t := Test(k, slot.hi)])
      else if slot.lo != d.lo then s.(pcs := s.pcs[t := Load(k + 1)])
      else s.(pcs := s.pcs[t := LoadLeader(k)])
    case StoreLo(k) =>
      s.(slots := s.slots[i := slot.(lo := d.lo)], pcs := s.pcs[t := StoreLeader(k)])
    case StoreLeader(k) =>
      s.(slots := s.slots[i := slot.(leader := t)], pcs := s.pcs[t := Publish(k)])
    case Publish(k) =>
      s.(slots := s.slots[i := slot.(hi := PublishedWord(c.round, Tag(d)))],
         pcs := s.pcs[t := Done(k, true)])
    case LoadLeader(k) => s.(pcs := s.pcs[t := Lower(k, slot.leader)])
    case Lower(k, cur) =>
      if t < cur then
        if slot.leader == cur && !weak then
          s.(slots := s.slots[i := slot.(leader := t)], pcs := s.pcs[t := Done(k, false)])
        else
          s.(pcs := s.pcs[t := Lower(k, slot.leader)])
      else s.(pcs := s.pcs[t := Done(k, false)])
    case Done(_, _) => s
  }

  // ---- The invariant ----

  ghost predicate Claiming(pc: Pc) {
    pc.StoreLo? || pc.StoreLeader? || pc.Publish? || (pc.Done? && pc.added)
  }

  /** What slot `i` holds is a function of the insert that claimed it. */
  ghost predicate SlotOk(c: Round, s: State, i: nat)
    requires c.Valid() && Shaped(c, s) && i < c.len
  {
    var slot := s.slots[i];
    if i !in s.owner then RoundOf(slot.hi) < c.round
    else
      var t := s.owner[i];
      && t < |s.pcs|
      && Claiming(s.pcs[t])
      && c.At(t, s.pcs[t].k) == i
      && slot.hi == (if s.pcs[t].Done? then PublishedWord(c.round, Tag(c.digests[t]))
                     else BusyWord(c.round, Tag(c.digests[t])))
      && (!s.pcs[t].StoreLo? ==> slot.lo == c.digests[t].lo)
      && (s.pcs[t].Publish? ==> slot.leader == t)
      && (s.pcs[t].Done? ==> slot.leader <= t && c.KeyAt(slot.leader) == c.KeyAt(t))
  }

  ghost predicate Published(c: Round, s: State, i: nat) {
    i in s.owner && s.owner[i] < |s.pcs| && s.pcs[s.owner[i]].Done?
  }

  /** Every slot an insert has probed past is claimed for another key. */
  ghost predicate PathOk(c: Round, s: State, t: nat)
    requires c.Valid() && Shaped(c, s) && t < |s.pcs|
  {
    && s.pcs[t].k < c.len
    && forall j :: 0 <= j < s.pcs[t].k ==>
         && c.At(t, j) in s.owner
         && s.owner[c.At(t, j)] < |s.pcs|
         && c.KeyAt(s.owner[c.At(t, j)]) != c.KeyAt(t)
  }

  ghost predicate ThreadOk(c: Round, s: State, t: nat)
    requires c.Valid() && Shaped(c, s) && t < |s.pcs|
  {
    var i := c.At(t, s.pcs[t].k);
    var pc := s.pcs[t];
    && (Claiming(pc) ==> i in s.owner && s.owner[i] == t)
    && (pc.Test? && i !in s.owner ==> pc.x == s.slots[i].hi)
    && (pc.Test? && RoundOf(pc.x) == c.round ==>
          && i in s.owner && s.owner[i] < |s.pcs|
          && TagOf(pc.x) == Tag(c.digests[s.owner[i]])
          && (!IsBusy(pc.x) ==> Published(c, s, i)))
    && (pc.LoadLeader? || pc.Lower? || (pc.Done? && !pc.added) ==>
          Published(c, s, i) && c.KeyAt(s.owner[i]) == c.KeyAt(t))
    && (pc.Lower? ==> s.slots[i].leader <= pc.cur < |s.pcs|)
    && (pc.Done? && !pc.added ==> s.slots[i].leader <= t)
  }

  ghost predicate Inv(c: Round, s: State) {
    && c.Valid() && Shaped(c, s)
    && (forall i :: i in s.owner ==> i < c.len)
    && (forall i: nat :: i < c.len ==> SlotOk(c, s, i))
    && (forall t: nat :: t < |s.pcs| ==> PathOk(c, s, t))
    && (forall t: nat :: t < |s.pcs| ==> ThreadOk(c, s, t))
  }

  lemma InitInv(c: Round, s: State)
    requires c.Valid() && Init(c, s)
    ensures Inv(c, s)
  {
  }

  /** The slots at distance less than m from insert t's first one. */
  lemma PathSlots(c: Round, t: nat, m: nat) returns (path: set<nat>)
    requires c.Valid() && t < |c.digests| && m <= c.len
    ensures |path| == m
    ensures forall i :: i in path ==> exists j :: 0 <= j < m && i == c.At(t, j)
  {
    path := {};
    for k := 0 to m
      invariant |path| == k
      invariant forall i :: i in path ==> exists j :: 0 <= j < k && i == c.At(t, j)
    {
      forall j | 0 <= j < k ensures c.At(t, j) != c.At(t, k) {
        ModDistinct(c.digests[t].hi, j, k, c.len);
      }
      path := path + {c.At(t, k)};
    }
  }

  lemma InjectiveImage(dom: set<nat>, f: map<nat, nat>, bound: nat)
    requires forall i :: i in dom ==> i in f && f[i] < bound
    requires forall i, j :: i in dom && j in dom && f[i] == f[j] ==> i == j
    ensures |dom| <= bound
    decreases bound
  {
    if bound == 0 {
      assert dom == {};
    } else if i :| i in dom && f[i] == bound - 1 {
      InjectiveImage(dom - {i}, f, bound - 1);
    } else {
      InjectiveImage(dom, f, bound - 1);
    }
  }

  /** There is always a slot left to probe: the table is at most half claimed. */
  lemma Room(c: Round, s: State, t: nat, k: nat)
    requires Inv(c, s) && t < |s.pcs| && k < c.len
    requires forall j :: 0 <= j <= k ==> c.At(t, j) in s.owner
    ensures k + 1 < c.len
  {
    var path := PathSlots(c, t, k + 1);
    forall i | i in path ensures i in s.owner && s.owner[i] < |s.pcs| {
      assert SlotOk(c, s, i);
    }
    forall i, j | i in path && j in path && s.owner[i] == s.owner[j] ensures i == j {
      assert SlotOk(c, s, i) && SlotOk(c, s, j);
    }
    InjectiveImage(path, s.owner, |s.pcs|);
  }

  /** A step that writes no slot and neither starts nor ends a claim. */
  lemma LocalStep(c: Round, s: State, s': State, t: nat, pc: Pc)
    requires Inv(c, s) && t < |s.pcs|
    requires s' == s.(pcs := s.pcs[t := pc])
    requires !Claiming(s.pcs[t]) && !Claiming(pc)
    requires PathOk(c, s', t) && ThreadOk(c, s', t)
    ensures Inv(c, s')
  {
    forall i: nat | i < c.len ensures SlotOk(c, s', i) {
      assert SlotOk(c, s, i);
    }
    forall u: nat | u < |s'.pcs| ensures PathOk(c, s', u) && ThreadOk(c, s', u) {
      assert PathOk(c, s, u) && ThreadOk(c, s, u);
      var i := c.At(u, s.pcs[u].k);
      assert SlotOk(c, s, i);
    }
  }

  lemma LoadStep(c: Round, s: State, t: nat, weak: bool)
    requires Inv(c, s) && t < |s.pcs| && (s.pcs[t].Load? || s.pcs[t].LoadLeader?)
    ensures Inv(c, Step(c, s, t, weak))
  {
    var i := c.At(t, s.pcs[t].k);
    assert PathOk(c, s, t) && ThreadOk(c, s, t) && SlotOk(c, s, i);
    if i in s.owner {
      StampFields(c, Tag(c.digests[s.owner[i]]));
    }
    var s' := Step(c, s, t, weak);
    LocalStep(c, s, s', t, s'.pcs[t]);
  }

  /** What a test of a slot's word leads to: the next slot if the digest there is another. */
  lemma TestMoves(c: Round, s: State, t: nat)
    requires Inv(c, s) && t < |s.pcs| && s.pcs[t].Test? && RoundOf(s.pcs[t].x) == c.round
    requires var x, slot := s.pcs[t].x, s.slots[c.At(t, s.pcs[t].k)];
             TagOf(x) != Tag(c.digests[t]) || (!IsBusy(x) && slot.lo != c.digests[t].lo)
    ensures var s' := s.(pcs := s.pcs[t := Load(s.pcs[t].k + 1)]); PathOk(c, s', t) && ThreadOk(c, s', t)
  {
    var i := c.At(t, s.pcs[t].k);
    assert PathOk(c, s, t) && ThreadOk(c, s, t) && SlotOk(c, s, i);
    assert c.KeyAt(s.owner[i]) != c.KeyAt(t);
    Room(c, s, t, s.pcs[t].k);
  }

  /** Or another look at the same one, the word as it is now. */
  lemma TestAgain(c: Round, s: State, t: nat)
    requires Inv(c, s) && t < |s.pcs| && s.pcs[t].Test?
    ensures var s' := s.(pcs := s.pcs[t := Test(s.pcs[t].k, s.slots[c.At(t, s.pcs[t].k)].hi)]);
            PathOk(c, s', t) && ThreadOk(c, s', t)
  {
    var i := c.At(t, s.pcs[t].k);
    assert PathOk(c, s, t) && SlotOk(c, s, i);
    if i in s.owner {
      StampFields(c, Tag(c.digests[s.owner[i]]));
    }
  }

  lemma TestStep(c: Round, s: State, t: nat, weak: bool)
    requires Inv(c, s) && t < |s.pcs| && s.pcs[t].Test?
    requires RoundOf(s.pcs[t].x) == c.round || s.slots[c.At(t, s.pcs[t].k)].hi != s.pcs[t].x || weak
    ensures Inv(c, Step(c, s, t, weak))
  {
    var s' := Step(c, s, t, weak);
    if s'.pcs[t].Load? {
      TestMoves(c, s, t);
    } else if s'.pcs[t].LoadLeader? {
      assert PathOk(c, s, t) && ThreadOk(c, s, t) && SlotOk(c, s, c.At(t, s.pcs[t].k));
    } else {
      TestAgain(c, s, t);
    }
    LocalStep(c, s, s', t, s'.pcs[t]);
  }

  /** A reload of a busy word finds the round and the tag it had, so that to test them
      again is to test the busy bit alone. */
  lemma SpinSeesTag(c: Round, s: State, t: nat, weak: bool)
    requires Inv(c, s) && t < |s.pcs| && s.pcs[t].Test?
    requires RoundOf(s.pcs[t].x) == c.round && TagOf(s.pcs[t].x) == Tag(c.digests[t]) && IsBusy(s.pcs[t].x)
    ensures var pc := Step(c, s, t, weak).pcs[t];
            pc.Test? && pc.k == s.pcs[t].k && RoundOf(pc.x) == c.round && TagOf(pc.x) == Tag(c.digests[t])
  {
    var i := c.At(t, s.pcs[t].k);
    assert ThreadOk(c, s, t) && SlotOk(c, s, i);
    StampFields(c, Tag(c.digests[s.owner[i]]));
  }

  lemma ClaimThreads(c: Round, s: State, t: nat, s': State)
    requires Inv(c, s) && t < |s.pcs| && s.pcs[t].Test? && RoundOf(s.pcs[t].x) != c.round
    requires c.At(t, s.pcs[t].k) !in s.owner
    requires s.slots[c.At(t, s.pcs[t].k)].hi == s.pcs[t].x && s' == Step(c, s, t, false)
    ensures forall u: nat :: u < |s'.pcs| ==> PathOk(c, s', u) && ThreadOk(c, s', u)
  {
    forall u: nat | u < |s'.pcs| ensures PathOk(c, s', u) && ThreadOk(c, s', u) {
      assert PathOk(c, s, u) && ThreadOk(c, s, u);
      assert SlotOk(c, s, c.At(u, s.pcs[u].k));
    }
  }

  /** The word in a claimed slot is stamped with the round. */
  lemma OwnedStamp(c: Round, s: State, i: nat)
    requires c.Valid() && Shaped(c, s) && i < c.len && SlotOk(c, s, i) && i in s.owner
    ensures RoundOf(s.slots[i].hi) == c.round
  {
    StampFields(c, Tag(c.digests[s.owner[i]]));
  }

  lemma OwnedIsStamped(c: Round, s: State, i: nat)
    requires Inv(c, s) && i < c.len
    ensures i in s.owner <==> RoundOf(s.slots[i].hi) == c.round
  {
    assert SlotOk(c, s, i);
    if i in s.owner {
      OwnedStamp(c, s, i);
    }
  }

  lemma ClaimSlots(c: Round, s: State, t: nat, s': State)
    requires Inv(c, s) && t < |s.pcs| && s.pcs[t].Test? && RoundOf(s.pcs[t].x) != c.round
    requires c.At(t, s.pcs[t].k) !in s.owner
    requires s.slots[c.At(t, s.pcs[t].k)].hi == s.pcs[t].x && s' == Step(c, s, t, false)
    ensures forall j: nat :: j < c.len ==> SlotOk(c, s', j)
  {
    forall j: nat | j < c.len ensures SlotOk(c, s', j) {
      assert SlotOk(c, s, j);
    }
  }

  lemma ClaimStep(c: Round, s: State, t: nat)
    requires Inv(c, s) && t < |s.pcs| && s.pcs[t].Test?
    requires RoundOf(s.pcs[t].x) != c.round && s.slots[c.At(t, s.pcs[t].k)].hi == s.pcs[t].x
    ensures Inv(c, Step(c, s, t, false))
  {
    var i := c.At(t, s.pcs[t].k);
    OwnedIsStamped(c, s, i);
    var s' := Step(c, s, t, false);
    ClaimSlots(c, s, t, s');
    ClaimThreads(c, s, t, s');
  }

  lemma OwnerStep(c: Round, s: State, t: nat, weak: bool)
    requires Inv(c, s) && t < |s.pcs|
    requires s.pcs[t].StoreLo? || s.pcs[t].StoreLeader? || s.pcs[t].Publish?
    ensures Inv(c, Step(c, s, t, weak))
  {
    var i := c.At(t, s.pcs[t].k);
    assert PathOk(c, s, t) && ThreadOk(c, s, t) && SlotOk(c, s, i);
    var s' := Step(c, s, t, weak);
    forall j: nat | j < c.len ensures SlotOk(c, s', j) {
      assert SlotOk(c, s, j);
    }
    forall u: nat | u < |s'.pcs| ensures PathOk(c, s', u) && ThreadOk(c, s', u) {
      assert PathOk(c, s, u) && ThreadOk(c, s, u);
      assert SlotOk(c, s, c.At(u, s.pcs[u].k));
    }
  }

  lemma LowerWriteSlots(c: Round, s: State, t: nat, s': State)
    requires Inv(c, s) && t < |s.pcs| && s.pcs[t].Lower? && t < s.pcs[t].cur
    requires s.slots[c.At(t, s.pcs[t].k)].leader == s.pcs[t].cur && s' == Step(c, s, t, false)
    ensures forall j: nat :: j < c.len ==> SlotOk(c, s', j)
  {
    var i := c.At(t, s.pcs[t].k);
    assert ThreadOk(c, s, t) && SlotOk(c, s, i);
    forall j: nat | j < c.len ensures SlotOk(c, s', j) {
      assert SlotOk(c, s, j);
    }
  }

  lemma LowerStep(c: Round, s: State, t: nat, weak: bool)
    requires Inv(c, s) && t < |s.pcs| && s.pcs[t].Lower?
    ensures Inv(c, Step(c, s, t, weak))
  {
    var i := c.At(t, s.pcs[t].k);
    assert PathOk(c, s, t) && ThreadOk(c, s, t) && SlotOk(c, s, i);
    var s' := Step(c, s, t, weak);
    if s'.slots == s.slots {
      LocalStep(c, s, s', t, s'.pcs[t]);
    } else {
      LowerWriteSlots(c, s, t, s');
      forall u: nat | u < |s'.pcs| ensures PathOk(c, s', u) && ThreadOk(c, s', u) {
        assert PathOk(c, s, u) && ThreadOk(c, s, u);
      }
    }
  }

  lemma StepInv(c: Round, s: State, t: nat, weak: bool)
    requires Inv(c, s) && t < |s.pcs|
    ensures Inv(c, Step(c, s, t, weak))
  {
    match s.pcs[t]
    case Load(_) => LoadStep(c, s, t, weak);
    case LoadLeader(_) => LoadStep(c, s, t, weak);
    case Test(k, x) =>
      if RoundOf(x) != c.round && s.slots[c.At(t, k)].hi == x && !weak {
        ClaimStep(c, s, t);
      } else {
        TestStep(c, s, t, weak);
      }
    case Lower(_, _) => LowerStep(c, s, t, weak);
    case Done(_, _) =>
    case _ => OwnerStep(c, s, t, weak);
  }

  // ---- A whole round ----

  ghost predicate IsSchedule(c: Round, schedule: seq<(nat, bool)>) {
    forall e :: e in schedule ==> e.0 < |c.digests|
  }

  function Run(c: Round, s: State, schedule: seq<(nat, bool)>): (s': State)
    requires c.Sized() && Shaped(c, s)
    requires forall e :: e in schedule ==> e.0 < |c.digests|
    ensures Shaped(c, s')
    decreases |schedule|
  {
    if schedule == [] then s
    else Run(c, Step(c, s, schedule[0].0, schedule[0].1), schedule[1..])
  }

  lemma {:induction false} RunInv(c: Round, s: State, schedule: seq<(nat, bool)>)
    requires Inv(c, s) && IsSchedule(c, schedule)
    ensures Inv(c, Run(c, s, schedule))
    decreases |schedule|
  {
    if schedule != [] {
      StepInv(c, s, schedule[0].0, schedule[0].1);
      RunInv(c, Step(c, s, schedule[0].0, schedule[0].1), schedule[1..]);
    }
  }

  ghost predicate Finished(s: State) {
    forall t :: 0 <= t < |s.pcs| ==> s.pcs[t].Done?
  }

  /** The inserts that returned true, which count_num_classes sums. */
  function Added(s: State): set<nat> {
    set t | 0 <= t < |s.pcs| && s.pcs[t].Done? && s.pcs[t].added
  }

  /** The slot insert `t` ended at holds its digest and the lowest candidate of it. */
  ghost predicate Elected(c: Round, s: State, t: nat)
    requires c.Valid() && Shaped(c, s) && t < |c.digests|
  {
    var d := c.digests[t];
    var slot := s.slots[c.At(t, s.pcs[t].k)];
    && slot.hi == PublishedWord(c.round, Tag(d))
    && slot.lo == d.lo
    && slot.leader == Leader(c.digests, d)
  }

  /** No digest has two slots, at any moment of any schedule. */
  lemma OneSlotPerDigest(c: Round, s: State, i: nat, j: nat)
    requires Inv(c, s) && i in s.owner && j in s.owner
    requires s.owner[i] < |s.pcs| && s.owner[j] < |s.pcs|
    requires c.KeyAt(s.owner[i]) == c.KeyAt(s.owner[j])
    ensures i == j
  {
    assert SlotOk(c, s, i) && SlotOk(c, s, j);
    var t, u := s.owner[i], s.owner[j];
    assert PathOk(c, s, t) && PathOk(c, s, u);
    assert c.At(t, s.pcs[t].k) == c.At(u, s.pcs[t].k);
    assert c.At(u, s.pcs[u].k) == c.At(t, s.pcs[u].k);
  }

  lemma Settled(c: Round, s: State, t: nat)
    requires Inv(c, s) && Finished(s) && t < |s.pcs|
    ensures var i := c.At(t, s.pcs[t].k);
            Published(c, s, i) && SlotOk(c, s, i) && c.KeyAt(s.owner[i]) == c.KeyAt(t) && s.slots[i].leader <= t
  {
    assert ThreadOk(c, s, t);
    assert SlotOk(c, s, c.At(t, s.pcs[t].k));
  }

  lemma FinishedElects(c: Round, s: State, t: nat)
    requires Inv(c, s) && Finished(s) && t < |s.pcs|
    ensures Elected(c, s, t)
  {
    Settled(c, s, t);
    var i := c.At(t, s.pcs[t].k);
    var first := Leader(c.digests, c.digests[t]);
    Settled(c, s, first);
    OneSlotPerDigest(c, s, i, c.At(first, s.pcs[first].k));
    var l := s.slots[i].leader;
    assert c.KeyAt(l) == c.KeyAt(t);
  }

  lemma FinishedCounts(c: Round, s: State)
    requires Inv(c, s) && Finished(s)
    ensures |Added(s)| == NumClasses(c.digests)
    ensures forall t, u :: t in Added(s) && u in Added(s) && c.digests[t] == c.digests[u] ==> t == u
  {
    var b := Distinct(c.digests);
    forall t, u | t in Added(s) && u in Added(s) && c.digests[t] == c.digests[u] ensures t == u {
      assert ThreadOk(c, s, t) && ThreadOk(c, s, u);
      OneSlotPerDigest(c, s, c.At(t, s.pcs[t].k), c.At(u, s.pcs[u].k));
    }
    forall x | x in b ensures exists t :: t in Added(s) && c.digests[t] == x {
      var u: nat :| u < |c.digests| && c.digests[u] == x;
      Settled(c, s, u);
      var i := c.At(u, s.pcs[u].k);
      assert s.owner[i] in Added(s);
    }
    OnePerClass(c.digests, Added(s), b);
  }

  /** The round's theorem: however the inserts interleave, once all have returned
      exactly one insert per distinct digest returned true, no two slots stamped in
      this round hold the same digest, and every digest's slot is published with the
      lowest candidate index inserted for it. */
  lemma RoundCountsAndElects(c: Round, s: State, schedule: seq<(nat, bool)>)
    requires c.Valid() && Init(c, s) && IsSchedule(c, schedule)
    requires Finished(Run(c, s, schedule))
    ensures var s' := Run(c, s, schedule);
            && |Added(s')| == NumClasses(c.digests)
            && (forall t, u :: t in Added(s') && u in Added(s') && c.digests[t] == c.digests[u] ==> t == u)
            && (forall t: nat :: t < |c.digests| ==> Elected(c, s', t))
            && (forall i, j :: 0 <= i < c.len && 0 <= j < c.len
                  && RoundOf(s'.slots[i].hi) == RoundOf(s'.slots[j].hi) == c.round
                  && TagOf(s'.slots[i].hi) == TagOf(s'.slots[j].hi) && s'.slots[i].lo == s'.slots[j].lo
                  ==> i == j)
  {
    InitInv(c, s);
    RunInv(c, s, schedule);
    var s' := Run(c, s, schedule);
    FinishedCounts(c, s');
    forall t: nat | t < |c.digests| ensures Elected(c, s', t) {
      FinishedElects(c, s', t);
    }
    forall i, j | 0 <= i < c.len && 0 <= j < c.len
                  && RoundOf(s'.slots[i].hi) == RoundOf(s'.slots[j].hi) == c.round
                  && TagOf(s'.slots[i].hi) == TagOf(s'.slots[j].hi) && s'.slots[i].lo == s'.slots[j].lo
      ensures i == j
    {
      assert SlotOk(c, s', i) && SlotOk(c, s', j);
      StampFields(c, Tag(c.digests[s'.owner[i]]));
      StampFields(c, Tag(c.digests[s'.owner[j]]));
      OneSlotPerDigest(c, s', i, j);
    }
  }

  /** The table a finished round leaves reads as vacant to the next round. */
  lemma NextRoundStartsVacant(c: Round, s: State, c': Round, s': State)
    requires Inv(c, s) && Finished(s)
    requires c'.Valid() && c'.round == c.round + 1 && c'.len == c.len && |c'.digests| == |c.digests|
    requires s' == State(s.slots, seq(|s.pcs|, _ => Load(0)), map[])
    ensures Init(c', s')
  {
    forall i: nat | i < |s.slots| ensures RoundOf(s.slots[i].hi) < c'.round {
      assert SlotOk(c, s, i);
      if i in s.owner {
        StampFields(c, Tag(c.digests[s.owner[i]]));
      }
    }
  }

  /** No slot before the digest's own matches it. */
  lemma NotYet(c: Round, s: State, t: nat, k: nat)
    requires Inv(c, s) && Finished(s) && t < |s.pcs| && k < s.pcs[t].k
    ensures var slot := s.slots[c.At(t, k)];
            !(slot.hi == PublishedWord(c.round, Tag(c.digests[t])) && slot.lo == c.digests[t].lo)
  {
    assert PathOk(c, s, t);
    var i := c.At(t, k);
    assert SlotOk(c, s, i);
    StampFields(c, Tag(c.digests[s.owner[i]]));
    StampFields(c, Tag(c.digests[t]));
  }

  lemma NextSlot(c: Round, t: nat, k: nat)
    requires c.Valid() && t < |c.digests|
    ensures c.At(t, k + 1) == (c.At(t, k) + 1) % c.len
  {
    ModStep(c.digests[t].hi + k, c.len);
  }

  /** DigestMap::find, after the round: it stops, at the digest's leader. */
  method Find(c: Round, s: State, d: Digest) returns (leader: nat)
    requires Inv(c, s) && Finished(s) && d in c.digests
    ensures leader == Leader(c.digests, d)
  {
    var value := PublishedWord(c.round, Tag(d));
    var i := d.hi % c.len;
    ghost var t := Leader(c.digests, d);
    ghost var k := 0;
    FinishedElects(c, s, t);
    while !(s.slots[i].hi == value && s.slots[i].lo == d.lo)
      invariant k <= s.pcs[t].k && i == c.At(t, k)
      decreases s.pcs[t].k - k
    {
      NextSlot(c, t, k);
      i := (i + 1) % c.len;
      k := k + 1;
    }
    if k < s.pcs[t].k {
      NotYet(c, s, t, k);
    }
    assert k == s.pcs[t].k;
    leader := s.slots[i].leader;
  }

  // ---- Rounds whose number does not fit the stamp ----

  /** The words are u64s, and no insert has probed past its first slot or found its
      digest present. */
  ghost predicate LateInv(c: Round, s: State) {
    && Shaped(c, s)
    && (forall i :: 0 <= i < |s.slots| ==> s.slots[i].hi < WORD_LIMIT)
    && forall t :: 0 <= t < |s.pcs| ==> LatePc(s.pcs[t])
  }

  ghost predicate LatePc(pc: Pc) {
    match pc
    case Load(_) => true
    case Test(_, x) => x < WORD_LIMIT
    case StoreLo(_) => true
    case StoreLeader(_) => true
    case Publish(_) => true
    case LoadLeader(_) => false
    case Lower(_, _) => false
    case Done(_, added) => added
  }

  lemma LateStep(c: Round, s: State, t: nat, weak: bool)
    requires c.Sized() && c.round >= ROUND_LIMIT && LateInv(c, s) && t < |s.pcs|
    ensures LateInv(c, Step(c, s, t, weak))
  {
    WordFields(c.round, Tag(c.digests[t]));
    RoundStampReadsBack(c.round, Tag(c.digests[t]));
    assert s.slots[c.At(t, s.pcs[t].k)].hi < WORD_LIMIT && LatePc(s.pcs[t]);
  }

  lemma {:induction false} LateRun(c: Round, s: State, schedule: seq<(nat, bool)>)
    requires c.Sized() && c.round >= ROUND_LIMIT && LateInv(c, s) && IsSchedule(c, schedule)
    ensures LateInv(c, Run(c, s, schedule))
    decreases |schedule|
  {
    if schedule != [] {
      LateStep(c, s, schedule[0].0, schedule[0].1);
      LateRun(c, Step(c, s, schedule[0].0, schedule[0].1), schedule[1..]);
    }
  }

  lemma {:induction false} AllBelow(a: set<nat>, n: nat)
    requires forall t: nat :: t in a <==> t < n
    ensures |a| == n
  {
    if n > 0 {
      AllBelow(a - {n - 1}, n - 1);
    }
  }

  /** From round 2^15 on every insert that finishes returns true, so a finished round
      counts the candidates and not their digests. */
  lemma LateRoundsCountAll(c: Round, s: State, schedule: seq<(nat, bool)>)
    requires c.Sized() && c.round >= ROUND_LIMIT && IsSchedule(c, schedule) && Shaped(c, s)
    requires forall t :: 0 <= t < |s.pcs| ==> s.pcs[t] == Load(0)
    requires forall i :: 0 <= i < |s.slots| ==> s.slots[i].hi < WORD_LIMIT
    ensures var s' := Run(c, s, schedule);
            && (forall t :: 0 <= t < |s'.pcs| && s'.pcs[t].Done? ==> s'.pcs[t].added)
            && (Finished(s') ==> |Added(s')| == |c.digests|)
  {
    LateRun(c, s, schedule);
    var s' := Run(c, s, schedule);
    assert forall t :: 0 <= t < |s'.pcs| ==> LatePc(s'.pcs[t]);
    if Finished(s') {
      AllBelow(Added(s'), |c.digests|);
    }
  }

  /** What count_num_classes returns in a round of the given number. */
  function Counted<D(==)>(digests: seq<D>, round: nat): nat {
    if round < ROUND_LIMIT then NumClasses(digests) else |digests|
  }

  /** However the inserts of a round interleave, early or late, that many return true. */
  lemma RoundCounts(c: Round, s: State, schedule: seq<(nat, bool)>)
    requires c.Sized() && 0 < c.round && Init(c, s) && IsSchedule(c, schedule)
    requires forall i :: 0 <= i < |s.slots| ==> s.slots[i].hi < WORD_LIMIT
    requires Finished(Run(c, s, schedule))
    ensures |Added(Run(c, s, schedule))| == Counted(c.digests, c.round)
  {
    if c.round < ROUND_LIMIT {
      RoundCountsAndElects(c, s, schedule);
    } else {
      LateRoundsCountAll(c, s, schedule);
    }
  }
}
