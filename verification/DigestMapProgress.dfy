/** Every round of the digest table ends: an insert either changes the state,
    which lowers a rank, or waits for a busy slot whose owner can move. */
module DigestMapProgress {
  import opened Arith
  import opened DigestMap

  function Weight(c: Round, k: nat): nat {
    if k < c.len then (|c.digests| + 10) * (c.len - k) else 0
  }

  function Rank(c: Round, pc: Pc): nat {
    match pc
    case Load(k) => Weight(c, k) + 8
    case Test(k, x) => Weight(c, k) + (if RoundOf(x) != c.round then 7 else if IsBusy(x) then 6 else 5)
    case StoreLo(_) => 4
    case StoreLeader(_) => 3
    case Publish(_) => 2
    case LoadLeader(_) => |c.digests| + 2
    case Lower(_, cur) => cur + 1
    case Done(_, _) => 0
  }

  function Total(c: Round, pcs: seq<Pc>): nat {
    if pcs == [] then 0 else Rank(c, pcs[0]) + Total(c, pcs[1..])
  }

  lemma {:induction false} TotalUpdate(c: Round, pcs: seq<Pc>, t: nat, pc: Pc)
    requires t < |pcs|
    ensures Total(c, pcs[t := pc]) == Total(c, pcs) - Rank(c, pcs[t]) + Rank(c, pc)
  {
    if t == 0 {
      assert pcs[t := pc][1..] == pcs[1..];
    } else {
      assert pcs[t := pc][1..] == pcs[1..][t - 1 := pc];
      TotalUpdate(c, pcs[1..], t - 1, pc);
    }
  }

  lemma WeightStep(c: Round, k: nat)
    requires k + 1 < c.len
    ensures Weight(c, k) == Weight(c, k + 1) + |c.digests| + 10
  {
    Distribute(|c.digests| + 10, c.len - k - 1, 1);
  }

  lemma WeightLow(c: Round, k: nat)
    requires k < c.len
    ensures Weight(c, k) >= |c.digests| + 10
  {
    MulGrows(|c.digests| + 10, c.len - k);
  }

  ghost predicate Lowers(c: Round, s: State, t: nat, s': State)
    requires t < |s.pcs|
  {
    s' == s || (|s'.pcs| == |s.pcs| && s'.pcs == s.pcs[t := s'.pcs[t]] && Rank(c, s'.pcs[t]) < Rank(c, s.pcs[t]))
  }

  /** The three fields are the whole word. */
  lemma SameWord(x: nat, y: nat)
    requires RoundOf(x) == RoundOf(y) && IsBusy(x) == IsBusy(y) && TagOf(x) == TagOf(y)
    ensures x == y
  {
    assert x / TAG_LIMIT == 2 * RoundOf(x) + (if IsBusy(x) then 1 else 0);
    assert y / TAG_LIMIT == 2 * RoundOf(y) + (if IsBusy(y) then 1 else 0);
  }

  /** A waiting insert reloads the same word, or sees it published. */
  lemma SpinRank(c: Round, s: State, t: nat, weak: bool)
    requires Inv(c, s) && t < |s.pcs| && s.pcs[t].Test?
    requires RoundOf(s.pcs[t].x) == c.round && TagOf(s.pcs[t].x) == Tag(c.digests[t]) && IsBusy(s.pcs[t].x)
    ensures Lowers(c, s, t, Step(c, s, t, weak))
  {
    SpinSeesTag(c, s, t, weak);
    var x := Step(c, s, t, weak).pcs[t].x;
    if IsBusy(x) {
      SameWord(s.pcs[t].x, x);
    }
  }

  /** A thread that has found a slot vacant claims it, or finds it claimed since. */
  lemma VacantRank(c: Round, s: State, t: nat, weak: bool)
    requires Inv(c, s) && t < |s.pcs| && s.pcs[t].Test? && RoundOf(s.pcs[t].x) != c.round
    ensures Lowers(c, s, t, Step(c, s, t, weak))
  {
    var i := c.At(t, s.pcs[t].k);
    assert PathOk(c, s, t) && ThreadOk(c, s, t);
    WeightLow(c, s.pcs[t].k);
    if i in s.owner {
      StampedIfOwned(c, s, i);
    }
  }

  lemma StampedIfOwned(c: Round, s: State, i: nat)
    requires Inv(c, s) && i < c.len && i in s.owner
    ensures RoundOf(s.slots[i].hi) == c.round
  {
    assert SlotOk(c, s, i);
    StampFields(c, Tag(c.digests[s.owner[i]]));
  }

  /** A thread that goes on to the next slot: its path is longer. */
  lemma MoveRank(c: Round, s: State, t: nat, weak: bool)
    requires Inv(c, s) && t < |s.pcs| && s.pcs[t].Test? && RoundOf(s.pcs[t].x) == c.round
    requires !(TagOf(s.pcs[t].x) == Tag(c.digests[t]) && IsBusy(s.pcs[t].x))
    ensures Lowers(c, s, t, Step(c, s, t, weak))
  {
    var k := s.pcs[t].k;
    assert PathOk(c, s, t) && ThreadOk(c, s, t);
    WeightLow(c, k);
    StepInv(c, s, t, weak);
    if Step(c, s, t, weak).pcs[t].Load? {
      assert PathOk(c, Step(c, s, t, weak), t);
      WeightStep(c, k);
    }
  }

  lemma TestRank(c: Round, s: State, t: nat, weak: bool)
    requires Inv(c, s) && t < |s.pcs| && s.pcs[t].Test?
    ensures Lowers(c, s, t, Step(c, s, t, weak))
  {
    var x := s.pcs[t].x;
    if RoundOf(x) != c.round {
      VacantRank(c, s, t, weak);
    } else if TagOf(x) == Tag(c.digests[t]) && IsBusy(x) {
      SpinRank(c, s, t, weak);
    } else {
      MoveRank(c, s, t, weak);
    }
  }

  lemma PcRank(c: Round, s: State, t: nat, weak: bool)
    requires Inv(c, s) && t < |s.pcs|
    ensures Lowers(c, s, t, Step(c, s, t, weak))
  {
    if s.pcs[t].Test? {
      TestRank(c, s, t, weak);
    } else {
      var i := c.At(t, s.pcs[t].k);
      assert ThreadOk(c, s, t) && SlotOk(c, s, i) && PathOk(c, s, t);
      if i in s.owner {
        StampFields(c, Tag(c.digests[s.owner[i]]));
      }
    }
  }

  /** No step raises the rank, and one that changes anything lowers it. */
  lemma StepLowersRank(c: Round, s: State, t: nat, weak: bool)
    requires Inv(c, s) && t < |s.pcs|
    ensures var s' := Step(c, s, t, weak); s' == s || Total(c, s'.pcs) < Total(c, s.pcs)
  {
    PcRank(c, s, t, weak);
    var s' := Step(c, s, t, weak);
    if s' != s {
      TotalUpdate(c, s.pcs, t, s'.pcs[t]);
    }
  }

  /** How many steps of a schedule change the state; the others are spins and
      spurious failures. */
  function ChangingSteps(c: Round, s: State, schedule: seq<(nat, bool)>): nat
    requires c.Valid() && Shaped(c, s)
    requires forall e :: e in schedule ==> e.0 < |c.digests|
    decreases |schedule|
  {
    if schedule == [] then 0 else
      var s' := Step(c, s, schedule[0].0, schedule[0].1);
      (if s' == s then 0 else 1) + ChangingSteps(c, s', schedule[1..])
  }

  /** Whatever the schedule, only boundedly many of its steps do anything. */
  lemma {:induction false} SchedulesAreBounded(c: Round, s: State, schedule: seq<(nat, bool)>)
    requires Inv(c, s) && IsSchedule(c, schedule)
    ensures ChangingSteps(c, s, schedule) + Total(c, Run(c, s, schedule).pcs) <= Total(c, s.pcs)
    decreases |schedule|
  {
    if schedule != [] {
      var (t, weak) := schedule[0];
      StepInv(c, s, t, weak);
      StepLowersRank(c, s, t, weak);
      SchedulesAreBounded(c, Step(c, s, t, weak), schedule[1..]);
    }
  }

  /** Some insert can always move: one waits only on a busy slot, and the insert
      that made it busy has a store to do. */
  lemma NeverStuck(c: Round, s: State) returns (t: nat)
    requires Inv(c, s) && !Finished(s)
    ensures t < |s.pcs| && Step(c, s, t, false) != s
  {
    t :| t < |s.pcs| && !s.pcs[t].Done?;
    var i := c.At(t, s.pcs[t].k);
    assert ThreadOk(c, s, t) && SlotOk(c, s, i);
    if Step(c, s, t, false) == s {
      assert Step(c, s, t, false).pcs[t] == s.pcs[t];
      t := s.owner[i];
      assert IsBusy(s.slots[i].hi);
      StampFields(c, Tag(c.digests[t]));
      assert Step(c, s, t, false).pcs[t] != s.pcs[t];
    } else {
    }
  }

  /** So from any reachable state the round can be driven to its end. */
  lemma {:induction false} RoundFinishes(c: Round, s: State) returns (schedule: seq<(nat, bool)>)
    requires Inv(c, s)
    ensures IsSchedule(c, schedule) && Finished(Run(c, s, schedule))
    decreases Total(c, s.pcs)
  {
    schedule := [];
    if !Finished(s) {
      var t := NeverStuck(c, s);
      StepInv(c, s, t, false);
      StepLowersRank(c, s, t, false);
      var rest := RoundFinishes(c, Step(c, s, t, false));
      schedule := [(t, false)] + rest;
      assert schedule[1..] == rest;
    }
  }
}
