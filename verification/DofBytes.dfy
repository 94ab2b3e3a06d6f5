/** Little-endian numbers and NUL-terminated strings, as a DOF holds them (dtrace.rs). */
module DofBytes {
  type byte = x: nat | x < 256

  function Pow256(n: nat): nat { if n == 0 then 1 else 256 * Pow256(n - 1) }

  /** The n low bytes of x: a cast to an n-byte integer, least significant first. */
  function Le(x: nat, n: nat): (r: seq<byte>)
    ensures |r| == n
  {
    if n == 0 then [] else [x % 256] + Le(x / 256, n - 1)
  }

  function Num(bs: seq<byte>): nat { if bs == [] then 0 else bs[0] + 256 * Num(bs[1..]) }

  /** A number survives exactly if it fits. */
  lemma {:induction false} LeNum(x: nat, n: nat)
    ensures Num(Le(x, n)) == x <==> x < Pow256(n)
    ensures Num(Le(x, n)) < Pow256(n)
  {
    if n > 0 {
      LeNum(x / 256, n - 1);
      assert Le(x, n)[1..] == Le(x / 256, n - 1);
      NumSplit(x, Num(Le(x / 256, n - 1)), Pow256(n - 1));
    }
  }

  lemma NumSplit(x: nat, high: nat, p: nat)
    requires (high == x / 256 <==> x / 256 < p) && high < p
    ensures x % 256 + 256 * high == x <==> x < 256 * p
    ensures x % 256 + 256 * high < 256 * p
  {
  }

  /** A field after the bytes before it. */
  lemma FieldAt(p: seq<byte>, x: seq<byte>, b: seq<byte>)
    requires p + x <= b
    ensures p <= b && |p| + |x| <= |b| && b[|p|..|p| + |x|] == x
  {
    assert b[..|p| + |x|] == p + x;
    assert b[|p|..|p| + |x|] == b[..|p| + |x|][|p|..];
  }

  // ---- Strings ----

  predicate NulFree(s: seq<byte>) { forall i :: 0 <= i < |s| ==> s[i] != 0 }

  /** What a string table can hold in a row: not empty, as an empty string is not
      added. */
  predicate Storable(s: seq<byte>) { s != [] && NulFree(s) }

  /** The string at an offset: up to the next NUL. */
  function ReadStr(tab: seq<byte>, off: nat): seq<byte>
    decreases |tab| - off
  {
    if off >= |tab| || tab[off] == 0 then [] else [tab[off]] + ReadStr(tab, off + 1)
  }

  /** n strings, one after another. */
  function ReadStrs(tab: seq<byte>, off: nat, n: nat): seq<seq<byte>>
    decreases n
  {
    if n == 0 then [] else [ReadStr(tab, off)] + ReadStrs(tab, off + |ReadStr(tab, off)| + 1, n - 1)
  }

  /** The table holds these bytes at the offset. */
  predicate HoldsAt(tab: seq<byte>, off: nat, bytes: seq<byte>) {
    off + |bytes| <= |tab| && tab[off..off + |bytes|] == bytes
  }

  /** What adding the strings in a row adds: an empty one, nothing. */
  function Packed(ss: seq<seq<byte>>): seq<byte> {
    if ss == [] then [] else Stored(ss[0]) + Packed(ss[1..])
  }

  function Stored(s: seq<byte>): seq<byte> { if s == [] then [] else s + [0] }

  lemma {:induction false} ReadBack(tab: seq<byte>, off: nat, s: seq<byte>)
    requires HoldsAt(tab, off, s + [0]) && NulFree(s)
    ensures ReadStr(tab, off) == s
    decreases |s|
  {
    assert tab[off] == (s + [0])[0];
    if s != [] {
      assert tab[off + 1..off + |s| + 1] == s[1..] + [0] by {
        assert tab[off..off + |s| + 1][1..] == (s + [0])[1..];
      }
      ReadBack(tab, off + 1, s[1..]);
    }
  }

  lemma {:induction false} PackedJoin(a: seq<seq<byte>>, b: seq<seq<byte>>)
    ensures Packed(a + b) == Packed(a) + Packed(b)
  {
    if a == [] {
      assert a + b == b;
    } else {
      JoinTail(a, b);
      PackedJoin(a[1..], b);
      Bracket(Stored(a[0]), Packed(a[1..]), Packed(b));
    }
  }

  lemma PackedOne(s: seq<byte>)
    ensures Packed([s]) == Stored(s)
  {
    assert [s][1..] == [];
  }

  lemma PackedPush(ss: seq<seq<byte>>, s: seq<byte>)
    ensures Packed(ss + [s]) == Packed(ss) + Stored(s)
  {
    PackedJoin(ss, [s]);
    PackedOne(s);
  }

  lemma JoinTail<T>(a: seq<T>, b: seq<T>)
    requires a != []
    ensures a + b != [] && (a + b)[0] == a[0] && (a + b)[1..] == a[1..] + b
  {
  }

  lemma Bracket<T>(a: seq<T>, b: seq<T>, c: seq<T>)
    ensures a + b + c == a + (b + c)
  {
  }

  predicate AllStorable(ss: seq<seq<byte>>) { forall i :: 0 <= i < |ss| ==> Storable(ss[i]) }

  lemma {:induction false} ReadBackAll(tab: seq<byte>, off: nat, ss: seq<seq<byte>>)
    requires HoldsAt(tab, off, Packed(ss)) && AllStorable(ss)
    ensures ReadStrs(tab, off, |ss|) == ss
    decreases |ss|
  {
    if ss != [] {
      FirstOfAll(tab, off, ss);
      ReadBackAll(tab, off + |ss[0]| + 1, ss[1..]);
      StrsJoin(tab, off, ss);
    }
  }

  lemma FirstOfAll(tab: seq<byte>, off: nat, ss: seq<seq<byte>>)
    requires ss != [] && HoldsAt(tab, off, Packed(ss)) && AllStorable(ss)
    ensures ReadStr(tab, off) == ss[0] && HoldsAt(tab, off + |ss[0]| + 1, Packed(ss[1..])) && AllStorable(ss[1..])
  {
    PackedHead(ss);
    FirstReads(tab, off, ss[0], Packed(ss[1..]));
  }

  lemma StrsJoin(tab: seq<byte>, off: nat, ss: seq<seq<byte>>)
    requires ss != [] && ReadStr(tab, off) == ss[0] && ReadStrs(tab, off + |ss[0]| + 1, |ss[1..]|) == ss[1..]
    ensures ReadStrs(tab, off, |ss|) == ss
  {
    HeadAndTail(ss);
  }

  lemma HeadAndTail<T>(ss: seq<T>)
    requires ss != []
    ensures ss == [ss[0]] + ss[1..]
  {
  }

  lemma PackedHead(ss: seq<seq<byte>>)
    requires ss != [] && AllStorable(ss)
    ensures Packed(ss) == ss[0] + [0] + Packed(ss[1..]) && NulFree(ss[0]) && AllStorable(ss[1..])
  {
    assert Storable(ss[0]);
  }

  lemma FirstReads(tab: seq<byte>, off: nat, s: seq<byte>, rest: seq<byte>)
    requires HoldsAt(tab, off, s + [0] + rest) && NulFree(s)
    ensures ReadStr(tab, off) == s && HoldsAt(tab, off + |s| + 1, rest)
  {
    HoldsParts(tab, off, s + [0], rest);
    ReadBack(tab, off, s);
  }

  lemma HoldsParts(tab: seq<byte>, off: nat, a: seq<byte>, b: seq<byte>)
    requires HoldsAt(tab, off, a + b)
    ensures HoldsAt(tab, off, a) && HoldsAt(tab, off + |a|, b)
  {
    assert tab[off..off + |a|] == (a + b)[..|a|];
    assert tab[off + |a|..off + |a| + |b|] == (a + b)[|a|..];
  }

  lemma HoldsStill(tab: seq<byte>, tab': seq<byte>, off: nat, bytes: seq<byte>)
    requires HoldsAt(tab, off, bytes) && tab <= tab'
    ensures HoldsAt(tab', off, bytes)
  {
    assert tab'[off..off + |bytes|] == tab[off..off + |bytes|];
  }

  /** StringTable::add: an empty string is not added, and is at 0. */
  function Added(tab: seq<byte>, s: seq<byte>): seq<byte> { if s == [] then tab else tab + s + [0] }

  function AddedAt(tab: seq<byte>, s: seq<byte>): nat { if s == [] then 0 else |tab| }

  /** In a table that starts with a NUL, every string is where it was added. */
  lemma AddedIsThere(tab: seq<byte>, s: seq<byte>)
    requires HoldsAt(tab, 0, [0])
    ensures HoldsAt(Added(tab, s), AddedAt(tab, s), s + [0]) && HoldsAt(Added(tab, s), 0, [0]) && tab <= Added(tab, s)
  {
    if s == [] {
      assert s + [0] == [0];
    } else {
      assert tab + s + [0] == tab + (s + [0]);
      HoldsStill(tab, Added(tab, s), 0, [0]);
    }
  }

  /** Strings added one after another lie packed. */
  lemma AddedPacked(tab: seq<byte>, ss: seq<seq<byte>>, s: seq<byte>)
    ensures Added(tab + Packed(ss), s) == tab + Packed(ss + [s])
  {
    PackedPush(ss, s);
    Bracket(tab, Packed(ss), Stored(s));
    assert Added(tab + Packed(ss), s) == tab + Packed(ss) + Stored(s);
  }

  // ---- Exactly which strings read back ----

  predicate AllNulFree(ss: seq<seq<byte>>) { forall i :: 0 <= i < |ss| ==> NulFree(ss[i]) }

  lemma {:induction false} ReadStrNulFree(tab: seq<byte>, off: nat)
    ensures NulFree(ReadStr(tab, off))
    decreases |tab| - off
  {
    if off < |tab| && tab[off] != 0 {
      ReadStrNulFree(tab, off + 1);
    }
  }

  lemma {:induction false} ReadStrsNulFree(tab: seq<byte>, off: nat, n: nat)
    ensures |ReadStrs(tab, off, n)| == n && AllNulFree(ReadStrs(tab, off, n))
    decreases n
  {
    if n > 0 {
      ReadStrNulFree(tab, off);
      ReadStrsNulFree(tab, off + |ReadStr(tab, off)| + 1, n - 1);
    }
  }

  predicate EndsNonEmpty(ss: seq<seq<byte>>) { ss != [] && AllNulFree(ss) && ss[|ss| - 1] != [] }

  /** Strings of which the last is not empty start with some string's first byte. */
  lemma {:induction false} PackedStarts(ss: seq<seq<byte>>)
    requires EndsNonEmpty(ss)
    ensures Packed(ss) != [] && Packed(ss)[0] != 0
  {
    if ss[0] == [] {
      PackedStarts(ss[1..]);
    }
  }

  /** Reading in a row from the offset gives these strings. */
  predicate Spells(tab: seq<byte>, off: nat, ss: seq<seq<byte>>)
    decreases |ss|
  {
    ss == [] || (ReadStr(tab, off) == ss[0] && Spells(tab, off + |ss[0]| + 1, ss[1..]))
  }

  lemma {:induction false} ReadsSpell(tab: seq<byte>, off: nat, ss: seq<seq<byte>>)
    requires ReadStrs(tab, off, |ss|) == ss
    ensures Spells(tab, off, ss)
    decreases |ss|
  {
    if ss != [] {
      RestRead(tab, off, ss);
      ReadsSpell(tab, off + |ss[0]| + 1, ss[1..]);
    }
  }

  lemma RestRead(tab: seq<byte>, off: nat, ss: seq<seq<byte>>)
    requires ss != [] && ReadStrs(tab, off, |ss|) == ss
    ensures ReadStr(tab, off) == ss[0] && ReadStrs(tab, off + |ss[0]| + 1, |ss| - 1) == ss[1..]
  {
    var rest := ReadStrs(tab, off + |ReadStr(tab, off)| + 1, |ss| - 1);
    assert ss == [ReadStr(tab, off)] + rest;
  }

  /** From each string on, what is packed starts with a string's byte. */
  predicate AllStart(all: seq<seq<byte>>) {
    all == [] || (Packed(all) != [] && Packed(all)[0] != 0 && AllStart(all[1..]))
  }

  lemma {:induction false} EndsStarts(all: seq<seq<byte>>)
    requires EndsNonEmpty(all)
    ensures AllStart(all)
  {
    PackedStarts(all);
    if |all| > 1 {
      EndsStarts(all[1..]);
    }
  }

  /** Then what is read first is not empty. */
  lemma FirstIsNotEmpty(tab: seq<byte>, off: nat, bytes: seq<byte>)
    requires HoldsAt(tab, off, bytes) && bytes != [] && bytes[0] != 0
    ensures ReadStr(tab, off) != []
  {
    assert tab[off] == tab[off..off + |bytes|][0];
  }

  lemma FirstHeld(tab: seq<byte>, off: nat, all: seq<seq<byte>>)
    requires all != [] && all[0] != [] && ReadStr(tab, off) == all[0] && HoldsAt(tab, off, Packed(all))
    ensures HoldsAt(tab, off + |all[0]| + 1, Packed(all[1..]))
  {
    ReadStrNulFree(tab, off);
    FirstReads(tab, off, all[0], Packed(all[1..]));
  }

  /** So of strings that others follow, only such read back of which none is empty: in
      place of an empty one the next is read. */
  lemma {:induction false} NoneEmpty(tab: seq<byte>, off: nat, ss: seq<seq<byte>>, all: seq<seq<byte>>, i: nat)
    requires i < |ss| && ss <= all && IsRead(tab, off, all) && Spells(tab, off, ss)
    ensures ss[i] != []
    decreases i
  {
    FirstIsNotEmpty(tab, off, Packed(all));
    if i > 0 {
      var next, rest := Advance(tab, off, ss, all);
      NoneEmpty(tab, next, rest, all[1..], i - 1);
    }
  }

  /** The table holds the strings from the offset on. */
  predicate IsRead(tab: seq<byte>, off: nat, all: seq<seq<byte>>) { HoldsAt(tab, off, Packed(all)) && AllStart(all) }

  lemma Advance(tab: seq<byte>, off: nat, ss: seq<seq<byte>>, all: seq<seq<byte>>)
    returns (next: nat, rest: seq<seq<byte>>)
    requires ss != [] && ss[0] != [] && ss <= all && IsRead(tab, off, all) && Spells(tab, off, ss)
    ensures rest == ss[1..] && rest <= all[1..] && IsRead(tab, next, all[1..]) && Spells(tab, next, rest)
  {
    PrefixRest(ss, all);
    SpellsRest(tab, off, ss, all[0]);
    FirstHeld(tab, off, all);
    StartsRest(all);
    next, rest := off + |all[0]| + 1, ss[1..];
  }

  lemma SpellsRest(tab: seq<byte>, off: nat, ss: seq<seq<byte>>, first: seq<byte>)
    requires ss != [] && Spells(tab, off, ss) && first == ss[0]
    ensures ReadStr(tab, off) == first && Spells(tab, off + |first| + 1, ss[1..])
  {
  }

  lemma StartsRest(all: seq<seq<byte>>)
    requires all != [] && AllStart(all)
    ensures AllStart(all[1..])
  {
  }

  lemma PrefixRest<T>(s: seq<T>, all: seq<T>)
    requires s <= all && s != []
    ensures s[0] == all[0] && s[1..] <= all[1..]
  {
  }

  lemma OnlyStorableReadBack(tab: seq<byte>, off: nat, ss: seq<seq<byte>>, after: seq<seq<byte>>)
    requires HoldsAt(tab, off, Packed(ss + after)) && EndsNonEmpty(after) && ReadStrs(tab, off, |ss|) == ss
    ensures AllStorable(ss)
  {
    ReadStrsNulFree(tab, off, |ss|);
    ReadsSpell(tab, off, ss);
    BothNulFree(ss, after);
    EndsStarts(ss + after);
    forall i: nat | i < |ss| ensures Storable(ss[i]) {
      NoneEmpty(tab, off, ss, ss + after, i);
    }
  }

  lemma BothNulFree(ss: seq<seq<byte>>, after: seq<seq<byte>>)
    requires AllNulFree(ss) && EndsNonEmpty(after)
    ensures EndsNonEmpty(ss + after)
  {
  }

  /** So strings read back exactly if none is empty or has a NUL in it. */
  lemma ReadBackIffStorable(tab: seq<byte>, off: nat, ss: seq<seq<byte>>, after: seq<seq<byte>>)
    requires HoldsAt(tab, off, Packed(ss + after)) && EndsNonEmpty(after)
    ensures ReadStrs(tab, off, |ss|) == ss <==> AllStorable(ss)
  {
    if ReadStrs(tab, off, |ss|) == ss {
      OnlyStorableReadBack(tab, off, ss, after);
    }
    if AllStorable(ss) {
      PackedJoin(ss, after);
      HoldsParts(tab, off, Packed(ss), Packed(after));
      ReadBackAll(tab, off, ss);
    }
  }
}
