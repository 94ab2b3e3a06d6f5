/** Where input_sections.rs lets a subsection start, and what that means for a
    subsection that identical code folding replaces by another. Alignments are powers
    of two, remainders what a mask leaves. */
module Alignment {
  import Arith

  function Pow2(n: nat): (r: nat)
    ensures r > 0
  {
    if n == 0 then 1 else 2 * Pow2(n - 1)
  }

  /** The low p bits of n: n & (2^p - 1). */
  function Low(n: nat, p: nat): (r: nat)
    ensures r < Pow2(p) && r <= n
  {
    if p == 0 then 0 else n % 2 + 2 * Low(n / 2, p - 1)
  }

  /** n with its low p bits masked off. */
  function High(n: nat, p: nat): nat { n - Low(n, p) }

  function AlignTo(value: nat, p: nat): nat { High(value + Pow2(p) - 1, p) }

  function AlignToMod(val: nat, p: nat, modulus: nat): nat {
    if val <= modulus then modulus else AlignTo(val - modulus, p) + modulus
  }

  /** Of a subsection: its address in its object, its alignment, and whether it is made
      of fixed-size records. */
  datatype Place = Place(addr: nat, p2align: nat, record: bool) {
    /** Where the subsection wants to be modulo 2^p. */
    function Modulus(p: nat): nat { if record then 0 else Low(addr, p) }

    function AlignOffset(off: nat): nat {
      if record then AlignTo(off, p2align) else AlignToMod(off, p2align, Low(addr, p2align))
    }

    function P2AlignAt(at: nat): nat {
      var modulus := Low(at, p2align);
      if record || modulus == 0 then p2align else TrailingZeros(modulus)
    }
  }

  function TrailingZeros(n: nat): nat
    requires n > 0
  {
    if n % 2 == 1 then 0 else 1 + TrailingZeros(n / 2)
  }

  // ---- Masks ----

  /** The mask leaves the remainder by the power of two. */
  lemma {:induction false} LowIsRemainder(n: nat, p: nat)
    ensures Low(n, p) == n % Pow2(p)
  {
    if p > 0 {
      LowIsRemainder(n / 2, p - 1);
      Halved(n, Pow2(p - 1));
    }
  }

  lemma Halved(n: nat, k: nat)
    requires k > 0
    ensures n % (2 * k) == n % 2 + 2 * (n / 2 % k)
  {
    var q, r := n / 2 / k, n / 2 % k;
    assert n / 2 == k * q + r;
    assert k * q * 2 == (2 * k) * q;
    Arith.ModIs(n, 2 * k, q, n % 2 + 2 * r);
  }

  /** Masking with more bits first changes nothing. */
  lemma {:induction false} LowOfLow(n: nat, p: nat, k: nat)
    requires k <= p
    ensures Low(Low(n, p), k) == Low(n, k)
  {
    if k > 0 {
      LowOfLow(n / 2, p - 1, k - 1);
      assert Low(n, p) / 2 == Low(n / 2, p - 1) && Low(n, p) % 2 == n % 2;
    }
  }

  /** Two numbers with the same low bits are at least 2^p apart. */
  lemma {:induction false} SameLow(x: nat, y: nat, p: nat)
    requires Low(x, p) == Low(y, p) && x < y
    ensures x + Pow2(p) <= y
  {
    if p > 0 {
      SameLow(x / 2, y / 2, p - 1);
    }
  }

  lemma {:induction false} LowAdds(x: nat, m: nat, p: nat)
    requires Low(x, p) == 0 && m < Pow2(p)
    ensures Low(x + m, p) == m
  {
    if p > 0 {
      LowAdds(x / 2, m / 2, p - 1);
      assert (x + m) / 2 == x / 2 + m / 2 && (x + m) % 2 == m % 2;
    }
  }

  lemma {:induction false} MaskedOff(n: nat, p: nat)
    ensures Low(High(n, p), p) == 0
  {
    if p > 0 {
      MaskedOff(n / 2, p - 1);
      assert High(n, p) / 2 == High(n / 2, p - 1) && High(n, p) % 2 == 0;
    }
  }

  // ---- Placement ----

  lemma AlignToIsLeast(value: nat, p: nat)
    ensures Low(AlignTo(value, p), p) == 0 && value <= AlignTo(value, p) < value + Pow2(p)
  {
    MaskedOff(value + Pow2(p) - 1, p);
    HighIsNear(value + Pow2(p) - 1, p);
  }

  lemma HighIsNear(n: nat, p: nat)
    ensures n < High(n, p) + Pow2(p) && High(n, p) <= n
  {
  }

  /** A subsection starts at the first offset that has the remainder it wants. */
  lemma AlignOffsetIsLeast(s: Place, off: nat)
    ensures var x := s.AlignOffset(off);
            && off <= x && Low(x, s.p2align) == s.Modulus(s.p2align)
            && forall y: nat :: off <= y && Low(y, s.p2align) == s.Modulus(s.p2align) ==> x <= y
  {
    var p, x, m := s.p2align, s.AlignOffset(off), s.Modulus(s.p2align);
    if s.record || off > m {
      AlignToIsLeast(off - m, p);
      LowAdds(AlignTo(off - m, p), m, p);
    } else {
      LowOfLow(s.addr, p, p);
    }
    forall y: nat | off <= y && Low(y, p) == m ensures x <= y {
      if y < x {
        SameLow(y, x, p);
      }
    }
  }

  // ---- Alignment at an address ----

  lemma {:induction false} TrailingZerosCounts(n: nat, k: nat)
    requires n > 0
    ensures Low(n, k) == 0 <==> k <= TrailingZeros(n)
  {
    if k > 0 && n % 2 == 0 {
      TrailingZerosCounts(n / 2, k - 1);
    }
  }

  /** Outside record sections, the alignment of the part at `at` is the greatest power
      of two, up to the subsection's own, that divides the address; a record's is its
      own. */
  lemma P2AlignAtIsGreatest(s: Place, at: nat, k: nat)
    requires k <= s.p2align
    ensures s.P2AlignAt(at) <= s.p2align
    ensures !s.record ==> (at % Pow2(k) == 0 <==> k <= s.P2AlignAt(at))
    ensures s.record ==> s.P2AlignAt(at) == s.p2align
  {
    LowIsRemainder(at, k);
    var m := Low(at, s.p2align);
    LowOfLow(at, s.p2align, k);
    if m == 0 {
      NoLow(k);
    } else {
      TrailingZerosCounts(m, k);
      TrailingZerosCounts(m, s.p2align);
      LowOfLow(at, s.p2align, s.p2align);
    }
  }

  lemma {:induction false} NoLow(p: nat)
    ensures Low(0, p) == 0
  {
    if p > 0 {
      NoLow(p - 1);
    }
  }

  // ---- Folding ----

  /** The subsection with its alignment raised to that of its folded members. */
  function Raised(s: Place, p: nat): Place { s.(p2align := p) }

  /** An offset where the subsection may start. */
  predicate Suits(s: Place, off: nat) { Low(off, s.p2align) == s.Modulus(s.p2align) }

  /** The leader's alignment becomes the greatest of its class, and the leader is laid
      out for every folded reference. What it is laid out to suits a member exactly if
      their addresses agree modulo the member's alignment: raising the alignment alone
      does not make it so. */
  lemma RaisedLeaderSuits(leader: Place, member: Place, p: nat, off: nat)
    requires member.p2align <= p
    ensures Suits(member, Raised(leader, p).AlignOffset(off))
            <==> leader.Modulus(member.p2align) == member.Modulus(member.p2align)
  {
    AlignOffsetIsLeast(Raised(leader, p), off);
    var x := Raised(leader, p).AlignOffset(off);
    LowOfLow(x, p, member.p2align);
    if leader.record {
      NoLow(member.p2align);
    } else {
      LowOfLow(leader.addr, p, member.p2align);
    }
  }

  lemma LowOfEight()
    ensures Low(8, 4) == 8
  {
    assert Low(4, 3) == 4;
  }

  lemma LowOfSixteen()
    ensures Low(16, 4) == 0
  {
    assert Low(8, 3) == 0;
  }

  /** A class of two where it does not: the leader at 8 with alignment 8, the member at
      16 with alignment 16. The leader lands at 8 modulo 16. */
  lemma RaisedLeaderMisses(leader: Place, member: Place)
    requires leader == Place(8, 3, false) && member == Place(16, 4, false)
    ensures Raised(leader, 4).AlignOffset(0) == 8 && !Suits(member, 8)
  {
    LowOfEight();
    LowOfSixteen();
  }
}
