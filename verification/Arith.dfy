/** Division facts with a variable divisor, which the solver needs spelled out. */
module Arith {
  lemma Distribute(a: int, b: int, c: int)
    ensures a * (b + c) == a * b + a * c
  {
  }

  lemma MulGrows(len: int, m: int)
    requires 0 < len && 1 <= m
    ensures len * m >= len
  {
    Distribute(len, 1, m - 1);
    assert len * (m - 1) >= 0;
  }

  lemma MultipleIsFar(len: int, m: int)
    requires 0 < len && m != 0
    ensures len * m >= len || len * m <= -len
  {
    if m > 0 {
      MulGrows(len, m);
    } else {
      MulGrows(len, -m);
      Distribute(len, m, -m);
    }
  }

  lemma ModIs(a: nat, len: nat, q: int, r: nat)
    requires r < len && a == len * q + r
    ensures a % len == r && a / len == q
  {
    var m := q - a / len;
    assert len * m == len * q - len * (a / len);
    assert a == len * (a / len) + a % len;
    if m != 0 {
      MultipleIsFar(len, m);
    }
  }

  lemma ModStep(a: nat, len: nat)
    requires 0 < len
    ensures (a + 1) % len == (a % len + 1) % len
  {
    var q, r := a / len, a % len;
    assert a == len * q + r;
    if r + 1 < len {
      ModIs(a + 1, len, q, r + 1);
      ModIs(r + 1, len, 0, r + 1);
    } else {
      assert len * q + len == len * (q + 1);
      ModIs(a + 1, len, q + 1, 0);
      ModIs(len, len, 1, 0);
    }
  }

  lemma ModDistinct(a: nat, j: nat, k: nat, len: nat)
    requires j < k < len
    ensures (a + j) % len != (a + k) % len
  {
    var x, y := a + j, a + k;
    var m := y / len - x / len;
    assert len * m == len * (y / len) - len * (x / len);
    assert x == len * (x / len) + x % len && y == len * (y / len) + y % len;
    if m != 0 {
      MultipleIsFar(len, m);
    }
  }
}
