/** Bitwise operators on natural numbers, as the assembler uses them on words:
    `|` merges instruction fields, `&` masks them.  Shifts are written as
    multiplication and division by powers of two. */
module Bits {

  function Pow2(n: nat): (p: nat)
    ensures p > 0
  {
    if n == 0 then 1 else 2 * Pow2(n - 1)
  }

  lemma Pow2Values()
    ensures Pow2(6) == 0x40 && Pow2(11) == 0x800 && Pow2(16) == 0x1_0000
    ensures Pow2(21) == 0x20_0000 && Pow2(26) == 0x400_0000 && Pow2(32) == 0x1_0000_0000
  {
    assert Pow2(3) == 8;
    assert Pow2(6) == 0x40;
    assert Pow2(9) == 0x200;
    assert Pow2(11) == 0x800;
    assert Pow2(14) == 0x4000;
    assert Pow2(16) == 0x1_0000;
    assert Pow2(19) == 0x8_0000;
    assert Pow2(21) == 0x20_0000;
    assert Pow2(24) == 0x100_0000;
    assert Pow2(26) == 0x400_0000;
    assert Pow2(29) == 0x2000_0000;
  }

  function BitOr(a: nat, b: nat): (r: nat)
    decreases a + b
  {
    if a == 0 then b
    else if b == 0 then a
    else 2 * BitOr(a / 2, b / 2) + (if a % 2 == 1 || b % 2 == 1 then 1 else 0)
  }

  function BitAnd(a: nat, b: nat): (r: nat)
    ensures r <= a && r <= b
    decreases a + b
  {
    if a == 0 || b == 0 then 0
    else 2 * BitAnd(a / 2, b / 2) + (if a % 2 == 1 && b % 2 == 1 then 1 else 0)
  }

  /** Or-ing a field into bits that are all zero is addition. */
  lemma {:induction false} OrDisjoint(a: nat, b: nat, k: nat)
    requires b < Pow2(k)
    ensures BitOr(a * Pow2(k), b) == a * Pow2(k) + b
  {
    if k == 0 {
      assert b == 0 && a * Pow2(k) == a;
    } else {
      var x := a * Pow2(k - 1);
      assert a * Pow2(k) == 2 * x;
      OrDisjoint(a, b / 2, k - 1);
      if x != 0 && b != 0 {
        assert BitOr(2 * x, b) == 2 * BitOr(x, b / 2) + b % 2;
      }
    }
  }

  lemma {:induction false} OrBound(a: nat, b: nat, k: nat)
    requires a < Pow2(k) && b < Pow2(k)
    ensures BitOr(a, b) < Pow2(k)
  {
    if k > 0 && a != 0 && b != 0 {
      OrBound(a / 2, b / 2, k - 1);
    }
  }

  /** Masking with k one bits is the remainder modulo 2^k. */
  lemma {:induction false} AndMask(a: nat, k: nat)
    ensures BitAnd(a, Pow2(k) - 1) == a % Pow2(k)
  {
    if k > 0 {
      AndMask(a / 2, k - 1);
      var p := Pow2(k - 1);
      assert Pow2(k) == 2 * p;
      AndMaskDouble(a, p);
    }
  }

  lemma AndMaskDouble(a: nat, p: nat)
    requires p > 0 && BitAnd(a / 2, p - 1) == a / 2 % p
    ensures BitAnd(a, 2 * p - 1) == a % (2 * p)
  {
    hide BitAnd;
    AndStep(a, 2 * p - 1);
    assert (2 * p - 1) / 2 == p - 1;
    ModDouble(a, p);
  }

  /** The lowest bit under an odd mask. */
  lemma AndStep(a: nat, b: nat)
    requires b % 2 == 1
    ensures BitAnd(a, b) == 2 * BitAnd(a / 2, b / 2) + a % 2
  {
  }

  /** Splitting off the lowest bit commutes with a power-of-two remainder. */
  lemma ModDouble(a: nat, p: nat)
    requires p > 0
    ensures a % (2 * p) == 2 * (a / 2 % p) + a % 2
  {
    var q, r := a / 2 / p, a / 2 % p;
    assert a / 2 == q * p + r;
    assert a == (2 * p) * q + (2 * r + a % 2) by {
      assert a == 2 * (a / 2) + a % 2;
      assert 2 * (q * p) == (2 * p) * q;
    }
    DivModUnique(a, 2 * p, q, 2 * r + a % 2);
  }

  lemma MulAtLeast(d: int, k: int)
    requires d > 0 && k >= 1
    ensures d * k >= d
  {
    assert d * k == d * (k - 1) + d;
  }

  lemma DivModUnique(a: int, d: int, q: int, r: int)
    requires d > 0 && 0 <= r < d && a == d * q + r
    ensures a / d == q && a % d == r
  {
    var k := q - a / d;
    assert d * k == a % d - r by {
      assert d * k == d * q - d * (a / d);
    }
    if k >= 1 {
      MulAtLeast(d, k);
    } else if k <= -1 {
      MulAtLeast(d, -k);
    }
  }
}
