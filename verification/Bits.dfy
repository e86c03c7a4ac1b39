/** Bitwise operators on non-negative integers, bit by bit, and the two arithmetic
    readings the ID layout relies on. */
module Bits {
  function Pow2(k: nat): (p: nat)
    ensures p >= 1
  {
    if k == 0 then 1 else 2 * Pow2(k - 1)
  }

  lemma {:induction false} PowGrows(j: nat, k: nat)
    requires j <= k
    ensures Pow2(j) <= Pow2(k)
  {
    if j < k {
      PowGrows(j, k - 1);
    }
  }

  function ShiftLeft(x: nat, k: nat): nat {
    x * Pow2(k)
  }

  function Or(a: nat, b: nat): nat
    decreases a + b
  {
    if a == 0 then b
    else if b == 0 then a
    else (if a % 2 == 1 || b % 2 == 1 then 1 else 0) + 2 * Or(a / 2, b / 2)
  }

  function And(a: nat, b: nat): nat
    decreases a
  {
    if a == 0 || b == 0 then 0
    else (if a % 2 == 1 && b % 2 == 1 then 1 else 0) + 2 * And(a / 2, b / 2)
  }

  function Bit(x: nat, k: nat): bool {
    if k == 0 then x % 2 == 1 else Bit(x / 2, k - 1)
  }

  lemma {:induction false} ZeroBits(k: nat)
    ensures !Bit(0, k)
  {
    if k > 0 {
      ZeroBits(k - 1);
    }
  }

  /** Both operators act on every bit position by itself. */
  lemma {:induction false} BitsOf(a: nat, b: nat, k: nat)
    ensures Bit(Or(a, b), k) <==> Bit(a, k) || Bit(b, k)
    ensures Bit(And(a, b), k) <==> Bit(a, k) && Bit(b, k)
    decreases k
  {
    ZeroBits(k);
    if a > 0 && b > 0 {
      var or, and := Or(a / 2, b / 2), And(a / 2, b / 2);
      HalfAndRest(or, a % 2 == 1 || b % 2 == 1);
      HalfAndRest(and, a % 2 == 1 && b % 2 == 1);
      if k > 0 {
        BitsOf(a / 2, b / 2, k - 1);
      }
    }
  }

  lemma HalfAndRest(h: nat, odd: bool)
    ensures var x := (if odd then 1 else 0) + 2 * h; x / 2 == h && (x % 2 == 1 <==> odd)
  {
  }

  /** Bits of a shifted number and of a small one never meet, so OR adds them. */
  lemma {:induction false} OrIsSum(x: nat, y: nat, k: nat)
    requires y < Pow2(k)
    ensures Or(ShiftLeft(x, k), y) == ShiftLeft(x, k) + y
  {
    if k > 0 && x > 0 && y > 0 {
      var h := x * Pow2(k - 1);
      assert ShiftLeft(x, k) == 2 * h;
      OrIsSum(x, y / 2, k - 1);
      assert Or(h, y / 2) == h + y / 2;
      assert (2 * h) / 2 == h && (2 * h) % 2 == 0;
      assert h > 0;
    } else if x == 0 {
      assert ShiftLeft(x, k) == 0;
    }
  }

  /** Masking with m - 1, for m = 2^k, is the remainder modulo m. */
  lemma {:induction false} AndMaskIsMod(x: nat, k: nat, m: nat)
    requires m == Pow2(k)
    ensures And(x, m - 1) == x % m
    decreases k
  {
    if k == 0 {
      assert m == 1;
    } else if x == 0 {
      ModOfZero(m);
    } else {
      var h := Pow2(k - 1);
      AndMaskIsMod(x / 2, k - 1, h);
      AndOdd(x, h);
      ModDoubled(x, h);
      assert m == 2 * h;
    }
  }

  /** A masked increment counts up and starts over after the last value. */
  lemma MaskedSuccessor(s: nat, k: nat, m: nat)
    requires m == Pow2(k) && s < m
    ensures And(s + 1, m - 1) == if s + 1 < m then s + 1 else 0
  {
    AndMaskIsMod(s + 1, k, m);
    RemainderOf(s + 1, m, if s + 1 < m then 0 else 1, if s + 1 < m then s + 1 else 0);
  }

  lemma ModOfZero(m: nat)
    requires m >= 1
    ensures 0 % m == 0
  {
  }

  lemma AndOdd(x: nat, h: nat)
    requires x > 0 && h >= 1
    ensures And(x, 2 * h - 1) == x % 2 + 2 * And(x / 2, h - 1)
  {
    assert (2 * h - 1) / 2 == h - 1 && (2 * h - 1) % 2 == 1;
  }

  lemma ModDoubled(x: nat, m: nat)
    requires m >= 1
    ensures x % (2 * m) == x % 2 + 2 * ((x / 2) % m)
  {
    var q, r := (x / 2) / m, (x / 2) % m;
    assert x == 2 * m * q + (2 * r + x % 2) by {
      assert x / 2 == m * q + r;
    }
    RemainderOf(x, 2 * m, q, 2 * r + x % 2);
  }

  lemma MulBound(m: int, d: int)
    requires m >= 1
    ensures d >= 1 ==> m * d >= m
    ensures d <= -1 ==> m * d <= -m
  {
  }

  /** The quotient and remainder of a division are unique. */
  lemma RemainderOf(x: int, m: int, q: int, r: int)
    requires m >= 1 && x == m * q + r && 0 <= r < m
    ensures x / m == q && x % m == r
  {
    var d := x / m - q;
    assert m * d == m * (x / m) - m * q;
    assert x == m * (x / m) + x % m;
    MulBound(m, d);
  }

  // ----- two's complement

  function WrapInt32(x: int): int {
    var r := x % 0x1_0000_0000;
    if r >= 0x8000_0000 then r - 0x1_0000_0000 else r
  }

  function WrapInt64(x: int): int {
    var r := x % 0x1_0000_0000_0000_0000;
    if r >= 0x8000_0000_0000_0000 then r - 0x1_0000_0000_0000_0000 else r
  }

  /** Wrapping keeps the value modulo the width and brings it into the signed range. */
  lemma WrapMeaning(x: int)
    ensures (WrapInt32(x) - x) % 0x1_0000_0000 == 0 && -0x8000_0000 <= WrapInt32(x) < 0x8000_0000
    ensures (WrapInt64(x) - x) % 0x1_0000_0000_0000_0000 == 0 && IsInt64(WrapInt64(x))
  {
  }

  predicate IsInt64(x: int) {
    -0x8000_0000_0000_0000 <= x < 0x8000_0000_0000_0000
  }
}
