/** Python integer bit operations on non-negative integers.
    The driver only ever applies `<<`, `>>`, `&` and `|` to non-negative
    values, so they are defined here on `nat` with the semantics of Python's
    arbitrary-precision integers: no width, no wrap-around. */
module Bits {

  /** A value returned by a single-byte bus read. */
  type byte = x: int | 0 <= x < 256

  function Pow2(n: nat): (r: nat)
    ensures r >= 1
  {
    if n == 0 then 1 else 2 * Pow2(n - 1)
  }

  /** The powers of two the driver's shifts and masks use. */
  lemma Pow2Values()
    ensures Pow2(1) == 2 && Pow2(4) == 16 && Pow2(8) == 256
    ensures Pow2(12) == 4096 && Pow2(16) == 65536
  {
    assert Pow2(4) == 2 * Pow2(3) == 4 * Pow2(2) == 8 * Pow2(1) == 16;
    assert Pow2(8) == 2 * Pow2(7) == 4 * Pow2(6) == 8 * Pow2(5) == 16 * Pow2(4);
    assert Pow2(12) == 2 * Pow2(11) == 4 * Pow2(10) == 8 * Pow2(9) == 16 * Pow2(8);
    assert Pow2(16) == 2 * Pow2(15) == 4 * Pow2(14) == 8 * Pow2(13) == 16 * Pow2(12);
  }

  lemma {:induction false} Pow2Add(a: nat, b: nat)
    ensures Pow2(a + b) == Pow2(a) * Pow2(b)
  {
    if b > 0 {
      Pow2Add(a, b - 1);
      assert Pow2(a + b) == 2 * Pow2(a + b - 1);
    }
  }

  /** Python `x << n` for x >= 0: n doublings. */
  function Shl(x: nat, n: nat): nat
  {
    if n == 0 then x else 2 * Shl(x, n - 1)
  }

  /** Python `x >> n` for x >= 0: n halvings, each dropping the low bit. */
  function Shr(x: nat, n: nat): nat
  {
    if n == 0 then x else Shr(x / 2, n - 1)
  }

  /** Python `x & y` for x, y >= 0, bit by bit from the least significant bit. */
  function And(x: nat, y: nat): nat
    decreases x
  {
    if x == 0 || y == 0 then 0
    else 2 * And(x / 2, y / 2) + (if x % 2 == 1 && y % 2 == 1 then 1 else 0)
  }

  /** Python `x | y` for x, y >= 0, bit by bit from the least significant bit. */
  function Or(x: nat, y: nat): nat
    decreases x
  {
    if x == 0 then y
    else if y == 0 then x
    else 2 * Or(x / 2, y / 2) + (if x % 2 == 1 || y % 2 == 1 then 1 else 0)
  }

  lemma ScaleSum(k: int, a: int, p: int, b: int)
    ensures k * (a + p * b) == k * a + (k * p) * b
  {
  }

  lemma MulMono(p: nat, a: int, b: int)
    requires a <= b
    ensures p * a <= p * b
  {
    assert p * b - p * a == p * (b - a);
  }

  /** Quotient and remainder are determined by any decomposition with a
      remainder in range. */
  lemma DivModUnique(x: nat, m: nat, q: nat, s: nat)
    requires m > 0 && x == q * m + s && s < m
    ensures x / m == q && x % m == s
  {
    var d: int := x / m - q;
    assert d * m == s - x % m;
    assert d * m < m && -(d * m) < m;
  }

  /** Peeling one low bit off x, then taking the rest modulo p, gives x modulo 2p. */
  lemma ModDouble(x: nat, p: nat)
    requires p > 0
    ensures x % (2 * p) == 2 * ((x / 2) % p) + x % 2
    ensures x / (2 * p) == (x / 2) / p
  {
    var q, r := x / 2, x % 2;
    var a, b := q / p, q % p;
    assert x == a * (2 * p) + (2 * b + r);
    DivModUnique(x, 2 * p, a, 2 * b + r);
  }

  /** A left shift multiplies by 2^n. */
  lemma {:induction false} ShlValue(x: nat, n: nat)
    ensures Shl(x, n) == x * Pow2(n)
  {
    if n > 0 {
      ShlValue(x, n - 1);
      ScaleSum(2, 0, x, Pow2(n - 1));
    }
  }

  /** A right shift divides by 2^n, rounding down. */
  lemma {:induction false} ShrValue(x: nat, n: nat)
    ensures Shr(x, n) == x / Pow2(n)
  {
    if n > 0 {
      ShrValue(x / 2, n - 1);
      ModDouble(x, Pow2(n - 1));
    }
  }

  /** The shifts the driver uses, by their constant amounts. */
  lemma ShiftValues(x: nat)
    ensures Shl(x, 1) == 2 * x && Shl(x, 4) == 16 * x
    ensures Shl(x, 8) == 256 * x && Shl(x, 12) == 4096 * x
    ensures Shr(x, 1) == x / 2 && Shr(x, 4) == x / 16
  {
    assert Shl(x, 4) == 2 * Shl(x, 3) == 4 * Shl(x, 2) == 8 * Shl(x, 1) == 16 * x;
    assert Shl(x, 8) == 2 * Shl(x, 7) == 4 * Shl(x, 6) == 8 * Shl(x, 5) == 16 * Shl(x, 4);
    assert Shl(x, 12) == 2 * Shl(x, 11) == 4 * Shl(x, 10) == 8 * Shl(x, 9) == 16 * Shl(x, 8);
    assert Shr(x, 1) == x / 2;
    assert Shr(x, 4) == x / 16 by {
      ShrValue(x, 4);
      Pow2Values();
    }
  }

  /** Masking with n one-bits keeps the value modulo 2^n. */
  lemma {:induction false} AndLowMask(x: nat, n: nat)
    ensures And(x, Pow2(n) - 1) == x % Pow2(n)
  {
    if n > 0 && x > 0 {
      var p := Pow2(n - 1);
      var m := Pow2(n) - 1;
      assert Pow2(n) == 2 * p;
      assert m / 2 == p - 1 && m % 2 == 1;
      AndOddStep(x, m);
      AndLowMask(x / 2, n - 1);
      assert And(x / 2, m / 2) == (x / 2) % p;
      ModDouble(x, p);
      assert And(x, m) == x % (2 * p);
    } else if x == 0 {
      DivModUnique(0, Pow2(n), 0, 0);
    }
  }

  /** One step of `And` against an odd mask. */
  lemma AndOddStep(x: nat, m: nat)
    requires m % 2 == 1
    ensures And(x, m) == 2 * And(x / 2, m / 2) + x % 2
  {
  }

  /** An even mask ignores the lowest bit of x. */
  lemma AndEvenMask(x: nat, y: nat)
    ensures And(x, 2 * y) == 2 * And(x / 2, y)
  {
    if x != 0 && y != 0 {
      assert (2 * y) % 2 == 0 && (2 * y) / 2 == y;
    }
  }

  /** A mask shifted left by n selects from x shifted right by n. */
  lemma {:induction false} AndShiftedMask(x: nat, m: nat, n: nat)
    ensures And(x, Shl(m, n)) == Shl(And(Shr(x, n), m), n)
  {
    if n > 0 {
      AndEvenMask(x, Shl(m, n - 1));
      AndShiftedMask(x / 2, m, n - 1);
    }
  }

  /** Masking a value below 2^n with n one-bits leaves it unchanged. */
  lemma LowMask(x: nat, n: nat)
    requires x < Pow2(n)
    ensures And(x, Pow2(n) - 1) == x
  {
    AndLowMask(x, n);
    DivModUnique(x, Pow2(n), 0, x);
  }

  /** A mask of k one-bits shifted left by n keeps bits n to n + k - 1. */
  lemma MaskAbove(x: nat, n: nat, k: nat)
    ensures And(x, Shl(Pow2(k) - 1, n)) == Shl(Shr(x, n) % Pow2(k), n)
  {
    AndShiftedMask(x, Pow2(k) - 1, n);
    AndLowMask(Shr(x, n), k);
  }

  /** Or-ing a value shifted left by n with one below 2^n is addition:
      the two sets of bits do not overlap. */
  lemma {:induction false} OrDisjoint(a: nat, b: nat, n: nat)
    requires b < Pow2(n)
    ensures Or(Shl(a, n), b) == Shl(a, n) + b
  {
    if n > 0 && b > 0 {
      var s := Shl(a, n - 1);
      if s > 0 {
        assert (2 * s) % 2 == 0 && (2 * s) / 2 == s;
        OrDisjoint(a, b / 2, n - 1);
      }
    }
  }
}
