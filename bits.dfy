/**
 * Fixed-width unsigned integers and the 128-bit operations the codec uses
 * (shift left, shift right, bitwise or, bitwise and, the low and high 64-bit
 * words), all modelled on unbounded integers.
 */
module Bits {

  type byte = x: int | 0 <= x < 0x100
  type uint16 = x: int | 0 <= x < 0x1_0000
  type uint64 = x: int | 0 <= x < 0x1_0000_0000_0000_0000
  type uint128 = x: int | 0 <= x < 0x1_0000_0000_0000_0000_0000_0000_0000_0000

  const TwoTo64: int := 0x1_0000_0000_0000_0000
  const TwoTo112: int := 0x1_0000_0000_0000_0000_0000_0000_0000
  const TwoTo128: int := 0x1_0000_0000_0000_0000_0000_0000_0000_0000

  /** b raised to the power e. */
  function Pow(b: int, e: nat): (r: int)
    ensures b > 0 ==> r > 0
  {
    if e == 0 then 1 else b * Pow(b, e - 1)
  }

  lemma Rearrange(b: int, p: int, q: int)
    ensures b * (p * q) == p * (b * q)
  {
  }

  lemma {:induction false} PowAdd(b: int, m: nat, n: nat)
    ensures Pow(b, m + n) == Pow(b, m) * Pow(b, n)
  {
    if n > 0 {
      PowAdd(b, m, n - 1);
      Rearrange(b, Pow(b, m), Pow(b, n - 1));
    }
  }

  lemma {:induction false} PowMul(b: int, m: nat, n: nat)
    ensures Pow(b, m * n) == Pow(Pow(b, m), n)
  {
    if n > 0 {
      var k := m * (n - 1);
      assert m * n == k + m;
      PowAdd(b, k, m);
      PowMul(b, m, n - 1);
      assert Pow(Pow(b, m), n) == Pow(b, m) * Pow(Pow(b, m), n - 1);
    }
  }

  lemma Pow2To8()
    ensures Pow(2, 8) == 0x100
  {
  }

  lemma Pow2To14()
    ensures Pow(2, 14) == 0x4000
  {
    Pow2To8();
    PowAdd(2, 8, 6);
  }

  lemma Pow2To16()
    ensures Pow(2, 16) == 0x1_0000
  {
    Pow2To8();
    PowAdd(2, 8, 8);
  }

  lemma Pow2To64()
    ensures Pow(2, 64) == TwoTo64
  {
    Pow2To16();
    PowAdd(2, 16, 16);
    PowAdd(2, 32, 32);
  }

  lemma Pow2To112()
    ensures Pow(2, 112) == TwoTo112
  {
    Pow2To64();
    Pow2To16();
    PowAdd(2, 16, 16);
    PowAdd(2, 32, 16);
    PowAdd(2, 64, 48);
  }

  /** Every power of two up to the 112th is at most 2^112. */
  lemma PowTwoAtMost112(e: nat)
    requires e <= 112
    ensures Pow(2, e) <= TwoTo112
  {
    PowAdd(2, e, 112 - e);
    Pow2To112();
    MulMonotone(Pow(2, e), 1, Pow(2, 112 - e));
  }

  /** The powers of the two radixes the codec uses: bytes (2^8) and codewords (2^14). */
  lemma RadixPowers()
    ensures Pow(0x100, 2) == 0x1_0000 && Pow(0x100, 6) == 0x1_0000_0000_0000
    ensures Pow(0x100, 8) == TwoTo64 && Pow(0x4000, 8) == TwoTo112
  {
    Pow2To8();
    Pow2To14();
    Pow2To16();
    Pow2To64();
    Pow2To112();
    PowMul(2, 8, 2);
    PowMul(2, 8, 8);
    PowMul(2, 14, 8);
    PowAdd(2, 32, 16);
    PowAdd(2, 16, 16);
    PowMul(2, 8, 6);
  }

  lemma MulMonotone(a: int, b: int, c: int)
    requires a >= 0 && b <= c
    ensures a * b <= a * c
  {
  }

  lemma DivModSplit(x: int, d: int)
    requires d > 0
    ensures (x / d) * d + x % d == x
  {
  }

  lemma DivBelow(x: int, b: int, p: int)
    requires b > 0 && 0 <= x < b * p
    ensures 0 <= x / b < p
  {
    if x / b >= p {
      MulMonotone(b, p, x / b);
    }
  }

  /** The next multiple of m after a smaller multiple of m does not overshoot it. */
  lemma NextMultiple(i: int, n: int, m: int)
    requires m > 0 && 0 <= i < n && i % m == 0 && n % m == 0
    ensures i + m <= n
  {
    DivModSplit(i, m);
    DivModSplit(n, m);
    if i / m >= n / m {
      MulMonotone(m, n / m, i / m);
    }
    MulMonotone(m, i / m + 1, n / m);
  }

  /** Division and remainder are determined by any decomposition x == d * q + r with 0 <= r < d. */
  lemma DivModUnique(x: int, d: int, q: int, r: int)
    requires d > 0 && 0 <= r < d && x == d * q + r
    ensures x / d == q && x % d == r
  {
    var q' := x / d;
    if q' > q {
      MulMonotone(d, q + 1, q');
    } else if q' < q {
      MulMonotone(d, q' + 1, q);
    }
  }

  /** A multiple of d leaves no remainder. */
  lemma MultipleOf(q: int, d: int)
    requires d > 0
    ensures (q * d) % d == 0
  {
    DivModUnique(q * d, d, q, 0);
  }

  /** Two nested digit positions: r2 in base b above r1 in base a. */
  lemma MixedRadix(a: int, b: int, q: int, r1: int, r2: int)
    requires 0 <= r1 < a && 0 <= r2 < b
    ensures a * r2 + r1 < a * b
    ensures a * (b * q + r2) + r1 == (a * b) * q + (a * r2 + r1)
  {
    MulMonotone(a, r2, b - 1);
  }

  lemma DivDiv(x: int, a: int, b: int)
    requires a > 0 && b > 0
    ensures x / a / b == x / (a * b)
    ensures x % (a * b) == a * ((x / a) % b) + x % a
  {
    var q1, r1 := x / a, x % a;
    var q2, r2 := q1 / b, q1 % b;
    MixedRadix(a, b, q2, r1, r2);
    DivModUnique(x, a * b, q2, a * r2 + r1);
  }

  lemma ModMod(x: int, a: int, b: int)
    requires a > 0 && b > 0
    ensures (x % (a * b)) % a == x % a
  {
    DivDiv(x, a, b);
    DivModUnique(x % (a * b), a, (x / a) % b, x % a);
  }

  /** Bitwise or of two naturals, bit by bit from the least significant end. */
  function Or(a: nat, b: nat): nat
    decreases a + b
  {
    if a == 0 then b
    else if b == 0 then a
    else 2 * Or(a / 2, b / 2) + (if a % 2 == 1 || b % 2 == 1 then 1 else 0)
  }

  /** Bitwise and of two naturals. */
  function And(a: nat, b: nat): nat
    decreases a + b
  {
    if a == 0 || b == 0 then 0
    else 2 * And(a / 2, b / 2) + (if a % 2 == 1 && b % 2 == 1 then 1 else 0)
  }

  lemma OrEvenLow(h: nat, y: nat)
    requires h != 0 && y != 0
    ensures Or(2 * h, y) == 2 * Or(h, y / 2) + y % 2
  {
    assert (2 * h) / 2 == h && (2 * h) % 2 == 0;
  }

  lemma PowSucc(x: int, k: nat)
    requires k > 0
    ensures x * Pow(2, k) == 2 * (x * Pow(2, k - 1))
  {
  }

  /** Or-ing in a value that fits below bit k, into a value whose low k bits are clear, is addition. */
  lemma {:induction false} OrDisjoint(x: nat, y: nat, k: nat)
    requires y < Pow(2, k)
    ensures Or(x * Pow(2, k), y) == x * Pow(2, k) + y
  {
    if k == 0 {
      assert y == 0;
    } else if x != 0 && y != 0 {
      var h := x * Pow(2, k - 1);
      PowSucc(x, k);
      MulMonotone(x, 1, Pow(2, k - 1));
      OrDisjoint(x, y / 2, k - 1);
      OrEvenLow(h, y);
    }
  }

  lemma OrDouble(t: nat, u: nat)
    requires t != 0 && u != 0
    ensures Or(2 * t, 2 * u) == 2 * Or(t, u)
  {
    assert (2 * t) / 2 == t && (2 * u) / 2 == u;
  }

  /** Or commutes with a common left shift of both operands. */
  lemma {:induction false} OrScaled(x: nat, y: nat, k: nat)
    ensures Or(x * Pow(2, k), y * Pow(2, k)) == Or(x, y) * Pow(2, k)
  {
    if k > 0 && x != 0 && y != 0 {
      var p := Pow(2, k - 1);
      PowSucc(x, k);
      PowSucc(y, k);
      MulMonotone(x, 1, p);
      MulMonotone(y, 1, p);
      OrScaled(x, y, k - 1);
      OrDouble(x * p, y * p);
      PowSucc(Or(x, y), k);
    }
  }

  lemma AndLowMaskStep(x: nat, p: int)
    requires x != 0 && p > 0
    requires And(x / 2, p - 1) == (x / 2) % p
    ensures And(x, 2 * p - 1) == x % (2 * p)
  {
    AndOdd(x, p);
    DivDiv(x, 2, p);
  }

  lemma AndOdd(x: nat, p: int)
    requires x != 0 && p > 0
    ensures And(x, 2 * p - 1) == 2 * And(x / 2, p - 1) + x % 2
  {
    assert (2 * p - 1) / 2 == p - 1 && (2 * p - 1) % 2 == 1;
  }

  /** And-ing with the mask of the k low bits keeps the remainder modulo 2^k. */
  lemma {:induction false} AndLowMask(x: nat, k: nat)
    ensures And(x, Pow(2, k) - 1) == x % Pow(2, k)
  {
    if k == 0 {
      assert Pow(2, k) - 1 == 0;
    } else if x != 0 {
      var p := Pow(2, k - 1);
      AndLowMask(x / 2, k - 1);
      AndLowMaskStep(x, p);
    }
  }

  /** Left shift of a 128-bit value; bits shifted past bit 127 are lost. */
  function ShiftLeft(x: uint128, n: nat): uint128
  {
    (x * Pow(2, n)) % TwoTo128
  }

  /** Logical right shift; it never makes a value larger, so it keeps any unsigned width. */
  function ShiftRight(x: nat, n: nat): (r: nat)
    ensures r <= x
  {
    DivBelow(x, Pow(2, n), x + 1);
    x / Pow(2, n)
  }

  /** The low 64-bit word (the `L` half) of a 128-bit value. */
  function Low64(x: uint128): uint64
  {
    x % TwoTo64
  }

  /** The high 64-bit word (the `H` half) of a 128-bit value. */
  function High64(x: uint128): uint64
  {
    x / TwoTo64
  }

  /** The 128-bit value with the given high and low words. */
  function FromWords(h: uint64, l: uint64): uint128
  {
    h * TwoTo64 + l
  }
}
