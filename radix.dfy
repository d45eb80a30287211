/**
 * Fixed-length positional notation, most significant digit first. With base
 * 256 it is big-endian byte order (the byte order of the codec's 64-bit
 * reads and writes and of its 14-byte blocks); with base 2^14 it is the
 * layout of eight codewords packed into one 112-bit window.
 */
module Radix {
  import opened Bits

  predicate IsDigits(ds: seq<int>, base: int)
  {
    forall i :: 0 <= i < |ds| ==> 0 <= ds[i] < base
  }

  /** The number written by the digits ds. */
  function FromDigits(ds: seq<int>, base: int): int
  {
    if |ds| == 0 then 0 else FromDigits(ds[..|ds| - 1], base) * base + ds[|ds| - 1]
  }

  /** The n low-order digits of x; the digits above them are dropped. */
  function ToDigits(x: int, base: int, n: nat): (ds: seq<int>)
    requires base > 0
    ensures |ds| == n
    decreases n
  {
    if n == 0 then [] else ToDigits(x / base, base, n - 1) + [x % base]
  }

  /** Every digit ToDigits writes is below the base. */
  lemma {:induction false} ToDigitsAreDigits(x: int, base: int, n: nat)
    requires base > 0
    ensures IsDigits(ToDigits(x, base, n), base)
    decreases n
  {
    if n > 0 {
      ToDigitsAreDigits(x / base, base, n - 1);
    }
  }

  lemma {:induction false} FromDigitsBound(ds: seq<int>, base: int)
    requires base > 0 && IsDigits(ds, base)
    ensures 0 <= FromDigits(ds, base) < Pow(base, |ds|)
  {
    if |ds| > 0 {
      var init := ds[..|ds| - 1];
      var p := Pow(base, |ds| - 1);
      FromDigitsBound(init, base);
      MixedRadix(base, p, 0, ds[|ds| - 1], FromDigits(init, base));
    }
  }

  lemma Distribute(f: int, p: int, g: int, b: int)
    ensures (f * p + g) * b == f * (b * p) + g * b
  {
  }

  lemma {:induction false} FromDigitsAppend(s: seq<int>, t: seq<int>, base: int)
    ensures FromDigits(s + t, base) == FromDigits(s, base) * Pow(base, |t|) + FromDigits(t, base)
  {
    if |t| == 0 {
      assert s + t == s;
    } else {
      var t' := t[..|t| - 1];
      assert (s + t)[..|s + t| - 1] == s + t';
      FromDigitsAppend(s, t', base);
      Distribute(FromDigits(s, base), Pow(base, |t'|), FromDigits(t', base), base);
    }
  }

  /** Writing the value of a digit sequence back out gives the same digits. */
  lemma {:induction false} ToFromDigits(ds: seq<int>, base: int)
    requires base > 0 && IsDigits(ds, base)
    ensures ToDigits(FromDigits(ds, base), base, |ds|) == ds
  {
    if |ds| > 0 {
      var init := ds[..|ds| - 1];
      var x := FromDigits(ds, base);
      DivModUnique(x, base, FromDigits(init, base), ds[|ds| - 1]);
      ToFromDigits(init, base);
      assert ds == init + [ds[|ds| - 1]];
    }
  }

  lemma FromDigitsSnoc(s: seq<int>, d: int, base: int)
    ensures FromDigits(s + [d], base) == FromDigits(s, base) * base + d
  {
    assert (s + [d])[..|s|] == s;
  }

  /** Reading back n digits of a value in [0, base^n) gives the value. */
  lemma {:induction false} FromToDigits(x: int, base: int, n: nat)
    requires base > 0 && 0 <= x < Pow(base, n)
    ensures FromDigits(ToDigits(x, base, n), base) == x
    decreases n
  {
    if n > 0 {
      var q := x / base;
      DivBelow(x, base, Pow(base, n - 1));
      FromToDigits(q, base, n - 1);
      FromDigitsSnoc(ToDigits(q, base, n - 1), x % base, base);
      assert ToDigits(x, base, n) == ToDigits(q, base, n - 1) + [x % base];
      DivModSplit(x, base);
    }
  }

  /** Digit j of n is the value shifted down by the n - 1 - j digits after it. */
  lemma {:induction false} DigitAt(x: int, base: int, n: nat, j: nat)
    requires base > 0 && j < n
    ensures ToDigits(x, base, n)[j] == (x / Pow(base, n - 1 - j)) % base
    decreases n
  {
    if j < n - 1 {
      DigitAt(x / base, base, n - 1, j);
      DivDiv(x, base, Pow(base, n - 2 - j));
    }
  }

  /** Dropping the k most significant of n digits leaves the n - k low-order digits. */
  lemma {:induction false} ToDigitsDropHigh(x: int, base: int, n: nat, k: nat)
    requires base > 0 && k <= n
    ensures ToDigits(x, base, n)[k..] == ToDigits(x, base, n - k)
    decreases n
  {
    if k < n {
      ToDigitsDropHigh(x / base, base, n - 1, k);
      assert ToDigits(x, base, n) == ToDigits(x / base, base, n - 1) + [x % base];
    }
  }
}
