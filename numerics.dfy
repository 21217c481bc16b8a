/** Integer facts the converter relies on: powers of two and ten, the bit
    length of a value (which determines `long.LeadingZeroCount`), the decimal
    logarithm, and digit extraction by division with remainder. */
module Numerics {

  /** 2^k */
  function Pow2(k: nat): (r: nat)
    ensures r >= 1
  {
    if k == 0 then 1 else 2 * Pow2(k - 1)
  }

  /** 10^k */
  function Pow10(k: nat): (r: nat)
    ensures r >= 1
  {
    if k == 0 then 1 else 10 * Pow10(k - 1)
  }

  lemma {:induction false} Pow10Monotone(a: nat, b: nat)
    requires a <= b
    ensures Pow10(a) <= Pow10(b)
    decreases b - a
  {
    if a < b {
      Pow10Monotone(a, b - 1);
    }
  }

  /** The powers of two that bound the values the converter accepts, computed
      in steps of eight doublings. */
  lemma Pow2Values()
    ensures Pow2(15) == 32768 && Pow2(31) == 2147483648
    ensures Pow2(47) == 140737488355328 && Pow2(53) == 9007199254740992
    ensures Pow2(54) == 18014398509481984 && Pow2(63) == 9223372036854775808
  {
    assert Pow2(8) == 256;
    assert Pow2(15) == 32768;
    assert Pow2(23) == 8388608;
    assert Pow2(31) == 2147483648;
    assert Pow2(39) == 549755813888;
    assert Pow2(47) == 140737488355328;
    assert Pow2(55) == 36028797018963968;
  }

  /** Number of binary digits of `n`; 0 for 0. */
  function BitLength(n: nat): nat
  {
    if n == 0 then 0 else 1 + BitLength(n / 2)
  }

  /** A positive value lies between the powers of two that its bit length names. */
  lemma {:induction false} BitLengthBounds(n: nat)
    ensures n > 0 ==> BitLength(n) >= 1 && Pow2(BitLength(n) - 1) <= n < Pow2(BitLength(n))
  {
    if n > 1 {
      BitLengthBounds(n / 2);
    }
  }

  /** A value below 2^k has at most k binary digits. */
  lemma {:induction false} BitLengthAtMost(n: nat, k: nat)
    requires n < Pow2(k)
    ensures BitLength(n) <= k
  {
    if n > 0 {
      BitLengthAtMost(n / 2, k - 1);
    }
  }

  /** The bit length is the k with 2^(k-1) <= n < 2^k. */
  lemma BitLengthExact(n: nat, k: nat)
    requires k >= 1 && Pow2(k - 1) <= n < Pow2(k)
    ensures BitLength(n) == k
  {
    BitLengthBounds(n);
    BitLengthAtMost(n, k);
    if BitLength(n) < k {
      Pow2Monotone(BitLength(n), k - 1);
    }
  }

  lemma {:induction false} Pow2Monotone(a: nat, b: nat)
    requires a <= b
    ensures Pow2(a) <= Pow2(b)
    decreases b - a
  {
    if a < b {
      Pow2Monotone(a, b - 1);
    }
  }

  /** 2^63: every non-negative 64-bit signed value lies below it. */
  const LongBound: nat := 0x8000_0000_0000_0000

  /** `long.LeadingZeroCount`: the number of leading zero bits in the 64-bit
      two's complement form of a non-negative `long`. The highest set bit of a
      positive `n` is then bit 63 - r. */
  function LeadingZeroCount(n: nat): (r: nat)
    requires n < LongBound
    ensures r <= 64
    ensures n == 0 <==> r == 64
    ensures n > 0 ==> r >= 1 && Pow2(63 - r) <= n < Pow2(64 - r)
  {
    Pow2Values();
    BitLengthAtMost(n, 63);
    BitLengthBounds(n);
    64 - BitLength(n)
  }

  /** ⌊log10 n⌋: the index of the most significant decimal digit of `n`. */
  function Log10(n: nat): nat
    requires n > 0
  {
    if n < 10 then 0 else 1 + Log10(n / 10)
  }

  lemma {:induction false} Log10Bounds(n: nat)
    requires n > 0
    ensures Pow10(Log10(n)) <= n < Pow10(Log10(n) + 1)
  {
    if n >= 10 {
      Log10Bounds(n / 10);
    }
  }

  /** ⌊log10 n⌋ is the only k with 10^k <= n < 10^(k+1). */
  lemma Log10Unique(n: nat, k: nat)
    requires Pow10(k) <= n < Pow10(k + 1)
    ensures Log10(n) == k
  {
    Log10Bounds(n);
    var l := Log10(n);
    if l < k {
      Pow10Monotone(l + 1, k);
    } else if k < l {
      Pow10Monotone(k + 1, l);
    }
  }

  lemma MulMonotone(a: int, b: int, m: int)
    requires a <= b && 0 <= m
    ensures a * m <= b * m
  {
    assert b * m == a * m + (b - a) * m;
  }

  /** Euclidean division: quotient times divisor plus remainder gives back the dividend. */
  lemma DivModSplit(x: nat, m: nat)
    requires m > 0
    ensures x == (x / m) * m + x % m && 0 <= x % m < m
  {
  }

  /** A value below 10^(c+1) and, unless c is 0, at least 10^(c-1) has c or
      c - 1 as the index of its most significant decimal digit. */
  lemma Log10Within(n: nat, c: nat)
    requires 0 < n < Pow10(c + 1)
    requires c == 0 || Pow10(c - 1) <= n
    ensures c == Log10(n) || c == Log10(n) + 1
  {
    Log10Bounds(n);
    var l := Log10(n);
    if c < l {
      Pow10Monotone(c + 1, l);
    } else if l + 1 < c {
      Pow10Monotone(l + 1, c - 1);
    }
  }

  /** Division with remainder is determined by the quotient and remainder it must produce. */
  lemma DivModUnique(x: nat, m: nat, q: nat, r: nat)
    requires 0 <= r < m && x == q * m + r
    ensures x / m == q && x % m == r
  {
    var q', r' := x / m, x % m;
    assert x == q' * m + r';
    if q' < q {
      assert (q' + 1) * m == q' * m + m;
      MulMonotone(q' + 1, q, m);
    } else if q < q' {
      assert (q + 1) * m == q * m + m;
      MulMonotone(q + 1, q', m);
    }
  }

  /** The decimal digit of `n` at position k (units are position 0). */
  function DigitAt(n: nat, k: nat): (d: nat)
    ensures d <= 9
  {
    (n / Pow10(k)) % 10
  }

  /** Peeling position k off the value of the low k+1 positions leaves the
      digit at k as quotient and the value of the low k positions as
      remainder. */
  lemma PeelDigit(n: nat, k: nat)
    ensures (n % Pow10(k + 1)) / Pow10(k) == DigitAt(n, k)
    ensures (n % Pow10(k + 1)) % Pow10(k) == n % Pow10(k)
  {
    var p := Pow10(k);
    var m := 10 * p;
    assert Pow10(k + 1) == m;
    var q, r := n / p, n % p;
    var a, d := q / 10, q % 10;
    DivModSplit(n, p);
    DivModSplit(q, 10);
    var lo := d * p + r;
    assert q * p == a * m + d * p by {
      assert q == a * 10 + d;
      assert (a * 10 + d) * p == (a * 10) * p + d * p;
      assert (a * 10) * p == a * m;
    }
    assert 0 <= lo < m by {
      MulMonotone(0, d, p);
      MulMonotone(d, 9, p);
    }
    DivModUnique(n, m, a, lo);
    DivModUnique(lo, p, d, r);
  }

  /** The most significant decimal digit of a positive value is not zero. */
  lemma LeadingDigitNonZero(n: nat)
    requires n > 0
    ensures DigitAt(n, Log10(n)) != 0
  {
    var p := Pow10(Log10(n));
    Log10Bounds(n);
    assert Pow10(Log10(n) + 1) == 10 * p;
    DivModSplit(n, p);
    var q := n / p;
    if q >= 10 {
      MulMonotone(10, q, p);
    }
    DivModUnique(q, 10, 0, q);
  }

  /** Sum of DigitAt(n, k) * 10^k over the positions k = 0 .. top. */
  function Recompose(n: nat, top: int): nat
    decreases top + 1
  {
    if top < 0 then 0 else DigitAt(n, top) * Pow10(top) + Recompose(n, top - 1)
  }

  /** The digits of the low top+1 positions, weighted by their powers of ten,
      add up to the value of those positions. */
  lemma {:induction false} RecomposeDigits(n: nat, top: int)
    requires top >= -1
    ensures Recompose(n, top) == n % Pow10(top + 1)
    decreases top + 1
  {
    if top >= 0 {
      RecomposeDigits(n, top - 1);
      var p, x := Pow10(top), n % Pow10(top + 1);
      PeelDigit(n, top);
      DivModSplit(x, p);
    }
  }

  /** A value below 10^(top+1) is the sum of its digits at positions 0 .. top
      weighted by their powers of ten. */
  lemma RecomposeValue(n: nat, top: int)
    requires top >= -1 && n < Pow10(top + 1)
    ensures Recompose(n, top) == n
  {
    RecomposeDigits(n, top);
    DivModUnique(n, Pow10(top + 1), 0, n);
  }
}
