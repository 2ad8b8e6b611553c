/**
 Magnitudes of the two binary formats as functions of their exponent and fraction
 fields, and what dropping the low fraction bits does to them.
 */
module Binades {

  /** The k-th power of two. */
  function Pow2(k: int): (r: real)
    ensures r > 0.0
    decreases if k < 0 then -k else k
  {
    if k == 0 then 1.0 else if k > 0 then 2.0 * Pow2(k - 1) else Pow2(k + 1) / 2.0
  }

  /** Multiplication by a unit, named so that a proof can treat it as one step. */
  function Times(x: real, u: real): real {
    x * u
  }

  const FRACTION32: int := 0x80_0000
  const FRACTION16: int := 1024
  const DROPPED: int := 8192

  /** A finite binary32 magnitude (biased exponent `e`, fraction `m`). */
  function Magnitude32(e: int, m: int): real {
    Times(if e == 0 then m as real else (FRACTION32 + m) as real, Pow2(if e == 0 then -149 else e - 150))
  }

  /** A finite binary16 magnitude. */
  function Magnitude16(e: int, m: int): real {
    Times(if e == 0 then m as real else (FRACTION16 + m) as real, Pow2(if e == 0 then -24 else e - 25))
  }

  predicate Fields32(e: int, m: int) {
    0 <= e < 255 && 0 <= m < FRACTION32
  }

  predicate Fields16(e: int, m: int) {
    0 <= e < 31 && 0 <= m < FRACTION16
  }

  // ----- powers of two -----

  lemma Pow2Next(k: int)
    ensures Pow2(k + 1) == 2.0 * Pow2(k)
  {
  }

  lemma {:induction false} Pow2Grows(j: int, k: int)
    requires j <= k
    ensures Pow2(j) <= Pow2(k)
    decreases k - j
  {
    if j < k {
      Pow2Grows(j, k - 1);
      Pow2Next(k - 1);
    }
  }

  lemma Pow2Five(k: int)
    ensures Pow2(k + 5) == 32.0 * Pow2(k)
  {
    hide Pow2;
    Pow2Next(k);
    Pow2Next(k + 1);
    Pow2Next(k + 2);
    Pow2Next(k + 3);
    Pow2Next(k + 4);
  }

  lemma Pow2Ten(k: int)
    ensures Pow2(k + 10) == 1024.0 * Pow2(k) == Times(1024.0, Pow2(k))
  {
    hide Pow2;
    Pow2Five(k);
    Pow2Five(k + 5);
  }

  lemma Pow2Thirteen(k: int)
    ensures Pow2(k + 13) == 8192.0 * Pow2(k) == Times(8192.0, Pow2(k))
  {
    hide Pow2;
    Pow2Ten(k);
    Pow2Next(k + 10);
    Pow2Next(k + 11);
    Pow2Next(k + 12);
  }

  lemma Pow2TwentyThree(k: int)
    ensures Pow2(k + 23) == 8388608.0 * Pow2(k) == Times(8388608.0, Pow2(k))
  {
    hide Pow2;
    Pow2Ten(k);
    Pow2Thirteen(k + 10);
  }

  lemma SmallPowers()
    ensures Pow2(0) == 1.0 && Pow2(1) == 2.0
    ensures Pow2(-14) == 1.0 / 16384.0 && Pow2(-24) == 1.0 / 16777216.0 && Pow2(-23) == 1.0 / 8388608.0
  {
    Pow2Next(-1);
    Pow2Thirteen(-14);
    Pow2Ten(-24);
    Pow2Next(-24);
  }

  // ----- arithmetic -----

  lemma Scale(x: real, y: real, u: real)
    requires x <= y && u > 0.0
    ensures Times(x, u) <= Times(y, u)
    ensures x < y ==> Times(x, u) < Times(y, u)
  {
  }

  lemma Zero(u: real)
    ensures Times(0.0, u) == 0.0
  {
  }

  lemma Regroup(x: real, y: real, u: real)
    ensures Times(x, Times(y, u)) == Times(x * y, u)
  {
  }

  lemma Twice(x: real, u: real)
    ensures Times(2.0 * x, u) == 2.0 * Times(x, u)
  {
  }

  lemma Between(x: real, lo: real, u: real)
    requires 0.0 < lo <= x < 2.0 * lo && u > 0.0
    ensures 0.0 < Times(lo, u) <= Times(x, u) < 2.0 * Times(lo, u)
  {
    hide Times;
    Scale(lo, x, u);
    Scale(x, 2.0 * lo, u);
    Scale(0.0, lo, u);
    Zero(u);
    Twice(lo, u);
  }

  lemma Difference(x: real, r: real, u: real)
    ensures Times(x, u) - Times(x - r, u) == Times(r, u)
  {
  }

  // ----- binades -----

  /** A finite magnitude lies in the binade its exponent field names. */
  lemma Binade32(e: int, m: int)
    requires Fields32(e, m)
    ensures 0.0 <= Magnitude32(e, m)
    ensures e == 0 ==> Magnitude32(e, m) < Pow2(-126)
    ensures e != 0 ==> Pow2(e - 127) <= Magnitude32(e, m) < Pow2(e - 126)
  {
    hide Pow2, Times;
    if e == 0 {
      var u := Pow2(-149);
      Pow2TwentyThree(-149);
      Zero(u);
      Scale(0.0, m as real, u);
      Scale(m as real, 8388608.0, u);
    } else {
      Pow2TwentyThree(e - 150);
      Pow2Next(e - 127);
      Between((FRACTION32 + m) as real, 8388608.0, Pow2(e - 150));
    }
  }

  lemma Binade16(e: int, m: int)
    requires Fields16(e, m)
    ensures 0.0 <= Magnitude16(e, m)
    ensures e == 0 ==> Magnitude16(e, m) < Pow2(-14)
    ensures e != 0 ==> Pow2(e - 15) <= Magnitude16(e, m) < Pow2(e - 14)
  {
    hide Pow2, Times;
    if e == 0 {
      var u := Pow2(-24);
      Pow2Ten(-24);
      Zero(u);
      Scale(0.0, m as real, u);
      Scale(m as real, 1024.0, u);
    } else {
      Pow2Ten(e - 25);
      Pow2Next(e - 15);
      Between((FRACTION16 + m) as real, 1024.0, Pow2(e - 25));
    }
  }

  /** The exponent field tells whether a magnitude reaches 2^16 or 2^-14. */
  lemma RangeIff(e: int, m: int)
    requires Fields32(e, m)
    ensures e >= 143 <==> Magnitude32(e, m) >= Pow2(16)
    ensures e <= 112 <==> Magnitude32(e, m) < Pow2(-14)
  {
    hide Pow2, Times;
    Binade32(e, m);
    var top := if e == 0 then -126 else e - 126;
    if e >= 143 {
      Pow2Grows(16, e - 127);
    } else {
      Pow2Grows(top, 16);
    }
    if e > 112 {
      Pow2Grows(-14, e - 127);
    } else {
      Pow2Grows(top, -14);
    }
  }

  /** Magnitude order of the narrow format follows its exponent field. */
  lemma ExponentOrder(d: int, n: int, e: int, k: int)
    requires Fields16(d, n) && Fields16(e, k) && d < e
    ensures Magnitude16(d, n) < Magnitude16(e, k)
  {
    hide Pow2, Times;
    Binade16(d, n);
    Binade16(e, k);
    Pow2Grows(if d == 0 then -14 else d - 14, e - 15);
  }

  lemma FieldsAreUnique(d: int, n: int, e: int, k: int)
    requires Fields16(d, n) && Fields16(e, k) && Magnitude16(d, n) == Magnitude16(e, k)
    ensures d == e && n == k
  {
    hide Pow2, Times;
    if d < e {
      ExponentOrder(d, n, e, k);
      assert false;
    } else if e < d {
      ExponentOrder(e, k, d, n);
      assert false;
    } else if n < k {
      FractionOrder(d, n, k);
      assert false;
    } else if k < n {
      FractionOrder(d, k, n);
      assert false;
    }
  }

  lemma FractionOrder(e: int, n: int, k: int)
    requires n < k
    ensures Magnitude16(e, n) < Magnitude16(e, k)
  {
    hide Pow2, Times;
    if e == 0 {
      Scale(n as real, k as real, Pow2(-24));
    } else {
      Scale((FRACTION16 + n) as real, (FRACTION16 + k) as real, Pow2(e - 25));
    }
  }

  // ----- dropping the low fraction bits -----

  /** In range, both magnitudes as multiples of the input's last place. */
  lemma LastPlaces(e: int, m: int, n: int) returns (u: real)
    requires 113 <= e <= 142
    ensures u == Pow2(e - 150) && u > 0.0
    ensures Magnitude32(e, m) == Times((FRACTION32 + m) as real, u)
    ensures Magnitude16(e - 112, n) == Times((FRACTION32 + n * DROPPED) as real, u)
  {
    hide Pow2, Times;
    u := Pow2(e - 150);
    Pow2Thirteen(e - 150);
    var x := (FRACTION16 + n) as real;
    assert Magnitude16(e - 112, n) == Times(x, Pow2(e - 137)) && Pow2(e - 137) == Times(8192.0, u);
    Regroup(x, 8192.0, u);
    assert x * 8192.0 == (FRACTION32 + n * DROPPED) as real;
  }

  /** The result is not above the input, and off by less than one part in 1024. */
  lemma DropError(e: int, m: int)
    requires Fields32(e, m) && 113 <= e <= 142
    ensures Magnitude16(e - 112, m / DROPPED) <= Magnitude32(e, m)
    ensures (Magnitude32(e, m) - Magnitude16(e - 112, m / DROPPED)) * 1024.0 < Magnitude32(e, m)
    ensures e <= 126 ==> Magnitude32(e, m) - Magnitude16(e - 112, m / DROPPED) < 1.0 / 2048.0
  {
    hide Pow2, Times, Magnitude32, Magnitude16;
    var u := LastPlaces(e, m, m / DROPPED);
    var r := m % DROPPED;
    var x, error := (FRACTION32 + m) as real, r as real;
    assert (FRACTION32 + (m / DROPPED) * DROPPED) as real == x - error;
    Difference(x, error, u);
    DropBounds(x, error, u);
    if e <= 126 {
      SmallPowers();
      Pow2Grows(e - 150, -24);
      SmallError(error, u);
    }
  }

  lemma DropBounds(x: real, r: real, u: real)
    requires 0.0 <= r <= 8191.0 && 8388608.0 <= x && u > 0.0
    ensures 0.0 <= Times(r, u) && Times(r, u) * 1024.0 < Times(x, u)
  {
    ThousandTimes(r, u);
    hide Times;
    Zero(u);
    Scale(0.0, r, u);
    Scale(r * 1024.0, x, u);
  }

  lemma ThousandTimes(r: real, u: real)
    ensures Times(r * 1024.0, u) == Times(r, u) * 1024.0
  {
  }

  lemma SmallError(r: real, u: real)
    requires 0.0 <= r <= 8191.0 && 0.0 < u <= 1.0 / 16777216.0
    ensures Times(r, u) < 1.0 / 2048.0
  {
    assert Times(8191.0, u) < 1.0 / 2048.0;
    hide Times;
    Scale(r, 8191.0, u);
  }

  /** No binary16 magnitude lies strictly between the result and the input. */
  lemma NothingBetween(e: int, m: int, d: int, n: int)
    requires Fields32(e, m) && 113 <= e <= 142 && Fields16(d, n)
    requires Magnitude16(d, n) <= Magnitude32(e, m)
    ensures Magnitude16(d, n) <= Magnitude16(e - 112, m / DROPPED)
  {
    hide Pow2, Times, Magnitude32, Magnitude16;
    Binade32(e, m);
    if d > e - 112 {
      Binade16(d, n);
      Pow2Grows(e - 126, d - 15);
      assert false;
    } else if d < e - 112 {
      ExponentOrder(d, n, e - 112, m / DROPPED);
    } else {
      SameBinade(e, m, n);
    }
  }

  lemma SameBinade(e: int, m: int, n: int)
    requires Fields32(e, m) && 113 <= e <= 142 && Fields16(e - 112, n)
    requires Magnitude16(e - 112, n) <= Magnitude32(e, m)
    ensures Magnitude16(e - 112, n) <= Magnitude16(e - 112, m / DROPPED)
  {
    hide Pow2, Times, Magnitude32, Magnitude16;
    var u := LastPlaces(e, m, n);
    if n * DROPPED > m {
      Scale((FRACTION32 + m) as real, (FRACTION32 + n * DROPPED) as real, u);
      assert false;
    }
    assert n <= m / DROPPED;
    if n < m / DROPPED {
      FractionOrder(e - 112, n, m / DROPPED);
    }
  }
}
