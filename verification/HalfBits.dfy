/** The bit fields of the two binary formats and the encoder over them, bit for bit. */
module HalfBits {

  // ----- the bit fields -----

  function Sign32(b: bv32): (r: bv32)
    ensures r < 2
  {
    (b >> 31) & 1
  }

  function Exp32(b: bv32): (r: bv32)
    ensures r < 0x100
  {
    (b >> 23) & 0xff
  }

  function Mant32(b: bv32): (r: bv32)
    ensures r < 0x80_0000
  {
    b & 0x007f_ffff
  }

  function Sign16(h: bv16): (r: bv16)
    ensures r < 2
  {
    h >> 15
  }

  function Exp16(h: bv16): (r: bv16)
    ensures r < 0x20
  {
    (h >> 10) & 0x1f
  }

  function Mant16(h: bv16): (r: bv16)
    ensures r < 0x400
  {
    h & 0x03ff
  }

  // The same fields as numbers.

  function S32(b: bv32): (r: int)
    ensures 0 <= r < 2
  {
    Sign32(b) as int
  }

  function E32(b: bv32): (r: int)
    ensures 0 <= r < 256
  {
    Exp32(b) as int
  }

  function M32(b: bv32): (r: int)
    ensures 0 <= r < 0x80_0000
  {
    hide Mant32;
    Bound23(Mant32(b));
    Mant32(b) as int
  }

  lemma Bound23(m: bv32)
    requires m < 0x80_0000
    ensures 0 <= m as int < 0x80_0000
  {
    LowBits(m);
    BoundParts(m, m >> 13, m & 0x1fff);
  }

  lemma BoundParts(m: bv32, q: bv32, l: bv32)
    requires q < 0x400 && l < 0x2000 && m == (q << 13) | l
    ensures 0 <= m as int < 0x80_0000
  {
    Joined(m, q, l);
    Bound10(q);
  }

  lemma Bound10(q: bv32)
    requires q < 0x400
    ensures 0 <= q as int < 1024
  {
  }

  function S16(h: bv16): (r: int)
    ensures 0 <= r < 2
  {
    Sign16(h) as int
  }

  function E16(h: bv16): (r: int)
    ensures 0 <= r < 32
  {
    Exp16(h) as int
  }

  function M16(h: bv16): (r: int)
    ensures 0 <= r < 1024
  {
    Mant16(h) as int
  }

  // ----- the encoder -----

  function F32ToF16Bits(bits: bv32): bv16 {
    var sign := ((bits >> 31) & 0x1) as bv16;
    var exponent := ((bits >> 23) & 0xff) as int;
    var mantissa := bits & 0x007f_ffff;
    if exponent == 0xff then
      var mantissa16: bv16 := if mantissa != 0 then 0x0200 else 0;
      (sign << 15) | 0x7c00 | mantissa16
    else
      var newExp := exponent - 127 + 15;
      if newExp >= 0x1f then (sign << 15) | 0x7c00
      else if newExp <= 0 then sign << 15
      else
        var mantissa16 := (mantissa >> 13) as bv16;
        (sign << 15) | ((newExp as bv16) << 10) | mantissa16
  }

  // ----- from bits to numbers -----

  lemma LowBits(m: bv32)
    requires m < 0x80_0000
    ensures m == ((m >> 13) << 13) | (m & 0x1fff) && m >> 13 < 0x400 && m & 0x1fff < 0x2000
  {
  }

  lemma Joined(m: bv32, q: bv32, l: bv32)
    requires q < 0x400 && l < 0x2000 && m == (q << 13) | l
    ensures m as int == q as int * 8192 + l as int && 0 <= l as int < 8192
  {
  }

  lemma Quotient(a: int, x: int, y: int)
    requires a == x * 8192 + y && 0 <= y < 8192
    ensures x == a / 8192
  {
  }

  lemma ShiftIsQuotient(m: bv32, q: bv32, l: bv32)
    requires q < 0x400 && l < 0x2000 && m == (q << 13) | l
    ensures q as int == m as int / 8192
  {
    Joined(m, q, l);
    Quotient(m as int, q as int, l as int);
  }

  lemma Narrow(q: bv32)
    requires q < 0x400
    ensures (q as bv16) as int == q as int
  {
  }

  lemma WithinBits(b: bv32)
    requires 113 <= E32(b) <= 142
    ensures E16(F32ToF16Bits(b)) == E32(b) - 112 && Mant16(F32ToF16Bits(b)) == ((Mant32(b) >> 13) as bv16)
  {
  }

  lemma Within(b: bv32)
    requires 113 <= E32(b) <= 142
    ensures E16(F32ToF16Bits(b)) == E32(b) - 112 && M16(F32ToF16Bits(b)) == M32(b) / 8192
  {
    hide F32ToF16Bits, Mant32, Exp32, Exp16, Mant16;
    WithinBits(b);
    ShiftedFraction(Mant32(b));
  }

  lemma ShiftedFraction(m: bv32)
    requires m < 0x80_0000
    ensures ((m >> 13) as bv16) as int == m as int / 8192
  {
    Shifted(m);
    var q := m >> 13;
    assert q < 0x400;
    Narrow(q);
  }

  lemma Shifted(m: bv32)
    requires m < 0x80_0000
    ensures (m >> 13) as int == m as int / 8192
  {
    LowBits(m);
    ShiftIsQuotient(m, m >> 13, m & 0x1fff);
  }

  /** The sign always survives. */
  lemma SignIsKept(b: bv32)
    ensures S16(F32ToF16Bits(b)) == S32(b)
  {
  }

  lemma Special(b: bv32)
    requires E32(b) == 255
    ensures E16(F32ToF16Bits(b)) == 31 && M16(F32ToF16Bits(b)) == if M32(b) == 0 then 0 else 512
  {
  }

  lemma Above(b: bv32)
    requires 143 <= E32(b) < 255
    ensures E16(F32ToF16Bits(b)) == 31 && M16(F32ToF16Bits(b)) == 0
  {
  }

  lemma Below(b: bv32)
    requires E32(b) <= 112
    ensures E16(F32ToF16Bits(b)) == 0 && M16(F32ToF16Bits(b)) == 0
  {
  }

  /** The fields of the result for every finite input. */
  lemma FieldsOf(b: bv32)
    requires E32(b) != 255
    ensures var e, h := E32(b), F32ToF16Bits(b);
            && E16(h) == (if e >= 143 then 31 else if e <= 112 then 0 else e - 112)
            && M16(h) == (if 113 <= e <= 142 then M32(b) / 8192 else 0)
  {
    hide F32ToF16Bits, E32, E16, M32, M16;
    if E32(b) >= 143 {
      Above(b);
    } else if E32(b) <= 112 {
      Below(b);
    } else {
      Within(b);
    }
  }

  lemma EqualFields(x: bv16, y: bv16)
    requires x < 0x400 && y < 0x400 && x as int == y as int
    ensures x == y
  {
  }

  lemma PatternIs(h: bv16, w: bv16)
    requires Exp16(h) == Exp16(w) && Mant16(h) == Mant16(w) && Sign16(h) == Sign16(w)
    ensures h == w
  {
  }

  lemma SamePattern(h: bv16, w: bv16)
    requires E16(h) == E16(w) && M16(h) == M16(w) && S16(h) == S16(w)
    ensures h == w
  {
    hide Exp16, Mant16, Sign16;
    EqualFields(Exp16(h), Exp16(w));
    EqualFields(Mant16(h), Mant16(w));
    EqualFields(Sign16(h), Sign16(w));
    PatternIs(h, w);
  }

  /** The binary32 pattern with the fields of a binary16 normal. */
  function Widen(h: bv16): bv32 {
    ((h >> 15) as bv32 << 31) | ((Exp16(h) as bv32 + 112) << 23) | (Mant16(h) as bv32 << 13)
  }

  lemma WidenBits(h: bv16)
    ensures Sign32(Widen(h)) == Sign16(h) as bv32
    ensures Exp32(Widen(h)) == Exp16(h) as bv32 + 112
    ensures Mant32(Widen(h)) == Mant16(h) as bv32 << 13
  {
  }

  lemma WidenFields(h: bv16)
    ensures S32(Widen(h)) == S16(h) && E32(Widen(h)) == E16(h) + 112 && M32(Widen(h)) == M16(h) * 8192
  {
    hide Widen, Sign32, Sign16, Exp32, Exp16, Mant32, Mant16;
    WidenBits(h);
    WideSign(Sign16(h));
    WideExponent(Exp16(h));
    WideFraction(Mant16(h));
  }

  lemma WideSign(s: bv16)
    requires s < 2
    ensures (s as bv32) as int == s as int
  {
  }

  lemma WideExponent(e: bv16)
    requires e < 0x20
    ensures (e as bv32 + 112) as int == e as int + 112
  {
  }

  lemma WideFraction(m: bv16)
    requires m < 0x400
    ensures (m as bv32 << 13) as int == m as int * 8192
  {
  }
}
