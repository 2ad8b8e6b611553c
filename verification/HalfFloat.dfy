/**
 The narrowing of an embedding for the uplink: binary32 bit patterns to binary16
 bit patterns (section 3.4 of IEEE 754-2019), and the little-endian packing.
 */
module HalfFloat {
  import opened Binades
  import opened HalfBits

  // ----- the values -----

  predicate IsFinite32(b: bv32) {
    E32(b) != 255
  }

  predicate IsNan32(b: bv32) {
    E32(b) == 255 && M32(b) != 0
  }

  predicate IsFinite16(h: bv16) {
    E16(h) != 31
  }

  predicate IsNan16(h: bv16) {
    E16(h) == 31 && M16(h) != 0
  }

  predicate IsInf16(h: bv16) {
    E16(h) == 31 && M16(h) == 0
  }

  predicate IsNormal16(h: bv16) {
    0 < E16(h) < 31
  }

  function Mag32(b: bv32): real {
    Magnitude32(E32(b), M32(b))
  }

  function Mag16(h: bv16): real {
    Magnitude16(E16(h), M16(h))
  }

  function Value32(b: bv32): real {
    if S32(b) == 1 then -Mag32(b) else Mag32(b)
  }

  function Value16(h: bv16): real {
    if S16(h) == 1 then -Mag16(h) else Mag16(h)
  }

  // ----- what the encoder does to values -----

  /** Not-a-number stays one, infinity stays infinite, and no finite input becomes a not-a-number. */
  lemma SpecialsAreKept(b: bv32)
    ensures IsNan16(F32ToF16Bits(b)) <==> IsNan32(b)
    ensures IsNan32(b) ==> M16(F32ToF16Bits(b)) == 512
    ensures !IsFinite32(b) && !IsNan32(b) ==> IsInf16(F32ToF16Bits(b))
  {
    hide F32ToF16Bits, E32, E16, M32, M16;
    if IsFinite32(b) {
      FieldsOf(b);
    } else {
      Special(b);
    }
  }

  /** Infinity exactly at or above 2^16, signed zero exactly below 2^-14, for every finite input. */
  lemma OutOfRange(b: bv32)
    requires IsFinite32(b)
    ensures IsInf16(F32ToF16Bits(b)) <==> Mag32(b) >= Pow2(16)
    ensures Mag16(F32ToF16Bits(b)) == 0.0 <==> Mag32(b) < Pow2(-14)
    ensures IsNormal16(F32ToF16Bits(b)) <==> Pow2(-14) <= Mag32(b) < Pow2(16)
  {
    hide F32ToF16Bits, E32, E16, M32, M16, Pow2, Times;
    FieldsOf(b);
    RangeIff(E32(b), M32(b));
    if E32(b) > 112 {
      NormalIsPositive(E16(F32ToF16Bits(b)), M16(F32ToF16Bits(b)));
    } else {
      Zero(Pow2(-24));
    }
  }

  lemma NormalIsPositive(e: int, m: int)
    requires e > 0 && m >= 0
    ensures Magnitude16(e, m) > 0.0
  {
    Zero(Pow2(e - 25));
    Scale(0.0, (FRACTION16 + m) as real, Pow2(e - 25));
  }

  /** In range: truncation toward zero, with a relative error below 2^-10. */
  lemma TruncatesInRange(b: bv32)
    requires IsFinite32(b) && Pow2(-14) <= Mag32(b) < Pow2(16)
    ensures IsNormal16(F32ToF16Bits(b))
    ensures Mag16(F32ToF16Bits(b)) <= Mag32(b)
    ensures (Mag32(b) - Mag16(F32ToF16Bits(b))) * 1024.0 < Mag32(b)
  {
    hide F32ToF16Bits, E32, E16, M32, M16, Pow2, Times, Magnitude32, Magnitude16;
    FieldsOf(b);
    RangeIff(E32(b), M32(b));
    DropError(E32(b), M32(b));
  }

  /**
   The independent reference: in range the result is the greatest binary16
   magnitude that does not exceed the input.
   */
  lemma GreatestNotAbove(b: bv32, h: bv16)
    requires IsFinite32(b) && Pow2(-14) <= Mag32(b) < Pow2(16)
    requires IsFinite16(h) && Mag16(h) <= Mag32(b)
    ensures Mag16(h) <= Mag16(F32ToF16Bits(b))
  {
    hide F32ToF16Bits, E32, E16, M32, M16, Pow2, Times, Magnitude32, Magnitude16;
    FieldsOf(b);
    RangeIff(E32(b), M32(b));
    NothingBetween(E32(b), M32(b), E16(h), M16(h));
  }

  // ----- monotone -----

  datatype Extended = NegInf | Finite(value: real) | PosInf

  predicate Leq(x: Extended, y: Extended) {
    x.NegInf? || y.PosInf? || (x.Finite? && y.Finite? && x.value <= y.value)
  }

  function Decode32(b: bv32): Extended
    requires !IsNan32(b)
  {
    if IsFinite32(b) then Finite(Value32(b)) else if S32(b) == 1 then NegInf else PosInf
  }

  function Decode16(h: bv16): Extended
    requires !IsNan16(h)
  {
    if IsFinite16(h) then Finite(Value16(h)) else if S16(h) == 1 then NegInf else PosInf
  }

  lemma MagnitudesArePositive(b: bv32, h: bv16)
    ensures IsFinite32(b) ==> 0.0 <= Mag32(b)
    ensures IsFinite16(h) ==> 0.0 <= Mag16(h)
  {
    hide E32, E16, M32, M16, Pow2, Times, Magnitude32, Magnitude16;
    if IsFinite32(b) {
      Binade32(E32(b), M32(b));
    }
    if IsFinite16(h) {
      Binade16(E16(h), M16(h));
    }
  }

  /** A larger magnitude never gets a smaller code. */
  lemma MagnitudesKeepOrder(a: bv32, b: bv32)
    requires IsFinite32(a) && IsFinite32(b) && Mag32(a) <= Mag32(b) && IsFinite16(F32ToF16Bits(b))
    ensures IsFinite16(F32ToF16Bits(a)) && Mag16(F32ToF16Bits(a)) <= Mag16(F32ToF16Bits(b))
  {
    hide F32ToF16Bits, E32, E16, M32, M16, Pow2, Times, Mag32, Mag16;
    OutOfRange(a);
    OutOfRange(b);
    SpecialsAreKept(a);
    SpecialsAreKept(b);
    if Mag32(a) < Pow2(-14) {
      MagnitudesArePositive(b, F32ToF16Bits(b));
    } else {
      TruncatesInRange(a);
      GreatestNotAbove(b, F32ToF16Bits(a));
    }
  }

  /** The encoding is monotone over everything but not-a-numbers, infinities included. */
  lemma EncodingIsMonotone(a: bv32, b: bv32)
    requires !IsNan32(a) && !IsNan32(b) && Leq(Decode32(a), Decode32(b))
    ensures !IsNan16(F32ToF16Bits(a)) && !IsNan16(F32ToF16Bits(b))
    ensures Leq(Decode16(F32ToF16Bits(a)), Decode16(F32ToF16Bits(b)))
  {
    hide F32ToF16Bits, S32, S16, E32, E16, M32, M16, Mag32, Mag16;
    SpecialsAreKept(a);
    SpecialsAreKept(b);
    SignIsKept(a);
    SignIsKept(b);
    if IsFinite32(a) && IsFinite32(b) {
      FiniteIsMonotone(a, b);
    }
  }

  lemma FiniteIsMonotone(a: bv32, b: bv32)
    requires IsFinite32(a) && IsFinite32(b) && Value32(a) <= Value32(b)
    requires !IsNan16(F32ToF16Bits(a)) && !IsNan16(F32ToF16Bits(b))
    ensures Leq(Decode16(F32ToF16Bits(a)), Decode16(F32ToF16Bits(b)))
  {
    hide F32ToF16Bits, S32, S16, E32, E16, M32, M16, Mag32, Mag16, Pow2;
    var v, w := F32ToF16Bits(a), F32ToF16Bits(b);
    SignIsKept(a);
    SignIsKept(b);
    MagnitudesArePositive(a, v);
    MagnitudesArePositive(b, w);
    if S32(a) == 0 && S32(b) == 0 {
      if IsFinite16(w) { MagnitudesKeepOrder(a, b); }
    } else if S32(a) == 1 && S32(b) == 1 {
      if IsFinite16(v) { MagnitudesKeepOrder(b, a); }
    } else if S32(a) == 0 {
      OutOfRange(a);
      OutOfRange(b);
    }
  }

  // ----- exact on what binary16 can say -----

  /** A binary32 value that some normal binary16 pattern denotes encodes to that very pattern. */
  lemma ExactOnNormals(b: bv32, h: bv16)
    requires IsFinite32(b) && IsNormal16(h) && Value32(b) == Value16(h)
    ensures F32ToF16Bits(b) == h
  {
    hide F32ToF16Bits, S32, S16, E32, E16, M32, M16, Pow2, Times, Magnitude32, Magnitude16;
    var w := F32ToF16Bits(b);
    MagnitudesArePositive(b, h);
    NormalRange(h);
    assert Mag32(b) == Mag16(h) && S32(b) == S16(h);
    TruncatesInRange(b);
    GreatestNotAbove(b, h);
    FieldsAreUnique(E16(h), M16(h), E16(w), M16(w));
    SignIsKept(b);
    SamePattern(h, w);
  }

  /** Every binary16 normal is the encoding of the binary32 pattern with its value. */
  lemma NormalsRoundTrip(h: bv16)
    requires IsNormal16(h)
    ensures IsFinite32(Widen(h)) && Value32(Widen(h)) == Value16(h)
    ensures F32ToF16Bits(Widen(h)) == h
  {
    hide F32ToF16Bits, Widen, S32, S16, E32, E16, M32, M16, Pow2, Times;
    var b := Widen(h);
    WidenFields(h);
    var u := LastPlaces(E32(b), M32(b), M16(h));
    assert Mag32(b) == Mag16(h);
    ExactOnNormals(b, h);
  }

  lemma NormalRange(h: bv16)
    requires IsNormal16(h)
    ensures 0.0 < Pow2(-14) <= Mag16(h) < Pow2(16)
  {
    hide E16, M16, Pow2, Times, Magnitude16;
    var e := E16(h);
    Binade16(e, M16(h));
    Pow2Grows(-14, e - 15);
    Pow2Grows(e - 14, 16);
  }

  // ----- unit vectors -----

  /** Components in [-1, 1] are off by less than 2^-11. */
  lemma UnitError(b: bv32)
    requires IsFinite32(b) && -1.0 <= Value32(b) <= 1.0
    ensures IsFinite16(F32ToF16Bits(b))
    ensures -1.0 / 2048.0 < Value16(F32ToF16Bits(b)) - Value32(b) < 1.0 / 2048.0
  {
    hide F32ToF16Bits, S32, S16, E32, E16, M32, M16, Pow2, Times, Mag32, Mag16;
    SignIsKept(b);
    UnitMagnitude(b);
  }

  lemma UnitMagnitude(b: bv32)
    requires IsFinite32(b) && Mag32(b) <= 1.0
    ensures IsFinite16(F32ToF16Bits(b))
    ensures 0.0 <= Mag32(b) - Mag16(F32ToF16Bits(b)) < 1.0 / 2048.0
  {
    hide F32ToF16Bits, E32, E16, M32, M16, Pow2, Times, Magnitude32, Magnitude16;
    var e, m := E32(b), M32(b);
    FieldsOf(b);
    MagnitudesArePositive(b, 0);
    SmallPowers();
    RangeIff(e, m);
    UnitExponent(e, m);
    if 113 <= e <= 126 {
      DropError(e, m);
    } else if e <= 112 {
      OutOfRange(b);
    }
  }

  lemma UnitPowers()
    ensures Pow2(-23) == 1.0 / 8388608.0 && Times(8388608.0, Pow2(-23)) == 1.0
    ensures Times(1024.0, Pow2(-10)) == 1.0
  {
    SmallPowers();
    Pow2Ten(-10);
  }

  /** At most one means an exponent below one's, or one itself. */
  lemma UnitExponent(e: int, m: int)
    requires Fields32(e, m) && Magnitude32(e, m) <= 1.0
    ensures e <= 126 || (e == 127 && m == 0 && Magnitude32(e, m) == 1.0 == Magnitude16(15, 0))
  {
    hide Pow2;
    SmallPowers();
    UnitPowers();
    if e >= 128 {
      Binade32(e, m);
      Pow2Grows(1, e - 127);
      assert false;
    } else if e == 127 {
      Scale(8388608.0, (FRACTION32 + m) as real, Pow2(-23));
      if m > 0 {
        assert false;
      }
    }
  }

  // ----- packing -----

  function Low8(h: bv16): bv8 { (h & 0xff) as bv8 }
  function High8(h: bv16): bv8 { (h >> 8) as bv8 }

  function Word16(lo: bv8, hi: bv8): bv16 { (hi as bv16 << 8) | lo as bv16 }

  function Word32(b0: bv8, b1: bv8, b2: bv8, b3: bv8): bv32 {
    (b3 as bv32 << 24) | (b2 as bv32 << 16) | (b1 as bv32 << 8) | b0 as bv32
  }

  function Bytes32(w: bv32): seq<bv8> {
    [(w & 0xff) as bv8, ((w >> 8) & 0xff) as bv8, ((w >> 16) & 0xff) as bv8, (w >> 24) as bv8]
  }

  /** What a little-endian reader of 16-bit codes sees. */
  function Unpack16(out: seq<bv8>): (r: seq<bv16>)
    ensures |r| == |out| / 2
  {
    seq(|out| / 2, k requires 0 <= k < |out| / 2 => Word16(out[2 * k], out[2 * k + 1]))
  }

  function Unpack32(out: seq<bv8>): (r: seq<bv32>)
    ensures |r| == |out| / 4
  {
    seq(|out| / 4, k requires 0 <= k < |out| / 4 => Word32(out[4 * k], out[4 * k + 1], out[4 * k + 2], out[4 * k + 3]))
  }

  /** Little endian: the first byte of a code is its low one. */
  lemma LittleEndian16(lo: bv8, hi: bv8)
    ensures Word16(lo, hi) as int == lo as int + 0x100 * hi as int
  {
    var q, l := hi as bv16, lo as bv16;
    WidenByte(hi);
    WidenByte(lo);
    JoinedBytes((q << 8) | l, q, l);
  }

  lemma WidenByte(b: bv8)
    ensures (b as bv16) as int == b as int && b as bv16 < 0x100
  {
  }

  lemma JoinedBytes(w: bv16, q: bv16, l: bv16)
    requires q < 0x100 && l < 0x100 && w == (q << 8) | l
    ensures w as int == l as int + 0x100 * q as int
  {
  }

  lemma LittleEndian32(b0: bv8, b1: bv8, b2: bv8, b3: bv8)
    ensures var w := Word32(b0, b1, b2, b3);
            && w & 0xff == b0 as bv32 && (w >> 8) & 0xff == b1 as bv32
            && (w >> 16) & 0xff == b2 as bv32 && w >> 24 == b3 as bv32
  {
  }

  lemma Unpack16Push(out: seq<bv8>, h: bv16)
    requires |out| % 2 == 0
    ensures Unpack16(out + [Low8(h), High8(h)]) == Unpack16(out) + [h]
  {
    assert Word16(Low8(h), High8(h)) == h;
  }

  lemma Unpack32Push(out: seq<bv8>, w: bv32)
    requires |out| % 4 == 0
    ensures Unpack32(out + Bytes32(w)) == Unpack32(out) + [w]
  {
    var b := Bytes32(w);
    assert Word32(b[0], b[1], b[2], b[3]) == w;
  }

  /**
   The payload bytes of an embedding. A reader gets back exactly the codes of the
   components, in order: their 16-bit encodings, or the binary32 patterns themselves.
   */
  method PackEmbedding(embedding: seq<bv32>, useF16: bool) returns (out: seq<bv8>)
    ensures useF16 ==> |out| == 2 * |embedding| && |Unpack16(out)| == |embedding|
    ensures useF16 ==> forall k :: 0 <= k < |embedding| ==> Unpack16(out)[k] == F32ToF16Bits(embedding[k])
    ensures !useF16 ==> |out| == 4 * |embedding| && Unpack32(out) == embedding
  {
    out := [];
    var k := 0;
    while k < |embedding|
      invariant 0 <= k <= |embedding|
      invariant useF16 ==> |out| == 2 * k && forall j :: 0 <= j < k ==> Unpack16(out)[j] == F32ToF16Bits(embedding[j])
      invariant !useF16 ==> |out| == 4 * k && Unpack32(out) == embedding[..k]
    {
      if useF16 {
        var h := F32ToF16Bits(embedding[k]);
        Unpack16Push(out, h);
        out := out + [Low8(h), High8(h)];
      } else {
        Unpack32Push(out, embedding[k]);
        out := out + Bytes32(embedding[k]);
      }
      k := k + 1;
    }
  }

  /** What the receiver of a packed unit vector reads is within 2^-11 of every component. */
  lemma UnitVectorsSurvive(embedding: seq<bv32>, out: seq<bv8>)
    requires forall k :: 0 <= k < |embedding| ==> IsFinite32(embedding[k]) && -1.0 <= Value32(embedding[k]) <= 1.0
    requires |out| == 2 * |embedding|
    requires forall k :: 0 <= k < |embedding| ==> Unpack16(out)[k] == F32ToF16Bits(embedding[k])
    ensures forall k :: 0 <= k < |embedding| ==>
      IsFinite16(Unpack16(out)[k]) && -1.0 / 2048.0 < Value16(Unpack16(out)[k]) - Value32(embedding[k]) < 1.0 / 2048.0
  {
    forall k | 0 <= k < |embedding|
      ensures IsFinite16(Unpack16(out)[k])
      ensures -1.0 / 2048.0 < Value16(Unpack16(out)[k]) - Value32(embedding[k]) < 1.0 / 2048.0
    {
      UnitError(embedding[k]);
    }
  }
}
