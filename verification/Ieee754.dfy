/** Binary interchange formats (section 3.4 of IEEE 754-2019) and the rounding of integers to
    them (roundTiesToEven, section 4.3.1). */
module Ieee754 {
  import opened Bits

  datatype Layout = Layout(mantissaBits: nat, bias: nat, storageBits: nat)

  /** A sign, exponent bits, mantissa bits; `bias >= 127` admits every integer of 128 bits. */
  type Format = f: Layout |
    0 < f.mantissaBits && f.mantissaBits + 1 < f.storageBits <= 128 && f.bias >= 127
    witness Layout(23, 127, 32)

  const BINARY32: Format := Layout(23, 127, 32)
  const BINARY64: Format := Layout(52, 1023, 64)

  /** With k exponent bits the bias is 2^(k - 1) - 1. */
  predicate Interchange(f: Format)
  {
    Pow2(f.storageBits - 1 - f.mantissaBits) == ExponentMax(f) + 1
  }

  lemma {:induction false} InterchangeFormats()
    ensures Interchange(BINARY32) && Interchange(BINARY64)
  {
    assert Pow2(8) == 256 && Pow2(11) == 2048;
  }

  function ExponentMax(f: Format): nat { 2 * f.bias + 1 }

  predicate Negative(f: Format, bits: nat) { Shr(bits, f.storageBits - 1) % 2 == 1 }

  /** A bit pattern without its sign, and the two fields of what remains. */
  function Magnitude(f: Format, bits: nat): nat { Low(bits, f.storageBits - 1) }
  function Exponent(f: Format, mag: nat): nat { Shr(mag, f.mantissaBits) }
  function Fraction(f: Format, mag: nat): nat { Low(mag, f.mantissaBits) }

  function Infinity(f: Format): nat { Shl(ExponentMax(f), f.mantissaBits) }
  predicate Finite(f: Format, mag: nat) { mag < Infinity(f) }
  predicate IsNaN(f: Format, bits: nat) { Magnitude(f, bits) > Infinity(f) }

  /** The value of a magnitude in units of the smallest subnormal, 2^(1 - bias - mantissa bits).
      The infinite pattern reads as the power of two just past the finite range. */
  function Scaled(f: Format, mag: nat): nat
  {
    var e := Exponent(f, mag);
    if e == 0 then Fraction(f, mag) else Shl(Pow2(f.mantissaBits) + Fraction(f, mag), e - 1)
  }

  function SignedScaled(f: Format, bits: nat): int
  {
    var n: int := Scaled(f, Magnitude(f, bits));
    if Negative(f, bits) then -n else n
  }

  /** One is 2^UnitBits in the units of `Scaled`. */
  function UnitBits(f: Format): nat { f.mantissaBits + f.bias - 1 }

  function Log2(m: nat): (e: nat)
    requires m > 0
    ensures Pow2(e) <= m < Pow2(e + 1)
  {
    if m == 1 then 0 else 1 + Log2(m / 2)
  }

  // ---- rounding ----

  /** The leading mantissa bits + 1 bits of m, the first of them set. */
  function Significand(f: Format, m: nat): (q: nat)
    requires m > 0
    ensures Pow2(f.mantissaBits) <= q < 2 * Pow2(f.mantissaBits)
  {
    var e, k := Log2(m), f.mantissaBits;
    if e <= k then
      Aligned(m, Pow2(e), k - e);
      ShlPow2(e, k - e);
      Shl(m, k - e)
    else
      Split(m, e - k);
      ShlPow2(k, e - k);
      ShlPow2(k + 1, e - k);
      ShlLess(Shr(m, e - k), Pow2(k), e - k);
      ShlLess(Shr(m, e - k), Pow2(k + 1), e - k);
      ShlNext(Shr(m, e - k), Pow2(k), e - k);
      Shr(m, e - k)
  }

  lemma {:induction false} Aligned(m: nat, p: nat, k: nat)
    requires p <= m < 2 * p
    ensures Shl(p, k) <= Shl(m, k) < 2 * Shl(p, k)
  {
    ShlLess(m, p, k);
    ShlLess(m, 2 * p, k);
    ShlDouble(p, k);
  }

  lemma {:induction false} ShlNext(a: nat, b: nat, k: nat)
    ensures a < b ==> Shl(a, k) + Pow2(k) <= Shl(b, k)
  {
    if a < b {
      ShlAdd(a, 1, k);
      ShlOne(k);
      ShlLess(b, a + 1, k);
    }
  }

  /** Whether the s bits dropped from m carry its kept part up. */
  predicate RoundsUp(m: nat, s: nat)
    requires s > 0
  {
    Low(m, s) > Pow2(s - 1) || (Low(m, s) == Pow2(s - 1) && Shr(m, s) % 2 == 1)
  }

  /** The pattern just below or at m: the kept significand under its biased exponent. */
  function RoundedDown(f: Format, m: nat): nat
    requires m > 0
  {
    Shl(Log2(m) + f.bias - 1, f.mantissaBits) + Significand(f, m)
  }

  /** Integer arithmetic for rounding to nearest, ties to even: a carry out of the significand
      moves into the exponent. */
  function Round(f: Format, m: nat): nat
  {
    if m == 0 then 0
    else if Log2(m) <= f.mantissaBits then RoundedDown(f, m)
    else RoundedDown(f, m) + Bit(RoundsUp(m, Log2(m) - f.mantissaBits))
  }

  function RoundSigned(f: Format, i: int): nat
  {
    if i < 0 then Pow2(f.storageBits - 1) + Round(f, -i) else Round(f, i)
  }

  // ---- the order of bit patterns ----

  function UnitInLastPlace(f: Format, mag: nat): nat
  {
    if Exponent(f, mag) == 0 then 1 else Pow2(Exponent(f, mag) - 1)
  }

  /** Between a pattern and the next lies one unit in the last place, also across binades. */
  lemma {:induction false} ScaledNext(f: Format, mag: nat)
    ensures Scaled(f, mag + 1) == Scaled(f, mag) + UnitInLastPlace(f, mag)
  {
    var k, e, t := f.mantissaBits, Exponent(f, mag), Fraction(f, mag);
    Split(mag, k);
    if t + 1 < Pow2(k) {
      SplitUnique(mag + 1, k, e, t + 1);
      if e > 0 { ShlAdd(Pow2(k) + t, 1, e - 1); ShlOne(e - 1); }
    } else {
      ShlAdd(e, 1, k);
      ShlOne(k);
      SplitUnique(mag + 1, k, e + 1, 0);
      if e > 0 {
        ShlDouble(Pow2(k), e - 1);
        ShlAdd(Pow2(k) + t, 1, e - 1);
        ShlOne(e - 1);
      }
    }
  }

  lemma {:induction false} ScaledIncreasing(f: Format, a: nat, b: nat)
    requires a < b
    ensures Scaled(f, a) < Scaled(f, b)
    decreases b - a
  {
    ScaledNext(f, b - 1);
    if a < b - 1 { ScaledIncreasing(f, a, b - 1); }
  }

  /** A normal pattern is its significand times the weight of its exponent. */
  lemma {:induction false} ScaledNormal(f: Format, e: nat, q: nat)
    requires e > 0 && Pow2(f.mantissaBits) <= q < 2 * Pow2(f.mantissaBits)
    ensures Exponent(f, Shl(e - 1, f.mantissaBits) + q) == e
    ensures Scaled(f, Shl(e - 1, f.mantissaBits) + q) == Shl(q, e - 1)
  {
    var k := f.mantissaBits;
    ShlAdd(e - 1, 1, k);
    ShlOne(k);
    SplitUnique(Shl(e - 1, k) + q, k, e, q - Pow2(k));
  }

  // ---- roundTiesToEven ----

  function Distance(f: Format, m: nat, mag: nat): nat
  {
    var a, b := Shl(m, UnitBits(f)), Scaled(f, mag);
    if a <= b then b - a else a - b
  }

  /** Section 4.3.1: from the midpoint between the largest finite number and the next power of two
      on, the result is infinite. */
  predicate Overflows(f: Format, m: nat)
    requires Infinity(f) > 0
  {
    2 * Shl(m, UnitBits(f)) >= Scaled(f, Infinity(f) - 1) + Scaled(f, Infinity(f))
  }

  /** Section 4.3.1: a result that does not overflow is a nearest finite number, and the even one
      if two are equally near. */
  ghost predicate NearestEven(f: Format, m: nat, mag: nat)
  {
    && Infinity(f) > 0
    && if Overflows(f, m) then mag == Infinity(f)
       else
         && Finite(f, mag)
         && (forall z: nat :: Finite(f, z) ==> Distance(f, m, mag) <= Distance(f, m, z))
         && (forall z: nat :: Finite(f, z) && z != mag && Distance(f, m, z) == Distance(f, m, mag) ==> mag % 2 == 0)
  }

  /** The standard admits exactly one result. */
  lemma {:induction false} NearestEvenUnique(f: Format, m: nat, x: nat, y: nat)
    requires NearestEven(f, m, x) && NearestEven(f, m, y)
    ensures x == y
  {
    if x < y { NearestEvenOrdered(f, m, x, y); } else if y < x { NearestEvenOrdered(f, m, y, x); }
  }

  lemma {:induction false} NearestEvenOrdered(f: Format, m: nat, x: nat, y: nat)
    requires x < y
    ensures !NearestEven(f, m, x) || !NearestEven(f, m, y)
  {
    if Finite(f, x) && Finite(f, y) && x + 1 < y {
      ScaledIncreasing(f, x, x + 1);
      ScaledIncreasing(f, x + 1, y);
      assert Finite(f, x + 1);
    }
  }

  /** How an integer sits between the pattern below it and the next one. */
  lemma {:induction false} Bracket(f: Format, m: nat)
    requires m > 0
    ensures Log2(m) <= f.mantissaBits ==> Scaled(f, RoundedDown(f, m)) == Shl(m, UnitBits(f))
    ensures Log2(m) > f.mantissaBits ==>
      var s := Log2(m) - f.mantissaBits;
      && Scaled(f, RoundedDown(f, m)) + Shl(Low(m, s), UnitBits(f)) == Shl(m, UnitBits(f))
      && Scaled(f, RoundedDown(f, m) + 1) == Shl(m, UnitBits(f)) + Shl(Pow2(s) - Low(m, s), UnitBits(f))
  {
    var e, k, b, q, u := Log2(m), f.mantissaBits, f.bias, Significand(f, m), UnitBits(f);
    ScaledNormal(f, e + b, q);
    if e <= k {
      ShlShl(m, k - e, e + b - 1);
    } else {
      var s := e - k;
      ScaledNext(f, RoundedDown(f, m));
      Split(m, s);
      ShlShl(q, s, u);
      ShlAdd(Shl(q, s), Low(m, s), u);
      ShlPow2(s, u);
      ShlAdd(Pow2(s) - Low(m, s), Low(m, s), u);
    }
  }

  /** The rounded pattern of every integer in the format's range is the one the standard asks for. */
  lemma {:induction false} RoundIsNearestEven(f: Format, m: nat)
    requires m < Pow2(f.bias + 1)
    ensures NearestEven(f, m, Round(f, m))
    ensures Round(f, m) <= Infinity(f)
  {
    InfinityIsEven(f);
    if m == 0 {
      ShlOne(UnitBits(f));
      LowSmall(0, f.mantissaBits);
      ExactIsNearest(f, 0, 0);
    } else {
      if Log2(m) > f.bias { Pow2Monotone(f.bias + 1, Log2(m)); }
      BelowInfinity(f, m);
      Bracket(f, m);
      if Log2(m) <= f.mantissaBits {
        ExactIsNearest(f, m, RoundedDown(f, m));
      } else {
        RoundInBracket(f, m, Log2(m) - f.mantissaBits);
      }
    }
  }

  lemma {:induction false} InfinityIsEven(f: Format)
    ensures Infinity(f) > 0 && Infinity(f) % 2 == 0
  {
    ShlAtLeast(ExponentMax(f), f.mantissaBits);
  }

  lemma {:induction false} BelowInfinity(f: Format, m: nat)
    requires m > 0 && Log2(m) <= f.bias
    ensures RoundedDown(f, m) < Infinity(f)
    ensures RoundedDown(f, m) % 2 == Significand(f, m) % 2
  {
    var k, e := f.mantissaBits, Log2(m) + f.bias - 1;
    ShlLess(ExponentMax(f), e + 2, k);
    ShlAdd(e, 2, k);
    ShlOne(k);
    ShlDouble(1, k);
  }

  lemma {:induction false} ExactIsNearest(f: Format, m: nat, mag: nat)
    requires Finite(f, mag) && Scaled(f, mag) == Shl(m, UnitBits(f))
    ensures NearestEven(f, m, mag)
  {
    var top: nat := Infinity(f) - 1;
    if mag < top { ScaledIncreasing(f, mag, top); }
    ScaledIncreasing(f, top, top + 1);
    forall z: nat | Finite(f, z) && z != mag ensures Distance(f, m, z) > 0 {
      if z < mag { ScaledIncreasing(f, z, mag); } else { ScaledIncreasing(f, mag, z); }
    }
  }

  /** Rounding picks the nearer end of the bracket, and the even end from its middle. */
  lemma {:induction false} RoundInBracket(f: Format, m: nat, s: nat)
    requires m > 0 && s > 0 && s == Log2(m) - f.mantissaBits
    requires RoundedDown(f, m) < Infinity(f) && RoundedDown(f, m) % 2 == Significand(f, m) % 2
    requires Scaled(f, RoundedDown(f, m)) + Shl(Low(m, s), UnitBits(f)) == Shl(m, UnitBits(f))
    requires Scaled(f, RoundedDown(f, m) + 1) == Shl(m, UnitBits(f)) + Shl(Pow2(s) - Low(m, s), UnitBits(f))
    ensures NearestEven(f, m, Round(f, m))
    ensures Round(f, m) <= Infinity(f)
  {
    var lo, u, r := RoundedDown(f, m), UnitBits(f), Low(m, s);
    var below, above := Shl(r, u), Shl(Pow2(s) - r, u);
    ShlLess(r, Pow2(s) - r, u);
    ShlLess(Pow2(s) - r, r, u);
    ShlLess(0, Pow2(s) - r, u);
    InfinityIsEven(f);
    assert Round(f, m) == lo + Bit(below > above || (below == above && lo % 2 == 1));
    NearerEnd(f, m, lo, below, above);
  }

  lemma {:induction false} NearerEnd(f: Format, m: nat, lo: nat, below: nat, above: nat)
    requires lo < Infinity(f) && Infinity(f) % 2 == 0 && above > 0
    requires Scaled(f, lo) + below == Shl(m, UnitBits(f))
    requires Scaled(f, lo + 1) == Shl(m, UnitBits(f)) + above
    ensures NearestEven(f, m, lo + Bit(below > above || (below == above && lo % 2 == 1)))
  {
    OverflowsInTopBracket(f, m, lo, below, above);
    if !Overflows(f, m) {
      forall z: nat | Finite(f, z) ensures DistanceFrom(f, m, z, lo, below, above) {
        OutsideBracket(f, m, lo, below, above, z);
      }
    }
  }

  lemma {:induction false} OverflowsInTopBracket(f: Format, m: nat, lo: nat, below: nat, above: nat)
    requires lo < Infinity(f) && above > 0
    requires Scaled(f, lo) + below == Shl(m, UnitBits(f))
    requires Scaled(f, lo + 1) == Shl(m, UnitBits(f)) + above
    ensures Overflows(f, m) <==> lo == Infinity(f) - 1 && below >= above
  {
    var top: nat := Infinity(f) - 1;
    if lo < top { ScaledIncreasing(f, top, top + 1); }
    if lo + 1 < top { ScaledIncreasing(f, lo + 1, top); }
  }

  ghost predicate DistanceFrom(f: Format, m: nat, z: nat, lo: nat, below: nat, above: nat)
  {
    && (z == lo ==> Distance(f, m, z) == below)
    && (z == lo + 1 ==> Distance(f, m, z) == above)
    && (z < lo ==> Distance(f, m, z) > below)
    && (z > lo + 1 ==> Distance(f, m, z) > above)
  }

  lemma {:induction false} OutsideBracket(f: Format, m: nat, lo: nat, below: nat, above: nat, z: nat)
    requires Scaled(f, lo) + below == Shl(m, UnitBits(f))
    requires Scaled(f, lo + 1) == Shl(m, UnitBits(f)) + above
    ensures DistanceFrom(f, m, z, lo, below, above)
  {
    if z < lo { ScaledIncreasing(f, z, lo); } else if z > lo + 1 { ScaledIncreasing(f, lo + 1, z); }
  }

  // ---- integers out of floats ----

  /** Truncation toward zero (roundTowardZero, section 5.8) of a finite bit pattern. */
  function Truncate(f: Format, bits: nat): int
  {
    var n: int := Shr(Scaled(f, Magnitude(f, bits)), UnitBits(f));
    if Negative(f, bits) then -n else n
  }

  predicate InRange(signed: bool, w: nat, i: int)
  {
    if signed then w > 0 && -(Pow2(w - 1) as int) <= i < Pow2(w - 1) else 0 <= i < Pow2(w)
  }

  predicate Truncatable(f: Format, bits: nat, signed: bool, w: nat)
  {
    Finite(f, Magnitude(f, bits)) && InRange(signed, w, Truncate(f, bits))
  }
}
