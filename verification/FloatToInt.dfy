/** Checked conversion of floats to integers: a float range guard, then bit extraction when the
    destination has 128 bits. */
module FloatToInt {
  import opened Bits
  import opened Ieee754
  import opened Ssa
  import opened IntToFloat

  // ---- the range guard ----

  function WithSign(f: Format, negative: bool, mag: nat): nat
  {
    if negative then Pow2(f.storageBits - 1) + mag else mag
  }

  /** The pattern of a power of two, or of infinity past the format's range. */
  function PowerBits(f: Format, exponent: nat, negative: bool): nat
  {
    WithSign(f, negative, if exponent <= f.bias then Shl(exponent + f.bias, f.mantissaBits) else Infinity(f))
  }

  datatype Bound = Bound(bits: nat, inclusive: bool)

  function LowerBound(f: Format, signed: bool, w: nat): Bound
    requires w > 0
  {
    if !signed then Bound(WithSign(f, true, Round(f, 1)), false)
    else if w <= f.mantissaBits + 1 then Bound(WithSign(f, true, Round(f, Pow2(w - 1) + 1)), false)
    else Bound(PowerBits(f, w - 1, true), true)
  }

  function UpperBound(f: Format, signed: bool, w: nat): nat
    requires w > 0
  {
    PowerBits(f, if signed then w - 1 else w, false)
  }

  function EmitRangeTest(f: Format, signed: bool, w: nat): Expr
    requires w > 0
  {
    var lower := LowerBound(f, signed, w);
    var lowerOk := Un(Float(FCmp(if lower.inclusive then Oge else Ogt, f, lower.bits)), Arg(0));
    var upperOk := Un(Float(FCmp(Olt, f, UpperBound(f, signed, w))), Arg(0));
    var rangeOk := Bin(And, 1, lowerOk, upperOk);
    Bin(Xor, 1, rangeOk, Lit(1))
  }

  // ---- patterns and their values ----

  lemma {:induction false} SignedPattern(f: Format, negative: bool, mag: nat)
    requires mag < Pow2(f.storageBits - 1)
    ensures var bits := WithSign(f, negative, mag);
      && Magnitude(f, bits) == mag && Negative(f, bits) == negative
      && SignedScaled(f, bits) == (if negative then -(Scaled(f, mag) as int) else Scaled(f, mag))
  {
    var k := f.storageBits - 1;
    ShlOne(k);
    SplitUnique(WithSign(f, negative, mag), k, Bit(negative), mag);
  }

  /** Every pattern that fits its storage is a sign and a magnitude. */
  lemma {:induction false} PatternSplit(f: Format, bits: nat)
    requires bits < Pow2(f.storageBits)
    ensures bits == WithSign(f, Negative(f, bits), Magnitude(f, bits)) && Magnitude(f, bits) < Pow2(f.storageBits - 1)
  {
    var k := f.storageBits - 1;
    Split(bits, k);
    ShrFits(bits, k + 1, k);
    assert Pow2(k + 1) == 2 * Pow2(k);
    ShlOne(k);
  }

  /** The pattern of 2^exponent means 2^exponent; so does the infinite one, for one past the range. */
  lemma {:induction false} PowerPattern(f: Format, exponent: nat)
    requires Interchange(f) && exponent <= f.bias + 1
    ensures var mag := PowerBits(f, exponent, false);
      && mag < Pow2(f.storageBits - 1) && mag <= Infinity(f)
      && Scaled(f, mag) == Pow2(exponent + UnitBits(f))
      && UnitInLastPlace(f, mag) == Pow2(exponent + f.bias - 1)
  {
    var k, e := f.mantissaBits, exponent + f.bias;
    ExponentFieldFits(f, f.storageBits, e);
    ShlLess(ExponentMax(f), e, k);
    assert PowerBits(f, exponent, false) == Shl(e, k);
    SplitUnique(Shl(e, k), k, e, 0);
    ShlPow2(k, e - 1);
  }

  lemma {:induction false} IntegerPattern(f: Format, m: nat)
    requires Interchange(f) && 0 < m && Log2(m) <= f.mantissaBits && Log2(m) <= f.bias
    ensures Round(f, m) < Pow2(f.storageBits - 1) && Round(f, m) <= Infinity(f)
    ensures Scaled(f, Round(f, m)) == Shl(m, UnitBits(f))
  {
    Bracket(f, m);
    BelowInfinity(f, m);
    ExponentFieldFits(f, f.storageBits, ExponentMax(f));
  }

  // ---- comparing a float with an integer is comparing its truncation ----

  /** Dropping the bits below the unit: less than b units means a truncation below b. */
  lemma {:induction false} TruncationBelow(x: nat, b: nat, u: nat)
    ensures Shr(x, u) < b <==> x < Shl(b, u)
  {
    Split(x, u);
    var q := Shr(x, u);
    ShlLess(q, b, u);
    if q < b {
      ShlAdd(q, 1, u);
      ShlOne(u);
      ShlLess(b, q + 1, u);
    }
  }

  /** From 2^precision on, no float lies strictly between an integer power of two and its successor. */
  lemma {:induction false} NoFloatJustAbove(f: Format, mag: nat, exponent: nat)
    requires Interchange(f) && f.mantissaBits < exponent <= f.bias
    ensures Scaled(f, mag) <= Pow2(exponent + UnitBits(f)) <==> Scaled(f, mag) < Shl(Pow2(exponent) + 1, UnitBits(f))
  {
    var p, u := PowerBits(f, exponent, false), UnitBits(f);
    PowerPattern(f, exponent);
    ShlAdd(Pow2(exponent), 1, u);
    ShlPow2(exponent, u);
    ShlOne(u);
    ScaledNext(f, p);
    Pow2Monotone(u, exponent + f.bias - 1);
    if mag < p { ScaledIncreasing(f, mag, p); }
    if mag > p + 1 { ScaledIncreasing(f, p + 1, mag); }
  }

  lemma {:induction false} InfinityScaled(f: Format, mag: nat)
    requires Interchange(f)
    ensures mag >= Infinity(f) ==> Scaled(f, mag) >= Pow2(f.bias + 1 + UnitBits(f))
  {
    PowerPattern(f, f.bias + 1);
    if mag > Infinity(f) { ScaledIncreasing(f, Infinity(f), mag); }
  }

  // ---- the guard is exact ----

  /** Widths for which the bounds are patterns of the format. */
  predicate Convertible(f: Format, w: nat) { Interchange(f) && 2 <= w <= f.bias + 1 }

  /** `x` passes the lower test of the guard. */
  predicate AboveLower(f: Format, b: Bound, bits: nat)
  {
    var x, c := SignedScaled(f, bits), SignedScaled(f, b.bits);
    x > c || (b.inclusive && x == c)
  }

  /** `x > -1.0`, `x > -(2^(w-1) + 1)` or `x >= -2^(w-1)`: the truncation is not below the range. */
  lemma {:induction false} LowerExact(f: Format, signed: bool, w: nat, bits: nat)
    requires Convertible(f, w) && bits < Pow2(f.storageBits)
    ensures !IsNaN(f, LowerBound(f, signed, w).bits)
    ensures AboveLower(f, LowerBound(f, signed, w), bits)
       <==> Truncate(f, bits) >= if signed then -(Pow2(w - 1) as int) else 0
  {
    if !signed {
      assert Log2(1) == 0;
      LowerInteger(f, bits, 1);
    } else if w <= f.mantissaBits + 1 {
      PowerPlusOneLog(w - 1);
      LowerInteger(f, bits, Pow2(w - 1) + 1);
    } else {
      LowerPower(f, bits, w - 1);
    }
  }

  /** A bound just outside the range, tested strictly. */
  lemma {:induction false} LowerInteger(f: Format, bits: nat, m: nat)
    requires Interchange(f) && 0 < m && Log2(m) <= f.mantissaBits && Log2(m) <= f.bias
    ensures var b := Bound(WithSign(f, true, Round(f, m)), false);
      !IsNaN(f, b.bits) && (AboveLower(f, b, bits) <==> Truncate(f, bits) + m > 0)
  {
    IntegerPattern(f, m);
    SignedPattern(f, true, Round(f, m));
    TruncationBelow(Scaled(f, Magnitude(f, bits)), m, UnitBits(f));
    ShlAtLeast(m, UnitBits(f));
  }

  /** The lower end of the range itself, where no float separates it from the next integer. */
  lemma {:induction false} LowerPower(f: Format, bits: nat, e: nat)
    requires Interchange(f) && f.mantissaBits < e <= f.bias
    ensures var b := Bound(PowerBits(f, e, true), true);
      !IsNaN(f, b.bits) && (AboveLower(f, b, bits) <==> Truncate(f, bits) >= -(Pow2(e) as int))
  {
    PowerPattern(f, e);
    SignedPattern(f, true, PowerBits(f, e, false));
    NoFloatJustAbove(f, Magnitude(f, bits), e);
    TruncationBelow(Scaled(f, Magnitude(f, bits)), Pow2(e) + 1, UnitBits(f));
  }

  lemma {:induction false} PowerPlusOneLog(k: nat)
    requires k > 0
    ensures Log2(Pow2(k) + 1) == k
  {
    var e := Log2(Pow2(k) + 1);
    if e < k { Pow2Monotone(e + 1, k); }
    if e > k { Pow2Monotone(k + 1, e); }
  }

  /** `x < 2^(w-1)` or `x < 2^w`: the value is finite or negative, and its truncation is not above the range. */
  lemma {:induction false} UpperExact(f: Format, signed: bool, w: nat, bits: nat)
    requires Convertible(f, w) && bits < Pow2(f.storageBits)
    ensures var b := UpperBound(f, signed, w);
      && !IsNaN(f, b)
      && (SignedScaled(f, bits) < SignedScaled(f, b)
          <==> Truncate(f, bits) < if signed then Pow2(w - 1) else Pow2(w))
  {
    var mag, u, e := Magnitude(f, bits), UnitBits(f), if signed then w - 1 else w;
    PowerPattern(f, e);
    SignedPattern(f, false, PowerBits(f, e, false));
    TruncationBelow(Scaled(f, mag), Pow2(e), u);
    ShlPow2(e, u);
  }

  /** Infinities are outside every range. */
  lemma {:induction false} InfiniteOutside(f: Format, signed: bool, w: nat, bits: nat)
    requires Convertible(f, w) && Magnitude(f, bits) >= Infinity(f)
    ensures !InRange(signed, w, Truncate(f, bits))
  {
    var mag, u := Magnitude(f, bits), UnitBits(f);
    InfinityScaled(f, mag);
    TruncationBelow(Scaled(f, mag), Pow2(w), u);
    ShlPow2(w, u);
    Pow2Monotone(w + u, f.bias + 1 + u);
    Pow2Increasing(w - 1, w);
  }

  /** For every bit pattern, NaNs, infinities, subnormals and -0 included, the guard fails exactly
      when truncation toward zero has no value in the destination. */
  lemma {:induction false} RangeTestExact(f: Format, signed: bool, w: nat, bits: nat)
    requires Convertible(f, w) && bits < Pow2(f.storageBits)
    ensures Means(EmitRangeTest(f, signed, w), [bits], Bit(!Truncatable(f, bits, signed, w)))
  {
    var lower, upper := LowerBound(f, signed, w), UpperBound(f, signed, w);
    LowerExact(f, signed, w, bits);
    UpperExact(f, signed, w, bits);
    if Magnitude(f, bits) >= Infinity(f) { InfiniteOutside(f, signed, w, bits); }
    var pred := if lower.inclusive then Oge else Ogt;
    var p, q := CompareFloats(pred, f, bits, lower.bits), CompareFloats(Olt, f, bits, upper);
    assert (p && q) == Truncatable(f, bits, signed, w);
    FCmpRule(pred, f, Arg(0), [bits], bits, lower.bits);
    FCmpRule(Olt, f, Arg(0), [bits], bits, upper);
    var lowerOk := Un(Float(FCmp(pred, f, lower.bits)), Arg(0));
    var upperOk := Un(Float(FCmp(Olt, f, upper)), Arg(0));
    BooleanRule(lowerOk, upperOk, [bits], p, q);
    BooleanRule(Bin(And, 1, lowerOk, upperOk), Lit(1), [bits], p && q, true);
  }

  lemma {:induction false} FCmpRule(pred: FloatPredicate, f: Format, x: Expr, args: seq<nat>, a: nat, c: nat)
    requires Means(x, args, a) && a < Pow2(f.storageBits)
    ensures Means(Un(Float(FCmp(pred, f, c)), x), args, Bit(CompareFloats(pred, f, a, c)))
  {
    UnRule(Float(FCmp(pred, f, c)), x, args, a, Bit(CompareFloats(pred, f, a, c)));
  }

  // ---- bit extraction for a w-bit destination (w is 128 in the renderer) ----

  datatype Fields = Fields(negative: Expr, exponent: Expr, significand: Expr)

  function EmitFields(f: Format): Fields
  {
    var s := f.storageBits;
    var storage := Un(Bitcast(s), Arg(0));
    var signStorage := Bin(And, s, storage, Lit(Pow2(s - 1)));
    var negative := ICmp(Ne, s, signStorage, Lit(0));
    var shiftedExponent := Bin(LShr, s, storage, Lit(f.mantissaBits));
    var exponentStorage := Bin(And, s, shiftedExponent, Lit(ExponentMax(f)));
    var fractionStorage := Bin(And, s, storage, Lit(Pow2(f.mantissaBits) - 1));
    var significandStorage := Bin(Or, s, fractionStorage, Lit(Pow2(f.mantissaBits)));
    Fields(negative, Un(Zext(s), exponentStorage), Un(Zext(s), significandStorage))
  }

  function EmitMagnitude(f: Format, w: nat, exponentWide: Expr, significandWide: Expr): Expr
  {
    var k := Lit(f.mantissaBits);
    var hasInteger := ICmp(Uge, w, exponentWide, Lit(f.bias));
    var rawExponent := Bin(Sub, w, exponentWide, Lit(f.bias));
    var exponent := Select(hasInteger, rawExponent, Lit(0));
    var left := ICmp(Uge, w, exponent, k);
    var leftShift := Select(left, Bin(Sub, w, exponent, k), Lit(0));
    var rightShift := Select(left, Lit(0), Bin(Sub, w, k, exponent));
    var leftMagnitude := Bin(LShl, w, significandWide, leftShift);
    var rightMagnitude := Bin(LShr, w, significandWide, rightShift);
    var rawMagnitude := Select(left, leftMagnitude, rightMagnitude);
    Select(hasInteger, rawMagnitude, Lit(0))
  }

  function EmitExtraction(f: Format, w: nat, signed: bool): Expr
  {
    var fields := EmitFields(f);
    var magnitude := EmitMagnitude(f, w, fields.exponent, fields.significand);
    var negated := Bin(Sub, w, Lit(0), magnitude);
    var converted := Select(if signed then fields.negative else Lit(0), negated, magnitude);
    Select(Lit(1), converted, converted)
  }

  lemma {:induction false} FieldsCorrect(f: Format, bits: nat)
    requires Interchange(f) && bits < Pow2(f.storageBits)
    ensures var fields, mag := EmitFields(f), Magnitude(f, bits);
      && Means(fields.negative, [bits], Bit(Negative(f, bits)))
      && Means(fields.exponent, [bits], Exponent(f, mag))
      && Means(fields.significand, [bits], Pow2(f.mantissaBits) + Fraction(f, mag))
    ensures Exponent(f, Magnitude(f, bits)) <= ExponentMax(f)
  {
    var s, k, args := f.storageBits, f.mantissaBits, [bits];
    var storage, mag := Un(Bitcast(s), Arg(0)), Magnitude(f, bits);
    UnRule(Bitcast(s), Arg(0), args, bits, bits);
    Pow2Increasing(s - 1, s);
    SmallBelowPow2(s);
    AndBit(bits, s - 1);
    BinRule(And, s, storage, Lit(Pow2(s - 1)), args, bits, Pow2(s - 1), if Negative(f, bits) then Pow2(s - 1) else 0);
    ICmpRule(Ne, s, Bin(And, s, storage, Lit(Pow2(s - 1))), Lit(0), args, if Negative(f, bits) then Pow2(s - 1) else 0,
      0);
    ExponentField(f, bits);
    ShrFits(bits, s, k);
    ShrRule(s, storage, Lit(k), args, bits, k);
    Pow2Monotone(s - 1 - k, s);
    AndMaskRule(s, Bin(LShr, s, storage, Lit(k)), Lit(ExponentMax(f)), args, Shr(bits, k), s - 1 - k);
    UnRule(Zext(s), Bin(And, s, Bin(LShr, s, storage, Lit(k)), Lit(ExponentMax(f))), args, Exponent(f, mag),
      Exponent(f, mag));
    SignificandField(f, storage, args, bits);
  }

  lemma {:induction false} SignificandField(f: Format, storage: Expr, args: seq<nat>, bits: nat)
    requires bits < Pow2(f.storageBits) && Means(storage, args, bits)
    requires Low(bits, f.mantissaBits) == Fraction(f, Magnitude(f, bits))
    ensures var s := f.storageBits;
      var fractionStorage := Bin(And, s, storage, Lit(Pow2(f.mantissaBits) - 1));
      Means(Un(Zext(s), Bin(Or, s, fractionStorage, Lit(Pow2(f.mantissaBits)))), args,
            Pow2(f.mantissaBits) + Fraction(f, Magnitude(f, bits)))
  {
    var s, k, t := f.storageBits, f.mantissaBits, Low(bits, f.mantissaBits);
    var fractionStorage := Bin(And, s, storage, Lit(Pow2(k) - 1));
    Pow2Increasing(k, s);
    AndMaskRule(s, storage, Lit(Pow2(k) - 1), args, bits, k);
    OrRule(s, fractionStorage, Lit(Pow2(k)), args, t, Pow2(k));
    OrSign(k, t, true);
    UnRule(Zext(s), Bin(Or, s, fractionStorage, Lit(Pow2(k))), args, t + Pow2(k), t + Pow2(k));
  }

  /** Cutting the fields out of the stored pattern ignores the sign bit. */
  lemma {:induction false} ExponentField(f: Format, bits: nat)
    requires Interchange(f) && bits < Pow2(f.storageBits)
    ensures Low(Shr(bits, f.mantissaBits), f.storageBits - 1 - f.mantissaBits) == Exponent(f, Magnitude(f, bits))
    ensures Low(bits, f.mantissaBits) == Fraction(f, Magnitude(f, bits))
    ensures Exponent(f, Magnitude(f, bits)) <= ExponentMax(f)
  {
    var k, j, mag := f.mantissaBits, f.storageBits - 1 - f.mantissaBits, Magnitude(f, bits);
    PatternSplit(f, bits);
    Split(mag, k);
    ShrFits(mag, f.storageBits - 1, k);
    var e, t, g := Shr(mag, k), Low(mag, k), Bit(Negative(f, bits));
    ShlOne(f.storageBits - 1);
    ShlShl(g, j, k);
    ShlAdd(Shl(g, j), e, k);
    SplitUnique(bits, k, Shl(g, j) + e, t);
    SplitUnique(Shl(g, j) + e, j, g, e);
  }

  /** The truncated magnitude in terms of the two fields. */
  lemma {:induction false} TruncatedFields(f: Format, mag: nat)
    ensures var e, q, n := Exponent(f, mag), Pow2(f.mantissaBits) + Fraction(f, mag), Shr(Scaled(f, mag), UnitBits(f));
      if e < f.bias then n == 0
      else if e - f.bias >= f.mantissaBits then n == Shl(q, e - f.bias - f.mantissaBits)
      else n == Shr(q, f.mantissaBits - (e - f.bias))
  {
    var k, e, u := f.mantissaBits, Exponent(f, mag), UnitBits(f);
    var q := Pow2(k) + Fraction(f, mag);
    if e < f.bias {
      if e > 0 { ShlFits(q, k + 1, e - 1); Pow2Monotone(k + e, u); } else { Pow2Monotone(k, u); }
      LowSmall(Scaled(f, mag), u);
    } else if e - f.bias >= k {
      ShlShl(q, e - f.bias - k, u);
      SplitUnique(Shl(q, e - 1), u, Shl(q, e - f.bias - k), 0);
    } else {
      ShrOfShl(q, e - 1, k - (e - f.bias));
    }
  }

  lemma {:induction false} ShrOfShl(a: nat, j: nat, k: nat)
    ensures Shr(Shl(a, j), j + k) == Shr(a, k)
  {
    Split(a, k);
    ShlShl(Shr(a, k), k, j);
    ShlAdd(Shl(Shr(a, k), k), Low(a, k), j);
    ShlFits(Low(a, k), k, j);
    SplitUnique(Shl(a, j), j + k, Shr(a, k), Shl(Low(a, k), j));
  }

  /** A magnitude that fits w bits has an exponent below w, so no shift count reaches the width. */
  lemma {:induction false} ExponentBelowWidth(f: Format, mag: nat, w: nat)
    requires f.mantissaBits < w && Shr(Scaled(f, mag), UnitBits(f)) < Pow2(w)
    ensures Exponent(f, mag) < f.bias + w
  {
    var k, e := f.mantissaBits, Exponent(f, mag);
    var q := Pow2(k) + Fraction(f, mag);
    if e >= f.bias + w {
      TruncatedFields(f, mag);
      ShlLess(q, Pow2(k), e - f.bias - k);
      ShlPow2(k, e - f.bias - k);
      Pow2Monotone(w, e - f.bias);
    }
  }

  lemma {:induction false} MagnitudeCorrect(
      f: Format, w: nat, exponentWide: Expr, significandWide: Expr, args: seq<nat>, mag: nat)
    requires Fits(f, w) && Exponent(f, mag) <= ExponentMax(f) && Shr(Scaled(f, mag), UnitBits(f)) < Pow2(w)
    requires Means(exponentWide, args, Exponent(f, mag))
    requires Means(significandWide, args, Pow2(f.mantissaBits) + Fraction(f, mag))
    ensures Means(EmitMagnitude(f, w, exponentWide, significandWide), args, Shr(Scaled(f, mag), UnitBits(f)))
  {
    var k, big, q := f.mantissaBits, Exponent(f, mag) >= f.bias, Pow2(f.mantissaBits) + Fraction(f, mag);
    var e := if big then Exponent(f, mag) - f.bias else 0;
    var l, r := if e >= k then e - k else 0, if e >= k then 0 else k - e;
    WidthBounds(f, w);
    ExponentBelowWidth(f, mag, w);
    TruncatedFields(f, mag);
    var hasInteger, rawExponent := ICmp(Uge, w, exponentWide, Lit(f.bias)), Bin(Sub, w, exponentWide, Lit(f.bias));
    ICmpRule(Uge, w, exponentWide, Lit(f.bias), args, Exponent(f, mag), f.bias);
    SubRule(w, exponentWide, Lit(f.bias), args, Exponent(f, mag), f.bias);
    var exponent := Select(hasInteger, rawExponent, Lit(0));
    SelectRule(hasInteger, rawExponent, Lit(0), args, big, SubWord(w, Exponent(f, mag), f.bias), 0);
    CountsCorrect(w, exponent, args, e, k);
    var left := ICmp(Uge, w, exponent, Lit(k));
    var leftShift := Select(left, Bin(Sub, w, exponent, Lit(k)), Lit(0));
    var rightShift := Select(left, Lit(0), Bin(Sub, w, Lit(k), exponent));
    assert Shl(q, l) < Pow2(w) by { if l == 0 { assert Shl(q, l) == q; } }
    ShlRule(w, significandWide, leftShift, args, q, l);
    ShrRule(w, significandWide, rightShift, args, q, r);
    var leftMagnitude, rightMagnitude := Bin(LShl, w, significandWide, leftShift),
      Bin(LShr, w, significandWide, rightShift);
    SelectRule(left, leftMagnitude, rightMagnitude, args, e >= k, Shl(q, l), Shr(q, r));
    SelectRule(hasInteger, Select(left, leftMagnitude, rightMagnitude), Lit(0), args, big,
      if e >= k then Shl(q, l) else Shr(q, r), 0);
  }

  /** Whatever passes the guard is extracted exactly, and no shift count reaches the width. */
  lemma {:induction false} ExtractionExact(f: Format, w: nat, signed: bool, bits: nat)
    requires Fits(f, w) && bits < Pow2(f.storageBits) && Truncatable(f, bits, signed, w)
    ensures -(Pow2(w) as int) <= Truncate(f, bits) < Pow2(w)
    ensures Means(EmitExtraction(f, w, signed), [bits], Encode(w, Truncate(f, bits)))
  {
    var fields, mag, args := EmitFields(f), Magnitude(f, bits), [bits];
    var n, negative := Shr(Scaled(f, mag), UnitBits(f)), Negative(f, bits);
    Pow2Increasing(w - 1, w);
    FieldsCorrect(f, bits);
    MagnitudeCorrect(f, w, fields.exponent, fields.significand, args, mag);
    var magnitude := EmitMagnitude(f, w, fields.exponent, fields.significand);
    SubRule(w, Lit(0), magnitude, args, 0, n);
    var converted := Select(if signed then fields.negative else Lit(0), Bin(Sub, w, Lit(0), magnitude), magnitude);
    SelectRule(converted.x, Bin(Sub, w, Lit(0), magnitude), magnitude, args, signed && negative, SubWord(w, 0, n), n);
    SelectRule(Lit(1), converted, converted, args, true, Encode(w, Truncate(f, bits)), Encode(w, Truncate(f, bits)));
  }
}
