/** Checked conversions between integers and floats: the rendered instruction or expansion, the
    test that guards it and the outcome of the whole. */
module Conversions {
  import opened Bits
  import opened Ieee754
  import opened Ssa
  import opened IntToFloat
  import opened FloatToInt
  import opened CheckedInteger

  // ---- integers to integers ----

  function EmitResize(signed: bool, w: nat, into: nat, x: Expr): Expr
  {
    if into < w then Un(Trunc(into), x)
    else if into > w then Extend(signed, w, into, x)
    else Select(Lit(1), x, x)
  }

  function RenderIntegerConversion(signed: bool, w: nat, toSigned: bool, toBits: nat, code: nat): Checked
    requires toBits > 0
  {
    var result := EmitResize(signed, w, toBits, Arg(0));
    var roundtrip := EmitResize(toSigned, toBits, w, result);
    var roundtripOk := ICmp(Eq, w, roundtrip, Arg(0));
    var valid :=
      if signed && !toSigned then Bin(And, 1, roundtripOk, ICmp(Sge, w, Arg(0), Lit(0)))
      else if !signed && toSigned && toBits <= w then
        Bin(And, 1, roundtripOk, ICmp(Ult, w, Arg(0), Lit(Pow2(toBits - 1))))
      else Bin(Or, 1, roundtripOk, Lit(0));
    Checked(Bin(Xor, 1, valid, Lit(1)), Lit(code), result)
  }

  /** The word a resize yields. */
  function Resize(signed: bool, w: nat, into: nat, a: nat): (n: nat)
    requires w > 0 && a < Pow2(w)
    ensures n < Pow2(into)
  {
    if into < w then Low(a, into)
    else
      Pow2Monotone(w, into);
      Encode(into, Read(signed, w, a))
  }

  lemma {:induction false} ResizeRule(signed: bool, w: nat, into: nat, x: Expr, args: seq<nat>, a: nat)
    requires 0 < w && a < Pow2(w) && Means(x, args, a)
    ensures Means(EmitResize(signed, w, into, x), args, Resize(signed, w, into, a))
  {
    if into < w {
      UnRule(Trunc(into), x, args, a, Low(a, into));
    } else if into > w {
      ExtendRule(signed, w, into, x, args, a);
    } else {
      SelectRule(Lit(1), x, x, args, true, a, a);
    }
  }

  /** The emitted validity test, on words. */
  predicate ConversionValid(signed: bool, w: nat, toSigned: bool, toBits: nat, a: nat)
    requires w > 0 && toBits > 0 && a < Pow2(w)
  {
    && Resize(toSigned, toBits, w, Resize(signed, w, toBits, a)) == a
    && (signed && !toSigned ==> Signed(w, a) >= 0)
    && (!signed && toSigned && toBits <= w ==> a < Pow2(toBits - 1))
  }

  lemma {:induction false} ValidExact(signed: bool, w: nat, toSigned: bool, toBits: nat, a: nat)
    requires w > 0 && toBits > 0 && a < Pow2(w)
    ensures ConversionValid(signed, w, toSigned, toBits, a) <==> InRange(toSigned, toBits, Read(signed, w, a))
    ensures InRange(toSigned, toBits, Read(signed, w, a)) ==>
      Resize(signed, w, toBits, a) == EncodeInRange(toSigned, toBits, Read(signed, w, a))
  {
    if toBits < w {
      NarrowingExact(signed, w, toSigned, toBits, a);
    } else {
      WideningExact(signed, w, toSigned, toBits, a);
    }
  }

  lemma {:induction false} WideningExact(signed: bool, w: nat, toSigned: bool, toBits: nat, a: nat)
    requires 0 < w <= toBits && a < Pow2(w)
    ensures ConversionValid(signed, w, toSigned, toBits, a) <==> InRange(toSigned, toBits, Read(signed, w, a))
    ensures InRange(toSigned, toBits, Read(signed, w, a)) ==>
      Resize(signed, w, toBits, a) == EncodeInRange(toSigned, toBits, Read(signed, w, a))
  {
    var i := Read(signed, w, a);
    Pow2Monotone(w, toBits);
    Pow2Monotone(w - 1, toBits - 1);
    assert Pow2(w) == 2 * Pow2(w - 1) && Pow2(toBits) == 2 * Pow2(toBits - 1);
    if w < toBits {
      Pow2Monotone(w, toBits - 1);
      TruncEncode(w, toBits, i);
    }
  }

  lemma {:induction false} NarrowingExact(signed: bool, w: nat, toSigned: bool, toBits: nat, a: nat)
    requires 0 < toBits < w && a < Pow2(w)
    ensures ConversionValid(signed, w, toSigned, toBits, a) <==> InRange(toSigned, toBits, Read(signed, w, a))
    ensures InRange(toSigned, toBits, Read(signed, w, a)) ==>
      Resize(signed, w, toBits, a) == EncodeInRange(toSigned, toBits, Read(signed, w, a))
  {
    var i, n := Read(signed, w, a), Low(a, toBits);
    Pow2Monotone(toBits, w - 1);
    assert Pow2(w) == 2 * Pow2(w - 1) && Pow2(toBits) == 2 * Pow2(toBits - 1);
    if InRange(toSigned, toBits, i) {
      TruncEncode(toBits, w, i);
      InRangeEncodes(toSigned, toBits, i);
    }
  }

  /** Integer conversion traps exactly when the source value lies outside the destination's range,
      and otherwise keeps the value. */
  lemma {:induction false} IntegerConversionCorrect(
      signed: bool, w: nat, toSigned: bool, toBits: nat, code: nat, a: nat)
    requires w > 0 && toBits > 0 && a < Pow2(w)
    ensures var i := Read(signed, w, a);
      Run(RenderIntegerConversion(signed, w, toSigned, toBits, code), [a])
      == if InRange(toSigned, toBits, i) then Result(EncodeInRange(toSigned, toBits, i)) else Fatal(code)
  {
    var c, args := RenderIntegerConversion(signed, w, toSigned, toBits, code), [a];
    var n := Resize(signed, w, toBits, a);
    var back, valid := Resize(toSigned, toBits, w, n), ConversionValid(signed, w, toSigned, toBits, a);
    ResizeRule(signed, w, toBits, Arg(0), args, a);
    var result := EmitResize(signed, w, toBits, Arg(0));
    ResizeRule(toSigned, toBits, w, result, args, n);
    var roundtrip := EmitResize(toSigned, toBits, w, result);
    ICmpRule(Eq, w, roundtrip, Arg(0), args, back, a);
    var ok := ICmp(Eq, w, roundtrip, Arg(0));
    if signed && !toSigned {
      ICmpRule(Sge, w, Arg(0), Lit(0), args, a, 0);
      BooleanRule(ok, ICmp(Sge, w, Arg(0), Lit(0)), args, back == a, Signed(w, a) >= 0);
    } else if !signed && toSigned && toBits <= w {
      Pow2Increasing(toBits - 1, toBits);
      Pow2Monotone(toBits, w);
      ICmpRule(Ult, w, Arg(0), Lit(Pow2(toBits - 1)), args, a, Pow2(toBits - 1));
      BooleanRule(ok, ICmp(Ult, w, Arg(0), Lit(Pow2(toBits - 1))), args, back == a, a < Pow2(toBits - 1));
    } else {
      BooleanRule(ok, Lit(0), args, back == a, false);
    }
    BooleanRule(c.failed.x, Lit(1), args, valid, true);
    ValidExact(signed, w, toSigned, toBits, a);
    RunRule(c, args, !valid, code, n);
  }

  // ---- integers to floats ----

  function EmitInfinityTest(f: Format, x: Expr): Expr
  {
    Bin(Or, 1, Un(Float(FCmp(Oeq, f, WithSign(f, false, Infinity(f)))), x),
               Un(Float(FCmp(Oeq, f, WithSign(f, true, Infinity(f)))), x))
  }

  function RenderIntToFloat(signed: bool, w: nat, f: Format, soft: bool, code: nat): Checked
    requires w > 0
  {
    var result := if soft then IntToFloat.Expand(f, w, signed) else Un(Float(FromInt(signed, w, f)), Arg(0));
    Checked(EmitInfinityTest(f, result), Lit(code), result)
  }

  /** How a pattern compares with the two infinities. */
  lemma {:induction false} AgainstInfinities(f: Format, negative: bool, mag: nat)
    requires Interchange(f) && mag < Pow2(f.storageBits - 1)
    ensures var a, plus, minus := WithSign(f, negative, mag), WithSign(f, false, Infinity(f)), WithSign(f, true,
      Infinity(f));
      && a < Pow2(f.storageBits)
      && (CompareFloats(Oeq, f, a, plus) <==> !negative && mag == Infinity(f))
      && (CompareFloats(Oeq, f, a, minus) <==> negative && mag == Infinity(f))
      && (CompareFloats(One, f, a, plus) && CompareFloats(One, f, a, minus) <==> Finite(f, mag))
  {
    assert Pow2(f.storageBits) == 2 * Pow2(f.storageBits - 1);
    ExponentFieldFits(f, f.storageBits, ExponentMax(f));
    SignedPattern(f, negative, mag);
    SignedPattern(f, false, Infinity(f));
    SignedPattern(f, true, Infinity(f));
    ShlAtLeast(ExponentMax(f), f.mantissaBits);
    ScaledIncreasing(f, 0, Infinity(f));
    if 0 < mag < Infinity(f) { ScaledIncreasing(f, mag, Infinity(f)); }
  }

  /** The test answers true exactly on the two infinities, and false on NaN. */
  lemma {:induction false} InfinityTestExact(f: Format, x: Expr, args: seq<nat>, negative: bool, mag: nat)
    requires Interchange(f) && mag < Pow2(f.storageBits - 1) && Means(x, args, WithSign(f, negative, mag))
    ensures Means(EmitInfinityTest(f, x), args, Bit(mag == Infinity(f)))
  {
    var a, plus, minus := WithSign(f, negative, mag), WithSign(f, false, Infinity(f)), WithSign(f, true, Infinity(f));
    AgainstInfinities(f, negative, mag);
    FCmpRule(Oeq, f, x, args, a, plus);
    FCmpRule(Oeq, f, x, args, a, minus);
    var p, q := CompareFloats(Oeq, f, a, plus), CompareFloats(Oeq, f, a, minus);
    BooleanRule(Un(Float(FCmp(Oeq, f, plus)), x), Un(Float(FCmp(Oeq, f, minus)), x), args, p, q);
  }

  function EmitFiniteTest(f: Format, x: Expr): Expr
  {
    Bin(And, 1, Un(Float(FCmp(One, f, WithSign(f, false, Infinity(f)))), x),
                Un(Float(FCmp(One, f, WithSign(f, true, Infinity(f)))), x))
  }

  /** The test answers true exactly on finite patterns, and false on NaN. */
  lemma {:induction false} FiniteTestExact(f: Format, x: Expr, args: seq<nat>, negative: bool, mag: nat)
    requires Interchange(f) && mag < Pow2(f.storageBits - 1) && Means(x, args, WithSign(f, negative, mag))
    ensures Means(EmitFiniteTest(f, x), args, Bit(Finite(f, mag)))
  {
    var a, plus, minus := WithSign(f, negative, mag), WithSign(f, false, Infinity(f)), WithSign(f, true, Infinity(f));
    AgainstInfinities(f, negative, mag);
    FCmpRule(One, f, x, args, a, plus);
    FCmpRule(One, f, x, args, a, minus);
    var p, q := CompareFloats(One, f, a, plus), CompareFloats(One, f, a, minus);
    BooleanRule(Un(Float(FCmp(One, f, plus)), x), Un(Float(FCmp(One, f, minus)), x), args, p, q);
  }

  // ---- floats to floats ----

  /** Argument 0 is the source, argument 1 what `fpext`, `fptrunc` or the copy made of it. Only
      narrowing is guarded. */
  function RenderFloatConversion(from: Format, into: Format, narrows: bool, code: nat): Checked
  {
    Checked(if narrows then Bin(And, 1, EmitFiniteTest(from, Arg(0)), EmitInfinityTest(into, Arg(1)))
            else Bin(Or, 1, Lit(0), Lit(0)),
            Lit(code), Arg(1))
  }

  /** A conversion between floats traps exactly when it narrows a finite number to an infinity: infinities
      and NaN pass, and widening never traps. */
  lemma {:induction false} FloatConversionCorrect(from: Format, into: Format, narrows: bool, code: nat, a: nat, b: nat)
    requires Interchange(from) && Interchange(into) && a < Pow2(from.storageBits) && b < Pow2(into.storageBits)
    ensures Run(RenderFloatConversion(from, into, narrows, code), [a, b])
         == if narrows && Finite(from, Magnitude(from, a)) && Magnitude(into, b) == Infinity(into)
            then Fatal(code) else Result(b)
  {
    var c, args := RenderFloatConversion(from, into, narrows, code), [a, b];
    var finite, infinite := Finite(from, Magnitude(from, a)), Magnitude(into, b) == Infinity(into);
    if narrows {
      PatternSplit(from, a);
      PatternSplit(into, b);
      FiniteTestExact(from, Arg(0), args, Negative(from, a), Magnitude(from, a));
      InfinityTestExact(into, Arg(1), args, Negative(into, b), Magnitude(into, b));
      BooleanRule(EmitFiniteTest(from, Arg(0)), EmitInfinityTest(into, Arg(1)), args, finite, infinite);
    } else {
      BooleanRule(Lit(0), Lit(0), args, false, false);
    }
    RunRule(c, args, narrows && finite && infinite, code, b);
  }

  /** Converting an integer to a float returns the nearest float, ties to even, and traps exactly
      when that is infinite. */
  lemma {:induction false} IntToFloatCorrect(signed: bool, w: nat, f: Format, soft: bool, code: nat, v: nat)
    requires Interchange(f) && 0 < w <= f.bias + 1 && (soft ==> f.storageBits <= w) && v < Pow2(w)
    ensures var i := Read(signed, w, v);
      && NearestEven(f, Abs(i), Round(f, Abs(i)))
      && Run(RenderIntToFloat(signed, w, f, soft, code), [v])
         == if Overflows(f, Abs(i)) then Fatal(code) else Result(RoundSigned(f, i))
  {
    var c, i := RenderIntToFloat(signed, w, f, soft, code), Read(signed, w, v);
    var m := Abs(i);
    Pow2Monotone(w, f.bias + 1);
    Pow2Increasing(w - 1, w);
    RoundIsNearestEven(f, m);
    ExponentFieldFits(f, f.storageBits, ExponentMax(f));
    var bits := WithSign(f, i < 0, Round(f, m));
    if soft { ExpandRounds(f, w, signed, v); } else { UnRule(Float(FromInt(signed, w, f)), Arg(0), [v], v, bits); }
    InfinityTestExact(f, c.result, [v], i < 0, Round(f, m));
    RunRule(c, [v], Round(f, m) == Infinity(f), code, bits);
  }

  /** The first magnitude that rounds to infinity: 2^128 - 2^103 for binary32. */
  function OverflowThreshold(f: Format): int
    requires f.mantissaBits < f.bias
  {
    Pow2(f.bias + 1) - Pow2(f.bias - f.mantissaBits - 1)
  }

  lemma {:induction false} OverflowsFrom(f: Format, m: nat)
    requires Interchange(f) && f.mantissaBits < f.bias
    ensures Infinity(f) > 0 && (Overflows(f, m) <==> m >= OverflowThreshold(f))
  {
    var k, u, half := f.mantissaBits, UnitBits(f), f.bias - f.mantissaBits - 1;
    InfinityIsEven(f);
    PowerPattern(f, f.bias + 1);
    ScaledNext(f, Infinity(f) - 1);
    TopExponent(f);
    Pow2Monotone(half, f.bias + 1);
    var threshold: nat := OverflowThreshold(f);
    ShlAdd(threshold, Pow2(half), u);
    ShlPow2(half, u);
    ShlPow2(f.bias + 1, u);
    ShlLess(m, threshold, u);
  }

  lemma {:induction false} TopExponent(f: Format)
    ensures Infinity(f) > 0 && UnitInLastPlace(f, Infinity(f) - 1) == Pow2(2 * f.bias - 1)
  {
    var k := f.mantissaBits;
    InfinityIsEven(f);
    ShlAdd(2 * f.bias, 1, k);
    ShlOne(k);
    SplitUnique(Infinity(f) - 1, k, 2 * f.bias, Pow2(k) - 1);
  }

  /** Only an unsigned source as wide as the format's range can trap: 128 bits to binary32. */
  lemma {:induction false} OverflowNeedsWidth(signed: bool, w: nat, f: Format, v: nat)
    requires Interchange(f) && f.mantissaBits < f.bias && 0 < w <= f.bias + 1 && v < Pow2(w)
    requires signed || w <= f.bias
    ensures Infinity(f) > 0 && !Overflows(f, Abs(Read(signed, w, v)))
  {
    OverflowsFrom(f, Abs(Read(signed, w, v)));
    if signed { Pow2Monotone(w - 1, f.bias); } else { Pow2Monotone(w, f.bias); }
    Pow2Increasing(f.bias - f.mantissaBits - 1, f.bias);
  }

  // ---- floats to integers ----

  function RenderFloatToInt(f: Format, signed: bool, w: nat, soft: bool, code: nat): Checked
    requires w > 0
  {
    Checked(EmitRangeTest(f, signed, w), Lit(code),
            if soft then EmitExtraction(f, w, signed) else Un(Float(ToInt(signed, w, f)), Arg(0)))
  }

  /** Converting a float to an integer truncates toward zero and traps exactly when the truncation,
      if there is one, is outside the destination; the guarded instruction is never poison. */
  lemma {:induction false} FloatToIntCorrect(f: Format, signed: bool, w: nat, soft: bool, code: nat, bits: nat)
    requires Interchange(f) && 2 <= w <= f.bias + 1 && (soft ==> f.storageBits <= w) && bits < Pow2(f.storageBits)
    ensures Run(RenderFloatToInt(f, signed, w, soft, code), [bits])
      == if Truncatable(f, bits, signed, w) then Result(EncodeInRange(signed, w, Truncate(f, bits))) else Fatal(code)
  {
    var c := RenderFloatToInt(f, signed, w, soft, code);
    RangeTestExact(f, signed, w, bits);
    if Truncatable(f, bits, signed, w) {
      var n := EncodeInRange(signed, w, Truncate(f, bits));
      InRangeEncodes(signed, w, Truncate(f, bits));
      if soft {
        ExtractionExact(f, w, signed, bits);
      } else {
        UnRule(Float(ToInt(signed, w, f)), Arg(0), [bits], bits, n);
      }
      RunRule(c, [bits], false, code, n);
    } else {
      RunRule(c, [bits], true, code, 0);
    }
  }

  // ---- the formats and widths of the source language ----

  /** The correctness lemmas above apply to both float types and every integer width of MachineWir,
      with the expansion chosen at 128 bits. */
  lemma {:induction false} SourceTypesCovered(f: Format, w: nat)
    requires f in {BINARY32, BINARY64} && w in {8, 16, 32, 64, 128}
    ensures Interchange(f) && 3 <= w <= f.bias + 1 && (w == 128 ==> f.storageBits <= w) && f.mantissaBits < f.bias
    ensures f == BINARY64 ==> w <= f.bias
    ensures f == BINARY32 ==> OverflowThreshold(f) == Pow2(128) - Pow2(103)
  {
    InterchangeFormats();
  }

  /** Of all integer-to-float conversions of the source language, exactly those of unsigned 128-bit
      values from 2^128 - 2^103 on to binary32 trap. */
  lemma {:induction false} SourceOverflowExact(signed: bool, w: nat, f: Format, code: nat, v: nat)
    requires f in {BINARY32, BINARY64} && w in {8, 16, 32, 64, 128} && v < Pow2(w)
    ensures Run(RenderIntToFloat(signed, w, f, w == 128, code), [v]) == Fatal(code)
       <==> f == BINARY32 && w == 128 && !signed && v >= OverflowThreshold(BINARY32)
  {
    SourceTypesCovered(f, w);
    ConversionTraps(signed, w, f, w == 128, code, v);
  }

  lemma {:induction false} ConversionTraps(signed: bool, w: nat, f: Format, soft: bool, code: nat, v: nat)
    requires Interchange(f) && f.mantissaBits < f.bias && 0 < w <= f.bias + 1 && (soft ==> f.storageBits <= w)
    requires v < Pow2(w)
    ensures Run(RenderIntToFloat(signed, w, f, soft, code), [v]) == Fatal(code)
       <==> !signed && w == f.bias + 1 && v >= OverflowThreshold(f)
  {
    IntToFloatCorrect(signed, w, f, soft, code, v);
    OverflowsFrom(f, Abs(Read(signed, w, v)));
    if signed || w <= f.bias { OverflowNeedsWidth(signed, w, f, v); }
  }
}
