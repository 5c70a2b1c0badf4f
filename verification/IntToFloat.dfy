/** Conversion of 128-bit integers to floats: the renderer rounds to nearest, ties to even,
    entirely in integer instructions. */
module IntToFloat {
  import opened Bits
  import opened Ieee754
  import opened Ssa

  // ---- the expansion; argument 0 is the source, w its width (128 in the renderer) ----

  datatype Shifts = Shifts(
    negative: Expr, magnitude: Expr, zero: Expr, exponent: Expr, large: Expr, right: Expr, left: Expr)

  function EmitShifts(f: Format, w: nat, signed: bool): Shifts
    requires w > 0
  {
    var precisionLessOne := Lit(f.mantissaBits);
    var negative := ICmp(Slt, w, Arg(0), Lit(0));
    var negatedMagnitude := Bin(Sub, w, Lit(0), Arg(0));
    var magnitude := Select(if signed then negative else Lit(0), negatedMagnitude, Arg(0));
    var zero := ICmp(Eq, w, magnitude, Lit(0));
    var leading := Un(Ctlz(w), magnitude);
    var rawExponent := Bin(Sub, w, Lit(w - 1), leading);
    var exponent := Select(zero, Lit(0), rawExponent);
    var large := ICmp(Uge, w, exponent, precisionLessOne);
    var rawRightShift := Bin(Sub, w, exponent, precisionLessOne);
    var rightShift := Select(large, rawRightShift, Lit(0));
    var rawLeftShift := Bin(Sub, w, precisionLessOne, exponent);
    var leftShift := Select(large, Lit(0), rawLeftShift);
    Shifts(negative, magnitude, zero, exponent, large, rightShift, leftShift)
  }

  function EmitSignificand(w: nat, s: Shifts): Expr
  {
    var rightSignificand := Bin(LShr, w, s.magnitude, s.right);
    var leftSignificand := Bin(LShl, w, s.magnitude, s.left);
    Select(s.large, rightSignificand, leftSignificand)
  }

  function EmitRoundUp(w: nat, s: Shifts, significand: Expr): Expr
  {
    var shiftNonzero := ICmp(Ne, w, s.right, Lit(0));
    var rawHalfShift := Bin(Sub, w, s.right, Lit(1));
    var halfShift := Select(shiftNonzero, rawHalfShift, Lit(0));
    var half := Bin(LShl, w, Lit(1), halfShift);
    var maskBit := Bin(LShl, w, Lit(1), s.right);
    var mask := Bin(Sub, w, maskBit, Lit(1));
    var remainder := Bin(And, w, s.magnitude, mask);
    var greaterHalf := ICmp(Ugt, w, remainder, half);
    var equalHalf := ICmp(Eq, w, remainder, half);
    var oddValue := Bin(And, w, significand, Lit(1));
    var odd := ICmp(Ne, w, oddValue, Lit(0));
    var tieUp := Bin(And, 1, equalHalf, odd);
    var roundCompare := Bin(Or, 1, greaterHalf, tieUp);
    var roundable := Bin(And, 1, s.large, shiftNonzero);
    Bin(And, 1, roundable, roundCompare)
  }

  function EmitBits(f: Format, w: nat, exponent: Expr, rounded: Expr): Expr
  {
    var k := f.mantissaBits;
    var carry := ICmp(Eq, w, rounded, Lit(Pow2(k + 1)));
    var normalized := Select(carry, Lit(Pow2(k)), rounded);
    var carryIncrement := Un(Zext(1), carry);
    var finalExponent := Bin(Add, w, exponent, carryIncrement);
    var biasedExponent := Bin(Add, w, finalExponent, Lit(f.bias));
    var exponentBits := Bin(LShl, w, biasedExponent, Lit(k));
    var mantissaBits := Bin(And, w, normalized, Lit(Pow2(k) - 1));
    Bin(Or, w, exponentBits, mantissaBits)
  }

  function EmitSigned(f: Format, w: nat, signed: bool, s: Shifts, unsignedBits: Expr): Expr
  {
    var sourceSign := Select(if signed then s.negative else Lit(0), Lit(Pow2(f.storageBits - 1)), Lit(0));
    var signedBits := Bin(Or, w, unsignedBits, sourceSign);
    var nonzeroBits := Select(s.zero, Lit(0), signedBits);
    var storageBits := Un(Trunc(f.storageBits), nonzeroBits);
    Un(Bitcast(f.storageBits), storageBits)
  }

  function Expand(f: Format, w: nat, signed: bool): Expr
    requires w > 0
  {
    var s := EmitShifts(f, w, signed);
    var significand := EmitSignificand(w, s);
    var roundUp := EmitRoundUp(w, s, significand);
    var rounded := Bin(Add, w, significand, Un(Zext(1), roundUp));
    EmitSigned(f, w, signed, s, EmitBits(f, w, s.exponent, rounded))
  }

  // ---- correctness ----

  /** Widths the expansion is correct for: the pattern fits, and every value is in the format's range. */
  predicate Fits(f: Format, w: nat)
  {
    Interchange(f) && f.storageBits <= w <= f.bias + 1
  }

  function SourceValue(w: nat, signed: bool, v: nat): int
    requires w > 0 && v < Pow2(w)
  {
    if signed then Signed(w, v) else v
  }

  /** What the shift stage delivers for a source of magnitude m and exponent e. */
  ghost predicate Shifted(f: Format, w: nat, s: Shifts, args: seq<nat>, m: nat, e: nat)
  {
    var k := f.mantissaBits;
    && m < Pow2(w) && e < w && (if m == 0 then e == 0 else e == Log2(m))
    && Means(s.magnitude, args, m)
    && Means(s.zero, args, Bit(m == 0))
    && Means(s.exponent, args, e)
    && Means(s.large, args, Bit(e >= k))
    && Means(s.right, args, if e >= k then e - k else 0)
    && Means(s.left, args, if e >= k then 0 else k - e)
  }

  lemma {:induction false} SmallBelowPow2(k: nat)
    ensures k < Pow2(k)
  {
    if k > 0 { SmallBelowPow2(k - 1); }
  }

  lemma {:induction false} LeadingZerosLog2(w: nat, m: nat)
    requires m < Pow2(w)
    ensures LeadingZeros(w, m) <= w
    ensures m == 0 ==> LeadingZeros(w, m) == w
    ensures m > 0 ==> LeadingZeros(w, m) + Log2(m) == w - 1
  {
    if w > 0 && m < Pow2(w - 1) {
      LeadingZerosLog2(w - 1, m);
    } else if w > 0 {
      if Log2(m) < w - 1 { Pow2Monotone(Log2(m) + 1, w - 1); }
      if Log2(m) > w - 1 { Pow2Monotone(w, Log2(m)); }
    }
  }

  lemma {:induction false} MagnitudeValue(w: nat, signed: bool, v: nat)
    requires 0 < w && v < Pow2(w)
    ensures Abs(SourceValue(w, signed, v)) == if signed && Signed(w, v) < 0 then SubWord(w, 0, v) else v
    ensures Abs(SourceValue(w, signed, v)) < Pow2(w)
  {
  }

  lemma {:induction false} ShiftsCorrect(f: Format, w: nat, signed: bool, v: nat)
    requires f.mantissaBits < w && v < Pow2(w)
    ensures var s, m := EmitShifts(f, w, signed), Abs(SourceValue(w, signed, v));
      && Means(s.negative, [v], Bit(Signed(w, v) < 0))
      && Shifted(f, w, s, [v], m, if m == 0 then 0 else Log2(m))
  {
    var s, m, args := EmitShifts(f, w, signed), Abs(SourceValue(w, signed, v)), [v];
    var e := if m == 0 then 0 else Log2(m);
    MagnitudeValue(w, signed, v);
    ICmpRule(Slt, w, Arg(0), Lit(0), args, v, 0);
    SubRule(w, Lit(0), Arg(0), args, 0, v);
    SelectRule(s.magnitude.x, s.magnitude.y, Arg(0), args, signed && Signed(w, v) < 0, SubWord(w, 0, v), v);
    ICmpRule(Eq, w, s.magnitude, Lit(0), args, m, 0);
    LeadingZerosLog2(w, m);
    SmallBelowPow2(w);
    var leading, lz := Un(Ctlz(w), s.magnitude), LeadingZeros(w, m);
    UnRule(Ctlz(w), s.magnitude, args, m, lz);
    SubRule(w, Lit(w - 1), leading, args, w - 1, lz);
    SelectRule(s.zero, Lit(0), s.exponent.z, args, m == 0, 0, SubWord(w, w - 1, lz));
    CountsCorrect(w, s.exponent, args, e, f.mantissaBits);
  }

  lemma {:induction false} CountsCorrect(w: nat, exponent: Expr, args: seq<nat>, e: nat, k: nat)
    requires Means(exponent, args, e) && e < w < Pow2(w) && k < w
    ensures var large := ICmp(Uge, w, exponent, Lit(k));
      && Means(large, args, Bit(e >= k))
      && Means(Select(large, Bin(Sub, w, exponent, Lit(k)), Lit(0)), args, if e >= k then e - k else 0)
      && Means(Select(large, Lit(0), Bin(Sub, w, Lit(k), exponent)), args, if e >= k then 0 else k - e)
  {
    var large := ICmp(Uge, w, exponent, Lit(k));
    ICmpRule(Uge, w, exponent, Lit(k), args, e, k);
    SubRule(w, exponent, Lit(k), args, e, k);
    SubRule(w, Lit(k), exponent, args, k, e);
    SelectRule(large, Bin(Sub, w, exponent, Lit(k)), Lit(0), args, e >= k, SubWord(w, e, k), 0);
    SelectRule(large, Lit(0), Bin(Sub, w, Lit(k), exponent), args, e >= k, 0, SubWord(w, k, e));
  }

  lemma {:induction false} SignificandCorrect(f: Format, w: nat, s: Shifts, args: seq<nat>, m: nat, e: nat)
    requires f.mantissaBits + 1 < w && Shifted(f, w, s, args, m, e)
    ensures Means(EmitSignificand(w, s), args, if m == 0 then 0 else Significand(f, m))
  {
    var k := f.mantissaBits;
    var r, l := if e >= k then e - k else 0, if e >= k then 0 else k - e;
    SmallBelowPow2(w);
    Pow2Monotone(k + 1, w);
    ShlOne(l);
    if m > 0 { assert Significand(f, m) == if e <= k then Shl(m, k - e) else Shr(m, e - k); }
    assert Shl(m, l) < Pow2(w) && (m == 0 ==> Shl(m, l) == 0);
    ShrRule(w, s.magnitude, s.right, args, m, r);
    ShlRule(w, s.magnitude, s.left, args, m, l);
    SelectRule(s.large, Bin(LShr, w, s.magnitude, s.right), Bin(LShl, w, s.magnitude, s.left), args,
               e >= k, Shr(m, r), Shl(m, l));
  }

  /** The rounding decision is the one `Round` makes. */
  lemma {:induction false} RoundUpCorrect(
      f: Format, w: nat, s: Shifts, significand: Expr, args: seq<nat>, m: nat, e: nat, q: nat)
    requires f.mantissaBits + 1 < w && Shifted(f, w, s, args, m, e)
    requires q < Pow2(w) && Means(significand, args, q)
    requires e >= f.mantissaBits ==> q == Shr(m, e - f.mantissaBits)
    ensures Means(EmitRoundUp(w, s, significand), args, Bit(e > f.mantissaBits && RoundsUp(m, e - f.mantissaBits)))
  {
    var k := f.mantissaBits;
    var r := if e >= k then e - k else 0;
    var h := if r == 0 then 0 else r - 1;
    SmallBelowPow2(w);
    var shiftNonzero, rawHalf := ICmp(Ne, w, s.right, Lit(0)), Bin(Sub, w, s.right, Lit(1));
    ICmpRule(Ne, w, s.right, Lit(0), args, r, 0);
    SubRule(w, s.right, Lit(1), args, r, 1);
    var halfShift := Select(shiftNonzero, rawHalf, Lit(0));
    SelectRule(shiftNonzero, rawHalf, Lit(0), args, r != 0, SubWord(w, r, 1), 0);
    PowerCorrect(w, halfShift, args, h);
    PowerCorrect(w, s.right, args, r);
    var mask := Bin(Sub, w, Bin(LShl, w, Lit(1), s.right), Lit(1));
    AndMaskRule(w, s.magnitude, mask, args, m, r);
    LowBelow(m, r, w);
    DecisionCorrect(w, s.large, shiftNonzero, Bin(And, w, s.magnitude, mask),
      Bin(LShl, w, Lit(1), halfShift), significand, args,
      e >= k, r != 0, Low(m, r), Pow2(h), q);
  }

  lemma {:induction false} LowBelow(a: nat, k: nat, w: nat)
    requires k <= w
    ensures Low(a, k) < Pow2(w)
  {
    Pow2Monotone(k, w);
  }

  lemma {:induction false} PowerCorrect(w: nat, count: Expr, args: seq<nat>, c: nat)
    requires c < w < Pow2(w) && Means(count, args, c)
    ensures Means(Bin(LShl, w, Lit(1), count), args, Pow2(c)) && Pow2(c) < Pow2(w)
    ensures Means(Bin(Sub, w, Bin(LShl, w, Lit(1), count), Lit(1)), args, Pow2(c) - 1)
  {
    ShlOne(c);
    Pow2Increasing(c, w);
    ShlRule(w, Lit(1), count, args, 1, c);
    SubRule(w, Bin(LShl, w, Lit(1), count), Lit(1), args, Pow2(c), 1);
  }

  lemma {:induction false} DecisionCorrect(
      w: nat, large: Expr, shiftNonzero: Expr, remainder: Expr, half: Expr, significand: Expr,
      args: seq<nat>, isLarge: bool, isShift: bool, r: nat, h: nat, q: nat)
    requires 0 < w && 1 < Pow2(w) && r < Pow2(w) && h < Pow2(w) && q < Pow2(w)
    requires Means(large, args, Bit(isLarge)) && Means(shiftNonzero, args, Bit(isShift))
    requires Means(remainder, args, r) && Means(half, args, h) && Means(significand, args, q)
    ensures var odd := ICmp(Ne, w, Bin(And, w, significand, Lit(1)), Lit(0));
      var tieUp := Bin(And, 1, ICmp(Eq, w, remainder, half), odd);
      var roundCompare := Bin(Or, 1, ICmp(Ugt, w, remainder, half), tieUp);
      Means(Bin(And, 1, Bin(And, 1, large, shiftNonzero), roundCompare), args,
            Bit(isLarge && isShift && (r > h || (r == h && q % 2 == 1))))
  {
    var odd := ICmp(Ne, w, Bin(And, w, significand, Lit(1)), Lit(0));
    var equal, greater := ICmp(Eq, w, remainder, half), ICmp(Ugt, w, remainder, half);
    assert Pow2(1) == 2 && Low(q, 1) == q % 2;
    AndMaskRule(w, significand, Lit(1), args, q, 1);
    ICmpRule(Ne, w, odd.x, Lit(0), args, q % 2, 0);
    ICmpRule(Eq, w, remainder, half, args, r, h);
    ICmpRule(Ugt, w, remainder, half, args, r, h);
    BooleanRule(equal, odd, args, r == h, q % 2 == 1);
    var tieUp := Bin(And, 1, equal, odd);
    BooleanRule(greater, tieUp, args, r > h, r == h && q % 2 == 1);
    BooleanRule(large, shiftNonzero, args, isLarge, isShift);
    BooleanRule(Bin(And, 1, large, shiftNonzero), Bin(Or, 1, greater, tieUp), args,
                isLarge && isShift, r > h || (r == h && q % 2 == 1));
  }

  /** Packing the fields: a carry out of the significand lands in the exponent field. */
  lemma {:induction false} PackFields(k: nat, y: nat, n: nat)
    requires y > 0 && (n == 0 || Pow2(k) <= n <= Pow2(k + 1))
    ensures var c := n == Pow2(k + 1);
      BitOr(Shl(y + Bit(c), k), Low(if c then Pow2(k) else n, k)) == if n == 0 then Shl(y, k) else Shl(y - 1, k) + n
  {
    var c := n == Pow2(k + 1);
    var norm := if c then Pow2(k) else n;
    OrDisjoint(y + Bit(c), k, Low(norm, k));
    ShlOne(k);
    ShlAdd(y - 1, 1, k);
    ShlAdd(y, 1, k);
    if n == 0 { LowSmall(0, k); } else { SplitUnique(norm, k, 1, norm - Pow2(k)); }
  }

  lemma {:induction false} WidthBounds(f: Format, w: nat)
    requires Fits(f, w)
    ensures Pow2(f.mantissaBits + 1) < Pow2(w) && Pow2(f.storageBits) <= Pow2(w)
    ensures 1 < w < Pow2(w) && 2 * f.bias + 1 < Pow2(w)
  {
    SmallBelowPow2(w);
    Pow2Increasing(f.mantissaBits + 1, w);
    Pow2Monotone(f.storageBits, w);
    Pow2Increasing(f.storageBits - 1 - f.mantissaBits, w);
  }

  lemma {:induction false} BitsCorrect(f: Format, w: nat, exponent: Expr, rounded: Expr, args: seq<nat>, e: nat, n: nat)
    requires Fits(f, w) && e <= f.bias
    requires Means(exponent, args, e) && Means(rounded, args, n)
    requires n == 0 || Pow2(f.mantissaBits) <= n <= Pow2(f.mantissaBits + 1)
    ensures Means(EmitBits(f, w, exponent, rounded), args,
                  if n == 0 then Shl(e + f.bias, f.mantissaBits) else Shl(e + f.bias - 1, f.mantissaBits) + n)
  {
    var k := f.mantissaBits;
    var c := n == Pow2(k + 1);
    var norm, x := if c then Pow2(k) else n, e + Bit(c) + f.bias;
    WidthBounds(f, w);
    var carry := ICmp(Eq, w, rounded, Lit(Pow2(k + 1)));
    ICmpRule(Eq, w, rounded, Lit(Pow2(k + 1)), args, n, Pow2(k + 1));
    var normalized := Select(carry, Lit(Pow2(k)), rounded);
    SelectRule(carry, Lit(Pow2(k)), rounded, args, c, Pow2(k), n);
    ZextBooleanRule(carry, args, c);
    AddRule(w, exponent, Un(Zext(1), carry), args, e, Bit(c));
    var biased := Bin(Add, w, Bin(Add, w, exponent, Un(Zext(1), carry)), Lit(f.bias));
    AddRule(w, biased.x, Lit(f.bias), args, e + Bit(c), f.bias);
    ExponentFieldFits(f, w, x);
    ShlRule(w, biased, Lit(k), args, x, k);
    AndMaskRule(w, normalized, Lit(Pow2(k) - 1), args, norm, k);
    LowBelow(norm, k, w);
    OrRule(w, Bin(LShl, w, biased, Lit(k)), Bin(And, w, normalized, Lit(Pow2(k) - 1)), args, Shl(x, k), Low(norm, k));
    PackFields(k, e + f.bias, n);
  }

  lemma {:induction false} ExponentFieldFits(f: Format, w: nat, x: nat)
    requires Fits(f, w) && x <= ExponentMax(f)
    ensures Shl(x, f.mantissaBits) < Pow2(f.storageBits - 1) && Shl(x, f.mantissaBits) < Pow2(w)
  {
    ShlFits(x, f.storageBits - 1 - f.mantissaBits, f.mantissaBits);
    Pow2Monotone(f.storageBits - 1, w);
  }

  lemma {:induction false} SignCorrect(
      f: Format, w: nat, signed: bool, s: Shifts, unsignedBits: Expr, args: seq<nat>, negative: bool, zero: bool,
      u: nat)
    requires f.storageBits <= w && u < Pow2(f.storageBits - 1) && Pow2(f.storageBits) <= Pow2(w)
    requires Means(s.negative, args, Bit(negative)) && Means(s.zero, args, Bit(zero)) && Means(unsignedBits, args, u)
    ensures Means(EmitSigned(f, w, signed, s, unsignedBits), args,
                  if zero then 0 else if signed && negative then Pow2(f.storageBits - 1) + u else u)
  {
    var h := Pow2(f.storageBits - 1);
    var g := if signed && negative then h else 0;
    var sourceSign := Select(if signed then s.negative else Lit(0), Lit(h), Lit(0));
    SelectRule(sourceSign.x, Lit(h), Lit(0), args, signed && negative, h, 0);
    OrSign(f.storageBits - 1, u, signed && negative);
    var signedBits := Bin(Or, w, unsignedBits, sourceSign);
    OrRule(w, unsignedBits, sourceSign, args, u, g);
    var n := if zero then 0 else g + u;
    var nonzeroBits := Select(s.zero, Lit(0), signedBits);
    SelectRule(s.zero, Lit(0), signedBits, args, zero, 0, g + u);
    LowSmall(n, f.storageBits);
    UnRule(Trunc(f.storageBits), nonzeroBits, args, n, n);
    UnRule(Bitcast(f.storageBits), Un(Trunc(f.storageBits), nonzeroBits), args, n, n);
  }

  lemma {:induction false} OrSign(k: nat, u: nat, sign: bool)
    requires u < Pow2(k)
    ensures BitOr(u, if sign then Pow2(k) else 0) == u + if sign then Pow2(k) else 0
  {
    ShlOne(k);
    OrDisjoint(Bit(sign), k, u);
    OrCommutes(Shl(Bit(sign), k), u);
  }

  /** The rounded significand, its place in the pattern, and the unsigned pattern that results. */
  lemma {:induction false} RoundedPattern(f: Format, w: nat, m: nat, e: nat, q: nat, up: bool)
    requires Fits(f, w) && m < Pow2(w)
    requires if m == 0 then e == 0 && q == 0 else e == Log2(m) && q == Significand(f, m)
    requires up == (e > f.mantissaBits && RoundsUp(m, e - f.mantissaBits))
    ensures Round(f, m) < Pow2(f.storageBits - 1) && e <= f.bias
    ensures var n, k := q + Bit(up), f.mantissaBits;
      if m == 0 then n == 0 && Shl(e + f.bias, k) < Pow2(f.storageBits - 1)
      else Pow2(k) <= n <= Pow2(k + 1) && Round(f, m) == Shl(e + f.bias - 1, k) + n
  {
    Pow2Monotone(w, f.bias + 1);
    RoundIsNearestEven(f, m);
    ExponentFieldFits(f, w, ExponentMax(f));
    ExponentFieldFits(f, w, f.bias);
    if m > 0 && e > f.bias { Pow2Monotone(f.bias + 1, e); }
  }

  /** For every source the expansion yields the pattern that roundTiesToEven prescribes. */
  lemma {:induction false} ExpandRounds(f: Format, w: nat, signed: bool, v: nat)
    requires Fits(f, w) && v < Pow2(w)
    ensures Means(Expand(f, w, signed), [v], RoundSigned(f, SourceValue(w, signed, v)))
    ensures NearestEven(f, Abs(SourceValue(w, signed, v)), Round(f, Abs(SourceValue(w, signed, v))))
    ensures Round(f, Abs(SourceValue(w, signed, v))) < Pow2(f.storageBits - 1)
  {
    var s, m := EmitShifts(f, w, signed), Abs(SourceValue(w, signed, v));
    var e, q := if m == 0 then 0 else Log2(m), if m == 0 then 0 else Significand(f, m);
    ShiftsCorrect(f, w, signed, v);
    var significand := EmitSignificand(w, s);
    SignificandCorrect(f, w, s, [v], m, e);
    WidthBounds(f, w);
    var rounded := Bin(Add, w, significand, Un(Zext(1), EmitRoundUp(w, s, significand)));
    RoundedCorrect(f, w, s, significand, [v], m, e, q);
    PatternCorrect(f, w, s, rounded, [v], m, e, q);
    FinishCorrect(f, w, signed, s, EmitBits(f, w, s.exponent, rounded), v, m);
    Pow2Monotone(w, f.bias + 1);
    RoundIsNearestEven(f, m);
    assert m == 0 ==> Round(f, m) == 0;
  }

  predicate RoundsSignificand(f: Format, m: nat, e: nat)
  {
    e > f.mantissaBits && m > 0 && RoundsUp(m, e - f.mantissaBits)
  }

  lemma {:induction false} RoundedCorrect(
      f: Format, w: nat, s: Shifts, significand: Expr, args: seq<nat>, m: nat, e: nat, q: nat)
    requires Fits(f, w) && m < Pow2(w) && Shifted(f, w, s, args, m, e) && Pow2(f.mantissaBits + 1) < Pow2(w)
    requires q == (if m == 0 then 0 else Significand(f, m)) && Means(significand, args, q)
    ensures Means(Bin(Add, w, significand, Un(Zext(1), EmitRoundUp(w, s, significand))), args,
      q + Bit(RoundsSignificand(f, m, e)))
  {
    var up, roundUp := RoundsSignificand(f, m, e), EmitRoundUp(w, s, significand);
    RoundUpCorrect(f, w, s, significand, args, m, e, q);
    ZextBooleanRule(roundUp, args, up);
    AddRule(w, significand, Un(Zext(1), roundUp), args, q, Bit(up));
  }

  /** What the sign stage is given: the unsigned pattern, or anything for zero. */
  function UnsignedPattern(f: Format, m: nat): nat { if m == 0 then Shl(f.bias, f.mantissaBits) else Round(f, m) }

  lemma {:induction false} PatternCorrect(
      f: Format, w: nat, s: Shifts, rounded: Expr, args: seq<nat>, m: nat, e: nat, q: nat)
    requires Fits(f, w) && m < Pow2(w) && Shifted(f, w, s, args, m, e)
    requires q == (if m == 0 then 0 else Significand(f, m)) && Means(rounded, args, q + Bit(RoundsSignificand(f, m, e)))
    ensures Means(EmitBits(f, w, s.exponent, rounded), args, UnsignedPattern(f, m))
    ensures UnsignedPattern(f, m) < Pow2(f.storageBits - 1)
  {
    RoundedPattern(f, w, m, e, q, RoundsSignificand(f, m, e));
    BitsCorrect(f, w, s.exponent, rounded, args, e, q + Bit(RoundsSignificand(f, m, e)));
  }

  lemma {:induction false} FinishCorrect(f: Format, w: nat, signed: bool, s: Shifts, bits: Expr, v: nat, m: nat)
    requires Fits(f, w) && v < Pow2(w) && m == Abs(SourceValue(w, signed, v)) && Pow2(f.storageBits) <= Pow2(w)
    requires Means(s.negative, [v], Bit(Signed(w, v) < 0)) && Means(s.zero, [v], Bit(m == 0))
    requires Means(bits, [v], UnsignedPattern(f, m)) && UnsignedPattern(f, m) < Pow2(f.storageBits - 1)
    ensures Means(EmitSigned(f, w, signed, s, bits), [v], RoundSigned(f, SourceValue(w, signed, v)))
  {
    SignCorrect(f, w, signed, s, bits, [v], Signed(w, v) < 0, m == 0, UnsignedPattern(f, m));
  }
}
