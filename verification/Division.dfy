/** 128-bit division and remainder: one restoring step per dividend bit, unrolled by the renderer. */
module Division {
  import opened Bits
  import opened Ssa
  import opened IntToFloat

  // ---- the expansion; arguments 0 and 1 are dividend and divisor, w is 128 in the renderer ----

  datatype State = State(remainder: Expr, quotient: Expr)

  function EmitStep(w: nat, left: Expr, right: Expr, step: nat, s: State): State
    requires step < w
  {
    var bit := w - 1 - step;
    var inputShift := Bin(LShr, w, left, Lit(bit));
    var inputBit := Bin(And, w, inputShift, Lit(1));
    var remainderShift := Bin(LShl, w, s.remainder, Lit(1));
    var candidate := Bin(Or, w, remainderShift, inputBit);
    var enough := ICmp(Uge, w, candidate, right);
    var reduced := Bin(Sub, w, candidate, right);
    var quotientSet := Bin(Or, w, s.quotient, Lit(Pow2(bit)));
    State(Select(enough, reduced, candidate), Select(enough, quotientSet, s.quotient))
  }

  /** The values after the first k steps. */
  function EmitSteps(w: nat, left: Expr, right: Expr, k: nat): State
    requires k <= w
  {
    if k == 0 then State(Bin(Or, w, Lit(0), Lit(0)), Bin(Or, w, Lit(0), Lit(0)))
    else EmitStep(w, left, right, k - 1, EmitSteps(w, left, right, k - 1))
  }

  datatype Operands = Operands(leftNegative: Expr, rightNegative: Expr, left: Expr, right: Expr)

  function EmitOperands(w: nat, signed: bool): Operands
  {
    var leftNegative := ICmp(Slt, w, Arg(0), Lit(0));
    var rightNegative := ICmp(Slt, w, Arg(1), Lit(0));
    var leftNegated := Bin(Sub, w, Lit(0), Arg(0));
    var rightNegated := Bin(Sub, w, Lit(0), Arg(1));
    Operands(leftNegative, rightNegative,
             Select(if signed then leftNegative else Lit(0), leftNegated, Arg(0)),
             Select(if signed then rightNegative else Lit(0), rightNegated, Arg(1)))
  }

  function EmitResult(w: nat, signed: bool, divide: bool, o: Operands, s: State): Expr
  {
    var unsignedResult := Bin(Or, w, if divide then s.quotient else s.remainder, Lit(0));
    var resultNegative :=
      if divide then Bin(Xor, 1, o.leftNegative, o.rightNegative) else Bin(Or, 1, o.leftNegative, Lit(0));
    var signedNegated := Bin(Sub, w, Lit(0), unsignedResult);
    Select(if signed then resultNegative else Lit(0), signedNegated, unsignedResult)
  }

  function Expand(w: nat, signed: bool, divide: bool): Expr
  {
    var o := EmitOperands(w, signed);
    EmitResult(w, signed, divide, o, EmitSteps(w, o.left, o.right, w))
  }

  /** The renderer's loop over the steps. */
  method RenderDivision(w: nat, signed: bool, divide: bool) returns (result: Expr)
    ensures result == Expand(w, signed, divide)
  {
    var o := EmitOperands(w, signed);
    var s := State(Bin(Or, w, Lit(0), Lit(0)), Bin(Or, w, Lit(0), Lit(0)));
    for step := 0 to w
      invariant s == EmitSteps(w, o.left, o.right, step)
    {
      s := EmitStep(w, o.left, o.right, step, s);
    }
    result := EmitResult(w, signed, divide, o, s);
  }

  // ---- restoring division ----

  /** Appending a bit to the dividend: the new quotient bit says whether the divisor fits. */
  lemma {:induction false} AppendBit(m: nat, b: nat, d: nat)
    requires d > 0 && b <= 1
    ensures var c := 2 * Remainder(m, d) + b;
      && Quotient(2 * m + b, d) == 2 * Quotient(m, d) + Bit(c >= d)
      && Remainder(2 * m + b, d) == if c >= d then c - d else c
    decreases m
  {
    if m >= d { AppendBit(m - d, b, d); }
  }

  lemma {:induction false} RemainderBounds(m: nat, d: nat)
    requires d > 0
    ensures Remainder(m, d) < d && Remainder(m, d) <= m && Quotient(m, d) <= m
    decreases m
  {
    if m >= d { RemainderBounds(m - d, d); }
  }

  /** The top k + 1 bits are the top k bits and the next one. */
  lemma {:induction false} NextBit(n: nat, j: nat)
    ensures Shr(n, j) == 2 * Shr(n, j + 1) + Shr(n, j) % 2
  {
    if j > 0 { NextBit(n / 2, j - 1); }
  }

  /** After k steps the remainder is that of the top k dividend bits, so it is below 2^k, and the
      quotient holds its top k bits in place. */
  ghost predicate AfterSteps(w: nat, s: State, args: seq<nat>, n: nat, d: nat, k: nat)
    requires d > 0 && k <= w
  {
    var m := Shr(n, w - k);
    && m < Pow2(k)
    && Means(s.remainder, args, Remainder(m, d))
    && Means(s.quotient, args, Shl(Quotient(m, d), w - k))
  }

  lemma {:induction false} StepCorrect(
      w: nat, left: Expr, right: Expr, args: seq<nat>, n: nat, d: nat, step: nat, s: State)
    requires 1 < w && step < w < Pow2(w) && n < Pow2(w) && 0 < d < Pow2(w) && Means(left, args, n)
    requires Means(right, args, d)
    requires AfterSteps(w, s, args, n, d, step)
    ensures AfterSteps(w, EmitStep(w, left, right, step, s), args, n, d, step + 1)
  {
    var bit := w - 1 - step;
    var m, next := Shr(n, bit + 1), Shr(n, bit);
    var r, q, b := Remainder(m, d), Quotient(m, d), Shr(n, bit) % 2;
    NextBit(n, bit);
    AppendBit(m, b, d);
    RemainderBounds(m, d);
    ShrFits(n, w, bit);
    Pow2Monotone(step + 1, w);
    assert Pow2(step + 1) == 2 * Pow2(step);
    CandidateCorrect(w, left, s.remainder, args, n, bit, r);
    var candidate := EmitCandidate(w, left, s.remainder, bit);
    var c := 2 * r + b;
    ICmpRule(Uge, w, candidate, right, args, c, d);
    SubRule(w, candidate, right, args, c, d);
    SelectRule(ICmp(Uge, w, candidate, right), Bin(Sub, w, candidate, right), candidate, args, c >= d, SubWord(w, c, d),
      c);
    QuotientBitCorrect(w, s.quotient, args, q, bit, m);
    SelectRule(ICmp(Uge, w, candidate, right), Bin(Or, w, s.quotient, Lit(Pow2(bit))), s.quotient, args,
               c >= d, Shl(2 * q + 1, bit), Shl(2 * q, bit));
  }

  function EmitCandidate(w: nat, left: Expr, remainder: Expr, bit: nat): Expr
  {
    Bin(Or, w, Bin(LShl, w, remainder, Lit(1)), Bin(And, w, Bin(LShr, w, left, Lit(bit)), Lit(1)))
  }

  /** The shifted remainder and the next dividend bit; the shift loses nothing. */
  lemma {:induction false} CandidateCorrect(
      w: nat, left: Expr, remainder: Expr, args: seq<nat>, n: nat, bit: nat, r: nat)
    requires 1 < w && bit < w < Pow2(w) && n < Pow2(w) && 2 * r + 1 < Pow2(w) && Means(left, args, n)
    requires Means(remainder, args, r)
    ensures Means(EmitCandidate(w, left, remainder, bit), args, 2 * r + Shr(n, bit) % 2)
  {
    var next := Shr(n, bit);
    ShrFits(n, w, bit);
    ShrRule(w, left, Lit(bit), args, n, bit);
    assert Pow2(1) == 2 && Low(next, 1) == next % 2 && Shl(r, 1) == 2 * r;
    AndMaskRule(w, Bin(LShr, w, left, Lit(bit)), Lit(1), args, next, 1);
    ShlRule(w, remainder, Lit(1), args, r, 1);
    OrDisjoint(r, 1, next % 2);
    OrRule(w, Bin(LShl, w, remainder, Lit(1)), Bin(And, w, Bin(LShr, w, left, Lit(bit)), Lit(1)), args, 2 * r,
      next % 2);
  }

  lemma {:induction false} QuotientBitCorrect(w: nat, quotient: Expr, args: seq<nat>, q: nat, bit: nat, m: nat)
    requires bit < w && Means(quotient, args, Shl(q, bit + 1)) && q <= m < Pow2(w - 1 - bit)
    ensures Means(Bin(Or, w, quotient, Lit(Pow2(bit))), args, Shl(2 * q + 1, bit))
    ensures Shl(q, bit + 1) == Shl(2 * q, bit)
  {
    ShlDouble(q, bit);
    ShlAdd(2 * q, 1, bit);
    ShlOne(bit);
    ShlFits(q, w - 1 - bit, bit + 1);
    Pow2Increasing(bit, w);
    OrDisjoint(q, bit + 1, Pow2(bit));
    OrRule(w, quotient, Lit(Pow2(bit)), args, Shl(q, bit + 1), Pow2(bit));
  }

  lemma {:induction false} StepsCorrect(w: nat, left: Expr, right: Expr, args: seq<nat>, n: nat, d: nat, k: nat)
    requires k <= w < Pow2(w) && 1 < w && n < Pow2(w) && 0 < d < Pow2(w) && Means(left, args, n)
    requires Means(right, args, d)
    ensures AfterSteps(w, EmitSteps(w, left, right, k), args, n, d, k)
    decreases k
  {
    if k == 0 {
      LowSmall(n, w);
      OrRule(w, Lit(0), Lit(0), args, 0, 0);
      ShlOne(w);
    } else {
      StepsCorrect(w, left, right, args, n, d, k - 1);
      StepCorrect(w, left, right, args, n, d, k - 1, EmitSteps(w, left, right, k - 1));
    }
  }

  /** The expansion truncates toward zero for every nonzero divisor; the remainder takes the sign of
      the dividend, and MIN rem -1 is 0. */
  lemma {:induction false} ExpandDivides(w: nat, signed: bool, divide: bool, a: nat, b: nat)
    requires 1 < w && a < Pow2(w) && 0 < b < Pow2(w)
    ensures SourceValue(w, signed, b) != 0
    ensures var x, y := SourceValue(w, signed, a), SourceValue(w, signed, b);
      var i := if divide then TruncDiv(x, y) else TruncRem(x, y);
      -(Pow2(w) as int) <= i < Pow2(w) && Means(Expand(w, signed, divide), [a, b], Encode(w, i))
  {
    var args, o := [a, b], EmitOperands(w, signed);
    var x, y := SourceValue(w, signed, a), SourceValue(w, signed, b);
    var n, d := Abs(x), Abs(y);
    SmallBelowPow2(w);
    OperandCorrect(w, signed, args, 0);
    OperandCorrect(w, signed, args, 1);
    StepsCorrect(w, o.left, o.right, args, n, d, w);
    var s := EmitSteps(w, o.left, o.right, w);
    RemainderBounds(n, d);
    assert Shr(n, 0) == n && Shl(Quotient(n, d), 0) == Quotient(n, d);
    ResultCorrect(w, signed, divide, o, s, args, Signed(w, a) < 0, Signed(w, b) < 0,
                  if divide then Quotient(n, d) else Remainder(n, d));
  }

  lemma {:induction false} OperandCorrect(w: nat, signed: bool, args: seq<nat>, i: nat)
    requires 0 < w && i < |args| && args[i] < Pow2(w)
    ensures Abs(SourceValue(w, signed, args[i])) < Pow2(w)
    ensures var negative := ICmp(Slt, w, Arg(i), Lit(0));
      && Means(negative, args, Bit(Signed(w, args[i]) < 0))
      && Means(Select(if signed then negative else Lit(0), Bin(Sub, w, Lit(0), Arg(i)), Arg(i)), args,
               Abs(SourceValue(w, signed, args[i])))
  {
    var v, negative := args[i], ICmp(Slt, w, Arg(i), Lit(0));
    MagnitudeValue(w, signed, v);
    ICmpRule(Slt, w, Arg(i), Lit(0), args, v, 0);
    SubRule(w, Lit(0), Arg(i), args, 0, v);
    SelectRule(if signed then negative else Lit(0), Bin(Sub, w, Lit(0), Arg(i)), Arg(i), args,
               signed && Signed(w, v) < 0, SubWord(w, 0, v), v);
  }

  lemma {:induction false} ResultCorrect(
      w: nat, signed: bool, divide: bool, o: Operands, s: State, args: seq<nat>, p: bool, q: bool, u: nat)
    requires 0 < w && u < Pow2(w) && Means(o.leftNegative, args, Bit(p)) && Means(o.rightNegative, args, Bit(q))
    requires Means(if divide then s.quotient else s.remainder, args, u)
    ensures Means(EmitResult(w, signed, divide, o, s), args,
                  Encode(w, if signed && (if divide then p != q else p) then -(u as int) else u))
  {
    var value := if divide then s.quotient else s.remainder;
    var unsignedResult := Bin(Or, w, value, Lit(0));
    OrRule(w, value, Lit(0), args, u, 0);
    assert BitOr(u, 0) == u;
    BooleanRule(o.leftNegative, o.rightNegative, args, p, q);
    BooleanRule(o.leftNegative, Lit(0), args, p, false);
    SubRule(w, Lit(0), unsignedResult, args, 0, u);
    var negative := if divide then Bin(Xor, 1, o.leftNegative, o.rightNegative) else Bin(Or, 1, o.leftNegative, Lit(0));
    SelectRule(if signed then negative else Lit(0), Bin(Sub, w, Lit(0), unsignedResult), unsignedResult, args,
               signed && (if divide then p != q else p), SubWord(w, 0, u), u);
  }
}
