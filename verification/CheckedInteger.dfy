/** Checked integer arithmetic, shifts and integer-to-integer conversions. */
module CheckedInteger {
  import opened Bits
  import opened Ieee754
  import opened Ssa
  import Division

  // ---- what the operations mean ----

  /** The integer a word stands for. */
  function Read(signed: bool, w: nat, a: nat): (i: int)
    requires w > 0 && a < Pow2(w)
    ensures InRange(signed, w, i)
  {
    if signed then Signed(w, a) else a
  }

  lemma {:induction false} InRangeEncodes(signed: bool, w: nat, i: int)
    requires w > 0 && InRange(signed, w, i)
    ensures -(Pow2(w) as int) <= i < Pow2(w) && Read(signed, w, Encode(w, i)) == i
  {
    assert Pow2(w) == 2 * Pow2(w - 1);
  }

  // ---- widening: compute in twice the width, truncate, extend back and compare ----

  datatype WidenedOp = Plus | Minus | Times

  function Exact(op: WidenedOp, a: int, b: int): int
  {
    match op
    case Plus => a + b
    case Minus => a - b
    case Times => a * b
  }

  function Instruction(op: WidenedOp): BinOp
  {
    match op
    case Plus => Add
    case Minus => Sub
    case Times => Mul
  }

  function Extend(signed: bool, from: nat, into: nat, x: Expr): Expr
  {
    Un(if signed then Sext(from, into) else Zext(from), x)
  }

  function RenderWidened(op: WidenedOp, signed: bool, w: nat, code: nat): Checked
  {
    var wideLeft := Extend(signed, w, 2 * w, Arg(0));
    var wideRight := Extend(signed, w, 2 * w, Arg(1));
    var wideResult := Bin(Instruction(op), 2 * w, wideLeft, wideRight);
    var result := Un(Trunc(w), wideResult);
    var roundtrip := Extend(signed, w, 2 * w, result);
    Checked(ICmp(Ne, 2 * w, wideResult, roundtrip), Lit(code), result)
  }

  /** A two's-complement word truncated to w bits is the w-bit word of the same integer. */
  lemma {:induction false} TruncEncode(w: nat, k: nat, i: int)
    requires w <= k && -(Pow2(w) as int) <= i < Pow2(w)
    ensures Pow2(w) <= Pow2(k) && Low(Encode(k, i), w) == Encode(w, i)
  {
    Pow2Monotone(w, k);
    ShlOne(w);
    if i >= 0 {
      SplitUnique(i, w, 0, i);
    } else {
      var q := Pow2(k - w) - 1;
      ShlAdd(q, 1, w);
      ShlPow2(k - w, w);
      SplitUnique(i + Pow2(k), w, q, i + Pow2(w));
    }
  }

  lemma {:induction false} ExtendRule(signed: bool, from: nat, into: nat, x: Expr, args: seq<nat>, a: nat)
    requires 0 < from <= into && a < Pow2(from) && Means(x, args, a)
    ensures -(Pow2(into) as int) <= Read(signed, from, a) < Pow2(into)
    ensures Means(Extend(signed, from, into, x), args, Encode(into, Read(signed, from, a)))
  {
    Pow2Monotone(from, into);
    assert Pow2(from) == 2 * Pow2(from - 1);
    UnRule(if signed then Sext(from, into) else Zext(from), x, args, a, Encode(into, Read(signed, from, a)));
  }

  /** The widened instruction computes the exact integer. */
  lemma {:induction false} WideExact(op: WidenedOp, signed: bool, w: nat, a: int, b: int)
    requires w > 0 && InRange(signed, w, a) && InRange(signed, w, b)
    ensures var r: int, m: int := Exact(op, a, b), Pow2(2 * w);
      && -m <= 2 * r && r < m && (signed ==> 2 * r < m)
      && -m <= a < m && -m <= b < m
      && EvalBin(Instruction(op), 2 * w, Encode(2 * w, a), Encode(2 * w, b)) == Val(Encode(2 * w, r))
  {
    WideBounds(w);
    if op.Times? {
      ProductBounds(signed, w, a, b);
      ProductEncode(2 * w, a, b);
    }
  }

  lemma {:induction false} WideBounds(w: nat)
    requires w > 0
    ensures Pow2(w) == 2 * Pow2(w - 1) && 2 * Pow2(w) <= Pow2(2 * w) && Pow2(w) * Pow2(w) == Pow2(2 * w)
    ensures 4 * (Pow2(w - 1) * Pow2(w - 1)) == Pow2(2 * w)
  {
    ShlPow2(w, w);
    ShlIsTimes(Pow2(w), w);
    Pow2Increasing(w, 2 * w);
    var h := Pow2(w - 1);
    assert (2 * h) * (2 * h) == 4 * (h * h);
  }

  lemma {:induction false} ProductBounds(signed: bool, w: nat, a: int, b: int)
    requires w > 0 && InRange(signed, w, a) && InRange(signed, w, b)
    ensures -(Pow2(2 * w) as int) < 2 * (a * b) && a * b < Pow2(2 * w) && (signed ==> 2 * (a * b) < Pow2(2 * w))
  {
    WideBounds(w);
    if signed {
      AbsProduct(a, b, Pow2(w - 1));
    } else {
      NatProduct(a, b, Pow2(w));
    }
  }

  lemma {:induction false} NatProduct(a: nat, b: nat, h: nat)
    requires a < h && b < h
    ensures 0 <= a * b < h * h
  {
    MulMonotone(a, h - 1, b);
    MulMonotone(b, h, h - 1);
    assert (h - 1) * b == b * (h - 1) && h * (h - 1) == h * h - h;
    MulMonotone(0, a, b);
  }

  lemma {:induction false} AbsProduct(a: int, b: int, c: int)
    requires -c <= a <= c && -c <= b <= c
    ensures -(c * c) <= a * b <= c * c
  {
    var x, y := Abs(a), Abs(b);
    NonnegativeProduct(x, y, c);
    SignedProduct(a, b);
  }

  lemma {:induction false} NonnegativeProduct(x: nat, y: nat, c: int)
    requires x <= c && y <= c
    ensures 0 <= x * y <= c * c
  {
    MulMonotone(0, x, y);
    MulMonotone(x, c, y);
    MulMonotone(y, c, c);
    assert c * y == y * c;
  }

  lemma {:induction false} SignedProduct(a: int, b: int)
    ensures a * b == Abs(a) * Abs(b) || a * b == -(Abs(a) * Abs(b))
  {
    assert (-a) * b == -(a * b) && a * (-b) == -(a * b) && (-a) * (-b) == a * b;
  }

  lemma {:induction false} ProductEncode(k: nat, a: int, b: int)
    requires -(Pow2(k) as int) <= a < Pow2(k) && -(Pow2(k) as int) <= b < Pow2(k) && -(Pow2(k) as int) < a * b < Pow2(k)
    ensures Low(Product(Encode(k, a), Encode(k, b)), k) == Encode(k, a * b)
  {
    if a >= 0 && b >= 0 {
      MulMonotone(0, a, b);
      ProductWord(k, a, b, a * b, 0);
    } else if a < 0 && b < 0 {
      NegativeProduct(k, a, b);
    } else if a < 0 {
      MixedProduct(k, a, b);
    } else {
      MixedProduct(k, b, a);
      Commuted(k, b, a);
    }
  }

  lemma {:induction false} Commuted(k: nat, b: int, a: nat)
    requires -(Pow2(k) as int) <= b
    ensures Product(b + Pow2(k), a) == Product(a, b + Pow2(k)) && b * a == a * b
  {
    ProductIsTimes(b + Pow2(k), a);
    ProductIsTimes(a, b + Pow2(k));
    Commute(b + Pow2(k), a);
  }

  lemma {:induction false} Commute(a: int, b: int)
    ensures a * b == b * a
  {
  }

  lemma {:induction false} NegativeProduct(k: nat, a: int, b: int)
    requires -(Pow2(k) as int) <= a < 0 && -(Pow2(k) as int) <= b < 0 && a * b < Pow2(k)
    ensures a * b > 0 && Low(Product(a + Pow2(k), b + Pow2(k)), k) == a * b
  {
    BothNegative(a, b);
    ExpandBoth(a, b, Pow2(k));
    ProductWord(k, a + Pow2(k), b + Pow2(k), a * b, a + b + Pow2(k));
  }

  lemma {:induction false} BothNegative(a: int, b: int)
    requires a < 0 && b < 0
    ensures a * b > 0
  {
    MulMonotone(1, -a, -b);
    assert (-a) * (-b) == a * b;
  }

  lemma {:induction false} ExpandBoth(a: int, b: int, m: int)
    ensures (a + m) * (b + m) == a * b + (a + b + m) * m
  {
    assert (a + m) * (b + m) == a * (b + m) + m * (b + m);
    assert a * (b + m) == a * b + a * m && m * (b + m) == m * b + m * m && (a + b + m) * m == a * m + b * m + m * m;
  }

  lemma {:induction false} MixedProduct(k: nat, a: int, b: int)
    requires -(Pow2(k) as int) <= a < 0 <= b < Pow2(k) && -(Pow2(k) as int) < a * b
    ensures a * b <= 0 && Low(Product(a + Pow2(k), b), k) == Encode(k, a * b)
  {
    var m := Pow2(k);
    assert (a + m) * b == a * b + b * m;
    if b == 0 {
      ProductWord(k, a + m, 0, 0, 0);
    } else {
      MulMonotone(a, -1, b);
      assert b * m == (b - 1) * m + m;
      ProductWord(k, a + m, b, a * b + m, b - 1);
    }
  }

  lemma {:induction false} ProductWord(k: nat, x: nat, y: nat, p: nat, q: int)
    requires p < Pow2(k) && x * y == p + q * Pow2(k)
    ensures Low(Product(x, y), k) == p
  {
    ProductIsTimes(x, y);
    if q < 0 { MulMonotone(q, -1, Pow2(k)); MulMonotone(0, x, y); }
    ShlIsTimes(q, k);
    SplitUnique(x * y, k, q, p);
  }

  /** The round trip through w bits restores the wide word exactly when the integer fits. */
  lemma {:induction false} RoundTrip(signed: bool, w: nat, r: int)
    requires w > 0 && -(Pow2(2 * w) as int) <= 2 * r && r < Pow2(2 * w) && (signed ==> 2 * r < Pow2(2 * w))
    ensures var n := Low(Encode(2 * w, r), w);
      && -(Pow2(2 * w) as int) <= Read(signed, w, n) < Pow2(2 * w)
      && (Encode(2 * w, Read(signed, w, n)) == Encode(2 * w, r) <==> InRange(signed, w, r))
      && (InRange(signed, w, r) ==> n == Encode(w, r))
  {
    WideBounds(w);
    if InRange(signed, w, r) {
      InRangeEncodes(signed, w, r);
      TruncEncode(w, 2 * w, r);
    }
  }

  /** Checked addition, subtraction and multiplication trap exactly when the integer result has no
      word, and otherwise return its word. */
  lemma {:induction false} WidenedCorrect(op: WidenedOp, signed: bool, w: nat, code: nat, a: nat, b: nat)
    requires w > 0 && a < Pow2(w) && b < Pow2(w)
    ensures var r := Exact(op, Read(signed, w, a), Read(signed, w, b));
      Run(RenderWidened(op, signed, w, code), [a, b])
      == if InRange(signed, w, r) then Result(EncodeInRange(signed, w, r)) else Fatal(code)
  {
    var args, i, j := [a, b], Read(signed, w, a), Read(signed, w, b);
    var r, k := Exact(op, i, j), 2 * w;
    WideExact(op, signed, w, i, j);
    ExtendRule(signed, w, k, Arg(0), args, a);
    ExtendRule(signed, w, k, Arg(1), args, b);
    var wide := Bin(Instruction(op), k, Extend(signed, w, k, Arg(0)), Extend(signed, w, k, Arg(1)));
    BinRule(Instruction(op), k, wide.x, wide.y, args, Encode(k, i), Encode(k, j), Encode(k, r));
    var n := Low(Encode(k, r), w);
    UnRule(Trunc(w), wide, args, Encode(k, r), n);
    RoundTrip(signed, w, r);
    ExtendRule(signed, w, k, Un(Trunc(w), wide), args, n);
    var roundtrip := Extend(signed, w, k, Un(Trunc(w), wide));
    ICmpRule(Ne, k, wide, roundtrip, args, Encode(k, r), Encode(k, Read(signed, w, n)));
    RunRule(RenderWidened(op, signed, w, code), args, !InRange(signed, w, r), code, n);
  }

  /** The word of an integer that fits. */
  function EncodeInRange(signed: bool, w: nat, i: int): nat
    requires w > 0 && InRange(signed, w, i)
  {
    InRangeEncodes(signed, w, i);
    Encode(w, i)
  }

  /** From the meanings of its parts to the outcome of a checked operation. */
  lemma {:induction false} RunRule(c: Checked, args: seq<nat>, failed: bool, code: nat, n: nat)
    requires Means(c.failed, args, Bit(failed)) && Means(c.code, args, code)
    requires !failed ==> Means(c.result, args, n)
    ensures Run(c, args) == if failed then Fatal(code) else Result(n)
  {
    Meaning(c.failed, args, Bit(failed));
    Meaning(c.code, args, code);
    if !failed { Meaning(c.result, args, n); }
  }

  // ---- division ----

  /** `soft` is the renderer's choice to expand the division instead of emitting an instruction; it
      does so at 128 bits. */
  function RenderDivision(divide: bool, signed: bool, w: nat, soft: bool, code: nat): Checked
    requires w > 0
  {
    var zero := ICmp(Eq, w, Arg(1), Lit(0));
    var overflow :=
      if divide && signed then
        Bin(And, 1, ICmp(Eq, w, Arg(0), Lit(Pow2(w - 1))), ICmp(Eq, w, Arg(1), Lit(Pow2(w) - 1)))
      else Lit(0);
    var op := if divide then (if signed then SDiv else UDiv) else (if signed then SRem else URem);
    Checked(Bin(Or, 1, zero, overflow), Lit(code),
            if soft then Division.Expand(w, signed, divide) else Bin(op, w, Arg(0), Arg(1)))
  }

  function ExactDivision(divide: bool, a: int, b: int): int
    requires b != 0
  {
    if divide then TruncDiv(a, b) else TruncRem(a, b)
  }

  /** MIN / -1 is the only quotient of words without a word; every remainder has one. */
  lemma {:induction false} DivisionRange(divide: bool, signed: bool, w: nat, a: nat, b: nat)
    requires w > 1 && a < Pow2(w) && 0 < b < Pow2(w)
    ensures var y := Read(signed, w, b);
      y != 0 && (InRange(signed, w, ExactDivision(divide, Read(signed, w, a), y))
                 <==> !(divide && signed && SignedOverflow(w, a, b)))
  {
    var x, y := Read(signed, w, a), Read(signed, w, b);
    assert Pow2(w) == 2 * Pow2(w - 1) && Pow2(w - 1) == 2 * Pow2(w - 2);
    Division.RemainderBounds(Abs(x), Abs(y));
    if Abs(y) > 1 {
      SmallerQuotient(Abs(x), Abs(y));
    } else {
      QuotientByOne(Abs(x));
    }
  }

  lemma {:induction false} SmallerQuotient(a: nat, b: nat)
    requires b > 1
    ensures 2 * Quotient(a, b) <= a
    decreases a
  {
    if a >= b { SmallerQuotient(a - b, b); }
  }

  lemma {:induction false} QuotientByOne(a: nat)
    ensures Quotient(a, 1) == a
  {
    if a >= 1 { QuotientByOne(a - 1); }
  }

  /** Division and remainder trap exactly when there is no result to return, and otherwise return
      the truncated one. The exception is LLVM's `srem`, which leaves MIN rem -1 undefined: without
      the expansion the renderer emits it unguarded. */
  lemma {:induction false} DivisionCorrect(divide: bool, signed: bool, w: nat, soft: bool, code: nat, a: nat, b: nat)
    requires w > 1 && a < Pow2(w) && b < Pow2(w)
    ensures var outcome, x, y := Run(RenderDivision(divide, signed, w, soft, code), [a, b]), Read(signed, w,
      a), Read(signed, w, b);
      if y == 0 || !InRange(signed, w, ExactDivision(divide, x, y)) then outcome == Fatal(code)
      else if !divide && signed && !soft && SignedOverflow(w, a, b) then outcome == Undefined
      else outcome == Result(EncodeInRange(signed, w, ExactDivision(divide, x, y)))
  {
    var args, c := [a, b], RenderDivision(divide, signed, w, soft, code);
    var failed := b == 0 || (divide && signed && SignedOverflow(w, a, b));
    DivisionGuard(divide, signed, w, soft, code, a, b);
    if b > 0 {
      DivisionRange(divide, signed, w, a, b);
      Division.ExpandDivides(w, signed, divide, a, b);
    }
    if failed {
      RunRule(c, args, true, code, 0);
    } else {
      var i := ExactDivision(divide, Read(signed, w, a), Read(signed, w, b));
      InRangeEncodes(signed, w, i);
      if soft {
        RunRule(c, args, false, code, Encode(w, i));
      } else if !divide && signed && SignedOverflow(w, a, b) {
        Meaning(c.failed, args, 0);
        RemainderUndefined(w, a, b);
      } else {
        BinRule(c.result.op, w, Arg(0), Arg(1), args, a, b, Encode(w, i));
        RunRule(c, args, false, code, Encode(w, i));
      }
    }
  }

  lemma {:induction false} RemainderUndefined(w: nat, a: nat, b: nat)
    requires w > 0 && a < Pow2(w) && b < Pow2(w) && SignedOverflow(w, a, b)
    ensures Eval(Bin(SRem, w, Arg(0), Arg(1)), [a, b]) == Poison
  {
    assert Eval(Arg(0), [a, b]) == Val(a) && Eval(Arg(1), [a, b]) == Val(b);
  }

  lemma {:induction false} DivisionGuard(divide: bool, signed: bool, w: nat, soft: bool, code: nat, a: nat, b: nat)
    requires w > 1 && a < Pow2(w) && b < Pow2(w)
    ensures Means(RenderDivision(divide, signed, w, soft, code).failed, [a, b],
                  Bit(b == 0 || (divide && signed && SignedOverflow(w, a, b))))
  {
    var args, c := [a, b], RenderDivision(divide, signed, w, soft, code);
    Pow2Increasing(w - 1, w);
    ICmpRule(Eq, w, Arg(1), Lit(0), args, b, 0);
    if divide && signed {
      var minimum, minusOne := ICmp(Eq, w, Arg(0), Lit(Pow2(w - 1))), ICmp(Eq, w, Arg(1), Lit(Pow2(w) - 1));
      ICmpRule(Eq, w, Arg(0), Lit(Pow2(w - 1)), args, a, Pow2(w - 1));
      ICmpRule(Eq, w, Arg(1), Lit(Pow2(w) - 1), args, b, Pow2(w) - 1);
      BooleanRule(minimum, minusOne, args, a == Pow2(w - 1), b == Pow2(w) - 1);
    }
    BooleanRule(c.failed.x, c.failed.y, args, b == 0, divide && signed && SignedOverflow(w, a, b));
  }

  // ---- shifts ----

  const INVALID_SHIFT_COUNT := 6
  const CHECKED_SHIFT_RESULT_LOSS := 5

  function EmitCountInvalid(signed: bool, w: nat): Expr
  {
    if signed then Bin(Or, 1, ICmp(Slt, w, Arg(1), Lit(0)), ICmp(Sge, w, Arg(1), Lit(w)))
    else ICmp(Uge, w, Arg(1), Lit(w))
  }

  function RenderShiftLeft(signed: bool, w: nat): Checked
  {
    var countInvalid := EmitCountInvalid(signed, w);
    var safeCount := Select(countInvalid, Lit(0), Arg(1));
    var result := Bin(LShl, w, Arg(0), safeCount);
    var roundtrip := Bin(if signed then AShr else LShr, w, result, safeCount);
    var lost := ICmp(Ne, w, roundtrip, Arg(0));
    Checked(Bin(Or, 1, countInvalid, lost),
            Select(countInvalid, Lit(INVALID_SHIFT_COUNT), Lit(CHECKED_SHIFT_RESULT_LOSS)), result)
  }

  function RenderShiftLeftWrapping(signed: bool, w: nat): Checked
  {
    var countInvalid := EmitCountInvalid(signed, w);
    var safeCount := Select(countInvalid, Lit(0), Arg(1));
    Checked(Bin(Or, 1, countInvalid, Lit(0)), Lit(INVALID_SHIFT_COUNT), Bin(LShl, w, Arg(0), safeCount))
  }

  function RenderShiftRight(signed: bool, w: nat): Checked
  {
    Checked(EmitCountInvalid(signed, w), Lit(INVALID_SHIFT_COUNT),
            Bin(if signed then AShr else LShr, w, Arg(0), Arg(1)))
  }

  /** i * 2^c for a signed i */
  function ShlInt(i: int, c: nat): int
  {
    if i >= 0 then Shl(i, c) else -(Shl(-i, c) as int)
  }

  predicate ValidCount(w: nat, count: int) { 0 <= count < w }

  lemma {:induction false} CountInvalidExact(signed: bool, w: nat, a: nat, b: nat)
    requires 3 <= w && b < Pow2(w)
    ensures Means(EmitCountInvalid(signed, w), [a, b], Bit(!ValidCount(w, Read(signed, w, b))))
    ensures w < Pow2(w) && (ValidCount(w, Read(signed, w, b)) ==> Read(signed, w, b) == b)
  {
    WidthBelowHalf(w);
    ICmpRule(Slt, w, Arg(1), Lit(0), [a, b], b, 0);
    ICmpRule(Sge, w, Arg(1), Lit(w), [a, b], b, w);
    ICmpRule(Uge, w, Arg(1), Lit(w), [a, b], b, w);
    BooleanRule(ICmp(Slt, w, Arg(1), Lit(0)), ICmp(Sge, w, Arg(1), Lit(w)), [a, b], Signed(w, b) < 0,
      Signed(w, b) >= w);
  }

  lemma {:induction false} WidthBelowHalf(w: nat)
    requires w >= 3
    ensures w < Pow2(w - 1) && Pow2(w) == 2 * Pow2(w - 1)
  {
    if w == 3 { assert Pow2(2) == 4; } else { WidthBelowHalf(w - 1); }
  }

  lemma {:induction false} SafeCountRule(signed: bool, w: nat, a: nat, b: nat, c: nat)
    requires 3 <= w && b < Pow2(w) && c == (if ValidCount(w, Read(signed, w, b)) then b else 0)
    ensures Means(Select(EmitCountInvalid(signed, w), Lit(0), Arg(1)), [a, b], c) && c < w < Pow2(w)
  {
    CountInvalidExact(signed, w, a, b);
    SelectRule(EmitCountInvalid(signed, w), Lit(0), Arg(1), [a, b], !ValidCount(w, Read(signed, w, b)), 0, b);
  }

  /** A multiple of m strictly between -m and m is zero. */
  lemma {:induction false} SmallMultiple(t: int, m: int)
    requires m > 0 && -m < t * m < m
    ensures t == 0
  {
    if t >= 1 { MulMonotone(1, t, m); } else if t <= -1 { MulMonotone(t, -1, m); }
  }

  /** The shifted word stands for i * 2^c up to a multiple of 2^w. */
  lemma {:induction false} ShiftedCongruent(w: nat, a: nat, c: nat) returns (t: int)
    requires w > 0 && a < Pow2(w)
    ensures Signed(w, Low(Shl(a, c), w)) == ShlInt(Signed(w, a), c) + t * Pow2(w)
  {
    var n, q := Low(Shl(a, c), w), Shr(Shl(a, c), w);
    Split(Shl(a, c), w);
    ShlIsTimes(q, w);
    var wrapped, negative := Bit(n >= Pow2(w - 1)), if Signed(w, a) < 0 then Pow2(c) else 0;
    ShlIntWord(w, a, c);
    ShlIsTimes(negative, w);
    ShlOne(w);
    t := negative - q - wrapped;
    Distribute(negative, q, wrapped, Pow2(w));
  }

  lemma {:induction false} Distribute(p: int, q: int, r: int, m: int)
    ensures (p - q - r) * m == p * m - q * m - r * m
  {
  }

  lemma {:induction false} ShlIntWord(w: nat, a: nat, c: nat)
    requires w > 0 && a < Pow2(w)
    ensures ShlInt(Signed(w, a), c) == Shl(a, c) - Shl(if Signed(w, a) < 0 then Pow2(c) else 0, w)
  {
    var i := Signed(w, a);
    ShlOne(w);
    if i < 0 {
      ShlAdd(a, -i, c);
      ShlPow2(w, c);
      ShlPow2(c, w);
    }
  }

  lemma {:induction false} ShrIntShlInt(i: int, c: nat, s: int)
    ensures s == ShlInt(i, c) ==> ShrInt(s, c) == i
    ensures ShrInt(s, c) == i ==> ShlInt(i, c) <= s < ShlInt(i, c) + Pow2(c)
  {
    ShlOne(c);
    if s >= 0 {
      Split(s, c);
      if s == ShlInt(i, c) && i >= 0 { SplitUnique(s, c, i, 0); }
      if i < 0 { ShlLess(0, -i, c); }
    } else {
      var p := -1 - s;
      Split(p, c);
      var q := Shr(p, c);
      ShlAdd(q, 1, c);
      if s == ShlInt(i, c) && i < 0 { ShlAdd(-i - 1, 1, c); SplitUnique(p, c, -i - 1, Pow2(c) - 1); }
    }
  }

  /** Shifting back restores the operand exactly when no bit of the result was lost. */
  lemma {:induction false} LostExact(signed: bool, w: nat, a: nat, c: nat)
    requires w > 0 && a < Pow2(w) && c < w
    ensures var n, i := Low(Shl(a, c), w), ShlInt(Read(signed, w, a), c);
      && ((if signed then ShrInt(Signed(w, n), c) == Signed(w, a) else Shr(n, c) == a) <==> InRange(signed, w, i))
      && (InRange(signed, w, i) ==> -(Pow2(w) as int) <= i < Pow2(w) && n == Encode(w, i))
  {
    var n := Low(Shl(a, c), w);
    Pow2Increasing(c, w);
    if signed {
      var i := ShlInt(Signed(w, a), c);
      assert Pow2(w) == 2 * Pow2(w - 1);
      var t := ShiftedCongruent(w, a, c);
      ShrIntShlInt(Signed(w, a), c, Signed(w, n));
      if InRange(true, w, i) || ShrInt(Signed(w, n), c) == Signed(w, a) { SmallMultiple(t, Pow2(w)); }
    } else {
      if Shl(a, c) < Pow2(w) { LowSmall(Shl(a, c), w); SplitUnique(Shl(a, c), c, a, 0); }
      Split(n, c);
    }
  }

  /** Checked left shift: an invalid count takes precedence over lost bits, which trap exactly when
      i * 2^c has no word. */
  lemma {:induction false} ShiftLeftCorrect(signed: bool, w: nat, a: nat, b: nat)
    requires 3 <= w && a < Pow2(w) && b < Pow2(w)
    ensures var outcome, count := Run(RenderShiftLeft(signed, w), [a, b]), Read(signed, w, b);
      if !ValidCount(w, count) then outcome == Fatal(INVALID_SHIFT_COUNT)
      else
        var i := ShlInt(Read(signed, w, a), count);
        if !InRange(signed, w, i) then outcome == Fatal(CHECKED_SHIFT_RESULT_LOSS)
        else outcome == Result(EncodeInRange(signed, w, i))
  {
    var args, r := [a, b], RenderShiftLeft(signed, w);
    var valid := ValidCount(w, Read(signed, w, b));
    var c := if valid then b else 0;
    var safe, invalid := Select(EmitCountInvalid(signed, w), Lit(0), Arg(1)), EmitCountInvalid(signed, w);
    CountInvalidExact(signed, w, a, b);
    SafeCountRule(signed, w, a, b, c);
    var n := Low(Shl(a, c), w);
    BinRule(LShl, w, Arg(0), safe, args, a, c, n);
    LostExact(signed, w, a, c);
    var back := ShiftBack(signed, w, Bin(LShl, w, Arg(0), safe), safe, args, n, c);
    ICmpRule(Ne, w, Bin(if signed then AShr else LShr, w, Bin(LShl, w, Arg(0), safe), safe), Arg(0), args, back, a);
    var fits := InRange(signed, w, ShlInt(Read(signed, w, a), c));
    assert back == a <==> fits;
    BooleanRule(invalid, r.failed.y, args, !valid, !fits);
    SelectRule(invalid, Lit(INVALID_SHIFT_COUNT), Lit(CHECKED_SHIFT_RESULT_LOSS), args, !valid, INVALID_SHIFT_COUNT,
      CHECKED_SHIFT_RESULT_LOSS);
    if valid && fits { assert n == EncodeInRange(signed, w, ShlInt(Read(signed, w, a), c)); }
    RunRule(r, args, !valid || !fits, if !valid then INVALID_SHIFT_COUNT else CHECKED_SHIFT_RESULT_LOSS, n);
  }

  lemma {:induction false} ShiftBack(
      signed: bool, w: nat, x: Expr, count: Expr, args: seq<nat>, n: nat, c: nat) returns (back: nat)
    requires c < w < Pow2(w) && n < Pow2(w) && Means(x, args, n) && Means(count, args, c)
    ensures Means(Bin(if signed then AShr else LShr, w, x, count), args, back) && back < Pow2(w)
    ensures if signed then Signed(w, back) == ShrInt(Signed(w, n), c) else back == Shr(n, c)
  {
    if signed {
      ShrIntShrinks(Signed(w, n), c, Pow2(w - 1));
      SignedEncode(w, ShrInt(Signed(w, n), c));
      back := Encode(w, ShrInt(Signed(w, n), c));
      BinRule(AShr, w, x, count, args, n, c, back);
    } else {
      ShrFits(n, w, c);
      back := Shr(n, c);
      BinRule(LShr, w, x, count, args, n, c, back);
    }
  }

  lemma {:induction false} ShrIntShrinks(i: int, c: nat, bound: int)
    requires -bound <= i < bound
    ensures -bound <= ShrInt(i, c) < bound
  {
    var p := if i >= 0 then i else -1 - i;
    Split(p, c);
    ShlAtLeast(Shr(p, c), c);
  }

  /** A wrapping left shift checks its count and keeps the low bits. */
  lemma {:induction false} ShiftLeftWrappingCorrect(signed: bool, w: nat, a: nat, b: nat)
    requires 3 <= w && a < Pow2(w) && b < Pow2(w)
    ensures var count := Read(signed, w, b);
      Run(RenderShiftLeftWrapping(signed, w), [a, b])
      == if ValidCount(w, count) then Result(Low(Shl(a, count), w)) else Fatal(INVALID_SHIFT_COUNT)
  {
    var valid := ValidCount(w, Read(signed, w, b));
    var c, invalid := if valid then b else 0, EmitCountInvalid(signed, w);
    CountInvalidExact(signed, w, a, b);
    SafeCountRule(signed, w, a, b, c);
    BinRule(LShl, w, Arg(0), Select(invalid, Lit(0), Arg(1)), [a, b], a, c, Low(Shl(a, c), w));
    BooleanRule(invalid, Lit(0), [a, b], !valid, false);
    RunRule(RenderShiftLeftWrapping(signed, w), [a, b], !valid, INVALID_SHIFT_COUNT, Low(Shl(a, c), w));
  }

  /** A right shift checks its count and rounds down. */
  lemma {:induction false} ShiftRightCorrect(signed: bool, w: nat, a: nat, b: nat)
    requires 3 <= w && a < Pow2(w) && b < Pow2(w)
    ensures var outcome, count := Run(RenderShiftRight(signed, w), [a, b]), Read(signed, w, b);
      if !ValidCount(w, count) then outcome == Fatal(INVALID_SHIFT_COUNT)
      else outcome.Result? && outcome.n < Pow2(w) && Read(signed, w, outcome.n) == ShrInt(Read(signed, w, a), count)
  {
    var valid := ValidCount(w, Read(signed, w, b));
    CountInvalidExact(signed, w, a, b);
    if valid {
      var back := ShiftBack(signed, w, Arg(0), Arg(1), [a, b], a, b);
      RunRule(RenderShiftRight(signed, w), [a, b], false, INVALID_SHIFT_COUNT, back);
    } else {
      RunRule(RenderShiftRight(signed, w), [a, b], true, INVALID_SHIFT_COUNT, 0);
    }
  }
}
