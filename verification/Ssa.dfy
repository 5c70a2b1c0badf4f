/** The fragment of LLVM IR that numeric lowering emits: side-effect-free SSA over machine words.
    An SSA value is the expression that defines it, so a `var` in an expansion is one emitted
    instruction. Evaluation is strict: an operand of the wrong width, a shift count that reaches the
    width, a division LLVM leaves undefined and a float that does not fit its integer destination
    all yield poison, and poison spreads through every instruction that reads it. */
module Ssa {
  import opened Bits
  import opened Ieee754

  datatype BinOp = Add | Sub | Mul | UDiv | SDiv | URem | SRem | And | Or | Xor | LShl | LShr | AShr
  datatype IntPredicate = Eq | Ne | Ult | Ugt | Uge | Slt | Sge
  datatype UnOp =
    | Zext(from: nat)
    | Sext(from: nat, into: nat)
    | Trunc(into: nat)
    | Ctlz(w: nat)
    | Bitcast(w: nat)
    | Float(op: FloatOp)

  datatype FloatPredicate = Oeq | Olt | Ogt | Oge | One
  datatype FloatOp =
    | FCmp(pred: FloatPredicate, format: Format, constant: nat)   // against a constant, as emitted
    | FromInt(signed: bool, w: nat, format: Format)
    | ToInt(signed: bool, w: nat, format: Format)

  datatype Expr =
    | Arg(i: nat)    // a MachineWir value the expansion reads
    | Lit(n: nat)
    | Un(u: UnOp, x: Expr)
    | Bin(op: BinOp, w: nat, x: Expr, y: Expr)
    | ICmp(pred: IntPredicate, w: nat, x: Expr, y: Expr)
    | Select(x: Expr, y: Expr, z: Expr)   // if x then y else z

  datatype Word = Poison | Val(n: nat)

  // ---- the operators on words that fit their width ----

  function AddWord(w: nat, a: nat, b: nat): nat
  {
    if a + b < Pow2(w) then a + b else a + b - Pow2(w)
  }

  function SubWord(w: nat, a: nat, b: nat): nat
    requires b <= Pow2(w)
  {
    if b <= a then a - b else a + Pow2(w) - b
  }

  function MulWord(w: nat, a: nat, b: nat): nat { Low(Product(a, b), w) }

  function ShlWord(w: nat, a: nat, count: nat): nat { Low(Shl(a, count), w) }

  /** Shifting a signed integer right rounds down. */
  function ShrInt(i: int, count: nat): int
  {
    if i >= 0 then Shr(i, count) else -1 - Shr(-1 - i, count)
  }

  /** Division truncating toward zero, as LLVM's sdiv and the source language define it. */
  function TruncDiv(a: int, b: int): int
    requires b != 0
  {
    var q: int := Quotient(Abs(a), Abs(b));
    if (a < 0) == (b < 0) then q else -q
  }

  function TruncRem(a: int, b: int): int
    requires b != 0
  {
    var r: int := Remainder(Abs(a), Abs(b));
    if a < 0 then -r else r
  }

  function Abs(i: int): (n: nat)
    ensures n == i || n == -i
  {
    if i < 0 then -i else i
  }

  function LeadingZeros(w: nat, a: nat): nat
    requires a < Pow2(w)
    decreases w
  {
    if w == 0 || Pow2(w - 1) <= a then 0 else 1 + LeadingZeros(w - 1, a)
  }

  function EncodeIfFits(w: nat, i: int): Word
  {
    if -(Pow2(w) as int) <= i < Pow2(w) then Val(Encode(w, i)) else Poison
  }

  function EvalBin(op: BinOp, w: nat, a: nat, b: nat): Word
    requires w > 0 && a < Pow2(w) && b < Pow2(w)
  {
    match op
    case Add => Val(AddWord(w, a, b))
    case Sub => Val(SubWord(w, a, b))
    case Mul => Val(MulWord(w, a, b))
    case UDiv => if b == 0 then Poison else EncodeIfFits(w, TruncDiv(a, b))
    case URem => if b == 0 then Poison else EncodeIfFits(w, TruncRem(a, b))
    case SDiv =>
      if b == 0 || SignedOverflow(w, a, b) then Poison else EncodeIfFits(w, TruncDiv(Signed(w, a), Signed(w, b)))
    case SRem =>
      if b == 0 || SignedOverflow(w, a, b) then Poison else EncodeIfFits(w, TruncRem(Signed(w, a), Signed(w, b)))
    case And => Val(BitAnd(a, b))
    case Or => Val(BitOr(a, b))
    case Xor => Val(BitXor(a, b))
    case LShl => if b < w then Val(ShlWord(w, a, b)) else Poison
    case LShr => if b < w then Val(Shr(a, b)) else Poison
    case AShr => if b < w then EncodeIfFits(w, ShrInt(Signed(w, a), b)) else Poison
  }

  /** The one quotient of two words that two's complement cannot hold: MIN / -1. */
  predicate SignedOverflow(w: nat, a: nat, b: nat)
    requires w > 0
  {
    a == Pow2(w - 1) && b == Pow2(w) - 1
  }

  predicate CompareInts(pred: IntPredicate, w: nat, a: nat, b: nat)
    requires w > 0 && a < Pow2(w) && b < Pow2(w)
  {
    match pred
    case Eq => a == b
    case Ne => a != b
    case Ult => a < b
    case Ugt => a > b
    case Uge => a >= b
    case Slt => Signed(w, a) < Signed(w, b)
    case Sge => Signed(w, a) >= Signed(w, b)
  }

  predicate CompareFloats(pred: FloatPredicate, f: Format, a: nat, b: nat)
  {
    && !IsNaN(f, a) && !IsNaN(f, b)
    && match pred
       case Oeq => SignedScaled(f, a) == SignedScaled(f, b)
       case Olt => SignedScaled(f, a) < SignedScaled(f, b)
       case Ogt => SignedScaled(f, a) > SignedScaled(f, b)
       case Oge => SignedScaled(f, a) >= SignedScaled(f, b)
       case One => SignedScaled(f, a) != SignedScaled(f, b)
  }

  // ---- evaluation ----

  predicate IsWord(w: nat, a: Word) { w > 0 && a.Val? && a.n < Pow2(w) }

  function BinValue(op: BinOp, w: nat, a: Word, b: Word): Word
  {
    if IsWord(w, a) && IsWord(w, b) then EvalBin(op, w, a.n, b.n) else Poison
  }

  function ICmpValue(pred: IntPredicate, w: nat, a: Word, b: Word): Word
  {
    if IsWord(w, a) && IsWord(w, b) then Val(Bit(CompareInts(pred, w, a.n, b.n))) else Poison
  }

  function SelectValue(c: Word, a: Word, b: Word): Word
  {
    if c.Val? && c.n <= 1 && a.Val? && b.Val? then (if c.n == 1 then a else b) else Poison
  }

  function UnValue(u: UnOp, a: Word): Word
  {
    match u
    case Zext(from) => if IsWord(from, a) then a else Poison
    case Sext(from, into) => if IsWord(from, a) then EncodeIfFits(into, Signed(from, a.n)) else Poison
    case Trunc(into) => if a.Val? then Val(Low(a.n, into)) else Poison
    case Ctlz(w) => if IsWord(w, a) then Val(LeadingZeros(w, a.n)) else Poison
    case Bitcast(w) => if IsWord(w, a) then a else Poison
    case Float(op) => FloatValue(op, a)
  }

  function FloatValue(op: FloatOp, a: Word): Word
  {
    match op
    case FCmp(pred, f, c) => if IsWord(f.storageBits, a) then Val(Bit(CompareFloats(pred, f, a.n, c))) else Poison
    case FromInt(signed, w, f) =>
      if IsWord(w, a) then Val(RoundSigned(f, if signed then Signed(w, a.n) else a.n)) else Poison
    case ToInt(signed, w, f) =>
      if IsWord(f.storageBits, a) && Truncatable(f, a.n, signed, w) then EncodeIfFits(w, Truncate(f, a.n)) else Poison
  }

  function Eval(e: Expr, args: seq<nat>): Word
    decreases e
  {
    match e
    case Arg(i) => if i < |args| then Val(args[i]) else Poison
    case Lit(n) => Val(n)
    case Un(u, x) => UnValue(u, Eval(x, args))
    case Bin(op, w, x, y) => BinValue(op, w, Eval(x, args), Eval(y, args))
    case ICmp(pred, w, x, y) => ICmpValue(pred, w, Eval(x, args), Eval(y, args))
    case Select(x, y, z) => SelectValue(Eval(x, args), Eval(y, args), Eval(z, args))
  }

  // ---- derivations ----

  predicate Open(k: int, e: Expr) { true }

  /** `e` evaluates to the word n. The guard keeps the evaluator folded: it is opened, for one
      expression at a time, by mentioning `Open`. Proofs derive meanings by the rules below, one
      per emitted instruction. */
  ghost predicate Means(e: Expr, args: seq<nat>, n: nat)
  {
    forall k {:trigger Open(k, e)} :: Open(k, e) ==> Eval(e, args) == Val(n)
  }

  lemma {:induction false} Meaning(e: Expr, args: seq<nat>, n: nat)
    ensures Means(e, args, n) <==> Eval(e, args) == Val(n)
  {
    assert Open(0, e);
  }

  lemma {:induction false} BinRule(op: BinOp, w: nat, x: Expr, y: Expr, args: seq<nat>, a: nat, b: nat, r: nat)
    requires Means(x, args, a) && Means(y, args, b)
    requires 0 < w && a < Pow2(w) && b < Pow2(w) && EvalBin(op, w, a, b) == Val(r)
    ensures Means(Bin(op, w, x, y), args, r)
  {
    Meaning(x, args, a);
    Meaning(y, args, b);
  }

  lemma {:induction false} SubRule(w: nat, x: Expr, y: Expr, args: seq<nat>, a: nat, b: nat)
    requires Means(x, args, a) && Means(y, args, b) && 0 < w && a < Pow2(w) && b < Pow2(w)
    ensures Means(Bin(Sub, w, x, y), args, SubWord(w, a, b)) && SubWord(w, a, b) < Pow2(w)
  {
    BinRule(Sub, w, x, y, args, a, b, SubWord(w, a, b));
  }

  lemma {:induction false} AddRule(w: nat, x: Expr, y: Expr, args: seq<nat>, a: nat, b: nat)
    requires Means(x, args, a) && Means(y, args, b) && 0 < w && a + b < Pow2(w)
    ensures Means(Bin(Add, w, x, y), args, a + b)
  {
    BinRule(Add, w, x, y, args, a, b, a + b);
  }

  lemma {:induction false} AndMaskRule(w: nat, x: Expr, y: Expr, args: seq<nat>, a: nat, k: nat)
    requires Means(x, args, a) && Means(y, args, Pow2(k) - 1) && 0 < w && a < Pow2(w) && Pow2(k) <= Pow2(w)
    ensures Means(Bin(And, w, x, y), args, Low(a, k))
  {
    AndMask(a, k);
    BinRule(And, w, x, y, args, a, Pow2(k) - 1, Low(a, k));
  }

  lemma {:induction false} OrRule(w: nat, x: Expr, y: Expr, args: seq<nat>, a: nat, b: nat)
    requires Means(x, args, a) && Means(y, args, b) && 0 < w && a < Pow2(w) && b < Pow2(w)
    ensures Means(Bin(Or, w, x, y), args, BitOr(a, b))
  {
    BinRule(Or, w, x, y, args, a, b, BitOr(a, b));
  }

  /** A left shift that stays inside the word loses nothing. */
  lemma {:induction false} ShlRule(w: nat, x: Expr, y: Expr, args: seq<nat>, a: nat, c: nat)
    requires Means(x, args, a) && Means(y, args, c) && c < w < Pow2(w) && a < Pow2(w) && Shl(a, c) < Pow2(w)
    ensures Means(Bin(LShl, w, x, y), args, Shl(a, c))
  {
    LowSmall(Shl(a, c), w);
    BinRule(LShl, w, x, y, args, a, c, Shl(a, c));
  }

  lemma {:induction false} ShrRule(w: nat, x: Expr, y: Expr, args: seq<nat>, a: nat, c: nat)
    requires Means(x, args, a) && Means(y, args, c) && c < w < Pow2(w) && a < Pow2(w)
    ensures Means(Bin(LShr, w, x, y), args, Shr(a, c))
  {
    BinRule(LShr, w, x, y, args, a, c, Shr(a, c));
  }

  lemma {:induction false} ICmpRule(pred: IntPredicate, w: nat, x: Expr, y: Expr, args: seq<nat>, a: nat, b: nat)
    requires Means(x, args, a) && Means(y, args, b) && 0 < w && a < Pow2(w) && b < Pow2(w)
    ensures Means(ICmp(pred, w, x, y), args, Bit(CompareInts(pred, w, a, b)))
  {
    Meaning(x, args, a);
    Meaning(y, args, b);
  }

  lemma {:induction false} SelectRule(x: Expr, y: Expr, z: Expr, args: seq<nat>, p: bool, a: nat, b: nat)
    requires Means(x, args, Bit(p)) && Means(y, args, a) && Means(z, args, b)
    ensures Means(Select(x, y, z), args, if p then a else b)
  {
    Meaning(x, args, Bit(p));
    Meaning(y, args, a);
    Meaning(z, args, b);
  }

  lemma {:induction false} UnRule(u: UnOp, x: Expr, args: seq<nat>, a: nat, r: nat)
    requires Means(x, args, a) && UnValue(u, Val(a)) == Val(r)
    ensures Means(Un(u, x), args, r)
  {
    Meaning(x, args, a);
  }

  lemma {:induction false} ZextBooleanRule(x: Expr, args: seq<nat>, p: bool)
    requires Means(x, args, Bit(p))
    ensures Means(Un(Zext(1), x), args, Bit(p))
  {
    assert Pow2(1) == 2;
    UnRule(Zext(1), x, args, Bit(p), Bit(p));
  }

  /** On i1 the bitwise instructions are the Boolean connectives. */
  lemma {:induction false} BooleanRule(x: Expr, y: Expr, args: seq<nat>, p: bool, q: bool)
    requires Means(x, args, Bit(p)) && Means(y, args, Bit(q))
    ensures Means(Bin(And, 1, x, y), args, Bit(p && q))
    ensures Means(Bin(Or, 1, x, y), args, Bit(p || q))
    ensures Means(Bin(Xor, 1, x, y), args, Bit(p != q))
  {
    BooleanBits(p, q);
    assert Pow2(1) == 2;
    BinRule(And, 1, x, y, args, Bit(p), Bit(q), Bit(p && q));
    BinRule(Or, 1, x, y, args, Bit(p), Bit(q), Bit(p || q));
    BinRule(Xor, 1, x, y, args, Bit(p), Bit(q), Bit(p != q));
  }

  // ---- checked operations ----

  /** A checked operation: a branch on `failed` to a block that calls the fatal intrinsic with
      `code`; the other block defines the result. */
  datatype Checked = Checked(failed: Expr, code: Expr, result: Expr)

  datatype Outcome = Result(n: nat) | Fatal(code: nat) | Undefined

  function Run(c: Checked, args: seq<nat>): Outcome
  {
    match Eval(c.failed, args)
    case Poison => Undefined
    case Val(f) =>
      if f == 0 then
        (match Eval(c.result, args) case Val(n) => Result(n) case Poison => Undefined)
      else
        (match Eval(c.code, args) case Val(n) => Fatal(n) case Poison => Undefined)
  }
}
