/** Natural numbers as bit strings: shifts, fields, two's-complement words and the bitwise
    operators. A w-bit word is a natural number below `Pow2(w)`. */
module Bits {

  function Pow2(k: nat): (p: nat)
    ensures p > 0
  {
    if k == 0 then 1 else 2 * Pow2(k - 1)
  }

  /** a * 2^k */
  function Shl(a: nat, k: nat): nat
  {
    if k == 0 then a else 2 * Shl(a, k - 1)
  }

  /** a / 2^k, rounded down */
  function Shr(a: nat, k: nat): nat
    decreases k
  {
    if k == 0 then a else Shr(a / 2, k - 1)
  }

  /** a mod 2^k, the low k bits */
  function Low(a: nat, k: nat): (r: nat)
    ensures r < Pow2(k)
    decreases k
  {
    if k == 0 then 0 else 2 * Low(a / 2, k - 1) + a % 2
  }

  /** Shifting left is multiplication by a power of two. */
  lemma {:induction false} ShlIsTimes(a: nat, k: nat)
    ensures Shl(a, k) == a * Pow2(k)
  {
    if k > 0 {
      ShlIsTimes(a, k - 1);
      assert a * (2 * Pow2(k - 1)) == 2 * (a * Pow2(k - 1));
    }
  }

  /** Splitting a number at bit k, and the only way to do so. */
  lemma {:induction false} Split(a: nat, k: nat)
    ensures a == Shl(Shr(a, k), k) + Low(a, k)
  {
    if k > 0 { Split(a / 2, k - 1); }
  }

  lemma {:induction false} SplitUnique(a: nat, k: nat, q: nat, r: nat)
    requires r < Pow2(k) && a == Shl(q, k) + r
    ensures Shr(a, k) == q && Low(a, k) == r
  {
    if k > 0 { SplitUnique(a / 2, k - 1, q, r / 2); }
  }

  lemma {:induction false} ShlAdd(a: nat, b: nat, k: nat)
    ensures Shl(a + b, k) == Shl(a, k) + Shl(b, k)
  {
    if k > 0 { ShlAdd(a, b, k - 1); }
  }

  lemma {:induction false} ShlShl(a: nat, j: nat, k: nat)
    ensures Shl(Shl(a, j), k) == Shl(a, j + k)
  {
    if k > 0 { ShlShl(a, j, k - 1); }
  }

  lemma {:induction false} ShlOne(k: nat)
    ensures Shl(1, k) == Pow2(k) && Shl(0, k) == 0
  {
    if k > 0 { ShlOne(k - 1); }
  }

  lemma {:induction false} ShlPow2(j: nat, k: nat)
    ensures Shl(Pow2(j), k) == Pow2(j + k)
  {
    if k > 0 { ShlPow2(j, k - 1); }
  }

  /** Shifting left keeps strict order. */
  lemma {:induction false} ShlLess(a: nat, b: nat, k: nat)
    ensures a < b <==> Shl(a, k) < Shl(b, k)
  {
    if k > 0 { ShlLess(a, b, k - 1); }
  }

  lemma {:induction false} ShlDouble(a: nat, k: nat)
    ensures Shl(2 * a, k) == 2 * Shl(a, k) == Shl(a, k + 1)
  {
    if k > 0 { ShlDouble(a, k - 1); }
  }

  lemma {:induction false} LowSmall(a: nat, k: nat)
    requires a < Pow2(k)
    ensures Low(a, k) == a && Shr(a, k) == 0
  {
    ShlOne(k);
    SplitUnique(a, k, 0, a);
  }

  lemma {:induction false} Pow2Increasing(a: nat, b: nat)
    requires a < b
    ensures Pow2(a) < Pow2(b)
    ensures 2 * Pow2(a) <= Pow2(b)
  {
    if a + 1 < b { Pow2Increasing(a, b - 1); }
  }

  lemma {:induction false} Pow2Monotone(a: nat, b: nat)
    requires a <= b
    ensures Pow2(a) <= Pow2(b)
  {
    if a < b { Pow2Increasing(a, b); }
  }

  /** A number below 2^(w - k) can be shifted left by k inside w bits. */
  lemma {:induction false} ShlFits(a: nat, j: nat, k: nat)
    requires a < Pow2(j)
    ensures Shl(a, k) < Pow2(j + k)
  {
    ShlLess(a, Pow2(j), k);
    ShlPow2(j, k);
  }

  lemma {:induction false} ShrFits(a: nat, w: nat, k: nat)
    requires a < Pow2(w)
    ensures k <= w ==> Shr(a, k) < Pow2(w - k)
    ensures Shr(a, k) <= a
  {
    Split(a, k);
    ShlAtLeast(Shr(a, k), k);
    if k <= w {
      ShlPow2(w - k, k);
      ShlLess(Shr(a, k), Pow2(w - k), k);
    }
  }

  lemma {:induction false} ShlAtLeast(a: nat, k: nat)
    ensures a <= Shl(a, k)
  {
    if k > 0 { ShlAtLeast(a, k - 1); }
  }

  // ---- integer arithmetic ----

  lemma {:induction false} MulMonotone(a: int, b: int, c: int)
    requires 0 <= c && a <= b
    ensures a * c <= b * c
  {
  }

  /** Division by m determines quotient and remainder uniquely. */
  lemma {:induction false} DivModUnique(n: int, m: int, q: int, r: int)
    requires m > 0 && 0 <= r < m && n == q * m + r
    ensures n / m == q && n % m == r
  {
    var d := n / m - q;
    assert n == (n / m) * m + n % m;
    assert d * m == r - n % m by { assert (n / m) * m == q * m + d * m; }
    if d >= 1 { MulMonotone(1, d, m); } else if d <= -1 { MulMonotone(d, -1, m); }
  }

  /** Products, quotients and remainders by repeated addition and subtraction, which keep the
      evaluator linear; the lemmas below identify them with `*`, `/` and `%`. */
  function Product(a: nat, b: nat): nat
    decreases b
  {
    if b == 0 then 0 else a + Product(a, b - 1)
  }

  function Quotient(a: nat, b: nat): nat
    requires b > 0
  {
    if a < b then 0 else 1 + Quotient(a - b, b)
  }

  function Remainder(a: nat, b: nat): nat
    requires b > 0
  {
    if a < b then a else Remainder(a - b, b)
  }

  lemma {:induction false} ProductIsTimes(a: nat, b: nat)
    ensures Product(a, b) == a * b
  {
    if b > 0 { ProductIsTimes(a, b - 1); }
  }

  lemma {:induction false} QuotientIsDiv(a: nat, b: nat)
    requires b > 0
    ensures Quotient(a, b) == a / b && Remainder(a, b) == a % b
    decreases a
  {
    if a < b {
      DivModUnique(a, b, 0, a);
    } else {
      QuotientIsDiv(a - b, b);
      var q, r := (a - b) / b, (a - b) % b;
      assert (q + 1) * b == q * b + b;
      DivModUnique(a, b, q + 1, r);
    }
  }

  // ---- two's complement ----

  /** The signed reading of a w-bit word. */
  function Signed(w: nat, a: nat): (i: int)
    requires w > 0 && a < Pow2(w)
    ensures -(Pow2(w - 1) as int) <= i < Pow2(w - 1)
  {
    assert Pow2(w) == 2 * Pow2(w - 1);
    if a < Pow2(w - 1) then a else a - Pow2(w)
  }

  /** The word that stores an integer in two's complement. */
  function Encode(w: nat, i: int): (a: nat)
    requires -(Pow2(w) as int) <= i < Pow2(w)
    ensures a < Pow2(w)
  {
    if i >= 0 then i else i + Pow2(w)
  }

  lemma {:induction false} SignedEncode(w: nat, i: int)
    requires w > 0 && -(Pow2(w - 1) as int) <= i < Pow2(w - 1)
    ensures -(Pow2(w) as int) <= i < Pow2(w)
    ensures Signed(w, Encode(w, i)) == i
  {
    assert Pow2(w) == 2 * Pow2(w - 1);
  }

  // ---- bitwise operators ----

  function BitAnd(a: nat, b: nat): nat
    decreases a
  {
    if a == 0 || b == 0 then 0
    else 2 * BitAnd(a / 2, b / 2) + Bit(a % 2 == 1 && b % 2 == 1)
  }

  function BitOr(a: nat, b: nat): nat
    decreases a
  {
    if a == 0 then b else if b == 0 then a
    else 2 * BitOr(a / 2, b / 2) + Bit(a % 2 == 1 || b % 2 == 1)
  }

  function BitXor(a: nat, b: nat): nat
    decreases a
  {
    if a == 0 then b else if b == 0 then a
    else 2 * BitXor(a / 2, b / 2) + Bit(a % 2 != b % 2)
  }

  function Bit(p: bool): (b: nat)
    ensures b <= 1
  {
    if p then 1 else 0
  }

  /** Masking with 2^k - 1 keeps the low k bits. */
  lemma {:induction false} AndMask(a: nat, k: nat)
    ensures BitAnd(a, Pow2(k) - 1) == Low(a, k)
  {
    if k > 0 {
      AndMask(a / 2, k - 1);
      assert (Pow2(k) - 1) / 2 == Pow2(k - 1) - 1 && (Pow2(k) - 1) % 2 == 1;
      if a == 0 { LowSmall(0, k); }
    }
  }

  /** Masking with a single bit 2^k isolates it. */
  lemma {:induction false} AndBit(a: nat, k: nat)
    ensures BitAnd(a, Pow2(k)) == if Shr(a, k) % 2 == 1 then Pow2(k) else 0
  {
    if a == 0 {
      LowSmall(0, k);
    } else if k > 0 {
      AndBit(a / 2, k - 1);
    } else {
      assert BitAnd(a / 2, 0) == 0;
    }
  }

  /** `or` of a multiple of 2^k and a number below 2^k is their sum. */
  lemma {:induction false} OrDisjoint(q: nat, k: nat, b: nat)
    requires b < Pow2(k)
    ensures BitOr(Shl(q, k), b) == Shl(q, k) + b
  {
    if k > 0 { OrDisjoint(q, k - 1, b / 2); }
  }

  lemma {:induction false} OrCommutes(a: nat, b: nat)
    ensures BitOr(a, b) == BitOr(b, a)
  {
    if a != 0 && b != 0 { OrCommutes(a / 2, b / 2); }
  }

  /** On single bits the three operators are the Boolean connectives. */
  lemma {:induction false} BooleanBits(p: bool, q: bool)
    ensures BitAnd(Bit(p), Bit(q)) == Bit(p && q)
    ensures BitOr(Bit(p), Bit(q)) == Bit(p || q)
    ensures BitXor(Bit(p), Bit(q)) == Bit(p != q)
  {
    assert BitXor(0, 0) == 0;
  }
}
