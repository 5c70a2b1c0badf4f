/** Concatenations and sums of indexed families. The families are function values, so that proofs
    about the whole never look into a member. */
module Lists {

  predicate Increasing(s: seq<nat>) { forall i, j :: 0 <= i < j < |s| ==> s[i] < s[j] }

  /** g(0) + ... + g(n - 1) */
  function Concat<T>(g: nat -> seq<T>, n: nat): seq<T>
  {
    if n == 0 then [] else Concat(g, n - 1) + g(n - 1)
  }

  function Sum(h: nat -> nat, n: nat): nat
  {
    if n == 0 then 0 else Sum(h, n - 1) + h(n - 1)
  }

  ghost predicate InSome<T>(g: nat -> seq<T>, n: nat, x: T) { exists k: nat :: k < n && x in g(k) }

  lemma {:induction false} ConcatMembers<T>(g: nat -> seq<T>, n: nat, x: T)
    ensures x in Concat(g, n) <==> InSome(g, n, x)
  {
    if n > 0 {
      ConcatMembers(g, n - 1, x);
      if InSome(g, n - 1, x) { var k: nat :| k < n - 1 && x in g(k); assert k < n; }
      if x in g(n - 1) { assert n - 1 < n; }
    }
  }

  /** How often x occurs in a concatenation. */
  lemma {:induction false} ConcatCounts<T>(g: nat -> seq<T>, h: nat -> nat, n: nat, x: T)
    requires forall k: nat :: k < n ==> h(k) == multiset(g(k))[x]
    ensures multiset(Concat(g, n))[x] == Sum(h, n)
  {
    if n > 0 { ConcatCounts(g, h, n - 1, x); }
  }

  /** A family and the same family without one member. */
  lemma {:induction false} SumWithout(g: nat -> nat, h: nat -> nat, n: nat, one: nat)
    requires h(one) == 0 && forall k: nat :: k < n && k != one ==> g(k) == h(k)
    ensures Sum(g, n) == Sum(h, n) + if one < n then g(one) else 0
  {
    if n > 0 { SumWithout(g, h, n - 1, one); }
  }

  lemma {:induction false} ConcatPrefix<T>(g: nat -> seq<T>, k: nat, n: nat)
    requires k < n
    ensures |Concat(g, k)| + |g(k)| <= |Concat(g, n)|
    ensures Concat(g, n)[|Concat(g, k)|..|Concat(g, k)| + |g(k)|] == g(k)
    decreases n
  {
    var front, last, at := Concat(g, n - 1), g(n - 1), |Concat(g, k)|;
    if k < n - 1 {
      ConcatPrefix(g, k, n - 1);
      assert (front + last)[at..at + |g(k)|] == front[at..at + |g(k)|];
    } else {
      assert (front + last)[at..] == last;
    }
  }

  /** Occurrences counted one by one. */
  lemma {:induction false} CountsSum<T>(s: seq<T>, h: nat -> nat, n: nat, x: T)
    requires n <= |s| && forall k: nat :: k < n ==> h(k) == if s[k] == x then 1 else 0
    ensures multiset(s[..n])[x] == Sum(h, n)
  {
    if n > 0 {
      CountsSum(s, h, n - 1, x);
      assert s[..n] == s[..n - 1] + [s[n - 1]];
    }
  }

  lemma {:induction false} CountsTwice<T>(s: seq<T>, i: nat, j: nat)
    requires i < j < |s| && s[i] == s[j]
    ensures multiset(s)[s[i]] >= 2
  {
    assert s == s[..j] + [s[j]] + s[j + 1..];
    assert s[..j][i] in multiset(s[..j]);
  }

  lemma {:induction false} CountsOnce<T>(s: seq<T>, x: T)
    requires forall i, j :: 0 <= i < j < |s| ==> s[i] != s[j]
    ensures multiset(s)[x] <= 1
  {
    if |s| > 0 {
      var front := s[..|s| - 1];
      CountsOnce(front, x);
      assert s == front + [s[|s| - 1]];
      if x == s[|s| - 1] { assert x !in front; }
    }
  }
}
