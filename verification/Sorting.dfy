/** The cancellable merge sort and binary search that the renderer and the auditor share. */
module Sorting {
  import opened Wrappers

  /** The order a comparator induces: `le(x, y)` is "compare(x, y) is not Greater". */
  ghost predicate TotalPreorder<T(!new)>(le: (T, T) -> bool)
  {
    && (forall x, y :: le(x, y) || le(y, x))
    && (forall x, y, z :: le(x, y) && le(y, z) ==> le(x, z))
  }

  predicate Sorted<T>(le: (T, T) -> bool, s: seq<T>)
  {
    forall i, j :: 0 <= i < j < |s| ==> le(s[i], s[j])
  }

  /** The elements equivalent to x, in order. Two sequences with the same classes are permutations
      of each other that agree on the order of equivalent elements. */
  function Class<T>(le: (T, T) -> bool, x: T, s: seq<T>): seq<T>
  {
    if |s| == 0 then []
    else (if le(x, s[0]) && le(s[0], x) then [s[0]] else []) + Class(le, x, s[1..])
  }

  ghost predicate StablePermutation<T(!new)>(le: (T, T) -> bool, s: seq<T>, t: seq<T>)
  {
    forall x :: Class(le, x, s) == Class(le, x, t)
  }

  lemma {:induction false} ClassAppend<T>(le: (T, T) -> bool, x: T, s: seq<T>, t: seq<T>)
    ensures Class(le, x, s + t) == Class(le, x, s) + Class(le, x, t)
  {
    if |s| == 0 {
      assert s + t == t;
    } else {
      assert (s + t)[1..] == s[1..] + t;
      ClassAppend(le, x, s[1..], t);
    }
  }

  lemma {:induction false} ClassCounts<T(!new)>(le: (T, T) -> bool, x: T, s: seq<T>)
    requires TotalPreorder(le)
    ensures multiset(Class(le, x, s))[x] == multiset(s)[x]
  {
    if |s| > 0 {
      var y, rest := s[0], s[1..];
      ClassCounts(le, x, rest);
      ClassCons(le, x, y, rest);
      assert s == [y] + rest;
      assert multiset(s) == multiset{y} + multiset(rest);
      assert multiset(Class(le, x, s)) == multiset(Hit(le, x, y)) + multiset(Class(le, x, rest));
    }
  }

  lemma {:induction false} StableIsPermutation<T(!new)>(le: (T, T) -> bool, s: seq<T>, t: seq<T>)
    requires TotalPreorder(le) && StablePermutation(le, s, t)
    ensures multiset(s) == multiset(t)
  {
    forall x ensures multiset(s)[x] == multiset(t)[x] {
      ClassCounts(le, x, s);
      ClassCounts(le, x, t);
    }
  }

  // ---- merging ----

  function Merge<T>(le: (T, T) -> bool, s: seq<T>, t: seq<T>): (m: seq<T>)
    ensures |m| == |s| + |t|
  {
    if |s| == 0 then t
    else if |t| == 0 || le(s[0], t[0]) then [s[0]] + Merge(le, s[1..], t)
    else [t[0]] + Merge(le, s, t[1..])
  }

  lemma {:induction false} MergeBounded<T(!new)>(le: (T, T) -> bool, s: seq<T>, t: seq<T>, x: T)
    requires forall i :: 0 <= i < |s| ==> le(x, s[i])
    requires forall i :: 0 <= i < |t| ==> le(x, t[i])
    ensures forall i :: 0 <= i < |s| + |t| ==> le(x, Merge(le, s, t)[i])
  {
    if |s| > 0 {
      if |t| == 0 || le(s[0], t[0]) { MergeBounded(le, s[1..], t, x); } else { MergeBounded(le, s, t[1..], x); }
    }
  }

  lemma {:induction false} MergeSorted<T(!new)>(le: (T, T) -> bool, s: seq<T>, t: seq<T>)
    requires TotalPreorder(le) && Sorted(le, s) && Sorted(le, t)
    ensures Sorted(le, Merge(le, s, t))
  {
    if |s| > 0 {
      if |t| == 0 || le(s[0], t[0]) {
        MergeSorted(le, s[1..], t);
        MergeBounded(le, s[1..], t, s[0]);
      } else {
        MergeSorted(le, s, t[1..]);
        assert le(t[0], s[0]);
        MergeBounded(le, s, t[1..], t[0]);
      }
    }
  }

  function Hit<T>(le: (T, T) -> bool, x: T, y: T): seq<T> { if le(x, y) && le(y, x) then [y] else [] }

  lemma {:induction false} ClassCons<T>(le: (T, T) -> bool, x: T, y: T, s: seq<T>)
    ensures Class(le, x, [y] + s) == Hit(le, x, y) + Class(le, x, s)
  {
    assert ([y] + s)[1..] == s;
  }

  /** Ties go to the left run, so merging keeps the order inside every class. */
  lemma {:induction false} MergeClass<T(!new)>(le: (T, T) -> bool, s: seq<T>, t: seq<T>, x: T)
    requires TotalPreorder(le) && Sorted(le, s)
    ensures Class(le, x, Merge(le, s, t)) == Class(le, x, s) + Class(le, x, t)
  {
    if |s| == 0 {
      assert [] + Class(le, x, t) == Class(le, x, t);
    } else if |t| == 0 || le(s[0], t[0]) {
      var rest := s[1..];
      MergeClass(le, rest, t, x);
      ClassCons(le, x, s[0], Merge(le, rest, t));
      ClassCons(le, x, s[0], rest);
      assert s == [s[0]] + rest;
      Associative(Hit(le, x, s[0]), Class(le, x, rest), Class(le, x, t));
    } else {
      var rest := t[1..];
      MergeClass(le, s, rest, x);
      ClassCons(le, x, t[0], Merge(le, s, rest));
      ClassCons(le, x, t[0], rest);
      assert t == [t[0]] + rest;
      if Hit(le, x, t[0]) != [] { NoneInClass(le, s, x, t[0]); }
      HitFirst(Hit(le, x, t[0]), Class(le, x, s), Class(le, x, rest));
    }
  }

  lemma {:induction false} HitFirst<T>(a: seq<T>, b: seq<T>, c: seq<T>)
    requires a == [] || b == []
    ensures a + (b + c) == b + (a + c)
  {
    if a == [] { assert a + (b + c) == b + c && a + c == c; } else { assert b + c == c && b + (a + c) == a + c; }
  }

  lemma {:induction false} NoneInClass<T(!new)>(le: (T, T) -> bool, s: seq<T>, x: T, y: T)
    requires TotalPreorder(le) && Sorted(le, s) && le(y, x) && le(x, y)
    requires |s| > 0 ==> !le(s[0], y)
    ensures Class(le, x, s) == []
  {
    if |s| > 0 {
      if |s| > 1 { assert le(s[0], s[1]); }
      NoneInClass(le, s[1..], x, y);
    }
  }

  // ---- bottom-up passes ----

  function Min(a: nat, b: nat): nat { if a < b then a else b }

  /** One pass: neighbouring runs of `width` elements merged into runs twice as long. */
  function Pass<T>(le: (T, T) -> bool, s: seq<T>, width: nat): (r: seq<T>)
    requires width > 0
    ensures |r| == |s|
    decreases |s|
  {
    if |s| == 0 then []
    else
      var m, e := Min(width, |s|), Min(width + width, |s|);
      Merge(le, s[..m], s[m..e]) + Pass(le, s[e..], width)
  }

  ghost predicate SortedRuns<T>(le: (T, T) -> bool, s: seq<T>, width: nat)
    requires width > 0
    decreases |s|
  {
    |s| == 0 || (Sorted(le, s[..Min(width, |s|)]) && SortedRuns(le, s[Min(width, |s|)..], width))
  }

  lemma {:induction false} SingletonRuns<T>(le: (T, T) -> bool, s: seq<T>)
    ensures SortedRuns(le, s, 1)
  {
    if |s| > 0 { SingletonRuns(le, s[1..]); }
  }

  lemma {:induction false} PassCorrect<T(!new)>(le: (T, T) -> bool, s: seq<T>, width: nat, x: T)
    requires width > 0 && TotalPreorder(le) && SortedRuns(le, s, width)
    ensures SortedRuns(le, Pass(le, s, width), width + width)
    ensures Class(le, x, Pass(le, s, width)) == Class(le, x, s)
    decreases |s|
  {
    if |s| > 0 {
      var m, e := Min(width, |s|), Min(width + width, |s|);
      TwoRuns(le, s, width);
      MergeSorted(le, s[..m], s[m..e]);
      MergeClass(le, s[..m], s[m..e], x);
      PassCorrect(le, s[e..], width, x);
      var merged, rest := Merge(le, s[..m], s[m..e]), Pass(le, s[e..], width);
      RunInFront(le, merged, rest, width + width);
      ClassAppend(le, x, merged, rest);
      ClassThree(le, x, s, m, e);
    }
  }

  lemma {:induction false} ClassThree<T>(le: (T, T) -> bool, x: T, s: seq<T>, m: nat, e: nat)
    requires m <= e <= |s|
    ensures Class(le, x, s) == Class(le, x, s[..m]) + Class(le, x, s[m..e]) + Class(le, x, s[e..])
  {
    assert s == s[..e] + s[e..] && s[..e] == s[..m] + s[m..e];
    ClassAppend(le, x, s[..e], s[e..]);
    ClassAppend(le, x, s[..m], s[m..e]);
  }

  lemma {:induction false} TwoRuns<T>(le: (T, T) -> bool, s: seq<T>, width: nat)
    requires width > 0 && |s| > 0 && SortedRuns(le, s, width)
    ensures var m, e := Min(width, |s|), Min(width + width, |s|);
      Sorted(le, s[..m]) && Sorted(le, s[m..e]) && SortedRuns(le, s[e..], width)
  {
    var m, e := Min(width, |s|), Min(width + width, |s|);
    if m < |s| {
      assert s[m..][..e - m] == s[m..e] && s[m..][e - m..] == s[e..];
    }
  }

  lemma {:induction false} RunInFront<T>(le: (T, T) -> bool, run: seq<T>, rest: seq<T>, width: nat)
    requires 0 < |run| <= width && (|run| == width || rest == [])
    requires Sorted(le, run) && SortedRuns(le, rest, width)
    ensures SortedRuns(le, run + rest, width)
  {
    var m := Min(width, |run + rest|);
    assert (run + rest)[..m] == run && (run + rest)[m..] == rest;
  }

  lemma {:induction false} PassStable<T(!new)>(le: (T, T) -> bool, s: seq<T>, width: nat)
    requires width > 0 && TotalPreorder(le) && SortedRuns(le, s, width)
    ensures SortedRuns(le, Pass(le, s, width), width + width)
    ensures StablePermutation(le, s, Pass(le, s, width))
  {
    if |s| > 0 { PassCorrect(le, s, width, s[0]); }
    forall x ensures Class(le, x, Pass(le, s, width)) == Class(le, x, s) { PassCorrect(le, s, width, x); }
  }

  /** The head and the tail of a merge. */
  lemma {:induction false} MergeStep<T>(le: (T, T) -> bool, s: seq<T>, t: seq<T>, takeLeft: bool)
    requires |s| + |t| > 0 && takeLeft == (|t| == 0 || (|s| > 0 && le(s[0], t[0])))
    ensures if takeLeft then |s| > 0 && Merge(le, s, t) == [s[0]] + Merge(le, s[1..], t)
            else |t| > 0 && Merge(le, s, t) == [t[0]] + Merge(le, s, t[1..])
  {
    if |s| == 0 { assert t == [t[0]] + t[1..]; }
  }

  /** What remains to be merged of two runs, and its first element. */
  function Remaining<T>(le: (T, T) -> bool, v: seq<T>, left: nat, middle: nat, right: nat, end: nat): seq<T>
    requires left <= middle <= right <= end <= |v|
  {
    Merge(le, v[left..middle], v[right..end])
  }

  lemma {:induction false} RemainingStep<T>(
      le: (T, T) -> bool, v: seq<T>, left: nat, middle: nat, right: nat, end: nat, takeLeft: bool)
    requires left <= middle <= right <= end <= |v| && (left < middle || right < end)
    requires takeLeft == (right == end || (left < middle && le(v[left], v[right])))
    ensures |Remaining(le, v, left, middle, right, end)| > 0
    ensures Remaining(le, v, left, middle, right, end)[0] == v[if takeLeft then left else right]
    ensures Remaining(le, v, left, middle, right, end)[1..]
         == if takeLeft then Remaining(le, v, left + 1, middle, right, end)
            else Remaining(le, v, left, middle, right + 1, end)
  {
    MergeStep(le, v[left..middle], v[right..end], takeLeft);
    if takeLeft {
      assert v[left..middle][1..] == v[left + 1..middle];
    } else {
      assert v[right..end][1..] == v[right + 1..end];
    }
  }

  lemma {:induction false} Shift<T>(done: seq<T>, rest: seq<T>)
    requires |rest| > 0
    ensures done + rest == done + [rest[0]] + rest[1..]
  {
  }

  /** Merge two neighbouring runs of `values` into the same place of `scratch`. */
  method MergeRuns<T>(le: (T, T) -> bool, values: seq<T>, scratch: array<T>, start: nat, middle: nat, end: nat)
    requires start <= middle <= end <= |values| == scratch.Length
    modifies scratch
    ensures scratch[..end] == old(scratch[..start]) + Merge(le, values[start..middle], values[middle..end])
  {
    ghost var merged := MergeElements(le, values, scratch, start, middle, end);
    assert scratch[..end] == old(scratch[..start]) + merged;
  }

  method MergeElements<T>(
      le: (T, T) -> bool, values: seq<T>, scratch: array<T>, start: nat, middle: nat, end: nat)
    returns (ghost merged: seq<T>)
    requires start <= middle <= end <= |values| == scratch.Length
    modifies scratch
    ensures merged == Merge(le, values[start..middle], values[middle..end])
    ensures forall k :: start <= k < end ==> scratch[k] == merged[k - start]
    ensures forall k :: 0 <= k < start ==> scratch[k] == old(scratch[k])
  {
    var left, right, output := start, middle, start;
    merged := Remaining(le, values, start, middle, middle, end);
    ghost var done, rest: seq<T> := [], merged;
    while left < middle || right < end
      invariant start <= left <= middle <= right <= end && output == left + right - middle == start + |done|
      invariant forall k :: 0 <= k < |done| ==> scratch[start + k] == done[k]
      invariant forall k :: 0 <= k < start ==> scratch[k] == old(scratch[k])
      invariant rest == Remaining(le, values, left, middle, right, end) && done + rest == merged
      decreases middle - left + end - right
    {
      var takeLeft := right == end || (left < middle && le(values[left], values[right]));
      RemainingStep(le, values, left, middle, right, end, takeLeft);
      Shift(done, rest);
      done, rest := done + [rest[0]], rest[1..];
      if takeLeft {
        scratch[output] := values[left];
        left := left + 1;
      } else {
        scratch[output] := values[right];
        right := right + 1;
      }
      output := output + 1;
    }
    assert rest == [];
    assert done == merged;
    forall k | start <= k < end ensures scratch[k] == merged[k - start] {
      assert scratch[start + (k - start)] == done[k - start];
    }
  }

  /** Every pass doubles the length of the sorted runs. */
  method MergeSort<T(!new)>(le: (T, T) -> bool, values: array<T>)
    requires TotalPreorder(le)
    modifies values
    ensures Sorted(le, values[..])
    ensures StablePermutation(le, old(values[..]), values[..])
    ensures multiset(values[..]) == multiset(old(values[..]))
  {
    if values.Length >= 2 {
      var n := values.Length;
      var first := values[0];
      var scratch := new T[n](_ => first);
      var width := 1;
      SingletonRuns(le, values[..]);
      while width < n
        invariant width > 0 && values.Length == n == scratch.Length && fresh(scratch)
        invariant SortedRuns(le, values[..], width)
        invariant StablePermutation(le, old(values[..]), values[..])
        decreases n - width
      {
        PassStable(le, values[..], width);
        SortPass(le, values, scratch, width);
        width := width + width;
      }
      assert values[..][..Min(width, n)] == values[..];
    }
    StableIsPermutation(le, old(values[..]), values[..]);
  }

  method SortPass<T>(le: (T, T) -> bool, values: array<T>, scratch: array<T>, width: nat)
    requires width > 0 && values.Length == scratch.Length && values != scratch
    modifies values, scratch
    ensures values[..] == Pass(le, old(values[..]), width)
  {
    FillScratch(le, values[..], scratch, width);
    CopyBack(values, scratch);
  }

  method FillScratch<T>(le: (T, T) -> bool, values: seq<T>, scratch: array<T>, width: nat)
    requires width > 0 && |values| == scratch.Length
    modifies scratch
    ensures scratch[..] == Pass(le, values, width)
  {
    var n, start := |values|, 0;
    while start < n
      invariant start <= n
      invariant scratch[..start] + Pass(le, values[start..], width) == Pass(le, values, width)
    {
      var middle, end := Min(start + width, n), Min(start + width + width, n);
      PassStep(le, values, scratch[..start], start, width);
      MergeRuns(le, values, scratch, start, middle, end);
      start := end;
    }
    assert scratch[..] == scratch[..n] + Pass(le, values[n..], width);
  }

  method CopyBack<T>(values: array<T>, scratch: array<T>)
    requires values.Length == scratch.Length && values != scratch
    modifies values
    ensures values[..] == old(scratch[..])
  {
    for index := 0 to scratch.Length
      invariant forall k :: 0 <= k < index ==> values[k] == scratch[k]
    {
      values[index] := scratch[index];
    }
  }

  lemma {:induction false} PassStep<T>(le: (T, T) -> bool, s: seq<T>, done: seq<T>, start: nat, width: nat)
    requires width > 0 && start < |s|
    ensures var m, e := Min(start + width, |s|), Min(start + width + width, |s|);
      done + Pass(le, s[start..], width) == done + Merge(le, s[start..m], s[m..e]) + Pass(le, s[e..], width)
  {
    var rest, m, e := s[start..], Min(start + width, |s|), Min(start + width + width, |s|);
    var merged, later := Merge(le, s[start..m], s[m..e]), Pass(le, s[e..], width);
    assert Pass(le, rest, width) == merged + later by {
      SliceSlice(s, start, m, e);
      assert Min(width, |rest|) == m - start && Min(width + width, |rest|) == e - start;
    }
    Associative(done, merged, later);
  }

  lemma {:induction false} SliceSlice<T>(s: seq<T>, start: nat, m: nat, e: nat)
    requires start <= m <= e <= |s|
    ensures s[start..][..m - start] == s[start..m] && s[start..][m - start..e - start] == s[m..e]
    ensures s[start..][e - start..] == s[e..]
  {
  }

  lemma {:induction false} Associative<T>(a: seq<T>, b: seq<T>, c: seq<T>)
    ensures a + (b + c) == a + b + c
  {
  }

  // ---- binary search ----

  datatype Ordering = Less | Equal | Greater

  /** `compare` steps down over the sequence: first Less, then Equal, then Greater. */
  ghost predicate Monotone<T>(compare: T -> Ordering, s: seq<T>)
  {
    forall i, j :: 0 <= i < j < |s| ==>
      (compare(s[j]).Less? ==> compare(s[i]).Less?) && (compare(s[i]).Greater? ==> compare(s[j]).Greater?)
  }

  /** The search finds a matching element exactly when there is one. */
  method BinarySearch<T>(values: seq<T>, compare: T -> Ordering) returns (found: Option<nat>)
    requires Monotone(compare, values)
    ensures found.Some? ==> found.value < |values| && compare(values[found.value]).Equal?
    ensures found.None? ==> forall i :: 0 <= i < |values| ==> !compare(values[i]).Equal?
  {
    var left, right := 0, |values|;
    while left < right
      invariant left <= right <= |values|
      invariant forall i :: 0 <= i < left ==> compare(values[i]).Less?
      invariant forall i :: right <= i < |values| ==> compare(values[i]).Greater?
    {
      var middle := left + (right - left) / 2;
      match compare(values[middle])
      case Less => left := middle + 1;
      case Greater => right := middle;
      case Equal => return Some(middle);
    }
    return None;
  }
}
