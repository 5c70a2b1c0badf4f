/** The auditor's layout check: headers, sections, relocation tables and symbol tables share the
    object without overlapping, and what they leave is zero padding. */
module ObjectLayout {
  import opened Lists
  import opened Octets
  import Sorting

  datatype Range = Range(start: nat, end: nat)

  predicate RangeOrder(a: Range, b: Range) { a.start < b.start || (a.start == b.start && a.end <= b.end) }

  predicate Covers(r: Range, at: nat) { r.start <= at < r.end }

  predicate Apart(a: Range, b: Range) { a.end <= b.start || b.end <= a.start }

  /** What a valid layout is, whatever order the ranges were collected in: they are pairwise apart,
      inside the object, the last ends where the object does, and every byte outside them is zero. */
  ghost predicate ValidLayout(bytes: seq<Byte>, occupied: multiset<Range>, objectEnd: nat)
    requires objectEnd <= |bytes|
  {
    && (forall a, b :: a in occupied && b in occupied && (a != b || occupied[a] >= 2) ==> Apart(a, b))
    && (forall r :: r in occupied ==> r.start <= r.end <= objectEnd)
    && (objectEnd == 0 || exists r :: r in occupied && r.end == objectEnd)
    && (forall at: nat :: at < objectEnd && bytes[at] != 0 ==> Occupied(occupied, at))
  }

  ghost predicate Occupied(occupied: multiset<Range>, at: nat)
  {
    exists r :: r in occupied && Covers(r, at)
  }

  // ---- the sweep ----

  function EndBefore(s: seq<Range>, k: nat): nat
    requires k <= |s|
  {
    if k == 0 then 0 else s[k - 1].end
  }

  predicate AllZero(bytes: seq<Byte>) { forall k :: 0 <= k < |bytes| ==> bytes[k] == 0 }

  /** Range k follows the one before it across a zero gap and stays in the object. */
  predicate Follows(bytes: seq<Byte>, s: seq<Range>, objectEnd: nat, k: nat)
    requires k < |s|
  {
    var end := EndBefore(s, k);
    end <= s[k].start <= s[k].end <= objectEnd && s[k].start <= |bytes| && AllZero(bytes[end..s[k].start])
  }

  ghost predicate Sweeps(bytes: seq<Byte>, s: seq<Range>, objectEnd: nat)
  {
    (forall k :: 0 <= k < |s| ==> Follows(bytes, s, objectEnd, k)) && EndBefore(s, |s|) == objectEnd
  }

  method Sweep(bytes: seq<Byte>, occupied: array<Range>, objectEnd: nat) returns (ok: bool)
    ensures ok <==> Sweeps(bytes, occupied[..], objectEnd)
  {
    var end := 0;
    ghost var s := occupied[..];
    for k := 0 to occupied.Length
      invariant end == EndBefore(s, k)
      invariant forall j :: 0 <= j < k ==> Follows(bytes, s, objectEnd, j)
    {
      var r := occupied[k];
      assert r == s[k];
      if r.start < end || r.end < r.start || r.end > objectEnd || r.start > |bytes| || !AllZero(bytes[end..r.start]) {
        assert !Follows(bytes, s, objectEnd, k);
        return false;
      }
      end := r.end;
    }
    ok := end == objectEnd;
  }

  /** Sort the occupied ranges and sweep them: the check succeeds exactly on valid layouts. */
  method CheckLayout(bytes: seq<Byte>, occupied: array<Range>, objectEnd: nat) returns (ok: bool)
    requires objectEnd <= |bytes|
    modifies occupied
    ensures ok <==> ValidLayout(bytes, multiset(old(occupied[..])), objectEnd)
    ensures multiset(occupied[..]) == multiset(old(occupied[..]))
  {
    Sorting.MergeSort(RangeOrder, occupied);
    SweepExact(bytes, occupied[..], objectEnd);
    ok := Sweep(bytes, occupied, objectEnd);
  }

  // ---- the sweep is exact ----

  lemma {:induction false} Chained(bytes: seq<Byte>, s: seq<Range>, objectEnd: nat, i: nat, j: nat)
    requires Sweeps(bytes, s, objectEnd) && i < j < |s|
    ensures s[i].end <= s[j].start
  {
    assert Follows(bytes, s, objectEnd, j) && Follows(bytes, s, objectEnd, j - 1);
    if i < j - 1 { Chained(bytes, s, objectEnd, i, j - 1); }
  }

  lemma {:induction false} TwoPlaces(s: seq<Range>, r: Range) returns (i: nat, j: nat)
    requires multiset(s)[r] >= 2
    ensures i < j < |s| && s[i] == r && s[j] == r
  {
    var n := |s| - 1;
    assert s == s[..n] + [s[n]];
    if s[n] == r {
      assert r in multiset(s[..n]);
      i :| 0 <= i < n && s[..n][i] == r;
      j := n;
    } else {
      i, j := TwoPlaces(s[..n], r);
    }
  }

  /** Every byte before the end of range k - 1 that no earlier range covers is zero. */
  lemma {:induction false} SweptZero(bytes: seq<Byte>, s: seq<Range>, objectEnd: nat, k: nat, at: nat)
    requires objectEnd <= |bytes| && Sweeps(bytes, s, objectEnd) && k <= |s| && at < EndBefore(s, k)
    ensures at < |bytes| && (bytes[at] != 0 ==> Occupied(multiset(s), at))
  {
    assert Follows(bytes, s, objectEnd, k - 1);
    var r := s[k - 1];
    if at < EndBefore(s, k - 1) {
      SweptZero(bytes, s, objectEnd, k - 1, at);
    } else if at < r.start {
      assert bytes[EndBefore(s, k - 1)..r.start][at - EndBefore(s, k - 1)] == 0;
    } else {
      assert r in multiset(s) && Covers(r, at);
    }
  }

  lemma {:induction false} SweepIsValid(bytes: seq<Byte>, s: seq<Range>, objectEnd: nat)
    requires objectEnd <= |bytes| && Sweeps(bytes, s, objectEnd)
    ensures ValidLayout(bytes, multiset(s), objectEnd)
  {
    var occupied := multiset(s);
    forall a, b | a in occupied && b in occupied && (a != b || occupied[a] >= 2) ensures Apart(a, b) {
      if a != b {
        var i :| 0 <= i < |s| && s[i] == a;
        var j :| 0 <= j < |s| && s[j] == b;
        if i < j { Chained(bytes, s, objectEnd, i, j); } else { Chained(bytes, s, objectEnd, j, i); }
      } else {
        var i, j := TwoPlaces(s, a);
        Chained(bytes, s, objectEnd, i, j);
      }
    }
    forall r | r in occupied ensures r.start <= r.end <= objectEnd {
      var i :| 0 <= i < |s| && s[i] == r;
      assert Follows(bytes, s, objectEnd, i);
    }
    if objectEnd > 0 { assert s[|s| - 1] in occupied; }
    forall at: nat | at < objectEnd && bytes[at] != 0 ensures Occupied(occupied, at) {
      SweptZero(bytes, s, objectEnd, |s|, at);
    }
  }

  lemma {:induction false} ValidChained(bytes: seq<Byte>, s: seq<Range>, objectEnd: nat, i: nat, j: nat)
    requires objectEnd <= |bytes| && Sorting.Sorted(RangeOrder, s) && ValidLayout(bytes, multiset(s), objectEnd)
    requires i < j < |s|
    ensures s[i].end <= s[j].start
  {
    assert s[i] in multiset(s) && s[j] in multiset(s);
    assert RangeOrder(s[i], s[j]);
    if s[i] == s[j] { CountsTwice(s, i, j); }
    assert Apart(s[i], s[j]);
  }

  lemma {:induction false} GapUncovered(bytes: seq<Byte>, s: seq<Range>, objectEnd: nat, k: nat, at: nat, i: nat)
    requires objectEnd <= |bytes| && Sorting.Sorted(RangeOrder, s) && ValidLayout(bytes, multiset(s), objectEnd)
    requires k < |s| && EndBefore(s, k) <= at < s[k].start && i < |s|
    ensures !Covers(s[i], at)
  {
    if i < k - 1 {
      ValidChained(bytes, s, objectEnd, i, k - 1);
      assert s[k - 1] in multiset(s);
    } else if i > k {
      assert RangeOrder(s[k], s[i]);
    }
  }

  lemma {:induction false} GapIsZero(bytes: seq<Byte>, s: seq<Range>, objectEnd: nat, k: nat, at: nat)
    requires objectEnd <= |bytes| && Sorting.Sorted(RangeOrder, s) && ValidLayout(bytes, multiset(s), objectEnd)
    requires k < |s| && EndBefore(s, k) <= at < s[k].start <= objectEnd
    ensures bytes[at] == 0
  {
    forall i | 0 <= i < |s| ensures !Covers(s[i], at) { GapUncovered(bytes, s, objectEnd, k, at, i); }
    assert !Occupied(multiset(s), at);
  }

  lemma {:induction false} ValidFollows(bytes: seq<Byte>, s: seq<Range>, objectEnd: nat, k: nat)
    requires objectEnd <= |bytes| && Sorting.Sorted(RangeOrder, s) && ValidLayout(bytes, multiset(s), objectEnd)
    requires k < |s|
    ensures Follows(bytes, s, objectEnd, k)
  {
    assert s[k] in multiset(s);
    if k > 0 { ValidChained(bytes, s, objectEnd, k - 1, k); }
    var end := EndBefore(s, k);
    forall i | 0 <= i < |bytes[end..s[k].start]| ensures bytes[end..s[k].start][i] == 0 {
      GapIsZero(bytes, s, objectEnd, k, end + i);
    }
  }

  lemma {:induction false} SweepExact(bytes: seq<Byte>, s: seq<Range>, objectEnd: nat)
    requires objectEnd <= |bytes| && Sorting.Sorted(RangeOrder, s)
    ensures Sweeps(bytes, s, objectEnd) <==> ValidLayout(bytes, multiset(s), objectEnd)
  {
    if Sweeps(bytes, s, objectEnd) {
      SweepIsValid(bytes, s, objectEnd);
    } else if ValidLayout(bytes, multiset(s), objectEnd) {
      forall k | 0 <= k < |s| ensures Follows(bytes, s, objectEnd, k) { ValidFollows(bytes, s, objectEnd, k); }
      LastEndsObject(bytes, s, objectEnd);
    }
  }

  lemma {:induction false} LastEndsObject(bytes: seq<Byte>, s: seq<Range>, objectEnd: nat)
    requires objectEnd <= |bytes| && Sorting.Sorted(RangeOrder, s) && ValidLayout(bytes, multiset(s), objectEnd)
    ensures EndBefore(s, |s|) == objectEnd
  {
    if |s| > 0 {
      assert s[|s| - 1] in multiset(s);
      if objectEnd > 0 {
        var r :| r in multiset(s) && r.end == objectEnd;
        var i :| 0 <= i < |s| && s[i] == r;
        if i < |s| - 1 { ValidChained(bytes, s, objectEnd, i, |s| - 1); }
      }
    }
  }
}
