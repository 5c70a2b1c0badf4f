/** The auditor's check that a data section holds exactly its globals. */
module SectionStorage {
  import opened Wrappers
  import opened Lists
  import opened Octets
  import Sorting

  datatype Initializer = Bytes(bytes: seq<Byte>) | Zero(ty: nat) | OtherInitializer
  datatype Global = Global(section: nat, ty: nat, offset: nat, initializer: Initializer)

  /** `sizes` gives the size of each type. */
  datatype Statics = Statics(globals: seq<Global>, sizes: seq<nat>)

  // ---- what the check means ----

  function IndexIf(globals: seq<Global>, section: nat): nat -> seq<nat>
  {
    (k: nat) => if k < |globals| && globals[k].section == section then [k] else []
  }

  /** The globals of a section, in index order. */
  function IndicesIn(globals: seq<Global>, section: nat): seq<nat> { Concat(IndexIf(globals, section), |globals|) }

  predicate Typed(s: Statics, list: seq<nat>)
  {
    forall k :: 0 <= k < |list| ==> list[k] < |s.globals| && s.globals[list[k]].ty < |s.sizes|
  }

  function SizeOf(s: Statics, g: nat): nat
  {
    if g < |s.globals| && s.globals[g].ty < |s.sizes| then s.sizes[s.globals[g].ty] else 0
  }

  function TotalSize(s: Statics, list: seq<nat>): nat
  {
    if |list| == 0 then 0 else SizeOf(s, list[0]) + TotalSize(s, list[1..])
  }

  function Zeros(n: nat): (z: seq<Byte>)
    ensures |z| == n
  {
    if n == 0 then [] else [0] + Zeros(n - 1)
  }

  /** The bytes a global's initializer stands for, if it is an initializer of its type. */
  function Content(s: Statics, g: nat): Option<seq<Byte>>
  {
    if g >= |s.globals| then None
    else
      match s.globals[g].initializer
      case Bytes(b) => if |b| == SizeOf(s, g) then Some(b) else None
      case Zero(ty) => if ty == s.globals[g].ty then Some(Zeros(SizeOf(s, g))) else None
      case OtherInitializer => None
  }

  predicate ZeroInitialized(s: Statics, g: nat)
  {
    g < |s.globals| && s.globals[g].initializer == Zero(s.globals[g].ty)
  }

  function Image(s: Statics, list: seq<nat>): Option<seq<Byte>>
  {
    if |list| == 0 then Some([])
    else
      match (Content(s, list[0]), Image(s, list[1..]))
      case (Some(a), Some(b)) => Some(a + b)
      case _ => None
  }

  /** The globals tile [start, end) in order, without gaps. */
  ghost predicate Tiles(s: Statics, list: seq<nat>, start: nat, end: nat)
  {
    && Typed(s, list)
    && (forall k :: 0 <= k < |list| ==> s.globals[list[k]].offset == start + TotalSize(s, list[..k]))
    && start + TotalSize(s, list) == end
  }

  /** With a payload, the initializers concatenate to it; without one, they are all zero. */
  ghost predicate Fills(s: Statics, list: seq<nat>, raw: Option<seq<Byte>>)
  {
    match raw
    case Some(bytes) => Image(s, list) == Some(bytes)
    case None => forall k :: 0 <= k < |list| ==> ZeroInitialized(s, list[k])
  }

  ghost predicate Matches(s: Statics, section: nat, raw: Option<seq<Byte>>, logicalBytes: nat)
  {
    var list := IndicesIn(s.globals, section);
    |list| > 0 && Tiles(s, list, 0, logicalBytes) && Fills(s, list, raw)
  }

  // ---- one global ----

  /** One step of the walk, at a cursor. */
  predicate StepMatches(s: Statics, g: nat, raw: Option<seq<Byte>>, logicalBytes: nat, cursor: nat)
  {
    && g < |s.globals| && s.globals[g].ty < |s.sizes|
    && s.globals[g].offset == cursor && cursor + SizeOf(s, g) <= logicalBytes
    && match raw
       case None => ZeroInitialized(s, g)
       case Some(bytes) =>
         cursor + SizeOf(s, g) <= |bytes| && Content(s, g) == Some(bytes[cursor..cursor + SizeOf(s, g)])
  }

  predicate WalkMatches(s: Statics, list: seq<nat>, raw: Option<seq<Byte>>, logicalBytes: nat, cursor: nat)
    decreases |list|
  {
    if |list| == 0 then cursor == logicalBytes
    else StepMatches(s, list[0], raw, logicalBytes, cursor)
         && WalkMatches(s, list[1..], raw, logicalBytes, cursor + SizeOf(s, list[0]))
  }

  lemma {:induction false} TilesCons(s: Statics, list: seq<nat>, start: nat, end: nat)
    requires |list| > 0
    ensures Tiles(s, list, start, end)
       <==> list[0] < |s.globals| && s.globals[list[0]].ty < |s.sizes| && s.globals[list[0]].offset == start
            && Tiles(s, list[1..], start + SizeOf(s, list[0]), end)
  {
    var rest, next := list[1..], start + SizeOf(s, list[0]);
    forall k | 0 < k < |list|
      ensures TotalSize(s, list[..k]) == SizeOf(s, list[0]) + TotalSize(s, rest[..k - 1]) && list[k] == rest[k - 1]
    {
      assert list[..k][1..] == rest[..k - 1];
    }
    if Tiles(s, rest, next, end) && list[0] < |s.globals|
       && s.globals[list[0]].ty < |s.sizes| && s.globals[list[0]].offset == start {
      forall k | 0 <= k < |list| ensures list[k] < |s.globals| && s.globals[list[k]].ty < |s.sizes|
        && s.globals[list[k]].offset == start + TotalSize(s, list[..k])
      {
        if k > 0 { assert list[k] == rest[k - 1]; }
      }
    }
    if Tiles(s, list, start, end) {
      assert list[0] < |s.globals| && s.globals[list[0]].offset == start + TotalSize(s, list[..0]);
      forall k | 0 <= k < |rest| ensures rest[k] < |s.globals| && s.globals[rest[k]].ty < |s.sizes|
        && s.globals[rest[k]].offset == next + TotalSize(s, rest[..k])
      {
        assert rest[k] == list[k + 1];
      }
    }
  }

  lemma {:induction false} FillsCons(s: Statics, list: seq<nat>, bytes: seq<Byte>, cursor: nat)
    requires |list| > 0 && cursor <= |bytes|
    ensures Image(s, list) == Some(bytes[cursor..])
       <==> (cursor + SizeOf(s, list[0]) <= |bytes|
             && Content(s, list[0]) == Some(bytes[cursor..cursor + SizeOf(s, list[0])])
             && Image(s, list[1..]) == Some(bytes[cursor + SizeOf(s, list[0])..]))
  {
    var n := SizeOf(s, list[0]);
    if cursor + n <= |bytes| { assert bytes[cursor..] == bytes[cursor..cursor + n] + bytes[cursor + n..]; }
    match (Content(s, list[0]), Image(s, list[1..]))
    case (Some(a), Some(b)) =>
      assert |a| == n;
      if a + b == bytes[cursor..] {
        assert a == (a + b)[..n] && b == (a + b)[n..];
        assert bytes[cursor..][..n] == bytes[cursor..cursor + n] && bytes[cursor..][n..] == bytes[cursor + n..];
      }
    case _ =>
  }

  ghost predicate FillsFrom(s: Statics, list: seq<nat>, raw: Option<seq<Byte>>, cursor: nat)
  {
    match raw
    case Some(bytes) => cursor <= |bytes| && Image(s, list) == Some(bytes[cursor..])
    case None => forall k :: 0 <= k < |list| ==> ZeroInitialized(s, list[k])
  }

  /** The walk accepts a list exactly when it tiles the rest of the section and fills it. */
  lemma {:induction false} WalkExact(s: Statics, list: seq<nat>, raw: Option<seq<Byte>>, logicalBytes: nat, cursor: nat)
    requires raw.Some? ==> |raw.value| == logicalBytes
    requires cursor <= logicalBytes
    ensures WalkMatches(s, list, raw, logicalBytes, cursor)
       <==> Tiles(s, list, cursor, logicalBytes) && FillsFrom(s, list, raw, cursor)
    decreases |list|
  {
    if |list| == 0 {
      if raw.Some? && cursor == logicalBytes { assert raw.value[cursor..] == []; }
    } else {
      var g, rest := list[0], list[1..];
      TilesCons(s, list, cursor, logicalBytes);
      if raw.Some? { FillsCons(s, list, raw.value, cursor); } else { ZerosCons(s, list); }
      if cursor + SizeOf(s, g) <= logicalBytes { WalkExact(s, rest, raw, logicalBytes, cursor + SizeOf(s, g)); }
    }
  }

  lemma {:induction false} ZerosCons(s: Statics, list: seq<nat>)
    requires |list| > 0
    ensures (forall k :: 0 <= k < |list| ==> ZeroInitialized(s, list[k]))
       <==> ZeroInitialized(s, list[0]) && forall k :: 0 <= k < |list[1..]| ==> ZeroInitialized(s, list[1..][k])
  {
    forall k | 0 < k < |list| ensures list[k] == list[1..][k - 1] {
    }
  }

  // ---- sorted indices ----

  predicate IndexOrder(globals: seq<Global>, a: nat, b: nat)
  {
    a < |globals| && b < |globals|
    && (globals[a].section < globals[b].section || (globals[a].section == globals[b].section && a <= b))
  }

  /** The indices of all globals, ordered by section and then by index. */
  ghost predicate IsOrdered(globals: seq<Global>, order: seq<nat>)
  {
    && (forall i, j :: 0 <= i < j < |order| ==> IndexOrder(globals, order[i], order[j]) && order[i] != order[j])
    && (forall i :: 0 <= i < |order| ==> order[i] < |globals|)
    && (forall g: nat :: g < |globals| ==> g in order)
  }

  lemma {:induction false} IndicesInCorrect(globals: seq<Global>, section: nat)
    ensures Increasing(IndicesIn(globals, section))
    ensures forall g: nat :: g in IndicesIn(globals, section) <==> g < |globals| && globals[g].section == section
  {
    var list := IndexIf(globals, section);
    IndicesIncrease(list, |globals|);
    forall g: nat ensures g in IndicesIn(globals, section) <==> g < |globals| && globals[g].section == section {
      ConcatMembers(list, |globals|, g);
      if g < |globals| && globals[g].section == section { assert g in list(g); }
    }
  }

  predicate Below(s: seq<nat>, n: nat) { forall k :: 0 <= k < |s| ==> s[k] < n }

  lemma {:induction false} IndicesIncrease(list: nat -> seq<nat>, n: nat)
    requires forall k: nat :: k < n ==> list(k) == [] || list(k) == [k]
    ensures Increasing(Concat(list, n)) && Below(Concat(list, n), n)
  {
    if n > 0 { IndicesIncrease(list, n - 1); }
  }

  /** Two increasing lists with the same members are the same. */
  lemma {:induction false} SameIncreasing(a: seq<nat>, b: seq<nat>)
    requires Increasing(a) && Increasing(b) && forall x: nat :: x in a <==> x in b
    ensures a == b
  {
    var first := if |b| > 0 then b[0] else 0;
    assert first in a <==> first in b;
    if |a| > 0 {
      assert a[0] in a;
      var k :| 0 <= k < |b| && b[k] == a[0];
      assert b[0] in a;
      assert a[0] == b[0];
      assert a == [a[0]] + a[1..] && b == [b[0]] + b[1..];
      forall x: nat ensures x in a[1..] <==> x in b[1..] {
        assert x in a <==> x in b;
        if x in a[1..] { assert x > a[0]; }
        if x in b[1..] { assert x > b[0]; }
      }
      SameIncreasing(a[1..], b[1..]);
    }
  }

  /** The run of a section in the order is the section's globals in index order. */
  lemma {:induction false} RunIsSection(globals: seq<Global>, order: seq<nat>, section: nat, left: nat, right: nat)
    requires IsOrdered(globals, order) && left <= right <= |order|
    requires forall i :: 0 <= i < left ==> globals[order[i]].section < section
    requires forall i :: left <= i < right ==> globals[order[i]].section == section
    requires right < |order| ==> globals[order[right]].section > section
    ensures order[left..right] == IndicesIn(globals, section)
  {
    var run := order[left..right];
    IndicesInCorrect(globals, section);
    forall i, j | 0 <= i < j < |run| ensures run[i] < run[j] {
      assert IndexOrder(globals, order[left + i], order[left + j]);
    }
    forall g: nat ensures g in run <==> g < |globals| && globals[g].section == section {
      RunMember(globals, order, section, left, right, g);
    }
    SameIncreasing(run, IndicesIn(globals, section));
  }

  lemma {:induction false} RunMember(globals: seq<Global>, order: seq<nat>, section: nat, left: nat, right: nat, g: nat)
    requires IsOrdered(globals, order) && left <= right <= |order|
    requires forall i :: 0 <= i < left ==> globals[order[i]].section < section
    requires forall i :: left <= i < right ==> globals[order[i]].section == section
    requires right < |order| ==> globals[order[right]].section > section
    ensures g in order[left..right] <==> g < |globals| && globals[g].section == section
  {
    if g < |globals| && globals[g].section == section {
      assert g in order;
      var i :| 0 <= i < |order| && order[i] == g;
      assert order[left..right][i - left] == g;
    }
  }

  /** Sort the indices of all globals by section and index. */
  method SortedIndices(globals: seq<Global>) returns (order: seq<nat>)
    ensures IsOrdered(globals, order)
  {
    var n := |globals|;
    var indices := new nat[n](k => k);
    var le := (a: nat, b: nat) =>
      SectionAt(globals, a) < SectionAt(globals, b) || (SectionAt(globals, a) == SectionAt(globals, b) && a <= b);
    ghost var before := indices[..];
    assert forall k :: 0 <= k < n ==> before[k] == k;
    Sorting.MergeSort(le, indices);
    order := indices[..];
    PermutedIndices(globals, before, order);
    forall i, j | 0 <= i < j < |order| ensures IndexOrder(globals, order[i], order[j]) && order[i] != order[j] {
      assert le(order[i], order[j]);
    }
  }

  function SectionAt(globals: seq<Global>, g: nat): nat { if g < |globals| then globals[g].section + 1 else 0 }

  lemma {:induction false} PermutedIndices(globals: seq<Global>, before: seq<nat>, order: seq<nat>)
    requires multiset(before) == multiset(order) && |before| == |globals|
    requires forall k :: 0 <= k < |before| ==> before[k] == k
    ensures forall i :: 0 <= i < |order| ==> order[i] < |globals|
    ensures forall g: nat :: g < |globals| ==> g in order
    ensures forall i, j :: 0 <= i < j < |order| ==> order[i] != order[j]
  {
    forall i | 0 <= i < |order| ensures order[i] < |globals| { assert order[i] in multiset(before); }
    forall g: nat | g < |globals| ensures g in order { assert before[g] in multiset(order); }
    forall i, j | 0 <= i < j < |order| ensures order[i] != order[j] {
      if order[i] == order[j] {
        CountsTwice(order, i, j);
        CountsOnce(before, order[i]);
      }
    }
  }

  // ---- the check ----

  /** The first position whose global is not before the section. */
  method FirstOfSection(globals: seq<Global>, section: nat, order: seq<nat>) returns (left: nat)
    requires IsOrdered(globals, order)
    ensures left <= |order|
    ensures forall i :: 0 <= i < left ==> globals[order[i]].section < section
    ensures forall i :: left <= i < |order| ==> globals[order[i]].section >= section
  {
    left := 0;
    var right := |order|;
    while left < right
      invariant left <= right <= |order|
      invariant forall i :: 0 <= i < left ==> globals[order[i]].section < section
      invariant forall i :: right <= i < |order| ==> globals[order[i]].section >= section
    {
      var middle := left + (right - left) / 2;
      if globals[order[middle]].section < section {
        forall i | 0 <= i < middle ensures globals[order[i]].section < section {
          assert IndexOrder(globals, order[i], order[middle]);
        }
        left := middle + 1;
      } else {
        forall i | middle < i < |order| ensures globals[order[i]].section >= section {
          assert IndexOrder(globals, order[middle], order[i]);
        }
        right := middle;
      }
    }
  }

  /** Where the section's run ends. */
  lemma {:induction false} RunEnd(
      globals: seq<Global>, section: nat, order: seq<nat>, left: nat, from: nat) returns (end: nat)
    requires IsOrdered(globals, order) && left <= from <= |order|
    requires forall i :: 0 <= i < left ==> globals[order[i]].section < section
    requires forall i :: left <= i < from ==> globals[order[i]].section == section
    requires forall i :: left <= i < |order| ==> globals[order[i]].section >= section
    ensures left <= end <= |order| && order[left..end] == IndicesIn(globals, section)
    ensures forall i :: left <= i < end ==> globals[order[i]].section == section
    ensures end < |order| ==> globals[order[end]].section != section
    decreases |order| - from
  {
    if from < |order| && globals[order[from]].section == section {
      end := RunEnd(globals, section, order, left, from + 1);
    } else {
      end := from;
      RunIsSection(globals, order, section, left, from);
    }
  }

  lemma {:induction false} ImageLength(s: Statics, list: seq<nat>)
    ensures Image(s, list).Some? ==> |Image(s, list).value| == TotalSize(s, list)
  {
    if |list| > 0 { ImageLength(s, list[1..]); }
  }

  lemma {:induction false} WalkIsMatch(s: Statics, section: nat, raw: Option<seq<Byte>>, logicalBytes: nat)
    ensures var list := IndicesIn(s.globals, section);
      Matches(s, section, raw, logicalBytes)
      <==> |list| > 0 && WalkMatches(s, list, raw, logicalBytes, 0) && (raw.Some? ==> |raw.value| == logicalBytes)
  {
    var list := IndicesIn(s.globals, section);
    if raw.Some? && |raw.value| != logicalBytes {
      ImageLength(s, list);
    } else {
      WalkExact(s, list, raw, logicalBytes, 0);
      if raw.Some? { assert raw.value[0..] == raw.value; }
    }
  }

  /** The walk over the section's run, which stops at the next section. */
  method WalkRun(
      s: Statics, section: nat, raw: Option<seq<Byte>>, logicalBytes: nat, order: seq<nat>, start: nat,
      ghost list: seq<nat>) returns (ok: bool)
    requires start + |list| <= |order| && order[start..start + |list|] == list
    requires forall i :: 0 <= i < |order| ==> order[i] < |s.globals|
    requires forall i :: 0 <= i < |list| ==> s.globals[list[i]].section == section
    requires start + |list| < |order| ==> s.globals[order[start + |list|]].section != section
    ensures ok
       <==> |list| > 0 && WalkMatches(s, list, raw, logicalBytes, 0) && (raw.Some? ==> |raw.value| == logicalBytes)
  {
    var cursor, count := 0, 0;
    assert list[0..] == list;
    while start + count < |order| && s.globals[order[start + count]].section == section
      invariant 0 <= count <= |list| && 0 <= cursor <= logicalBytes
      invariant WalkMatches(s, list, raw, logicalBytes, 0) == WalkMatches(s, list[count..], raw, logicalBytes, cursor)
      decreases |order| - count
    {
      var g := order[start + count];
      assert count < |list| && order[start..start + |list|][count] == g;
      assert list[count..][1..] == list[count + 1..];
      if !StepMatches(s, g, raw, logicalBytes, cursor) { return false; }
      cursor := cursor + SizeOf(s, g);
      count := count + 1;
    }
    assert count == |list|;
    ok := count != 0 && cursor == logicalBytes && (raw.None? || |raw.value| == logicalBytes);
  }

  /** Binary search for the section's first global, then the walk: it accepts exactly the sections
      whose globals tile and fill them. */
  method StorageMatches(
      s: Statics, section: nat, raw: Option<seq<Byte>>, logicalBytes: nat, order: seq<nat>) returns (ok: bool)
    requires IsOrdered(s.globals, order)
    ensures ok <==> Matches(s, section, raw, logicalBytes)
  {
    var start := FirstOfSection(s.globals, section, order);
    ghost var end := RunEnd(s.globals, section, order, start, start);
    ghost var list := order[start..end];
    assert forall i :: 0 <= i < |list| ==> list[i] == order[start + i];
    WalkIsMatch(s, section, raw, logicalBytes);
    ok := WalkRun(s, section, raw, logicalBytes, order, start, list);
  }
}
