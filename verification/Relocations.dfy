/** The auditor's relocation check: relocations against function symbols are, as a multiset, the calls
    and tail calls of MachineWir. */
module Relocations {
  import opened CallSites
  import Sorting

  datatype Key = Key(section: nat, callee: nat, kind: BranchKind)
  datatype Cell = Cell(key: Key, required: nat, observed: nat)

  predicate KindLess(a: BranchKind, b: BranchKind) { a.CallBranch? && b.TailBranch? }

  predicate KeyLess(a: Key, b: Key)
  {
    || a.section < b.section
    || (a.section == b.section && (a.callee < b.callee || (a.callee == b.callee && KindLess(a.kind, b.kind))))
  }

  predicate KeyOrder(a: Cell, b: Cell) { !KeyLess(b.key, a.key) }

  function Compare(a: Key, b: Key): Sorting.Ordering
  {
    if KeyLess(a, b) then Sorting.Less else if KeyLess(b, a) then Sorting.Greater else Sorting.Equal
  }

  // ---- the cells ----

  function Fresh(keys: seq<Key>): seq<Cell>
  {
    seq(|keys|, k requires 0 <= k < |keys| => Cell(keys[k], 1, 0))
  }

  function KeysOf(cells: seq<Cell>): seq<Key>
  {
    seq(|cells|, k requires 0 <= k < |cells| => cells[k].key)
  }

  ghost predicate Increasing(cells: seq<Cell>)
  {
    forall i, j :: 0 <= i < j < |cells| ==> KeyLess(cells[i].key, cells[j].key)
  }

  function Total(cells: seq<Cell>): nat
  {
    if |cells| == 0 then 0 else Total(cells[..|cells| - 1]) + cells[|cells| - 1].required
  }

  predicate Opened(k: int, keys: seq<Key>, cells: seq<Cell>) { true }

  /** The cells count the keys: one cell per distinct key, in order, holding how often it occurs. */
  ghost predicate Counts(keys: seq<Key>, cells: seq<Cell>)
  {
    && Increasing(cells) && Total(cells) == |keys|
    && (forall k :: 0 <= k < |cells| ==>
          cells[k].observed == 0 && cells[k].required == multiset(keys)[cells[k].key] > 0)
    && (forall key :: key in keys ==> key in KeysOf(cells))
  }

  /** `Counts`, folded. */
  ghost predicate Compacts(keys: seq<Key>, cells: seq<Cell>)
  {
    forall k {:trigger Opened(k, keys, cells)} :: Opened(k, keys, cells) ==> Counts(keys, cells)
  }

  lemma {:induction false} CompactsCounts(keys: seq<Key>, cells: seq<Cell>)
    ensures Compacts(keys, cells) <==> Counts(keys, cells)
  {
    assert Opened(0, keys, cells);
  }

  /** Neighbouring equal keys are merged. */
  method Compact(raw: seq<Cell>) returns (compact: seq<Cell>)
    requires Sorting.Sorted(KeyOrder, raw)
    requires forall k :: 0 <= k < |raw| ==> raw[k].required == 1 && raw[k].observed == 0
    ensures Compacts(KeysOf(raw), compact)
  {
    compact := [];
    CompactsCounts([], []);
    for k := 0 to |raw|
      invariant Compacts(KeysOf(raw[..k]), compact)
      invariant |compact| == 0 <==> k == 0
      invariant k > 0 ==> compact[|compact| - 1].key == raw[k - 1].key
    {
      var edge := raw[k];
      ghost var keys := KeysOf(raw[..k]);
      KeysSnoc(raw, k);
      if k > 0 { assert KeyOrder(raw[k - 1], raw[k]); }
      if |compact| > 0 && compact[|compact| - 1].key == edge.key {
        CompactRepeat(keys, compact);
        var previous := compact[|compact| - 1];
        compact := compact[..|compact| - 1] + [previous.(required := previous.required + 1)];
      } else {
        CompactNew(keys, compact, edge);
        compact := compact + [edge];
      }
    }
    assert raw[..|raw|] == raw;
  }

  lemma {:induction false} KeysSnoc(raw: seq<Cell>, k: nat)
    requires k < |raw|
    ensures KeysOf(raw[..k + 1]) == KeysOf(raw[..k]) + [raw[k].key]
  {
  }

  lemma {:induction false} CompactRepeat(keys: seq<Key>, cells: seq<Cell>)
    requires Compacts(keys, cells) && |cells| > 0
    ensures var last := cells[|cells| - 1];
      Compacts(keys + [last.key], cells[..|cells| - 1] + [last.(required := last.required + 1)])
  {
    var n := |cells| - 1;
    var last := cells[n];
    var more, out := keys + [last.key], cells[..n] + [last.(required := last.required + 1)];
    CompactsCounts(keys, cells);
    assert out[..|out| - 1] == cells[..n];
    assert KeysOf(out) == KeysOf(cells);
    assert KeysOf(cells)[n] == last.key;
    assert forall k :: 0 <= k < n ==> KeyLess(out[k].key, last.key);
    CompactsCounts(more, out);
  }

  lemma {:induction false} CompactNew(keys: seq<Key>, cells: seq<Cell>, edge: Cell)
    requires Compacts(keys, cells) && edge.required == 1 && edge.observed == 0
    requires |cells| > 0 ==> KeyLess(cells[|cells| - 1].key, edge.key)
    ensures Compacts(keys + [edge.key], cells + [edge])
  {
    var more, out := keys + [edge.key], cells + [edge];
    CompactsCounts(keys, cells);
    assert out[..|out| - 1] == cells && KeysOf(out) == KeysOf(cells) + [edge.key];
    forall k | 0 <= k < |cells| ensures KeyLess(cells[k].key, edge.key) {
      if k < |cells| - 1 { assert KeyLess(cells[k].key, cells[|cells| - 1].key); }
    }
    assert edge.key !in KeysOf(cells);
    CompactsCounts(more, out);
  }

  /** Sorting and compacting the required branches. */
  method RequiredCells(keys: seq<Key>) returns (cells: seq<Cell>)
    ensures Compacts(keys, cells)
  {
    var raw := Fresh(keys);
    var sorted := new Cell[|raw|](k requires 0 <= k < |raw| => raw[k]);
    assert sorted[..] == raw;
    OrderIsTotal();
    Sorting.MergeSort(KeyOrder, sorted);
    KeysPermuted(sorted[..], raw);
    cells := Compact(sorted[..]);
    assert KeysOf(raw) == keys;
    CompactsSame(KeysOf(sorted[..]), keys, cells);
  }

  lemma {:induction false} OrderIsTotal()
    ensures Sorting.TotalPreorder(KeyOrder)
  {
  }

  predicate FreshCell(c: Cell) { c.required == 1 && c.observed == 0 }

  lemma {:induction false} KeyCount(cells: seq<Cell>, key: Key)
    requires forall c :: c in cells ==> FreshCell(c)
    ensures multiset(KeysOf(cells))[key] == multiset(cells)[Cell(key, 1, 0)]
  {
    if |cells| > 0 {
      assert cells[0] in cells;
      KeyCount(cells[1..], key);
      assert cells == [cells[0]] + cells[1..] && KeysOf(cells) == [cells[0].key] + KeysOf(cells[1..]);
    }
  }

  lemma {:induction false} KeysPermuted(a: seq<Cell>, b: seq<Cell>)
    requires multiset(a) == multiset(b) && forall k :: 0 <= k < |b| ==> b[k].required == 1 && b[k].observed == 0
    ensures forall k :: 0 <= k < |a| ==> a[k].required == 1 && a[k].observed == 0
    ensures multiset(KeysOf(a)) == multiset(KeysOf(b))
  {
    forall c | c in a ensures FreshCell(c) { assert c in multiset(b); }
    assert forall c :: c in b ==> FreshCell(c);
    forall k | 0 <= k < |a| ensures a[k].required == 1 && a[k].observed == 0 { assert FreshCell(a[k]); }
    forall key ensures multiset(KeysOf(a))[key] == multiset(KeysOf(b))[key] {
      KeyCount(a, key);
      KeyCount(b, key);
    }
  }

  lemma {:induction false} CompactsSame(a: seq<Key>, b: seq<Key>, cells: seq<Cell>)
    requires multiset(a) == multiset(b) && Compacts(a, cells)
    ensures Compacts(b, cells)
  {
    CompactsCounts(a, cells);
    assert |a| == |multiset(a)| == |b|;
    forall key | key in b ensures key in KeysOf(cells) {
      assert key in multiset(b);
      assert key in a;
    }
    CompactsCounts(b, cells);
  }

  // ---- observing ----

  /** The cells after observing `seen`. */
  ghost predicate Tallies(cells: seq<Cell>, keys: seq<Key>, seen: seq<Key>)
  {
    && Increasing(cells)
    && (forall k :: 0 <= k < |cells| ==>
          cells[k].required == multiset(keys)[cells[k].key] && cells[k].observed == multiset(seen)[cells[k].key])
    && (forall key :: key in keys <==> key in KeysOf(cells))
    && (forall key :: key in seen ==> key in keys)
  }

  /** `Tallies`, folded. */
  ghost predicate Observed(cells: seq<Cell>, keys: seq<Key>, seen: seq<Key>)
  {
    forall k {:trigger Opened(k, seen, cells)} :: Opened(k, seen, cells) ==> Tallies(cells, keys, seen)
  }

  lemma {:induction false} ObservedTallies(cells: seq<Cell>, keys: seq<Key>, seen: seq<Key>)
    ensures Observed(cells, keys, seen) <==> Tallies(cells, keys, seen)
  {
    assert Opened(0, seen, cells);
  }

  lemma {:induction false} ObservedStart(cells: seq<Cell>, keys: seq<Key>)
    requires Compacts(keys, cells)
    ensures Observed(cells, keys, [])
  {
    CompactsCounts(keys, cells);
    forall key | key in KeysOf(cells) ensures key in keys {
      var k :| 0 <= k < |cells| && cells[k].key == key;
      assert multiset(keys)[key] > 0;
    }
    ObservedTallies(cells, keys, []);
  }

  /** Look the branch up and count it; a branch MachineWir does not have is refused. */
  method ObserveKey(cells: array<Cell>, key: Key, ghost keys: seq<Key>, ghost seen: seq<Key>) returns (ok: bool)
    requires Observed(cells[..], keys, seen)
    modifies cells
    ensures ok <==> key in keys
    ensures ok ==> Observed(cells[..], keys, seen + [key])
    ensures !ok ==> cells[..] == old(cells[..])
  {
    var compare := (cell: Cell) => Compare(cell.key, key);
    ghost var before := cells[..];
    ObservedTallies(before, keys, seen);
    SearchMonotone(before, key);
    var found := Sorting.BinarySearch(cells[..], compare);
    match found
    case None =>
      ok := false;
      NotFound(before, key);
    case Some(index) =>
      ok := true;
      CompareEqual(cells[index].key, key);
      assert KeysOf(before)[index] == key;
      cells[index] := cells[index].(observed := cells[index].observed + 1);
      assert cells[..] == before[index := before[index].(observed := before[index].observed + 1)];
      ObservedMore(before, keys, seen, index);
  }

  lemma {:induction false} CompareEqual(a: Key, b: Key)
    ensures Compare(a, b).Equal? <==> a == b
  {
  }

  lemma {:induction false} NotFound(cells: seq<Cell>, key: Key)
    requires forall k :: 0 <= k < |cells| ==> !Compare(cells[k].key, key).Equal?
    ensures key !in KeysOf(cells)
  {
    forall k | 0 <= k < |cells| ensures cells[k].key != key { CompareEqual(cells[k].key, key); }
  }

  lemma {:induction false} SearchMonotone(cells: seq<Cell>, key: Key)
    requires Increasing(cells)
    ensures Sorting.Monotone((cell: Cell) => Compare(cell.key, key), cells)
  {
  }

  lemma {:induction false} ObservedMore(cells: seq<Cell>, keys: seq<Key>, seen: seq<Key>, index: nat)
    requires Observed(cells, keys, seen) && index < |cells|
    ensures Observed(cells[index := cells[index].(observed := cells[index].observed + 1)], keys,
      seen + [cells[index].key])
  {
    var key, out := cells[index].key, cells[index := cells[index].(observed := cells[index].observed + 1)];
    ObservedTallies(cells, keys, seen);
    assert KeysOf(out) == KeysOf(cells);
    forall k | 0 <= k < |cells| && k != index ensures cells[k].key != key {
      if k < index {
        assert KeyLess(cells[k].key, cells[index].key);
      } else {
        assert KeyLess(cells[index].key, cells[k].key);
      }
    }
    assert KeysOf(cells)[index] == key;
    ObservedTallies(out, keys, seen + [key]);
  }

  /** Every cell has been observed as often as required exactly when the branches seen are those
      required. */
  method CountsMatch(cells: seq<Cell>, ghost keys: seq<Key>, ghost seen: seq<Key>) returns (ok: bool)
    requires Observed(cells, keys, seen)
    ensures ok <==> multiset(seen) == multiset(keys)
  {
    ObservedTallies(cells, keys, seen);
    for k := 0 to |cells|
      invariant forall j :: 0 <= j < k ==> cells[j].observed == cells[j].required
    {
      if cells[k].observed != cells[k].required {
        assert multiset(seen)[cells[k].key] != multiset(keys)[cells[k].key];
        return false;
      }
    }
    forall key ensures multiset(seen)[key] == multiset(keys)[key] {
      if key in keys {
        var k :| 0 <= k < |cells| && KeysOf(cells)[k] == key;
        assert cells[k].observed == cells[k].required;
      } else {
        assert key !in seen;
      }
    }
    return true;
  }
}
