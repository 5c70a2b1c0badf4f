/** The auditor's pairing of unwind records with code: each `.pdata` section holds one ARM64 unwind
    record, packed or pointing to an `.xdata` section. */
module Unwind {
  import opened Wrappers
  import opened Coff

  /** The section a relocation target names: neither undeclared nor a non-section symbol. */
  function TargetSection(o: Object, symbol: nat): Option<nat>
  {
    var target := At(o.targets, symbol);
    if target == 0 || target == 0xffff_ffff then None else Some(target - 1)
  }

  predicate DeclaredCode(o: Object, k: nat)
  {
    k < |o.sections| && o.sections[k].declared.Some? && o.sections[k].code
  }

  predicate IsXdata(o: Object, k: nat) { k < |o.sections| && o.sections[k].name == ".xdata" }
  predicate IsPdata(o: Object, k: nat) { k < |o.sections| && o.sections[k].name == ".pdata" }

  /** The code section an unwind record describes, and the `.xdata` section it selects, if any. */
  datatype Pair = Pair(code: nat, xdata: Option<nat>)

  // ---- packed records ----

  /** The function length of a packed record, in bytes: eleven bits of four-byte instructions. */
  function PackedBytes(word: nat): nat { (word / 4 % 0x800) * 4 }

  predicate PackedCanonical(word: nat)
  {
    (word % 4 == 1 || word % 4 == 2) && PackedBytes(word) != 0 && word / 0x1_0000 % 0x10 <= 10
  }

  function ReadPair(o: Object, p: Section): Option<Pair>
  {
    if p.fileBytes != 8 || !(p.relocationCount == 1 || p.relocationCount == 2) then None
    else
      match (ReadU32(o.bytes, p.fileOffset), ReadU32(o.bytes, p.fileOffset + 4), RelocationAt(o, p, 0))
      case (Some(word0), Some(word1), Some(first)) =>
        if word0 != 0 || first.offset != 0 || first.kind != ADDR32NB || TargetSection(o, first.symbol).None? then None
        else if p.relocationCount == 1 then ReadPacked(o, word1, TargetSection(o, first.symbol).value)
        else ReadUnpacked(o, word1, TargetSection(o, first.symbol).value, RelocationAt(o, p, 1))
      case _ => None
  }

  function ReadPacked(o: Object, word: nat, code: nat): Option<Pair>
  {
    if DeclaredCode(o, code) && PackedCanonical(word) && o.sections[code].fileBytes == PackedBytes(word)
    then Some(Pair(code, None)) else None
  }

  function ReadUnpacked(o: Object, word: nat, code: nat, second: Option<Record>): Option<Pair>
  {
    match second
    case None => None
    case Some(r) =>
      match TargetSection(o, r.symbol)
      case None => None
      case Some(xdata) =>
        if word == 0 && r.offset == 4 && r.kind == ADDR32NB && DeclaredCode(o, code) && IsXdata(o, xdata)
        then Some(Pair(code, Some(xdata))) else None
  }

  function PairOf(o: Object, k: nat): Option<Pair>
  {
    if k < |o.sections| then ReadPair(o, o.sections[k]) else None
  }

  lemma {:induction false} PairSections(o: Object, k: nat)
    ensures PairOf(o, k).Some? ==>
      var pair := PairOf(o, k).value;
      DeclaredCode(o, pair.code) && (pair.xdata.Some? ==> IsXdata(o, pair.xdata.value))
  {
  }

  /** A packed record describes its whole code section. */
  lemma {:induction false} PackedCoversSection(o: Object, k: nat)
    requires PairOf(o, k).Some? && PairOf(o, k).value.xdata.None?
    ensures var p, code := o.sections[k], o.sections[PairOf(o, k).value.code];
      p.relocationCount == 1 && ReadU32(o.bytes, p.fileOffset + 4).Some?
      && code.fileBytes == PackedBytes(ReadU32(o.bytes, p.fileOffset + 4).value) > 0
  {
  }

  // ---- the pairing ----

  /** What the walk finds at a section. */
  datatype Reading = NotPdata | MalformedPdata | Paired(pair: Pair)

  function Reader(o: Object): nat -> Reading
  {
    (k: nat) =>
      if !IsPdata(o, k) then NotPdata
      else match PairOf(o, k) case None => MalformedPdata case Some(pair) => Paired(pair)
  }

  predicate Describes(read: nat -> Reading, k: nat, code: nat) { read(k).Paired? && read(k).pair.code == code }
  predicate Selects(read: nat -> Reading, k: nat, xdata: nat) { read(k).Paired? && read(k).pair.xdata == Some(xdata) }

  /** No two of the first n sections describe the same code or select the same `.xdata`. */
  ghost predicate PairedUpTo(read: nat -> Reading, n: nat)
  {
    && (forall k: nat :: k < n ==> !read(k).MalformedPdata?)
    && (forall i: nat, j: nat, c: nat :: i < j < n && Describes(read, i, c) ==> !Describes(read, j, c))
    && (forall i: nat, j: nat, x: nat :: i < j < n && Selects(read, i, x) ==> !Selects(read, j, x))
  }

  predicate NeedsRecord(o: Object, x: nat) { IsXdata(o, x) && o.sections[x].fileBytes != 0 }

  /** Every `.pdata` is a record, no two share their code or their `.xdata`, and every nonempty
      `.xdata` is selected. */
  ghost predicate UnwindPaired(o: Object)
  {
    && PairedUpTo(Reader(o), |o.sections|)
    && forall x: nat :: NeedsRecord(o, x) ==> Selected(Reader(o), |o.sections|, x)
  }

  ghost predicate Described(read: nat -> Reading, n: nat, c: nat) { exists k: nat :: k < n && Describes(read, k, c) }
  ghost predicate Selected(read: nat -> Reading, n: nat, x: nat) { exists k: nat :: k < n && Selects(read, k, x) }

  /** The `.pdata` sections map injectively to declared code, and each nonempty `.xdata` is selected by
      exactly one of them. */
  lemma {:induction false} PairingIsInjective(o: Object, i: nat, j: nat)
    requires UnwindPaired(o) && IsPdata(o, i) && IsPdata(o, j)
    ensures PairOf(o, i).Some? && PairOf(o, j).Some? && DeclaredCode(o, PairOf(o, i).value.code)
    ensures PairOf(o, i).value.code == PairOf(o, j).value.code ==> i == j
    ensures PairOf(o, i).value.xdata.Some? && PairOf(o, i).value.xdata == PairOf(o, j).value.xdata ==> i == j
  {
    var read := Reader(o);
    assert !read(i).MalformedPdata? && !read(j).MalformedPdata?;
    PairSections(o, i);
    var a, b := PairOf(o, i).value, PairOf(o, j).value;
    assert Describes(read, i, a.code) && Describes(read, j, b.code);
    if a.xdata.Some? { assert Selects(read, i, a.xdata.value); }
    if b.xdata.Some? { assert Selects(read, j, b.xdata.value); }
  }

  lemma {:induction false} XdataSelectedOnce(o: Object, x: nat) returns (k: nat)
    requires UnwindPaired(o) && NeedsRecord(o, x)
    ensures IsPdata(o, k) && PairOf(o, k).Some? && PairOf(o, k).value.xdata == Some(x)
    ensures forall j: nat :: IsPdata(o, j) && PairOf(o, j).Some? && PairOf(o, j).value.xdata == Some(x) ==> j == k
  {
    var read := Reader(o);
    assert Selected(read, |o.sections|, x);
    k :| k < |o.sections| && Selects(read, k, x);
    forall j: nat | IsPdata(o, j) && PairOf(o, j).Some? && PairOf(o, j).value.xdata == Some(x) ensures j == k {
      PairingIsInjective(o, j, k);
    }
  }

  // ---- the check ----

  /** A counter array after the first n sections: one where a record has been seen. */
  ghost predicate CodesCounted(read: nat -> Reading, n: nat, codes: seq<nat>)
  {
    forall c :: 0 <= c < |codes| ==> codes[c] == if Described(read, n, c) then 1 else 0
  }

  ghost predicate XdatasCounted(read: nat -> Reading, n: nat, xdatas: seq<nat>)
  {
    forall x :: 0 <= x < |xdatas| ==> xdatas[x] == if Selected(read, n, x) then 1 else 0
  }

  lemma {:induction false} DescribedNext(read: nat -> Reading, n: nat, c: nat)
    ensures Described(read, n + 1, c) <==> Described(read, n, c) || Describes(read, n, c)
  {
    if Described(read, n, c) { var k: nat :| k < n && Describes(read, k, c); assert k < n + 1; }
    if Describes(read, n, c) { assert n < n + 1; }
  }

  lemma {:induction false} SelectedNext(read: nat -> Reading, n: nat, x: nat)
    ensures Selected(read, n + 1, x) <==> Selected(read, n, x) || Selects(read, n, x)
  {
    if Selected(read, n, x) { var k: nat :| k < n && Selects(read, k, x); assert k < n + 1; }
    if Selects(read, n, x) { assert n < n + 1; }
  }

  ghost predicate IsNew(read: nat -> Reading, n: nat)
  {
    match read(n)
    case NotPdata => true
    case MalformedPdata => false
    case Paired(pair) => !Described(read, n, pair.code) && (pair.xdata.Some? ==> !Selected(read, n, pair.xdata.value))
  }

  /** One more section keeps the pairing exactly when its record is well formed and new. */
  lemma {:induction false} PairedNext(read: nat -> Reading, n: nat)
    requires PairedUpTo(read, n)
    ensures PairedUpTo(read, n + 1) <==> IsNew(read, n)
  {
    if read(n).Paired? {
      var pair := read(n).pair;
      assert Describes(read, n, pair.code);
      if Described(read, n, pair.code) { var k: nat :| k < n && Describes(read, k, pair.code); }
      if pair.xdata.Some? {
        assert Selects(read, n, pair.xdata.value);
        if Selected(read, n, pair.xdata.value) { var k: nat :| k < n && Selects(read, k, pair.xdata.value); }
      }
    }
  }

  lemma {:induction false} NotPairedLater(read: nat -> Reading, n: nat, m: nat)
    requires n <= m && !PairedUpTo(read, n)
    ensures !PairedUpTo(read, m)
  {
  }

  method PairRecords(o: Object, codes: array<nat>, xdatas: array<nat>) returns (ok: bool)
    requires codes != xdatas && codes.Length == |o.sections| == xdatas.Length
    requires (forall c :: 0 <= c < codes.Length ==> codes[c] == 0)
    requires (forall x :: 0 <= x < xdatas.Length ==> xdatas[x] == 0)
    modifies codes, xdatas
    ensures ok <==> PairedUpTo(Reader(o), |o.sections|)
    ensures ok ==> CodesCounted(Reader(o), |o.sections|, codes[..])
    ensures ok ==> XdatasCounted(Reader(o), |o.sections|, xdatas[..])
  {
    var read := Reader(o);
    for n := 0 to |o.sections|
      invariant PairedUpTo(read, n) && CodesCounted(read, n, codes[..]) && XdatasCounted(read, n, xdatas[..])
    {
      ok := CountRecord(o, read, n, codes, xdatas);
      if !ok {
        NotPairedLater(read, n + 1, |o.sections|);
        return;
      }
    }
    ok := true;
  }

  method CountRecord(o: Object, read: nat -> Reading, n: nat, codes: array<nat>, xdatas: array<nat>) returns (ok: bool)
    requires codes != xdatas && codes.Length == |o.sections| == xdatas.Length && read == Reader(o)
    requires PairedUpTo(read, n) && CodesCounted(read, n, codes[..]) && XdatasCounted(read, n, xdatas[..])
    modifies codes, xdatas
    ensures ok <==> PairedUpTo(read, n + 1)
    ensures ok ==> CodesCounted(read, n + 1, codes[..]) && XdatasCounted(read, n + 1, xdatas[..])
  {
    var reading := read(n);
    PairSections(o, n);
    PairedNext(read, n);
    forall c: nat ensures Described(read, n + 1, c) <==> Described(read, n, c) || Describes(read, n, c) {
      DescribedNext(read, n, c);
    }
    forall x: nat ensures Selected(read, n + 1, x) <==> Selected(read, n, x) || Selects(read, n, x) {
      SelectedNext(read, n, x);
    }
    if reading.MalformedPdata? { return false; }
    if reading.Paired? {
      var pair := reading.pair;
      assert codes[..][pair.code] == codes[pair.code];
      if pair.xdata.Some? { assert xdatas[..][pair.xdata.value] == xdatas[pair.xdata.value]; }
      if codes[pair.code] != 0 || (pair.xdata.Some? && xdatas[pair.xdata.value] != 0) { return false; }
      codes[pair.code] := 1;
      if pair.xdata.Some? { xdatas[pair.xdata.value] := 1; }
    }
    ok := true;
  }

  /** Walk the `.pdata` sections, then require a record for every nonempty `.xdata`: the check succeeds
      exactly when the unwind records are paired. */
  method ValidateUnwind(o: Object) returns (ok: bool)
    ensures ok <==> UnwindPaired(o)
  {
    var codes := new nat[|o.sections|](_ => 0);
    var xdatas := new nat[|o.sections|](_ => 0);
    ok := PairRecords(o, codes, xdatas);
    if !ok { return; }
    for k := 0 to |o.sections|
      invariant forall x: nat :: x < k && NeedsRecord(o, x) ==> Selected(Reader(o), |o.sections|, x)
    {
      assert xdatas[..][k] == xdatas[k] && codes[..][k] == codes[k];
      if NeedsRecord(o, k) && xdatas[k] != 1 { return false; }
      if DeclaredCode(o, k) && codes[k] > 1 { return false; }
    }
  }
}
