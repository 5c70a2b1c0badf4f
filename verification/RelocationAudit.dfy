/** The walk over an object's relocations, and what its success means for the rendered code. */
module RelocationAudit {
  import opened Wrappers
  import opened Lists
  import opened MachineWir
  import opened Renderer
  import opened CallSites
  import opened Coff
  import opened Relocations
  import opened RuntimeCalls

  // ---- the branches MachineWir requires ----

  function VisitKey(section: nat, visits: seq<Site>): nat -> seq<Key>
  {
    (k: nat) => if k < |visits| && visits[k].Internal? then [Key(section, visits[k].callee, visits[k].kind)] else []
  }

  function OperationKeys(m: Machine, section: nat, operation: Operation): seq<Key>
  {
    Concat(VisitKey(section, Visits(m, operation)), |Visits(m, operation)|)
  }

  function InstructionKeys(m: Machine, section: nat, instructions: seq<Instruction>): nat -> seq<Key>
  {
    (k: nat) => if k < |instructions| then OperationKeys(m, section, instructions[k].operation) else []
  }

  function BlockKeys(m: Machine, section: nat, b: Block): seq<Key>
  {
    Concat(InstructionKeys(m, section, b.instructions), |b.instructions|)
    + if b.terminator.TailCall? then [Key(section, b.terminator.callee, TailBranch)] else []
  }

  function BlocksKeys(m: Machine, section: nat, blocks: seq<Block>): nat -> seq<Key>
  {
    (k: nat) => if k < |blocks| then BlockKeys(m, section, blocks[k]) else []
  }

  function FunctionKeys(m: Machine, f: Function): seq<Key> { Concat(BlocksKeys(m, f.section, f.blocks), |f.blocks|) }

  function FunctionsKeys(m: Machine): nat -> seq<Key>
  {
    (k: nat) => if k < |m.functions| then FunctionKeys(m, m.functions[k]) else []
  }

  /** Every call and tail call of the module, with the section it is in. */
  function RequiredKeys(m: Machine): seq<Key> { Concat(FunctionsKeys(m), |m.functions|) }

  method CollectVisits(m: Machine, section: nat, operation: Operation) returns (keys: seq<Key>)
    ensures keys == OperationKeys(m, section, operation)
  {
    var visits := VisitBranches(m, operation);
    keys := [];
    for k := 0 to |visits|
      invariant keys == Concat(VisitKey(section, visits), k)
    {
      if visits[k].Internal? { keys := keys + [Key(section, visits[k].callee, visits[k].kind)]; }
    }
  }

  method CollectBlockKeys(m: Machine, section: nat, b: Block) returns (keys: seq<Key>)
    ensures keys == BlockKeys(m, section, b)
  {
    keys := [];
    for k := 0 to |b.instructions|
      invariant keys == Concat(InstructionKeys(m, section, b.instructions), k)
    {
      var more := CollectVisits(m, section, b.instructions[k].operation);
      keys := keys + more;
    }
    if b.terminator.TailCall? { keys := keys + [Key(section, b.terminator.callee, TailBranch)]; }
  }

  method CollectFunctionKeys(m: Machine, f: Function) returns (keys: seq<Key>)
    ensures keys == FunctionKeys(m, f)
  {
    keys := [];
    for k := 0 to |f.blocks|
      invariant keys == Concat(BlocksKeys(m, f.section, f.blocks), k)
    {
      var more := CollectBlockKeys(m, f.section, f.blocks[k]);
      keys := keys + more;
    }
  }

  method CollectKeys(m: Machine) returns (keys: seq<Key>)
    ensures keys == RequiredKeys(m)
  {
    keys := [];
    for k := 0 to |m.functions|
      invariant keys == Concat(FunctionsKeys(m), k)
    {
      var more := CollectFunctionKeys(m, m.functions[k]);
      keys := keys + more;
    }
  }

  // ---- one relocation ----

  datatype Observation = Malformed | Ignored | RuntimeBranch(call: RuntimeKey) | InternalBranch(key: Key)

  /** The branch instruction a relocation patches: BL is 100101, B is 000101 in the top six bits. */
  function BranchAt(o: Object, s: Section, offset: nat): Option<BranchKind>
  {
    match ReadU32(o.bytes, s.fileOffset + offset)
    case None => None
    case Some(word) =>
      if word / 0x400_0000 == 0x25 then Some(CallBranch)
      else if word / 0x400_0000 == 0x05 then Some(TailBranch)
      else None
  }

  function Observe(o: Object, s: Section, r: Record): Observation
  {
    if r.offset >= s.fileBytes || At(o.targets, r.symbol) == 0 || r.kind > 0x10 then Malformed
    else if At(o.required, r.symbol) == 0 then Ignored
    else if At(o.required, r.symbol) - 1 >= |o.symbols| then Malformed
    else
      match o.symbols[At(o.required, r.symbol) - 1]
      case OtherSymbol => Ignored
      case RuntimeSymbol(intrinsic) =>
        if r.kind != BRANCH26 || r.offset % 4 != 0 || r.offset + 4 > s.fileBytes || s.declared.None? then Malformed
        else if BranchAt(o, s, r.offset) == Some(CallBranch) then RuntimeBranch(RuntimeKey(s.declared.value, intrinsic))
        else Malformed
      case FunctionSymbol(callee) =>
        if r.kind != BRANCH26 || r.offset % 4 != 0 || r.offset + 4 > s.fileBytes || s.declared.None? then Malformed
        else
          match BranchAt(o, s, r.offset)
          case None => Malformed
          case Some(kind) => InternalBranch(Key(s.declared.value, callee, kind))
  }

  // ---- what the walk must find ----

  /** Only declared code may hold relocations, apart from unwind records, which are checked elsewhere. */
  predicate MayRelocate(s: Section)
  {
    s.relocationCount == 0 || (s.name != ".xdata" && s.declared.Some? && s.code)
  }

  /** What the walk reads at a record: its offset and what it observes there. */
  datatype Seen = Seen(offset: nat, observation: Observation)

  function Reader(o: Object, s: Section): nat -> Option<Seen>
  {
    (k: nat) =>
      match RelocationAt(o, s, k)
      case None => None
      case Some(r) => Some(Seen(r.offset, Observe(o, s, r)))
  }

  /** Record k is present, well formed and beyond the one before it. */
  predicate RecordSound(read: nat -> Option<Seen>, k: nat)
  {
    && read(k).Some? && read(k).value.observation != Malformed
    && (k > 0 ==> read(k - 1).Some? && read(k - 1).value.offset < read(k).value.offset)
  }

  function KeysOf(o: Observation): seq<Key> { if o.InternalBranch? then [o.key] else [] }
  function CallsOf(o: Observation): seq<RuntimeKey> { if o.RuntimeBranch? then [o.call] else [] }

  /** The internal branches among the first n records, and the runtime calls. */
  function SectionKeys(read: nat -> Option<Seen>, n: nat): seq<Key> { Concat(KeysRead(read), n) }
  function SectionCalls(read: nat -> Option<Seen>, n: nat): seq<RuntimeKey> { Concat(CallsRead(read), n) }

  function KeysRead(read: nat -> Option<Seen>): nat -> seq<Key>
  {
    (k: nat) => if read(k).Some? then KeysOf(read(k).value.observation) else []
  }

  function CallsRead(read: nat -> Option<Seen>): nat -> seq<RuntimeKey>
  {
    (k: nat) => if read(k).Some? then CallsOf(read(k).value.observation) else []
  }

  /** Strictly increasing offsets: no two relocations of a section patch the same instruction. */
  lemma {:induction false} OffsetsIncrease(read: nat -> Option<Seen>, n: nat, i: nat, j: nat)
    requires (forall k :: 0 <= k < n ==> RecordSound(read, k)) && i < j < n
    ensures read(i).Some? && read(j).Some? && read(i).value.offset < read(j).value.offset
  {
    assert RecordSound(read, i) && RecordSound(read, j);
    if i < j - 1 { OffsetsIncrease(read, n, i, j - 1); }
  }

  ghost predicate AllIn(some: seq<Key>, keys: seq<Key>) { forall key :: key in some ==> key in keys }

  /** The branch is one that is required, the call one of a section. */
  predicate Known(o: Observation, keys: seq<Key>, sections: nat)
  {
    (o.InternalBranch? ==> o.key in keys) && (o.RuntimeBranch? ==> o.call.section < sections)
  }

  ghost predicate RecordKnown(read: nat -> Option<Seen>, k: nat, keys: seq<Key>, sections: nat)
  {
    read(k).Some? ==> Known(read(k).value.observation, keys, sections)
  }

  /** Every record is known exactly when all branches are required and all calls are in range. */
  lemma {:induction false} AllKnown(read: nat -> Option<Seen>, n: nat, keys: seq<Key>, sections: nat)
    ensures (forall k :: 0 <= k < n ==> RecordKnown(read, k, keys, sections))
       <==> AllIn(SectionKeys(read, n), keys) && InRange(SectionCalls(read, n), sections)
  {
    if n > 0 {
      AllKnown(read, n - 1, keys, sections);
      LastKnown(read, n - 1, keys, sections);
      AllInMore(SectionKeys(read, n - 1), KeysRead(read)(n - 1), keys);
      InRangeMore(SectionCalls(read, n - 1), CallsRead(read)(n - 1), sections);
    }
  }

  lemma {:induction false} LastKnown(read: nat -> Option<Seen>, k: nat, keys: seq<Key>, sections: nat)
    ensures RecordKnown(read, k, keys, sections)
       <==> AllIn(KeysRead(read)(k), keys) && InRange(CallsRead(read)(k), sections)
  {
    if read(k).Some? {
      var o := read(k).value.observation;
      if o.InternalBranch? { assert o.key in KeysOf(o); }
      if o.RuntimeBranch? { assert CallsOf(o)[0] == o.call; }
    }
  }

  lemma {:induction false} AllInMore(a: seq<Key>, b: seq<Key>, keys: seq<Key>)
    ensures AllIn(a + b, keys) <==> AllIn(a, keys) && AllIn(b, keys)
  {
    assert forall key :: key in a + b <==> key in a || key in b;
  }

  lemma {:induction false} InRangeMore(a: seq<RuntimeKey>, b: seq<RuntimeKey>, sections: nat)
    ensures InRange(a + b, sections) <==> InRange(a, sections) && InRange(b, sections)
  {
    forall k | 0 <= k < |a| ensures (a + b)[k] == a[k] { }
    forall k | 0 <= k < |b| ensures (a + b)[|a| + k] == b[k] { }
  }

  // ---- the walk ----

  /** Count what a record shows, in the table of branches or in the matrix of calls. */
  method Note(o: Observation, cells: array<Cell>, counts: array<nat>, sections: nat,
      ghost keys: seq<Key>, ghost seen: seq<Key>, ghost calls: seq<RuntimeKey>) returns (ok: bool)
    requires counts.Length == sections * INTRINSICS && cells as object != counts
    requires Observed(cells[..], keys, seen) && Tallied(counts[..], calls)
    modifies cells, counts
    ensures ok <==> Known(o, keys, sections)
    ensures ok ==> Observed(cells[..], keys, seen + KeysOf(o)) && Tallied(counts[..], calls + CallsOf(o))
  {
    assert seen + [] == seen && calls + [] == calls;
    match o {
      case InternalBranch(key) => ok := ObserveKey(cells, key, keys, seen);
      case RuntimeBranch(call) => ok := AddCall(counts, call, sections, calls);
      case _ => ok := true;
    }
  }

  method WalkRecords(read: nat -> Option<Seen>, n: nat, cells: array<Cell>, counts: array<nat>, sections: nat,
      ghost keys: seq<Key>, ghost seen: seq<Key>, ghost calls: seq<RuntimeKey>) returns (ok: bool)
    requires counts.Length == sections * INTRINSICS && cells as object != counts
    requires Observed(cells[..], keys, seen) && Tallied(counts[..], calls)
    modifies cells, counts
    ensures ok <==> forall k :: 0 <= k < n ==> RecordSound(read, k) && RecordKnown(read, k, keys, sections)
    ensures ok ==> Observed(cells[..], keys, seen + SectionKeys(read, n))
    ensures ok ==> Tallied(counts[..], calls + SectionCalls(read, n))
  {
    var previous: Option<nat> := None;
    assert seen + SectionKeys(read, 0) == seen && calls + SectionCalls(read, 0) == calls;
    for k := 0 to n
      invariant forall j :: 0 <= j < k ==> RecordSound(read, j) && RecordKnown(read, j, keys, sections)
      invariant k > 0 ==> RecordSound(read, k - 1)
      invariant previous == if k == 0 then None else Some(read(k - 1).value.offset)
      invariant Observed(cells[..], keys, seen + SectionKeys(read, k))
      invariant Tallied(counts[..], calls + SectionCalls(read, k))
    {
      var record := read(k);
      if record.None? || record.value.observation.Malformed?
         || (previous.Some? && record.value.offset <= previous.value) {
        assert !RecordSound(read, k);
        return false;
      }
      assert RecordSound(read, k);
      previous := Some(record.value.offset);
      var o := record.value.observation;
      ok := Note(o, cells, counts, sections, keys, seen + SectionKeys(read, k), calls + SectionCalls(read, k));
      if !ok {
        assert !RecordKnown(read, k, keys, sections);
        return;
      }
      Further(read, k, seen, calls);
    }
    return true;
  }

  lemma {:induction false} Further(read: nat -> Option<Seen>, k: nat, seen: seq<Key>, calls: seq<RuntimeKey>)
    requires read(k).Some?
    ensures seen + SectionKeys(read, k) + KeysOf(read(k).value.observation) == seen + SectionKeys(read, k + 1)
    ensures calls + SectionCalls(read, k) + CallsOf(read(k).value.observation) == calls + SectionCalls(read, k + 1)
  {
  }

  ghost predicate SectionSound(o: Object, s: Section)
  {
    s.name == ".pdata" || (MayRelocate(s) && forall k :: 0 <= k < s.relocationCount ==> RecordSound(Reader(o, s), k))
  }

  function KeysIn(o: Object, s: Section): seq<Key>
  {
    if s.name == ".pdata" then [] else SectionKeys(Reader(o, s), s.relocationCount)
  }

  function CallsIn(o: Object, s: Section): seq<RuntimeKey>
  {
    if s.name == ".pdata" then [] else SectionCalls(Reader(o, s), s.relocationCount)
  }

  predicate OpenFindings(k: int, s: Section) { true }

  /** What there is to find in a section, folded: whether it is sound, its branches and its calls. */
  ghost predicate Findings(o: Object, s: Section, sound: bool, here: seq<Key>, called: seq<RuntimeKey>)
  {
    forall k {:trigger OpenFindings(k, s)} :: OpenFindings(k, s) ==>
      sound == SectionSound(o, s) && here == KeysIn(o, s) && called == CallsIn(o, s)
  }

  lemma {:induction false} FindingsAre(o: Object, s: Section, sound: bool, here: seq<Key>, called: seq<RuntimeKey>)
    ensures Findings(o, s, sound, here, called)
       <==> sound == SectionSound(o, s) && here == KeysIn(o, s) && called == CallsIn(o, s)
  {
    assert OpenFindings(0, s);
  }

  method WalkSection(o: Object, s: Section, cells: array<Cell>, counts: array<nat>, sections: nat, ghost keys: seq<Key>,
      ghost seen: seq<Key>, ghost calls: seq<RuntimeKey>, ghost sound: bool, ghost here: seq<Key>,
      ghost called: seq<RuntimeKey>)
    returns (ok: bool)
    requires counts.Length == sections * INTRINSICS && cells as object != counts
    requires Observed(cells[..], keys, seen) && Tallied(counts[..], calls) && Findings(o, s, sound, here, called)
    modifies cells, counts
    ensures ok <==> sound && AllIn(here, keys) && InRange(called, sections)
    ensures ok ==> Observed(cells[..], keys, seen + here) && Tallied(counts[..], calls + called)
  {
    FindingsAre(o, s, sound, here, called);
    if s.name == ".pdata" {
      assert seen + here == seen && calls + called == calls;
      return true;
    }
    if !MayRelocate(s) { return false; }
    AllKnown(Reader(o, s), s.relocationCount, keys, sections);
    ok := WalkRecords(Reader(o, s), s.relocationCount, cells, counts, sections, keys, seen, calls);
  }

  /** The internal branches of all sections, and the runtime calls. */
  function ObjectKeys(o: Object): seq<Key> { Concat(SectionsKeys(o), |o.sections|) }
  function ObjectCalls(o: Object): seq<RuntimeKey> { Concat(SectionsCalls(o), |o.sections|) }

  function SectionsKeys(o: Object): nat -> seq<Key>
  {
    (k: nat) => if k < |o.sections| then KeysIn(o, o.sections[k]) else []
  }

  function SectionsCalls(o: Object): nat -> seq<RuntimeKey>
  {
    (k: nat) => if k < |o.sections| then CallsIn(o, o.sections[k]) else []
  }

  ghost predicate SoundAt(o: Object, k: nat) { k < |o.sections| && SectionSound(o, o.sections[k]) }

  /** The relocations are well formed and patch, as a multiset, the required branches. */
  ghost predicate RelocationsAgree(o: Object, keys: seq<Key>)
  {
    (forall k :: 0 <= k < |o.sections| ==> SoundAt(o, k)) && multiset(ObjectKeys(o)) == multiset(keys)
  }

  /** Every runtime call belongs to a section of the machine, and every section makes an accepted number of
      calls of every intrinsic. */
  ghost predicate CallsAgree(o: Object, m: Machine, sections: nat)
  {
    && InRange(MachineCalls(Allows(), m), sections) && InRange(MachineCalls(Requires(), m), sections)
    && ObjectCallsAgree(o, MachineCalls(Requires(), m), MachineCalls(Allows(), m), sections)
  }

  ghost predicate ObjectCallsAgree(o: Object, must: seq<RuntimeKey>, may: seq<RuntimeKey>, sections: nat)
  {
    InRange(ObjectCalls(o), sections) && CallsAccepted(sections, must, may, ObjectCalls(o))
  }

  method WalkSections(o: Object, cells: array<Cell>, counts: array<nat>, sections: nat, ghost keys: seq<Key>,
      ghost sound: nat -> bool, ghost g: nat -> seq<Key>, ghost h: nat -> seq<RuntimeKey>) returns (ok: bool)
    requires counts.Length == sections * INTRINSICS && cells as object != counts
    requires Observed(cells[..], keys, []) && Tallied(counts[..], [])
    requires forall k: nat :: k < |o.sections| ==> Findings(o, o.sections[k], sound(k), g(k), h(k))
    modifies cells, counts
    ensures ok <==> forall k: nat :: k < |o.sections| ==> sound(k) && AllIn(g(k), keys) && InRange(h(k), sections)
    ensures ok ==> Observed(cells[..], keys, Concat(g, |o.sections|)) && Tallied(counts[..], Concat(h, |o.sections|))
  {
    for n := 0 to |o.sections|
      invariant forall k: nat :: k < n ==> sound(k) && AllIn(g(k), keys) && InRange(h(k), sections)
      invariant Observed(cells[..], keys, Concat(g, n)) && Tallied(counts[..], Concat(h, n))
    {
      ghost var seen, calls := Concat(g, n), Concat(h, n);
      assert Concat(g, n + 1) == seen + g(n) && Concat(h, n + 1) == calls + h(n);
      ok := WalkSection(o, o.sections[n], cells, counts, sections, keys, seen, calls, sound(n), g(n), h(n));
      if !ok { return; }
    }
    ok := true;
  }

  lemma {:induction false} Refused(o: Object, keys: seq<Key>, n: nat)
    requires n < |o.sections| && !AllIn(SectionsKeys(o)(n), keys)
    ensures multiset(ObjectKeys(o)) != multiset(keys)
  {
    var key :| key in SectionsKeys(o)(n) && key !in keys;
    ConcatMembers(SectionsKeys(o), |o.sections|, key);
    assert InSome(SectionsKeys(o), |o.sections|, key);
    assert key in multiset(ObjectKeys(o)) && key !in multiset(keys);
  }

  lemma {:induction false} AllInRange(h: nat -> seq<RuntimeKey>, n: nat, sections: nat)
    ensures InRange(Concat(h, n), sections) <==> forall k: nat :: k < n ==> InRange(h(k), sections)
  {
    if n > 0 {
      AllInRange(h, n - 1, sections);
      InRangeMore(Concat(h, n - 1), h(n - 1), sections);
    }
  }

  ghost function Soundness(o: Object): nat -> bool { (k: nat) => SoundAt(o, k) }

  lemma {:induction false} AllFindings(o: Object)
    ensures forall k: nat :: k < |o.sections| ==>
      Findings(o, o.sections[k], Soundness(o)(k), SectionsKeys(o)(k), SectionsCalls(o)(k))
  {
    forall k: nat | k < |o.sections|
      ensures Findings(o, o.sections[k], Soundness(o)(k), SectionsKeys(o)(k), SectionsCalls(o)(k))
    {
      FindingsAre(o, o.sections[k], Soundness(o)(k), SectionsKeys(o)(k), SectionsCalls(o)(k));
    }
  }

  /** The audit accepts an object exactly when its relocations are well formed, the branches they patch
      are, as a multiset, the calls and tail calls of MachineWir, and the runtime calls of every section are
      between those required and those allowed. */
  method ValidateRelocations(o: Object, m: Machine, sections: nat) returns (ok: bool)
    ensures ok <==> RelocationsAgree(o, RequiredKeys(m)) && CallsAgree(o, m, sections)
  {
    var keys := CollectKeys(m);
    var must := CollectCalls(Requires(), m);
    var may := CollectCalls(Allows(), m);
    var allowedFits, allowed := CountCalls(may, sections);
    var requiredFits, required := CountCalls(must, sections);
    if !allowedFits || !requiredFits { return false; }
    ok := AuditObject(o, keys, must, may, required, allowed, sections);
  }

  method AuditObject(o: Object, keys: seq<Key>, ghost must: seq<RuntimeKey>, ghost may: seq<RuntimeKey>,
      required: array<nat>, allowed: array<nat>, sections: nat) returns (ok: bool)
    requires required.Length == allowed.Length == sections * INTRINSICS
    requires Tallied(required[..], must) && Tallied(allowed[..], may)
    ensures ok <==> RelocationsAgree(o, keys) && ObjectCallsAgree(o, must, may, sections)
  {
    var table := RequiredCells(keys);
    var cells := new Cell[|table|](k requires 0 <= k < |table| => table[k]);
    assert cells[..] == table;
    ObservedStart(table, keys);
    var counts := NewMatrix(sections);
    AllFindings(o);
    ghost var sound, g, h := Soundness(o), SectionsKeys(o), SectionsCalls(o);
    ok := WalkSections(o, cells, counts, sections, keys, sound, g, h);
    WalkDecides(o, keys, sections, ok, sound, g, h);
    if ok { ok := CheckCounts(sections, required, allowed, counts, must, may, Concat(h, |o.sections|)); }
    if ok { ok := CountsMatch(cells[..], keys, Concat(g, |o.sections|)); }
  }

  lemma {:induction false} WalkDecides(
      o: Object, keys: seq<Key>, sections: nat, ok: bool, sound: nat -> bool, g: nat -> seq<Key>,
      h: nat -> seq<RuntimeKey>)
    requires sound == Soundness(o) && g == SectionsKeys(o) && h == SectionsCalls(o)
    requires ok <==> forall k: nat :: k < |o.sections| ==> sound(k) && AllIn(g(k), keys) && InRange(h(k), sections)
    ensures ObjectKeys(o) == Concat(g, |o.sections|) && ObjectCalls(o) == Concat(h, |o.sections|)
    ensures ok ==> (RelocationsAgree(o, keys) <==> multiset(ObjectKeys(o)) == multiset(keys))
    ensures ok ==> InRange(ObjectCalls(o), sections)
    ensures !ok ==> !RelocationsAgree(o, keys) || !InRange(ObjectCalls(o), sections)
  {
    AllInRange(h, |o.sections|, sections);
    if ok {
      forall k | 0 <= k < |o.sections| ensures SoundAt(o, k) { assert sound(k); }
    } else {
      var n: nat :| n < |o.sections| && !(sound(n) && AllIn(g(n), keys) && InRange(h(n), sections));
      if !AllIn(g(n), keys) { Refused(o, keys, n); }
    }
  }

  // ---- what success says about the rendered code ----

  /** How often the texts of a section's functions branch to a callee. */
  function RenderedPer(functions: seq<Function>, texts: seq<seq<Line>>, section: nat, site: Site): nat -> nat
  {
    (k: nat) =>
      if k < |functions| && k < |texts| && functions[k].section == section then Rendered(texts[k], site) else 0
  }

  function RenderedIn(functions: seq<Function>, texts: seq<seq<Line>>, section: nat, site: Site): nat
  {
    Sum(RenderedPer(functions, texts, section, site), |functions|)
  }

  function SiteOfKey(key: Key): Site { Internal(key.callee, key.kind) }

  function VisitTo(visits: seq<Site>, site: Site): nat -> nat
  {
    (k: nat) => if k < |visits| && visits[k] == site then 1 else 0
  }

  lemma {:induction false} VisitKeysCount(section: nat, visits: seq<Site>, key: Key)
    ensures multiset(Concat(VisitKey(section, visits), |visits|))[key]
         == if key.section == section then multiset(visits)[SiteOfKey(key)] else 0
  {
    var g, h, same, n := VisitKey(section, visits), VisitTo(visits, SiteOfKey(key)), key.section == section, |visits|;
    forall k: nat | k < n ensures Only(h, same)(k) == multiset(g(k))[key] {
      OneKey(section, visits[k], key);
    }
    ConcatCounts(g, Only(h, same), n, key);
    SumOnly(h, same, n);
    CountsSum(visits, h, n, SiteOfKey(key));
    assert visits[..n] == visits;
  }

  lemma {:induction false} OneKey(section: nat, visit: Site, key: Key)
    ensures multiset(if visit.Internal? then [Key(section, visit.callee, visit.kind)] else [])[key]
         == if key.section == section && visit == SiteOfKey(key) then 1 else 0
  {
  }

  lemma {:induction false} OperationKeysCount(m: Machine, section: nat, operation: Operation, key: Key)
    ensures multiset(OperationKeys(m, section, operation))[key]
         == if key.section == section then Audited(m, operation, SiteOfKey(key)) else 0
  {
    VisitKeysCount(section, Visits(m, operation), key);
  }

  lemma {:induction false} BlockKeysCount(m: Machine, section: nat, b: Block, key: Key)
    ensures multiset(BlockKeys(m, section, b))[key]
         == if key.section == section then AuditedBlock(m, b, SiteOfKey(key)) else 0
  {
    var g, h := InstructionKeys(m, section, b.instructions), InstructionAudit(m, b.instructions, SiteOfKey(key));
    forall k: nat | k < |b.instructions| ensures Only(h, key.section == section)(k) == multiset(g(k))[key] {
      OperationKeysCount(m, section, b.instructions[k].operation, key);
    }
    ConcatCounts(g, Only(h, key.section == section), |b.instructions|, key);
    SumOnly(h, key.section == section, |b.instructions|);
  }

  lemma {:induction false} FunctionKeysCount(m: Machine, f: Function, key: Key)
    ensures multiset(FunctionKeys(m, f))[key]
         == if key.section == f.section then AuditedBlocks(m, f.blocks, SiteOfKey(key)) else 0
  {
    var g, h := BlocksKeys(m, f.section, f.blocks), BlockAudit(m, f.blocks, SiteOfKey(key));
    forall k: nat | k < |f.blocks| ensures Only(h, key.section == f.section)(k) == multiset(g(k))[key] {
      BlockKeysCount(m, f.section, f.blocks[k], key);
    }
    ConcatCounts(g, Only(h, key.section == f.section), |f.blocks|, key);
    SumOnly(h, key.section == f.section, |f.blocks|);
  }

  /** A text of a valid function whose dispatches are consistent. */
  ghost predicate IsTextOf(m: Machine, f: Function, text: seq<Line>)
  {
    && DenseIds(f) && f.entry < |f.blocks| && (forall b :: 0 <= b < |f.blocks| ==> BlockConsistent(m, f.blocks[b]))
    && exists incoming :: text == RenderFunction(m, f, incoming)
  }

  lemma {:induction false} TextSites(m: Machine, f: Function, text: seq<Line>, site: Site)
    requires IsTextOf(m, f, text)
    ensures Rendered(text, site) == AuditedBlocks(m, f.blocks, site)
  {
    var incoming :| text == RenderFunction(m, f, incoming);
    FunctionSitesAgree(m, f, incoming, site);
  }

  /** An accepted object patches each branch of a section exactly as often as the renderer wrote it. */
  lemma {:induction false} AcceptedMeansRendered(o: Object, m: Machine, texts: seq<seq<Line>>, key: Key)
    requires |m.functions| == |texts| && forall k :: 0 <= k < |texts| ==> IsTextOf(m, m.functions[k], texts[k])
    requires RelocationsAgree(o, RequiredKeys(m))
    ensures multiset(ObjectKeys(o))[key] == RenderedIn(m.functions, texts, key.section, SiteOfKey(key))
  {
    var g, h := FunctionsKeys(m), RenderedPer(m.functions, texts, key.section, SiteOfKey(key));
    forall k: nat | k < |texts| ensures h(k) == multiset(g(k))[key] {
      assert IsTextOf(m, m.functions[k], texts[k]);
      TextSites(m, m.functions[k], texts[k], SiteOfKey(key));
      FunctionKeysCount(m, m.functions[k], key);
    }
    ConcatCounts(g, h, |m.functions|, key);
  }

  /** An accepted object calls the runtime from a section at most as often as the renderer wrote it. */
  lemma {:induction false} AcceptedCallsRendered(
      o: Object, m: Machine, sections: nat, texts: seq<seq<Line>>, key: RuntimeKey)
    requires |m.functions| == |texts| && forall k :: 0 <= k < |texts| ==> IsTextOf(m, m.functions[k], texts[k])
    requires CallsAgree(o, m, sections)
    ensures multiset(MachineCalls(Requires(), m))[key] <= multiset(ObjectCalls(o))[key]
         <= RenderedIn(m.functions, texts, key.section, Runtime(key.intrinsic))
  {
    var g, h := FunctionsCalls(Allows(), m), RenderedPer(m.functions, texts, key.section, Runtime(key.intrinsic));
    forall k: nat | k < |texts| ensures h(k) == multiset(g(k))[key] {
      assert IsTextOf(m, m.functions[k], texts[k]);
      TextSites(m, m.functions[k], texts[k], Runtime(key.intrinsic));
      FunctionAllows(m, m.functions[k], key);
    }
    ConcatCounts(g, h, |m.functions|, key);
    if key.section < sections {
      assert KeyAccepted(key, MachineCalls(Requires(), m), MachineCalls(Allows(), m), ObjectCalls(o));
    } else {
      OutOfRange(ObjectCalls(o), sections, key);
      OutOfRange(MachineCalls(Requires(), m), sections, key);
    }
  }

  lemma {:induction false} OutOfRange(calls: seq<RuntimeKey>, sections: nat, key: RuntimeKey)
    requires InRange(calls, sections) && key.section >= sections
    ensures multiset(calls)[key] == 0
  {
    assert key !in calls;
  }
}
