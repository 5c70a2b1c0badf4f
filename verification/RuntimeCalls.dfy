/** Runtime calls per section and intrinsic: how many MachineWir requires and allows, and the matrix of
    counters in which the auditor compares them with the object. */
module RuntimeCalls {
  import opened Lists
  import opened MachineWir
  import opened CallSites

  /** A runtime call, as the auditor counts it. */
  datatype RuntimeKey = RuntimeKey(section: nat, intrinsic: Intrinsic)

  // ---- what MachineWir requires and allows ----

  function Repeat(key: RuntimeKey, times: nat): (r: seq<RuntimeKey>)
    ensures |r| == times && forall k :: 0 <= k < times ==> r[k] == key
  {
    seq(times, _ => key)
  }

  type Emitter = (nat, Operation) -> seq<RuntimeKey>

  /** The calls an operation of a section may make, as often as it may. */
  function Allows(): Emitter
  {
    (section: nat, operation: Operation) =>
      match RuntimeEmission(operation)
      case None => []
      case Some(e) => Repeat(RuntimeKey(section, e.intrinsic), e.allowed)
  }

  /** The calls it must make. */
  function Requires(): Emitter
  {
    (section: nat, operation: Operation) =>
      match RuntimeEmission(operation)
      case None => []
      case Some(e) => if e.directlyRequired then [RuntimeKey(section, e.intrinsic)] else []
  }

  function InstructionCalls(emit: Emitter, section: nat, instructions: seq<Instruction>): nat -> seq<RuntimeKey>
  {
    (k: nat) => if k < |instructions| then emit(section, instructions[k].operation) else []
  }

  function BlockCalls(emit: Emitter, section: nat, b: Block): seq<RuntimeKey>
  {
    Concat(InstructionCalls(emit, section, b.instructions), |b.instructions|)
  }

  function BlocksCalls(emit: Emitter, section: nat, blocks: seq<Block>): nat -> seq<RuntimeKey>
  {
    (k: nat) => if k < |blocks| then BlockCalls(emit, section, blocks[k]) else []
  }

  function FunctionCalls(emit: Emitter, f: Function): seq<RuntimeKey>
  {
    Concat(BlocksCalls(emit, f.section, f.blocks), |f.blocks|)
  }

  function FunctionsCalls(emit: Emitter, m: Machine): nat -> seq<RuntimeKey>
  {
    (k: nat) => if k < |m.functions| then FunctionCalls(emit, m.functions[k]) else []
  }

  function MachineCalls(emit: Emitter, m: Machine): seq<RuntimeKey> { Concat(FunctionsCalls(emit, m), |m.functions|) }

  method CollectBlock(emit: Emitter, section: nat, b: Block) returns (calls: seq<RuntimeKey>)
    ensures calls == BlockCalls(emit, section, b)
  {
    calls := [];
    for k := 0 to |b.instructions|
      invariant calls == Concat(InstructionCalls(emit, section, b.instructions), k)
    {
      calls := calls + emit(section, b.instructions[k].operation);
    }
  }

  method CollectFunction(emit: Emitter, f: Function) returns (calls: seq<RuntimeKey>)
    ensures calls == FunctionCalls(emit, f)
  {
    calls := [];
    for k := 0 to |f.blocks|
      invariant calls == Concat(BlocksCalls(emit, f.section, f.blocks), k)
    {
      var here := CollectBlock(emit, f.section, f.blocks[k]);
      calls := calls + here;
    }
  }

  /** The runtime calls of all functions. */
  method CollectCalls(emit: Emitter, m: Machine) returns (calls: seq<RuntimeKey>)
    ensures calls == MachineCalls(emit, m)
  {
    calls := [];
    for k := 0 to |m.functions|
      invariant calls == Concat(FunctionsCalls(emit, m), k)
    {
      var here := CollectFunction(emit, m.functions[k]);
      calls := calls + here;
    }
  }

  // ---- the matrix ----

  const INTRINSICS: nat := 12

  /** The position of an intrinsic in the canonical order. */
  function Index(x: Intrinsic): (n: nat)
    ensures n < INTRINSICS && IntrinsicAt(n) == x
  {
    match x
    case ImageEnter => 0 case ImageExit => 1 case FatalIntrinsic => 2 case CpuIdle => 3
    case InterruptMask => 4 case InterruptRestore => 5 case CacheMaintain => 6 case RecordEvent => 7
    case ReplayEvent => 8 case TestEmit => 9 case TestFinish => 10 case TestAssertionFail => 11
  }

  function IntrinsicAt(n: nat): Intrinsic
  {
    match n
    case 0 => ImageEnter case 1 => ImageExit case 2 => FatalIntrinsic case 3 => CpuIdle
    case 4 => InterruptMask case 5 => InterruptRestore case 6 => CacheMaintain case 7 => RecordEvent
    case 8 => ReplayEvent case 9 => TestEmit case 10 => TestFinish case _ => TestAssertionFail
  }

  function CellOf(key: RuntimeKey): nat { key.section * INTRINSICS + Index(key.intrinsic) }
  function KeyAt(cell: nat): RuntimeKey { RuntimeKey(cell / INTRINSICS, IntrinsicAt(cell % INTRINSICS)) }

  lemma {:induction false} CellKey(key: RuntimeKey, sections: nat)
    ensures KeyAt(CellOf(key)) == key
    ensures CellOf(key) < sections * INTRINSICS <==> key.section < sections
  {
    assert IntrinsicAt(Index(key.intrinsic)) == key.intrinsic;
  }

  lemma {:induction false} KeyCell(cell: nat)
    ensures CellOf(KeyAt(cell)) == cell
  {
    IndexAt(cell % INTRINSICS);
  }

  lemma {:induction false} IndexAt(n: nat)
    requires n < INTRINSICS
    ensures Index(IntrinsicAt(n)) == n
  {
  }

  // ---- counters ----

  ghost predicate InRange(calls: seq<RuntimeKey>, sections: nat)
  {
    forall k :: 0 <= k < |calls| ==> calls[k].section < sections
  }

  predicate Opened(k: int, counts: seq<nat>, calls: seq<RuntimeKey>) { true }
  predicate Closed(k: int, counts: seq<nat>, calls: seq<RuntimeKey>) { true }

  ghost predicate Tally(counts: seq<nat>, calls: seq<RuntimeKey>)
  {
    forall cell :: 0 <= cell < |counts| ==> counts[cell] == multiset(calls)[KeyAt(cell)]
  }

  /** The counters count the calls. The guards keep the definition folded where it is known and where it
      is to be shown. */
  ghost predicate Tallied(counts: seq<nat>, calls: seq<RuntimeKey>)
  {
    forall j {:trigger Opened(j, counts, calls)} :: Opened(j, counts, calls) ==>
      exists k {:trigger Closed(k, counts, calls)} :: Closed(k, counts, calls) && Tally(counts, calls)
  }

  lemma {:induction false} TalliedIs(counts: seq<nat>, calls: seq<RuntimeKey>)
    ensures Tallied(counts, calls) <==> Tally(counts, calls)
  {
    assert Opened(0, counts, calls) && Closed(0, counts, calls);
  }

  lemma {:induction false} TalliedMore(counts: seq<nat>, calls: seq<RuntimeKey>, key: RuntimeKey)
    requires Tallied(counts, calls) && CellOf(key) < |counts|
    ensures Tallied(counts[CellOf(key) := counts[CellOf(key)] + 1], calls + [key])
  {
    var more := counts[CellOf(key) := counts[CellOf(key)] + 1];
    TalliedIs(counts, calls);
    CellKey(key, 0);
    forall cell | 0 <= cell < |counts| ensures more[cell] == multiset(calls + [key])[KeyAt(cell)] { KeyCell(cell); }
    TalliedIs(more, calls + [key]);
  }

  method NewMatrix(sections: nat) returns (counts: array<nat>)
    ensures fresh(counts) && counts.Length == sections * INTRINSICS && Tallied(counts[..], [])
  {
    counts := new nat[sections * INTRINSICS](_ => 0);
    TalliedIs(counts[..], []);
  }

  /** Count a call, if the matrix has its cell. */
  method AddCall(counts: array<nat>, key: RuntimeKey, sections: nat, ghost calls: seq<RuntimeKey>) returns (ok: bool)
    requires counts.Length == sections * INTRINSICS && Tallied(counts[..], calls)
    modifies counts
    ensures ok <==> key.section < sections
    ensures ok ==> Tallied(counts[..], calls + [key])
    ensures !ok ==> counts[..] == old(counts[..])
  {
    var cell := CellOf(key);
    CellKey(key, sections);
    if cell >= counts.Length { return false; }
    ghost var before := counts[..];
    counts[cell] := counts[cell] + 1;
    TalliedMore(before, calls, key);
    assert counts[..] == before[cell := before[cell] + 1];
    return true;
  }

  method CountCalls(calls: seq<RuntimeKey>, sections: nat) returns (ok: bool, counts: array<nat>)
    ensures fresh(counts) && counts.Length == sections * INTRINSICS
    ensures ok <==> InRange(calls, sections)
    ensures ok ==> Tallied(counts[..], calls)
  {
    counts := NewMatrix(sections);
    for k := 0 to |calls|
      invariant InRange(calls[..k], sections) && Tallied(counts[..], calls[..k])
    {
      ok := AddCall(counts, calls[k], sections, calls[..k]);
      if !ok { return; }
      assert calls[..k + 1] == calls[..k] + [calls[k]];
    }
    assert calls[..|calls|] == calls;
    ok := true;
  }

  // ---- comparing ----

  /** At least as many calls as required and at most as many as allowed; an image that may enter enters
      exactly once. */
  predicate CountAccepted(x: Intrinsic, required: nat, allowed: nat, observed: nat)
  {
    required <= observed <= allowed
    && (x == ImageEnter && allowed != 0 ==> required == 1 && allowed == 1 && observed == 1)
  }

  method CheckCount(x: Intrinsic, required: nat, allowed: nat, observed: nat) returns (ok: bool)
    ensures ok <==> CountAccepted(x, required, allowed, observed)
  {
    if observed != 0 && allowed == 0 { return false; }
    if observed < required { return false; }
    if observed > allowed { return false; }
    if x == ImageEnter && allowed != 0 && (required != 1 || allowed != 1 || observed != 1) { return false; }
    return true;
  }

  /** Every section and intrinsic has an accepted number of calls. */
  ghost predicate CallsAccepted(sections: nat, must: seq<RuntimeKey>, may: seq<RuntimeKey>, calls: seq<RuntimeKey>)
  {
    forall key: RuntimeKey :: key.section < sections ==> KeyAccepted(key, must, may, calls)
  }

  ghost predicate KeyAccepted(key: RuntimeKey, must: seq<RuntimeKey>, may: seq<RuntimeKey>, calls: seq<RuntimeKey>)
  {
    CountAccepted(key.intrinsic, multiset(must)[key], multiset(may)[key], multiset(calls)[key])
  }

  method CheckCounts(sections: nat, required: array<nat>, allowed: array<nat>, observed: array<nat>,
      ghost must: seq<RuntimeKey>, ghost may: seq<RuntimeKey>, ghost calls: seq<RuntimeKey>) returns (ok: bool)
    requires required.Length == allowed.Length == observed.Length == sections * INTRINSICS
    requires Tallied(required[..], must) && Tallied(allowed[..], may) && Tallied(observed[..], calls)
    ensures ok <==> CallsAccepted(sections, must, may, calls)
  {
    TalliedIs(required[..], must);
    TalliedIs(allowed[..], may);
    TalliedIs(observed[..], calls);
    for cell := 0 to sections * INTRINSICS
      invariant forall j :: 0 <= j < cell ==> KeyAccepted(KeyAt(j), must, may, calls)
    {
      assert required[..][cell] == required[cell] && allowed[..][cell] == allowed[cell]
             && observed[..][cell] == observed[cell];
      ok := CheckCount(IntrinsicAt(cell % INTRINSICS), required[cell], allowed[cell], observed[cell]);
      if !ok {
        KeyCell(cell);
        CellKey(KeyAt(cell), sections);
        assert !KeyAccepted(KeyAt(cell), must, may, calls);
        return;
      }
    }
    forall key: RuntimeKey | key.section < sections ensures KeyAccepted(key, must, may, calls) {
      CellKey(key, sections);
      assert KeyAccepted(KeyAt(CellOf(key)), must, may, calls);
    }
    ok := true;
  }

  // ---- the calls of MachineWir are those rendered ----

  lemma {:induction false} RepeatCounts(key: RuntimeKey, times: nat, other: RuntimeKey)
    ensures multiset(Repeat(key, times))[other] == if key == other then times else 0
  {
    if times > 0 {
      RepeatCounts(key, times - 1, other);
      assert Repeat(key, times) == Repeat(key, times - 1) + [key];
    }
  }

  lemma {:induction false} VisitsAreInternal(m: Machine, operation: Operation, x: Intrinsic)
    ensures multiset(Visits(m, operation))[Runtime(x)] == 0
  {
    assert Runtime(x) !in Visits(m, operation);
  }

  lemma {:induction false} OperationAllows(m: Machine, section: nat, operation: Operation, key: RuntimeKey)
    ensures multiset(Allows()(section, operation))[key]
         == if section == key.section then Audited(m, operation, Runtime(key.intrinsic)) else 0
  {
    VisitsAreInternal(m, operation, key.intrinsic);
    match RuntimeEmission(operation)
    case None =>
    case Some(e) => RepeatCounts(RuntimeKey(section, e.intrinsic), e.allowed, key);
  }

  /** A family that counts zero outside its section. */
  function Only(h: nat -> nat, same: bool): nat -> nat { (k: nat) => if same then h(k) else 0 }

  lemma {:induction false} SumOnly(h: nat -> nat, same: bool, n: nat)
    ensures Sum(Only(h, same), n) == if same then Sum(h, n) else 0
  {
    if n > 0 { SumOnly(h, same, n - 1); }
  }

  /** In a section, the emitter's calls are those audited. */
  ghost predicate EmitsAudited(m: Machine, emit: Emitter, section: nat, key: RuntimeKey)
  {
    forall operation :: multiset(emit(section, operation))[key]
      == if section == key.section then Audited(m, operation, Runtime(key.intrinsic)) else 0
  }

  lemma {:induction false} BlockAllows(m: Machine, emit: Emitter, section: nat, b: Block, key: RuntimeKey)
    requires EmitsAudited(m, emit, section, key)
    ensures multiset(BlockCalls(emit, section, b))[key]
         == if section == key.section then AuditedBlock(m, b, Runtime(key.intrinsic)) else 0
  {
    var g, h := InstructionCalls(emit, section, b.instructions),
      InstructionAudit(m, b.instructions, Runtime(key.intrinsic));
    var same := section == key.section;
    forall k: nat | k < |b.instructions| ensures Only(h, same)(k) == multiset(g(k))[key] {
      assert g(k) == emit(section, b.instructions[k].operation);
    }
    ConcatCounts(g, Only(h, same), |b.instructions|, key);
    SumOnly(h, same, |b.instructions|);
  }

  lemma {:induction false} BlocksAllow(m: Machine, emit: Emitter, section: nat, blocks: seq<Block>, key: RuntimeKey)
    requires EmitsAudited(m, emit, section, key)
    ensures multiset(Concat(BlocksCalls(emit, section, blocks), |blocks|))[key]
         == if section == key.section then AuditedBlocks(m, blocks, Runtime(key.intrinsic)) else 0
  {
    var g, h := BlocksCalls(emit, section, blocks), BlockAudit(m, blocks, Runtime(key.intrinsic));
    var same := section == key.section;
    forall k: nat | k < |blocks| ensures Only(h, same)(k) == multiset(g(k))[key] {
      BlockAllows(m, emit, section, blocks[k], key);
    }
    ConcatCounts(g, Only(h, same), |blocks|, key);
    SumOnly(h, same, |blocks|);
  }

  /** A function is allowed the calls audited for its blocks. */
  lemma {:induction false} FunctionAllows(m: Machine, f: Function, key: RuntimeKey)
    ensures multiset(FunctionCalls(Allows(), f))[key]
         == if f.section == key.section then AuditedBlocks(m, f.blocks, Runtime(key.intrinsic)) else 0
  {
    AllowsAudited(m, f.section, key);
    BlocksAllow(m, Allows(), f.section, f.blocks, key);
  }

  lemma {:induction false} AllowsAudited(m: Machine, section: nat, key: RuntimeKey)
    ensures EmitsAudited(m, Allows(), section, key)
  {
    forall operation ensures multiset(Allows()(section, operation))[key]
      == if section == key.section then Audited(m, operation, Runtime(key.intrinsic)) else 0
    {
      OperationAllows(m, section, operation, key);
    }
  }
}
