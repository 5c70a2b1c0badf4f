/** The part of MachineWir that decides control flow, calls and the actor protocol, and what it
    means to run it. Straight-line computation is a parameter of the meaning: the renderer keeps it
    inside one LLVM block, where numeric lowering takes over. */
module MachineWir {
  import opened Wrappers
  import opened Lists

  datatype Intrinsic =
    | ImageEnter | ImageExit | FatalIntrinsic | CpuIdle | InterruptMask | InterruptRestore | CacheMaintain
    | RecordEvent | ReplayEvent | TestEmit | TestFinish | TestAssertionFail

  datatype Operation =
    | Straight                                  // every operation rendered without a branch or a call
    | CheckedInteger
    | CheckedConvert
    | ActorReserve(result: nat, mailbox: nat)
    | ActorCommit(reservation: nat, turn: nat)
    | ActorReplyRequest(result: nat, slot: nat, mailbox: nat, turn: nat)
    | ActorReplyResolve
    | MailboxReceive(mailbox: nat, turn: nat)
    | MailboxDispatch(actor: nat, mailbox: nat, turn: nat)
    | Call(callee: nat)
    | RuntimeCall(intrinsic: Intrinsic)
    | TestAssert

  datatype Instruction = Instruction(id: nat, operation: Operation)

  datatype Case = Case(value: nat, target: nat, arguments: seq<nat>)

  datatype Terminator =
    | Jump(target: nat, arguments: seq<nat>)
    | Branch(condition: nat, thenBlock: nat, thenArguments: seq<nat>, elseBlock: nat, elseArguments: seq<nat>)
    | Switch(value: nat, cases: seq<Case>, default: nat, defaultArguments: seq<nat>)
    | Return(values: seq<nat>)
    | TailCall(callee: nat, arguments: seq<nat>)
    | Unreachable

  datatype Block = Block(id: nat, parameters: seq<nat>, instructions: seq<Instruction>, terminator: Terminator)
  datatype Function = Function(section: nat, entry: nat, blocks: seq<Block>)

  /** An activation runs `caller` as a turn; `actor` is its owner when an actor owns it, with a mailbox
      of the given capacity. */
  datatype Activation = Activation(schedulerFifo: bool, actor: Option<nat>, capacity: nat, caller: nat)
  /** Storage of a region; `actor` is set for an actor's mailbox. */
  datatype Region = Region(global: nat, actor: Option<nat>)
  datatype Machine = Machine(functions: seq<Function>, activations: seq<Activation>, regions: seq<Region>)

  // ---- control-flow edges ----

  datatype Edge = Edge(target: nat, arguments: seq<nat>)

  function CaseEdges(cases: seq<Case>): (r: seq<Edge>)
    ensures |r| == |cases|
    ensures forall k :: 0 <= k < |r| ==> r[k] == Edge(cases[k].target, cases[k].arguments)
  {
    if |cases| == 0 then [] else [Edge(cases[0].target, cases[0].arguments)] + CaseEdges(cases[1..])
  }

  function Successors(t: Terminator): seq<Edge>
  {
    match t
    case Jump(target, arguments) => [Edge(target, arguments)]
    case Branch(_, a, x, b, y) => [Edge(a, x), Edge(b, y)]
    case Switch(_, cases, default, arguments) => CaseEdges(cases) + [Edge(default, arguments)]
    case _ => []
  }

  /** What validation establishes: dense block ids, instruction ids unique in the function, edges
      that match their target's parameters, and parallel edges that pass the same arguments. */
  ghost predicate WellFormed(f: Function)
  {
    && f.entry < |f.blocks| && f.blocks[f.entry].parameters == []
    && DenseIds(f) && UniqueIds(f)
    && (forall b :: 0 <= b < |f.blocks| ==> EdgesMatch(f, f.blocks[b].terminator))
  }

  ghost predicate DenseIds(f: Function) { forall b :: 0 <= b < |f.blocks| ==> f.blocks[b].id == b }

  ghost predicate UniqueIds(f: Function)
  {
    forall b, c, j, k | 0 <= b < |f.blocks| && 0 <= c < |f.blocks|
      && 0 <= j < |f.blocks[b].instructions| && 0 <= k < |f.blocks[c].instructions| ::
      f.blocks[b].instructions[j].id == f.blocks[c].instructions[k].id ==> b == c && j == k
  }

  ghost predicate EdgesMatch(f: Function, t: Terminator)
  {
    && (forall k :: 0 <= k < |Successors(t)| ==>
          && Successors(t)[k].target < |f.blocks|
          && |Successors(t)[k].arguments| == |f.blocks[Successors(t)[k].target].parameters|)
    && (forall j, k | 0 <= j < |Successors(t)| && 0 <= k < |Successors(t)| ::
          Successors(t)[j].target == Successors(t)[k].target ==> Successors(t)[j] == Successors(t)[k])
  }

  // ---- running a function ----

  datatype State<M> = State(values: map<nat, nat>, memory: M)

  datatype Temp =
    | Failed(instruction: nat) | Assertion(instruction: nat) | Pending(instruction: nat)
    | ClaimFailed(instruction: nat) | WriteFailed(instruction: nat) | ConsumeFailed(instruction: nat)

  /** The meaning of everything that is not control flow: the straight-line parts of an instruction,
      the flags they compute, the mailbox tag a dispatch loads, and the calls, which may not return. */
  datatype World<!M> = World(
    act: (nat, nat, State<M>) -> State<M>,
    test: (Temp, State<M>) -> bool,
    tag: (nat, State<M>) -> nat,
    call: (nat, nat, State<M>) -> Option<State<M>>,
    runtime: (nat, Intrinsic, State<M>) -> Option<State<M>>)

  datatype Outcome<M> =
    | Returned(value: Option<nat>, s: State<M>)
    | TailCalled(callee: nat, arguments: seq<nat>, s: State<M>)
    | LeftBy(intrinsic: Intrinsic, s: State<M>)       // a runtime call that does not return
    | LeftIn(callee: nat, s: State<M>)              // a call that does not return
    | Undefined
    | Stuck

  datatype Effect<M> = Next(s: State<M>) | Stop(outcome: Outcome<M>) | Unfinished

  function Read<M>(s: State<M>, v: nat): nat { if v in s.values then s.values[v] else 0 }

  function ReadAll<M>(s: State<M>, vs: seq<nat>): (r: seq<nat>)
    ensures |r| == |vs| && forall k :: 0 <= k < |r| ==> r[k] == Read(s, vs[k])
  {
    if |vs| == 0 then [] else [Read(s, vs[0])] + ReadAll(s, vs[1..])
  }

  /** Block parameters are assigned simultaneously. */
  function Assign(values: map<nat, nat>, targets: seq<nat>, news: seq<nat>): map<nat, nat>
    requires |targets| == |news|
    decreases |targets|
  {
    if |targets| == 0 then values else Assign(values[targets[0] := news[0]], targets[1..], news[1..])
  }

  function Trap<M>(w: World<M>, id: nat, x: Intrinsic, s: State<M>): Outcome<M>
  {
    match w.runtime(id, x, s) case None => LeftBy(x, s) case Some(_) => Undefined
  }

  /** Compute, trap if the failure flag is set, then finish. */
  function ExecGuarded<M>(w: World<M>, id: nat, s: State<M>): Effect<M>
  {
    var s1 := w.act(id, 0, s);
    if w.test(Failed(id), s1) then Stop(Trap(w, id, FatalIntrinsic, s1)) else Next(w.act(id, 1, s1))
  }

  function ExecCall<M>(w: World<M>, id: nat, callee: nat, s: State<M>): Effect<M>
  {
    match w.call(id, callee, s) case None => Stop(LeftIn(callee, s)) case Some(back) => Next(back)
  }

  function ExecAssert<M>(w: World<M>, id: nat, s: State<M>): Effect<M>
  {
    var s1 := w.act(id, 0, s);
    if w.test(Assertion(id), s1) then Next(s1) else Stop(Trap(w, id, TestAssertionFail, s1))
  }

  function ExecReply<M>(w: World<M>, id: nat, turn: nat, s: State<M>): Effect<M>
  {
    var claimed := w.act(id, 0, s);
    if w.test(ClaimFailed(id), claimed) then Stop(Trap(w, id, FatalIntrinsic, claimed))
    else
      var sent := w.act(id, 1, claimed);
      match w.call(id, turn, sent)
      case None => Stop(LeftIn(turn, sent))
      case Some(back) =>
        var writing := w.act(id, 2, back);
        if w.test(WriteFailed(id), writing) then Stop(Trap(w, id, FatalIntrinsic, writing))
        else
          var written := w.act(id, 3, writing);
          if w.test(ConsumeFailed(id), written) then Stop(Trap(w, id, FatalIntrinsic, written))
          else Next(w.act(id, 4, written))
  }

  /** The turn a pending tag selects: its method's, or the first one for a tag of no turn. */
  function Selected(methods: seq<nat>, tag: nat): nat
    requires |methods| > 0
  {
    if tag > 0 && tag - 1 in methods then tag - 1 else methods[0]
  }

  /** Run turns until the mailbox is empty; `rounds` bounds how many, and is arbitrary. */
  function ExecDispatch<M>(w: World<M>, id: nat, methods: seq<nat>, s: State<M>, rounds: nat): Effect<M>
    requires |methods| > 0
    decreases rounds
  {
    if rounds == 0 then Unfinished
    else
      var s1 := w.act(id, 0, s);
      if !w.test(Pending(id), s1) then Next(s1)
      else
        var turn := Selected(methods, w.tag(id, s1));
        match w.call(id, turn, s1)
        case None => Stop(LeftIn(turn, s1))
        case Some(back) => ExecDispatch(w, id, methods, back, rounds - 1)
  }

  /** The FIFO turns of an actor, in the order of its activations. */
  function FifoTurns(activations: seq<Activation>, actor: Option<nat>): seq<nat>
  {
    Concat(FifoTurn(activations, actor), |activations|)
  }

  function FifoTurn(activations: seq<Activation>, actor: Option<nat>): nat -> seq<nat>
  {
    (k: nat) =>
      if k < |activations| && activations[k].schedulerFifo
         && activations[k].actor.Some? && activations[k].actor == actor
      then [activations[k].caller] else []
  }

  function MailboxActor(regions: seq<Region>, mailbox: nat): Option<nat>
  {
    if |regions| == 0 then None
    else if regions[0].global == mailbox && regions[0].actor.Some? then regions[0].actor
    else MailboxActor(regions[1..], mailbox)
  }

  /** The turns a dispatch may run: the FIFO turns of the actor that owns the mailbox, or the
      dispatch's own turn if there is none. */
  function Turns(m: Machine, mailbox: nat, turn: nat): (turns: seq<nat>)
    ensures |turns| > 0
  {
    var fifo := FifoTurns(m.activations, MailboxActor(m.regions, mailbox));
    if |fifo| == 0 then [turn] else fifo
  }

  function Insert(x: nat, s: seq<nat>): seq<nat>
  {
    if |s| == 0 || x < s[0] then [x] + s
    else if x == s[0] then s
    else [s[0]] + Insert(x, s[1..])
  }

  /** Turns sorted by function id, without repetition. */
  function SortedDistinct(turns: seq<nat>): seq<nat>
  {
    if |turns| == 0 then [] else Insert(turns[0], SortedDistinct(turns[1..]))
  }

  lemma {:induction false} InsertMembers(x: nat, s: seq<nat>, y: nat)
    ensures y in Insert(x, s) <==> y == x || y in s
  {
    if |s| > 0 && x > s[0] {
      InsertMembers(x, s[1..], y);
      assert s == [s[0]] + s[1..];
    }
  }

  lemma {:induction false} InsertIncreasing(x: nat, s: seq<nat>)
    requires Increasing(s)
    ensures Increasing(Insert(x, s)) && |Insert(x, s)| > 0
    ensures Insert(x, s)[0] == if |s| == 0 || x < s[0] then x else s[0]
  {
    if |s| > 0 && x > s[0] {
      InsertIncreasing(x, s[1..]);
      ConsIncreasing(s[0], Insert(x, s[1..]));
    } else if |s| == 0 || x < s[0] {
      ConsIncreasing(x, s);
    }
  }

  lemma {:induction false} ConsIncreasing(x: nat, s: seq<nat>)
    requires Increasing(s) && (|s| > 0 ==> x < s[0])
    ensures Increasing([x] + s)
  {
    forall k | 0 <= k < |s| ensures x < s[k] { if k > 0 { assert s[0] < s[k]; } }
  }

  lemma {:induction false} SortedDistinctMembers(turns: seq<nat>, y: nat)
    ensures y in SortedDistinct(turns) <==> y in turns
  {
    if |turns| > 0 {
      SortedDistinctMembers(turns[1..], y);
      InsertMembers(turns[0], SortedDistinct(turns[1..]), y);
      assert turns == [turns[0]] + turns[1..];
    }
  }

  lemma {:induction false} SortedDistinctIncreasing(turns: seq<nat>)
    ensures Increasing(SortedDistinct(turns))
  {
    if |turns| > 0 {
      SortedDistinctIncreasing(turns[1..]);
      InsertIncreasing(turns[0], SortedDistinct(turns[1..]));
    }
  }

  lemma {:induction false} SortedDistinctCorrect(turns: seq<nat>)
    ensures Increasing(SortedDistinct(turns))
    ensures forall y: nat :: y in SortedDistinct(turns) <==> y in turns
  {
    SortedDistinctIncreasing(turns);
    forall y: nat ensures y in SortedDistinct(turns) <==> y in turns { SortedDistinctMembers(turns, y); }
  }

  /** The method table of a dispatch. */
  function Methods(m: Machine, mailbox: nat, turn: nat): (methods: seq<nat>)
    ensures |methods| > 0 && Increasing(methods)
  {
    var turns := Turns(m, mailbox, turn);
    SortedDistinctCorrect(turns);
    assert turns[0] in SortedDistinct(turns);
    SortedDistinct(turns)
  }

  function Exec<M>(w: World<M>, m: Machine, i: Instruction, s: State<M>, rounds: nat): Effect<M>
  {
    match i.operation
    case Straight | ActorCommit(_, _) => Next(w.act(i.id, 0, s))
    case ActorReplyResolve => Next(s)
    case CheckedInteger | CheckedConvert | ActorReserve(_, _) | MailboxReceive(_, _) => ExecGuarded(w, i.id, s)
    case ActorReplyRequest(_, _, _, turn) => ExecReply(w, i.id, turn, s)
    case MailboxDispatch(_, mailbox, turn) => ExecDispatch(w, i.id, Methods(m, mailbox, turn), s, rounds)
    case Call(f) => ExecCall(w, i.id, f, s)
    case RuntimeCall(x) => (match w.runtime(i.id, x, s) case None => Stop(LeftBy(x, s)) case Some(back) => Next(back))
    case TestAssert => ExecAssert(w, i.id, s)
  }

  /** The first n of a family of effects, one after the other, until one does not continue. */
  function InTurn<M>(step: (nat, State<M>) -> Effect<M>, n: nat, s: State<M>): Effect<M>
    decreases n
  {
    if n == 0 then Next(s)
    else match InTurn(step, n - 1, s) case Next(s1) => step(n - 1, s1) case e => e
  }

  function Effects<M>(
      w: World<M>, m: Machine, instructions: seq<Instruction>, rounds: nat): (nat, State<M>) -> Effect<M>
  {
    (k: nat, s: State<M>) => if k < |instructions| then Exec(w, m, instructions[k], s, rounds) else Next(s)
  }

  function ExecAll<M>(w: World<M>, m: Machine, instructions: seq<Instruction>, s: State<M>, rounds: nat): Effect<M>
  {
    InTurn(Effects(w, m, instructions, rounds), |instructions|, s)
  }

  function CaseFor(cases: seq<Case>, default: Edge, value: nat): Edge
  {
    if |cases| == 0 then default
    else if cases[0].value == value then Edge(cases[0].target, cases[0].arguments)
    else CaseFor(cases[1..], default, value)
  }

  datatype Run<M> = AtBlock(block: nat, s: State<M>) | Finished(outcome: Outcome<M>) | OutOfRounds

  function Follow<M>(f: Function, e: Edge, s: State<M>): Run<M>
  {
    if e.target < |f.blocks| && |e.arguments| == |f.blocks[e.target].parameters|
    then AtBlock(e.target, s.(values := Assign(s.values, f.blocks[e.target].parameters, ReadAll(s, e.arguments))))
    else Finished(Stuck)
  }

  function Leave<M>(f: Function, t: Terminator, s: State<M>): Run<M>
  {
    match t
    case Jump(target, arguments) => Follow(f, Edge(target, arguments), s)
    case Branch(c, a, x, b, y) => Follow(f, if Read(s, c) != 0 then Edge(a, x) else Edge(b, y), s)
    case Switch(v, cases, default, arguments) => Follow(f, CaseFor(cases, Edge(default, arguments), Read(s, v)), s)
    case Return(values) => Finished(Returned(if |values| > 0 then Some(Read(s, values[0])) else None, s))
    case TailCall(callee, arguments) => Finished(TailCalled(callee, ReadAll(s, arguments), s))
    case Unreachable => Finished(Undefined)
  }

  /** What comes of a block: its instructions' effect, then its terminator. */
  function AfterEffect<M>(f: Function, t: Terminator, e: Effect<M>): Run<M>
  {
    match e
    case Unfinished => OutOfRounds
    case Stop(o) => Finished(o)
    case Next(s) => Leave(f, t, s)
  }

  function BlockStep<M>(w: World<M>, m: Machine, f: Function, rounds: nat): (nat, State<M>) -> Run<M>
  {
    (b: nat, s: State<M>) =>
      if b < |f.blocks| then AfterEffect(f, f.blocks[b].terminator, ExecAll(w, m, f.blocks[b].instructions, s, rounds))
      else Finished(Stuck)
  }

  function RunFrom<M>(step: (nat, State<M>) -> Run<M>, b: nat, s: State<M>, n: nat): Run<M>
    decreases n
  {
    if n == 0 then AtBlock(b, s)
    else
      match step(b, s)
      case AtBlock(c, s1) => RunFrom(step, c, s1, n - 1)
      case r => r
  }

  /** n blocks of a run of a function. */
  function RunBlocks<M>(w: World<M>, m: Machine, f: Function, s: State<M>, rounds: nat, n: nat): Run<M>
  {
    RunFrom(BlockStep(w, m, f, rounds), f.entry, s, n)
  }
}
