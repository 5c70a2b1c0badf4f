/** Rendering of MachineWir functions as LLVM lines. */
module Renderer {
  import opened Wrappers
  import opened Lists
  import opened MachineWir
  import Sorting

  datatype Part = Ok | Fail | AssertFail | ClaimFail | ClaimOk | WriteFail | WriteOk | ConsumeFail | ConsumeOk
    | Scan | Dispatch | SelectTurn | CallTurn(turn: nat)

  datatype BlockName = B(block: nat) | I(instruction: nat, part: Part)

  datatype Entry = Entry(value: nat, origin: BlockName)
  datatype Phi = Phi(result: nat, entries: seq<Entry>)
  datatype SwitchCase = SwitchCase(value: nat, target: BlockName)

  datatype Line =
    | Label(l: BlockName, phis: seq<Phi>)             // a label with the phis printed under it
    | Code(instruction: nat, part: nat)           // straight-line instructions
    | CallFunction(instruction: nat, callee: nat)
    | CallIntrinsic(instruction: nat, intrinsic: Intrinsic)
    | TailCallFunction(callee: nat, arguments: seq<nat>)
    | Br(l: BlockName)
    | BrIf(test: Temp, yes: BlockName, no: BlockName)
    | BrValue(value: nat, yes: BlockName, no: BlockName)
    | SwitchTag(instruction: nat, cases: seq<SwitchCase>, default: BlockName)
    | SwitchValue(value: nat, cases: seq<SwitchCase>, default: BlockName)
    | Ret(values: seq<nat>)
    | UnreachableLine

  // ---- instructions ----

  function Bare(l: BlockName): Line { Label(l, []) }

  /** Branch on a failure flag to a block that calls the fatal intrinsic. */
  function RenderFailure(id: nat, test: Temp, fail: Part, ok: Part): seq<Line>
  {
    [BrIf(test, I(id, fail), I(id, ok)), Bare(I(id, fail)),
     CallIntrinsic(id, FatalIntrinsic), UnreachableLine, Bare(I(id, ok))]
  }

  function RenderReply(id: nat, turn: nat): seq<Line>
  {
    [Code(id, 0)] + RenderFailure(id, ClaimFailed(id), ClaimFail, ClaimOk)
    + ([Code(id, 1), CallFunction(id, turn), Code(id, 2)] + RenderFailure(id, WriteFailed(id), WriteFail, WriteOk)
    + ([Code(id, 3)] + RenderFailure(id, ConsumeFailed(id), ConsumeFail, ConsumeOk)
    + [Code(id, 4), Br(I(id, Ok)), Bare(I(id, Ok))]))
  }

  function Tag(turn: nat): nat { turn + 1 }

  function TurnCases(id: nat, methods: seq<nat>): seq<SwitchCase>
  {
    if |methods| == 0 then []
    else [SwitchCase(Tag(methods[0]), I(id, CallTurn(methods[0])))] + TurnCases(id, methods[1..])
  }

  function RenderTurn(id: nat, part: Part, turn: nat): seq<Line>
  {
    [Bare(I(id, part)), CallFunction(id, turn), Br(I(id, Scan))]
  }

  function RenderTurns(id: nat, methods: seq<nat>): seq<Line>
  {
    if |methods| == 0 then [] else RenderTurn(id, CallTurn(methods[0]), methods[0]) + RenderTurns(id, methods[1..])
  }

  function RenderDispatch(id: nat, methods: seq<nat>): seq<Line>
    requires |methods| > 0
  {
    var turn := if |methods| == 1 then Dispatch else SelectTurn;
    [Br(I(id, Scan)), Bare(I(id, Scan)), Code(id, 0), BrIf(Pending(id), I(id, turn), I(id, Ok))]
    + (if |methods| == 1 then RenderTurn(id, Dispatch, methods[0])
       else [Bare(I(id, SelectTurn)), SwitchTag(id, TurnCases(id, methods), I(id, CallTurn(methods[0])))]
            + RenderTurns(id, methods))
    + [Bare(I(id, Ok))]
  }

  function RenderAssert(id: nat): seq<Line>
  {
    [Code(id, 0), BrIf(Assertion(id), I(id, Ok), I(id, AssertFail)), Bare(I(id, AssertFail)),
     CallIntrinsic(id, TestAssertionFail), UnreachableLine, Bare(I(id, Ok))]
  }

  function RenderInstruction(m: Machine, i: Instruction): seq<Line>
  {
    match i.operation
    case Straight | ActorCommit(_, _) => [Code(i.id, 0)]
    case ActorReplyResolve => []
    case CheckedInteger | CheckedConvert | ActorReserve(_, _) | MailboxReceive(_, _) =>
      [Code(i.id, 0)] + RenderFailure(i.id, Failed(i.id), Fail, Ok) + [Code(i.id, 1)]
    case ActorReplyRequest(_, _, _, turn) => RenderReply(i.id, turn)
    case MailboxDispatch(_, mailbox, turn) => RenderDispatch(i.id, Methods(m, mailbox, turn))
    case Call(f) => [CallFunction(i.id, f)]
    case RuntimeCall(x) => [CallIntrinsic(i.id, x)]
    case TestAssert => RenderAssert(i.id)
  }

  function Fragments(m: Machine, instructions: seq<Instruction>): nat -> seq<Line>
  {
    (k: nat) => if k < |instructions| then RenderInstruction(m, instructions[k]) else []
  }

  function RenderInstructions(m: Machine, instructions: seq<Instruction>): seq<Line>
  {
    Concat(Fragments(m, instructions), |instructions|)
  }

  // ---- the label that ends a block ----

  /** Operations whose rendering opens a new LLVM block. */
  predicate Splits(operation: Operation)
  {
    match operation
    case CheckedInteger | CheckedConvert | ActorReserve(_, _) | ActorReplyRequest(_, _, _, _)
      | MailboxReceive(_, _) | MailboxDispatch(_, _, _) | TestAssert => true
    case _ => false
  }

  /** The last splitting instruction, searched from the end. */
  method CheckedContinuation(instructions: seq<Instruction>) returns (r: Option<nat>)
    ensures r == Continuation(instructions)
  {
    var k := |instructions|;
    while k > 0
      invariant 0 <= k <= |instructions| && Continuation(instructions) == LastSplit(instructions, k)
    {
      k := k - 1;
      if Splits(instructions[k].operation) { return Some(instructions[k].id); }
    }
    return None;
  }

  /** The last splitting instruction among the first n. */
  function LastSplit(instructions: seq<Instruction>, n: nat): Option<nat>
    requires n <= |instructions|
  {
    if n == 0 then None
    else if Splits(instructions[n - 1].operation) then Some(instructions[n - 1].id)
    else LastSplit(instructions, n - 1)
  }

  function Continuation(instructions: seq<Instruction>): Option<nat> { LastSplit(instructions, |instructions|) }

  function FinalLabel(block: nat, continuation: Option<nat>): BlockName
  {
    match continuation case None => B(block) case Some(i) => I(i, Ok)
  }

  // ---- edges and phis ----

  datatype Incoming = Incoming(target: nat, predecessor: nat, continuation: Option<nat>, arguments: seq<nat>)

  function EdgeTo(b: Block, e: Edge): Incoming { Incoming(e.target, b.id, Continuation(b.instructions), e.arguments) }

  /** The edges of a block. */
  function EdgesFrom(b: Block): seq<Incoming>
  {
    seq(|Successors(b.terminator)|,
      k requires 0 <= k < |Successors(b.terminator)| => EdgeTo(b, Successors(b.terminator)[k]))
  }

  function BlockEdges(blocks: seq<Block>): nat -> seq<Incoming>
  {
    (k: nat) => if k < |blocks| then EdgesFrom(blocks[k]) else []
  }

  function AllEdges(blocks: seq<Block>): seq<Incoming> { Concat(BlockEdges(blocks), |blocks|) }

  predicate EdgeOrder(x: Incoming, y: Incoming)
  {
    x.target < y.target || (x.target == y.target && x.predecessor <= y.predecessor)
  }

  ghost predicate IsInventory(f: Function, edges: seq<Incoming>)
  {
    Sorting.Sorted(EdgeOrder, edges) && multiset(edges) == multiset(AllEdges(f.blocks))
  }

  method PushEdges(block: Block) returns (edges: seq<Incoming>)
    ensures edges == EdgesFrom(block)
  {
    var continuation := CheckedContinuation(block.instructions);
    var successors := Successors(block.terminator);
    edges := [];
    for k := 0 to |successors|
      invariant |edges| == k && forall j :: 0 <= j < k ==> edges[j] == EdgesFrom(block)[j]
    {
      edges := edges + [Incoming(successors[k].target, block.id, continuation, successors[k].arguments)];
    }
  }

  /** The incoming edges of all blocks, sorted by target and predecessor. */
  method IncomingEdges(f: Function) returns (edges: seq<Incoming>)
    ensures IsInventory(f, edges)
  {
    var all: seq<Incoming> := [];
    for b := 0 to |f.blocks|
      invariant all == Concat(BlockEdges(f.blocks), b)
    {
      var pushed := PushEdges(f.blocks[b]);
      all := all + pushed;
    }
    edges := SortEdges(all);
  }

  method SortEdges(all: seq<Incoming>) returns (edges: seq<Incoming>)
    ensures Sorting.Sorted(EdgeOrder, edges) && multiset(edges) == multiset(all)
  {
    var sorted := new Incoming[|all|](k requires 0 <= k < |all| => all[k]);
    assert sorted[..] == all;
    Sorting.MergeSort(EdgeOrder, sorted);
    edges := sorted[..];
  }

  /** How many leading edges go to a block before `target`. */
  function PartitionPoint(edges: seq<Incoming>, target: nat): (k: nat)
    ensures k <= |edges|
    ensures forall j :: 0 <= j < k ==> edges[j].target < target
    ensures k < |edges| ==> edges[k].target >= target
  {
    if |edges| == 0 || edges[0].target >= target then 0
    else
      var rest := PartitionPoint(edges[1..], target);
      assert forall j :: 0 < j < rest + 1 ==> edges[j] == edges[1..][j - 1];
      rest + 1
  }

  function EdgesTo(edges: seq<Incoming>, target: nat): seq<Incoming>
  {
    var start, end := PartitionPoint(edges, target), PartitionPoint(edges, target + 1);
    if start <= end then edges[start..end] else []
  }

  /** The argument an edge passes to parameter j. Rendering stops with an error where there is none;
      valid functions have them all. */
  function ArgumentAt(e: Incoming, j: nat): nat { if j < |e.arguments| then e.arguments[j] else 0 }

  /** The edges a phi reads among the first n: of neighbours from the same predecessor, the first. */
  function FirstEdges(incoming: seq<Incoming>, n: nat): seq<Incoming>
    requires n <= |incoming|
  {
    if n == 0 then []
    else if n > 1 && incoming[n - 2].predecessor == incoming[n - 1].predecessor then FirstEdges(incoming, n - 1)
    else FirstEdges(incoming, n - 1) + [incoming[n - 1]]
  }

  function PhiEdges(incoming: seq<Incoming>): seq<Incoming> { FirstEdges(incoming, |incoming|) }

  function EntryFrom(e: Incoming, j: nat): Entry { Entry(ArgumentAt(e, j), FinalLabel(e.predecessor, e.continuation)) }

  /** The phi entries of parameter j. */
  function EntriesOf(edges: seq<Incoming>, j: nat): seq<Entry>
  {
    seq(|edges|, k requires 0 <= k < |edges| => EntryFrom(edges[k], j))
  }

  /** Every edge passes an argument to parameter j. */
  ghost predicate PassAll(edges: seq<Incoming>, j: nat) { forall e :: e in edges ==> j < |e.arguments| }

  /** Rendering fails exactly on an edge without the argument. */
  method RenderEntries(incoming: seq<Incoming>, j: nat) returns (entries: Option<seq<Entry>>)
    ensures entries.Some? <==> PassAll(PhiEdges(incoming), j)
    ensures entries.Some? ==> entries.value == EntriesOf(PhiEdges(incoming), j)
  {
    var done: seq<Entry> := [];
    var previous: Option<nat> := None;
    for k := 0 to |incoming|
      invariant previous == if k == 0 then None else Some(incoming[k - 1].predecessor)
      invariant done == EntriesOf(FirstEdges(incoming, k), j) && PassAll(FirstEdges(incoming, k), j)
    {
      var edge := incoming[k];
      ghost var before := FirstEdges(incoming, k);
      if previous != Some(edge.predecessor) {
        assert FirstEdges(incoming, k + 1) == before + [edge];
        if j >= |edge.arguments| {
          EarlyEdge(incoming, k, |incoming|);
          return None;
        }
        done := done + [Entry(edge.arguments[j], FinalLabel(edge.predecessor, edge.continuation))];
      }
      previous := Some(edge.predecessor);
    }
    return Some(done);
  }

  lemma {:induction false} EarlyEdge(incoming: seq<Incoming>, k: nat, n: nat)
    requires k < n <= |incoming| && (k == 0 || incoming[k - 1].predecessor != incoming[k].predecessor)
    ensures incoming[k] in FirstEdges(incoming, n)
  {
    if k < n - 1 { EarlyEdge(incoming, k, n - 1); }
  }

  function Phis(incoming: seq<Incoming>, parameters: seq<nat>): seq<Phi>
  {
    seq(|parameters|, k requires 0 <= k < |parameters| => Phi(parameters[k], EntriesOf(PhiEdges(incoming), k)))
  }

  // ---- blocks and functions ----

  function SwitchCases(cases: seq<Case>): seq<SwitchCase>
  {
    if |cases| == 0 then [] else [SwitchCase(cases[0].value, B(cases[0].target))] + SwitchCases(cases[1..])
  }

  function RenderTerminator(t: Terminator): seq<Line>
  {
    match t
    case Jump(target, _) => [Br(B(target))]
    case Branch(c, a, _, b, _) => [BrValue(c, B(a), B(b))]
    case Switch(v, cases, default, _) => [SwitchValue(v, SwitchCases(cases), B(default))]
    case Return(values) => [Ret(values)]
    case TailCall(callee, arguments) => [TailCallFunction(callee, arguments), Ret([])]
    case Unreachable => [UnreachableLine]
  }

  /** The edges into each block. */
  function IncomingTo(edges: seq<Incoming>): nat -> seq<Incoming> { (target: nat) => EdgesTo(edges, target) }

  function RenderBlock(m: Machine, b: Block, incoming: nat -> seq<Incoming>): seq<Line>
  {
    [Label(B(b.id), Phis(incoming(b.id), b.parameters))]
    + (RenderInstructions(m, b.instructions) + RenderTerminator(b.terminator))
  }

  /** The blocks other than the entry. */
  function Others(m: Machine, f: Function, incoming: nat -> seq<Incoming>): nat -> seq<Line>
  {
    (k: nat) => if k < |f.blocks| && f.blocks[k].id != f.entry then RenderBlock(m, f.blocks[k], incoming) else []
  }

  /** The entry block first, then the others in order. */
  function RenderFunction(m: Machine, f: Function, incoming: nat -> seq<Incoming>): seq<Line>
    requires f.entry < |f.blocks|
  {
    RenderBlock(m, f.blocks[f.entry], incoming) + Concat(Others(m, f, incoming), |f.blocks|)
  }
}
