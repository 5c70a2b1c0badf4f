/** Every label of a rendered function is defined once, and every block has its place in the text. */
module Labels {
  import opened Lists
  import opened MachineWir
  import opened Renderer
  import opened Llvm

  function Names(lines: seq<Line>): set<BlockName>
  {
    set k | 0 <= k < |lines| && lines[k].Label? :: lines[k].l
  }

  lemma {:induction false} Append(a: seq<Line>, b: seq<Line>)
    ensures Names(a + b) == Names(a) + Names(b)
    ensures Distinct(a) && Distinct(b) && Names(a) !! Names(b) ==> Distinct(a + b)
  {
    var c := a + b;
    forall n | n in Names(a) + Names(b) ensures n in Names(c) {
      if n in Names(a) {
        var k :| 0 <= k < |a| && a[k].Label? && a[k].l == n;
        assert c[k] == a[k];
      } else {
        var k :| 0 <= k < |b| && b[k].Label? && b[k].l == n;
        assert c[|a| + k] == b[k];
      }
    }
    DistinctMeans(a);
    DistinctMeans(b);
    DistinctMeans(c);
    if Distinct(a) && Distinct(b) && Names(a) !! Names(b) {
      forall j, k | 0 <= j < k < |c| && c[j].Label? && c[k].Label? ensures c[j].l != c[k].l {
        if j < |a| && k >= |a| { assert a[j].l in Names(a) && b[k - |a|].l in Names(b); }
      }
    }
  }

  // ---- what a fragment defines ----

  predicate Opened(k: int, lines: seq<Line>, names: set<BlockName>) { true }

  /** The fragment defines exactly these labels, each once. The guard keeps the definition folded
      while fragments are joined. */
  ghost predicate Defines(lines: seq<Line>, names: set<BlockName>)
  {
    forall k {:trigger Opened(k, lines, names)} :: Opened(k, lines, names) ==> Distinct(lines) && Names(lines) == names
  }

  lemma {:induction false} Defined(lines: seq<Line>, names: set<BlockName>)
    ensures Defines(lines, names) <==> Distinct(lines) && Names(lines) == names
  {
    assert Opened(0, lines, names);
  }

  lemma {:induction false} Join(a: seq<Line>, b: seq<Line>, x: set<BlockName>, y: set<BlockName>)
    requires Defines(a, x) && Defines(b, y) && x !! y
    ensures Defines(a + b, x + y)
  {
    Defined(a, x);
    Defined(b, y);
    Append(a, b);
  }

  lemma {:induction false} NoLabels(lines: seq<Line>)
    requires forall k :: 0 <= k < |lines| ==> !lines[k].Label?
    ensures Defines(lines, {})
  {
    DistinctMeans(lines);
    Defined(lines, {});
  }

  /** Labels at the front of a fragment. */
  lemma {:induction false} OneLabel(l: BlockName, phis: seq<Phi>)
    ensures Defines([Label(l, phis)], {l})
  {
    var lines := [Label(l, phis)];
    DistinctMeans(lines);
    assert lines[0].l in Names(lines);
    Defined(lines, {l});
  }

  lemma {:induction false} FailureLabels(id: nat, test: Temp, fail: Part, ok: Part)
    requires fail != ok
    ensures Defines(RenderFailure(id, test, fail, ok), {I(id, fail), I(id, ok)})
  {
    TrapLabels(id, [BrIf(test, I(id, fail), I(id, ok))], fail, FatalIntrinsic, ok);
    assert RenderFailure(id, test, fail, ok)
        == [BrIf(test, I(id, fail), I(id, ok))] + [Bare(I(id, fail))]
          + [CallIntrinsic(id, FatalIntrinsic), UnreachableLine] + [Bare(I(id, ok))];
  }

  lemma {:induction false} TrapLabels(id: nat, front: seq<Line>, fail: Part, x: Intrinsic, ok: Part)
    requires fail != ok && forall k :: 0 <= k < |front| ==> !front[k].Label?
    ensures Defines(front + [Bare(I(id, fail))] + [CallIntrinsic(id, x), UnreachableLine] + [Bare(I(id, ok))],
      {I(id, fail), I(id, ok)})
  {
    var a, trap, b := [Bare(I(id, fail))], [CallIntrinsic(id, x), UnreachableLine], [Bare(I(id, ok))];
    NoLabels(front);
    NoLabels(trap);
    OneLabel(I(id, fail), []);
    OneLabel(I(id, ok), []);
    Join(front, a, {}, {I(id, fail)});
    Join(front + a, trap, {} + {I(id, fail)}, {});
    Join(front + a + trap, b, {} + {I(id, fail)} + {}, {I(id, ok)});
    assert {} + {I(id, fail)} + {} + {I(id, ok)} == {I(id, fail), I(id, ok)};
  }

  function ReplyNames(id: nat): set<BlockName>
  {
    {I(id, ClaimFail), I(id, ClaimOk)}
    + ({I(id, WriteFail), I(id, WriteOk)} + ({I(id, ConsumeFail), I(id, ConsumeOk)} + {I(id, Ok)}))
  }

  /** A failure test behind straight-line code. */
  lemma {:induction false} CodeFailureLabels(id: nat, front: seq<Line>, test: Temp, fail: Part, ok: Part)
    requires fail != ok && forall k :: 0 <= k < |front| ==> !front[k].Label?
    ensures Defines(front + RenderFailure(id, test, fail, ok), {I(id, fail), I(id, ok)})
  {
    NoLabels(front);
    FailureLabels(id, test, fail, ok);
    Join(front, RenderFailure(id, test, fail, ok), {}, {I(id, fail), I(id, ok)});
    assert {} + {I(id, fail), I(id, ok)} == {I(id, fail), I(id, ok)};
  }

  lemma {:induction false} ReplyLabels(id: nat, turn: nat)
    ensures Defines(RenderReply(id, turn), ReplyNames(id))
  {
    var first, middle, third := [Code(id, 0)], [Code(id, 1), CallFunction(id, turn), Code(id, 2)], [Code(id, 3)];
    var claim, write, consume := RenderFailure(id, ClaimFailed(id), ClaimFail, ClaimOk),
      RenderFailure(id, WriteFailed(id), WriteFail, WriteOk),
      RenderFailure(id, ConsumeFailed(id), ConsumeFail, ConsumeOk);
    var end := [Code(id, 4), Br(I(id, Ok)), Bare(I(id, Ok))];
    CodeFailureLabels(id, first, ClaimFailed(id), ClaimFail, ClaimOk);
    CodeFailureLabels(id, middle, WriteFailed(id), WriteFail, WriteOk);
    CodeFailureLabels(id, third, ConsumeFailed(id), ConsumeFail, ConsumeOk);
    LastLabel([Code(id, 4), Br(I(id, Ok))], I(id, Ok));
    assert end == [Code(id, 4), Br(I(id, Ok))] + [Bare(I(id, Ok))];
    var c, w := {I(id, ConsumeFail), I(id, ConsumeOk)}, {I(id, WriteFail), I(id, WriteOk)};
    Join(third + consume, end, c, {I(id, Ok)});
    Join(middle + write, third + consume + end, w, c + {I(id, Ok)});
    Join(first + claim, middle + write + (third + consume + end), {I(id, ClaimFail), I(id, ClaimOk)},
      w + (c + {I(id, Ok)}));
  }

  lemma {:induction false} LastLabel(front: seq<Line>, l: BlockName)
    requires forall k :: 0 <= k < |front| ==> !front[k].Label?
    ensures Defines(front + [Bare(l)], {l})
  {
    NoLabels(front);
    OneLabel(l, []);
    Join(front, [Bare(l)], {}, {l});
    assert {} + {l} == {l};
  }

  lemma {:induction false} FirstLabel(l: BlockName, back: seq<Line>)
    requires forall k :: 0 <= k < |back| ==> !back[k].Label?
    ensures Defines([Bare(l)] + back, {l})
  {
    NoLabels(back);
    OneLabel(l, []);
    Join([Bare(l)], back, {l}, {});
    assert {l} + {} == {l};
  }

  lemma {:induction false} TurnLabels(id: nat, part: Part, turn: nat)
    ensures Defines(RenderTurn(id, part, turn), {I(id, part)})
  {
    FirstLabel(I(id, part), [CallFunction(id, turn), Br(I(id, Scan))]);
    assert RenderTurn(id, part, turn) == [Bare(I(id, part))] + [CallFunction(id, turn), Br(I(id, Scan))];
  }

  function TurnNames(id: nat, methods: seq<nat>): set<BlockName>
  {
    set turn | turn in methods :: I(id, CallTurn(turn))
  }

  lemma {:induction false} TurnsLabels(id: nat, methods: seq<nat>)
    requires Increasing(methods)
    ensures Defines(RenderTurns(id, methods), TurnNames(id, methods))
  {
    if |methods| == 0 {
      NoLabels([]);
      assert TurnNames(id, methods) == {};
    } else {
      var turn, rest := methods[0], methods[1..];
      TurnsLabels(id, rest);
      TurnLabels(id, CallTurn(turn), turn);
      Join(RenderTurn(id, CallTurn(turn), turn), RenderTurns(id, rest), {I(id, CallTurn(turn))}, TurnNames(id, rest));
      assert methods == [turn] + rest;
      assert {I(id, CallTurn(turn))} + TurnNames(id, rest) == TurnNames(id, methods);
    }
  }

  function ChoiceNames(id: nat, methods: seq<nat>): set<BlockName>
  {
    if |methods| == 1 then {I(id, Dispatch)} else {I(id, SelectTurn)} + TurnNames(id, methods)
  }

  lemma {:induction false} DispatchLabels(id: nat, methods: seq<nat>)
    requires |methods| > 0 && Increasing(methods)
    ensures Defines(RenderDispatch(id, methods), {I(id, Scan)} + ChoiceNames(id, methods) + {I(id, Ok)})
  {
    var lines := RenderDispatch(id, methods);
    var scan, body := lines[..4], lines[4..|lines| - 1];
    ScanLabels(id, lines[3]);
    assert scan == [Br(I(id, Scan)), Bare(I(id, Scan)), Code(id, 0), lines[3]];
    if |methods| == 1 {
      TurnLabels(id, Dispatch, methods[0]);
      assert body == RenderTurn(id, Dispatch, methods[0]);
    } else {
      var select := [SwitchTag(id, TurnCases(id, methods), I(id, CallTurn(methods[0])))];
      FirstLabel(I(id, SelectTurn), select);
      TurnsLabels(id, methods);
      Join([Bare(I(id, SelectTurn))] + select, RenderTurns(id, methods), {I(id, SelectTurn)}, TurnNames(id, methods));
      assert body == [Bare(I(id, SelectTurn))] + select + RenderTurns(id, methods);
    }
    Join(scan, body, {I(id, Scan)}, ChoiceNames(id, methods));
    LastLabel([], I(id, Ok));
    assert [] + [Bare(I(id, Ok))] == [Bare(I(id, Ok))];
    Join(scan + body, [Bare(I(id, Ok))], {I(id, Scan)} + ChoiceNames(id, methods), {I(id, Ok)});
    assert lines == scan + body + [Bare(I(id, Ok))];
  }

  lemma {:induction false} ScanLabels(id: nat, branch: Line)
    requires !branch.Label?
    ensures Defines([Br(I(id, Scan)), Bare(I(id, Scan)), Code(id, 0), branch], {I(id, Scan)})
  {
    var a, b := [Br(I(id, Scan))], [Code(id, 0), branch];
    LastLabel(a, I(id, Scan));
    NoLabels(b);
    Join(a + [Bare(I(id, Scan))], b, {I(id, Scan)}, {});
    assert {I(id, Scan)} + {} == {I(id, Scan)};
    assert [Br(I(id, Scan)), Bare(I(id, Scan)), Code(id, 0), branch] == a + [Bare(I(id, Scan))] + b;
  }

  lemma {:induction false} GuardedLabels(id: nat)
    ensures Defines([Code(id, 0)] + RenderFailure(id, Failed(id), Fail, Ok) + [Code(id, 1)], {I(id, Fail), I(id, Ok)})
  {
    CodeFailureLabels(id, [Code(id, 0)], Failed(id), Fail, Ok);
    NoLabels([Code(id, 1)]);
    Join([Code(id, 0)] + RenderFailure(id, Failed(id), Fail, Ok), [Code(id, 1)], {I(id, Fail), I(id, Ok)}, {});
    assert {I(id, Fail), I(id, Ok)} + {} == {I(id, Fail), I(id, Ok)};
  }

  lemma {:induction false} AssertLabels(id: nat)
    ensures Defines(RenderAssert(id), {I(id, AssertFail), I(id, Ok)})
  {
    var front := [Code(id, 0), BrIf(Assertion(id), I(id, Ok), I(id, AssertFail))];
    TrapLabels(id, front, AssertFail, TestAssertionFail, Ok);
    assert RenderAssert(id)
        == front + [Bare(I(id, AssertFail))]
          + [CallIntrinsic(id, TestAssertionFail), UnreachableLine] + [Bare(I(id, Ok))];
  }

  function InstructionNames(m: Machine, i: Instruction): (names: set<BlockName>)
    ensures forall n :: n in names ==> n.I? && n.instruction == i.id
  {
    match i.operation
    case CheckedInteger | CheckedConvert | ActorReserve(_, _) | MailboxReceive(_, _) => {I(i.id, Fail), I(i.id, Ok)}
    case ActorReplyRequest(_, _, _, _) => ReplyNames(i.id)
    case MailboxDispatch(_, mailbox, turn) =>
      {I(i.id, Scan)} + ChoiceNames(i.id, Methods(m, mailbox, turn)) + {I(i.id, Ok)}
    case TestAssert => {I(i.id, AssertFail), I(i.id, Ok)}
    case Straight | ActorCommit(_, _) | ActorReplyResolve | Call(_) | RuntimeCall(_) => {}
  }

  lemma {:induction false} InstructionLabels(m: Machine, i: Instruction)
    ensures Defines(RenderInstruction(m, i), InstructionNames(m, i))
  {
    match i.operation
    case CheckedInteger | CheckedConvert | ActorReserve(_, _) | MailboxReceive(_, _) => GuardedLabels(i.id);
    case ActorReplyRequest(_, _, _, turn) => ReplyLabels(i.id, turn);
    case MailboxDispatch(_, mailbox, turn) => DispatchLabels(i.id, Methods(m, mailbox, turn));
    case TestAssert => AssertLabels(i.id);
    case Straight | ActorCommit(_, _) | ActorReplyResolve | Call(_) | RuntimeCall(_) =>
      NoLabels(RenderInstruction(m, i));
  }

  // ---- bodies, blocks and functions ----

  function Union(names: nat -> set<BlockName>, n: nat): set<BlockName>
  {
    if n == 0 then {} else Union(names, n - 1) + names(n - 1)
  }

  lemma {:induction false} UnionMember(names: nat -> set<BlockName>, n: nat, x: BlockName)
    ensures x in Union(names, n) <==> exists k: nat :: k < n && x in names(k)
  {
    if n > 0 { UnionMember(names, n - 1, x); }
  }

  lemma {:induction false} UnionApart(names: nat -> set<BlockName>, n: nat)
    requires forall j: nat, k: nat :: j < k <= n ==> names(j) !! names(k)
    ensures Union(names, n) !! names(n)
  {
    var last := names(n);
    forall x | x in last ensures x !in Union(names, n) { UnionMember(names, n, x); }
  }

  /** Fragments with labels of their own. */
  lemma {:induction false} ConcatDefines(g: nat -> seq<Line>, names: nat -> set<BlockName>, n: nat)
    requires forall k: nat :: k < n ==> Defines(g(k), names(k))
    requires forall j: nat, k: nat :: j < k < n ==> names(j) !! names(k)
    ensures Defines(Concat(g, n), Union(names, n))
  {
    if n == 0 {
      NoLabels([]);
    } else {
      ConcatDefines(g, names, n - 1);
      UnionApart(names, n - 1);
      Join(Concat(g, n - 1), g(n - 1), Union(names, n - 1), names(n - 1));
    }
  }

  ghost predicate HasId(instructions: seq<Instruction>, id: nat)
  {
    exists k :: 0 <= k < |instructions| && instructions[k].id == id
  }

  function FragmentNames(m: Machine, instructions: seq<Instruction>): nat -> set<BlockName>
  {
    (k: nat) => if k < |instructions| then InstructionNames(m, instructions[k]) else {}
  }

  function BodyNames(m: Machine, instructions: seq<Instruction>): set<BlockName>
  {
    Union(FragmentNames(m, instructions), |instructions|)
  }

  lemma {:induction false} BodyNamesIds(m: Machine, instructions: seq<Instruction>)
    ensures forall n :: n in BodyNames(m, instructions) ==> n.I? && HasId(instructions, n.instruction)
  {
    forall n | n in BodyNames(m, instructions) ensures n.I? && HasId(instructions, n.instruction) {
      UnionMember(FragmentNames(m, instructions), |instructions|, n);
      var k: nat :| k < |instructions| && n in InstructionNames(m, instructions[k]);
    }
  }

  lemma {:induction false} BodyLabels(m: Machine, instructions: seq<Instruction>)
    requires forall j, k :: 0 <= j < k < |instructions| ==> instructions[j].id != instructions[k].id
    ensures Defines(RenderInstructions(m, instructions), BodyNames(m, instructions))
  {
    var g, names := Fragments(m, instructions), FragmentNames(m, instructions);
    forall k: nat | k < |instructions| ensures Defines(g(k), names(k)) { InstructionLabels(m, instructions[k]); }
    forall j: nat, k: nat | j < k < |instructions| ensures names(j) !! names(k) {
      NamesOfDifferent(m, instructions[j], instructions[k]);
    }
    ConcatDefines(g, names, |instructions|);
  }

  lemma {:induction false} NamesOfDifferent(m: Machine, i: Instruction, j: Instruction)
    requires i.id != j.id
    ensures InstructionNames(m, i) !! InstructionNames(m, j)
  {
  }

  /** A label belongs to block c. */
  ghost predicate OwnedBy(f: Function, n: BlockName, c: nat)
  {
    c < |f.blocks| && (n == B(c) || (n.I? && HasId(f.blocks[c].instructions, n.instruction)))
  }

  lemma {:induction false} OneOwner(f: Function, n: BlockName, c: nat, d: nat)
    requires UniqueIds(f) && OwnedBy(f, n, c) && OwnedBy(f, n, d)
    ensures c == d
  {
    if n.I? {
      var j :| 0 <= j < |f.blocks[c].instructions| && f.blocks[c].instructions[j].id == n.instruction;
      var k :| 0 <= k < |f.blocks[d].instructions| && f.blocks[d].instructions[k].id == n.instruction;
    }
  }

  function BlockNames(m: Machine, b: Block): set<BlockName> { {B(b.id)} + BodyNames(m, b.instructions) }

  lemma {:induction false} BlockNamesOwned(m: Machine, f: Function, c: nat, n: BlockName)
    requires c < |f.blocks| && f.blocks[c].id == c && n in BlockNames(m, f.blocks[c])
    ensures OwnedBy(f, n, c)
  {
    BodyNamesIds(m, f.blocks[c].instructions);
  }

  lemma {:induction false} NamesApart(m: Machine, f: Function, c: nat, d: nat)
    requires DenseIds(f) && UniqueIds(f) && c < |f.blocks| && d < |f.blocks| && c != d
    ensures BlockNames(m, f.blocks[c]) !! BlockNames(m, f.blocks[d])
  {
    forall n | n in BlockNames(m, f.blocks[c]) && n in BlockNames(m, f.blocks[d]) ensures false {
      BlockNamesOwned(m, f, c, n);
      BlockNamesOwned(m, f, d, n);
      OneOwner(f, n, c, d);
    }
  }

  lemma {:induction false} BlockLabels(m: Machine, b: Block, incoming: nat -> seq<Incoming>)
    requires forall j, k :: 0 <= j < k < |b.instructions| ==> b.instructions[j].id != b.instructions[k].id
    ensures Defines(RenderBlock(m, b, incoming), BlockNames(m, b))
  {
    var head := [Label(B(b.id), Phis(incoming(b.id), b.parameters))];
    var body, last := RenderInstructions(m, b.instructions), RenderTerminator(b.terminator);
    BodyLabels(m, b.instructions);
    BodyNamesIds(m, b.instructions);
    NoLabels(last);
    OneLabel(B(b.id), head[0].phis);
    var names := BodyNames(m, b.instructions);
    Join(body, last, names, {});
    Join(head, body + last, {B(b.id)}, names + {});
    assert names + {} == names;
  }

  function OtherNames(m: Machine, f: Function): nat -> set<BlockName>
  {
    (k: nat) => if k < |f.blocks| && f.blocks[k].id != f.entry then BlockNames(m, f.blocks[k]) else {}
  }

  lemma {:induction false} OtherLabels(m: Machine, f: Function, incoming: nat -> seq<Incoming>, k: nat)
    requires UniqueIds(f) && k < |f.blocks|
    ensures Defines(Others(m, f, incoming)(k), OtherNames(m, f)(k))
  {
    if f.blocks[k].id != f.entry {
      BlockLabels(m, f.blocks[k], incoming);
    } else {
      NoLabels([]);
    }
  }

  /** No label of a rendered function is defined twice. */
  lemma {:induction false} FunctionLabels(m: Machine, f: Function, incoming: nat -> seq<Incoming>, text: seq<Line>)
    requires DenseIds(f) && UniqueIds(f) && IsRendering(m, f, incoming, text)
    ensures Distinct(text)
  {
    var g, names, n := Others(m, f, incoming), OtherNames(m, f), |f.blocks|;
    forall k: nat | k < n ensures Defines(g(k), names(k)) { OtherLabels(m, f, incoming, k); }
    forall j: nat, k: nat | j < k < n ensures names(j) !! names(k) { NamesApart(m, f, j, k); }
    ConcatDefines(g, names, n);
    BlockLabels(m, f.blocks[f.entry], incoming);
    EntryApart(m, f);
    Join(RenderBlock(m, f.blocks[f.entry], incoming), Concat(g, n), BlockNames(m, f.blocks[f.entry]), Union(names, n));
    RenderingIs(m, f, incoming, text);
    Defined(text, BlockNames(m, f.blocks[f.entry]) + Union(names, n));
  }

  lemma {:induction false} EntryApart(m: Machine, f: Function)
    requires DenseIds(f) && UniqueIds(f) && f.entry < |f.blocks|
    ensures BlockNames(m, f.blocks[f.entry]) !! Union(OtherNames(m, f), |f.blocks|)
  {
    forall x | x in Union(OtherNames(m, f), |f.blocks|) ensures x !in BlockNames(m, f.blocks[f.entry]) {
      UnionMember(OtherNames(m, f), |f.blocks|, x);
      var k: nat :| k < |f.blocks| && x in OtherNames(m, f)(k);
      NamesApart(m, f, f.entry, k);
    }
  }

  // ---- positions ----

  lemma {:induction false} SubConcat(a: seq<Line>, g: nat -> seq<Line>, k: nat, n: nat)
    requires k < n
    ensures Sub(a + Concat(g, n), |a| + |Concat(g, k)|, g(k))
  {
    ConcatPrefix(g, k, n);
    var at, c := |Concat(g, k)|, Concat(g, n);
    assert (a + c)[|a| + at..|a| + at + |g(k)|] == c[at..at + |g(k)|];
    SubMeans(a + c, |a| + at, g(k));
  }

  lemma {:induction false} SubFront(a: seq<Line>, b: seq<Line>)
    ensures Sub(a + b, 0, a)
  {
    SubMeans(a + b, 0, a);
  }

  /** Where a fragment stands: the first in front, the others behind it. */
  lemma {:induction false} Position(
      first: seq<Line>, g: nat -> seq<Line>, k: nat, n: nat, front: bool) returns (at: nat)
    requires k < n
    ensures Sub(first + Concat(g, n), at, if front then first else g(k)) && (front ==> at == 0)
  {
    if front {
      at := 0;
      SubFront(first, Concat(g, n));
    } else {
      at := |first| + |Concat(g, k)|;
      SubConcat(first, g, k, n);
    }
  }

  predicate OpenText(k: int, text: seq<Line>) { true }

  /** `text` is the rendered function, folded. */
  ghost predicate IsRendering(m: Machine, f: Function, incoming: nat -> seq<Incoming>, text: seq<Line>)
  {
    f.entry < |f.blocks|
    && forall k {:trigger OpenText(k, text)} :: OpenText(k, text) ==> text == RenderFunction(m, f, incoming)
  }

  lemma {:induction false} RenderingIs(m: Machine, f: Function, incoming: nat -> seq<Incoming>, text: seq<Line>)
    requires f.entry < |f.blocks|
    ensures IsRendering(m, f, incoming, text) <==> text == RenderFunction(m, f, incoming)
  {
    assert OpenText(0, text);
  }

  lemma {:induction false} BlockPosition(
      m: Machine, f: Function, incoming: nat -> seq<Incoming>, text: seq<Line>, c: nat) returns (at: nat)
    requires IsRendering(m, f, incoming, text) && c < |f.blocks| && f.blocks[c].id == c
    ensures Sub(text, at, RenderBlock(m, f.blocks[c], incoming))
    ensures c == f.entry ==> at == 0
  {
    RenderingIs(m, f, incoming, text);
    at := Position(RenderBlock(m, f.blocks[f.entry], incoming), Others(m, f, incoming), c, |f.blocks|, c == f.entry);
  }
}
