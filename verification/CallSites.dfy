/** The auditor re-derives from MachineWir which calls the object must contain. This module compares
    its inventory with what the renderer writes. */
module CallSites {
  import opened Wrappers
  import opened Lists
  import opened MachineWir
  import opened Renderer

  datatype BranchKind = CallBranch | TailBranch

  /** A call site: a runtime intrinsic, or an internal branch to a function. */
  datatype Site = Runtime(intrinsic: Intrinsic) | Internal(callee: nat, kind: BranchKind)

  // ---- what is rendered ----

  function SiteOf(line: Line): Option<Site>
  {
    match line
    case CallFunction(_, f) => Some(Internal(f, CallBranch))
    case CallIntrinsic(_, x) => Some(Runtime(x))
    case TailCallFunction(f, _) => Some(Internal(f, TailBranch))
    case _ => None
  }

  function One(p: bool): nat { if p then 1 else 0 }

  /** How often the lines call a site. */
  function Rendered(lines: seq<Line>, site: Site): nat
  {
    if |lines| == 0 then 0 else One(SiteOf(lines[0]) == Some(site)) + Rendered(lines[1..], site)
  }

  lemma {:induction false} RenderedAppend(a: seq<Line>, b: seq<Line>, site: Site)
    ensures Rendered(a + b, site) == Rendered(a, site) + Rendered(b, site)
  {
    if |a| == 0 {
      assert a + b == b;
    } else {
      assert (a + b)[1..] == a[1..] + b;
      RenderedAppend(a[1..], b, site);
    }
  }

  lemma {:induction false} RenderedOne(line: Line, site: Site)
    ensures Rendered([line], site) == One(SiteOf(line) == Some(site))
  {
    assert [line][1..] == [];
  }

  // ---- what the auditor expects ----

  datatype Emission = Emission(intrinsic: Intrinsic, directlyRequired: bool, allowed: nat)

  function RuntimeEmission(operation: Operation): Option<Emission>
  {
    match operation
    case RuntimeCall(x) => Some(Emission(x, true, 1))
    case CheckedInteger | CheckedConvert | ActorReserve(_, _) | MailboxReceive(_, _) =>
      Some(Emission(FatalIntrinsic, false, 1))
    case ActorReplyRequest(_, _, _, _) => Some(Emission(FatalIntrinsic, false, 3))
    case TestAssert => Some(Emission(TestAssertionFail, false, 1))
    case _ => None
  }

  /** The internal branches the auditor visits for an operation. */
  function Visits(m: Machine, operation: Operation): seq<Site>
  {
    match operation
    case MailboxDispatch(actor, _, turn) =>
      var fifo := FifoTurns(m.activations, Some(actor));
      Calls(if |fifo| == 0 then [turn] else fifo)
    case Call(f) => [Internal(f, CallBranch)]
    case ActorReplyRequest(_, _, _, turn) => [Internal(turn, CallBranch)]
    case _ => []
  }

  function Calls(turns: seq<nat>): seq<Site>
  {
    seq(|turns|, k requires 0 <= k < |turns| => Internal(turns[k], CallBranch))
  }

  method VisitBranches(m: Machine, operation: Operation) returns (visits: seq<Site>)
    ensures visits == Visits(m, operation)
  {
    match operation
    case MailboxDispatch(actor, mailbox, turn) => visits := VisitTurns(m.activations, actor, turn);
    case Call(f) => visits := [Internal(f, CallBranch)];
    case ActorReplyRequest(_, _, _, turn) => visits := [Internal(turn, CallBranch)];
    case _ => visits := [];
  }

  /** Every FIFO turn of the actor, or the dispatch's own turn if there is none. */
  method VisitTurns(activations: seq<Activation>, actor: nat, turn: nat) returns (visits: seq<Site>)
    ensures var fifo := FifoTurns(activations, Some(actor)); visits == Calls(if |fifo| == 0 then [turn] else fifo)
  {
    var callers: seq<nat> := [];
    for k := 0 to |activations|
      invariant callers == Concat(FifoTurn(activations, Some(actor)), k)
    {
      if activations[k].schedulerFifo && activations[k].actor == Some(actor) {
        callers := callers + [activations[k].caller];
      }
    }
    visits := Calls(if |callers| == 0 then [turn] else callers);
  }

  /** How often the auditor allows a site for one operation. */
  function Audited(m: Machine, operation: Operation, site: Site): nat
  {
    (match RuntimeEmission(operation)
     case Some(e) => if site == Runtime(e.intrinsic) then e.allowed else 0
     case None => 0)
    + multiset(Visits(m, operation))[site]
  }

  // ---- one instruction ----

  function CallTo(turns: seq<nat>, site: Site): nat -> nat
  {
    (k: nat) => if k < |turns| && Internal(turns[k], CallBranch) == site then 1 else 0
  }

  lemma {:induction false} CallsCount(turns: seq<nat>, site: Site)
    ensures multiset(Calls(turns))[site]
         == if site.Internal? && site.kind == CallBranch then multiset(turns)[site.callee] else 0
  {
    var h, n := CallTo(turns, site), |turns|;
    CountsSum(Calls(turns), h, n, site);
    assert Calls(turns)[..n] == Calls(turns) && turns[..n] == turns;
    if site.Internal? && site.kind == CallBranch { CountsSum(turns, h, n, site.callee); } else { SumZero(h, n); }
  }

  lemma {:induction false} SumZero(h: nat -> nat, n: nat)
    requires forall k: nat :: k < n ==> h(k) == 0
    ensures Sum(h, n) == 0
  {
    if n > 0 { SumZero(h, n - 1); }
  }

  lemma {:induction false} FailureSites(id: nat, test: Temp, fail: Part, ok: Part, site: Site)
    ensures Rendered(RenderFailure(id, test, fail, ok), site) == One(site == Runtime(FatalIntrinsic))
  {
    var lines := RenderFailure(id, test, fail, ok);
    assert lines == [lines[0]] + [lines[1]] + [lines[2]] + [lines[3]] + [lines[4]];
    FiveSites(lines[0], lines[1], lines[2], lines[3], lines[4], site);
  }

  lemma {:induction false} FiveSites(a: Line, b: Line, c: Line, d: Line, e: Line, site: Site)
    ensures Rendered([a] + [b] + [c] + [d] + [e], site)
         == One(SiteOf(a) == Some(site)) + One(SiteOf(b) == Some(site)) + One(SiteOf(c) == Some(site))
          + One(SiteOf(d) == Some(site)) + One(SiteOf(e) == Some(site))
  {
    RenderedOne(a, site);
    RenderedOne(b, site);
    RenderedOne(c, site);
    RenderedOne(d, site);
    RenderedOne(e, site);
    RenderedAppend([a], [b], site);
    RenderedAppend([a] + [b], [c], site);
    RenderedAppend([a] + [b] + [c], [d], site);
    RenderedAppend([a] + [b] + [c] + [d], [e], site);
  }

  lemma {:induction false} GuardedSites(id: nat, site: Site)
    ensures Rendered([Code(id, 0)] + RenderFailure(id, Failed(id), Fail, Ok) + [Code(id, 1)], site)
         == One(site == Runtime(FatalIntrinsic))
  {
    FailureSites(id, Failed(id), Fail, Ok, site);
    RenderedOne(Code(id, 0), site);
    RenderedOne(Code(id, 1), site);
    RenderedAppend([Code(id, 0)], RenderFailure(id, Failed(id), Fail, Ok), site);
    RenderedAppend([Code(id, 0)] + RenderFailure(id, Failed(id), Fail, Ok), [Code(id, 1)], site);
  }

  /** A reply request has three fatal calls and the call of the callee. */
  lemma {:induction false} ReplySites(id: nat, turn: nat, site: Site)
    ensures Rendered(RenderReply(id, turn), site)
         == (if site == Runtime(FatalIntrinsic) then 3 else 0) + One(site == Internal(turn, CallBranch))
  {
    var first, middle, third, last := [Code(id, 0)], [Code(id, 1), CallFunction(id, turn), Code(id, 2)], [Code(id, 3)],
      [Code(id, 4), Br(I(id, Ok)), Bare(I(id, Ok))];
    var claim, write, consume := RenderFailure(id, ClaimFailed(id), ClaimFail, ClaimOk),
      RenderFailure(id, WriteFailed(id), WriteFail, WriteOk),
      RenderFailure(id, ConsumeFailed(id), ConsumeFail, ConsumeOk);
    RenderedOne(Code(id, 0), site);
    RenderedOne(Code(id, 3), site);
    ThreeSites(middle[0], middle[1], middle[2], site);
    ThreeSites(last[0], last[1], last[2], site);
    FailureSites(id, ClaimFailed(id), ClaimFail, ClaimOk, site);
    FailureSites(id, WriteFailed(id), WriteFail, WriteOk, site);
    FailureSites(id, ConsumeFailed(id), ConsumeFail, ConsumeOk, site);
    RenderedAppend(third, consume, site);
    RenderedAppend(third + consume, last, site);
    RenderedAppend(middle, write, site);
    RenderedAppend(middle + write, third + consume + last, site);
    RenderedAppend(first, claim, site);
    RenderedAppend(first + claim, middle + write + (third + consume + last), site);
  }

  lemma {:induction false} ThreeSites(a: Line, b: Line, c: Line, site: Site)
    ensures Rendered([a, b, c], site)
         == One(SiteOf(a) == Some(site)) + One(SiteOf(b) == Some(site)) + One(SiteOf(c) == Some(site))
  {
    RenderedOne(a, site);
    RenderedOne(b, site);
    RenderedOne(c, site);
    RenderedAppend([a], [b], site);
    RenderedAppend([a] + [b], [c], site);
    assert [a, b, c] == [a] + [b] + [c];
  }

  lemma {:induction false} TurnsSites(id: nat, methods: seq<nat>, site: Site)
    ensures Rendered(RenderTurns(id, methods), site) == multiset(Calls(methods))[site]
  {
    if |methods| > 0 {
      var turn := RenderTurn(id, CallTurn(methods[0]), methods[0]);
      ThreeSites(turn[0], turn[1], turn[2], site);
      RenderedAppend(turn, RenderTurns(id, methods[1..]), site);
      TurnsSites(id, methods[1..], site);
      assert Calls(methods) == [Internal(methods[0], CallBranch)] + Calls(methods[1..]);
    }
  }

  /** Dispatch calls each method of its table once. */
  lemma {:induction false} DispatchSites(id: nat, methods: seq<nat>, site: Site)
    requires |methods| > 0
    ensures Rendered(RenderDispatch(id, methods), site) == multiset(Calls(methods))[site]
  {
    var lines := RenderDispatch(id, methods);
    ThreeSites(lines[0], lines[1], lines[2], site);
    RenderedOne(lines[3], site);
    var scan, ok := [lines[0], lines[1], lines[2]] + [lines[3]], [Bare(I(id, Ok))];
    RenderedAppend([lines[0], lines[1], lines[2]], [lines[3]], site);
    RenderedOne(ok[0], site);
    var body := DispatchBody(id, methods);
    DispatchBodySites(id, methods, site);
    assert lines == scan + body + ok;
    RenderedAppend(scan, body, site);
    RenderedAppend(scan + body, ok, site);
  }

  function DispatchBody(id: nat, methods: seq<nat>): seq<Line>
    requires |methods| > 0
  {
    if |methods| == 1 then RenderTurn(id, Dispatch, methods[0])
    else [Bare(I(id, SelectTurn)), SwitchTag(id, TurnCases(id, methods), I(id, CallTurn(methods[0])))]
         + RenderTurns(id, methods)
  }

  lemma {:induction false} DispatchBodySites(id: nat, methods: seq<nat>, site: Site)
    requires |methods| > 0
    ensures Rendered(DispatchBody(id, methods), site) == multiset(Calls(methods))[site]
  {
    if |methods| == 1 {
      var turn := RenderTurn(id, Dispatch, methods[0]);
      ThreeSites(turn[0], turn[1], turn[2], site);
      assert Calls(methods) == [Internal(methods[0], CallBranch)];
    } else {
      var a, b := Bare(I(id, SelectTurn)), SwitchTag(id, TurnCases(id, methods), I(id, CallTurn(methods[0])));
      RenderedOne(a, site);
      RenderedOne(b, site);
      RenderedAppend([a], [b], site);
      assert [a, b] == [a] + [b];
      TurnsSites(id, methods, site);
      RenderedAppend([a, b], RenderTurns(id, methods), site);
    }
  }

  lemma {:induction false} AssertSites(id: nat, site: Site)
    ensures Rendered(RenderAssert(id), site) == One(site == Runtime(TestAssertionFail))
  {
    var lines := RenderAssert(id);
    RenderedOne(lines[0], site);
    FiveSites(lines[1], lines[2], lines[3], lines[4], lines[5], site);
    RenderedAppend([lines[0]], [lines[1]] + [lines[2]] + [lines[3]] + [lines[4]] + [lines[5]], site);
    assert lines == [lines[0]] + ([lines[1]] + [lines[2]] + [lines[3]] + [lines[4]] + [lines[5]]);
  }

  // ---- the two inventories of a dispatch ----

  /** The turns the auditor visits for a dispatch. */
  function AuditedTurns(m: Machine, actor: nat, turn: nat): seq<nat>
  {
    var fifo := FifoTurns(m.activations, Some(actor));
    if |fifo| == 0 then [turn] else fifo
  }

  predicate NoRepeats(s: seq<nat>) { forall i, j :: 0 <= i < j < |s| ==> s[i] != s[j] }

  ghost predicate SameMembers(s: seq<nat>, t: seq<nat>) { forall x: nat :: x in s <==> x in t }

  lemma {:induction false} SameCountsExactly(table: seq<nat>, visited: seq<nat>)
    requires NoRepeats(table)
    ensures multiset(table) == multiset(visited) <==> NoRepeats(visited) && SameMembers(visited, table)
  {
    forall x ensures multiset(table)[x] <= 1 { CountsOnce(table, x); }
    assert forall x: nat :: (x in table <==> x in multiset(table)) && (x in visited <==> x in multiset(visited));
    if !NoRepeats(visited) {
      var i, j :| 0 <= i < j < |visited| && visited[i] == visited[j];
      CountsTwice(visited, i, j);
      assert multiset(table)[visited[i]] != multiset(visited)[visited[i]];
    } else if SameMembers(visited, table) {
      forall x: nat ensures multiset(table)[x] == multiset(visited)[x] {
        CountsOnce(visited, x);
        assert x in visited <==> x in table;
      }
    }
  }

  /** Renderer and auditor count the same calls of every turn exactly when the auditor visits the
      turns of the mailbox, and no turn twice. */
  lemma {:induction false} DispatchAgreesExactly(m: Machine, actor: nat, mailbox: nat, turn: nat)
    ensures multiset(Methods(m, mailbox, turn)) == multiset(AuditedTurns(m, actor, turn))
       <==> (NoRepeats(AuditedTurns(m, actor, turn))
             && SameMembers(AuditedTurns(m, actor, turn), Turns(m, mailbox, turn)))
  {
    SortedDistinctCorrect(Turns(m, mailbox, turn));
    SameCountsExactly(Methods(m, mailbox, turn), AuditedTurns(m, actor, turn));
  }

  /** Neither loop checks the condition, both rely on it: were the same FIFO turn activated twice, which
      validation refuses, the renderer would write one call and the auditor expect two. */
  lemma {:induction false} RepeatedTurnDisagrees()
    ensures var a := Activation(true, Some(0), 1, 7);
      var m := Machine([], [a, a], [Region(3, Some(0))]);
      multiset(Methods(m, 3, 9))[7] == 1 && multiset(AuditedTurns(m, 0, 9))[7] == 2
  {
    var a := Activation(true, Some(0), 1, 7);
    var m := Machine([], [a, a], [Region(3, Some(0))]);
    var g := FifoTurn([a, a], Some(0));
    assert g(0) == [7] && g(1) == [7];
    assert Concat(g, 0) == [] && Concat(g, 1) == [7] && Concat(g, 2) == [7, 7];
    assert MailboxActor(m.regions, 3) == Some(0);
    assert [7, 7][1..] == [7] && [7][1..] == [];
    assert SortedDistinct([7]) == [7] && SortedDistinct([7, 7]) == [7];
  }

  /** Validation's part: the mailbox is the actor's, and the actor's FIFO turns are distinct. */
  predicate DispatchConsistent(m: Machine, operation: Operation)
  {
    operation.MailboxDispatch? ==>
      MailboxActor(m.regions, operation.mailbox) == Some(operation.actor)
      && NoRepeats(FifoTurns(m.activations, Some(operation.actor)))
  }

  lemma {:induction false} DispatchSitesAgree(m: Machine, id: nat, actor: nat, mailbox: nat, turn: nat, site: Site)
    requires site.Runtime? || DispatchConsistent(m, MailboxDispatch(actor, mailbox, turn))
    ensures Rendered(RenderDispatch(id, Methods(m, mailbox, turn)), site)
         == multiset(Calls(AuditedTurns(m, actor, turn)))[site]
  {
    var methods, turns := Methods(m, mailbox, turn), AuditedTurns(m, actor, turn);
    DispatchSites(id, methods, site);
    CallsCount(methods, site);
    CallsCount(turns, site);
    if site.Internal? { DispatchAgreesExactly(m, actor, mailbox, turn); }
  }

  /** Every runtime site, and every internal one of a consistent dispatch, is rendered as often as
      the auditor allows. */
  lemma {:induction false} InstructionSitesAgree(m: Machine, i: Instruction, site: Site)
    requires site.Runtime? || DispatchConsistent(m, i.operation)
    ensures Rendered(RenderInstruction(m, i), site) == Audited(m, i.operation, site)
  {
    match i.operation
    case Straight | ActorCommit(_, _) => RenderedOne(Code(i.id, 0), site);
    case ActorReplyResolve =>
    case CheckedInteger | CheckedConvert | ActorReserve(_, _) | MailboxReceive(_, _) => GuardedSites(i.id, site);
    case ActorReplyRequest(_, _, _, turn) => ReplySites(i.id, turn, site);
    case MailboxDispatch(actor, mailbox, turn) => DispatchSitesAgree(m, i.id, actor, mailbox, turn, site);
    case Call(f) => RenderedOne(CallFunction(i.id, f), site);
    case RuntimeCall(x) => RenderedOne(CallIntrinsic(i.id, x), site);
    case TestAssert => AssertSites(i.id, site);
  }

  // ---- whole functions ----

  lemma {:induction false} RenderedConcat(g: nat -> seq<Line>, h: nat -> nat, n: nat, site: Site)
    requires forall k: nat :: k < n ==> h(k) == Rendered(g(k), site)
    ensures Rendered(Concat(g, n), site) == Sum(h, n)
  {
    if n > 0 {
      RenderedConcat(g, h, n - 1, site);
      RenderedAppend(Concat(g, n - 1), g(n - 1), site);
    }
  }

  function InstructionAudit(m: Machine, instructions: seq<Instruction>, site: Site): nat -> nat
  {
    (k: nat) => if k < |instructions| then Audited(m, instructions[k].operation, site) else 0
  }

  function AuditedBody(m: Machine, instructions: seq<Instruction>, site: Site): nat
  {
    Sum(InstructionAudit(m, instructions, site), |instructions|)
  }

  function AuditedBlock(m: Machine, b: Block, site: Site): nat
  {
    AuditedBody(m, b.instructions, site)
    + One(b.terminator.TailCall? && site == Internal(b.terminator.callee, TailBranch))
  }

  function BlockAudit(m: Machine, blocks: seq<Block>, site: Site): nat -> nat
  {
    (k: nat) => if k < |blocks| then AuditedBlock(m, blocks[k], site) else 0
  }

  function AuditedBlocks(m: Machine, blocks: seq<Block>, site: Site): nat
  {
    Sum(BlockAudit(m, blocks, site), |blocks|)
  }

  ghost predicate BlockConsistent(m: Machine, b: Block)
  {
    forall k :: 0 <= k < |b.instructions| ==> DispatchConsistent(m, b.instructions[k].operation)
  }

  lemma {:induction false} BodySitesAgree(m: Machine, instructions: seq<Instruction>, site: Site)
    requires site.Runtime? || forall k :: 0 <= k < |instructions| ==> DispatchConsistent(m, instructions[k].operation)
    ensures Rendered(RenderInstructions(m, instructions), site) == AuditedBody(m, instructions, site)
  {
    var g, h := Fragments(m, instructions), InstructionAudit(m, instructions, site);
    forall k: nat | k < |instructions| ensures h(k) == Rendered(g(k), site) {
      InstructionSitesAgree(m, instructions[k], site);
    }
    RenderedConcat(g, h, |instructions|, site);
  }

  lemma {:induction false} TerminatorSites(t: Terminator, site: Site)
    ensures Rendered(RenderTerminator(t), site) == One(t.TailCall? && site == Internal(t.callee, TailBranch))
  {
    var lines := RenderTerminator(t);
    RenderedOne(lines[0], site);
    if t.TailCall? {
      RenderedOne(lines[1], site);
      RenderedAppend([lines[0]], [lines[1]], site);
      assert lines == [lines[0]] + [lines[1]];
    } else {
      assert lines == [lines[0]];
    }
  }

  lemma {:induction false} BlockSitesAgree(m: Machine, b: Block, incoming: nat -> seq<Incoming>, site: Site)
    requires site.Runtime? || BlockConsistent(m, b)
    ensures Rendered(RenderBlock(m, b, incoming), site) == AuditedBlock(m, b, site)
  {
    BodySitesAgree(m, b.instructions, site);
    TerminatorSites(b.terminator, site);
    HeadBodyLast(Label(B(b.id), Phis(incoming(b.id), b.parameters)), RenderInstructions(m, b.instructions),
      RenderTerminator(b.terminator), site);
  }

  lemma {:induction false} HeadBodyLast(head: Line, body: seq<Line>, last: seq<Line>, site: Site)
    requires head.Label?
    ensures Rendered([head] + (body + last), site) == Rendered(body, site) + Rendered(last, site)
  {
    RenderedOne(head, site);
    RenderedAppend(body, last, site);
    RenderedAppend([head], body + last, site);
  }

  /** All blocks but the entry. */
  function OtherAudit(m: Machine, f: Function, site: Site): nat -> nat
  {
    (k: nat) => if k < |f.blocks| && f.blocks[k].id != f.entry then AuditedBlock(m, f.blocks[k], site) else 0
  }

  lemma {:induction false} OtherSitesAgree(m: Machine, f: Function, incoming: nat -> seq<Incoming>, k: nat, site: Site)
    requires k < |f.blocks| && (site.Runtime? || BlockConsistent(m, f.blocks[k]))
    ensures OtherAudit(m, f, site)(k) == Rendered(Others(m, f, incoming)(k), site)
  {
    if f.blocks[k].id != f.entry { BlockSitesAgree(m, f.blocks[k], incoming, site); }
  }

  lemma {:induction false} OthersSitesAgree(m: Machine, f: Function, incoming: nat -> seq<Incoming>, site: Site)
    requires site.Runtime? || forall b :: 0 <= b < |f.blocks| ==> BlockConsistent(m, f.blocks[b])
    ensures Rendered(Concat(Others(m, f, incoming), |f.blocks|), site) == Sum(OtherAudit(m, f, site), |f.blocks|)
  {
    var g, h := Others(m, f, incoming), OtherAudit(m, f, site);
    forall k: nat | k < |f.blocks| ensures h(k) == Rendered(g(k), site) { OtherSitesAgree(m, f, incoming, k, site); }
    RenderedConcat(g, h, |f.blocks|, site);
  }

  /** The text of a function calls every runtime intrinsic exactly as often as the auditor allows and,
      when its dispatches are consistent, branches to every function exactly as often as the auditor
      visits it. */
  lemma {:induction false} FunctionSitesAgree(m: Machine, f: Function, incoming: nat -> seq<Incoming>, site: Site)
    requires DenseIds(f) && f.entry < |f.blocks|
    requires site.Runtime? || forall b :: 0 <= b < |f.blocks| ==> BlockConsistent(m, f.blocks[b])
    ensures Rendered(RenderFunction(m, f, incoming), site) == AuditedBlocks(m, f.blocks, site)
  {
    BlockSitesAgree(m, f.blocks[f.entry], incoming, site);
    OthersSitesAgree(m, f, incoming, site);
    RenderedAppend(RenderBlock(m, f.blocks[f.entry], incoming), Concat(Others(m, f, incoming), |f.blocks|), site);
    SumWithout(BlockAudit(m, f.blocks, site), OtherAudit(m, f, site), |f.blocks|, f.entry);
  }
}
