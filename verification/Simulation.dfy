/** The rendered text of a function runs as MachineWir says: block arguments arrive through the phis,
    although trapping instructions split a block into several LLVM blocks. */
module Simulation {
  import opened Lists
  import opened MachineWir
  import opened Renderer
  import opened Llvm

  // ---- single steps ----

  lemma {:induction false} CodeStep<M(!new)>(w: World<M>, text: seq<Line>, at: nat, l: BlockName, s: State<M>)
    requires at < |text| && text[at].Code?
    ensures Reaches(w, text, Running(at, l, s), Running(at + 1, l, w.act(text[at].instruction, text[at].part, s)))
  {
    OneStep(w, text, Running(at, l, s), Running(at + 1, l, w.act(text[at].instruction, text[at].part, s)));
  }

  lemma {:induction false} BranchStep<M(!new)>(w: World<M>, text: seq<Line>, at: nat, l: BlockName, s: State<M>, k: nat)
    requires Distinct(text) && at < |text| && IsBranch(text[at])
    requires k < |text| && text[k] == Bare(Taken(w, text[at], s))
    ensures Reaches(w, text, Running(at, l, s), Running(k + 1, text[k].l, s))
  {
    EnterBare(text, l, k, s);
    OneStep(w, text, Running(at, l, s), Running(k + 1, text[k].l, s));
  }

  lemma {:induction false} CallStep<M(!new)>(w: World<M>, text: seq<Line>, at: nat, l: BlockName, s: State<M>)
    requires at < |text| && text[at].CallFunction?
    ensures match w.call(text[at].instruction, text[at].callee, s)
      case None => Reaches(w, text, Running(at, l, s), Halted(LeftIn(text[at].callee, s)))
      case Some(back) => Reaches(w, text, Running(at, l, s), Running(at + 1, l, back))
  {
    match w.call(text[at].instruction, text[at].callee, s)
    case None => OneStep(w, text, Running(at, l, s), Halted(LeftIn(text[at].callee, s)));
    case Some(back) => OneStep(w, text, Running(at, l, s), Running(at + 1, l, back));
  }

  lemma {:induction false} IntrinsicStep<M(!new)>(w: World<M>, text: seq<Line>, at: nat, l: BlockName, s: State<M>)
    requires at < |text| && text[at].CallIntrinsic?
    ensures match w.runtime(text[at].instruction, text[at].intrinsic, s)
      case None => Reaches(w, text, Running(at, l, s), Halted(LeftBy(text[at].intrinsic, s)))
      case Some(back) => Reaches(w, text, Running(at, l, s), Running(at + 1, l, back))
  {
    match w.runtime(text[at].instruction, text[at].intrinsic, s)
    case None => OneStep(w, text, Running(at, l, s), Halted(LeftBy(text[at].intrinsic, s)));
    case Some(back) => OneStep(w, text, Running(at, l, s), Running(at + 1, l, back));
  }

  lemma {:induction false} TrapRuns<M(!new)>(w: World<M>, text: seq<Line>, at: nat, l: BlockName, s: State<M>)
    requires at + 1 < |text| && text[at].CallIntrinsic? && text[at + 1].UnreachableLine?
    ensures Reaches(w, text, Running(at, l, s), Halted(Trap(w, text[at].instruction, text[at].intrinsic, s)))
  {
    IntrinsicStep(w, text, at, l, s);
    match w.runtime(text[at].instruction, text[at].intrinsic, s)
    case None =>
    case Some(back) =>
      OneStep(w, text, Running(at + 1, l, back), Halted(Undefined));
      Then(w, text, Running(at, l, s), Running(at + 1, l, back), Halted(Undefined));
  }

  // ---- fragments ----

  /** Running a fragment from its start has the given effect; it leaves control at its end, in the
      block named `out`. */
  ghost predicate Runs<M(!new)>(w: World<M>, text: seq<Line>, c: Cpu<M>, end: nat, out: BlockName, e: Effect<M>)
  {
    match e
    case Next(s) => Reaches(w, text, c, Running(end, out, s))
    case Stop(o) => Reaches(w, text, c, Halted(o))
    case Unfinished => true
  }

  lemma {:induction false} RunsAfter<M(!new)>(
      w: World<M>, text: seq<Line>, c: Cpu<M>, d: Cpu<M>, end: nat, out: BlockName, e: Effect<M>)
    requires Reaches(w, text, c, d) && Runs(w, text, d, end, out, e)
    ensures Runs(w, text, c, end, out, e)
  {
    match e
    case Next(s) => Then(w, text, c, d, Running(end, out, s));
    case Stop(o) => Then(w, text, c, d, Halted(o));
    case Unfinished =>
  }

  lemma {:induction false} FailureRuns<M(!new)>(
      w: World<M>, text: seq<Line>, at: nat, l: BlockName, s: State<M>, id: nat, test: Temp, fail: Part, ok: Part)
    requires Distinct(text) && Sub(text, at, RenderFailure(id, test, fail, ok))
    ensures if w.test(test, s) then Reaches(w, text, Running(at, l, s), Halted(Trap(w, id, FatalIntrinsic, s)))
            else Reaches(w, text, Running(at, l, s), Running(at + 5, I(id, ok), s))
  {
    var lines := RenderFailure(id, test, fail, ok);
    SubAt(text, at, lines, 0);
    SubAt(text, at, lines, 1);
    SubAt(text, at, lines, 2);
    SubAt(text, at, lines, 3);
    SubAt(text, at, lines, 4);
    if w.test(test, s) {
      BranchStep(w, text, at, l, s, at + 1);
      TrapRuns(w, text, at + 2, I(id, fail), s);
      Then(w, text, Running(at, l, s), Running(at + 2, I(id, fail), s), Halted(Trap(w, id, FatalIntrinsic, s)));
    } else {
      BranchStep(w, text, at, l, s, at + 4);
    }
  }

  /** A failure test in front of a continuation. */
  lemma {:induction false} FailureThen<M(!new)>(
      w: World<M>, text: seq<Line>, at: nat, l: BlockName, s: State<M>, id: nat, test: Temp,
      fail: Part, ok: Part, end: nat, out: BlockName, e: Effect<M>)
    requires Distinct(text) && Sub(text, at, RenderFailure(id, test, fail, ok))
    requires if w.test(test, s) then e == Stop(Trap(w, id, FatalIntrinsic, s))
             else Runs(w, text, Running(at + 5, I(id, ok), s), end, out, e)
    ensures Runs(w, text, Running(at, l, s), end, out, e)
  {
    FailureRuns(w, text, at, l, s, id, test, fail, ok);
    if !w.test(test, s) { RunsAfter(w, text, Running(at, l, s), Running(at + 5, I(id, ok), s), end, out, e); }
  }

  /** Straight-line code in front of a continuation. */
  lemma {:induction false} CodeThen<M(!new)>(
      w: World<M>, text: seq<Line>, at: nat, l: BlockName, s: State<M>, id: nat, part: nat,
      end: nat, out: BlockName, e: Effect<M>)
    requires at < |text| && text[at] == Code(id, part)
    requires Runs(w, text, Running(at + 1, l, w.act(id, part, s)), end, out, e)
    ensures Runs(w, text, Running(at, l, s), end, out, e)
  {
    CodeStep(w, text, at, l, s);
    RunsAfter(w, text, Running(at, l, s), Running(at + 1, l, w.act(id, part, s)), end, out, e);
  }

  lemma {:induction false} GuardedRuns<M(!new)>(
      w: World<M>, text: seq<Line>, at: nat, l: BlockName, s: State<M>, id: nat)
    requires Distinct(text) && Sub(text, at, [Code(id, 0)] + RenderFailure(id, Failed(id), Fail, Ok) + [Code(id, 1)])
    ensures Runs(w, text, Running(at, l, s), at + 7, I(id, Ok), ExecGuarded(w, id, s))
  {
    SubSplit(text, at, [Code(id, 0)] + RenderFailure(id, Failed(id), Fail, Ok), [Code(id, 1)]);
    SubSplit(text, at, [Code(id, 0)], RenderFailure(id, Failed(id), Fail, Ok));
    SubAt(text, at, [Code(id, 0)], 0);
    SubAt(text, at + 6, [Code(id, 1)], 0);
    var s1, e := w.act(id, 0, s), ExecGuarded(w, id, s);
    if !w.test(Failed(id), s1) { CodeStep(w, text, at + 6, I(id, Ok), s1); }
    FailureThen(w, text, at + 1, l, s1, id, Failed(id), Fail, Ok, at + 7, I(id, Ok), e);
    CodeThen(w, text, at, l, s, id, 0, at + 7, I(id, Ok), e);
  }

  lemma {:induction false} AssertRuns<M(!new)>(
      w: World<M>, text: seq<Line>, at: nat, l: BlockName, s: State<M>, id: nat)
    requires Distinct(text) && Sub(text, at, RenderAssert(id))
    ensures Runs(w, text, Running(at, l, s), at + 6, I(id, Ok), ExecAssert(w, id, s))
  {
    var lines := RenderAssert(id);
    SubAt(text, at, lines, 0);
    SubAt(text, at, lines, 1);
    SubAt(text, at, lines, 2);
    SubAt(text, at, lines, 3);
    SubAt(text, at, lines, 4);
    SubAt(text, at, lines, 5);
    var s1, e := w.act(id, 0, s), ExecAssert(w, id, s);
    if w.test(Assertion(id), s1) {
      BranchStep(w, text, at + 1, l, s1, at + 5);
    } else {
      BranchStep(w, text, at + 1, l, s1, at + 2);
      TrapRuns(w, text, at + 3, I(id, AssertFail), s1);
      RunsAfter(w, text, Running(at + 1, l, s1), Running(at + 3, I(id, AssertFail), s1), at + 6, I(id, Ok), e);
    }
    CodeThen(w, text, at, l, s, id, 0, at + 6, I(id, Ok), e);
  }

  lemma {:induction false} CallRuns<M(!new)>(
      w: World<M>, text: seq<Line>, at: nat, l: BlockName, s: State<M>, id: nat, callee: nat)
    requires at < |text| && text[at] == CallFunction(id, callee)
    ensures Runs(w, text, Running(at, l, s), at + 1, l, ExecCall(w, id, callee, s))
  {
    CallStep(w, text, at, l, s);
  }

  /** The three tests of a reply request, from the last to the first. */
  lemma {:induction false} ReplyRuns<M(!new)>(
      w: World<M>, text: seq<Line>, at: nat, l: BlockName, s: State<M>, id: nat, turn: nat)
    requires Distinct(text) && Sub(text, at, RenderReply(id, turn))
    ensures Runs(w, text, Running(at, l, s), at + |RenderReply(id, turn)|, I(id, Ok), ExecReply(w, id, turn, s))
  {
    var claim, write, consume := RenderFailure(id, ClaimFailed(id), ClaimFail, ClaimOk),
      RenderFailure(id, WriteFailed(id), WriteFail, WriteOk),
      RenderFailure(id, ConsumeFailed(id), ConsumeFail, ConsumeOk);
    var last := [Code(id, 4), Br(I(id, Ok)), Bare(I(id, Ok))];
    var middle := [Code(id, 1), CallFunction(id, turn), Code(id, 2)];
    SubSplit(text, at, [Code(id, 0)] + claim, middle + write + ([Code(id, 3)] + consume + last));
    SubSplit(text, at, [Code(id, 0)], claim);
    SubSplit(text, at + 6, middle + write, [Code(id, 3)] + consume + last);
    SubSplit(text, at + 6, middle, write);
    SubSplit(text, at + 14, [Code(id, 3)] + consume, last);
    SubSplit(text, at + 14, [Code(id, 3)], consume);
    SubAt(text, at, [Code(id, 0)], 0);
    SubAt(text, at + 6, middle, 0);
    SubAt(text, at + 6, middle, 1);
    SubAt(text, at + 6, middle, 2);
    SubAt(text, at + 14, [Code(id, 3)], 0);
    var end, e, claimed := at + 23, ExecReply(w, id, turn, s), w.act(id, 0, s);
    if !w.test(ClaimFailed(id), claimed) {
      var sent := w.act(id, 1, claimed);
      if w.call(id, turn, sent).Some? {
        var back := w.call(id, turn, sent).value;
        ReplyFinish(w, text, at + 8, I(id, ClaimOk), back, id, end, e);
        CallStep(w, text, at + 7, I(id, ClaimOk), sent);
        RunsAfter(w, text, Running(at + 7, I(id, ClaimOk), sent), Running(at + 8, I(id, ClaimOk), back), end, I(id, Ok),
          e);
      } else {
        CallStep(w, text, at + 7, I(id, ClaimOk), sent);
      }
      CodeThen(w, text, at + 6, I(id, ClaimOk), claimed, id, 1, end, I(id, Ok), e);
    }
    FailureThen(w, text, at + 1, l, claimed, id, ClaimFailed(id), ClaimFail, ClaimOk, end, I(id, Ok), e);
    CodeThen(w, text, at, l, s, id, 0, end, I(id, Ok), e);
  }

  /** The part of a reply request after the call. */
  function AfterCall<M>(w: World<M>, id: nat, back: State<M>): Effect<M>
  {
    var writing := w.act(id, 2, back);
    if w.test(WriteFailed(id), writing) then Stop(Trap(w, id, FatalIntrinsic, writing))
    else
      var written := w.act(id, 3, writing);
      if w.test(ConsumeFailed(id), written) then Stop(Trap(w, id, FatalIntrinsic, written))
      else Next(w.act(id, 4, written))
  }

  lemma {:induction false} ReplyFinish<M(!new)>(
      w: World<M>, text: seq<Line>, at: nat, l: BlockName, back: State<M>, id: nat, end: nat, e: Effect<M>)
    requires Distinct(text) && end == at + 15 && e == AfterCall(w, id, back)
    requires at < |text| && text[at] == Code(id, 2)
    requires Sub(text, at + 1, RenderFailure(id, WriteFailed(id), WriteFail, WriteOk))
    requires at + 6 < |text| && text[at + 6] == Code(id, 3)
    requires Sub(text, at + 7, RenderFailure(id, ConsumeFailed(id), ConsumeFail, ConsumeOk))
    requires Sub(text, at + 12, [Code(id, 4), Br(I(id, Ok)), Bare(I(id, Ok))])
    ensures Runs(w, text, Running(at, l, back), end, I(id, Ok), e)
  {
    var last := [Code(id, 4), Br(I(id, Ok)), Bare(I(id, Ok))];
    SubAt(text, at + 12, last, 0);
    SubAt(text, at + 12, last, 1);
    SubAt(text, at + 12, last, 2);
    var writing := w.act(id, 2, back);
    var written := w.act(id, 3, writing);
    var done := w.act(id, 4, written);
    if !w.test(WriteFailed(id), writing) {
      if !w.test(ConsumeFailed(id), written) {
        BranchStep(w, text, at + 13, I(id, ConsumeOk), done, at + 14);
        CodeThen(w, text, at + 12, I(id, ConsumeOk), written, id, 4, end, I(id, Ok), e);
      }
      FailureThen(w, text, at + 7, I(id, WriteOk), written, id, ConsumeFailed(id), ConsumeFail, ConsumeOk, end,
        I(id, Ok), e);
      CodeThen(w, text, at + 6, I(id, WriteOk), writing, id, 3, end, I(id, Ok), e);
    }
    FailureThen(w, text, at + 1, l, writing, id, WriteFailed(id), WriteFail, WriteOk, end, I(id, Ok), e);
    CodeThen(w, text, at, l, back, id, 2, end, I(id, Ok), e);
  }

  // ---- dispatch ----

  /** The switch picks the block of the selected turn. */
  lemma {:induction false} SwitchSelects(id: nat, methods: seq<nat>, default: nat, tag: nat)
    ensures SwitchTarget(TurnCases(id, methods), I(id, CallTurn(default)), tag)
         == I(id, CallTurn(if tag > 0 && tag - 1 in methods then tag - 1 else default))
  {
    if |methods| > 0 && Tag(methods[0]) != tag { SwitchSelects(id, methods[1..], default, tag); }
  }

  /** The lines of a turn's block. */
  predicate TurnAt(text: seq<Line>, at: nat, name: BlockName, id: nat, turn: nat)
  {
    at + 2 < |text| && text[at] == Bare(name) && text[at + 1] == CallFunction(id, turn)
    && text[at + 2] == Br(I(id, Scan))
  }

  lemma {:induction false} TurnLines(text: seq<Line>, at: nat, part: Part, id: nat, turn: nat)
    requires Sub(text, at, RenderTurn(id, part, turn))
    ensures TurnAt(text, at, I(id, part), id, turn)
  {
    var lines := RenderTurn(id, part, turn);
    SubAt(text, at, lines, 0);
    SubAt(text, at, lines, 1);
    SubAt(text, at, lines, 2);
  }

  /** Where the block of the k-th turn stands. */
  lemma {:induction false} TurnPosition(text: seq<Line>, at: nat, id: nat, methods: seq<nat>, k: nat)
    requires Sub(text, at, RenderTurns(id, methods)) && k < |methods|
    ensures TurnAt(text, at + 3 * k, I(id, CallTurn(methods[k])), id, methods[k])
    decreases |methods|
  {
    SubSplit(text, at, RenderTurn(id, CallTurn(methods[0]), methods[0]), RenderTurns(id, methods[1..]));
    if k == 0 {
      TurnLines(text, at, CallTurn(methods[0]), id, methods[0]);
    } else {
      TurnPosition(text, at + 3, id, methods[1..], k - 1);
    }
  }

  /** The lines of a dispatch: the scan, the selection if there is a choice, and a block for every
      turn that leads back to the scan. */
  ghost predicate DispatchAt(text: seq<Line>, at: nat, end: nat, id: nat, methods: seq<nat>)
  {
    && at + 7 < end <= |text|
    && text[at] == Br(I(id, Scan)) && text[at + 1] == Bare(I(id, Scan)) && text[at + 2] == Code(id, 0)
    && text[at + 3] == BrIf(Pending(id), I(id, if |methods| == 1 then Dispatch else SelectTurn), I(id, Ok))
    && text[end - 1] == Bare(I(id, Ok))
    && if |methods| == 1 then TurnAt(text, at + 4, I(id, Dispatch), id, methods[0])
       else
         && |methods| > 0 && text[at + 4] == Bare(I(id, SelectTurn))
         && text[at + 5] == SwitchTag(id, TurnCases(id, methods), I(id, CallTurn(methods[0])))
         && forall turn :: turn in methods ==> exists k: nat :: TurnAt(text, k, I(id, CallTurn(turn)), id, turn)
  }

  lemma {:induction false} DispatchParts(text: seq<Line>, at: nat, id: nat, methods: seq<nat>)
    requires |methods| > 0 && Sub(text, at, RenderDispatch(id, methods))
    ensures DispatchAt(text, at, at + |RenderDispatch(id, methods)|, id, methods)
  {
    var lines := RenderDispatch(id, methods);
    var head := lines[..4];
    var select := [Bare(I(id, SelectTurn)), SwitchTag(id, TurnCases(id, methods), I(id, CallTurn(methods[0])))];
    var body := if |methods| == 1 then RenderTurn(id, Dispatch, methods[0]) else select + RenderTurns(id, methods);
    assert lines == head + body + [Bare(I(id, Ok))];
    SubSplit(text, at, head + body, [Bare(I(id, Ok))]);
    SubSplit(text, at, head, body);
    SubAt(text, at, head, 0);
    SubAt(text, at, head, 1);
    SubAt(text, at, head, 2);
    SubAt(text, at, head, 3);
    SubAt(text, at + 4 + |body|, [Bare(I(id, Ok))], 0);
    if |methods| == 1 {
      TurnLines(text, at + 4, Dispatch, id, methods[0]);
    } else {
      SubSplit(text, at + 4, select, RenderTurns(id, methods));
      SubAt(text, at + 4, select, 0);
      SubAt(text, at + 4, select, 1);
      forall turn | turn in methods ensures exists k: nat :: TurnAt(text, k, I(id, CallTurn(turn)), id, turn) {
        var k :| 0 <= k < |methods| && methods[k] == turn;
        TurnPosition(text, at + 6, id, methods, k);
      }
    }
  }

  lemma {:induction false} SelectionTaken<M>(w: World<M>, id: nat, methods: seq<nat>, s: State<M>)
    requires |methods| > 0
    ensures Taken(w, SwitchTag(id, TurnCases(id, methods), I(id, CallTurn(methods[0]))), s)
         == I(id, CallTurn(Selected(methods, w.tag(id, s))))
  {
    SwitchSelects(id, methods, methods[0], w.tag(id, s));
  }

  lemma {:induction false} SelectionReached<M(!new)>(
      w: World<M>, text: seq<Line>, at: nat, l: BlockName, s: State<M>, id: nat, methods: seq<nat>)
    returns (k: nat)
    requires |methods| > 0 && Distinct(text) && at < |text|
    requires text[at] == SwitchTag(id, TurnCases(id, methods), I(id, CallTurn(methods[0])))
    requires forall turn :: turn in methods ==> exists k: nat :: TurnAt(text, k, I(id, CallTurn(turn)), id, turn)
    ensures k < |text| && text[k].Label? && TurnAt(text, k, text[k].l, id, Selected(methods, w.tag(id, s)))
    ensures Reaches(w, text, Running(at, l, s), Running(k + 1, text[k].l, s))
  {
    var turn := Selected(methods, w.tag(id, s));
    assert turn in methods;
    k :| TurnAt(text, k, I(id, CallTurn(turn)), id, turn);
    SelectionTaken(w, id, methods, s);
    BranchStep(w, text, at, l, s, k);
  }

  /** Whatever the tag, a pending mailbox leads to the block of the selected turn. */
  lemma {:induction false} TurnReached<M(!new)>(
      w: World<M>, text: seq<Line>, at: nat, end: nat, l: BlockName, s: State<M>, id: nat, methods: seq<nat>)
    returns (k: nat)
    requires |methods| > 0 && Distinct(text) && DispatchAt(text, at, end, id, methods) && w.test(Pending(id), s)
    ensures k < |text| && text[k].Label? && TurnAt(text, k, text[k].l, id, Selected(methods, w.tag(id, s)))
    ensures Reaches(w, text, Running(at + 3, l, s), Running(k + 1, text[k].l, s))
  {
    BranchStep(w, text, at + 3, l, s, at + 4);
    if |methods| == 1 {
      k := at + 4;
    } else {
      k := SelectionReached(w, text, at + 5, I(id, SelectTurn), s, id, methods);
      Then(w, text, Running(at + 3, l, s), Running(at + 5, I(id, SelectTurn), s), Running(k + 1, text[k].l, s));
    }
  }

  /** The scan loop, from the line after its label. */
  lemma {:induction false} ScanRuns<M(!new)>(
      w: World<M>, text: seq<Line>, at: nat, end: nat, s: State<M>, id: nat, methods: seq<nat>, rounds: nat)
    requires |methods| > 0 && Distinct(text) && DispatchAt(text, at, end, id, methods)
    ensures Runs(w, text, Running(at + 2, I(id, Scan), s), end, I(id, Ok), ExecDispatch(w, id, methods, s, rounds))
    decreases rounds
  {
    if rounds > 0 {
      var s1, e := w.act(id, 0, s), ExecDispatch(w, id, methods, s, rounds);
      if w.test(Pending(id), s1) {
        var k := TurnReached(w, text, at, end, I(id, Scan), s1, id, methods);
        var turn := Selected(methods, w.tag(id, s1));
        if w.call(id, turn, s1).Some? {
          ScanRuns(w, text, at, end, w.call(id, turn, s1).value, id, methods, rounds - 1);
        }
        TurnRuns(w, text, at, end, k, s1, id, turn, e);
        RunsAfter(w, text, Running(at + 3, I(id, Scan), s1), Running(k + 1, text[k].l, s1), end, I(id, Ok), e);
      } else {
        BranchStep(w, text, at + 3, I(id, Scan), s1, end - 1);
      }
      CodeThen(w, text, at + 2, I(id, Scan), s, id, 0, end, I(id, Ok), e);
    }
  }

  /** A turn's block calls the turn and goes back to the scan. */
  lemma {:induction false} TurnRuns<M(!new)>(
      w: World<M>, text: seq<Line>, at: nat, end: nat, k: nat, s: State<M>, id: nat, turn: nat, e: Effect<M>)
    requires Distinct(text) && at + 1 < |text| && text[at + 1] == Bare(I(id, Scan))
    requires k < |text| && text[k].Label? && TurnAt(text, k, text[k].l, id, turn)
    requires match w.call(id, turn, s)
      case None => e == Stop(LeftIn(turn, s))
      case Some(back) => Runs(w, text, Running(at + 2, I(id, Scan), back), end, I(id, Ok), e)
    ensures Runs(w, text, Running(k + 1, text[k].l, s), end, I(id, Ok), e)
  {
    var l := text[k].l;
    CallStep(w, text, k + 1, l, s);
    match w.call(id, turn, s)
    case None =>
    case Some(back) =>
      BranchStep(w, text, k + 2, l, back, at + 1);
      RunsAfter(w, text, Running(k + 2, l, back), Running(at + 2, I(id, Scan), back), end, I(id, Ok), e);
      RunsAfter(w, text, Running(k + 1, l, s), Running(k + 2, l, back), end, I(id, Ok), e);
  }

  lemma {:induction false} DispatchRuns<M(!new)>(
      w: World<M>, text: seq<Line>, at: nat, l: BlockName, s: State<M>, id: nat, methods: seq<nat>, rounds: nat)
    requires |methods| > 0 && Distinct(text) && Sub(text, at, RenderDispatch(id, methods))
    ensures Runs(w, text, Running(at, l, s),
      at + |RenderDispatch(id, methods)|, I(id, Ok), ExecDispatch(w, id, methods, s, rounds))
  {
    var end := at + |RenderDispatch(id, methods)|;
    DispatchParts(text, at, id, methods);
    ScanRuns(w, text, at, end, s, id, methods, rounds);
    BranchStep(w, text, at, l, s, at + 1);
    RunsAfter(w, text, Running(at, l, s), Running(at + 2, I(id, Scan), s), end, I(id, Ok),
      ExecDispatch(w, id, methods, s, rounds));
  }

  // ---- instructions and block bodies ----

  function LabelAfter(l: BlockName, i: Instruction): BlockName
  {
    if Splits(i.operation) then I(i.id, Ok) else l
  }

  lemma {:induction false} InstructionRuns<M(!new)>(
      w: World<M>, m: Machine, text: seq<Line>, at: nat, l: BlockName, i: Instruction, s: State<M>, rounds: nat)
    requires Distinct(text) && Sub(text, at, RenderInstruction(m, i))
    ensures Runs(w, text, Running(at, l, s), at + |RenderInstruction(m, i)|, LabelAfter(l, i), Exec(w, m, i, s, rounds))
  {
    var lines := RenderInstruction(m, i);
    match i.operation
    case Straight | ActorCommit(_, _) => SubAt(text, at, lines, 0); CodeStep(w, text, at, l, s);
    case ActorReplyResolve => NoStep(w, text, Running(at, l, s));
    case CheckedInteger | CheckedConvert | ActorReserve(_, _) | MailboxReceive(_, _) =>
      GuardedRuns(w, text, at, l, s, i.id);
    case ActorReplyRequest(_, _, _, turn) => ReplyRuns(w, text, at, l, s, i.id, turn);
    case MailboxDispatch(_, mailbox, turn) => DispatchRuns(w, text, at, l, s, i.id, Methods(m, mailbox, turn), rounds);
    case Call(f) => SubAt(text, at, lines, 0); CallRuns(w, text, at, l, s, i.id, f);
    case RuntimeCall(_) => SubAt(text, at, lines, 0); IntrinsicStep(w, text, at, l, s);
    case TestAssert => AssertRuns(w, text, at, l, s, i.id);
  }

  /** The label after the first n instructions. */
  function LabelAfterFirst(l: BlockName, instructions: seq<Instruction>, n: nat): BlockName
    requires n <= |instructions|
  {
    if n == 0 then l else LabelAfter(LabelAfterFirst(l, instructions, n - 1), instructions[n - 1])
  }

  /** The continuation names the label that ends the rendered block. */
  lemma {:induction false} ContinuationEndsBlock(l: BlockName, instructions: seq<Instruction>, n: nat)
    requires n <= |instructions|
    ensures LabelAfterFirst(l, instructions, n)
         == match LastSplit(instructions, n) case None => l case Some(i) => I(i, Ok)
  {
    if n > 0 { ContinuationEndsBlock(l, instructions, n - 1); }
  }

  function Names(l: BlockName, instructions: seq<Instruction>): nat -> BlockName
  {
    (k: nat) => if k <= |instructions| then LabelAfterFirst(l, instructions, k) else l
  }

  /** Fragment k, wherever it starts, has effect k. */
  ghost predicate FragmentRuns<M(!new)>(
      w: World<M>, text: seq<Line>, at: nat, g: nat -> seq<Line>, names: nat -> BlockName,
      step: (nat, State<M>) -> Effect<M>, k: nat)
  {
    forall s ::
      Runs(w, text, Running(at + |Concat(g, k)|, names(k), s), at + |Concat(g, k + 1)|, names(k + 1), step(k, s))
  }

  /** Fragments that run one by one run in turn. */
  lemma {:induction false} FragmentsRun<M(!new)>(
      w: World<M>, text: seq<Line>, at: nat, g: nat -> seq<Line>, names: nat -> BlockName,
      step: (nat, State<M>) -> Effect<M>, n: nat, s: State<M>)
    requires forall k: nat :: k < n ==> FragmentRuns(w, text, at, g, names, step, k)
    ensures Runs(w, text, Running(at, names(0), s), at + |Concat(g, n)|, names(n), InTurn(step, n, s))
  {
    if n == 0 {
      NoStep(w, text, Running(at, names(0), s));
    } else {
      FragmentsRun(w, text, at, g, names, step, n - 1, s);
      assert FragmentRuns(w, text, at, g, names, step, n - 1);
      match InTurn(step, n - 1, s)
      case Next(s1) =>
        RunsAfter(w, text, Running(at, names(0), s), Running(at + |Concat(g, n - 1)|, names(n - 1), s1),
          at + |Concat(g, n)|, names(n), step(n - 1, s1));
      case e =>
    }
  }

  lemma {:induction false} SubFragment(text: seq<Line>, at: nat, g: nat -> seq<Line>, k: nat, n: nat)
    requires k < n && Sub(text, at, Concat(g, n))
    ensures Sub(text, at + |Concat(g, k)|, g(k)) && |Concat(g, k + 1)| == |Concat(g, k)| + |g(k)|
    decreases n
  {
    SubSplit(text, at, Concat(g, n - 1), g(n - 1));
    if k < n - 1 { SubFragment(text, at, g, k, n - 1); }
  }

  lemma {:induction false} InstructionFragmentRuns<M(!new)>(
      w: World<M>, m: Machine, text: seq<Line>, at: nat, g: nat -> seq<Line>,
      names: nat -> BlockName, step: (nat, State<M>) -> Effect<M>, k: nat, i: Instruction, rounds: nat)
    requires Distinct(text) && Sub(text, at + |Concat(g, k)|, g(k)) && |Concat(g, k + 1)| == |Concat(g, k)| + |g(k)|
    requires g(k) == RenderInstruction(m, i) && names(k + 1) == LabelAfter(names(k), i)
    requires forall s :: step(k, s) == Exec(w, m, i, s, rounds)
    ensures FragmentRuns(w, text, at, g, names, step, k)
  {
    forall s
      ensures Runs(w, text, Running(at + |Concat(g, k)|, names(k), s),
        at + |Concat(g, k + 1)|, names(k + 1), step(k, s))
    {
      InstructionRuns(w, m, text, at + |Concat(g, k)|, names(k), i, s, rounds);
    }
  }

  lemma {:induction false} BodyRuns<M(!new)>(
      w: World<M>, m: Machine, text: seq<Line>, at: nat, l: BlockName, instructions: seq<Instruction>,
      s: State<M>, rounds: nat)
    requires Distinct(text) && Sub(text, at, RenderInstructions(m, instructions))
    ensures Runs(w, text, Running(at, l, s),
      at + |RenderInstructions(m, instructions)|, LabelAfterFirst(l, instructions, |instructions|),
      ExecAll(w, m, instructions, s, rounds))
  {
    var g, names, step := Fragments(m, instructions), Names(l, instructions), Effects(w, m, instructions, rounds);
    forall k: nat | k < |instructions| ensures FragmentRuns(w, text, at, g, names, step, k) {
      BodyFragment(w, m, text, at, l, instructions, k, rounds);
    }
    FragmentsRun(w, text, at, g, names, step, |instructions|, s);
  }

  lemma {:induction false} BodyFragment<M(!new)>(
      w: World<M>, m: Machine, text: seq<Line>, at: nat, l: BlockName, instructions: seq<Instruction>,
      k: nat, rounds: nat)
    requires Distinct(text) && Sub(text, at, RenderInstructions(m, instructions)) && k < |instructions|
    ensures FragmentRuns(w, text, at, Fragments(m, instructions),
      Names(l, instructions), Effects(w, m, instructions, rounds), k)
  {
    var g, names, step, i := Fragments(m, instructions), Names(l, instructions), Effects(w, m, instructions, rounds),
      instructions[k];
    SubFragment(text, at, g, k, |instructions|);
    assert g(k) == RenderInstruction(m, i) && names(k + 1) == LabelAfter(names(k), i);
    InstructionFragmentRuns(w, m, text, at, g, names, step, k, i, rounds);
  }
}
