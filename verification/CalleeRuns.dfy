/** What the turn that a reply request calls does to the mailbox: it takes the message with its first
    instruction and, when nothing it can reach sends to that mailbox again, leaves the mailbox empty.
    Calls run functions of the same machine, to any depth. */
module CalleeRuns {
  import opened Wrappers
  import opened MachineWir
  import opened ActorOperations
  import Mailboxes

  predicate Empty(s: State<Memory>, mailbox: nat) { Mail(s.memory, mailbox) == 0 }

  // ---- what the text of a function promises ----

  /** The instruction at k sends nothing to the mailbox. A commit directly follows its reserve, as
      validation demands, so the mailbox it goes to is known. */
  predicate SendsElsewhere(instructions: seq<Instruction>, k: nat, mailbox: nat)
    requires k < |instructions|
  {
    match instructions[k].operation
    case ActorCommit(reservation, _) => k > 0 && ReservesElsewhere(instructions[k - 1].operation, reservation, mailbox)
    case ActorReplyRequest(_, _, target, _) => target != mailbox
    case _ => true
  }

  predicate ReservesElsewhere(operation: Operation, reservation: nat, mailbox: nat)
  {
    operation.ActorReserve? && operation.result == reservation && operation.mailbox != mailbox
  }

  /** Every function the operation can call is in `fs`. */
  ghost predicate CallsWithin(m: Machine, operation: Operation, fs: set<nat>)
  {
    match operation
    case Call(f) => f in fs
    case ActorReplyRequest(_, _, _, turn) => turn in fs
    case MailboxDispatch(_, mailbox, turn) =>
      forall k :: 0 <= k < |Methods(m, mailbox, turn)| ==> Methods(m, mailbox, turn)[k] in fs
    case _ => true
  }

  ghost predicate QuietBlock(m: Machine, b: Block, mailbox: nat, fs: set<nat>)
  {
    && (forall k: nat :: k < |b.instructions| ==> SendsElsewhere(b.instructions, k, mailbox))
    && (forall k: nat :: k < |b.instructions| ==> CallsWithin(m, b.instructions[k].operation, fs))
    && (b.terminator.TailCall? ==> b.terminator.callee in fs)
  }

  ghost predicate Quiet(m: Machine, f: Function, mailbox: nat, fs: set<nat>)
  {
    forall b :: 0 <= b < |f.blocks| ==> QuietBlock(m, f.blocks[b], mailbox, fs)
  }

  /** `fs` holds, with a function, every function it can reach, and none of them sends to the mailbox. */
  ghost predicate QuietSet(m: Machine, mailbox: nat, fs: set<nat>)
  {
    forall f :: f in fs ==> f < |m.functions| && Quiet(m, m.functions[f], mailbox, fs)
  }

  // ---- what the world promises ----

  predicate Actor(operation: Operation)
  {
    operation.ActorReserve? || operation.ActorCommit? || operation.ActorReplyRequest?
    || operation.MailboxReceive? || operation.MailboxDispatch?
  }

  /** Actor operations have their emitted accesses; the others leave the mailbox alone. */
  ghost predicate Behaves(w: World<Memory>, i: Instruction, mailbox: nat)
  {
    if Actor(i.operation) then Implements(w, i)
    else forall part, s :: Mail(w.act(i.id, part, s).memory, mailbox) == Mail(s.memory, mailbox)
  }

  ghost predicate RuntimeKeeps(w: World<Memory>, mailbox: nat)
  {
    forall id, x, s :: w.runtime(id, x, s).Some? && Empty(s, mailbox) ==> Empty(w.runtime(id, x, s).value, mailbox)
  }

  ghost predicate CallsKeep(w: World<Memory>, mailbox: nat, fs: set<nat>)
  {
    forall id, f, s :: f in fs && w.call(id, f, s).Some? && Empty(s, mailbox) ==> Empty(w.call(id, f, s).value, mailbox)
  }

  // ---- one instruction ----

  lemma {:induction false} GuardedKeeps(w: World<Memory>, i: Instruction, s: State<Memory>, mailbox: nat)
    requires Behaves(w, i, mailbox) && Empty(s, mailbox)
    requires i.operation.CheckedInteger? || i.operation.CheckedConvert?
          || i.operation.ActorReserve? || i.operation.MailboxReceive?
    ensures ExecGuarded(w, i.id, s).Next? ==> Empty(ExecGuarded(w, i.id, s).s, mailbox)
  {
    match i.operation
    case ActorReserve(_, _) => ReserveTests(w, i, s);
    case MailboxReceive(_, _) => ReceiveMatches(w, i, s);
    case CheckedInteger | CheckedConvert =>
      var s1 := w.act(i.id, 0, s);
      assert Mail(s1.memory, mailbox) == 0;
      assert Mail(w.act(i.id, 1, s1).memory, mailbox) == 0;
  }

  lemma {:induction false} DispatchKeeps(
      w: World<Memory>, i: Instruction, methods: seq<nat>, s: State<Memory>, rounds: nat, mailbox: nat, fs: set<nat>)
    requires Implements(w, i) && i.operation.MailboxDispatch? && |methods| > 0 && Empty(s, mailbox)
    requires CallsKeep(w, mailbox, fs) && forall k :: 0 <= k < |methods| ==> methods[k] in fs
    ensures var e := ExecDispatch(w, i.id, methods, s, rounds); e.Next? ==> Empty(e.s, mailbox)
    decreases rounds
  {
    if rounds > 0 {
      var s1 := w.act(i.id, 0, s);
      assert s1 == Act(i, 0, s);
      if w.test(Pending(i.id), s1) {
        var turn := Selected(methods, w.tag(i.id, s1));
        var c := w.call(i.id, turn, s1);
        if c.Some? { DispatchKeeps(w, i, methods, c.value, rounds - 1, mailbox, fs); }
      }
    }
  }

  lemma {:induction false} ReplyKeeps(w: World<Memory>, i: Instruction, s: State<Memory>, mailbox: nat, fs: set<nat>)
    requires Implements(w, i) && i.operation.ActorReplyRequest? && i.operation.mailbox != mailbox
    requires i.operation.turn in fs
    requires CallsKeep(w, mailbox, fs) && Empty(s, mailbox)
    ensures var e := ExecReply(w, i.id, i.operation.turn, s); e.Next? ==> Empty(e.s, mailbox)
  {
    ReplyOutcome(w, i, s);
    assert Mail(Sent(i, s).memory, mailbox) == Mail(s.memory, mailbox);
  }

  /** The state before instruction k: empty, and just after a reserve its result names its mailbox. */
  predicate Ready(instructions: seq<Instruction>, k: nat, s: State<Memory>, mailbox: nat)
    requires k <= |instructions|
  {
    Empty(s, mailbox) && (k > 0 ==> Holds(instructions[k - 1].operation, s))
  }

  predicate Holds(operation: Operation, s: State<Memory>)
  {
    operation.ActorReserve? ==> Read(s, operation.result) == operation.mailbox
  }

  lemma {:induction false} InstructionKeeps(
      w: World<Memory>, m: Machine, instructions: seq<Instruction>, k: nat, s: State<Memory>, rounds: nat, mailbox: nat,
      fs: set<nat>)
    requires k < |instructions| && Ready(instructions, k, s, mailbox) && Behaves(w, instructions[k], mailbox)
    requires SendsElsewhere(instructions, k, mailbox) && CallsWithin(m, instructions[k].operation, fs)
    requires CallsKeep(w, mailbox, fs) && RuntimeKeeps(w, mailbox)
    ensures var e := Exec(w, m, instructions[k], s, rounds); e.Next? ==> Ready(instructions, k + 1, e.s, mailbox)
  {
    var i := instructions[k];
    match i.operation
    case ActorReserve(_, _) => ReserveTests(w, i, s);
    case CheckedInteger | CheckedConvert | MailboxReceive(_, _) => GuardedKeeps(w, i, s, mailbox);
    case ActorCommit(_, _) =>
      assert w.act(i.id, 0, s) == Act(i, 0, s);
    case ActorReplyRequest(_, _, _, _) => ReplyKeeps(w, i, s, mailbox, fs);
    case MailboxDispatch(_, target, turn) => DispatchKeeps(w, i, Methods(m, target, turn), s, rounds, mailbox, fs);
    case Straight | TestAssert => assert Mail(w.act(i.id, 0, s).memory, mailbox) == 0;
    case _ =>
  }

  // ---- a block and a run ----

  ghost predicate AllBehave(w: World<Memory>, instructions: seq<Instruction>, mailbox: nat)
  {
    forall k :: 0 <= k < |instructions| ==> Behaves(w, instructions[k], mailbox)
  }

  /** What one effect hands to the next. */
  type Assertion = (nat, State<Memory>) -> bool

  lemma {:induction false} InTurnKeeps(
      step: (nat, State<Memory>) -> Effect<Memory>, ready: Assertion, from: nat, n: nat, s: State<Memory>)
    requires from <= n
    requires forall k: nat, t :: from <= k < n && ready(k, t) && step(k, t).Next? ==> ready(k + 1, step(k, t).s)
    requires var e := InTurn(step, from, s); e.Next? ==> ready(from, e.s)
    ensures var e := InTurn(step, n, s); e.Next? ==> ready(n, e.s)
    decreases n
  {
    if n > from { InTurnKeeps(step, ready, from, n - 1, s); }
  }

  function ReadyIn(instructions: seq<Instruction>, mailbox: nat): Assertion
  {
    (k: nat, s: State<Memory>) => k <= |instructions| && Ready(instructions, k, s, mailbox)
  }

  lemma {:induction false} BodyKeeps(
      w: World<Memory>, m: Machine, b: Block, from: nat, s: State<Memory>, rounds: nat, mailbox: nat, fs: set<nat>)
    requires from <= |b.instructions| && QuietBlock(m, b, mailbox, fs) && AllBehave(w, b.instructions, mailbox)
    requires CallsKeep(w, mailbox, fs) && RuntimeKeeps(w, mailbox)
    requires var e := InTurn(Effects(w, m, b.instructions, rounds), from, s);
      e.Next? ==> Ready(b.instructions, from, e.s, mailbox)
    ensures var e := ExecAll(w, m, b.instructions, s, rounds); e.Next? ==> Empty(e.s, mailbox)
  {
    var step, ready, n := Effects(w, m, b.instructions, rounds), ReadyIn(b.instructions, mailbox), |b.instructions|;
    forall k: nat, t | from <= k < n && ready(k, t) && step(k, t).Next? ensures ready(k + 1, step(k, t).s) {
      assert SendsElsewhere(b.instructions, k, mailbox);
      InstructionKeeps(w, m, b.instructions, k, t, rounds, mailbox, fs);
    }
    InTurnKeeps(step, ready, from, n, s);
  }

  /** Control is at a block or gone, and the mailbox is empty. */
  ghost predicate Settled(r: Run<Memory>, mailbox: nat, fs: set<nat>)
  {
    match r
    case AtBlock(_, s) => Empty(s, mailbox)
    case Finished(Returned(_, s)) => Empty(s, mailbox)
    case Finished(TailCalled(callee, _, s)) => Empty(s, mailbox) && callee in fs
    case _ => true
  }

  /** Everything a run of a function needs to keep the mailbox empty. */
  ghost predicate Keeps(w: World<Memory>, m: Machine, f: Function, mailbox: nat, fs: set<nat>)
  {
    && Quiet(m, f, mailbox, fs) && CallsKeep(w, mailbox, fs) && RuntimeKeeps(w, mailbox)
    && (forall b :: 0 <= b < |f.blocks| ==> AllBehave(w, f.blocks[b].instructions, mailbox))
  }

  lemma {:induction false} LeaveSettled(m: Machine, f: Function, b: nat, s: State<Memory>, mailbox: nat, fs: set<nat>)
    requires b < |f.blocks| && QuietBlock(m, f.blocks[b], mailbox, fs) && Empty(s, mailbox)
    ensures Settled(Leave(f, f.blocks[b].terminator, s), mailbox, fs)
  {
  }

  /** An effect of the instructions that stops is no return. */
  lemma {:induction false} StopSettled(w: World<Memory>, m: Machine, i: Instruction, s: State<Memory>, rounds: nat)
    ensures var e := Exec(w, m, i, s, rounds); e.Stop? ==> !e.outcome.Returned? && !e.outcome.TailCalled?
  {
    if i.operation.MailboxDispatch? {
      DispatchStops(w, i.id, Methods(m, i.operation.mailbox, i.operation.turn), s, rounds);
    }
  }

  lemma {:induction false} DispatchStops(w: World<Memory>, id: nat, methods: seq<nat>, s: State<Memory>, rounds: nat)
    requires |methods| > 0
    ensures var e := ExecDispatch(w, id, methods, s, rounds); e.Stop? ==> e.outcome.LeftIn?
    decreases rounds
  {
    if rounds > 0 {
      var s1 := w.act(id, 0, s);
      if w.test(Pending(id), s1) {
        var c := w.call(id, Selected(methods, w.tag(id, s1)), s1);
        if c.Some? { DispatchStops(w, id, methods, c.value, rounds - 1); }
      }
    }
  }

  lemma {:induction false} BodyStops(
      w: World<Memory>, m: Machine, instructions: seq<Instruction>, n: nat, s: State<Memory>, rounds: nat)
    ensures var e := InTurn(Effects(w, m, instructions, rounds), n, s);
      e.Stop? ==> !e.outcome.Returned? && !e.outcome.TailCalled?
    decreases n
  {
    if n > 0 {
      BodyStops(w, m, instructions, n - 1, s, rounds);
      var e := InTurn(Effects(w, m, instructions, rounds), n - 1, s);
      if e.Next? && n - 1 < |instructions| { StopSettled(w, m, instructions[n - 1], e.s, rounds); }
    }
  }

  lemma {:induction false} BlockKeeps(
      w: World<Memory>, m: Machine, f: Function, b: nat, from: nat, s: State<Memory>, rounds: nat, mailbox: nat,
      fs: set<nat>)
    requires Keeps(w, m, f, mailbox, fs) && b < |f.blocks| && from <= |f.blocks[b].instructions|
    requires var e := InTurn(Effects(w, m, f.blocks[b].instructions, rounds), from, s);
      e.Next? ==> Ready(f.blocks[b].instructions, from, e.s, mailbox)
    ensures Settled(BlockStep(w, m, f, rounds)(b, s), mailbox, fs)
  {
    var block := f.blocks[b];
    var e := ExecAll(w, m, block.instructions, s, rounds);
    assert QuietBlock(m, block, mailbox, fs) && AllBehave(w, block.instructions, mailbox);
    BodyKeeps(w, m, block, from, s, rounds, mailbox, fs);
    BodyStops(w, m, block.instructions, |block.instructions|, s, rounds);
    if e.Next? { LeaveSettled(m, f, b, e.s, mailbox, fs); }
  }

  /** From an empty mailbox, any number of blocks. */
  lemma {:induction false} RunKeeps(
      w: World<Memory>, m: Machine, f: Function, b: nat, s: State<Memory>, rounds: nat, n: nat, mailbox: nat,
      fs: set<nat>)
    requires Keeps(w, m, f, mailbox, fs) && Empty(s, mailbox)
    ensures Settled(RunFrom(BlockStep(w, m, f, rounds), b, s, n), mailbox, fs)
    decreases n
  {
    if n > 0 && b < |f.blocks| {
      BlockKeeps(w, m, f, b, 0, s, rounds, mailbox, fs);
      var r := BlockStep(w, m, f, rounds)(b, s);
      if r.AtBlock? { RunKeeps(w, m, f, r.block, r.s, rounds, n - 1, mailbox, fs); }
    }
  }

  /** The function's first instruction is the receive of its own message. */
  predicate ReceivesFirst(f: Function, mailbox: nat, turn: nat)
  {
    && f.entry < |f.blocks| && |f.blocks[f.entry].instructions| > 0
    && f.blocks[f.entry].instructions[0].operation == MailboxReceive(mailbox, turn)
  }

  lemma {:induction false} FirstReceives(
      w: World<Memory>, m: Machine, f: Function, s: State<Memory>, rounds: nat, mailbox: nat, turn: nat)
    requires ReceivesFirst(f, mailbox, turn) && AllBehave(w, f.blocks[f.entry].instructions, mailbox)
    requires Mail(s.memory, mailbox) == Mailboxes.Tag(turn)
    ensures var e := InTurn(Effects(w, m, f.blocks[f.entry].instructions, rounds), 1, s);
      e.Next? && Ready(f.blocks[f.entry].instructions, 1, e.s, mailbox)
  {
    var instructions := f.blocks[f.entry].instructions;
    assert Behaves(w, instructions[0], mailbox);
    ReceiveMatches(w, instructions[0], s);
    var step := Effects(w, m, instructions, rounds);
    assert InTurn(step, 0, s) == Next(s);
    assert InTurn(step, 1, s) == step(0, s) == Exec(w, m, instructions[0], s, rounds);
  }

  /** A run that begins with its own message pending takes it, and the mailbox is empty from the end of
      the first block on. */
  lemma {:induction false} TurnEmpties(
      w: World<Memory>, m: Machine, f: Function, s: State<Memory>, rounds: nat, n: nat, mailbox: nat, turn: nat,
      fs: set<nat>)
    requires Keeps(w, m, f, mailbox, fs) && ReceivesFirst(f, mailbox, turn)
    requires Mail(s.memory, mailbox) == Mailboxes.Tag(turn) && n > 0
    ensures Settled(RunBlocks(w, m, f, s, rounds, n), mailbox, fs)
  {
    FirstReceives(w, m, f, s, rounds, mailbox, turn);
    BlockKeeps(w, m, f, f.entry, 1, s, rounds, mailbox, fs);
    var r := BlockStep(w, m, f, rounds)(f.entry, s);
    if r.AtBlock? { RunKeeps(w, m, f, r.block, r.s, rounds, n - 1, mailbox, fs); }
  }

  // ---- calls run functions ----

  /** The world of each function, by the depth of calls that are still allowed. */
  type Worlds = (nat, nat) -> World<Memory>

  /** A call of `f` can turn one memory into another: some run of it returns, after at most `hops` tail
      calls. */
  ghost predicate Returns(m: Machine, ws: Worlds, depth: nat, f: nat, before: Memory, after: Memory, hops: nat)
    decreases hops
  {
    exists values: map<nat, nat>, rounds: nat, n: nat ::
      ReturnsBy(m, ws, depth, f, State(values, before), rounds, n, after, hops)
  }

  ghost predicate ReturnsBy(
      m: Machine, ws: Worlds, depth: nat, f: nat, s: State<Memory>, rounds: nat, n: nat, after: Memory, hops: nat)
    decreases hops, 0
  {
    f < |m.functions| &&
    match RunBlocks(ws(depth, f), m, m.functions[f], s, rounds, n)
    case Finished(Returned(_, t)) => t.memory == after
    case Finished(TailCalled(g, _, t)) => hops > 0 && Returns(m, ws, depth, g, t.memory, after, hops - 1)
    case _ => false
  }

  /** Every call that comes back was a run of the callee one level down; besides the mailboxes, the
      caller may see anything. */
  ghost predicate Linked(m: Machine, ws: Worlds)
  {
    forall depth: nat, f: nat, id: nat, g: nat, s ::
      ws(depth, f).call(id, g, s).Some? ==>
        CallRuns(m, ws, depth, g, s.memory, ws(depth, f).call(id, g, s).value.memory)
  }

  ghost predicate CallRuns(m: Machine, ws: Worlds, depth: nat, g: nat, before: Memory, back: Memory)
  {
    depth > 0 && ReturnsMail(m, ws, depth - 1, g, before, back)
  }

  ghost predicate ReturnsMail(m: Machine, ws: Worlds, depth: nat, g: nat, before: Memory, back: Memory)
  {
    exists after, hops: nat :: Returns(m, ws, depth, g, before, after, hops) && back.mail == after.mail
  }

  /** Straight-line code and runtime calls leave the mailbox alone in every function of `fs`. */
  ghost predicate WorldsBehave(m: Machine, ws: Worlds, mailbox: nat, fs: set<nat>)
  {
    forall depth: nat, f: nat :: f in fs && f < |m.functions| ==> WorldBehaves(ws(depth, f), m.functions[f], mailbox)
  }

  ghost predicate WorldBehaves(w: World<Memory>, f: Function, mailbox: nat)
  {
    RuntimeKeeps(w, mailbox) && forall b :: 0 <= b < |f.blocks| ==> AllBehave(w, f.blocks[b].instructions, mailbox)
  }

  lemma {:induction false} ReturnsKeep(
      m: Machine, ws: Worlds, depth: nat, f: nat, before: Memory, after: Memory, hops: nat, mailbox: nat, fs: set<nat>)
    requires QuietSet(m, mailbox, fs) && WorldsBehave(m, ws, mailbox, fs) && f in fs
    requires forall g: nat :: g in fs ==> CallsKeep(ws(depth, g), mailbox, fs)
    requires Mail(before, mailbox) == 0 && Returns(m, ws, depth, f, before, after, hops)
    ensures Mail(after, mailbox) == 0
    decreases hops
  {
    var values, rounds, n :| ReturnsBy(m, ws, depth, f, State(values, before), rounds, n, after, hops);
    var s, w := State(values, before), ws(depth, f);
    assert WorldBehaves(w, m.functions[f], mailbox) && Keeps(w, m, m.functions[f], mailbox, fs);
    RunKeeps(w, m, m.functions[f], m.functions[f].entry, s, rounds, n, mailbox, fs);
    match RunBlocks(w, m, m.functions[f], s, rounds, n)
    case Finished(TailCalled(g, _, t)) => ReturnsKeep(m, ws, depth, g, t.memory, after, hops - 1, mailbox, fs);
    case _ =>
  }

  /** Calls to any depth keep an empty mailbox empty. */
  lemma {:induction false} CallsKeepEmpty(m: Machine, ws: Worlds, depth: nat, f: nat, mailbox: nat, fs: set<nat>)
    requires QuietSet(m, mailbox, fs) && WorldsBehave(m, ws, mailbox, fs) && Linked(m, ws)
    ensures CallsKeep(ws(depth, f), mailbox, fs)
    decreases depth
  {
    var w := ws(depth, f);
    forall id, g, s | g in fs && w.call(id, g, s).Some? && Empty(s, mailbox)
      ensures Empty(w.call(id, g, s).value, mailbox)
    {
      var back := w.call(id, g, s).value;
      assert CallRuns(m, ws, depth, g, s.memory, back.memory);
      var after, hops: nat :| Returns(m, ws, depth - 1, g, s.memory, after, hops) && back.memory.mail == after.mail;
      forall h: nat | h in fs ensures CallsKeep(ws(depth - 1, h), mailbox, fs) {
        CallsKeepEmpty(m, ws, depth - 1, h, mailbox, fs);
      }
      ReturnsKeep(m, ws, depth - 1, g, s.memory, after, hops, mailbox, fs);
    }
  }

  /** A called turn that begins with the receive of its pending message returns with the mailbox empty. */
  lemma {:induction false} TurnReturnsEmpty(
      m: Machine, ws: Worlds, depth: nat, turn: nat, before: Memory, after: Memory, hops: nat, mailbox: nat,
      fs: set<nat>)
    requires QuietSet(m, mailbox, fs) && WorldsBehave(m, ws, mailbox, fs) && Linked(m, ws) && turn in fs
    requires turn < |m.functions| && ReceivesFirst(m.functions[turn], mailbox, turn)
    requires Mail(before, mailbox) == Mailboxes.Tag(turn) && Returns(m, ws, depth, turn, before, after, hops)
    ensures Mail(after, mailbox) == 0
  {
    var values, rounds, n :| ReturnsBy(m, ws, depth, turn, State(values, before), rounds, n, after, hops);
    var s, w := State(values, before), ws(depth, turn);
    forall g: nat | g in fs ensures CallsKeep(ws(depth, g), mailbox, fs) {
      CallsKeepEmpty(m, ws, depth, g, mailbox, fs);
    }
    assert WorldBehaves(w, m.functions[turn], mailbox) && Keeps(w, m, m.functions[turn], mailbox, fs);
    assert n > 0;
    TurnEmpties(w, m, m.functions[turn], s, rounds, n, mailbox, turn, fs);
    match RunBlocks(w, m, m.functions[turn], s, rounds, n)
    case Finished(TailCalled(g, _, t)) => ReturnsKeep(m, ws, depth, g, t.memory, after, hops - 1, mailbox, fs);
    case _ =>
  }

  /** What a call of the turn comes back with. */
  lemma {:induction false} CalleeEmpties(
      m: Machine, ws: Worlds, depth: nat, caller: nat, id: nat, turn: nat, s: State<Memory>, mailbox: nat, fs: set<nat>)
    requires QuietSet(m, mailbox, fs) && WorldsBehave(m, ws, mailbox, fs) && Linked(m, ws) && turn in fs
    requires turn < |m.functions| && ReceivesFirst(m.functions[turn], mailbox, turn)
    requires Mail(s.memory, mailbox) == Mailboxes.Tag(turn) && ws(depth, caller).call(id, turn, s).Some?
    ensures Empty(ws(depth, caller).call(id, turn, s).value, mailbox)
  {
    var back := ws(depth, caller).call(id, turn, s).value.memory;
    assert CallRuns(m, ws, depth, turn, s.memory, back);
    var after, hops: nat :| Returns(m, ws, depth - 1, turn, s.memory, after, hops) && back.mail == after.mail;
    TurnReturnsEmpty(m, ws, depth - 1, turn, s.memory, after, hops, mailbox, fs);
  }

  /** After the call, a reply request leaves the mailboxes as the callee left them. */
  lemma {:induction false} ReplyEndsWithMail(w: World<Memory>, i: Instruction, s: State<Memory>)
    requires Implements(w, i) && i.operation.ActorReplyRequest? && ExecReply(w, i.id, i.operation.turn, s).Next?
    ensures Mail(Sent(i, s).memory, i.operation.mailbox) == Mailboxes.Tag(i.operation.turn)
    ensures w.call(i.id, i.operation.turn, Sent(i, s)).Some?
    ensures ExecReply(w, i.id, i.operation.turn, s).s.memory.mail
         == w.call(i.id, i.operation.turn, Sent(i, s)).value.memory.mail
  {
    ReplyOutcome(w, i, s);
  }

  /** A reply request whose turn begins with its receive, and reaches no function that sends to the
      mailbox, leaves the mailbox empty if it completes. */
  lemma {:induction false} ReplyLeavesMailboxEmpty(
      m: Machine, ws: Worlds, depth: nat, caller: nat, i: Instruction, s: State<Memory>, fs: set<nat>)
    requires i.operation.ActorReplyRequest? && Implements(ws(depth, caller), i)
    requires var op := i.operation;
      && QuietSet(m, op.mailbox, fs) && WorldsBehave(m, ws, op.mailbox, fs) && Linked(m, ws) && op.turn in fs
      && op.turn < |m.functions| && ReceivesFirst(m.functions[op.turn], op.mailbox, op.turn)
    ensures var e := ExecReply(ws(depth, caller), i.id, i.operation.turn, s);
      e.Next? ==> Empty(e.s, i.operation.mailbox)
  {
    var w, op := ws(depth, caller), i.operation;
    if ExecReply(w, i.id, op.turn, s).Next? {
      ReplyEndsWithMail(w, i, s);
      CalleeEmpties(m, ws, depth, caller, i.id, op.turn, Sent(i, s), op.mailbox, fs);
    }
  }

  // ---- such worlds exist ----

  /** Functions call each other to the given depth; a call that does not return within `n` blocks, or
      ends in a tail call, does not come back. */
  ghost function Program(m: Machine, runtime: Runtime, rounds: nat, n: nat, depth: nat, f: nat): World<Memory>
    decreases depth
  {
    var here := if f < |m.functions| then m.functions[f] else Function(0, 0, []);
    WorldOf(here, if depth == 0 then (id: nat, g: nat, s: State<Memory>) => None
      else (id: nat, g: nat, s: State<Memory>) =>
           Back(m, Program(m, runtime, rounds, n, depth - 1, g), rounds, n, id, g, s), runtime)
  }

  /** The caller sees the callee's memory and, under the call's id, its value. */
  function Back(
      m: Machine, w: World<Memory>, rounds: nat, n: nat, id: nat, g: nat, s: State<Memory>): Option<State<Memory>>
  {
    if g >= |m.functions| then None
    else
      match RunBlocks(w, m, m.functions[g], State(map[], s.memory), rounds, n)
      case Finished(Returned(Some(v), t)) => Some(s.(memory := t.memory.(outcomes := t.memory.outcomes[id := v])))
      case Finished(Returned(None, t)) => Some(s.(memory := t.memory))
      case _ => None
  }

  ghost function Programs(m: Machine, runtime: Runtime, rounds: nat, n: nat): Worlds
  {
    (depth: nat, f: nat) => Program(m, runtime, rounds, n, depth, f)
  }

  lemma {:induction false} BackRuns(
      m: Machine, runtime: Runtime, rounds: nat, n: nat, depth: nat, id: nat, g: nat, s: State<Memory>)
    requires depth > 0 && Back(m, Program(m, runtime, rounds, n, depth - 1, g), rounds, n, id, g, s).Some?
    ensures var back := Back(m, Program(m, runtime, rounds, n, depth - 1, g), rounds, n, id, g, s).value;
      CallRuns(m, Programs(m, runtime, rounds, n), depth, g, s.memory, back.memory)
  {
    var ws := Programs(m, runtime, rounds, n);
    var t := RunBlocks(ws(depth - 1, g), m, m.functions[g], State(map[], s.memory), rounds, n).outcome.s;
    assert ReturnsBy(m, ws, depth - 1, g, State(map[], s.memory), rounds, n, t.memory, 0);
    assert Returns(m, ws, depth - 1, g, s.memory, t.memory, 0);
  }

  /** The premises of the results above can be met by the real calls of any machine. */
  lemma {:induction false} ProgramsLinked(m: Machine, runtime: Runtime, rounds: nat, n: nat)
    ensures Linked(m, Programs(m, runtime, rounds, n))
  {
    var ws := Programs(m, runtime, rounds, n);
    forall depth: nat, f: nat, id: nat, g: nat, s | ws(depth, f).call(id, g, s).Some?
      ensures CallRuns(m, ws, depth, g, s.memory, ws(depth, f).call(id, g, s).value.memory)
    {
      BackRuns(m, runtime, rounds, n, depth, id, g, s);
    }
  }

  lemma {:induction false} ProgramsBehave(m: Machine, runtime: Runtime, rounds: nat, n: nat, mailbox: nat, fs: set<nat>)
    requires forall f :: f in fs && f < |m.functions| ==> UniqueIds(m.functions[f])
    requires forall id, x, s :: runtime(id, x, s).Some? && Empty(s, mailbox) ==> Empty(runtime(id, x, s).value, mailbox)
    ensures WorldsBehave(m, Programs(m, runtime, rounds, n), mailbox, fs)
  {
    var ws := Programs(m, runtime, rounds, n);
    forall depth: nat, f: nat | f in fs && f < |m.functions|
      ensures WorldBehaves(ws(depth, f), m.functions[f], mailbox)
    {
      var w, here := ws(depth, f), m.functions[f];
      forall b, k | 0 <= b < |here.blocks| && 0 <= k < |here.blocks[b].instructions|
        ensures Behaves(w, here.blocks[b].instructions[k], mailbox)
      {
        WorldImplements(here, w.call, runtime, b, k);
      }
    }
  }

  /** The same for the reply requests of a whole program, whose calls run its own functions. */
  lemma {:induction false} ProgramReplyLeavesMailboxEmpty(
      m: Machine, runtime: Runtime, rounds: nat, n: nat, depth: nat, caller: nat, b: nat, k: nat, s: State<Memory>,
      fs: set<nat>)
    requires forall f :: 0 <= f < |m.functions| ==> UniqueIds(m.functions[f])
    requires caller < |m.functions| && b < |m.functions[caller].blocks|
    requires k < |m.functions[caller].blocks[b].instructions|
    requires var op := m.functions[caller].blocks[b].instructions[k].operation;
      && op.ActorReplyRequest? && QuietSet(m, op.mailbox, fs) && op.turn in fs
      && ReceivesFirst(m.functions[op.turn], op.mailbox, op.turn)
      && forall id, x, s :: runtime(id, x, s).Some? && Empty(s, op.mailbox) ==>
            Empty(runtime(id, x, s).value, op.mailbox)
    ensures var i, w := m.functions[caller].blocks[b].instructions[k], Program(m, runtime, rounds, n, depth, caller);
      var e := Exec(w, m, i, s, rounds); e.Next? ==> Empty(e.s, i.operation.mailbox)
  {
    var i, ws := m.functions[caller].blocks[b].instructions[k], Programs(m, runtime, rounds, n);
    ProgramsLinked(m, runtime, rounds, n);
    ProgramsBehave(m, runtime, rounds, n, i.operation.mailbox, fs);
    WorldImplements(m.functions[caller], ws(depth, caller).call, runtime, b, k);
    ReplyLeavesMailboxEmpty(m, ws, depth, caller, i, s, fs);
  }
}
