/** The memory accesses of the actor operations, as the renderer emits them, and what running the
    operations then means. `Implements` fixes the otherwise free parts of `World` for one
    instruction, so that the results also hold of the rendered text. */
module ActorOperations {
  import opened Wrappers
  import opened MachineWir
  import Mailboxes

  datatype SlotEvent = Moved(state: nat) | Wrote(value: nat, during: nat)

  /** A reply slot: its state word, its outcome word, and everything written to it. */
  datatype Slot = Slot(state: nat, outcome: nat, history: seq<SlotEvent>)

  datatype Memory = Memory(
    mail: map<nat, nat>,          // mailbox tags
    slots: map<nat, Slot>,
    flags: map<Temp, bool>,       // failure flags
    loaded: map<nat, nat>,        // mailbox tags loaded, by instruction
    outcomes: map<nat, nat>)      // values returned by calls, by instruction

  function Mail(m: Memory, mailbox: nat): nat { if mailbox in m.mail then m.mail[mailbox] else 0 }
  function SlotAt(m: Memory, slot: nat): Slot { if slot in m.slots then m.slots[slot] else Slot(0, 0, []) }
  function Loaded(m: Memory, id: nat): nat { if id in m.loaded then m.loaded[id] else 0 }
  function OutcomeOf(m: Memory, id: nat): nat { if id in m.outcomes then m.outcomes[id] else 0 }
  predicate Flag(m: Memory, t: Temp) { t in m.flags && m.flags[t] }

  // ---- emitted accesses ----

  function LoadTag(m: Memory, id: nat, mailbox: nat): Memory { m.(loaded := m.loaded[id := Mail(m, mailbox)]) }
  function StoreTag(m: Memory, mailbox: nat, tag: nat): Memory { m.(mail := m.mail[mailbox := tag]) }
  function SetFlag(m: Memory, t: Temp, b: bool): Memory { m.(flags := m.flags[t := b]) }

  function StoreState(m: Memory, slot: nat, n: nat): Memory
  {
    m.(slots := m.slots[slot := Slot(n, SlotAt(m, slot).outcome, SlotAt(m, slot).history + [Moved(n)])])
  }

  function StoreOutcome(m: Memory, slot: nat, v: nat): Memory
  {
    m.(slots := m.slots[slot := Slot(SlotAt(m, slot).state, v,
      SlotAt(m, slot).history + [Wrote(v, SlotAt(m, slot).state)])])
  }

  /** cmpxchg on the state word: whether it succeeded, and the memory after it. */
  function CompareExchange(m: Memory, slot: nat, expected: nat, n: nat): (bool, Memory)
  {
    if SlotAt(m, slot).state == expected then (true, StoreState(m, slot, n)) else (false, m)
  }

  /** Part `part` of the straight-line code of an actor operation. */
  function Act(i: Instruction, part: nat, s: State<Memory>): State<Memory>
  {
    var m, id := s.memory, i.id;
    match i.operation
    case ActorReserve(result, mailbox) =>
      if part == 0 then
        var m1 := LoadTag(m, id, mailbox);
        s.(memory := SetFlag(m1, Failed(id), Loaded(m1, id) != 0))
      else s.(values := s.values[result := mailbox])
    case ActorCommit(reservation, turn) => s.(memory := StoreTag(m, Read(s, reservation), Mailboxes.Tag(turn)))
    case MailboxReceive(mailbox, turn) =>
      if part == 0 then
        var m1 := LoadTag(m, id, mailbox);
        s.(memory := SetFlag(m1, Failed(id), Loaded(m1, id) != Mailboxes.Tag(turn)))
      else s.(memory := StoreTag(m, mailbox, 0))
    case MailboxDispatch(_, mailbox, _) =>
      var m1 := LoadTag(m, id, mailbox);
      s.(memory := SetFlag(m1, Pending(id), Loaded(m1, id) != 0))
    case ActorReplyRequest(result, slot, mailbox, turn) =>
      (match part
       case 0 =>
         var (claimed, m1) := CompareExchange(StoreState(m, slot, 0), slot, 0, 1);
         var m2 := LoadTag(m1, id, mailbox);
         s.(memory := SetFlag(m2, ClaimFailed(id), !(claimed && Loaded(m2, id) == 0)))
       case 1 => s.(memory := StoreTag(m, mailbox, Mailboxes.Tag(turn)))
       case 2 =>
         var (writing, m1) := CompareExchange(m, slot, 1, 2);
         s.(memory := SetFlag(m1, WriteFailed(id), !writing))
       case 3 =>
         var m1 := StoreState(StoreOutcome(m, slot, OutcomeOf(m, id)), slot, 3);
         s.(memory := SetFlag(m1, ConsumeFailed(id), SlotAt(m1, slot).state != 3))
       case _ => State(s.values[result := SlotAt(m, slot).outcome], StoreState(m, slot, 4)))
    case _ => s
  }

  ghost predicate Implements(w: World<Memory>, i: Instruction)
  {
    && (forall part, s :: w.act(i.id, part, s) == Act(i, part, s))
    && (forall t: Temp, s :: t.instruction == i.id ==> w.test(t, s) == Flag(s.memory, t))
    && (forall s :: w.tag(i.id, s) == Loaded(s.memory, i.id))
  }

  // ---- worlds ----

  predicate IsAt(f: Function, b: nat, k: nat, id: nat)
  {
    b < |f.blocks| && k < |f.blocks[b].instructions| && f.blocks[b].instructions[k].id == id
  }

  ghost function InstructionOf(f: Function, id: nat): Option<Instruction>
  {
    if exists b: nat, k: nat :: IsAt(f, b, k, id)
    then var b: nat, k: nat :| IsAt(f, b, k, id); Some(f.blocks[b].instructions[k])
    else None
  }

  type Call = (nat, nat, State<Memory>) -> Option<State<Memory>>
  type Runtime = (nat, Intrinsic, State<Memory>) -> Option<State<Memory>>

  /** A world for the actor operations of a function, with any calls. */
  ghost function WorldOf(f: Function, call: Call, runtime: Runtime): World<Memory>
  {
    World((id: nat, part: nat, s: State<Memory>) =>
            match InstructionOf(f, id) case None => s case Some(i) => Act(i, part, s),
          (t: Temp, s: State<Memory>) => Flag(s.memory, t),
          (id: nat, s: State<Memory>) => Loaded(s.memory, id), call, runtime)
  }

  /** All actor operations of a function can have their emitted accesses as their meaning at once,
      whatever the calls do. */
  lemma {:induction false} WorldImplements(f: Function, call: Call, runtime: Runtime, b: nat, k: nat)
    requires UniqueIds(f) && b < |f.blocks| && k < |f.blocks[b].instructions|
    ensures Implements(WorldOf(f, call, runtime), f.blocks[b].instructions[k])
  {
    var i := f.blocks[b].instructions[k];
    assert IsAt(f, b, k, i.id);
    assert InstructionOf(f, i.id) == Some(i);
  }

  // ---- mailboxes ----

  /** Reserve tests the mailbox and does not mark it. */
  lemma {:induction false} ReserveTests(w: World<Memory>, i: Instruction, s: State<Memory>)
    requires Implements(w, i) && i.operation.ActorReserve?
    ensures var e := ExecGuarded(w, i.id, s);
      if Mail(s.memory, i.operation.mailbox) == 0
      then e.Next? && e.s.memory.mail == s.memory.mail && Read(e.s, i.operation.result) == i.operation.mailbox
      else e.Stop? && e.outcome == Trap(w, i.id, FatalIntrinsic, Act(i, 0, s))
  {
  }

  /** Committing through the reservation stores the turn's tag in the mailbox it was taken for. */
  lemma {:induction false} ReserveThenCommit(
      w: World<Memory>, m: Machine, r: Instruction, c: Instruction, s: State<Memory>, rounds: nat)
    requires Implements(w, r) && Implements(w, c) && r.operation.ActorReserve? && c.operation.ActorCommit?
    requires c.operation.reservation == r.operation.result && Mail(s.memory, r.operation.mailbox) == 0
    ensures var e := ExecAll(w, m, [r, c], s, rounds);
      e.Next? && e.s.memory.mail == s.memory.mail[r.operation.mailbox := Mailboxes.Tag(c.operation.turn)]
  {
    ReserveTests(w, r, s);
    var step, s1 := Effects(w, m, [r, c], rounds), ExecGuarded(w, r.id, s).s;
    assert InTurn(step, 0, s) == Next(s);
    assert InTurn(step, 1, s) == step(0, s) == Exec(w, m, r, s, rounds) == Next(s1);
    assert InTurn(step, 2, s) == step(1, s1) == Exec(w, m, c, s1, rounds) == Next(Act(c, 0, s1));
  }

  /** Receive passes exactly on its own turn's tag, and then empties the mailbox. */
  lemma {:induction false} ReceiveMatches(w: World<Memory>, i: Instruction, s: State<Memory>)
    requires Implements(w, i) && i.operation.MailboxReceive?
    ensures var e := ExecGuarded(w, i.id, s);
      if Mail(s.memory, i.operation.mailbox) == Mailboxes.Tag(i.operation.turn)
      then e.Next? && e.s.memory.mail == s.memory.mail[i.operation.mailbox := 0]
      else e.Stop? && e.outcome == Trap(w, i.id, FatalIntrinsic, Act(i, 0, s))
  {
  }

  /** A dispatch that falls through has found its mailbox empty, whatever its turns did. */
  lemma {:induction false} DispatchFallsThroughEmpty(
      w: World<Memory>, i: Instruction, methods: seq<nat>, s: State<Memory>, rounds: nat)
    requires Implements(w, i) && i.operation.MailboxDispatch? && |methods| > 0
    ensures var e := ExecDispatch(w, i.id, methods, s, rounds);
      e.Next? ==> Mail(e.s.memory, i.operation.mailbox) == 0
    decreases rounds
  {
    if rounds > 0 {
      var s1 := w.act(i.id, 0, s);
      assert s1 == Act(i, 0, s);
      if w.test(Pending(i.id), s1) {
        var c := w.call(i.id, Selected(methods, w.tag(i.id, s1)), s1);
        if c.Some? { DispatchFallsThroughEmpty(w, i, methods, c.value, rounds - 1); }
      }
    }
  }

  /** A pending message goes to its own turn if there is one; otherwise the turn that runs, the first
      one, traps at its receive. */
  lemma {:induction false} DispatchReachesReceiver(
      w: World<Memory>, i: Instruction, methods: seq<nat>, s: State<Memory>, r: Instruction)
    requires Implements(w, i) && i.operation.MailboxDispatch? && |methods| > 0
    requires Mail(s.memory, i.operation.mailbox) != 0
    requires Implements(w, r)
    requires r.operation == MailboxReceive(i.operation.mailbox, Selected(methods, w.tag(i.id, w.act(i.id, 0, s))))
    ensures var scanned := w.act(i.id, 0, s);
      && w.test(Pending(i.id), scanned)
      && Mail(scanned.memory, i.operation.mailbox) == Mail(s.memory, i.operation.mailbox)
      && (ExecGuarded(w, r.id, scanned).Next? <==> Mail(s.memory, i.operation.mailbox) - 1 in methods)
  {
    var scanned := w.act(i.id, 0, s);
    assert scanned == Act(i, 0, s);
    ReceiveMatches(w, r, scanned);
  }

  // ---- the reply slot ----

  /** The state in which a reply request calls its callee. */
  function Sent(i: Instruction, s: State<Memory>): State<Memory> { Act(i, 1, Act(i, 0, s)) }

  /** Every way a reply request can go, for every callee: it traps before the call exactly when the
      mailbox is not empty, after the call exactly when the callee left the slot out of state 1, and
      otherwise returns the callee's value with the slot in state 4. */
  lemma {:induction false} ReplyOutcome(w: World<Memory>, i: Instruction, s: State<Memory>)
    requires Implements(w, i) && i.operation.ActorReplyRequest?
    ensures var op, e := i.operation, ExecReply(w, i.id, i.operation.turn, s);
      if Mail(s.memory, op.mailbox) != 0 then e.Stop? && e.outcome == Trap(w, i.id, FatalIntrinsic, Act(i, 0, s))
      else
        match w.call(i.id, op.turn, Sent(i, s))
        case None => e == Stop(LeftIn(op.turn, Sent(i, s)))
        case Some(back) =>
          var slot, v := SlotAt(back.memory, op.slot), OutcomeOf(back.memory, i.id);
          if slot.state != 1 then e == Stop(Trap(w, i.id, FatalIntrinsic, Act(i, 2, back)))
          else
            && e.Next? && Read(e.s, op.result) == v && e.s.memory.mail == back.memory.mail
            && SlotAt(e.s.memory, op.slot) == Slot(4, v, slot.history + [Moved(2), Wrote(v, 2), Moved(3), Moved(4)])
    ensures var before, sent := SlotAt(s.memory, i.operation.slot), SlotAt(Sent(i, s).memory, i.operation.slot);
      sent.state == 1 && sent.history == before.history + [Moved(0), Moved(1)]
    ensures Mail(Sent(i, s).memory, i.operation.mailbox) == Mailboxes.Tag(i.operation.turn)
  {
    var id, op := i.id, i.operation;
    var claimed := w.act(id, 0, s);
    assert claimed == Act(i, 0, s);
    ReplyClaims(i, s);
    if Mail(s.memory, op.mailbox) == 0 {
      assert w.act(id, 1, claimed) == Sent(i, s);
      match w.call(id, op.turn, Sent(i, s))
      case None =>
      case Some(back) => ReplyFinishes(w, i, back);
    }
  }

  lemma {:induction false} ReplyClaims(i: Instruction, s: State<Memory>)
    requires i.operation.ActorReplyRequest?
    ensures Flag(Act(i, 0, s).memory, ClaimFailed(i.id)) <==> Mail(s.memory, i.operation.mailbox) != 0
    ensures var before, sent := SlotAt(s.memory, i.operation.slot), SlotAt(Sent(i, s).memory, i.operation.slot);
      sent.state == 1 && sent.history == before.history + [Moved(0), Moved(1)]
    ensures Mail(Sent(i, s).memory, i.operation.mailbox) == Mailboxes.Tag(i.operation.turn)
  {
  }

  /** From the callee's return to the end. */
  lemma {:induction false} ReplyFinishes(w: World<Memory>, i: Instruction, back: State<Memory>)
    requires Implements(w, i) && i.operation.ActorReplyRequest?
    ensures var op, writing := i.operation, w.act(i.id, 2, back);
      var written := w.act(i.id, 3, writing);
      var slot, v := SlotAt(back.memory, op.slot), OutcomeOf(back.memory, i.id);
      && writing == Act(i, 2, back) && (w.test(WriteFailed(i.id), writing) <==> slot.state != 1)
      && (slot.state == 1 ==>
            var last := w.act(i.id, 4, written);
            && !w.test(ConsumeFailed(i.id), written)
            && Read(last, op.result) == v && last.memory.mail == back.memory.mail
            && SlotAt(last.memory, op.slot) == Slot(4, v, slot.history + [Moved(2), Wrote(v, 2), Moved(3), Moved(4)]))
  {
    var writing := w.act(i.id, 2, back);
    assert writing == Act(i, 2, back);
    var written := w.act(i.id, 3, writing);
    assert written == Act(i, 3, writing);
    var last := w.act(i.id, 4, written);
    assert last == Act(i, 4, written);
    var h := SlotAt(back.memory, i.operation.slot).history;
    var v := OutcomeOf(back.memory, i.id);
    assert h + [Moved(2)] + [Wrote(v, 2)] + [Moved(3)] + [Moved(4)] == h + [Moved(2), Wrote(v, 2), Moved(3), Moved(4)];
  }

  /** Exactly once: when the callee does not touch the caller's slot, a reply request that does not
      trap moves it through 0, 1, 2, 3, 4 and writes the outcome once, in state 2. */
  lemma {:induction false} ReplyExactlyOnce(w: World<Memory>, i: Instruction, s: State<Memory>, back: State<Memory>)
    requires Implements(w, i) && i.operation.ActorReplyRequest? && ExecReply(w, i.id, i.operation.turn, s).Next?
    requires w.call(i.id, i.operation.turn, Sent(i, s)) == Some(back)
    requires SlotAt(back.memory, i.operation.slot) == SlotAt(Sent(i, s).memory, i.operation.slot)
    ensures var t, v, slot := ExecReply(w, i.id, i.operation.turn, s).s, OutcomeOf(back.memory, i.id), i.operation.slot;
      && Read(t, i.operation.result) == v
      && SlotAt(t.memory, slot) == Slot(4, v,
           SlotAt(s.memory, slot).history + [Moved(0), Moved(1), Moved(2), Wrote(v, 2), Moved(3), Moved(4)])
  {
    ReplyOutcome(w, i, s);
    SixEvents(SlotAt(s.memory, i.operation.slot).history, OutcomeOf(back.memory, i.id));
  }

  lemma {:induction false} SixEvents(h: seq<SlotEvent>, v: nat)
    ensures h + [Moved(0), Moved(1)] + [Moved(2), Wrote(v, 2), Moved(3), Moved(4)]
         == h + [Moved(0), Moved(1), Moved(2), Wrote(v, 2), Moved(3), Moved(4)]
  {
  }

  // ---- no second resolution ----

  /** What the emitted code does to a slot. */
  datatype SlotAction = Init | Claim | BeginWrite | Write(value: nat) | Publish | Close

  /** Whether the action succeeded, and the memory after it. */
  function Perform(m: Memory, slot: nat, a: SlotAction): (bool, Memory)
  {
    match a
    case Init => (true, StoreState(m, slot, 0))
    case Claim => CompareExchange(m, slot, 0, 1)
    case BeginWrite => CompareExchange(m, slot, 1, 2)
    case Write(v) => (true, StoreOutcome(m, slot, v))
    case Publish => (true, StoreState(m, slot, 3))
    case Close => (true, StoreState(m, slot, 4))
  }

  /** The parts of a reply request are these actions, and its failure flags their results. */
  lemma {:induction false} ReplyPerforms(i: Instruction, s: State<Memory>)
    requires i.operation.ActorReplyRequest?
    ensures var slot, m := i.operation.slot, s.memory;
      && Act(i, 0, s).memory.slots == Perform(Perform(m, slot, Init).1, slot, Claim).1.slots
      && Perform(Perform(m, slot, Init).1, slot, Claim).0
      && Act(i, 1, s).memory.slots == m.slots
      && Act(i, 2, s).memory.slots == Perform(m, slot, BeginWrite).1.slots
      && (Flag(Act(i, 2, s).memory, WriteFailed(i.id)) <==> !Perform(m, slot, BeginWrite).0)
      && Act(i, 3, s).memory.slots == Perform(Perform(m, slot, Write(OutcomeOf(m, i.id))).1, slot, Publish).1.slots
      && Act(i, 4, s).memory.slots == Perform(m, slot, Close).1.slots
  {
  }

  /** How many of the attempts to resolve the slot succeed, in any order of actions by anyone. */
  function Resolutions(m: Memory, slot: nat, actions: seq<SlotAction>): nat
    decreases |actions|
  {
    if |actions| == 0 then 0
    else
      var (ok, next) := Perform(m, slot, actions[0]);
      (if ok && actions[0].BeginWrite? then 1 else 0) + Resolutions(next, slot, actions[1..])
  }

  function Inits(actions: seq<SlotAction>): nat
  {
    if |actions| == 0 then 0 else (if actions[0].Init? then 1 else 0) + Inits(actions[1..])
  }

  /** Every store of 0 allows one resolution, and one more is open only in state 0 or 1: a second
      attempt on the same slot fails until the slot is made anew. */
  lemma {:induction false} ResolvedAtMostOnce(m: Memory, slot: nat, actions: seq<SlotAction>)
    ensures Resolutions(m, slot, actions) <= Inits(actions) + if SlotAt(m, slot).state <= 1 then 1 else 0
    decreases |actions|
  {
    if |actions| > 0 { ResolvedAtMostOnce(Perform(m, slot, actions[0]).1, slot, actions[1..]); }
  }
}
