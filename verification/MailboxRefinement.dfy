/** The rendered actor operations are the events of the mailbox system: each part of their code that
    touches a mailbox takes the step of one event. */
module MailboxRefinement {
  import opened MachineWir
  import opened Mailboxes
  import opened ActorOperations

  /** Memory and system agree on every tag. */
  ghost predicate SameTags(sys: System, m: Memory) { forall mailbox: nat :: Mail(m, mailbox) == TagOf(sys, mailbox) }

  /** A load leaves both as they are. */
  lemma {:induction false} SameTagsKept(sys: System, m: Memory, after: System, n: Memory)
    requires SameTags(sys, m) && after.tags == sys.tags && n.mail == m.mail
    ensures SameTags(after, n)
  {
    forall mailbox: nat ensures Mail(n, mailbox) == TagOf(after, mailbox) {
      assert Mail(m, mailbox) == TagOf(sys, mailbox);
    }
  }

  /** A store writes the same tag in both. */
  lemma {:induction false} SameTagsStored(sys: System, m: Memory, after: System, n: Memory, mailbox: nat, tag: nat)
    requires SameTags(sys, m) && after.tags == sys.tags[mailbox := tag] && n.mail == m.mail[mailbox := tag]
    ensures SameTags(after, n)
  {
    forall x: nat ensures Mail(n, x) == TagOf(after, x) { assert Mail(m, x) == TagOf(sys, x); }
  }

  /** The load and test of a reserve. */
  lemma {:induction false} ReserveRefines(sys: System, i: Instruction, s: State<Memory>, id: nat)
    requires i.operation.ActorReserve? && SameTags(sys, s.memory) && id !in sys.reservations
    ensures var v, s1 := Step(sys, Reserve(id, i.operation.mailbox, MAILBOX_FULL)), Act(i, 0, s);
      && (Flag(s1.memory, Failed(i.id)) <==> v == Trapped(MAILBOX_FULL))
      && (v.Went? ==> Reserved(v.s, id, Act(i, 1, s1), i.operation.result))
  {
    var v, s1 := Step(sys, Reserve(id, i.operation.mailbox, MAILBOX_FULL)), Act(i, 0, s);
    assert Mail(s.memory, i.operation.mailbox) == TagOf(sys, i.operation.mailbox);
    if v.Went? { SameTagsKept(sys, s.memory, v.s, Act(i, 1, s1).memory); }
  }

  /** The tags agree, and `result` holds the mailbox of the reservation. */
  ghost predicate Reserved(sys: System, id: nat, s: State<Memory>, result: nat)
  {
    SameTags(sys, s.memory) && id in sys.reservations && Read(s, result) == sys.reservations[id].mailbox
  }

  /** The store of a commit, through a register that holds the mailbox of an open reservation. */
  lemma {:induction false} CommitRefines(sys: System, i: Instruction, s: State<Memory>, id: nat)
    requires i.operation.ActorCommit? && Reserved(sys, id, s, i.operation.reservation)
    ensures SameTags(Step(sys, Commit(id, i.operation.turn)).s, Act(i, 0, s).memory)
  {
    var after, mailbox := Step(sys, Commit(id, i.operation.turn)).s, sys.reservations[id].mailbox;
    SameTagsStored(sys, s.memory, after, Act(i, 0, s).memory, mailbox, Tag(i.operation.turn));
  }

  /** The load and test of a receive. */
  lemma {:induction false} ReceiveLoadRefines(sys: System, i: Instruction, s: State<Memory>, id: nat)
    requires i.operation.MailboxReceive? && SameTags(sys, s.memory) && id !in sys.windows
    ensures var v, s1 := Step(sys, ReceiveLoad(id, i.operation.mailbox, i.operation.turn)), Act(i, 0, s);
      && (Flag(s1.memory, Failed(i.id)) <==> v == Trapped(MAILBOX_MISMATCH))
      && (v.Went? ==> Receiving(v.s, id, i, s1))
  {
    var v, s1 := Step(sys, ReceiveLoad(id, i.operation.mailbox, i.operation.turn)), Act(i, 0, s);
    assert Mail(s.memory, i.operation.mailbox) == TagOf(sys, i.operation.mailbox);
    if v.Went? { SameTagsKept(sys, s.memory, v.s, s1.memory); }
  }

  /** The tags agree, and the window is that of the receive. */
  ghost predicate Receiving(sys: System, id: nat, i: Instruction, s: State<Memory>)
    requires i.operation.MailboxReceive?
  {
    SameTags(sys, s.memory) && id in sys.windows && sys.windows[id] == Window(i.operation.mailbox, i.operation.turn)
  }

  /** The store of a receive. */
  lemma {:induction false} ReceiveStoreRefines(sys: System, i: Instruction, s: State<Memory>, id: nat)
    requires i.operation.MailboxReceive? && Receiving(sys, id, i, s)
    ensures SameTags(Step(sys, ReceiveStore(id)).s, Act(i, 1, s).memory)
  {
    SameTagsStored(sys, s.memory, Step(sys, ReceiveStore(id)).s, Act(i, 1, s).memory, i.operation.mailbox, 0);
  }

  /** A reply request admits itself like a reserve and sends like a commit. */
  lemma {:induction false} ReplyRefines(sys: System, i: Instruction, s: State<Memory>, id: nat)
    requires i.operation.ActorReplyRequest? && SameTags(sys, s.memory) && id !in sys.reservations
    ensures var v := Step(sys, Reserve(id, i.operation.mailbox, REPLY_STATE_MISMATCH));
      && (Flag(Act(i, 0, s).memory, ClaimFailed(i.id)) <==> v == Trapped(REPLY_STATE_MISMATCH))
      && (v.Went? ==> ReplySends(v.s, i, s, id))
  {
    var v := Step(sys, Reserve(id, i.operation.mailbox, REPLY_STATE_MISMATCH));
    ReplyClaims(i, s);
    ReplyMail(i, s);
    assert Mail(s.memory, i.operation.mailbox) == TagOf(sys, i.operation.mailbox);
    if v.Went? {
      var sent := Step(v.s, Commit(id, i.operation.turn)).s;
      SameTagsKept(sys, s.memory, v.s, Act(i, 0, s).memory);
      SameTagsStored(sys, s.memory, sent, Sent(i, s).memory, i.operation.mailbox, Tag(i.operation.turn));
    }
  }

  /** The tags agree after the claim, and again after the message is stored. */
  ghost predicate ReplySends(sys: System, i: Instruction, s: State<Memory>, id: nat)
    requires i.operation.ActorReplyRequest?
  {
    && SameTags(sys, Act(i, 0, s).memory) && Enabled(sys, Commit(id, i.operation.turn))
    && SameTags(Step(sys, Commit(id, i.operation.turn)).s, Sent(i, s).memory)
  }

  lemma {:induction false} ReplyMail(i: Instruction, s: State<Memory>)
    requires i.operation.ActorReplyRequest?
    ensures Act(i, 0, s).memory.mail == s.memory.mail
    ensures Sent(i, s).memory.mail == s.memory.mail[i.operation.mailbox := Tag(i.operation.turn)]
  {
  }

  /** After its message is sent, a reply request leaves the mailboxes alone. */
  lemma {:induction false} ReplyRestKeepsMail(i: Instruction, part: nat, s: State<Memory>)
    requires i.operation.ActorReplyRequest? && part >= 2
    ensures Act(i, part, s).memory.mail == s.memory.mail
  {
  }

  /** The scan of a dispatch changes nothing, and sees a pending message exactly when there is one. */
  lemma {:induction false} ScanRefines(sys: System, i: Instruction, s: State<Memory>)
    requires i.operation.MailboxDispatch? && SameTags(sys, s.memory)
    ensures SameTags(sys, Act(i, 0, s).memory)
    ensures Flag(Act(i, 0, s).memory, Temp.Pending(i.id)) <==> Mailboxes.Pending(sys, i.operation.mailbox) != []
    ensures Loaded(Act(i, 0, s).memory, i.id) == TagOf(sys, i.operation.mailbox)
  {
    assert Mail(s.memory, i.operation.mailbox) == TagOf(sys, i.operation.mailbox);
    SameTagsKept(sys, s.memory, sys, Act(i, 0, s).memory);
  }
}
