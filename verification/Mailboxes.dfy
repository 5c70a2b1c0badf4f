/** Mailboxes under interleaving: every atomic access that the emitted reserve, commit, receive and
    reply-request code makes to a mailbox is one event, and any number of agents may interleave
    theirs. */
module Mailboxes {

  const MAILBOX_FULL := 3
  const MAILBOX_MISMATCH := 4
  const REPLY_STATE_MISMATCH := 7

  datatype Reservation = Reservation(mailbox: nat, stale: bool)
  /** A receive between its load of the tag and its store of zero. */
  datatype Window = Window(mailbox: nat, turn: nat)

  /** The tag words, the reservations and receive windows that are open, and the history of messages.
      A reservation is stale once another commit has gone to its mailbox; the code does not see that. */
  datatype System = System(
    tags: map<nat, nat>, reservations: map<nat, Reservation>, windows: map<nat, Window>,
    committed: map<nat, seq<nat>>, received: map<nat, seq<nat>>)

  /** A reply request is a reserve and a commit with a fatal code of its own. */
  datatype Event =
    | Reserve(id: nat, mailbox: nat, code: nat)       // load acquire, trap with the code unless zero
    | Commit(id: nat, turn: nat)                      // store release of the tag
    | ReceiveLoad(id: nat, mailbox: nat, turn: nat)   // load acquire, trap unless the turn's tag
    | ReceiveStore(id: nat)                           // store release of zero

  datatype Verdict = Went(s: System) | Trapped(code: nat)

  function Tag(turn: nat): nat { turn + 1 }

  function TagOf(s: System, mailbox: nat): nat { if mailbox in s.tags then s.tags[mailbox] else 0 }
  function Log(logs: map<nat, seq<nat>>, mailbox: nat): seq<nat> { if mailbox in logs then logs[mailbox] else [] }

  const EMPTY := System(map[], map[], map[], map[], map[])

  predicate Enabled(s: System, e: Event)
  {
    match e
    case Reserve(id, _, _) => id !in s.reservations
    case Commit(id, _) => id in s.reservations
    case ReceiveLoad(id, _, _) => id !in s.windows
    case ReceiveStore(id) => id in s.windows
  }

  function Stale(reservations: map<nat, Reservation>, mailbox: nat): (r: map<nat, Reservation>)
    ensures r.Keys == reservations.Keys
  {
    map k | k in reservations ::
      if reservations[k].mailbox == mailbox then Reservation(mailbox, true) else reservations[k]
  }

  function Step(s: System, e: Event): Verdict
    requires Enabled(s, e)
  {
    match e
    case Reserve(id, mailbox, code) =>
      if TagOf(s, mailbox) != 0 then Trapped(code)
      else Went(s.(reservations := s.reservations[id := Reservation(mailbox, false)]))
    case Commit(id, turn) =>
      var mailbox := s.reservations[id].mailbox;
      Went(s.(tags := s.tags[mailbox := Tag(turn)],
              reservations := Stale(s.reservations - {id}, mailbox),
              committed := s.committed[mailbox := Log(s.committed, mailbox) + [turn]]))
    case ReceiveLoad(id, mailbox, turn) =>
      if TagOf(s, mailbox) != Tag(turn) then Trapped(MAILBOX_MISMATCH)
      else Went(s.(windows := s.windows[id := Window(mailbox, turn)]))
    case ReceiveStore(id) =>
      var window := s.windows[id];
      Went(s.(tags := s.tags[window.mailbox := 0],
              windows := s.windows - {id},
              received := s.received[window.mailbox := Log(s.received, window.mailbox) + [window.turn]]))
  }

  /** What the actor model grants: no other commit to the mailbox falls between a reserve and its own
      commit, and a mailbox has one receiver at a time. */
  ghost predicate Serial(s: System, e: Event)
    requires Enabled(s, e)
  {
    match e
    case Commit(id, _) => !s.reservations[id].stale
    case ReceiveLoad(_, mailbox, _) => forall k :: k in s.windows ==> s.windows[k].mailbox != mailbox
    case _ => true
  }

  // ---- the invariant ----

  function Pending(s: System, mailbox: nat): seq<nat>
  {
    if TagOf(s, mailbox) == 0 then [] else [TagOf(s, mailbox) - 1]
  }

  /** Messages are conserved, in order: what was committed is what was received and what is pending. */
  ghost predicate Conserved(s: System, mailbox: nat)
  {
    Log(s.committed, mailbox) == Log(s.received, mailbox) + Pending(s, mailbox)
  }

  ghost predicate Invariant(s: System)
  {
    && (forall mailbox :: Conserved(s, mailbox))
    && (forall r :: r in s.reservations && !s.reservations[r].stale ==> TagOf(s, s.reservations[r].mailbox) == 0)
    && (forall w :: w in s.windows ==> TagOf(s, s.windows[w].mailbox) == Tag(s.windows[w].turn))
    && (forall v, w :: v in s.windows && w in s.windows && s.windows[v].mailbox == s.windows[w].mailbox ==> v == w)
  }

  lemma {:induction false} InvariantInit()
    ensures Invariant(EMPTY)
  {
  }

  lemma {:induction false} ReserveKeeps(s: System, e: Event)
    requires Invariant(s) && Enabled(s, e) && Step(s, e).Went? && (e.Reserve? || e.ReceiveLoad?) && Serial(s, e)
    ensures Invariant(Step(s, e).s)
  {
    forall mailbox ensures Conserved(Step(s, e).s, mailbox) { assert Conserved(s, mailbox); }
  }

  lemma {:induction false} CommitKeeps(s: System, e: Event)
    requires Invariant(s) && Enabled(s, e) && e.Commit? && Serial(s, e)
    ensures Invariant(Step(s, e).s)
  {
    forall mailbox ensures Conserved(Step(s, e).s, mailbox) { assert Conserved(s, mailbox); }
  }

  lemma {:induction false} ReceiveKeeps(s: System, e: Event)
    requires Invariant(s) && Enabled(s, e) && e.ReceiveStore?
    ensures Invariant(Step(s, e).s)
  {
    forall mailbox ensures Conserved(Step(s, e).s, mailbox) { assert Conserved(s, mailbox); }
  }

  lemma {:induction false} InvariantStep(s: System, e: Event)
    requires Invariant(s) && Enabled(s, e) && Serial(s, e) && Step(s, e).Went?
    ensures Invariant(Step(s, e).s)
  {
    match e
    case Reserve(_, _, _) | ReceiveLoad(_, _, _) => ReserveKeeps(s, e);
    case Commit(_, _) => CommitKeeps(s, e);
    case ReceiveStore(_) => ReceiveKeeps(s, e);
  }

  // ---- whole runs ----

  /** `states` is a run of `events`: serial steps that do not trap. */
  ghost predicate IsRun(events: seq<Event>, states: seq<System>)
  {
    && |states| == |events| + 1 && states[0] == EMPTY
    && forall k :: 0 <= k < |events| ==> IsStep(states[k], events[k], states[k + 1])
  }

  ghost predicate IsStep(s: System, e: Event, t: System)
  {
    Enabled(s, e) && Serial(s, e) && Step(s, e) == Went(t)
  }

  /** In every state of every run, at every mailbox, messages are conserved. */
  lemma {:induction false} RunsConserve(events: seq<Event>, states: seq<System>, k: nat)
    requires IsRun(events, states) && k < |states|
    ensures Invariant(states[k])
  {
    if k == 0 {
      InvariantInit();
    } else {
      RunsConserve(events, states, k - 1);
      assert IsStep(states[k - 1], events[k - 1], states[k]);
      InvariantStep(states[k - 1], events[k - 1]);
    }
  }

  /** A receive passes only its own turn's message: the one committed and not yet received. */
  lemma {:induction false} ReceivesWhatWasSent(events: seq<Event>, states: seq<System>, k: nat)
    requires IsRun(events, states) && k < |events| && events[k].ReceiveLoad?
    ensures var s, e := states[k], events[k];
      Log(s.committed, e.mailbox) == Log(s.received, e.mailbox) + [e.turn]
  {
    RunsConserve(events, states, k);
    assert IsStep(states[k], events[k], states[k + 1]);
    assert Conserved(states[k], events[k].mailbox);
  }

  /** A dispatch that loads zero falls through, and then every message has been received. */
  lemma {:induction false} FallThroughMeansEmpty(events: seq<Event>, states: seq<System>, k: nat, mailbox: nat)
    requires IsRun(events, states) && k < |states|
    ensures TagOf(states[k], mailbox) == 0 <==> Log(states[k].committed, mailbox) == Log(states[k].received, mailbox)
  {
    RunsConserve(events, states, k);
    assert Conserved(states[k], mailbox);
  }

  // ---- the exact condition ----

  /** A commit keeps the messages of its mailbox exactly when the mailbox is empty. */
  lemma {:induction false} CommitConservesExactly(s: System, e: Event)
    requires e.Commit? && Enabled(s, e) && Conserved(s, s.reservations[e.id].mailbox)
    ensures Conserved(Step(s, e).s, s.reservations[e.id].mailbox) <==> TagOf(s, s.reservations[e.id].mailbox) == 0
  {
    var mailbox := s.reservations[e.id].mailbox;
    var received := Log(s.received, mailbox);
    if TagOf(s, mailbox) != 0 { assert |received + Pending(s, mailbox) + [e.turn]| != |received + [e.turn]|; }
  }

  /** A receive's store keeps them exactly when the tag is still the receiver's own. */
  lemma {:induction false} ReceiveConservesExactly(s: System, e: Event)
    requires e.ReceiveStore? && Enabled(s, e) && Conserved(s, s.windows[e.id].mailbox)
    ensures var window := s.windows[e.id];
      Conserved(Step(s, e).s, window.mailbox) <==> TagOf(s, window.mailbox) == Tag(window.turn)
  {
    var window := s.windows[e.id];
    var received, pending := Log(s.received, window.mailbox), Pending(s, window.mailbox);
    assert received + [window.turn] + [] == received + [window.turn];
    if pending != [window.turn] {
      assert (received + pending)[|received|..] == pending;
      assert (received + [window.turn])[|received|..] == [window.turn];
    }
  }

  /** A commit into an empty mailbox; a receive's store over its own tag. */
  predicate Harmless(s: System, e: Event)
    requires Enabled(s, e)
  {
    match e
    case Commit(id, _) => TagOf(s, s.reservations[id].mailbox) == 0
    case ReceiveStore(id) => TagOf(s, s.windows[id].mailbox) == Tag(s.windows[id].turn)
    case _ => true
  }

  ghost predicate AllConserved(s: System) { forall mailbox: nat :: Conserved(s, mailbox) }

  lemma {:induction false} StepConservesExactly(s: System, e: Event)
    requires AllConserved(s) && Enabled(s, e) && Step(s, e).Went?
    ensures AllConserved(Step(s, e).s) <==> Harmless(s, e)
  {
    var t := Step(s, e).s;
    match e
    case Commit(id, _) =>
      CommitConservesExactly(s, e);
      OthersConserved(s, t, s.reservations[id].mailbox);
    case ReceiveStore(id) =>
      ReceiveConservesExactly(s, e);
      OthersConserved(s, t, s.windows[id].mailbox);
    case _ => forall mailbox: nat ensures Conserved(t, mailbox) { assert Conserved(s, mailbox); }
  }

  lemma {:induction false} OthersConserved(s: System, t: System, mailbox: nat)
    requires AllConserved(s)
    requires forall x: nat :: x != mailbox ==>
      TagOf(t, x) == TagOf(s, x) && Log(t.committed, x) == Log(s.committed, x)
      && Log(t.received, x) == Log(s.received, x)
    ensures AllConserved(t) <==> Conserved(t, mailbox)
  {
    forall x: nat | x != mailbox ensures Conserved(t, x) { assert Conserved(s, x); }
  }

  /** A run under no restriction on how the agents interleave. */
  ghost predicate IsFreeRun(events: seq<Event>, states: seq<System>)
  {
    && |states| == |events| + 1 && states[0] == EMPTY
    && forall k :: 0 <= k < |events| ==> IsFreeStep(states[k], events[k], states[k + 1])
  }

  ghost predicate IsFreeStep(s: System, e: Event, t: System) { Enabled(s, e) && Step(s, e) == Went(t) }

  ghost predicate HarmlessAt(events: seq<Event>, states: seq<System>, k: nat)
  {
    k < |events| && k < |states| && Enabled(states[k], events[k]) && Harmless(states[k], events[k])
  }

  lemma {:induction false} HarmlessRunConserves(events: seq<Event>, states: seq<System>, k: nat)
    requires IsFreeRun(events, states) && k < |states|
    requires forall j :: 0 <= j < |events| ==> HarmlessAt(events, states, j)
    ensures AllConserved(states[k])
  {
    if k > 0 {
      HarmlessRunConserves(events, states, k - 1);
      assert IsFreeStep(states[k - 1], events[k - 1], states[k]) && HarmlessAt(events, states, k - 1);
      StepConservesExactly(states[k - 1], events[k - 1]);
    }
  }

  /** In a run of any interleaving, messages are conserved in every state and at every mailbox exactly
      when every commit finds its mailbox empty and every receive's store finds its own tag. */
  lemma {:induction false} RunConservesExactly(events: seq<Event>, states: seq<System>)
    requires IsFreeRun(events, states)
    ensures (forall k :: 0 <= k < |states| ==> AllConserved(states[k]))
       <==> (forall k :: 0 <= k < |events| ==> HarmlessAt(events, states, k))
  {
    if forall k :: 0 <= k < |events| ==> HarmlessAt(events, states, k) {
      forall k | 0 <= k < |states| ensures AllConserved(states[k]) { HarmlessRunConserves(events, states, k); }
    }
    if forall k :: 0 <= k < |states| ==> AllConserved(states[k]) {
      forall k | 0 <= k < |events| ensures HarmlessAt(events, states, k) {
        assert AllConserved(states[k]) && AllConserved(states[k + 1])
               && IsFreeStep(states[k], events[k], states[k + 1]);
        StepConservesExactly(states[k], events[k]);
      }
    }
  }

  /** What the actor model grants is enough: every serial step is harmless. */
  lemma {:induction false} SerialIsHarmless(s: System, e: Event)
    requires Invariant(s) && Enabled(s, e) && Serial(s, e)
    ensures Harmless(s, e)
  {
  }

  // ---- what goes wrong without the grants ----

  /** Reserving does not mark the mailbox: two reservations, two commits, and one message is lost. */
  lemma {:induction false} StaleCommitLosesMessage()
    ensures var s1 := Step(EMPTY, Reserve(0, 9, MAILBOX_FULL)).s;
      && Enabled(s1, Reserve(1, 9, MAILBOX_FULL))
      && var s2 := Step(s1, Reserve(1, 9, MAILBOX_FULL)).s;
         && Enabled(s2, Commit(0, 5))
         && var s3 := Step(s2, Commit(0, 5)).s;
            && Enabled(s3, Commit(1, 6)) && !Serial(s3, Commit(1, 6)) && !Conserved(Step(s3, Commit(1, 6)).s, 9)
  {
    var s2 := Step(Step(EMPTY, Reserve(0, 9, MAILBOX_FULL)).s, Reserve(1, 9, MAILBOX_FULL)).s;
    var s3 := Step(s2, Commit(0, 5)).s;
    assert Log(s3.committed, 9) == [5];
    assert Conserved(s3, 9);
    CommitConservesExactly(s3, Commit(1, 6));
  }

  /** A receive stores zero after its load: two receivers can both take one message. */
  lemma {:induction false} TwoReceiversTakeOneMessage(s: System, mailbox: nat, turn: nat, v: nat, w: nat)
    requires Conserved(s, mailbox) && TagOf(s, mailbox) == Tag(turn) && v !in s.windows && w !in s.windows && v != w
    ensures var s1 := Step(s, ReceiveLoad(v, mailbox, turn)).s;
      && Enabled(s1, ReceiveLoad(w, mailbox, turn)) && !Serial(s1, ReceiveLoad(w, mailbox, turn))
      && var s2 := Step(s1, ReceiveLoad(w, mailbox, turn)).s;
         && Enabled(s2, ReceiveStore(v))
         && var s3 := Step(s2, ReceiveStore(v)).s;
            Enabled(s3, ReceiveStore(w)) && !Conserved(Step(s3, ReceiveStore(w)).s, mailbox)
  {
    var s1 := Step(s, ReceiveLoad(v, mailbox, turn)).s;
    assert s1.windows[v].mailbox == mailbox;
    var s3 := Step(Step(s1, ReceiveLoad(w, mailbox, turn)).s, ReceiveStore(v)).s;
    var received := Log(s.received, mailbox);
    assert Log(s3.received, mailbox) == received + [turn];
    assert |received + [turn] + [turn]| != |Log(s.committed, mailbox)|;
  }
}
