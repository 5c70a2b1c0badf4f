/** What validation checks about an actor's mailbox and its FIFO turns before anything is rendered, and
    why renderer and auditor then agree on every dispatch. */
module SchedulerRules {
  import opened Wrappers
  import opened Lists
  import opened MachineWir
  import opened CallSites

  // ---- the mailbox has one storage record, and it is the actor's ----

  ghost predicate OnlyStorage(regions: seq<Region>, n: nat, mailbox: nat, region: Region)
    requires n <= |regions|
  {
    exists k :: 0 <= k < n && regions[k] == region && region.global == mailbox
             && forall j :: 0 <= j < n && j != k ==> regions[j].global != mailbox
  }

  ghost predicate OwnedStorage(regions: seq<Region>, mailbox: nat, actor: nat)
  {
    OnlyStorage(regions, |regions|, mailbox, Region(mailbox, Some(actor)))
  }

  /** The scan refuses a second record. */
  method CheckStorage(regions: seq<Region>, mailbox: nat, actor: nat) returns (ok: bool)
    ensures ok <==> OwnedStorage(regions, mailbox, actor)
  {
    var storage: Option<Region> := None;
    for k := 0 to |regions|
      invariant storage.None? ==> forall j :: 0 <= j < k ==> regions[j].global != mailbox
      invariant storage.Some? ==> OnlyStorage(regions, k, mailbox, storage.value)
    {
      if regions[k].global == mailbox {
        if storage.Some? {
          return false;
        }
        storage := Some(regions[k]);
      }
    }
    ok := storage.Some? && storage.value.actor == Some(actor);
  }

  lemma {:induction false} StorageGivesActor(regions: seq<Region>, mailbox: nat, actor: nat)
    requires OwnedStorage(regions, mailbox, actor)
    ensures MailboxActor(regions, mailbox) == Some(actor)
  {
    var k :| 0 <= k < |regions| && regions[k] == Region(mailbox, Some(actor))
          && forall j :: 0 <= j < |regions| && j != k ==> regions[j].global != mailbox;
    if k > 0 {
      assert regions[0].global != mailbox;
      var rest := regions[1..];
      assert rest[k - 1] == regions[k];
      assert forall j :: 0 <= j < |rest| && j != k - 1 ==> rest[j] == regions[j + 1] && rest[j].global != mailbox;
      StorageGivesActor(rest, mailbox, actor);
    }
  }

  // ---- the FIFO turns ----

  /** An 8-bit counter that saturates. */
  function Bump(n: nat): nat { if n < 255 then n + 1 else 255 }
  function Saturated(n: nat): nat { if n < 255 then n else 255 }

  predicate IsUnitFifo(a: Activation, actor: nat) { a.schedulerFifo && a.actor == Some(actor) && a.capacity == 1 }

  function UnitTurn(activations: seq<Activation>, actor: nat): nat -> seq<nat>
  {
    (k: nat) => if k < |activations| && IsUnitFifo(activations[k], actor) then [activations[k].caller] else []
  }

  /** The FIFO turns of the actor's mailbox of capacity one. */
  function UnitTurns(activations: seq<Activation>, actor: nat): seq<nat>
  {
    Concat(UnitTurn(activations, actor), |activations|)
  }

  /** The actor's FIFO turns are exactly the two methods of the chain, one activation each. */
  ghost predicate FifoPair(activations: seq<Activation>, actor: nat, first: nat, second: nat)
  {
    first != second && multiset(UnitTurns(activations, actor)) == multiset{first, second}
  }

  method CheckFifo(activations: seq<Activation>, actor: nat, first: nat, second: nat) returns (ok: bool)
    ensures ok <==> FifoPair(activations, actor, first, second)
  {
    var count, firsts, seconds, callersMatch := 0, 0, 0, true;
    ghost var turns: seq<nat> := [];
    assert Tallies(turns, first, second, 0, 0, 0, true);
    for k := 0 to |activations|
      invariant turns == Concat(UnitTurn(activations, actor), k)
      invariant Counted(turns, first, second, count, firsts, seconds, callersMatch)
    {
      if IsUnitFifo(activations[k], actor) {
        var caller := activations[k].caller;
        CountOne(turns, caller, first, second, count, firsts, seconds, callersMatch);
        turns := turns + [caller];
        count := Bump(count);
        if caller == first {
          firsts := Bump(firsts);
        } else if caller == second {
          seconds := Bump(seconds);
        } else {
          callersMatch := false;
        }
      }
    }
    ok := count == 2 && callersMatch && firsts == 1 && seconds == 1;
    CountsDecide(turns, first, second, count, firsts, seconds, callersMatch);
  }

  predicate OpenCounts(k: int, turns: seq<nat>, count: nat, firsts: nat, seconds: nat) { true }

  /** The counters are those of the turns. The guard keeps the definition folded in the loop. */
  ghost predicate Counted(
      turns: seq<nat>, first: nat, second: nat, count: nat, firsts: nat, seconds: nat, callersMatch: bool)
  {
    forall k {:trigger OpenCounts(k, turns, count, firsts, seconds)} ::
      OpenCounts(k, turns, count, firsts, seconds) ==>
        Tallies(turns, first, second, count, firsts, seconds, callersMatch)
  }

  /** What the counters hold after some turns; a caller equal to both methods counts as the first. */
  ghost predicate Tallies(
      turns: seq<nat>, first: nat, second: nat, count: nat, firsts: nat, seconds: nat, callersMatch: bool)
  {
    && count == Saturated(|turns|) && firsts == Saturated(multiset(turns)[first])
    && seconds == (if first == second then 0 else Saturated(multiset(turns)[second]))
    && (callersMatch <==> AllOf(turns, first, second))
  }

  ghost predicate AllOf(turns: seq<nat>, first: nat, second: nat)
  {
    forall k :: 0 <= k < |turns| ==> turns[k] == first || turns[k] == second
  }

  lemma {:induction false} AllOfMore(turns: seq<nat>, caller: nat, first: nat, second: nat)
    ensures AllOf(turns + [caller], first, second)
       <==> AllOf(turns, first, second) && (caller == first || caller == second)
  {
    var more := turns + [caller];
    assert more[|turns|] == caller && forall k :: 0 <= k < |turns| ==> more[k] == turns[k];
  }

  lemma {:induction false} CountOne(
      turns: seq<nat>, caller: nat, first: nat, second: nat, count: nat, firsts: nat, seconds: nat, callersMatch: bool)
    requires Counted(turns, first, second, count, firsts, seconds, callersMatch)
    ensures Counted(turns + [caller], first, second, Bump(count),
      if caller == first then Bump(firsts) else firsts,
      if caller != first && caller == second then Bump(seconds) else seconds,
      callersMatch && (caller == first || caller == second))
  {
    assert OpenCounts(0, turns, count, firsts, seconds);
    AllOfMore(turns, caller, first, second);
  }

  lemma {:induction false} CountsDecide(
      turns: seq<nat>, first: nat, second: nat, count: nat, firsts: nat, seconds: nat, callersMatch: bool)
    requires Counted(turns, first, second, count, firsts, seconds, callersMatch)
    ensures count == 2 && callersMatch && firsts == 1 && seconds == 1
       <==> first != second && multiset(turns) == multiset{first, second}
  {
    assert OpenCounts(0, turns, count, firsts, seconds);
    if count == 2 && callersMatch && firsts == 1 && seconds == 1 {
      forall x ensures multiset(turns)[x] == multiset{first, second}[x] {
        if x != first && x != second { assert x !in turns; }
      }
    }
    if first != second && multiset(turns) == multiset{first, second} {
      assert |turns| == |multiset(turns)| == 2;
      forall k | 0 <= k < |turns| ensures turns[k] == first || turns[k] == second {
        assert turns[k] in multiset(turns);
      }
    }
  }

  /** Every FIFO activation of the actor names a mailbox of capacity one. */
  ghost predicate UnitMailbox(activations: seq<Activation>, actor: nat)
  {
    forall k :: 0 <= k < |activations| && activations[k].schedulerFifo && activations[k].actor == Some(actor) ==>
      activations[k].capacity == 1
  }

  lemma {:induction false} SameTurns(activations: seq<Activation>, actor: nat, n: nat)
    requires UnitMailbox(activations, actor) && n <= |activations|
    ensures Concat(FifoTurn(activations, Some(actor)), n) == Concat(UnitTurn(activations, actor), n)
  {
    if n > 0 { SameTurns(activations, actor, n - 1); }
  }

  lemma {:induction false} FifoPairDistinct(activations: seq<Activation>, actor: nat, first: nat, second: nat)
    requires FifoPair(activations, actor, first, second) && UnitMailbox(activations, actor)
    ensures NoRepeats(FifoTurns(activations, Some(actor)))
  {
    SameTurns(activations, actor, |activations|);
    var turns := UnitTurns(activations, actor);
    forall i, j | 0 <= i < j < |turns| ensures turns[i] != turns[j] {
      if turns[i] == turns[j] { CountsTwice(turns, i, j); }
    }
  }

  // ---- the callers ----

  function Callers(activations: seq<Activation>): (r: seq<nat>)
    ensures |r| == |activations| && forall k :: 0 <= k < |r| ==> r[k] == activations[k].caller
  {
    seq(|activations|, k requires 0 <= k < |activations| => activations[k].caller)
  }

  /** How many activations call each function. */
  method CountCallers(activations: seq<Activation>, functions: nat) returns (counts: array<nat>)
    ensures counts.Length == functions
    ensures forall f :: 0 <= f < functions ==> counts[f] == multiset(Callers(activations))[f]
  {
    counts := new nat[functions](_ => 0);
    ghost var callers := Callers(activations);
    for k := 0 to |activations|
      invariant forall f :: 0 <= f < functions ==> counts[f] == multiset(callers[..k])[f]
    {
      assert callers[..k + 1] == callers[..k] + [activations[k].caller];
      if activations[k].caller < functions {
        counts[activations[k].caller] := counts[activations[k].caller] + 1;
      }
    }
    assert callers[..|activations|] == callers;
  }

  /** Every function that a FIFO activation of the actor calls has that one activation. */
  ghost predicate CalledOnce(activations: seq<Activation>, actor: nat)
  {
    forall k :: 0 <= k < |activations| && activations[k].schedulerFifo && activations[k].actor == Some(actor) ==>
      multiset(Callers(activations))[activations[k].caller] == 1
  }

  lemma {:induction false} CallerIsNew(activations: seq<Activation>, actor: nat, n: nat)
    requires CalledOnce(activations, actor) && n < |activations|
    requires activations[n].schedulerFifo && activations[n].actor == Some(actor)
    ensures activations[n].caller !in Concat(FifoTurn(activations, Some(actor)), n)
  {
    var g, caller := FifoTurn(activations, Some(actor)), activations[n].caller;
    ConcatMembers(g, n, caller);
    if InSome(g, n, caller) {
      var j: nat :| j < n && caller in g(j);
      CountsTwice(Callers(activations), j, n);
    }
  }

  lemma {:induction false} CalledOnceDistinct(activations: seq<Activation>, actor: nat, n: nat)
    requires CalledOnce(activations, actor) && n <= |activations|
    ensures NoRepeats(Concat(FifoTurn(activations, Some(actor)), n))
  {
    if n > 0 {
      CalledOnceDistinct(activations, actor, n - 1);
      if activations[n - 1].schedulerFifo && activations[n - 1].actor == Some(actor) {
        CallerIsNew(activations, actor, n - 1);
      }
    }
  }

  // ---- the dispatch ----

  lemma {:induction false} ValidatedTurnsDistinct(activations: seq<Activation>, actor: nat, first: nat, second: nat)
    requires CalledOnce(activations, actor)
          || (FifoPair(activations, actor, first, second) && UnitMailbox(activations, actor))
    ensures NoRepeats(FifoTurns(activations, Some(actor)))
  {
    if CalledOnce(activations, actor) {
      CalledOnceDistinct(activations, actor, |activations|);
    } else {
      FifoPairDistinct(activations, actor, first, second);
    }
  }

  /** Renderer and auditor agree on every dispatch that validation lets through. */
  lemma {:induction false} ValidatedDispatchConsistent(
      m: Machine, actor: nat, mailbox: nat, turn: nat, first: nat, second: nat)
    requires OwnedStorage(m.regions, mailbox, actor)
    requires CalledOnce(m.activations, actor)
          || (FifoPair(m.activations, actor, first, second) && UnitMailbox(m.activations, actor))
    ensures DispatchConsistent(m, MailboxDispatch(actor, mailbox, turn))
    ensures multiset(Methods(m, mailbox, turn)) == multiset(AuditedTurns(m, actor, turn))
  {
    StorageGivesActor(m.regions, mailbox, actor);
    ValidatedTurnsDistinct(m.activations, actor, first, second);
    DispatchAgreesExactly(m, actor, mailbox, turn);
  }
}
