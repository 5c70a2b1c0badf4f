/** The main theorem of rendering: every run of a function is a run of its text. */
module RenderedRuns {
  import opened Wrappers
  import opened MachineWir
  import opened Renderer
  import opened Llvm
  import opened Simulation
  import opened Labels
  import opened BlockArguments

  // ---- what the run needs to know about the text ----

  predicate Opened(k: int, text: seq<Line>, at: nat) { true }

  /** Block b stands at a position of the text. The guard keeps the body's lines folded. */
  ghost predicate BlockAt(m: Machine, text: seq<Line>, b: Block, at: nat)
  {
    && at < |text| && text[at].Label? && text[at].l == B(b.id)
    && forall k {:trigger Opened(k, text, at)} :: Opened(k, text, at) ==> BodyAt(m, text, b, at)
  }

  ghost predicate BodyAt(m: Machine, text: seq<Line>, b: Block, at: nat)
  {
    && Sub(text, at + 1, RenderInstructions(m, b.instructions))
    && Sub(text, at + 1 + |RenderInstructions(m, b.instructions)|, RenderTerminator(b.terminator))
  }

  lemma {:induction false} BodyOf(m: Machine, text: seq<Line>, b: Block, at: nat)
    requires BlockAt(m, text, b, at)
    ensures BodyAt(m, text, b, at)
  {
    assert Opened(0, text, at);
  }

  /** Entered from `origin`, the phis assign the edge's arguments to the parameters. */
  predicate Passes(phis: seq<Phi>, parameters: seq<nat>, origin: BlockName, arguments: seq<nat>)
  {
    PhiValues(phis, origin) == Some(arguments) && PhiResults(phis) == parameters && |arguments| == |phis|
  }

  /** `starts` gives the place of every block, and every edge passes its arguments. */
  ghost predicate Faithful(m: Machine, f: Function, text: seq<Line>, starts: seq<nat>)
  {
    && |starts| == |f.blocks| && Distinct(text)
    && (forall p :: 0 <= p < |starts| ==> f.blocks[p].id == p && BlockAt(m, text, f.blocks[p], starts[p]))
    && (forall p, e :: 0 <= p < |starts| && e in Successors(f.blocks[p].terminator) ==>
          EdgePasses(f, text, starts, p, e))
  }

  ghost predicate EdgePasses(f: Function, text: seq<Line>, starts: seq<nat>, p: nat, e: Edge)
  {
    && p < |f.blocks| == |starts| && e.target < |f.blocks| && starts[e.target] < |text| && text[starts[e.target]].Label?
    && Passes(text[starts[e.target]].phis, f.blocks[e.target].parameters, EndOf(f, p), e.arguments)
  }

  lemma {:induction false} BlockParts(text: seq<Line>, m: Machine, b: Block, phis: seq<Phi>, at: nat)
    requires Sub(text, at, [Label(B(b.id), phis)]
      + (RenderInstructions(m, b.instructions) + RenderTerminator(b.terminator)))
    ensures BlockAt(m, text, b, at) && text[at].phis == phis
  {
    var head, body, last := [Label(B(b.id), phis)], RenderInstructions(m, b.instructions),
      RenderTerminator(b.terminator);
    ThreeParts(text, at, head, body, last);
    assert BodyAt(m, text, b, at);
  }

  lemma {:induction false} ThreeParts(text: seq<Line>, at: nat, head: seq<Line>, body: seq<Line>, last: seq<Line>)
    requires Sub(text, at, head + (body + last)) && |head| == 1
    ensures at < |text| && text[at] == head[0] && Sub(text, at + 1, body) && Sub(text, at + 1 + |body|, last)
  {
    SubSplit(text, at, head, body + last);
    SubAt(text, at, head, 0);
    SubSplit(text, at + 1, body, last);
  }

  ghost predicate PlacedAt(m: Machine, f: Function, incoming: nat -> seq<Incoming>, text: seq<Line>, p: nat, at: nat)
  {
    && p < |f.blocks| && BlockAt(m, text, f.blocks[p], at)
    && text[at].phis == Phis(incoming(f.blocks[p].id), f.blocks[p].parameters)
  }

  lemma {:induction false} Place(
      m: Machine, f: Function, incoming: nat -> seq<Incoming>, text: seq<Line>, p: nat) returns (at: nat)
    requires IsRendering(m, f, incoming, text) && p < |f.blocks| && f.blocks[p].id == p
    ensures PlacedAt(m, f, incoming, text, p, at)
    ensures p == f.entry ==> at == 0
  {
    at := BlockPosition(m, f, incoming, text, p);
    BlockParts(text, m, f.blocks[p], Phis(incoming(f.blocks[p].id), f.blocks[p].parameters), at);
  }

  lemma {:induction false} Places(
      m: Machine, f: Function, incoming: nat -> seq<Incoming>, text: seq<Line>, n: nat) returns (starts: seq<nat>)
    requires DenseIds(f) && IsRendering(m, f, incoming, text) && n <= |f.blocks|
    ensures |starts| == n
    ensures forall p :: 0 <= p < n ==> PlacedAt(m, f, incoming, text, p, starts[p])
    ensures n > f.entry ==> starts[f.entry] == 0
  {
    starts := [];
    if n > 0 {
      var front := Places(m, f, incoming, text, n - 1);
      var at := Place(m, f, incoming, text, n - 1);
      starts := front + [at];
    }
  }

  /** Every edge finds its arguments in the phis of its target. */
  ghost predicate ArgumentsFlow(f: Function, incoming: nat -> seq<Incoming>, p: nat, e: Edge)
  {
    && p < |f.blocks| && e.target < |f.blocks| && |e.arguments| == |f.blocks[e.target].parameters|
    && PhiValues(Phis(incoming(e.target), f.blocks[e.target].parameters), EndOf(f, p)) == Some(e.arguments)
  }

  lemma {:induction false} ArgumentsAllFlow(f: Function, edges: seq<Incoming>)
    requires WellFormed(f) && IsInventory(f, edges)
    ensures forall p, e :: 0 <= p < |f.blocks| && e in Successors(f.blocks[p].terminator) ==>
      ArgumentsFlow(f, IncomingTo(edges), p, e)
  {
    forall p, e | 0 <= p < |f.blocks| && e in Successors(f.blocks[p].terminator)
      ensures ArgumentsFlow(f, IncomingTo(edges), p, e)
    {
      PhisYieldArguments(f, edges, p, e);
    }
  }

  /** A rendered text whose arguments flow is faithful. */
  lemma {:induction false} RenderedFaithful(
      m: Machine, f: Function, incoming: nat -> seq<Incoming>, text: seq<Line>) returns (starts: seq<nat>)
    requires DenseIds(f) && UniqueIds(f) && IsRendering(m, f, incoming, text)
    requires forall p, e :: 0 <= p < |f.blocks| && e in Successors(f.blocks[p].terminator) ==>
      ArgumentsFlow(f, incoming, p, e)
    ensures Faithful(m, f, text, starts) && starts[f.entry] == 0
  {
    FunctionLabels(m, f, incoming, text);
    starts := Places(m, f, incoming, text, |f.blocks|);
    PlacedFaithful(m, f, incoming, text, starts);
  }

  lemma {:induction false} PlacedFaithful(
      m: Machine, f: Function, incoming: nat -> seq<Incoming>, text: seq<Line>, starts: seq<nat>)
    requires DenseIds(f) && Distinct(text) && |starts| == |f.blocks|
    requires forall p :: 0 <= p < |starts| ==> PlacedAt(m, f, incoming, text, p, starts[p])
    requires forall p, e :: 0 <= p < |f.blocks| && e in Successors(f.blocks[p].terminator) ==>
      ArgumentsFlow(f, incoming, p, e)
    ensures Faithful(m, f, text, starts)
  {
    forall p, e | 0 <= p < |starts| && e in Successors(f.blocks[p].terminator)
      ensures EdgePasses(f, text, starts, p, e)
    {
      assert ArgumentsFlow(f, incoming, p, e);
      assert PlacedAt(m, f, incoming, text, e.target, starts[e.target]);
      PhiResultsAre(text[starts[e.target]].phis, f.blocks[e.target].parameters);
    }
    forall p | 0 <= p < |starts| ensures f.blocks[p].id == p && BlockAt(m, text, f.blocks[p], starts[p]) {
      assert PlacedAt(m, f, incoming, text, p, starts[p]);
    }
  }

  // ---- leaving a block ----

  /** The state of the text that corresponds to a state of the run: at the line after a block's
      label, or halted with the same outcome. */
  ghost predicate Corresponds<M>(text: seq<Line>, starts: seq<nat>, r: Run<M>, c: Cpu<M>)
  {
    match r
    case AtBlock(b, s) => b < |starts| && c == Running(starts[b] + 1, B(b), s)
    case Finished(o) => c == Halted(o)
    case OutOfRounds => false
  }

  /** Entering a block whose phis pass the arguments binds its parameters to them. */
  lemma {:induction false} Entered<M>(
      text: seq<Line>, at: nat, origin: BlockName, parameters: seq<nat>, arguments: seq<nat>, s: State<M>)
    requires Distinct(text) && at < |text| && text[at].Label? && Passes(text[at].phis, parameters, origin, arguments)
    ensures |parameters| == |arguments|
    ensures Enter(text, origin, text[at].l, s)
         == Running(at + 1, text[at].l, s.(values := Assign(s.values, parameters, ReadAll(s, arguments))))
  {
    FindUnique(text, at);
  }

  /** Following an edge enters the target with its parameters bound to the arguments. */
  lemma {:induction false} EdgeEnters<M>(
      m: Machine, f: Function, text: seq<Line>, starts: seq<nat>, p: nat, e: Edge, s: State<M>)
    requires Faithful(m, f, text, starts) && p < |f.blocks| && e in Successors(f.blocks[p].terminator)
    ensures Corresponds(text, starts, Follow(f, e, s), Enter(text, EndOf(f, p), B(e.target), s))
  {
    assert EdgePasses(f, text, starts, p, e);
    assert BlockAt(m, text, f.blocks[e.target], starts[e.target]);
    Entered(text, starts[e.target], EndOf(f, p), f.blocks[e.target].parameters, e.arguments, s);
  }

  lemma {:induction false} CaseSelects(cases: seq<Case>, default: Edge, value: nat)
    ensures SwitchTarget(SwitchCases(cases), B(default.target), value) == B(CaseFor(cases, default, value).target)
    ensures CaseFor(cases, default, value) in CaseEdges(cases) + [default]
  {
    if |cases| > 0 {
      CaseSelects(cases[1..], default, value);
      assert CaseEdges(cases) + [default]
        == [Edge(cases[0].target, cases[0].arguments)] + (CaseEdges(cases[1..]) + [default]);
    }
  }

  /** The successor a terminator takes. */
  function Chosen<M>(t: Terminator, s: State<M>): (e: Edge)
    requires t.Jump? || t.Branch? || t.Switch?
  {
    match t
    case Jump(target, arguments) => Edge(target, arguments)
    case Branch(c, a, x, b, y) => if Read(s, c) != 0 then Edge(a, x) else Edge(b, y)
    case Switch(v, cases, default, arguments) => CaseFor(cases, Edge(default, arguments), Read(s, v))
  }

  lemma {:induction false} ChosenTaken<M>(w: World<M>, t: Terminator, s: State<M>)
    requires t.Jump? || t.Branch? || t.Switch?
    ensures Chosen(t, s) in Successors(t)
    ensures IsBranch(RenderTerminator(t)[0]) && Taken(w, RenderTerminator(t)[0], s) == B(Chosen(t, s).target)
  {
    if t.Switch? { CaseSelects(t.cases, Edge(t.default, t.defaultArguments), Read(s, t.value)); }
  }

  lemma {:induction false} BranchEnters<M(!new)>(
      w: World<M>, text: seq<Line>, at: nat, l: BlockName, s: State<M>, c: Cpu<M>)
    requires at < |text| && IsBranch(text[at]) && Enter(text, l, Taken(w, text[at], s), s) == c
    ensures Reaches(w, text, Running(at, l, s), c)
  {
    OneStep(w, text, Running(at, l, s), c);
  }

  lemma {:induction false} EndHalts<M(!new)>(
      w: World<M>, f: Function, text: seq<Line>, at: nat, l: BlockName, t: Terminator, s: State<M>)
    requires Sub(text, at, RenderTerminator(t)) && (t.Return? || t.TailCall? || t.Unreachable?)
    ensures Leave(f, t, s).Finished? && Reaches(w, text, Running(at, l, s), Halted(Leave(f, t, s).outcome))
  {
    SubAt(text, at, RenderTerminator(t), 0);
    OneStep(w, text, Running(at, l, s), Halted(Leave(f, t, s).outcome));
  }

  lemma {:induction false} LeaveRuns<M(!new)>(
      w: World<M>, m: Machine, f: Function, text: seq<Line>, starts: seq<nat>, p: nat, at: nat, s: State<M>)
    returns (c: Cpu<M>)
    requires Faithful(m, f, text, starts) && p < |f.blocks| && Sub(text, at, RenderTerminator(f.blocks[p].terminator))
    ensures Corresponds(text, starts, Leave(f, f.blocks[p].terminator, s), c)
    ensures Reaches(w, text, Running(at, EndOf(f, p), s), c)
  {
    var t := f.blocks[p].terminator;
    if t.Jump? || t.Branch? || t.Switch? {
      ChosenTaken(w, t, s);
      EdgeEnters(m, f, text, starts, p, Chosen(t, s), s);
      SubAt(text, at, RenderTerminator(t), 0);
      c := Enter(text, EndOf(f, p), B(Chosen(t, s).target), s);
      BranchEnters(w, text, at, EndOf(f, p), s, c);
      assert Leave(f, t, s) == Follow(f, Chosen(t, s), s);
    } else {
      EndHalts(w, f, text, at, EndOf(f, p), t, s);
      c := Halted(Leave(f, t, s).outcome);
    }
  }

  // ---- one block ----

  lemma {:induction false} InstructionsRun<M(!new)>(
      w: World<M>, m: Machine, f: Function, text: seq<Line>, at: nat, p: nat, s: State<M>, rounds: nat)
    requires Distinct(text) && p < |f.blocks| && BodyAt(m, text, f.blocks[p], at)
    ensures Runs(w, text, Running(at + 1, B(p), s),
      at + 1 + |RenderInstructions(m, f.blocks[p].instructions)|, EndOf(f, p),
      ExecAll(w, m, f.blocks[p].instructions, s, rounds))
  {
    BodyRuns(w, m, text, at + 1, B(p), f.blocks[p].instructions, s, rounds);
    ContinuationEndsBlock(B(p), f.blocks[p].instructions, |f.blocks[p].instructions|);
  }

  /** After the instructions, the terminator. */
  lemma {:induction false} EffectRuns<M(!new)>(
      w: World<M>, m: Machine, f: Function, text: seq<Line>, starts: seq<nat>, p: nat, c: Cpu<M>,
      end: nat, e: Effect<M>)
    returns (d: Cpu<M>)
    requires Faithful(m, f, text, starts) && p < |f.blocks| && Sub(text, end, RenderTerminator(f.blocks[p].terminator))
    requires !e.Unfinished? && Runs(w, text, c, end, EndOf(f, p), e)
    ensures Reaches(w, text, c, d) && Corresponds(text, starts, AfterEffect(f, f.blocks[p].terminator, e), d)
  {
    match e
    case Next(s1) =>
      d := LeaveRuns(w, m, f, text, starts, p, end, s1);
      Then(w, text, c, Running(end, EndOf(f, p), s1), d);
    case Stop(o) => d := Halted(o);
  }

  /** From the start of block p the text reaches what the step of the run yields. */
  ghost predicate StepReaches<M(!new)>(w: World<M>, text: seq<Line>, starts: seq<nat>, p: nat, s: State<M>, r: Run<M>)
  {
    p < |starts| && exists d :: Reaches(w, text, Running(starts[p] + 1, B(p), s), d) && Corresponds(text, starts, r, d)
  }

  lemma {:induction false} BlockRuns<M(!new)>(
      w: World<M>, m: Machine, f: Function, text: seq<Line>, starts: seq<nat>, p: nat, s: State<M>, rounds: nat)
    requires Faithful(m, f, text, starts) && p < |f.blocks|
    ensures var r := BlockStep(w, m, f, rounds)(p, s); !r.OutOfRounds? ==> StepReaches(w, text, starts, p, s, r)
  {
    var at, b := starts[p], f.blocks[p];
    assert BlockAt(m, text, b, at);
    BodyOf(m, text, b, at);
    InstructionsRun(w, m, f, text, at, p, s, rounds);
    var e := ExecAll(w, m, b.instructions, s, rounds);
    if !e.Unfinished? {
      var d := EffectRuns(w, m, f, text, starts, p, Running(at + 1, B(p), s),
        at + 1 + |RenderInstructions(m, b.instructions)|, e);
    }
  }

  // ---- whole runs ----

  /** Any number of blocks, from the start of any block. */
  lemma {:induction false} BlocksRun<M(!new)>(
      w: World<M>, text: seq<Line>, starts: seq<nat>, step: (nat, State<M>) -> Run<M>, p: nat, s: State<M>, n: nat)
    requires p < |starts| && !RunFrom(step, p, s, n).OutOfRounds?
    requires forall q: nat, s :: q < |starts| && !step(q, s).OutOfRounds? ==>
      StepReaches(w, text, starts, q, s, step(q, s))
    ensures StepReaches(w, text, starts, p, s, RunFrom(step, p, s, n))
    decreases n
  {
    if n == 0 {
      var c := Running(starts[p] + 1, B(p), s);
      NoStep(w, text, c);
      assert Corresponds(text, starts, AtBlock(p, s), c);
    } else {
      var r := step(p, s);
      assert StepReaches(w, text, starts, p, s, r);
      var middle :| Reaches(w, text, Running(starts[p] + 1, B(p), s), middle) && Corresponds(text, starts, r, middle);
      if r.AtBlock? {
        BlocksRun(w, text, starts, step, r.block, r.s, n - 1);
        var d :| Reaches(w, text, middle, d) && Corresponds(text, starts, RunFrom(step, r.block, r.s, n - 1), d);
        Then(w, text, Running(starts[p] + 1, B(p), s), middle, d);
      }
    }
  }

  /** Rendering preserves meaning: whatever state a run of the function reaches after any number of
      blocks, the rendered text, started at its first line, reaches the same one, and it ends when the
      run ends, with the same outcome. */
  lemma {:induction false} RenderingPreservesRuns<M(!new)>(
      w: World<M>, m: Machine, f: Function, edges: seq<Incoming>, text: seq<Line>,
      s: State<M>, rounds: nat, n: nat) returns (starts: seq<nat>, d: Cpu<M>)
    requires WellFormed(f) && IsInventory(f, edges) && text == RenderFunction(m, f, IncomingTo(edges))
    requires !RunBlocks(w, m, f, s, rounds, n).OutOfRounds?
    ensures Faithful(m, f, text, starts)
    ensures Reaches(w, text, Running(1, B(f.entry), s), d)
    ensures Corresponds(text, starts, RunBlocks(w, m, f, s, rounds, n), d)
  {
    RenderingIs(m, f, IncomingTo(edges), text);
    ArgumentsAllFlow(f, edges);
    starts, d := TextRuns(w, m, f, IncomingTo(edges), text, s, rounds, n);
  }

  lemma {:induction false} TextRuns<M(!new)>(
      w: World<M>, m: Machine, f: Function, incoming: nat -> seq<Incoming>, text: seq<Line>,
      s: State<M>, rounds: nat, n: nat) returns (starts: seq<nat>, d: Cpu<M>)
    requires DenseIds(f) && UniqueIds(f) && IsRendering(m, f, incoming, text)
    requires !RunBlocks(w, m, f, s, rounds, n).OutOfRounds?
    requires forall p, e :: 0 <= p < |f.blocks| && e in Successors(f.blocks[p].terminator) ==>
      ArgumentsFlow(f, incoming, p, e)
    ensures Faithful(m, f, text, starts)
    ensures Reaches(w, text, Running(1, B(f.entry), s), d)
    ensures Corresponds(text, starts, RunBlocks(w, m, f, s, rounds, n), d)
  {
    starts := RenderedFaithful(m, f, incoming, text);
    d := FaithfulRuns(w, m, f, text, starts, s, rounds, n);
  }

  lemma {:induction false} FaithfulRuns<M(!new)>(
      w: World<M>, m: Machine, f: Function, text: seq<Line>, starts: seq<nat>, s: State<M>, rounds: nat, n: nat)
    returns (d: Cpu<M>)
    requires f.entry < |f.blocks| && Faithful(m, f, text, starts) && !RunBlocks(w, m, f, s, rounds, n).OutOfRounds?
    ensures Reaches(w, text, Running(starts[f.entry] + 1, B(f.entry), s), d)
    ensures Corresponds(text, starts, RunBlocks(w, m, f, s, rounds, n), d)
  {
    var step := BlockStep(w, m, f, rounds);
    forall q: nat, s | q < |starts| && !step(q, s).OutOfRounds? ensures StepReaches(w, text, starts, q, s, step(q, s)) {
      BlockRuns(w, m, f, text, starts, q, s, rounds);
    }
    BlocksRun(w, text, starts, step, f.entry, s, n);
    d :| Reaches(w, text, Running(starts[f.entry] + 1, B(f.entry), s), d)
      && Corresponds(text, starts, RunFrom(step, f.entry, s, n), d);
  }
}
