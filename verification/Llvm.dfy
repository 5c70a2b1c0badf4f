/** Execution of rendered LLVM lines: a program counter over the text, jumps that resolve labels, and
    phis that read the label control came from. */
module Llvm {
  import opened Wrappers
  import opened MachineWir
  import opened Renderer

  datatype Cpu<M> = Running(pc: nat, block: BlockName, s: State<M>) | Halted(outcome: Outcome<M>)

  function Find(text: seq<Line>, l: BlockName): (r: Option<nat>)
    ensures r.Some? ==> r.value < |text| && text[r.value].Label? && text[r.value].l == l
    ensures r.None? ==> forall k :: 0 <= k < |text| && text[k].Label? ==> text[k].l != l
  {
    if |text| == 0 then None
    else if text[0].Label? && text[0].l == l then Some(0)
    else
      match Find(text[1..], l)
      case None => None
      case Some(k) => Some(k + 1)
  }

  /** The value a phi takes from an origin. */
  function Lookup(entries: seq<Entry>, origin: BlockName): Option<nat>
  {
    if |entries| == 0 then None
    else if entries[0].origin == origin then Some(entries[0].value)
    else Lookup(entries[1..], origin)
  }

  function PhiValues(phis: seq<Phi>, origin: BlockName): Option<seq<nat>>
  {
    if |phis| == 0 then Some([])
    else
      match (Lookup(phis[0].entries, origin), PhiValues(phis[1..], origin))
      case (Some(v), Some(vs)) => Some([v] + vs)
      case _ => None
  }

  function PhiResults(phis: seq<Phi>): (r: seq<nat>)
    ensures |r| == |phis|
  {
    if |phis| == 0 then [] else [phis[0].result] + PhiResults(phis[1..])
  }

  /** Control enters `target` from `origin`: all its phis read the old values. */
  function Enter<M>(text: seq<Line>, origin: BlockName, target: BlockName, s: State<M>): Cpu<M>
  {
    match Find(text, target)
    case None => Halted(Stuck)
    case Some(k) =>
      match PhiValues(text[k].phis, origin)
      case None => Halted(Stuck)
      case Some(vs) =>
        if |vs| != |text[k].phis| then Halted(Stuck)
        else Running(k + 1, target, s.(values := Assign(s.values, PhiResults(text[k].phis), ReadAll(s, vs))))
  }

  function SwitchTarget(cases: seq<SwitchCase>, default: BlockName, value: nat): BlockName
  {
    if |cases| == 0 then default
    else if cases[0].value == value then cases[0].target
    else SwitchTarget(cases[1..], default, value)
  }

  predicate IsBranch(line: Line) { line.Br? || line.BrIf? || line.BrValue? || line.SwitchTag? || line.SwitchValue? }

  function Taken<M>(w: World<M>, line: Line, s: State<M>): BlockName
    requires IsBranch(line)
  {
    match line
    case Br(l) => l
    case BrIf(test, yes, no) => if w.test(test, s) then yes else no
    case BrValue(v, yes, no) => if Read(s, v) != 0 then yes else no
    case SwitchTag(id, cases, default) => SwitchTarget(cases, default, w.tag(id, s))
    case SwitchValue(v, cases, default) => SwitchTarget(cases, default, Read(s, v))
  }

  function Step<M>(w: World<M>, text: seq<Line>, c: Cpu<M>): Cpu<M>
    requires c.Running?
  {
    if c.pc >= |text| then Halted(Stuck)
    else
      match text[c.pc]
      case Label(_, _) => Halted(Stuck)    // a block does not fall through into the next
      case Code(id, part) => Running(c.pc + 1, c.block, w.act(id, part, c.s))
      case CallFunction(id, f) =>
        (match w.call(id, f, c.s)
         case None => Halted(LeftIn(f, c.s)) case Some(back) => Running(c.pc + 1, c.block, back))
      case CallIntrinsic(id, x) =>
        (match w.runtime(id, x, c.s)
         case None => Halted(LeftBy(x, c.s)) case Some(back) => Running(c.pc + 1, c.block, back))
      case TailCallFunction(f, arguments) => Halted(TailCalled(f, ReadAll(c.s, arguments), c.s))
      case Ret(values) => Halted(Returned(if |values| > 0 then Some(Read(c.s, values[0])) else None, c.s))
      case UnreachableLine => Halted(Undefined)
      case branch => Enter(text, c.block, Taken(w, branch, c.s), c.s)
  }

  function Advance<M>(w: World<M>, text: seq<Line>): Cpu<M> -> Cpu<M>
  {
    (c: Cpu<M>) => if c.Running? then Step(w, text, c) else c
  }

  predicate OpenReach<M>(k: int, c: Cpu<M>, d: Cpu<M>) { true }

  ghost predicate ReachesInSteps<M(!new)>(w: World<M>, text: seq<Line>, c: Cpu<M>, d: Cpu<M>)
  {
    exists n: nat :: Iterate(Advance(w, text), c, n) == d
  }

  /** Some number of steps leads from c to d. Like the two predicates on texts below, it is folded
      under a guard, so that proofs use the lemmas about it and not its definition. */
  ghost predicate Reaches<M(!new)>(w: World<M>, text: seq<Line>, c: Cpu<M>, d: Cpu<M>)
  {
    forall k {:trigger OpenReach(k, c, d)} :: OpenReach(k, c, d) ==> ReachesInSteps(w, text, c, d)
  }

  lemma {:induction false} ReachesMeans<M(!new)>(w: World<M>, text: seq<Line>, c: Cpu<M>, d: Cpu<M>)
    ensures Reaches(w, text, c, d) <==> ReachesInSteps(w, text, c, d)
  {
    assert OpenReach(0, c, d);
  }

  function Iterate<C>(step: C -> C, c: C, n: nat): C
  {
    if n == 0 then c else Iterate(step, step(c), n - 1)
  }

  lemma {:induction false} IterateAdd<C>(step: C -> C, c: C, n: nat, k: nat)
    ensures Iterate(step, Iterate(step, c, n), k) == Iterate(step, c, n + k)
  {
    if n > 0 { IterateAdd(step, step(c), n - 1, k); }
  }

  lemma {:induction false} Then<M(!new)>(w: World<M>, text: seq<Line>, c: Cpu<M>, d: Cpu<M>, e: Cpu<M>)
    requires Reaches(w, text, c, d) && Reaches(w, text, d, e)
    ensures Reaches(w, text, c, e)
  {
    ReachesMeans(w, text, c, d);
    ReachesMeans(w, text, d, e);
    var step := Advance(w, text);
    var n: nat :| Iterate(step, c, n) == d;
    var k: nat :| Iterate(step, d, k) == e;
    IterateAdd(step, c, n, k);
    ReachesMeans(w, text, c, e);
  }

  lemma {:induction false} NoStep<M(!new)>(w: World<M>, text: seq<Line>, c: Cpu<M>)
    ensures Reaches(w, text, c, c)
  {
    assert Iterate(Advance(w, text), c, 0) == c;
    ReachesMeans(w, text, c, c);
  }

  lemma {:induction false} OneStep<M(!new)>(w: World<M>, text: seq<Line>, c: Cpu<M>, d: Cpu<M>)
    requires c.Running? && Step(w, text, c) == d
    ensures Reaches(w, text, c, d)
  {
    var step := Advance(w, text);
    assert step(c) == d;
    assert Iterate(step, d, 0) == d;
    assert Iterate(step, c, 1) == d;
    ReachesMeans(w, text, c, d);
  }

  // ---- labels ----

  ghost predicate LabelsDiffer(lines: seq<Line>)
  {
    forall j, k :: 0 <= j < k < |lines| && lines[j].Label? && lines[k].Label? ==> lines[j].l != lines[k].l
  }

  predicate OpenLabels(k: int, lines: seq<Line>) { true }

  /** No label is defined twice. */
  ghost predicate Distinct(lines: seq<Line>)
  {
    forall k {:trigger OpenLabels(k, lines)} :: OpenLabels(k, lines) ==> LabelsDiffer(lines)
  }

  lemma {:induction false} DistinctMeans(lines: seq<Line>)
    ensures Distinct(lines) <==> LabelsDiffer(lines)
  {
    assert OpenLabels(0, lines);
  }

  lemma {:induction false} FindUnique(text: seq<Line>, k: nat)
    requires Distinct(text) && k < |text| && text[k].Label?
    ensures Find(text, text[k].l) == Some(k)
  {
    DistinctMeans(text);
    var r := Find(text, text[k].l);
    assert r.Some?;
  }

  lemma {:induction false} EnterBare<M>(text: seq<Line>, origin: BlockName, k: nat, s: State<M>)
    requires Distinct(text) && k < |text| && text[k].Label? && text[k].phis == []
    ensures Enter(text, origin, text[k].l, s) == Running(k + 1, text[k].l, s)
  {
    FindUnique(text, k);
  }

  // ---- fragments of a text ----

  predicate StandsAt(text: seq<Line>, at: nat, lines: seq<Line>)
  {
    at + |lines| <= |text| && text[at..at + |lines|] == lines
  }

  predicate OpenSub(k: int, at: nat, lines: seq<Line>) { true }

  /** `lines` stand in the text at a position. */
  ghost predicate Sub(text: seq<Line>, at: nat, lines: seq<Line>)
  {
    forall k {:trigger OpenSub(k, at, lines)} :: OpenSub(k, at, lines) ==> StandsAt(text, at, lines)
  }

  lemma {:induction false} SubMeans(text: seq<Line>, at: nat, lines: seq<Line>)
    ensures Sub(text, at, lines) <==> StandsAt(text, at, lines)
  {
    assert OpenSub(0, at, lines);
  }

  lemma {:induction false} SubAt(text: seq<Line>, at: nat, lines: seq<Line>, k: nat)
    requires Sub(text, at, lines) && k < |lines|
    ensures at + |lines| <= |text| && text[at + k] == lines[k]
  {
    SubMeans(text, at, lines);
    assert text[at..at + |lines|][k] == lines[k];
  }

  lemma {:induction false} SubSplit(text: seq<Line>, at: nat, a: seq<Line>, b: seq<Line>)
    requires Sub(text, at, a + b)
    ensures Sub(text, at, a) && Sub(text, at + |a|, b)
  {
    SubMeans(text, at, a + b);
    assert text[at..at + |a|] == (a + b)[..|a|];
    assert text[at + |a|..at + |a| + |b|] == (a + b)[|a|..];
    SubMeans(text, at, a);
    SubMeans(text, at + |a|, b);
  }
}
