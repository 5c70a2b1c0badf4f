/** Checked arithmetic inside a running function: when the straight-line parts of a checked instruction
    compute what was emitted for it, running the instruction is running the checked operation. With the
    preservation of runs this carries the numeric results over to the rendered text. */
module CheckedExecution {
  import opened Wrappers
  import opened MachineWir
  import opened Bits
  import opened Ieee754
  import opened Renderer
  import opened Llvm
  import opened Simulation
  import Ssa
  import CheckedInteger
  import Conversions

  /** Part 0 evaluates the failure flag and the code of the fatal call, part 1 the result, all from the
      operands. `code` reads from memory the code that a fatal call passes. */
  ghost predicate ImplementsChecked<M(!new)>(
      w: World<M>, i: Instruction, c: Ssa.Checked, operands: seq<nat>, result: nat, code: M -> nat)
  {
    && (forall s :: Prepares(w, i.id, c, operands, code, s))
    && (forall s :: Finishes(w, i.id, c, operands, result, s))
  }

  ghost predicate Prepares<M>(w: World<M>, id: nat, c: Ssa.Checked, operands: seq<nat>, code: M -> nat, s: State<M>)
  {
    var args, s1 := ReadAll(s, operands), w.act(id, 0, s);
    && s1.values == s.values
    && (Ssa.Eval(c.failed, args).Val? ==> (w.test(Failed(id), s1) <==> Ssa.Eval(c.failed, args).n != 0))
    && (Ssa.Eval(c.code, args).Val? ==> code(s1.memory) == Ssa.Eval(c.code, args).n)
  }

  ghost predicate Finishes<M>(w: World<M>, id: nat, c: Ssa.Checked, operands: seq<nat>, result: nat, s: State<M>)
  {
    var value := Ssa.Eval(c.result, ReadAll(s, operands));
    value.Val? ==> w.act(id, 1, s).values == s.values[result := value.n]
  }

  /** What running the instruction comes to, given the outcome of the checked operation. */
  ghost predicate Matches<M(!new)>(
      e: Effect<M>, o: Ssa.Outcome, w: World<M>, id: nat, result: nat, code: M -> nat, s: State<M>)
  {
    match o
    case Result(n) => e.Next? && e.s.values == s.values[result := n]
    case Fatal(n) =>
      e.Stop? && exists s1 ::
        e.outcome == Trap(w, id, FatalIntrinsic, s1) && code(s1.memory) == n && s1.values == s.values
    case Undefined => true
  }

  /** A checked instruction returns the operation's result, or traps with the operation's code. */
  lemma {:induction false} CheckedRuns<M(!new)>(
      w: World<M>, i: Instruction, c: Ssa.Checked, operands: seq<nat>, result: nat, code: M -> nat, s: State<M>)
    requires ImplementsChecked(w, i, c, operands, result, code)
    ensures Matches(ExecGuarded(w, i.id, s), Ssa.Run(c, ReadAll(s, operands)), w, i.id, result, code, s)
  {
    var s1 := w.act(i.id, 0, s);
    assert Prepares(w, i.id, c, operands, code, s) && Finishes(w, i.id, c, operands, result, s1);
    assert ReadAll(s1, operands) == ReadAll(s, operands) by { SameValues(s, s1, operands); }
    match Ssa.Run(c, ReadAll(s, operands))
    case Fatal(n) => assert ExecGuarded(w, i.id, s).outcome == Trap(w, i.id, FatalIntrinsic, s1);
    case _ =>
  }

  lemma {:induction false} SameValues<M>(s: State<M>, t: State<M>, vs: seq<nat>)
    requires s.values == t.values
    ensures ReadAll(s, vs) == ReadAll(t, vs)
  {
    assert forall k :: 0 <= k < |vs| ==> ReadAll(s, vs)[k] == ReadAll(t, vs)[k];
  }

  // ---- such worlds exist ----

  /** The flag and the code of the checked instruction that runs. */
  datatype Scratch = Scratch(failed: bool, code: nat)

  function NumberOr(v: Ssa.Word, n: nat): nat { match v case Poison => n case Val(k) => k }

  function ActChecked(c: Ssa.Checked, operands: seq<nat>, result: nat, part: nat, s: State<Scratch>): State<Scratch>
  {
    var args := ReadAll(s, operands);
    if part == 0 then
      s.(memory := Scratch(NumberOr(Ssa.Eval(c.failed, args), 0) != 0, NumberOr(Ssa.Eval(c.code, args), 0)))
    else s.(values := s.values[result := NumberOr(Ssa.Eval(c.result, args), 0)])
  }

  function CheckedWorld(c: Ssa.Checked, operands: seq<nat>, result: nat): World<Scratch>
  {
    World((_: nat, part: nat, s: State<Scratch>) => ActChecked(c, operands, result, part, s),
          (_: Temp, s: State<Scratch>) => s.memory.failed,
          (_: nat, _: State<Scratch>) => 0,
          (_: nat, _: nat, _: State<Scratch>) => None,
          (_: nat, _: Intrinsic, _: State<Scratch>) => None)
  }

  lemma {:induction false} CheckedWorldImplements(i: Instruction, c: Ssa.Checked, operands: seq<nat>, result: nat)
    ensures ImplementsChecked(CheckedWorld(c, operands, result), i, c, operands, result, (m: Scratch) => m.code)
  {
    var w, code := CheckedWorld(c, operands, result), (m: Scratch) => m.code;
    forall s ensures Prepares(w, i.id, c, operands, code, s) {
      assert w.act(i.id, 0, s) == ActChecked(c, operands, result, 0, s);
    }
    forall s ensures Finishes(w, i.id, c, operands, result, s) {
      assert w.act(i.id, 1, s) == ActChecked(c, operands, result, 1, s);
    }
  }

  // ---- instructions ----

  /** The instruction `result := x op y` of width w leaves the exact result, or traps exactly when it has
      no word. */
  lemma {:induction false} WidenedInstruction<M(!new)>(
      world: World<M>, i: Instruction, op: CheckedInteger.WidenedOp, signed: bool, w: nat, fatal: nat,
      x: nat, y: nat, result: nat, code: M -> nat, s: State<M>)
    requires w > 0 && Read(s, x) < Pow2(w) && Read(s, y) < Pow2(w)
    requires ImplementsChecked(world, i, CheckedInteger.RenderWidened(op, signed, w, fatal), [x, y], result, code)
    ensures var r := CheckedInteger.Exact(op, CheckedInteger.Read(signed, w, Read(s, x)),
      CheckedInteger.Read(signed, w, Read(s, y)));
      var o := if InRange(signed, w, r) then Ssa.Result(CheckedInteger.EncodeInRange(signed, w, r))
               else Ssa.Fatal(fatal);
      Matches(ExecGuarded(world, i.id, s), o, world, i.id, result, code, s)
  {
    CheckedInteger.WidenedCorrect(op, signed, w, fatal, Read(s, x), Read(s, y));
    assert ReadAll(s, [x, y]) == [Read(s, x), Read(s, y)];
    CheckedRuns(world, i, CheckedInteger.RenderWidened(op, signed, w, fatal), [x, y], result, code, s);
  }

  /** An integer conversion keeps the value, or traps exactly when the destination cannot hold it. */
  lemma {:induction false} ConversionInstruction<M(!new)>(
      world: World<M>, i: Instruction, signed: bool, w: nat, toSigned: bool, toBits: nat, fatal: nat,
      x: nat, result: nat, code: M -> nat, s: State<M>)
    requires w > 0 && toBits > 0 && Read(s, x) < Pow2(w)
    requires ImplementsChecked(world, i,
      Conversions.RenderIntegerConversion(signed, w, toSigned, toBits, fatal), [x], result, code)
    ensures var v := CheckedInteger.Read(signed, w, Read(s, x));
      var o := if InRange(toSigned, toBits, v) then Ssa.Result(CheckedInteger.EncodeInRange(toSigned, toBits, v))
               else Ssa.Fatal(fatal);
      Matches(ExecGuarded(world, i.id, s), o, world, i.id, result, code, s)
  {
    Conversions.IntegerConversionCorrect(signed, w, toSigned, toBits, fatal, Read(s, x));
    assert ReadAll(s, [x]) == [Read(s, x)];
    CheckedRuns(world, i, Conversions.RenderIntegerConversion(signed, w, toSigned, toBits, fatal), [x], result, code,
      s);
  }

  // ---- the rendered text ----

  /** Where the text of a checked instruction leads. */
  ghost predicate TextMatches<M(!new)>(
      w: World<M>, text: seq<Line>, from: Cpu<M>, end: nat, o: Ssa.Outcome, id: nat, result: nat, code: M -> nat)
    requires from.Running?
  {
    match o
    case Result(n) =>
      exists t: State<M> :: t.values == from.s.values[result := n] && Reaches(w, text, from, Running(end, I(id, Ok), t))
    case Fatal(n) =>
      exists t: State<M> :: code(t.memory) == n && Reaches(w, text, from, Halted(Trap(w, id, FatalIntrinsic, t)))
    case Undefined => true
  }

  /** The text rendered for a checked instruction reaches its `ok` block with the operation's result, or
      the fatal intrinsic with the operation's code. */
  lemma {:induction false} CheckedTextRuns<M(!new)>(
      w: World<M>, m: Machine, text: seq<Line>, at: nat, l: BlockName, i: Instruction, c: Ssa.Checked,
      operands: seq<nat>,
      result: nat, code: M -> nat, s: State<M>)
    requires Distinct(text) && Sub(text, at, RenderInstruction(m, i))
    requires (i.operation.CheckedInteger? || i.operation.CheckedConvert?)
    requires ImplementsChecked(w, i, c, operands, result, code)
    ensures var end := at + |RenderInstruction(m, i)|;
      TextMatches(w, text, Running(at, l, s), end, Ssa.Run(c, ReadAll(s, operands)), i.id, result, code)
  {
    InstructionRuns(w, m, text, at, l, i, s, 0);
    CheckedRuns(w, i, c, operands, result, code, s);
  }
}
