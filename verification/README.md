# Wrela back end: a verified model

Wrela compiles a closed image to one COFF object. This project models the part of the compiler
between MachineWir and that object, and the process boundary around it, in Dafny 4.11:

* **Numeric lowering.** The renderer writes straight-line LLVM IR for operations it does not leave to
  library calls. `Ssa` is that fragment of IR with a strict evaluator: every poison operand, every shift
  count that reaches its width and every undefined division spoils the result, so a proof that an
  expansion evaluates to a number is also a proof that none of these happens. `Division`, `IntToFloat`,
  `FloatToInt`, `CheckedInteger` and `Conversions` hold the emitters and prove what they evaluate to, for
  every width and every binary interchange format at once (`Ieee754`; `SourceTypesCovered` lists the types
  of the source language). Words are naturals below 2^w; wrap-around is written out.
* **Control flow.** `MachineWir` says what running a function means, `Renderer` renders it to lines with
  labels, phis and branches, `Llvm` executes the lines with a program counter. `Simulation`, `Labels`,
  `BlockArguments` and `RenderedRuns` prove that the text runs as the function does. `WellFormed` collects
  what validation establishes: dense block ids, instruction ids unique in the function, an entry without
  parameters (crates/wrela-machine-wir/src/lib.rs:3175-3408), arguments that match their target's parameters
  (8401-8425) and equal arguments on parallel edges (6415-6480). `CheckedExecution` puts the numeric results
  into such runs: a checked instruction returns the operation's result or traps with its code, in MachineWir
  and in the text.
* **Actors.** `Mailboxes` interleaves the atomic accesses of any number of agents; `ActorOperations` gives
  the memory accesses of each rendered actor operation and the outcomes of running it; `MailboxRefinement`
  shows that each access is a step of the mailbox system; `CalleeRuns` follows the turn that a reply request
  calls through its blocks and its own calls, to any depth.
* **The COFF auditor.** `CallSites`, `SchedulerRules`, `Relocations`, `RuntimeCalls`, `RelocationAudit`,
  `SectionStorage`, `ObjectLayout` and `Unwind` model the checks that re-derive from MachineWir what the object
  must contain, and the validation they rely on. Each check is a
  method with the loops, searches and counters of the original, proved to accept exactly what a
  declarative specification describes. The formats are those of the Microsoft PE Format specification,
  sections "COFF Relocations (Object Only)", "COFF Symbol Table" and "The .pdata Section".
* **Protocol, profile and publication.** `Codec` combines codecs that are exact in both directions;
  `BuildModel` and `Protocol` build the profile, identity, request and response from them;
  `ProtocolReader` consumes a frame in place, read by read, and `ProtocolWriter` builds one push by push, each
  in the order of the source and each proved equal to the codec; `Publisher` is the staged two-file commit.

The encodings follow IEEE 754-2019: interchange formats (section 3.4), roundTiesToEven (section 4.3.1) and
conversion to integer toward zero (section 5.8).

One thing turned out false in general, and is stated with the exact condition: LLVM leaves `srem` undefined
at (MIN, -1), and the renderer guards that pair only for division. Below 128 bits a signed remainder of it is
undefined (`RemainderUndefined`), and `DivisionCorrect` shows it is the only such case.

Renderer and auditor count the calls of a dispatch by different loops, which agree exactly when the auditor
visits the turns of the mailbox and none of them twice (`DispatchAgreesExactly`). Neither loop checks that; validation does
(crates/wrela-machine-wir/src/lib.rs:4049-4075, 4189-4212, 4295 and 4445-4469, repeated in
crates/wrela-codegen-llvm/src/validate.rs:983-1005 and 1046-1091). `SchedulerRules` models these rules and
derives the agreement (`ValidatedDispatchConsistent`); `RepeatedTurnDisagrees` shows that they are needed, on a
machine that validation refuses.

Reserving a mailbox only tests it. In a run of any interleaving, messages are conserved exactly when every
commit finds its mailbox empty and every receive's store finds its own tag (`RunConservesExactly`). It is
enough that no other commit falls between a reserve and its own commit, and that a mailbox has one receiver at
a time (`Serial`, `SerialIsHarmless`); `StaleCommitLosesMessage` and `TwoReceiversTakeOneMessage` show runs in
which one or the other is missing.

Run `dafny verify dfyconfig.toml` in this directory to check the project.

## Model

| member | source | states |
|---|---|---|
| Ieee754.RoundIsNearestEven | crates/wrela-codegen-llvm/src/ir.rs:2086-2366 | the integer arithmetic for rounding yields, for every magnitude in the format's range, the pattern that section 4.3.1 of IEEE 754-2019 prescribes: a nearest finite number, the even one of two, infinity from the overflow midpoint on |
| Ieee754.NearestEvenUnique | crates/wrela-codegen-llvm/src/ir.rs:2086-2366 | the standard's condition admits one pattern, so the result is determined |
| Ieee754.ScaledNext | crates/wrela-codegen-llvm/src/ir.rs:3303-3324 | consecutive bit patterns differ by one unit in the last place, also where the exponent changes |
| IntToFloat.ShiftsCorrect | crates/wrela-codegen-llvm/src/ir.rs:2097-2174 | sign, magnitude, zero flag, exponent and both shift counts of every source word, each count below the width |
| IntToFloat.RoundUpCorrect | crates/wrela-codegen-llvm/src/ir.rs:2194-2272 | the emitted rounding decision is true exactly when the dropped bits round the significand up, ties to even |
| IntToFloat.BitsCorrect | crates/wrela-codegen-llvm/src/ir.rs:2278-2328 | a carry out of the significand moves into the exponent; the packed fields are the rounded pattern |
| IntToFloat.SignCorrect | crates/wrela-codegen-llvm/src/ir.rs:2328-2366 | the sign is added for negative sources only and zero yields the zero pattern |
| IntToFloat.ExpandRounds | crates/wrela-codegen-llvm/src/ir.rs:2086-2366 | for every signed or unsigned source the whole expansion evaluates, without poison, to the correctly rounded pattern |
| FloatToInt.LowerExact | crates/wrela-codegen-llvm/src/ir.rs:3326-3367 | comparing with the chosen lower bound, strictly or not, says exactly whether the truncation is not below the destination's range |
| FloatToInt.UpperExact | crates/wrela-codegen-llvm/src/ir.rs:3369-3383 | the upper comparison says exactly whether the truncation is not above the range |
| FloatToInt.RangeTestExact | crates/wrela-codegen-llvm/src/ir.rs:3223-3266 | for every bit pattern, NaN, infinities, subnormals and -0 included, the guard fails exactly when truncation toward zero has no value in the destination |
| FloatToInt.FieldsCorrect | crates/wrela-codegen-llvm/src/ir.rs:2368-2456 | the emitted masks and shifts extract sign, exponent and significand |
| FloatToInt.ExponentBelowWidth | crates/wrela-codegen-llvm/src/ir.rs:2456-2530 | a magnitude that fits the destination has an exponent below the width, so no emitted shift count reaches it |
| FloatToInt.ExtractionExact | crates/wrela-codegen-llvm/src/ir.rs:2368-2567 | whatever passes the guard is extracted to the word of its truncation |
| Division.AppendBit | crates/wrela-codegen-llvm/src/ir.rs:1769-1872 | one restoring step: appending a dividend bit updates quotient and remainder as the comparison with the divisor says |
| Division.StepCorrect | crates/wrela-codegen-llvm/src/ir.rs:1769-1872 | after step k the partial remainder is the top k dividend bits modulo the divisor and the left shift has lost no bit, also for divisors above half the range |
| Division.RenderDivision | crates/wrela-codegen-llvm/src/ir.rs:1710-1921 | the emitting loop produces the expansion, one step per bit |
| Division.ExpandDivides | crates/wrela-codegen-llvm/src/ir.rs:1710-1921 | for every nonzero divisor the expansion yields the truncated quotient or remainder; signed MIN rem -1 yields 0 |
| Bits.QuotientIsDiv | crates/wrela-codegen-llvm/src/ir.rs:1710-1921 | the quotient and remainder these statements speak of are those of integer division |
| CheckedInteger.WidenedCorrect | crates/wrela-codegen-llvm/src/ir.rs:1384-1457 | checked add, subtract and multiply trap exactly when the integer result is unrepresentable and otherwise return it |
| CheckedInteger.DivisionGuard | crates/wrela-codegen-llvm/src/ir.rs:1458-1500 | the failure flag is set exactly for a zero divisor and for signed MIN / -1 |
| CheckedInteger.DivisionRange | crates/wrela-codegen-llvm/src/ir.rs:1466-1495 | MIN / -1 is the only quotient without a word; every remainder has one |
| CheckedInteger.DivisionCorrect | crates/wrela-codegen-llvm/src/ir.rs:1458-1527 | division and remainder trap exactly when there is no result and otherwise return the truncated one; the one undefined case is a signed remainder of (MIN, -1) below 128 bits |
| CheckedInteger.RemainderUndefined | crates/wrela-codegen-llvm/src/ir.rs:1516-1527 | the unguarded `srem` of (MIN, -1) is poison |
| CheckedInteger.CountInvalidExact | crates/wrela-codegen-llvm/src/ir.rs:1528-1562 | the count test fails exactly for counts outside 0 to width - 1 |
| CheckedInteger.LostExact | crates/wrela-codegen-llvm/src/ir.rs:1586-1606 | shifting back restores the operand exactly when operand * 2^count is representable |
| CheckedInteger.ShiftLeftCorrect | crates/wrela-codegen-llvm/src/ir.rs:1528-1650 | an invalid count traps with its own code before lost bits do; lost bits trap exactly when the product is unrepresentable; otherwise the result is exact |
| CheckedInteger.ShiftLeftWrappingCorrect | crates/wrela-codegen-llvm/src/ir.rs:1528-1650 | the wrapping shift checks its count and keeps the low bits |
| CheckedInteger.ShiftRightCorrect | crates/wrela-codegen-llvm/src/ir.rs:1651-1705 | the right shift checks its count and rounds down |
| Conversions.ValidExact | crates/wrela-codegen-llvm/src/ir.rs:2617-2680 | round trip and sign test together hold exactly when the source value is in the destination's range |
| Conversions.IntegerConversionCorrect | crates/wrela-codegen-llvm/src/ir.rs:2570-2691 | conversion between any two widths and signednesses traps exactly when the value is out of range and otherwise keeps it |
| Conversions.InfinityTestExact | crates/wrela-codegen-llvm/src/ir.rs:3141-3185 | the two float comparisons answer true exactly on the infinite patterns, and false on NaN |
| Conversions.FiniteTestExact | crates/wrela-codegen-llvm/src/ir.rs:3187-3221 | the two `one` comparisons answer true exactly on finite patterns, and false on NaN |
| Conversions.FloatConversionCorrect | crates/wrela-codegen-llvm/src/ir.rs:1994-2042 | for every source and converted pattern, a conversion between floats traps exactly when it narrows a finite number to an infinity; infinities and NaN pass, widening never traps |
| Conversions.IntToFloatCorrect | crates/wrela-codegen-llvm/src/ir.rs:1956-1993 | an integer converts to the nearest float, ties to even, and traps exactly when that overflows |
| Conversions.OverflowsFrom | crates/wrela-codegen-llvm/src/ir.rs:1984-1993 | overflow begins exactly at 2^(bias + 1) - 2^(bias - mantissa bits - 1), which is 2^128 - 2^103 for binary32 |
| Conversions.OverflowNeedsWidth | crates/wrela-codegen-llvm/src/ir.rs:1984-1993 | no signed source and none narrower than the format's range ever traps |
| Conversions.SourceOverflowExact | crates/wrela-codegen-llvm/src/ir.rs:1956-1993 | of all integer-to-float conversions of the source language, exactly those of unsigned 128-bit values from 2^128 - 2^103 on to binary32 trap |
| Conversions.FloatToIntCorrect | crates/wrela-codegen-llvm/src/ir.rs:2043-2083 | a float converts to its truncation and traps exactly when that is out of range or missing; the guarded instruction is never poison |
| Conversions.SourceTypesCovered | crates/wrela-codegen-llvm/src/ir.rs:3385-3395 | the general results apply to binary32, binary64 and widths 8 to 128 |
| Sorting.MergeSort | crates/wrela-codegen-llvm/src/lib.rs:707-762 | the bottom-up merge sort sorts, permutes, and keeps the order of equal elements |
| Sorting.PassCorrect | crates/wrela-codegen-llvm/src/lib.rs:731-760 | one pass doubles the length of sorted runs and keeps every class of equal elements in order |
| Sorting.BinarySearch | crates/wrela-codegen-llvm/src/lib.rs:871-887 | finds a matching element exactly when there is one |
| MachineWir.SortedDistinctCorrect | crates/wrela-codegen-llvm/src/ir.rs:3014-3030 | the method table of a dispatch is strictly increasing and has exactly the collected turns |
| Renderer.CheckedContinuation | crates/wrela-codegen-llvm/src/ir.rs:4191-4212 | the search from the end finds the last instruction that opens a new LLVM block |
| Renderer.PushEdges | crates/wrela-codegen-llvm/src/ir.rs:4122-4180 | the edges of a block, in terminator order |
| Renderer.IncomingEdges | crates/wrela-codegen-llvm/src/ir.rs:4076-4189 | the inventory is all edges, sorted by target and predecessor |
| Renderer.PartitionPoint | crates/wrela-codegen-llvm/src/ir.rs:459-466 | the boundary between edges to earlier blocks and the rest |
| Renderer.RenderEntries | crates/wrela-codegen-llvm/src/ir.rs:472-503 | the loop writes one phi entry per predecessor, and fails exactly when an edge passes no argument for the parameter |
| BlockArguments.InventoryMembers | crates/wrela-codegen-llvm/src/ir.rs:4118-4189 | the inventory holds exactly the edges of the function |
| BlockArguments.EdgesToMembers | crates/wrela-codegen-llvm/src/ir.rs:459-466 | the two partition points cut out exactly the edges into a block |
| BlockArguments.ArgumentsPresent | crates/wrela-codegen-llvm/src/ir.rs:485-490 | in a valid function no edge omits an argument, so that error cannot occur |
| BlockArguments.EndsApart | crates/wrela-codegen-llvm/src/ir.rs:491-499 | different blocks end in different labels |
| BlockArguments.PhiListsPredecessorsOnce | crates/wrela-codegen-llvm/src/ir.rs:466-505 | every phi lists each predecessor exactly once, under the label that ends it, and nothing else |
| BlockArguments.PhisYieldArguments | crates/wrela-codegen-llvm/src/ir.rs:466-505 | read from the predecessor's final label, the phis yield exactly the arguments the edge passes |
| Labels.InstructionLabels | crates/wrela-codegen-llvm/src/ir.rs:521-1182 | the labels a rendered instruction defines, each once |
| Labels.FunctionLabels | crates/wrela-codegen-llvm/src/ir.rs:381-432 | no label of a rendered function is defined twice |
| Labels.BlockPosition | crates/wrela-codegen-llvm/src/ir.rs:414-430 | every block has its place in the text, the entry block the first |
| Simulation.ContinuationEndsBlock | crates/wrela-codegen-llvm/src/ir.rs:4191-4212 | the continuation names the label that really ends the rendered block |
| Simulation.GuardedRuns | crates/wrela-codegen-llvm/src/ir.rs:2693-2749 | compute, branch on the failure flag, trap or continue in the `ok` block |
| Simulation.ReplyRuns | crates/wrela-codegen-llvm/src/ir.rs:2832-2958 | the three tests of a reply request run as the operation means, and control ends in its `ok` block |
| Simulation.DispatchRuns | crates/wrela-codegen-llvm/src/ir.rs:2987-3115 | the scan loop, the selection and the turn blocks run turns until the mailbox is empty, for any number of rounds |
| Simulation.SwitchSelects | crates/wrela-codegen-llvm/src/ir.rs:3075-3092 | the switch picks the block of the tag's turn, or of the first turn for a tag of none |
| Simulation.AssertRuns | crates/wrela-codegen-llvm/src/ir.rs:1110-1170 | an assertion continues or leaves through the assertion intrinsic |
| Simulation.InstructionRuns | crates/wrela-codegen-llvm/src/ir.rs:521-1182 | every rendered instruction has the effect of the operation, and ends in the label expected |
| Simulation.BodyRuns | crates/wrela-codegen-llvm/src/ir.rs:506-509 | so do the instructions of a block in turn |
| RenderedRuns.EdgeEnters | crates/wrela-codegen-llvm/src/ir.rs:3665-3764 | following a branch enters the target with its parameters bound, simultaneously, to the edge's arguments |
| RenderedRuns.LeaveRuns | crates/wrela-codegen-llvm/src/ir.rs:3665-3764 | every terminator leaves the block as MachineWir says |
| RenderedRuns.RenderingPreservesRuns | crates/wrela-codegen-llvm/src/ir.rs:381-519 | for every valid function and every run of any length, the rendered text reaches the same state, and ends when the run ends with the same outcome |
| CheckedExecution.CheckedRuns | crates/wrela-codegen-llvm/src/ir.rs:2693-2749 | running a checked instruction whose parts compute the emitted flag, code and result leaves the operation's result in its register, or traps with the operation's code |
| CheckedExecution.CheckedTextRuns | crates/wrela-codegen-llvm/src/ir.rs:2693-2749 | the rendered text of the instruction reaches its `ok` block with that result, or the fatal intrinsic with that code |
| CheckedExecution.CheckedWorldImplements | crates/wrela-codegen-llvm/src/ir.rs:2693-2749 | every checked operation can be the meaning of its instruction |
| CheckedExecution.WidenedInstruction | crates/wrela-codegen-llvm/src/ir.rs:1384-1457 | a checked add, subtract or multiply instruction leaves the exact result, or traps exactly when it has no word |
| CheckedExecution.ConversionInstruction | crates/wrela-codegen-llvm/src/ir.rs:2570-2691 | an integer conversion instruction keeps the value, or traps exactly when the destination cannot hold it |
| CallSites.VisitTurns | crates/wrela-codegen-llvm/src/coff.rs:1077-1094 | for a dispatch, the FIFO turns of the actor, or the dispatch's own |
| CallSites.DispatchAgreesExactly | crates/wrela-codegen-llvm/src/coff.rs:1077-1094 | renderer and auditor count the same calls of every turn exactly when the auditor visits the mailbox's turns and none twice |
| CallSites.RepeatedTurnDisagrees | crates/wrela-codegen-llvm/src/coff.rs:1077-1094 | on a machine that validation refuses, with one FIFO turn activated twice, the two counts differ: the validated condition is needed |
| SchedulerRules.CheckStorage | crates/wrela-codegen-llvm/src/validate.rs:983-1005 | the scan over the storage records accepts exactly when the mailbox has one record and it is the actor's |
| SchedulerRules.CheckFifo | crates/wrela-codegen-llvm/src/validate.rs:1046-1091 | the saturating counters accept exactly when the actor's FIFO activations are, as a multiset, the two distinct methods of the chain |
| SchedulerRules.CountCallers | crates/wrela-machine-wir/src/lib.rs:4307-4340 | how many activations call each function |
| SchedulerRules.ValidatedDispatchConsistent | crates/wrela-machine-wir/src/lib.rs:4187-4212 | when the storage is the actor's, and its FIFO turns pass the pair rule or have one activation each, renderer and auditor count every dispatch alike |
| CallSites.InstructionSitesAgree | crates/wrela-codegen-llvm/src/coff.rs:1036-1069 | every runtime intrinsic is rendered exactly as often as the auditor allows (three fatal calls for a reply request), and every internal branch of a consistent dispatch as often as it is visited |
| CallSites.FunctionSitesAgree | crates/wrela-codegen-llvm/src/coff.rs:1036-1099 | the same for the text of a whole function |
| Mailboxes.InvariantStep | crates/wrela-codegen-llvm/src/ir.rs:2752-2985 | every atomic access of reserve, commit, receive and reply request keeps: committed messages are the received ones and the pending one, a fresh reservation's mailbox is empty, a receiver between load and store still sees its own tag |
| Mailboxes.RunsConserve | crates/wrela-codegen-llvm/src/ir.rs:2752-2985 | in every state of every serial interleaving of reserves, commits, receives and reply requests, at every mailbox, messages are conserved in order |
| Mailboxes.ReceivesWhatWasSent | crates/wrela-codegen-llvm/src/ir.rs:2960-2985 | a receive passes only on its own turn's message, the one committed and not yet received |
| Mailboxes.FallThroughMeansEmpty | crates/wrela-codegen-llvm/src/ir.rs:3034-3060 | a dispatch loads zero exactly when every committed message has been received |
| Mailboxes.CommitConservesExactly | crates/wrela-codegen-llvm/src/ir.rs:2781-2791 | a commit keeps the messages exactly when the mailbox is empty |
| Mailboxes.ReceiveConservesExactly | crates/wrela-codegen-llvm/src/ir.rs:2960-2985 | a receive's store keeps the messages exactly when the tag is still the receiver's own |
| Mailboxes.StepConservesExactly | crates/wrela-codegen-llvm/src/ir.rs:2752-2985 | a step keeps the messages of all mailboxes exactly when it is a commit into an empty mailbox, a receive's store over its own tag, or a load |
| Mailboxes.RunConservesExactly | crates/wrela-codegen-llvm/src/ir.rs:2752-2985 | over every interleaving, all states conserve messages exactly when all commits and all receives' stores are of that kind |
| Mailboxes.SerialIsHarmless | crates/wrela-codegen-llvm/src/ir.rs:2752-2985 | what the actor model grants is enough for that |
| Mailboxes.StaleCommitLosesMessage | crates/wrela-codegen-llvm/src/ir.rs:2752-2791 | two reservations and two commits lose a message |
| Mailboxes.TwoReceiversTakeOneMessage | crates/wrela-codegen-llvm/src/ir.rs:2960-2985 | two receivers whose load and store interleave both take one message |
| MailboxRefinement.ReserveRefines | crates/wrela-codegen-llvm/src/ir.rs:2752-2779 | the load and test of a rendered reserve is the reserve step, trap included, and its register then names the reservation's mailbox |
| MailboxRefinement.CommitRefines | crates/wrela-codegen-llvm/src/ir.rs:2781-2791 | the store of a rendered commit is the commit step |
| MailboxRefinement.ReceiveLoadRefines | crates/wrela-codegen-llvm/src/ir.rs:2960-2985 | the load and test of a rendered receive is the load step, trap included |
| MailboxRefinement.ReceiveStoreRefines | crates/wrela-codegen-llvm/src/ir.rs:2960-2985 | its store is the store step |
| MailboxRefinement.ReplyRefines | crates/wrela-codegen-llvm/src/ir.rs:2832-2900 | a reply request admits itself by a reserve step with its own fatal code, and sends by a commit step |
| MailboxRefinement.ReplyRestKeepsMail | crates/wrela-codegen-llvm/src/ir.rs:2901-2958 | the rest of it touches no mailbox |
| MailboxRefinement.ScanRefines | crates/wrela-codegen-llvm/src/ir.rs:3034-3060 | the scan of a dispatch changes no mailbox and sees a pending message exactly when there is one |
| ActorOperations.WorldImplements | crates/wrela-codegen-llvm/src/ir.rs:2752-3115 | the memory accesses of all actor operations of a function can be the meaning of their instructions at once, whatever the calls do |
| ActorOperations.ReserveTests | crates/wrela-codegen-llvm/src/ir.rs:2752-2779 | reserve traps exactly on a nonempty mailbox, and does not mark it |
| ActorOperations.ReserveThenCommit | crates/wrela-codegen-llvm/src/ir.rs:2752-2791 | a commit through the reservation stores the turn's tag in the mailbox reserved |
| ActorOperations.ReceiveMatches | crates/wrela-codegen-llvm/src/ir.rs:2960-2985 | receive passes exactly on its own turn's tag, and then empties the mailbox |
| ActorOperations.DispatchFallsThroughEmpty | crates/wrela-codegen-llvm/src/ir.rs:2987-3115 | whatever its turns do, a dispatch falls through only with its mailbox empty |
| ActorOperations.DispatchReachesReceiver | crates/wrela-codegen-llvm/src/ir.rs:3040-3095 | the turn a pending tag selects passes its receive exactly when the tag is a turn's of the table; otherwise it traps there |
| ActorOperations.ReplyOutcome | crates/wrela-codegen-llvm/src/ir.rs:2832-2958 | every way a reply request can go, for every callee: the claim traps exactly on a nonempty mailbox, the write exactly when the callee left the slot out of state 1, the consume test never; otherwise it returns the callee's value |
| ActorOperations.ReplyExactlyOnce | crates/wrela-codegen-llvm/src/ir.rs:2832-2958 | the slot goes through 0, 1, 2, 3, 4 in order, and the outcome is written once, in state 2 |
| ActorOperations.ReplyPerforms | crates/wrela-codegen-llvm/src/ir.rs:2832-2958 | the parts of a reply request act on its slot by an initial store of 0, the two compare-exchanges, one write and the stores of 3 and 4 |
| ActorOperations.ResolvedAtMostOnce | crates/wrela-codegen-llvm/src/ir.rs:2832-2958 | of all compare-exchanges from 1 to 2, by anyone in any order of slot actions, at most one succeeds per initial store of 0, and one more only on a slot still in state 0 or 1 |
| CalleeRuns.FirstReceives | crates/wrela-codegen-llvm/src/ir.rs:2960-2985 | a turn whose first instruction is the receive of the pending message passes it and empties the mailbox |
| CalleeRuns.InstructionKeeps | crates/wrela-codegen-llvm/src/ir.rs:521-1182 | no instruction but a commit or a reply request to the mailbox fills an empty mailbox; a commit goes where the reserve directly before it went |
| CalleeRuns.TurnEmpties | crates/wrela-codegen-llvm/src/ir.rs:2832-2985 | in a run of any length of a turn that sends nothing to its mailbox, the mailbox is empty from the end of the first block on |
| CalleeRuns.CallsKeepEmpty | crates/wrela-codegen-llvm/src/ir.rs:2832-2985 | calls and tail calls to any depth keep an empty mailbox empty when no function they reach sends to it |
| CalleeRuns.ReplyLeavesMailboxEmpty | crates/wrela-codegen-llvm/src/ir.rs:2832-2958 | a reply request whose turn begins with its receive, and reaches no function that sends to the mailbox, leaves the mailbox empty if it completes |
| CalleeRuns.ProgramsLinked | crates/wrela-codegen-llvm/src/ir.rs:2832-2958 | the calls of a machine's own functions meet the premise that every call is a run of its callee |
| CalleeRuns.ProgramReplyLeavesMailboxEmpty | crates/wrela-codegen-llvm/src/ir.rs:2832-2958 | the same for the reply requests of a whole program, with its real calls |
| Relocations.Compact | crates/wrela-codegen-llvm/src/coff.rs:1202-1223 | merging equal neighbours of the sorted branches leaves strictly increasing keys whose counts are the multiplicities and sum to the total |
| Relocations.RequiredCells | crates/wrela-codegen-llvm/src/coff.rs:1194-1223 | sorting and compacting any list of branches counts it |
| Relocations.ObserveKey | crates/wrela-codegen-llvm/src/coff.rs:1240-1267 | the binary search counts a branch that is required and refuses any other |
| Relocations.CountsMatch | crates/wrela-codegen-llvm/src/coff.rs:1269-1280 | every counter matches exactly when the branches seen are, as a multiset, those required |
| RuntimeCalls.CollectCalls | crates/wrela-codegen-llvm/src/coff.rs:1341-1369 | the nested loops collect the runtime calls that MachineWir requires, or allows, with their sections |
| RuntimeCalls.CountCalls | crates/wrela-codegen-llvm/src/coff.rs:1351-1369 | the matrix counts them per section and intrinsic, and refuses a section it does not have |
| RuntimeCalls.CheckCount | crates/wrela-codegen-llvm/src/coff.rs:1531-1554 | accepts exactly counts between the required and the allowed, and for entering the image exactly one |
| RuntimeCalls.CheckCounts | crates/wrela-codegen-llvm/src/coff.rs:1495-1506 | the pass over the matrix accepts exactly when every section makes an accepted number of calls of every intrinsic |
| RuntimeCalls.FunctionAllows | crates/wrela-codegen-llvm/src/coff.rs:1036-1069 | the calls allowed to a function are those audited for its blocks |
| RelocationAudit.CollectKeys | crates/wrela-codegen-llvm/src/coff.rs:1148-1193 | the nested loops collect every call and tail call with its section |
| RelocationAudit.OffsetsIncrease | crates/wrela-codegen-llvm/src/coff.rs:1282-1291 | offsets increase strictly, so no site is counted twice |
| RelocationAudit.Note | crates/wrela-codegen-llvm/src/coff.rs:1424-1491 | a record is counted in the table of branches or in the matrix of runtime calls, and refused when neither has it |
| RelocationAudit.WalkRecords | crates/wrela-codegen-llvm/src/coff.rs:1392-1492 | the walk over a section succeeds exactly when all records are well formed, every branch is required and every runtime call is of a section, and has then counted each once |
| RelocationAudit.ValidateRelocations | crates/wrela-codegen-llvm/src/coff.rs:1293-1507 | the audit succeeds exactly when relocations are well formed, equal, as a multiset of section, callee and BL or B, the calls and tail calls of MachineWir, and call the runtime from every section between the required and the allowed number of times |
| RelocationAudit.AcceptedMeansRendered | crates/wrela-codegen-llvm/src/coff.rs:1293-1507 | an accepted object patches each branch of a section exactly as often as the renderer wrote it |
| RelocationAudit.AcceptedCallsRendered | crates/wrela-codegen-llvm/src/coff.rs:1293-1507 | an accepted object calls each intrinsic from a section at least as often as MachineWir requires and at most as often as the renderer wrote it |
| SectionStorage.SortedIndices | crates/wrela-codegen-llvm/src/coff.rs:831-869 | all global indices, ordered by section and index |
| SectionStorage.FirstOfSection | crates/wrela-codegen-llvm/src/coff.rs:736-762 | the lower-bound search finds where the section's globals begin |
| SectionStorage.WalkExact | crates/wrela-codegen-llvm/src/coff.rs:764-829 | the walk with its cursor accepts exactly lists that tile and fill the section |
| SectionStorage.StorageMatches | crates/wrela-codegen-llvm/src/coff.rs:728-829 | true exactly when the section has a global, the globals in index order tile it without gaps, and their initializers concatenate to the payload, or are type-matching zeros without one |
| ObjectLayout.CheckLayout | crates/wrela-codegen-llvm/src/coff.rs:1703-1728 | succeeds exactly when the occupied ranges, in whatever order collected, are pairwise apart, inside the object, reach its end, and leave only zero bytes |
| ObjectLayout.SweepExact | crates/wrela-codegen-llvm/src/coff.rs:1710-1727 | on sorted ranges the sweep decides exactly that |
| Unwind.PackedCoversSection | crates/wrela-codegen-llvm/src/coff.rs:1579-1612 | a packed record's length is its whole code section |
| Unwind.CountRecord | crates/wrela-codegen-llvm/src/coff.rs:1555-1658 | a record is accepted exactly when it is well formed and neither its code nor its `.xdata` was taken before |
| Unwind.ValidateUnwind | crates/wrela-codegen-llvm/src/coff.rs:1508-1528 | success exactly when every `.pdata` is a record, no two share code or `.xdata`, and every nonempty `.xdata` is selected |
| Unwind.PairingIsInjective | crates/wrela-codegen-llvm/src/coff.rs:1555-1658 | on success `.pdata` sections map injectively to declared code sections |
| Unwind.XdataSelectedOnce | crates/wrela-codegen-llvm/src/coff.rs:1508-1528 | on success exactly one `.pdata` selects each nonempty `.xdata` |
| Codec.PrefixFree | crates/wrela-build-model/src/lib.rs:310-345 | an exact codec is injective and prefix-free |
| Codec.NumberExact | crates/wrela-backend-protocol/src/lib.rs:501-507 | little-endian numbers of any width round-trip both ways |
| Codec.TextExact | crates/wrela-backend-protocol/src/lib.rs:513-524 | length-prefixed text within its limit round-trips both ways |
| BuildModel.ProfileExact | crates/wrela-backend-protocol/src/lib.rs:325-400 | so does a profile, with all its tags and its optional digest |
| BuildModel.IdentityExact | crates/wrela-backend-protocol/src/lib.rs:296-323 | so does a build identity |
| BuildModel.ConfigurationExact | crates/wrela-backend-protocol/src/lib.rs:281-294 | so does a build configuration |
| BuildModel.CanonicalPrefixFree | crates/wrela-build-model/src/lib.rs:290-345 | if the canonical bytes of one valid profile begin with those of another, the profiles are equal in every field and nothing follows |
| Protocol.PathExact | crates/wrela-backend-protocol/src/lib.rs:29-56 | a path round-trips exactly if it is relative, canonical and free of parent components |
| Protocol.UnframeFrame | crates/wrela-backend-protocol/src/lib.rs:235-250 | unframing undoes framing |
| Protocol.FrameUnframe | crates/wrela-backend-protocol/src/lib.rs:252-279 | framing reproduces every frame that unframing accepts |
| Protocol.ResponseBijection | crates/wrela-backend-protocol/src/lib.rs:186-227 | a response encodes to some bytes exactly when those bytes decode to it |
| Protocol.RequestBijection | crates/wrela-backend-protocol/src/lib.rs:121-175 | a request encodes to some bytes exactly when those bytes decode to it |
| Protocol.NoncanonicalUnreachable | crates/wrela-backend/src/main.rs:116-145 | a decoded request whose build seals is always accepted: the branch for a noncanonical frame is unreachable |
| ProtocolReader.Reader.Take | crates/wrela-backend-protocol/src/lib.rs:535-542 | takes exactly that many bytes off the front, or fails |
| ProtocolReader.Reader.ReadText | crates/wrela-backend-protocol/src/lib.rs:580-588 | reads exactly what the text codec decodes |
| ProtocolReader.Reader.ReadOutcome | crates/wrela-backend-protocol/src/lib.rs:209-222 | reads exactly what the outcome codec decodes |
| ProtocolReader.OpenFrame | crates/wrela-backend-protocol/src/lib.rs:252-279 | the header checks accept exactly valid frames and leave the payload in the reader |
| ProtocolReader.ReadResponse | crates/wrela-backend-protocol/src/lib.rs:206-227 | the in-place decoder of a response is the decoding function |
| ProtocolReader.Reader.ReadProfile | crates/wrela-backend-protocol/src/lib.rs:353-400 | reading the fields of a profile in order reads exactly what its codec decodes, and fails where it fails |
| ProtocolReader.Reader.ReadIdentity | crates/wrela-backend-protocol/src/lib.rs:308-323 | so for an identity, whose language and target are checked as they are read |
| ProtocolReader.Reader.ReadConfiguration | crates/wrela-backend-protocol/src/lib.rs:289-294 | so for a configuration |
| ProtocolReader.ReadRequest | crates/wrela-backend-protocol/src/lib.rs:150-175 | the in-place decoder of a request is the decoding function |
| ProtocolWriter.Writer.PushText | crates/wrela-backend-protocol/src/lib.rs:513-524 | appends exactly the encoded text, or refuses text over the limit |
| ProtocolWriter.Writer.PushProfile | crates/wrela-backend-protocol/src/lib.rs:325-351 | pushing the fields of a profile in order appends exactly its encoding |
| ProtocolWriter.Writer.PushIdentity | crates/wrela-backend-protocol/src/lib.rs:296-306 | so for an identity |
| ProtocolWriter.Writer.PushConfiguration | crates/wrela-backend-protocol/src/lib.rs:281-287 | so for a configuration |
| ProtocolWriter.RequestFits | crates/wrela-backend-protocol/src/lib.rs:121-148 | a well-typed request is refused only for the length of its texts |
| ProtocolWriter.WriteRequest | crates/wrela-backend-protocol/src/lib.rs:121-148 | the encoder of a request, with its checks before any push, is the encoding function |
| ProtocolWriter.WriteResponse | crates/wrela-backend-protocol/src/lib.rs:186-204 | the encoder of a response is the encoding function |
| ProtocolWriter.CanonicalProfile | crates/wrela-build-model/src/lib.rs:315-345 | the profile's own encoder is the function whose bytes are prefix-free |
| Publisher.FileSystem.WriteNew | crates/wrela-backend/src/lib.rs:2417-2440 | creates a file that was absent, or leaves no trace |
| Publisher.FileSystem.Rename | crates/wrela-backend/src/lib.rs:2358-2363 | moves a file, replacing the target, or changes nothing |
| Publisher.MoveIntoPlace | crates/wrela-backend/src/lib.rs:2334-2388 | staging checks, the two renames and the second measurement |
| Publisher.StageAndSeal | crates/wrela-backend/src/lib.rs:2327-2413 | once the paths are free, any failure leaves neither final file and no staged report |
| Publisher.Publish | crates/wrela-backend/src/lib.rs:2297-2415 | with any step failing or cancelled: on success both final files hold the measured image and the report, otherwise each final path is as it was, and a final file that existed is never touched; a run without faults succeeds |

## Left out

- FloatConversionCorrect: the values that `fpext` and `fptrunc` compute are LLVM's; the guard around them is modelled for every pattern they may yield.
- Checked failure details: fatal codes are modelled, the provenance word passed with them is not.
- Straight-line operations other than checked arithmetic: constants, aggregates, enums, loads and stores are one parameter of the meaning of MachineWir (`World`), since they neither branch nor call.
- Stack slots: the `alloca` lines of the entry block are not rendered; a reply slot is a cell of its own.
- Actors: that a callee does not touch its caller's reply slot is a premise where it is used; in the source the slot is a stack slot of the caller.
- RuntimeCalls.CollectCalls: required and allowed calls are collected in one pass each and then counted; the refusal of a 32-bit counter that overflows is not modelled.
- COFF section and symbol walks: `measure_object` is modelled from the point where sections, symbol targets and relocation tables are known.
- ValidatedDispatchConsistent: that FIFO activations of an actor name a mailbox of capacity one, when the pair rule is used, is a premise; the rule of one activation per function needs none.
- Protocol errors: the reasons for refusing a frame are collapsed into one refusal.
- UTF-8, the character classes of an atom, SHA-256 and the canonical JSON of the report are parameters.
- Publisher: file metadata, symbolic links, permissions and concurrent writers; removals succeed.
- Cancellation polling, allocation failures and resource limits, except as the faults of publication.
- Workspace and gate closures in `xtask`: reachability worklists over the build's own crates, outside the compiled program.
- LLVM itself, the spelling of IR text and symbol names.
