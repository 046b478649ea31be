# A verified model of Kôika

Kôika is a rule-based hardware language. A rule reads and writes registers at
two ports; its accesses go into a log, and a scheduler tries rules in turn
against the log of the cycle so far. Two back ends run the result: a compiler to
circuits and a C++ simulator. This project models the language, both back ends
and two of the programs shipped for them in Dafny, and proves how they relate.

## The parts

**The language.** `Syntax`, `Logs` and `Semantics` define actions, rules,
schedulers and their reference meaning on lists of events, over bit vectors.
Variables are positions and widths are sequence lengths; `Scoped` and `Typed` say
what the indexed types of the source guarantee. `LogDiscipline` is the invariant
of all logs. `OneRuleAtATime` proves the language's central promise. `Arithmetic` says
what each combinational primitive computes, as numbers and bits.
`CompactSemantics` and `ContinuationSemantics` are the other two interpreters,
proved equal to the first. `Footprints` says what an action logs and what it
depends on.

**Types and lowering.** `Types` has bits, enumerations, structs and arrays, their
values, and values as bits. `TypedSyntax` and `TypedSemantics` are the language
over them; `TypedLowering` proves that its runs, in bits, are those of the
bit-level program. `Lowering` turns internal calls into nested bindings.

**The circuit compiler.** `Circuits` and `CircuitGeneration` are the circuits and
the compiler. `Wires` is the idea behind it, on values: hardware does not stop
when a rule fails, it keeps computing with a lowered canFire and sticky access
bits. `CompilerCorrectness` proves the circuits equal to the wires, and the
wires equal to the semantics. `ExternalRules` is about rules whose circuits come from
outside: a reference to a bundle has two meanings, the compiler's own circuit for the
rule, as in the source, and the wire of that name that the rule's module drives. `CircuitOptimization` has every local pass, and
`EndToEnd` joins typed source program, lowering, compilation and optimization
over whole runs, and both back ends with each other.

**The simulator.** `Histories` is the static analysis that gives each register a
kind, and `Walks` shows how precise it is. `Emission` is the code emitted for a rule: an operand that needs no
statement stays text until it is used, a result may be stored into the variable
that the whole expression is for, and a name means what C++ takes it to mean.
`Cuttlesim` runs that code twice: as a class whose methods change the two copies
of the state in place, and as functions on states that the methods are proved
equal to. `SimulatorSync` says when a state stands for a log, up to reads that a
failed rule left recorded. `CallOrder`, with `Effects`, says when a call's
arguments may be evaluated in the emitted order instead of the semantics'. `Stops`
follows a run of the semantics in the emitted order up to the point where it fails and
says which reads it leaves recorded there, without the simulator's state.
`EmissionCorrectness` proves emitted code right for actions, and
`SimulatorCorrectness` for rules, schedulers and runs, under conditions decided
from the program text. `SimulatorDivergence` and `FastFailures` have, for each of
these conditions, a program that fails it alone and is simulated wrongly.
`DynamicLog` and `LogSize` are the alternative undo mechanism on bytes and the
capacity of its stack. `Slices`, `Packing` and `Printing` are the arithmetic of
the runtime's bit vectors.

**Programs.** `Quicksort` and `Primes` are two of the C programs run on the RISC-V
core, with their loops, array and explicit stack.

## Where the code does not do what it is documented to do

The simulator is to compute the cycles of the semantics. It does not for every
program that the back end accepts:

- An operand that is a variable is emitted as text and evaluated late. In
  `x + (set x := b; x)` both sides read the new value (`DelayedOperandExact`).
- A first operand is stored into the variable that the result is for. In
  `set x := read0(r) + x` the second operand then reads it there
  (`SharedTargetExact`). A replaced field is emitted as a copy of the struct and an
  assignment to its field, with the same effect on a new value that mentions the
  target (`FieldExact`).
- Names are resolved by C++. A variable is declared before the code of its own
  expression when that branches or binds, so an assignment to an outer variable of
  that name is caught (`CaptureExact`); a value assigned by name from inside a
  binding of that name goes to the inner variable (`ShadowExact`).
- Arguments of a call are evaluated first to last, the semantics' last to first
  (`CallOrderExact`; `SingleOrderExact` says for which accesses that matters).
- A rule may leave without undoing its effects when the analysis says that
  nothing needs undoing (coq/TypedSyntaxFunctions.v:370-377). The test looks at
  conflicts inside the rule only, so a recorded port-1 read can stay behind and
  refuse a port-0 write of a later rule of the same cycle (`FastFailDiffers`).
  For rules that meet the other conditions, `SchedulerAgrees` and `CycleExact` say that
  such a refusal is the only thing that makes the simulator fire other rules, and a run
  of the semantics that carries the leftover reads decides whether there is one
  (`Unblocked`); where no later rule writes the register the leftover does no harm
  (`TextIsEnough`, `FastFailHarmless`).
- The variable of a switch rebuilt from nested conditionals is printed by name, without
  the check for hidden variables that operands and assignments get, so the switch may be
  taken on a later variable of that name (`HiddenExact`).
- A port-1 read after a port-1 write returns the new value, the semantics the old
  one (the back end says so, ocaml/backends/cpp.ml:882-887; `RereadExact`). The
  warning that goes with it looks neither inside written values nor at the emitted
  order of arguments (`SilentWarningMissesValues`, `SilentWarningMissesCalls`).

And elsewhere:

- With the dynamic log, which is switched off, an access to a register that never
  conflicts is not pushed, so its written value is not committed (`LostWrite`), and
  the log's capacity counts a write but not the accesses of its value
  (`PushExact`, `LogSizeTooSmall`).
- Zero printed with its size does not always read back: 16'b0 gives 16
  (`RoundTrip`, `SixteenZeroes`). Texts without a size always read back.
- The comment above constant propagation names the branches of a constant mux the
  wrong way round (coq/CircuitOptimization.v:338-347); the model follows the code.
- The quicksort's comments speak of elements greater or smaller than the pivot;
  its scans also stop at equal ones, and that is what bounds them.

## Model

| member | source | states |
|---|---|---|
| Arithmetic.Sigma1Exact | coq/Primitives.v:397-410 | the result of a unary primitive is the one vector of its width with a stated meaning in numbers or bits: one less than two to the width minus the number, reversed, of the same signed or unsigned number, multiplied, repeated, or the quotient and remainder that a slice is |
| Arithmetic.Sigma2Exact | coq/Primitives.v:412-437 | the same for binary primitives: sums, differences and products modulo the width, shifts as multiplication and rounded-down division (signed for the arithmetic one), selection as a quotient's parity, concatenation, replacement, equality and both orders by value |
| Arithmetic.MinusNumber | coq/Vect.v:1348-1360 | subtraction wraps around below zero |
| Arithmetic.NotNumber | coq/Vect.v:1266-1278 | negating all bits counts down from the largest number |
| Arithmetic.ToIntNumber | coq/Vect.v:1108-1118 | a signed vector is its number, less two to the width when the top bit is set |
| Arithmetic.AsrNumber | coq/Vect.v:1057-1078 | an arithmetic shift divides the signed number and rounds down |
| Logs.AppLaws | coq/SemanticProperties.v:75-86 | what a log answers about reads and writes after appending: reads and writes of either part, and the newer part's latest write first |
| Logs.AppAssoc | coq/SemanticProperties.v:181-190 | appending logs is associative |
| Logs.CommitAssoc | coq/SemanticProperties.v:529-537 | committing two logs in turn is committing them appended |
| LogDiscipline.DisciplinedIffConflictFree | coq/Logs.v:95-101 | the write order built up event by event is the same as having no two conflicting events anywhere in a register's log |
| LogDiscipline.ActionDisciplined | coq/CompilerCorrectness/CircuitCorrectness.v:1499-1538 | every action keeps it: at most one write per port, no port-0 write after a port-1 access |
| LogDiscipline.CycleDisciplined | coq/CompilerCorrectness/CircuitCorrectness.v:1550-1564 | so does every scheduler run, from the empty log |
| LogDiscipline.DisciplinedLatest | coq/CompilerCorrectness/CircuitCorrectness.v:1489-1497 | in such a log the latest write is the port-1 write if there is one, else the port-0 write |
| OneRuleAtATime.ActionCommit | coq/OneRuleAtATime.v:166-208 | moving the older part of the scheduler log into the registers changes neither value, log nor variables of a successful action, calls included |
| OneRuleAtATime.FiredRuleAlone | coq/OneRuleAtATime.v:210-241 | a rule that fires in the cycle also fires alone on the committed registers, with the same log |
| OneRuleAtATime.OneRuleAtATimeCycle | coq/OneRuleAtATime.v:279-293 | for every scheduler and register file, the rules that fire follow a path of the scheduler, each fires again when run one per cycle, and the final registers are the same |
| OneRuleAtATime.OneRuleAtATimeCycles | coq/OneRuleAtATime.v:279-293 | the same over any number of cycles |
| OneRuleAtATime.TraceFollowsPath | coq/LoweredSyntaxFunctions.v:44-51 | the fired rules are a subsequence of one of the scheduler's paths |
| OneRuleAtATime.PathsExact | coq/LoweredSyntaxFunctions.v:44-51 | the listed paths are exactly those that some sequence of successes and failures makes the scheduler take |
| OneRuleAtATime.SchedulerRulesExact | coq/OneRuleAtATime.v:262-276 | the rules of a scheduler are exactly those that some path tries |
| OneRuleAtATime.TraceIsChosen | coq/OneRuleAtATime.v:243-276 | the traced rules are exactly those, in order, that fire on the path taken |
| OneRuleAtATime.AllFireExact | coq/OneRuleAtATime.v:243-276 | that all fire means that each fires alone in the registers that those before it leave |
| OneRuleAtATime.SubsequenceExact | coq/OneRuleAtATime.v:279-293 | a subsequence is what is found at increasing positions |
| CompactSemantics.ActionsAgree | coq/CompactSemantics.v:54-142 | on compact logs that stand for list logs every action, with internal calls, fails or succeeds alike with the same value and variables; the inexact read0 flag is never observed |
| CompactSemantics.SchedulersAgree | coq/CompactSemantics.v:156-170 | so does every scheduler |
| CompactSemantics.CyclesAgree | coq/CompactSemantics.v:176-178 | and a cycle ends in the registers of the list-log semantics |
| CompactSemantics.Read0Exact | coq/CompactSemantics.v:85-118 | what the inexact read0 flag is for a rule's log: up after a read at port 0, and after any other access the read1 flag as it was before |
| ContinuationSemantics.ActionCpsCorrect | coq/CPS.v:322-342 | the continuation-passing action interpreter applied to k is k applied to the direct interpreter's outcome |
| ContinuationSemantics.ArgsCpsCorrect | coq/CPS.v:308-320 | the same for argument lists |
| ContinuationSemantics.SchedulerCpsCorrect | coq/CPS.v:378-395 | the same for schedulers |
| ContinuationSemantics.CycleCpsCorrect | coq/CPS.v:407-416 | the same for cycles |
| ContinuationSemantics.WpActionCorrect | coq/CPS.v:428-440 | the weakest precondition of an action holds exactly when the postcondition holds of its outcome |
| ContinuationSemantics.WpCycleCorrect | coq/CPS.v:462-471 | likewise for a cycle |
| Lowering.InfixCorrect | coq/SyntaxMacros.v:212-229 | an action renumbered for extra variables in the middle of its context does what the original does and leaves the extra variables alone |
| Lowering.BindArgsCorrect | coq/SyntaxMacros.v:242-258 | nested bindings evaluate the arguments of a call in the call's own order, last first, and run the body on top of them |
| Lowering.LowerCorrect | coq/CompilerCorrectness/LoweringCorrectness.v:334-353 | on bits: turning the calls of an action, and those inside their arguments and bodies, into nested bindings preserves failure, value, log and the caller's variables, including arguments that assign them |
| Lowering.LowerTyped | coq/SyntaxMacros.v:212-258 | and keeps widths and variable positions |
| Types.OfBitsOf | coq/Types.v:190-212 | at every type, structs and arrays nested at will, the value read from a value's bits is that value |
| Types.BitsOfOf | coq/Types.v:173-188 | and the bits of the value read from bits are those bits |
| Types.SameBits | coq/PrimitiveProperties.v:119-129 | two values of a type are equal exactly when their bits are |
| Types.OffsetSplit | coq/Types.v:77-91 | a part's offset, by summing later fields or by multiplying, is the size of all that comes after it |
| Types.PartSlice | coq/PrimitiveProperties.v:131-165 | a field or element is the slice at its offset |
| Types.PartSubst | coq/PrimitiveProperties.v:167-201 | replacing that slice replaces that field or element and nothing else, and the type is kept |
| TypedLowering.UnopCorrect | coq/CompilerCorrectness/LoweringCorrectness.v:82-93 | each unary primitive on typed values is its bit-level form on their bits, with a result of its type |
| TypedLowering.BinopCorrect | coq/CompilerCorrectness/LoweringCorrectness.v:95-111 | each binary primitive likewise |
| TypedLowering.EraseCorrect | coq/CompilerCorrectness/LoweringCorrectness.v:431-455 | a well-typed action over typed values fails or succeeds with its bit-level form, with the bits of its value, variables and log; and typed values stay typed |
| TypedLowering.LowerActionCorrect | coq/Lowering.v:103-140 | the same for the fully lowered action, which has the widths of the types and no calls |
| TypedLowering.CycleErases | coq/CompilerCorrectness/LoweringCorrectness.v:457-483 | a cycle over typed registers, in bits, is the bit-level program's cycle |
| TypedLowering.LoweredCycle | coq/CompilerCorrectness/LoweringCorrectness.v:485-496 | and the lowered program's cycle |
| Circuits.InterpWidth | coq/CircuitSemantics.v:19-36 | a well-sized circuit evaluates to a vector of its width |
| CompilerCorrectness.CompileUnopOk | coq/CircuitGeneration.v:107-134 | compiled unary operators mean what the primitive means, extensions written out as selections and concatenations included |
| CompilerCorrectness.SliceSubstParts | coq/CircuitGeneration.v:140-155 | replacing a slice is concatenating three parts, or two when it hangs over, or nothing when it starts past the end |
| CompilerCorrectness.CompileBinopOk | coq/CircuitGeneration.v:157-173 | compiled binary operators mean what the primitive means |
| Wires.RunActionLater | coq/CompilerCorrectness/CircuitCorrectness.v:558-613 | running on never lowers a read or write wire and never raises canFire again |
| Wires.RuleWillFire | coq/CompilerCorrectness/CircuitCorrectness.v:1022-1196 | although the wires keep computing after a failure, the will-fire bit is up exactly when the rule succeeds, and then the accumulated wires show the appended log |
| Wires.SchedulerWires | coq/CompilerCorrectness/CircuitCorrectness.v:1418-1459 | wires that show a log show, after the scheduler, the log the scheduler leaves |
| CompilerCorrectness.CompileActionOk | coq/CircuitGeneration.v:175-289 | the circuits of an action are well-sized and evaluate to its wires |
| CompilerCorrectness.WrappedFields | coq/CircuitGeneration.v:342-352 | each wire of an external rule is a reference to the field of its own name and register, around that wire of the rule |
| CompilerCorrectness.WrapExternalOk | coq/CircuitGeneration.v:357-367 | where a module stands for a rule, the references decide as the rule does, and carry its wires whenever it fires |
| ExternalRules.BundlesSuffice | coq/CircuitGeneration.v:363-367 | modules that know nothing but their bundles can stand for every rule: the bundle tells all that the rule needs |
| Walks.BundleRegistersExact | coq/LoweredSyntaxFunctions.v:38-39 | the registers of a bundle are exactly those that some way through the rule accesses, each once |
| CompilerCorrectness.RuleCircuitFires | coq/CircuitGeneration.v:291-340 | a rule's will-fire circuit is 1 exactly when the rule succeeds against the scheduler log, and the accumulated circuits then stand for the appended log |
| CompilerCorrectness.CompileSchedulerCorrect | coq/CompilerCorrectness/CircuitCorrectness.v:1567-1593 | for every scheduler, every optimizer that preserves meaning, and external rules both as compiled and as driven by modules that stand for them, each register's circuit evaluates to its value after the cycle |
| CircuitOptimization.OptIdenticalOk | coq/CircuitOptimization.v:165-187 | the pass keeps meaning and width and never adds nodes |
| CircuitOptimization.OptMuxelimOk | coq/CircuitOptimization.v:193-319 | the same for the four mux eliminations together |
| CircuitOptimization.OptConstpropOk | coq/CircuitOptimization.v:350-410 | the same for constant propagation |
| CircuitOptimization.OptSimplifyOk | coq/CircuitOptimization.v:484-530 | the same for the simplifications of slices, concatenations and comparisons |
| CircuitOptimization.OptPartialEvalOk | coq/CircuitOptimization.v:558-571 | the same for partial evaluation |
| CircuitOptimization.OptIterGood | coq/CircuitOptimization.v:116-128 | iterating a pass until the comparison reports no change, any number of times, keeps meaning and width and adds no nodes |
| CircuitOptimization.OptIterSteps | coq/CircuitOptimization.v:116-122 | the result is that of applying the pass until a step is reported to change nothing or the fuel is used up, and there is exactly one such number of steps |
| CircuitOptimization.OptAllIteratedCorrect | coq/CircuitOptimization.v:645-652 | so do all passes together, iterated, for every sound comparison |
| CircuitOptimization.OptAllFolds | coq/CircuitOptimization.v:645-648 | where every operand of an operator or multiplexer is a constant, the passes together leave a constant, its value |
| CircuitOptimization.OptAllIteratedFolds | coq/CircuitOptimization.v:650-651 | iterated, they turn a circuit over constants into its value if and only if it is a constant already, or there is fuel and the first round is not reported to change nothing |
| CircuitOptimization.IdenticalFires | coq/CircuitOptimization.v:165-176 | two equal branches or operands are merged, and nothing else is touched |
| CircuitOptimization.MuxelimFires | coq/CircuitOptimization.v:193-319 | a multiplexer over one with the same selector or a shared branch gets smaller, and nothing else is touched |
| CircuitOptimization.ConstpropFires | coq/CircuitOptimization.v:350-410 | gates and multiplexers with constants at the listed places get smaller, and nothing else is touched |
| CircuitOptimization.SimplifyFires | coq/CircuitOptimization.v:484-530 | the listed slices, double negations, selections, concatenations and comparisons get smaller, and nothing else is touched |
| CircuitOptimization.PartialEvalFires | coq/CircuitOptimization.v:558-571 | operators over constants are evaluated, and nothing else is touched |
| CircuitOptimization.RoundFires | coq/CircuitOptimization.v:645-649 | one round applies the passes in the source's order, and makes the circuit smaller unless no rewrite applies |
| CircuitOptimization.OptAllIteratedNormal | coq/CircuitOptimization.v:650-651 | with enough fuel, and equality for comparison, no rewrite applies to the result |
| EndToEnd.BitsCompileCorrect | coq/Compiler.v:27-34 | on bits: one tick of the compiled circuits of the lowered rules is one cycle of the rules |
| EndToEnd.CompileCorrect | coq/CompilerCorrectness/Correctness.v:36-50 | one tick of the compiled circuits, from the bits of typed registers, ends on the bits of the registers after one cycle of the typed program |
| EndToEnd.RunCorrect | coq/CompilerCorrectness/Correctness.v:36-50 | so it does over any number of ticks, and the bits read at the registers' types are the typed program's registers |
| EndToEnd.HardwareIsOneRuleAtATime | coq/OneRuleAtATime.v:279-293 | over any number of ticks the optimized circuits do what some list of scheduler rules, run one per cycle and all firing, does |
| EndToEnd.BitsBackEndsAgree | README.rst:554-556 | on bits: for rules that meet the other conditions on their text, clocking the optimized circuits and running the simulator give the same registers, over any number of cycles in none of which a leftover read refuses a write of the semantics |
| EndToEnd.BackEndsAgree | README.rst:554-556 | for typed programs that meet the conditions on the text, both back ends, started on the bits of the registers, end on the bits of the typed program's registers, over any number of cycles |
| Footprints.FootprintRegisters | coq/LoweredSyntaxFunctions.v:20-39 | the registers collected for the compiler are those of the event footprint |
| Footprints.FootprintSound | coq/LoweredSyntaxFunctions.v:20-39 | a successful run logs only accesses of the footprint and leaves the entries of all other registers as they were |
| Walks.FootprintIsWalked | coq/LoweredSyntaxFunctions.v:20-36 | the footprint is exactly what the ways through the action access |
| Footprints.DependsOnActionRegisters | coq/CircuitGeneration.v:342-370 | an action's outcome depends only on the collected registers, which is all that a rule supplied from outside is given |
| Histories.AfterDescribes | coq/TypedSyntaxFunctions.v:216-275 | after a successful action, calls included, the annotated history tells the truth about which accesses are in the log, although it walks arguments in the other order |
| Histories.ArgumentOrder | coq/TypedSyntaxFunctions.v:258-268 | of two argument orders the annotations differ in no access flag; a log that one describes the other describes |
| Histories.SchedulerDescribes | coq/TypedSyntaxFunctions.v:312-335 | the scheduler's histories tell the truth about the log the scheduler leaves |
| Histories.ValueNeverConflicts | coq/TypedSyntaxFunctions.v:293-310 | an access to a register whose history is conflict-free is always allowed |
| Walks.UpdateCfExact | coq/TypedSyntaxFunctions.v:196-202 | the conflict flag inside a rule is kept if and only if no log of the history refuses the access; else the fullest log does |
| Walks.AppendCfExact | coq/TypedSyntaxFunctions.v:292-298 | the conflict flag between rules is kept if and only if no two logs of the two histories conflict; else the fullest ones do |
| Walks.AfterExact | coq/TypedSyntaxFunctions.v:217-278 | the history after an action says exactly what all ways through it have in common: an access is made on none, on all or on some, and none has a conflict |
| Walks.SchedulerExact | coq/TypedSyntaxFunctions.v:312-325 | so does the history of a scheduler, over all ways through it |
| Walks.ClassifyExact | coq/TypedSyntaxFunctions.v:338-348 | a register is a value if and only if no way through the scheduler refuses an access to it, else a register if and only if port 1 is never used, else a wire if and only if it is never read at port 0 or written at port 1 |
| Walks.FailFastExact | coq/TypedSyntaxFunctions.v:370-377 | the test for leaving a rule without a reset is passed if and only if no way to that point writes anything, whatever was read |
| Histories.WarningExact | coq/TypedSyntaxFunctions.v:560-600 | the warning about port-1 reads after port-1 writes is silent exactly when the rule without its written values makes no such read, calls evaluated last argument first |
| Histories.SilentWarningMeansFresh | coq/TypedSyntaxFunctions.v:560-600 | when written values stay away from port 1 it is silent exactly when the rule makes no such read |
| Walks.AvoidsPort1Exact | coq/TypedSyntaxFunctions.v:560-600 | staying away from port 1 is making no access there |
| Histories.SilentWarningMissesValues | coq/TypedSyntaxFunctions.v:560-566 | otherwise it can be silent about one: a rule whose written value makes such a read |
| Histories.SilentWarningMissesCalls | coq/TypedSyntaxFunctions.v:588-590 | and it is silent about one that only the emitted code's argument order makes |
| Cuttlesim.Simulator.ResetRule | ocaml/backends/cpp.ml:949-967 | the rule's copy after a reset by footprints, or by whole structures when those are large |
| Cuttlesim.Simulator.CommitRule | ocaml/backends/cpp.ml:949-967 | the cycle's copy after a commit |
| Cuttlesim.Simulator.RunStatements | ocaml/backends/resources/cuttlesim.hpp:1417-1454 | running emitted statements on the two copies in place, failures in called functions included, does what their state-passing description says |
| Cuttlesim.Simulator.RunScheduler | ocaml/backends/cpp.ml:1403-1415 | the emitted scheduler likewise |
| Cuttlesim.Simulator.Cycle | ocaml/backends/cpp.ml:1420-1424 | the emitted cycle likewise |
| Cuttlesim.Simulator.Run | ocaml/backends/cpp.ml:1454-1457 | the emitted cycle loop likewise |
| SimulatorCorrectness.SchedulerCompiles | coq/TypedSyntaxFunctions.v:338-348 | every access of every scheduled rule has a check in the read-write set that its register's kind is given |
| SimulatorSync.CopyIsFull | ocaml/backends/cpp.ml:923-957 | copying by footprint is copying everything exactly when nothing outside the footprint differs |
| Walks.CopiedExact | ocaml/backends/cpp.ml:886-904 | what a commit or reset copies: the data of the registers that some way through the rule writes, and the read-write sets in which some way records anything |
| SimulatorSync.ChecksAgree | ocaml/backends/resources/cuttlesim.hpp:1110-1178 | each specialised read-write set answers as the semantics does, except that a read left recorded refuses a port-0 write |
| SimulatorSync.ReadMeets | ocaml/backends/resources/cuttlesim.hpp:1182-1196 | a read succeeds exactly when the semantics allows it, returns the value of the semantics and leaves a state that stands for the log with that read; else the rule has stopped and only earlier leftovers remain |
| SimulatorSync.WriteMeets | ocaml/backends/resources/cuttlesim.hpp:1198-1211 | a write likewise, unless a read of its register was left recorded |
| SimulatorSync.CommitSettles | ocaml/backends/cpp.ml:949-968 | after a commit both copies stand for the appended log, with no new leftovers |
| SimulatorSync.FastStops | ocaml/backends/resources/cuttlesim.hpp:1444-1445 | a failure without a reset leaves the cycle's log and values as they were, and recorded exactly the earlier leftovers and the port-1 reads of the rule's log in registers that record them; the annotation admits all of these |
| CallOrder.ForwardAgrees | ocaml/backends/cpp.ml:1232-1247 | arguments that do not clash may be evaluated in either order: both fail, or both give the same values and variables and logs that answer alike |
| CallOrder.IndependentPairwise | ocaml/backends/cpp.ml:1232-1247 | arguments may be evaluated in either order when no two of them clash: the condition over the list is the condition on every pair |
| Walks.AccessSetIsWalked | ocaml/backends/cpp.ml:1232-1247 | the accesses of an argument that are compared are exactly those that some way through it makes |
| CallOrder.SingleOrderExact | coq/TypedSemantics.v:37-52 | two single accesses as arguments may be swapped in every state if and only if they are to different registers or neither is a port-0 write beside a port-1 access |
| Stops.LeftWithin | coq/TypedSyntaxFunctions.v:370-377 | whatever reads a run of the semantics leaves recorded where it stops, by the emitted order of evaluation, the text of the rule admits |
| EmissionCorrectness.EmitCorrect | ocaml/backends/cpp.ml:1133-1284 | running the code emitted for an action, with operands kept as text, targets shared and names resolved as C++ does, stops exactly when the semantics fails or a leftover read refuses a write, and then leaves exactly the reads that a run of the semantics says; else the returned text evaluates to the action's value, now and until a variable it mentions changes, and variables and copies stand for those of the semantics |
| SimulatorCorrectness.RuleAgrees | ocaml/backends/cpp.ml:1294-1306 | an emitted rule fires exactly when the semantics fires it without a port-0 write to a register with a leftover read, and then commits the rule's log; the leftover reads afterwards are exactly those that a run of the semantics says |
| SimulatorCorrectness.SchedulerAgrees | coq/LoweredSemantics.v:100-114 | the emitted scheduler fires the rules that the semantics fires if and only if a run of the semantics that carries the leftover reads meets no write that they refuse; and then it commits what the semantics logs |
| SimulatorCorrectness.TextIsEnough | coq/TypedSyntaxFunctions.v:370-377 | that run meets none when, along every path, no rule writes at port 0 a register that an earlier rule may have left recorded |
| SimulatorCorrectness.CycleExact | coq/LoweredSemantics.v:120-122 | the same if-and-only-if for a simulated cycle from its start, on rules, scheduler and registers alone, with the registers it then ends in |
| SimulatorCorrectness.UnblockedCycles | coq/LoweredSemantics.v:120-122 | any number of simulated cycles compute the registers of the semantics as long as every cycle of the semantics is such a run |
| SimulatorCorrectness.CyclesAgree | coq/LoweredSemantics.v:120-122 | any number of simulated cycles compute the registers of the semantics, for programs, calls included, that meet conditions decided from their text |
| SimulatorCorrectness.Simulate | ocaml/backends/cpp.ml:1454-1457 | building and running the simulator object returns those registers |
| SimulatorDivergence.BoundOnceIsSafe | ocaml/backends/cpp.ml:1133-1284 | rules that assign no variable after binding it, hide none, call nothing and write nothing at port 1 meet all conditions on their own text |
| FastFailures.FastFailExact | ocaml/backends/resources/cuttlesim.hpp:1444-1445 | leaving a rule without a reset equals resetting exactly when every port-1 read recorded in a register that the reset restores was already recorded in the cycle |
| FastFailures.LeavesSomething | coq/TypedSyntaxFunctions.v:370-377 | where the annotation admits a recorded port-1 read, some state that it describes is left different by the missing reset |
| FastFailures.FastFailDiffers | coq/TypedSyntaxFunctions.v:370-377 | a program whose simulated cycle then loses a rule that the semantics fires |
| FastFailures.FastFailHarmless | coq/TypedSyntaxFunctions.v:370-377 | the same rules, scheduled so that the read comes last, run right for any number of cycles |
| SimulatorDivergence.DelayedOperandExact | ocaml/backends/cpp.ml:1149-1151 | x + (set x := b; x) after x := a, for all a and b: the emitted cycle writes b + b, the semantics a + b, the same exactly when a = b |
| SimulatorDivergence.SharedTargetExact | ocaml/backends/cpp.ml:982-988 | set x := read0(r) + x after x := a, for all a and all contents v of r: the emitted cycle writes v + v, the semantics v + a, the same exactly when v = a |
| SimulatorDivergence.FieldExact | ocaml/backends/cpp.ml:1080-1088 | set x := {c with f := x.f} after x := a, for all a and c, where f is the only field: the struct is copied first, so the emitted cycle writes c, the semantics a |
| SimulatorDivergence.CaptureExact | ocaml/backends/cpp.ml:1270-1282 | let x := a in (let x := (if 1 then (set x := b; c) else d) in nothing); write x, for all constants: the inner x is declared too early and takes the assignment, so the emitted cycle writes a, the semantics b, the same exactly when a = b |
| SimulatorDivergence.ShadowExact | ocaml/backends/cpp.ml:1167-1176 | an assignment whose expression binds the same name, for all constants: the value goes to the inner variable, so the emitted cycle writes the old value a, the semantics the new one c, the same exactly when a = c |
| SimulatorDivergence.HiddenExact | ocaml/backends/cpp.ml:1253-1272 | nested conditionals, rebuilt as a switch, on a variable with value a that a later one with value b hides, for all labels, cases and values: the emitted cycle picks the case of b, the semantics that of a, the same exactly when the picked values are |
| SimulatorDivergence.CallOrderExact | ocaml/backends/cpp.ml:1232-1247 | a call whose first argument writes v at port 0 and whose second reads at port 1, for all v and all contents w: the emitted rule fires, the semantics fails, and the registers are the same exactly when v = w |
| SimulatorDivergence.Port1ReadExact | ocaml/backends/resources/cuttlesim.hpp:1429-1430 | a port-1 read shows the right value exactly when the rule has not written at port 1, or wrote there the value due |
| SimulatorDivergence.RereadExact | ocaml/backends/cpp.ml:874-889 | a port-1 read after a port-1 write of v to a register that holds w, for all v and w: the emitted rule passes on v, the semantics w, the same exactly when v = w |
| DynamicLog.Machine.Touch | ocaml/backends/resources/cuttlesim.hpp:1484-1495 | an access pushes its register, unless that never conflicts, and changes only that register's bytes; the copies then differ only in pushed registers and in those not recorded |
| DynamicLog.AppliedIsFull | ocaml/backends/cpp.ml:803-819 | copying the pushed registers' bytes makes the copies equal if and only if they agree outside those bytes |
| DynamicLog.Machine.Apply | ocaml/backends/cpp.ml:803-819 | the loop replaces exactly the pushed registers' bytes, repetitions included |
| DynamicLog.Machine.Fail | ocaml/backends/resources/cuttlesim.hpp:1480-1481 | after any accesses a failure restores the whole rule copy if and only if the registers that are not pushed have the same value in both copies; all else is restored in any case |
| DynamicLog.Machine.Commit | ocaml/backends/resources/cuttlesim.hpp:1504-1505 | a commit completes the whole cycle copy if and only if they do |
| DynamicLog.LostWrite | ocaml/backends/cpp.ml:943-947 | a register that never conflicts is written and the rule commits: the cycle's copy keeps the old value |
| LogSize.EmittedSize | ocaml/backends/cpp.ml:1133-1284 | emitting an action neither drops nor repeats an access: the code's longest path has as many as the action's, calls included |
| LogSize.PushBound | coq/TypedSyntaxFunctions.v:381-400 | no run of an emitted rule, to its end or to a failure, pushes more than the source's capacity plus the accesses inside written values |
| LogSize.PushExact | coq/TypedSyntaxFunctions.v:381-400 | a run that ends, of a rule without branches whose registers all record, pushes exactly that many; so it overruns the capacity exactly when a written value makes an access |
| LogSize.LogSizeBound | coq/TypedSyntaxFunctions.v:381-400 | no successful run of the semantics logs more than the longest path accesses |
| LogSize.LogSizeExact | coq/TypedSyntaxFunctions.v:381-400 | without branches every successful run of the semantics logs exactly the capacity plus the accesses inside written values |
| LogSize.LogSizeIsLongest | coq/TypedSyntaxFunctions.v:381-400 | the number of accesses so counted is that of the longest way through the action |
| LogSize.CapacityExact | coq/TypedSyntaxFunctions.v:381-400 | the source's capacity is that of the longest way through the rule without its written values |
| LogSize.LogSizeTooSmall | coq/TypedSyntaxFunctions.v:393-394 | a rule that makes two accesses and is given room for one |
| Slices.MaskSubstCorrect | ocaml/backends/resources/cuttlesim.hpp:543-547 | masking and or-ing replaces exactly the slice, overhanging slices included |
| Slices.SliceSubstImplCorrect | coq/PrimitiveProperties.v:220-232 | so does putting slices side by side |
| Slices.SliceOfSubst | coq/Vect.v:1405-1425 | the slice just replaced reads back, disjoint slices are untouched |
| Packing.Pack | ocaml/backends/resources/cuttlesim.hpp:851-861 | the runtime's loop over elements and the shifts emitted for fields compute the bits of a value, for structs and arrays nested at will |
| Packing.UnpackStruct | ocaml/backends/cpp.ml:621-635 | the statements emitted for a struct read each field at its offset |
| Packing.Unpack | ocaml/backends/resources/cuttlesim.hpp:863-879 | unpacking computes the value of the bits, at every type |
| Printing.Format | ocaml/backends/resources/cuttlesim.hpp:904-921 | the binary printing loop, header and shortened zero included |
| Printing.OfStr | ocaml/backends/resources/cuttlesim.hpp:271-279 | the reading loop sets exactly the bits whose character, among the last ones, is 1 |
| Printing.RoundTrip | ocaml/backends/resources/cuttlesim.hpp:904-921 | reading back what was printed gives the same value if and only if it is not a zero printed with a size of at least 10 that contains the digit 1 |
| Printing.DecimalReadsBack | ocaml/backends/resources/cuttlesim.hpp:904-908 | a size printed in decimal reads back, and has no leading zeroes |
| Printing.NumberPrintsBack | ocaml/backends/resources/cuttlesim.hpp:904-908 | and every text of digits without leading zeroes is the printed form of its number |
| Printing.FiveInBinary | ocaml/backends/resources/cuttlesim.hpp:904-921 | five in three bits is 3'b101, 0b101 or b101 |
| Printing.SixteenZeroes | ocaml/backends/resources/cuttlesim.hpp:904-916 | the exception: 16'b0 reads back with bit 4 set |
| Quicksort.InsertionSort | examples/rv/tests/integ/rvbench_qsort.c:44-60 | sorts and permutes its piece, reading no element before it |
| Quicksort.ScanUp | examples/rv/tests/integ/rvbench_qsort.c:120 | the upward scan stops inside the piece, at an element not less than the pivot |
| Quicksort.ScanDown | examples/rv/tests/integ/rvbench_qsort.c:121 | the downward scan stops inside the piece, at an element not greater than the pivot |
| Quicksort.MedianOfThree | examples/rv/tests/integ/rvbench_qsort.c:104-110 | the pivot is the median of the first, middle and last element, and bounds both scans |
| Quicksort.Partition | examples/rv/tests/integ/rvbench_qsort.c:106-128 | permutes the piece so that what is left of the pivot, between, and right of it is in order |
| Quicksort.DepthBound | examples/rv/tests/integ/rvbench_qsort.c:25-28 | a piece of more than ten elements is never pushed past the fifty slots, for n + 1 below 12 * 2^24 |
| Quicksort.SplitHalves | examples/rv/tests/integ/rvbench_qsort.c:130-146 | pushing the larger part keeps the piece at depth k within a 2^k-th of the array, one added to each size |
| Quicksort.Sort | examples/rv/tests/integ/rvbench_qsort.c:82-148 | for every array of the sizes the source's stack is declared for, and up to almost six times larger ones, it terminates, stays in bounds of array and stack, and leaves a sorted permutation of its input |
| Primes.Rem | examples/rv/tests/integ/primes.c:68-73 | repeated subtraction computes the remainder |
| Primes.ISqrtIsFloor | examples/rv/tests/integ/primes.c:75-81 | the root is the exact floor square root of every 32-bit word, and its square never wraps around |
| Primes.IsPrime | examples/rv/tests/integ/primes.c:83-90 | true exactly for words below 2 and primes |
| Primes.Aliquot | examples/rv/tests/integ/primes.c:92-99 | the sum of the set of proper divisors, wrapped to the word |
| Primes.PrimeByDivisors | examples/rv/tests/integ/primes.c:92-99 | from 2 on, that sum is 1 exactly for the primes |

## Left out

- Parsing, notations, type inference, error reporting, extraction, interop packages and the Verilog printer: no behaviour of the language itself.
- Names of enumeration members, and of fields beyond their position: they decide no value.
- Footprint graphs (path_dependency_graph in coq/LoweredSyntaxFunctions.v:53-101): printed for people, used by nothing else.
- External functions are pure functions of their argument; the simulator's may keep state, and may end a run early, and its random scheduler picks rules at random: neither is modelled.
- SimulatorCorrectness.CyclesAgree: the conditions on the text are sufficient; a program that fails one may still be simulated right, as `DelayedOperandExact`, `SharedTargetExact` and `FastFailHarmless` show. For leftover reads alone the exact condition is that of `CycleExact`, and `UnblockedCycles` needs no more.
- SimulatorCorrectness.Simulate: as CyclesAgree.
- EndToEnd.BackEndsAgree: as CyclesAgree for the simulator; the circuits need no condition on the text.
- SimulatorCorrectness.CycleExact: exact about which rules fire, not about final registers, which can agree although different rules fired.
- EmissionCorrectness.EmitCorrect: on bit vectors; what the emitted primitives do to structs and arrays is taken to be what their bit-level forms do, except that packing and unpacking themselves are `Packing`.
- Emission.Emit: a switch that the back end rebuilds from nested conditionals is emitted as those conditionals, with the variable printed by name as in the switch, and its labels are not folded to constants; an else branch that does nothing is emitted; bindings at the top of a rule are a block of their own; generated names are numbers; the shortcut for unpacking a constant zero is an ordinary primitive; displayed text is not modelled; types are told apart by width, so a target can be reused for a first operand of another type of the same width, which the back end does not do.
- Cuttlesim.Simulator.RunStatements: the local variables of a C++ function are a map from variables to values; the source's log and Log are the fields `log` and `total`.
- The one-bit fields of read-write sets, packed by the C++ compiler, are Booleans.
- Walks.ClassifyExact: ways through a scheduler are those of the analysis: a rule that fails may have made its accesses, a failure inside a rule does not end a way through it, and branches are chosen freely.
- ExternalRules.BundlesSuffice: a module drives wires in the cycle in which it is asked, and keeps no state of its own.
- LogSize.PushBound: functions are counted as if the dynamic log were visible in them; in the source it is a local variable of the rule.
- Slices.MaskSubstCorrect: shifts by at least the storage width are undefined in C++; here they shift everything out. The same holds for Packing.Pack on one-element arrays that fill their storage word.
- Packing.Unpack: values are built in an array and returned as a sequence.
- Quicksort.Sort: nothing is claimed for arrays of 12 * 2^24 - 1 or more elements. The source asks for 2 * lg(n) <= 50, that is at most 2^25 elements (examples/rv/tests/integ/rvbench_qsort.c:25-28), and does not check its stack; the bound here is almost six times as large.
- Quicksort.Sort also: pointers are offsets into the array, elements are unbounded integers (only compared and moved), and the scans, the exchange loop, the median and one insertion are methods of their own.
- The selection sort, the checking loops and the input data of the benchmarks; is_perfect and is_amicable of the prime program, which only compare sums.
- Primes.Rem: a divisor of zero, on which the loop does not end, is excluded; no caller passes one.
- Signed operations of the C++ bit vectors at padded widths, multiprecision integers, hexadecimal and decimal printing, VCD files, displays, drivers and the RISC-V cores.
