# A verified model of the MPC circuit compiler, garbler and protocol

The repository compiles a program to SSA form, lowers it to a graph of boolean
gates, optimises and numbers the graph, garbles the resulting circuit, and runs
it between two parties over an oblivious transfer. Every stage has a simple
meaning: integer arithmetic for the circuit generators, an SSA interpreter for
lowering, plain gate evaluation for circuits. This project models the stages in
the form the source gives them (graph-building methods on a mutable compiler
object, passes that rewire it in place, loops over wire arrays, a state machine
for the message exchange) and proves that each stage keeps the meaning. The
stages compose:

* `Program.CompileProgram`: for every well-formed straight-line program, every
  multiplier threshold of at least 3, and with or without pruning, the compiled
  circuit computes exactly what the SSA interpreter computes, on all inputs.
* `Garble.GarblingComputes` and `Pipeline.GarbledGraph`: for any cipher, any
  random labels and any offset whose S bit is set, garbled evaluation decodes to
  what plain evaluation computes, and so to what the graph says.
* `Protocol.RunsKeep`, `NotStuck`, `RunsEnd`, `BothHaveResult`: in every
  interleaving of any number of sessions, nothing gets stuck, runs end, and both
  parties finish with the plain result.

A graph is a table of wires and a table of gates; pointers of the source are
indices into these tables. A gate table is a set of constraints: `Sat(table, asg)`
says that an assignment of bits to wires obeys every gate. "The wires carry v"
means that they do under every such assignment; `Pipeline.EveryInputHasMeaning`
shows that there is one for all input bits, so these statements are never empty.
`Built` is the invariant of construction: gates are in topological order, each
wire has one driver, the wire's reader list holds exactly the gate ports that
read it and the count in the wire says how many.

## Files

| files | subject |
|---|---|
| `Nat` | powers of two, bits, congruences |
| `Labels`, `Circuit`, `Garble`, `Rows` | labels, plain evaluation, garbling and garbled evaluation, and the garbled rows bit by bit |
| `Graph`, `WireWord`, `Compiler` | the gate graph, the packed word of a wire, graph construction |
| `Adder`, `Subtractor`, `Mux`, `Multiplier`, `Karatsuba`, `Division`, `Divider`, `SignedDivider`, `Comparators`, `Bitwise`, `Index`, `Native` | the circuit generators and embedded circuits |
| `Propagate`, `ShortXor`, `Prune`, `Numbering`, `Pipeline` | the passes over the graph, numbering, and all of them in sequence |
| `Ssa`, `Lowering`, `Program` | the SSA interpreter, lowering with the wire table, and the whole compiler |
| `Laws` | the instructions by numbers and places, and the equations that a run solves |
| `Widths`, `SingleStep` | instructions on operands of different widths, and compiled programs of one instruction that show it |
| `Bindings`, `Scopes`, `Returns`, `Blocks`, `WireAllocator` | bindings and their merge, return values as phis, block order, the wire table |
| `Transfer`, `Protocol`, `Exchange` | oblivious transfer, the two-party run, and its messages one by one |
| `Format` | the circuit file format |

## What the code does not do

Some properties one would expect hold only under a condition. The condition is
stated exactly, as an equivalence, or with an input that breaks the property.

* The array multiplier (`NewArrayMultiplier`) writes `z[1]` in
  the loop that should clear the wires above the product
  (compiler/circuits/circ_multiplier.go:126-128). Its output is complete exactly
  when it is at most 2n wires wide; the Karatsuba multiplier inherits this exactly
  when it falls back to the array (`KaratsubaFits`).
* Long and restoring division leave result wires above the operand width
  undriven, so all of them are driven exactly when the results are no wider than
  the operands. Array division is right at every width.
* An instruction works at the width of its wider operand, and a narrower one is
  extended by zeros even when it is signed. A literal has 32 or 64 bits
  (compiler/ssa/generator.go:183-243) and meets values of any width
  (compiler/ast/ssagen.go:1549-1605), so for an 8-bit x of -1 the comparison `x < 5`
  is false, and -6 / 3 is 83 (`SingleStep.MinusOneLessThanFive`,
  `MinusSixByThree`). A comparison is right for all values of the wider operand
  exactly when the narrower one is not negative (`Widths.NarrowCompare`), and
  arithmetic exactly when the narrower one is `Kept`: not negative, or for sums,
  differences and products the result no wider than it, or for quotients a single
  bit, or for remainders the least number of its width (`NarrowLeft`, `NarrowRight`,
  for results of either operand's width). With equal widths all are right.
* The signed divider gives the remainder of the absolute values with no sign
  correction: the truncated remainder exactly when the dividend is not negative or
  nothing is left (`SignedDivider.RemainderIsTruncated`,
  `SingleStep.RestOfMinusSeven`).
* The subtractor's wires above the borrow are zero: a result wider than n+1 wires
  is the difference exactly when nothing is borrowed (`Subtractor.DifferenceExact`,
  `Widths.WholeDifference`, `SingleStep.ZeroMinusOne`).
* The search for a return value takes a straight block's own binding when the block
  it leads to has none for all ways on. It is the last binding on the selected path
  exactly when no later one is passed over in this way (`Returns.GiverIsLast`,
  `PassesOver`), which return statements never bring about (`ReturnsSettle`).
* The unsigned comparator on operands without bits leaves its result undriven.
* Input labels are read after garbling (circuit/garbler.go:83-85), so garbling is
  proved for circuits in which no gate reads an input wire at or before the first
  gate that writes it. `Garble.OverwrittenInputFails` gives a circuit outside this
  where the evaluator ends with an unknown label. The condition goes one way: what
  is read too early may cancel, as in the circuit of `Garble.CancellingDecodes`, and
  whether it does is a question about the function the circuit computes, not one a
  caller could check.
* The oblivious transfer fails exactly when a point that is sent is the neutral
  element; otherwise it delivers the chosen labels.
* `parseString` reads with a single `Read` call, which a buffered reader may cut
  short; the rest of the string is then zero bytes. A string is read back exactly
  when one call delivers all of it (`Format.StringReadBack`). The magic number of
  the file is read and never compared: the parser accepts exactly the bytes of sound
  circuits from the fifth on (`Format.ParseExactly`).
* Sizes in the file are read as signed 32-bit numbers and added up with their signs:
  inputs of 0xFFFFFFFF and 2 bits count as one wire, and an input of 2^31 bits as
  none (`Format.NegativeSize`, `HugeInput`). What is stated about the parser is
  stated over this sum.

## Model

| member | source | states |
|---|---|---|
| Labels.DecodeIsInverse | circuit/helpers.go:10-27 | For paired labels and an offset with S set, a label decodes to a bit exactly when it is the label chosen for that bit, so decoding inverts labelling and never confuses 0 and 1 |
| Circuit.Compute | circuit/computer.go:15-91 | Fails exactly on a wrong number of values or an invalid operation; otherwise each part of each argument has its bits on the input wires behind all earlier arguments and parts, lowest first, the circuit is run on them, and each value returned is the number of the output bits behind those of all earlier outputs |
| Circuit.InputsLoaded | circuit/computer.go:16-41 | Where the bits of each part of each argument stand, for every argument list |
| Circuit.OutputsUnloaded | circuit/computer.go:76-91 | Which bits make up each value returned |
| Circuit.SpanIsSize | circuit/ioarg.go:28-34 | Where compounds add up to their width, arguments stand behind each other by their widths |
| Circuit.TwoFields | circuit/computer.go:16-41 | A struct of a 1-bit and a 2-bit field with the values 1 and 2: the wires are 1, 0, 1 |
| Circuit.ApplyNumbers | circuit/computer.go:43-74 | The gate types by the numbers of their bits |
| Laws.MeaningAt | circuit/computer.go:28-91 | Inputs are the first wires, outputs the last, all others start as 0 |
| Laws.RunSolves | circuit/computer.go:43-74 | In a circuit in topological order that writes each wire once and no input, every gate's equation holds of the final wires |
| Circuit.EvaluateGates | circuit/computer.go:41-74 | The in-place gate loop leaves on the wire array what running the gates in order gives, and stops exactly when an operation is invalid |
| Circuit.Split | circuit/ioarg.go:51-65 | Value k is the number of the bits of the integer behind those of all earlier arguments |
| Garble.FreeXor | circuit/garble.go:255-276 | A garbled XOR or XNOR needs no ciphertext: evaluating it on the labels of x and y gives the label of the result |
| Garble.HalfGates | circuit/garble.go:277-320 | The two half-gate ciphertexts evaluate to the label of x and y for all four input pairs, and both sides advance the tweak counter by two |
| Garble.OrRowAt | circuit/garble.go:336-369 | With S of the offset set, the four OR rows land on four different places, found by the S bits of the labels held |
| Rows.AndRows | circuit/garble.go:103-137 | The two AND rows, both output labels and the next counter, bit by bit: pads of 2x xor the counter for each label of a, and of b at the next counter |
| Rows.OrRow | circuit/garble.go:39-83 | Each OR row, bit by bit, at the place that the first bits of its labels say: the pad of 2a xor 4b xor the counter, xored with the label for x or y; the one at place 0 is that label |
| Rows.InvRow | circuit/garble.go:370-399 | The same for the inverter, with the pad of 2a xor the counter |
| Rows.XorLabels | circuit/garble.go:255-276 | XOR and XNOR: no row, no counter value, and the output labels bit by bit |
| Rows.CounterAfter | circuit/garble.go:185-229 | The counter after any gates: from 0, two for each AND and one for each OR and INV, modulo 2^32 |
| Rows.RowsOfGate | circuit/garble.go:185-229 | The rows of each gate of a circuit are made from the labels its inputs have then, at that counter value |
| Rows.StartLabels | circuit/garble.go:146-212 | The offset is the first label drawn with its first bit set; input wire i gets label 1 + i and that xored with the offset |
| Garble.ReducedOr | circuit/garble.go:321-369 | Row-reduced OR: dropping row 0 and choosing the output labels so that it is zero still opens to the label of x or y |
| Garble.ReducedInv | circuit/garble.go:370-399 | The same for the one-row inverter |
| Garble.GateSimulates | circuit/garble.go:232-406 | Every gate type: evaluating the garbled gate gives the label of the gate's truth table entry, the output labels are paired by the offset and the tweaks of both sides agree |
| Garble.Lockstep | circuit/eval.go:24-114 | After any number of gates, on every assigned wire the evaluator's label is the garbler's label for the plain bit, and both tweak counters are equal |
| Garble.GarbleInto | circuit/garble.go:232-406 | The imperative gate garbler writes exactly the output wire's labels and returns the rows and the next tweak of the specification; an invalid operation changes nothing |
| Garble.GarbleCircuit | circuit/garble.go:185-229 | Fails exactly when randomness runs out or an operation is invalid; otherwise sets S on the drawn offset, labels the inputs, and garbles all gates in order |
| Garble.Eval | circuit/eval.go:17-115 | The evaluation loop over the label array does what the specification run does, and fails exactly when it fails |
| Garble.InputLabelsSurvive | circuit/garbler.go:81-99 | The labels of a wire that no gate writes, read after garbling, are those drawn before it |
| Garble.UntouchedReads | circuit/garbler.go:81-99 | A circuit that writes no input wire meets the condition of the theorem, that no gate reads an input wire at or before the first gate that writes it |
| Garble.GarblingComputes | circuit/garble.go:185-406 | The simulation theorem: for any cipher, labels and offset with S set, and any circuit in topological order in which no gate reads an input wire at or before the first gate that writes it, every output wire decodes to the bit that Compute gives, on all inputs |
| Garble.LateInputIsCovered | circuit/garbler.go:81-99 | A circuit that overwrites an input before anybody reads it is covered, though it does not leave its inputs alone |
| Garble.OverwritingIsRunnable | circuit/garbler.go:81-99 | The failing circuit below meets everything else that the theorem asks |
| Garble.OverwrittenInputFails | circuit/garbler.go:81-99 | The condition is needed: on a circuit that reads an input wire and overwrites it, evaluation ends with a label that decodes to nothing |
| Garble.CancellingDecodes | circuit/garbler.go:81-99 | The condition is not necessary for every circuit: where the early reads cancel (XOR of a wire with itself) the output decodes whatever label the evaluator starts from |
| WireWord.FieldsDetermineWord | compiler/circuits/wire.go:17-19 | The flag, the value bits and the count are the whole packed word |
| WireWord.OutputSet | compiler/circuits/wire.go:84-90 | Setting the output flag changes neither value nor count |
| WireWord.ValueSet | compiler/circuits/wire.go:98-101 | Setting the value changes neither flag nor count |
| WireWord.NumSet | compiler/circuits/wire.go:109-115 | Setting a count of at most 29 bits changes neither flag nor value |
| WireWord.Layout | compiler/circuits/wire.go:16-22 | The flag stands at bit 31, the value at bits 29 and 30, the count below |
| WireWord.PackedWire.CountDown | compiler/circuits/wire.go:194-196 | Removing a reader fails exactly at count zero, where the subtraction wraps; else only the count changes |
| Compiler.AddGateKeepsBuilt | compiler/circuits/allocator.go:57-84 | Linking a gate with driven inputs to an open wire keeps the invariant: topological order, one driver for each wire, reader lists and counts equal to the ports that read the wire |
| Compiler.Compiler.Binary | compiler/circuits/allocator.go:57-70 | A new gate drives its output, appears last, and leaves every other wire as it was |
| Compiler.Compiler.ZeroWire | compiler/circuits/compiler.go:70-78 | Made once, and 0 under all inputs |
| Compiler.Compiler.OneWire | compiler/circuits/compiler.go:81-89 | Made once, and 1 under all inputs |
| Compiler.ConstantsHold | compiler/circuits/compiler.go:61-89 | In every graph that was built, the cached constant wires carry 0 and 1 under all inputs |
| Compiler.Compiler.ZeroPad | compiler/circuits/compiler.go:93-122 | Both operands come out as wide as the wider, with their values unchanged |
| Compiler.Compiler.ShiftLeft | compiler/circuits/compiler.go:126-139 | 2^count times the number, modulo 2^size |
| Compiler.Compiler.Invert | compiler/circuits/compiler.go:143-145 | XOR with the one wire is NOT |
| Compiler.Compiler.Identity | compiler/circuits/compiler.go:149-151 | XOR with the zero wire copies |
| Adder.NewFullAdder | compiler/circuits/circ_adder.go:27-51 | Sum plus twice the carry is the sum of the three inputs; without a carry wire the sum is their parity |
| Adder.NewAdder | compiler/circuits/circ_adder.go:54-96 | All wires of z are driven and carry (x + y) mod 2^len(z) at every combination of widths; only entries above the carry are replaced |
| Subtractor.NewFullSubtractor | compiler/circuits/circ_subtractor.go:16-30 | Difference minus twice the borrow is y - x - borrow in |
| Subtractor.NewSubtractor | compiler/circuits/circ_subtractor.go:33-63 | z carries (x - y) mod 2^min(len(z), n+1), n the wider operand, at every combination of widths; this is the difference modulo 2^len(z) exactly when there are no wires above the borrow or nothing is borrowed |
| Subtractor.DifferenceExact | compiler/circuits/circ_subtractor.go:33-63 | The arithmetic of that equivalence, for all numbers and widths |
| Subtractor.WideBorrow | compiler/circuits/circ_subtractor.go:33-63 | 0 - 1 on one-bit operands and three result wires gives 3, where the difference is 7 |
| Mux.NewMUX | compiler/circuits/circ_mux.go:17-39 | Fails exactly on mismatched widths; else out is t when the condition wire is 1 and f when it is 0, the shorter extended by zeros |
| Multiplier.NewArrayMultiplier | compiler/circuits/circ_multiplier.go:34-131 | All output wires are driven exactly when len(z) <= 2n, and then carry x * y mod 2^len(z); wider outputs get z[1] replaced by the zero wire |
| Multiplier.WideProduct | compiler/circuits/circ_multiplier.go:126-128 | Two bits multiplied onto three wires: z[1] is the zero wire and not all wires are driven |
| Multiplier.UpperLayers | compiler/circuits/circ_multiplier.go:50-94 | The carry-save layers: z[0..j) and the pending sums together are x times the low bits of y |
| Karatsuba.DifferenceCong | compiler/circuits/circ_multiplier.go:190-202 | The subtractions of the half products lose no borrow even when the products were cut to the output width |
| Karatsuba.KaratsubaValue | compiler/circuits/circ_multiplier.go:151-213 | The recombined shifts and sums of three half products are the whole product modulo the output width |
| Karatsuba.NewKaratsubaMultiplier | compiler/circuits/circ_multiplier.go:151-213 | For every limit of at least 3 the recursion ends; outputs are all driven exactly when the split is used or len(r) <= 2n, and then carry a * b mod 2^len(r) |
| Karatsuba.AtThreshold | compiler/circuits/circ_multiplier.go:151-170 | Operands as wide as the threshold go to the array, one bit more are split |
| Division.DivStep | compiler/circuits/circ_divider.go:18-52 | Bringing down one dividend bit: the new remainder and quotient from the old, by one trial subtraction, also for a zero divisor |
| Division.QuotValue | compiler/circuits/circ_divider.go:18-52 | The quotient bits together are the quotient |
| Divider.ShiftKeepsValue | compiler/circuits/circ_divider.go:21-24 | The wire that the in-place shift drops carries 0, because the partial remainder is bounded by the dividend prefix |
| Divider.NewUDividerLong | compiler/circuits/circ_divider.go:11-59 | q and r hold quotient and remainder, all ones and the dividend for a zero divisor; they are all driven exactly when no wider than the operands |
| Divider.NewUDividerRestoring | compiler/circuits/circ_divider.go:64-124 | The same contract for restoring division |
| Divider.NewUDividerArray | compiler/circuits/circ_divider.go:128-204 | The same function at every width, with the upper wires replaced by zeros |
| Divider.DividersAgree | compiler/circuits/circ_divider.go:11-204 | Dividers with this contract agree; at full width a = q*b + r with r < b when b > 0, and q is all ones and r = a when b = 0 |
| SignedDivider.TruncMeans | compiler/circuits/circ_divider.go:217-309 | What truncation means: a = q*b + r, r with the sign of a and smaller than b in size |
| SignedDivider.MostNegativeWraps | compiler/circuits/circ_divider.go:217-309 | The most negative number over -1 wraps to itself |
| SignedDivider.ZeroDivisor | compiler/circuits/circ_divider.go:217-309 | A zero divisor gives all ones with the sign of the dividend, and its size as remainder |
| SignedDivider.NarrowOperand | compiler/circuits/compiler.go:93-122 | Zero-padding a narrower signed operand keeps its value exactly when it is not negative |
| SignedDivider.RemainderIsTruncated | compiler/circuits/circ_divider.go:217-309 | For n-bit operands the remainder of the absolute values is the remainder of truncated division exactly when the dividend is not negative or the division leaves nothing |
| SignedDivider.RemainderOnWires | compiler/circuits/circ_divider.go:217-309 | The same equivalence for the number on the remainder wires |
| SignedDivider.NegativeDividend | compiler/circuits/circ_divider.go:217-309 | -7 / 2 on four bits: the quotient wires hold -3, the remainder wires 1 instead of -1 |
| SignedDivider.NewIDivider | compiler/circuits/circ_divider.go:217-309 | For a quotient no wider than the operands: the quotient truncated toward zero modulo 2^len(q), also in the overflow case, and the remainder of the absolute values, complete exactly when it is no wider than the operands |
| Comparators.UintComparator | compiler/circuits/circ_comparators.go:57-81 | x > y with carry in 0 and x >= y with carry in 1, as unsigned numbers of any widths; driven exactly when there are operand bits |
| Comparators.IntComparator | compiler/circuits/circ_comparators.go:17-54 | The same on two's complement numbers of the wider width; fails exactly on empty operands or a result of the wrong width |
| Comparators.NewNeqComparator | compiler/circuits/circ_comparators.go:124-152 | The result is 1 exactly when the numbers differ |
| Comparators.NewEqComparator | compiler/circuits/circ_comparators.go:155-169 | The result is 1 exactly when the numbers are equal |
| Index.SelectTree | compiler/circuits/circ_index.go:52-106 | The recursive tree selects by the index bits it was given, whatever the number of elements, also when the index has fewer bits than the tree is deep |
| Index.NewIndex | compiler/circuits/circ_index.go:19-50 | Element (index mod 2^bits) of the items, zeros when there is none; fails exactly on items that are no whole number of elements or an output of the wrong size |
| Bitwise.NewBinary | compiler/circuits/circ_binary.go:14-65 | Bitwise and, clear, or, xor of zero-extended operands; the result wires are all driven exactly when it is no wider than the wider operand |
| Bitwise.NewBitTest | compiler/circuits/circ_comparators.go:194-221 | The result is 1 exactly when the bit is as wanted, a bit beyond the operand counting as 0; fails exactly on a result that is not one wire |
| Native.FlattenInputs | compiler/ssa/circuitgen.go:581-592 | The arguments of a native circuit one after the other, unset input bits zero |
| Native.InlineCircuit | compiler/ssa/circuitgen.go:581-640 | Copying the gates of a circuit into the graph: its output wires carry what Compute gives for the bits of the arguments |
| Propagate.DecideSound | compiler/circuits/compiler.go:178-255 | Each case of the constant rules is right: a marked output has that value and a passed input equals the output, whenever the input flags are true |
| Propagate.DecideExact | compiler/circuits/compiler.go:178-254 | No rule is missing: an output is marked exactly when the input flags force it, and an input is passed on by XOR, AND and OR exactly when the flag of the other makes the gate copy it |
| Propagate.MoveCounts | compiler/circuits/gates.go:70-82 | Moving a port keeps every reader count equal to the number of live ports that read the wire |
| Propagate.ReplaceInput | compiler/circuits/gates.go:70-82 | On a gate that reads the wire, the count does not underflow, exactly one port moves, and meaning, counts and flags are kept |
| Propagate.ShortCircuit | compiler/circuits/gates.go:50-61 | Every reader of the gate's output reads the other wire instead, unless it is an output of the circuit; each listed reader does read it, so the replacement never panics; the detached wire has no reader left |
| Propagate.ConstPropagate | compiler/circuits/compiler.go:173-283 | Every assignment of the old graph obeys the new one, every wire marked Zero or One has that value under all inputs, counts and lists stay right, and every gate has had its rule carried out |
| ShortXor.PointerRight | compiler/circuits/compiler.go:290-321 | A stale input pointer is never followed: when the pass finds a count of one behind it, the pointed gate does drive the wire |
| ShortXor.BypassModels | compiler/circuits/compiler.go:290-321 | Driving the XOR's output directly keeps the value of every wire there was |
| ShortXor.ShortCircuitXORZero | compiler/circuits/compiler.go:287-325 | The pass keeps every wire's value under all inputs, the counts and the order of gates, keeps every output driven and leaves no XOR with zero that it could have bypassed |
| Prune.PruneGate | compiler/circuits/gates.go:86-100 | Removes exactly the gates whose output is neither read nor an output, and takes their ports off the counts |
| Prune.PruneGates | compiler/circuits/compiler.go:328-343 | After the pass the dead gates are exactly the unused ones, the survivors stay in order, and counts are right |
| Prune.LiveInOrder | compiler/circuits/compiler.go:328-344 | The gates returned are the live ones and nothing else, in their order |
| Prune.SurvivorsReach | compiler/circuits/compiler.go:328-343 | A gate survives exactly when its output reaches an output of the circuit |
| Numbering.Numbering.AssignWire | compiler/circuits/wire.go:131-141 | Gives an id to a wire once, never to an output, and queues exactly the gates that have become ready |
| Numbering.Numbering.AssignGate | compiler/circuits/compiler.go:366-370 | The gate that waits longest is taken, and new ones wait behind all others |
| Numbering.AllGrounded | compiler/circuits/compiler.go:353-370 | When the queue is empty, no live gate whose inputs come from the input wires is left out |
| Numbering.Numbering.Compile | compiler/circuits/compiler.go:346-399 | Inputs get ids 0 to k-1, outputs the last ids in order, each id goes to one wire; every live grounded gate is emitted exactly once and after the gates it reads |
| Pipeline.EveryInputHasMeaning | compiler/circuits/compiler.go:154-156 | A built graph has an assignment for all input bits |
| Pipeline.CompiledMeaning | compiler/circuits/compiler.go:346-399 | Compute on the numbered circuit gives the value of every output wire of the graph |
| Pipeline.CompiledRuns | compiler/circuits/compiler.go:346-399 | The numbered circuit is in topological order, assigns its outputs and overwrites no input wire, which is all that garbling asks |
| Pipeline.NewCompiler | compiler/ssa/circuitgen.go:23-34 | The compiler starts with the constant wires as its first three gates |
| Pipeline.Return | compiler/ssa/circuitgen.go:568-580 | Return makes fresh, unread output wires that carry the returned bits |
| Pipeline.CompileCircuit | compiler/ssa/circuitgen.go:49-59 | Propagation, bypassing, optional pruning and numbering together: the circuit is fit for garbling and computes the built graph on all inputs; with pruning every gate's output is an output or is read later |
| Pipeline.GarbledGraph | circuit/garble.go:185-406 | Garbled evaluation of the compiled circuit decodes to the value of every output wire of the graph |
| Ssa.ConcatMeans | compiler/ssa/circuitgen.go:192-199 | Concatenation: first operand plus the second times 2^width |
| Ssa.LshiftMeans | compiler/ssa/circuitgen.go:200-221 | Left shift: multiplication by 2^count modulo the output width |
| Ssa.RshiftMeans | compiler/ssa/circuitgen.go:222-249 | Right shift, logical or arithmetic, at every width: the floor of the unsigned or signed value over 2^count, modulo the output width |
| Ssa.ArithmeticShift | compiler/ssa/circuitgen.go:222-249 | At equal widths the signed result is the floor of the signed value over 2^count |
| Ssa.SliceMeans | compiler/ssa/circuitgen.go:250-282 | Slice: the bits from..to as a number |
| Ssa.MovMeans | compiler/ssa/circuitgen.go:498-518 | A move keeps the unsigned value, a sign-extending move the signed value, modulo the output width |
| Ssa.MovWidens | compiler/ssa/circuitgen.go:498-518 | A widening move keeps the value itself |
| Ssa.AmovMeans | compiler/ssa/circuitgen.go:519-557 | Array update: bits from..to are the new element, all others stay, with element and array cut or filled with zeros to fit |
| Ssa.ElementMeans | compiler/ssa/circuitgen.go:283-298 | Indexing: the element at that place of the array, zeros when there is none |
| Ssa.BitsFromNum | compiler/ssa/circuitgen.go:117-191 | Wires that carry a number modulo their width carry exactly its bits |
| Laws.FitMeans | compiler/ssa/circuitgen.go:79-115 | An operand used at another width keeps its value when it is widened with its own sign, and is cut when narrowed |
| Laws.BitwiseAt | compiler/ssa/circuitgen.go:458-497 | The bitwise operations on operands of any width, by the numbers of the bits |
| Laws.BitwiseSums | compiler/ssa/circuitgen.go:458-497 | Conjunction and disjunction add up to the operands, conjunction and clearing to the first, and disjunction is conjunction plus exclusive or |
| Laws.NotMeans | compiler/ssa/circuitgen.go:449-457 | Negation is the distance from the largest number of the width |
| Laws.TestMeans | compiler/ssa/circuitgen.go:399-428 | A bit test asks whether the number over 2^index is odd, or even |
| Laws.UnsignedDivision | compiler/ssa/circuitgen.go:158-190 | Unsigned quotient and remainder at the wider width: a = q*b + r with r < b, all ones and a for a zero divisor |
| Laws.Orders | compiler/ssa/circuitgen.go:299-398 | The six comparisons at 1 and 2, 2 and 2, 2 and 1 |
| Laws.SelectedMeans | compiler/ssa/circuitgen.go:283-298 | An index below the number of elements selects the bits of that element |
| Laws.ExecSolves | compiler/ssa/circuitgen.go:77-662 | A run ends where every output is what its instruction makes of the final values of its operands |
| Laws.FilledAt | compiler/ssa/circuitgen.go:587-595 | Bit j of argument i of a native circuit stands behind the widths of all earlier arguments; what it leaves of its width is zero |
| Lowering.OperandWires | compiler/ssa/circuitgen.go:79-115 | Inputs of another width are cut, zero-extended or sign-extended exactly as the interpreter reads them |
| Lowering.LowerInstr | compiler/ssa/circuitgen.go:116-640 | One instruction, all kinds but builtins, at all operand widths: the wires that the wire table then holds for its output carry the interpreter's result, and all other values keep theirs |
| Lowering.LowerProgram | compiler/ssa/circuitgen.go:77-662 | For every well-formed straight-line program the wires that the table holds for every value carry exactly the bits of the interpreter, under all inputs |
| Program.CompileProgram | compiler/ssa/circuitgen.go:19-74 | Compiler correctness from end to end, for every multiplier threshold and hash function: the circuit's meaning on any input bits is what the interpreter returns, bit i of returned value j behind all values before it, and the circuit is fit for garbling |
| Program.ReturnAt | compiler/ssa/circuitgen.go:568-576 | Bit i of returned value j stands behind all values returned before it |
| Program.ArgumentAt | compiler/ssa/program.go:61-73 | The value of argument j are the input bits behind all earlier arguments |
| Program.ConstantAt | compiler/ssa/program.go:229-275 | A constant has the bits of the first one of its name, unless the name was defined before |
| SingleStep.ReturnBoth | compiler/ssa/circuitgen.go:568-576 | The circuit of a program that returns its two arguments gives the first one first |
| Program.BindInputs | compiler/ssa/program.go:61-73 | The argument values get consecutive input wires in the wire table |
| Program.BindConstants | compiler/ssa/program.go:229-275 | A constant that the wire table does not hold yet gets one constant wire for each of its bits |
| Widths.TakenIsOwn | compiler/circuits/compiler.go:93-122 | Extended by zeros, an operand keeps its signed value exactly when it has the full width or is not negative |
| Widths.SameWidth | compiler/ast/ssagen.go:1549-1605 | With equal widths signed arithmetic means what the operands say, modulo the result width |
| Widths.UnaryMinus | compiler/ast/ssagen.go:1739-1760 | Unary minus, a difference from a literal zero, is right at every width |
| Widths.NarrowLeft | compiler/ast/ssagen.go:1549-1605 | With a narrower left operand an arithmetic instruction is right for all values of the other one exactly when the narrower one is kept |
| Widths.NarrowRight | compiler/ast/ssagen.go:1549-1605 | The same for a narrower right operand |
| Widths.SameWidthCompare | compiler/ast/ssagen.go:1580-1592 | With equal widths comparisons are those of the signed values |
| Widths.NarrowCompare | compiler/ast/ssagen.go:1580-1592 | A comparison with a narrower operand on either side is right for all values of the other one exactly when the narrower one is not negative |
| Widths.PhiKeepsNumber | compiler/ssa/circuitgen.go:558-566 | A phi keeps the number it picks, and its signed value exactly when that has the full width or is not negative |
| Widths.WholeDifference | compiler/circuits/circ_subtractor.go:33-63 | A difference instruction gives the whole difference exactly when the result has no bit above the borrow or nothing is borrowed |
| SingleStep.CompileBinary | compiler/ssa/circuitgen.go:77-662 | The circuit of a program of one binary instruction computes the instruction on all pairs of arguments |
| SingleStep.CompileNarrow | compiler/ast/ssagen.go:1549-1605 | The compiled circuit of arithmetic with a wider value or literal on the right is right on a left argument exactly when that one is kept |
| SingleStep.CompileNarrowCompare | compiler/ast/ssagen.go:1580-1592 | The compiled circuit of a comparison with a wider value or literal is right on a left argument exactly when that one is not negative |
| SingleStep.MinusOneLessThanFive | compiler/ast/ssagen.go:1584-1585 | The circuit of x < 5 for an 8-bit x and a 32-bit literal gives false at -1 |
| SingleStep.MinusSixByThree | compiler/ast/ssagen.go:1555-1556 | The circuit of x / 3 gives 83 at -6, where -2 is due |
| SingleStep.RestOfMinusSeven | compiler/circuits/circ_divider.go:217-309 | The circuit of x % y on four bits gives 1 at -7 and 2, where -1 is due |
| SingleStep.ZeroMinusOne | compiler/circuits/circ_subtractor.go:33-63 | The circuit of x - y of single bits on three wires gives 3 at 0 and 1, where 7 is due |
| Bindings.LatestIs | compiler/ssa/bindings.go:107-119 | The binding found is one of the name with the deepest scope; none is found exactly when the name is not bound |
| Bindings.Get | compiler/ssa/bindings.go:107-119 | The loop returns that binding |
| Bindings.LatestIsFirst | compiler/ssa/bindings.go:107-119 | Of bindings of one name and scope it is the first in the list |
| Bindings.EqualMeans | compiler/ssa/bindings.go:217-226 | Values that compare equal mean the same under all program values |
| Bindings.EqualIsShape | compiler/ssa/bindings.go:217-226 | Bound values are equal exactly when they are the same with all selects written out |
| Bindings.Resolver.ValueOf | compiler/ssa/bindings.go:229-242 | In every valuation that obeys the phis, the value a select resolves to is what the select means; conditions and sides may be outputs of earlier phis; a select is resolved once, by a phi with its condition, and the result used again adds none |
| Bindings.RunObeys | compiler/ssa/bindings.go:229-242 | Executing the emitted phis in order gives such a valuation, and changes nothing but their outputs |
| Bindings.Resolver.Merge | compiler/ssa/bindings.go:132-176 | For every name and all valuations the merged binding means the true-branch value when the condition holds or only that branch has one, and else the false-branch value; the names are those of the true branch, each where it comes first |
| Bindings.Resolver.MergeOne | compiler/ssa/bindings.go:140-171 | One name: the true branch's binding when the other branch has none or an equal one; else a new select between both, as wide as the wider |
| Bindings.FirstNameAt | compiler/ssa/bindings.go:132-142 | A name that comes first at some place stands behind the names that come before it |
| Laws.PhiIsInstruction | compiler/ssa/circuitgen.go:558-566 | The phi of the bindings is the phi instruction of the interpreter, on the numbers of the values |
| Scopes.SetThenGet | compiler/ssa/bindings.go:70-104 | After a set the name means the new binding unless a deeper scope hides it; every other name means what it meant; there stays one binding for a name and scope |
| Scopes.BindingList.Clone | compiler/ssa/bindings.go:42-50 | The clone has the same contents, and both know that they share the slice |
| Scopes.BindingList.SetBinding | compiler/ssa/bindings.go:70-104 | Writing to one of a family of clones changes its own contents only, in place, by append with spare room or by copy |
| Scopes.BindingList.Set | compiler/ssa/bindings.go:61-68 | Fails exactly on an unbound name and then changes nothing; else the new binding keeps the type of the old |
| Returns.Context.ReturnBinding | compiler/ssa/block.go:139-149 | The cached answer is right for the block and name, also after phis were added and selects resolved since; an answer that is cached is given again and adds no phi |
| Returns.Context.Resolve | compiler/ssa/block.go:151-193 | There is an answer exactly when all paths that are asked for one have it, and in every valuation that obeys the phis it is the value of the selected path; equal answers of both ways are taken without a phi, others joined by one as wide as the wider |
| Returns.GiverGives | compiler/ssa/block.go:151-193 | That value is the own binding of one block of the selected path |
| Returns.GiverIsLast | compiler/ssa/block.go:151-193 | That block is the last one of the path that binds the name exactly when no block of the path falls back on its own binding although a later one binds the name |
| Returns.PassesOver | compiler/ssa/block.go:151-193 | A graph where one is passed over: behind a block with the name an if binds it on one way only, and the value of the first block is taken on both ways |
| Returns.AllReturned | compiler/ast/ssagen.go:1116-1139 | Return statements bind every return value and lead to an empty block; in such a graph there is a return binding from exactly the blocks that are not such an empty block |
| Returns.ReturnsSettle | compiler/ast/ssagen.go:1116-1139 | In such a graph no later binding is passed over, on any path |
| Returns.EmptyReturnBlock | compiler/ast/ssagen.go:1116-1139 | Two return statements under an if: there is a binding and the condition picks whose |
| Returns.ReturnValue | compiler/ssa/block.go:139-193 | Together, for every acyclic graph: there is an answer exactly when there is a return binding, and in every valuation that obeys the phis it is the binding of one block of the selected path, the last that binds the name exactly when none is passed over |
| Returns.ReturnOfFunction | compiler/ast/ssagen.go:83-93 | For the start block of a function whose return statements bind the name there is always an answer, unless the function is one empty block, and it is the binding of the last block on the selected path that binds the name |
| Blocks.Serializer.Visit | compiler/ssa/block.go:201-233 | Emits blocks once and after their predecessors, leaves no newly released block waiting, and goes on with the branch of a block before its next |
| Blocks.NoneLeft | compiler/ssa/block.go:201-233 | When no block waits, every reachable block of an acyclic graph has been emitted |
| Blocks.Serialize | compiler/ssa/block.go:196-233 | The code is that of all reachable blocks, each exactly once and after all its predecessors: instruction i of the block at place x stands behind those of all blocks before it, and its tag is the block's name exactly when it is the first; after a block comes the one it branches to when that waits, else its next |
| Blocks.CodeIsListed | compiler/ssa/block.go:214-224 | Where each instruction of each block stands, and with which tag |
| WireAllocator.FrontKeeps | compiler/ssa/wire_allocator.go:121-141 | Moving an entry to the front loses and duplicates nothing and stands for the same table |
| WireAllocator.FrontLinked | compiler/ssa/wire_allocator.go:128-133 | After the pointer updates the bucket is linked again, in the order with that header in front |
| WireAllocator.CutLinked | compiler/ssa/wire_allocator.go:169-178 | After one pointer update the bucket is linked again, in the same order without that header |
| WireAllocator.OneChanged | compiler/ssa/wire_allocator.go:121-178 | A change of one bucket and of headers in no bucket leaves all other buckets linked as they were |
| WireAllocator.WireAllocator.Lookup | compiler/ssa/wire_allocator.go:121-141 | Finds a header exactly when the value has one, for any hash; three pointer updates move a hit behind the second place to the head of its linked bucket and those before it up by one; else nothing moves |
| WireAllocator.WireAllocator.Allocated | compiler/ssa/wire_allocator.go:181-185 | True exactly for values in the table |
| WireAllocator.WireAllocator.Wires | compiler/ssa/wire_allocator.go:294-305 | The bound wires, or the new ones, which are bound from then on; nothing else changes |
| WireAllocator.WireAllocator.SetWires | compiler/ssa/wire_allocator.go:308-330 | Binds a value that has no wires; refuses one that has, and then changes nothing |
| WireAllocator.WireAllocator.Remove | compiler/ssa/wire_allocator.go:169-178 | Unbinds exactly this value and returns what it was bound to |
| WireAllocator.WireAllocator.GCWires | compiler/ssa/wire_allocator.go:256-291 | Unbinds the value and keeps its header for later use, in no bucket; reports a value that has none, where the source panics |
| WireAllocator.WireAllocator.Insert | compiler/ssa/wire_allocator.go:76-88 | A new header, or when asked the one kept last, becomes the head of its bucket, and nothing else changes |
| Transfer.BuildChoices | ot/co_helpers.go:148-185 | Fails exactly when the sender's point is not on the curve or randomness runs out; otherwise one point per choice bit, from its own scalar |
| Transfer.Encrypt | ot/co_helpers.go:104-145 | Fails exactly on mismatched lengths or a point off the curve; otherwise both labels of every wire under their masks |
| Transfer.Decrypt | ot/co_helpers.go:199-227 | Fails exactly on mismatched lengths; otherwise unmasks the ciphertext of each choice |
| Transfer.SharedPoint | ot/co_helpers.go:77-227 | In any abelian group, the point behind the mask of the chosen label is the one the receiver computes |
| Transfer.ScaleProduct | ot/co_helpers.go:77-227 | A multiple of a multiple of a point is the multiple by the product |
| Transfer.PairPads | ot/co_helpers.go:104-145 | The two ciphertexts bit by bit: the labels under the pads of a*c times the base, and of that less a*a times the base, where c is the receiver's scalar plus the sender's when the bit is set |
| Transfer.ChosenPad | ot/co_helpers.go:199-227 | What the receiver reads: the chosen ciphertext under the pad of b*a times the base |
| Transfer.OneTransfer | ot/co_helpers.go:104-227 | One wire: the receiver decrypts L1 when its bit is set and L0 otherwise, for any scalars and mask function |
| Transfer.PointIsScale | ot/co_helpers.go:148-185 | The point sent for a choice bit is the base times the receiver's scalar, plus the sender's when the bit is set; this is what decides whether it is neutral |
| Transfer.TransferWorks | ot/co_helpers.go:77-227 | For every list of wires and bits: all chosen labels, or an error, and the error exactly when the lengths differ or a point is off the curve |
| Protocol.OwnLabels | circuit/garbler.go:83-99 | The garbler sends, for each of its input bits, the label of that bit |
| Protocol.DecodeResult | circuit/garbler.go:127-148 | The result is the number of the decoded bits; fails exactly when a label is none of its wire's two |
| Protocol.TransferredLabels | ot/co.go:236-313 | The messages of the transfer inside a session deliver the labels of the evaluator's bits |
| Protocol.EvaluationWorks | circuit/evaluator.go:76-100 | From the received and transferred labels the evaluator gets output labels that decode to the plain result |
| Protocol.ActExpected | circuit/garbler.go:64-148 | A party that has received the right messages does the right next thing at every point of its program |
| Protocol.StepKeeps | ot/server_impl.go:129-184 | One step of any party of any session keeps the invariant of all sessions: a message is stored exactly when its sender is past it, under its own key and with the right value |
| Protocol.RunsKeep | ot/server_impl.go:129-184 | The invariant holds in every state of every interleaving of any number of sessions |
| Protocol.ReceivesMatch | ot/connection.go:84-102 | Each receive gets exactly what the matching send of the same session's peer stored |
| Protocol.NotStuck | ot/connection.go:84-102 | A session that is not finished can always make a step |
| Protocol.RunsEnd | ot/connection.go:84-102 | A run over n sessions has at most 18 n steps |
| Protocol.BothHaveResult | circuit/evaluator.go:100-121 | A finished session leaves both parties with the outputs of the plain evaluation |
| Protocol.ResultIsCompute | circuit/computer.go:15-41 | For plain arguments these are the outputs of Compute on the two parties' integers |
| Protocol.SessionsExist | circuit/garbler.go:38-149 | Every two-argument circuit that garbling can handle has a session that meets all assumptions, for all inputs |
| Exchange.KeysOfMessages | ot/connection.go:84-102 | The key of each of the nine messages: session, topic, sender, receiver and the sender's running number |
| Exchange.FinishedStore | ot/server_impl.go:129-184 | A finished session has every message under its key |
| Exchange.DrawnLabels | circuit/garbler.go:81-99 | The label of a bit on an input wire, bit by bit from the random source |
| Exchange.GarblerSends | circuit/garbler.go:64-99 | The key, the rows, and for each bit of the garbler's integer the label drawn for it |
| Exchange.TransferSends | ot/co.go:236-313 | The query, the sender's point, and one point for each bit of the evaluator's integer |
| Exchange.CiphertextsSent | ot/co.go:236-313 | One pair of ciphertexts for each of these bits, of the labels of its wire under their pads |
| Exchange.ResultSent | circuit/garbler.go:100-149 | The label of every output bit, and the number of these bits |
| Exchange.ResultsPlaced | circuit/ioarg.go:51-65 | The values both parties return are the numbers of the output bits, output by output |
| Format.Marshal | circuit/marshal.go:37-84 | Fails exactly on a gate of unknown type; otherwise writes header, arguments and gates in this layout, big-endian |
| Format.HeaderWords | circuit/marshal.go:37-58 | The five header numbers, four bytes each, highest first, at offsets 0, 4, 8, 12 and 16 |
| Format.GateOfFile | circuit/marshal.go:61-84 | Gate i stands behind the arguments and the gates before it, 9 bytes for an inverter and 13 for others: its byte (XOR 0, XNOR 1, AND 2, OR 3, INV 4), then its wires as numbers |
| Format.ArgWritten | circuit/marshal.go:86-105 | An argument: length and bytes of its name, then of its type, its size, and how many parts follow |
| Format.ArgAt | circuit/marshal.go:86-105 | Argument i stands behind the arguments before it, each as long as its name, type and parts make it |
| Format.WriteSmall | circuit/marshal.go:37-105 | A file with a gate of each type, written byte by byte |
| Format.ReadSmall | circuit/parser.go:71-211 | The same bytes, read back |
| Format.MarshalArg | circuit/marshal.go:86-105 | An argument with nested compounds is written depth first |
| Format.StringReadBack | circuit/parser.go:248-262 | A written string is read back, with the reader behind it, exactly when one read delivers all of it |
| Format.StringReadAt | circuit/parser.go:248-262 | What one read gets of a string: its first bytes, zeros for the rest, and the reader behind what was read |
| Format.Reader.ParseString | circuit/parser.go:248-262 | Reads the length and then what one read delivers, padded with zeros |
| Format.Reader.ParseArg | circuit/parser.go:213-246 | Reads back every written argument with its nested compounds; with unlimited reads, what is accepted is exactly the written form of the result |
| Format.ParseGate | circuit/parser.go:113-189 | An accepted gate is of a known type, reads only wires seen before, has its output marked and is what is written there; a written gate that fits is read back |
| Format.ParseMPCLC | circuit/parser.go:71-211 | Every accepted circuit is in topological order with every wire assigned; the bytes written for such a circuit whose numbers fit their fields give the same circuit again, when no string is cut by a short read; with unlimited reads only such bytes are accepted |
| Format.ParseExactly | circuit/parser.go:71-211 | With unlimited reads the parser accepts exactly the bytes, from the fifth on, of circuits in topological order over the signed sum of their input sizes, with every wire assigned, all numbers in their fields and all types known; so the bytes of a given circuit exactly when it is such a one, and gives that circuit |
| Format.SameFile | circuit/marshal.go:37-105 | From the fifth on, the bytes are those of at most one circuit of known gates |
| Format.NegativeSize | circuit/parser.go:90-110 | Two inputs whose size fields hold 0xFFFFFFFF and 2 are accepted over one wire |
| Format.HugeInput | circuit/parser.go:90-110 | One input of 2^31 bits over 2^31 wires is refused, as it marks no wire |
| Format.HoldsLaidOut | circuit/marshal.go:37-84 | Bytes are those of a circuit, up to the magic number, exactly when its parts stand one after the other |
| Format.NoWireTwice | circuit/parser.go:191-203 | In an accepted circuit no wire is written twice and no input is overwritten, exactly when there are as many wires as input wires, by the signed sum of sizes, and gates |

## Left out

- AES, SHA-256, random numbers and the P-256 curve: the cipher and the mask are any functions, the random source any sequence, the curve any abelian group; nothing is said about secrecy.
- Pointers are indices into tables; a label is one string of 128 bits rather than two words.
- Wire ids and counts are unbounded, except in `WireWord`: the panics for too many wires and for a reader count over 29 bits are not reached in the model.
- "Already set" panics of construction are preconditions (`Open`, `Driven`), and every generator and pass is shown to meet them.
- The lists `pending`, `assigned` and `compiled` are fields of a numbering object instead of the compiler; prune returns the list of surviving gates and marks the others dead instead of overwriting the gate slice.
- Order in which fresh wires are allocated inside one generator, statistics, verbose output and diagnostics.
- Numbering.Numbering.Compile: the graph's outputs must be driven and unread, as the return instruction makes them.
- Propagate.ConstPropagate: the constant wires are the first three gates, as the compiler makes them before anything else (compiler/ssa/circuitgen.go:31); a graph built in another order is not covered.
- SignedDivider.NewIDivider: a quotient wider than the operands is excluded, because the negation would read its undriven upper wires and a graph with such a read is no built graph; the compiler always passes operand widths.
- Multiplier.NewArrayMultiplier, Karatsuba.NewKaratsubaMultiplier: the value is stated for the widths at which all outputs are driven; beyond them only which wires stay undriven is stated.
- The multiplier threshold table: any limit of at least 3 stands for it.
- Lowering.LowerInstr, Lowering.LowerProgram, Program.CompileProgram: builtins, which are Go functions that build a circuit themselves, are not lowered; a native circuit has one result value rather than a list; garbage collection instructions emit nothing and are left out, and so are pointers; a shift, slice, bit or offset amount is a number rather than a constant value; results are no wider than their generators can drive at every threshold (a product at most twice and a quotient or remainder at most the width of the wider operand), and the compiler's result types are operand types (compiler/ssa/value.go:415-433); a native circuit writes each wire once and no input, else the source would connect a wire twice.
- Program.CompileProgram: argument names differ; two arguments of one name would share their wires (compiler/ssa/program.go:61-73).
- The wire table's free lists of wires and ids, reference counts and wire id assignment are left out: `Wires` is given the wires it would allocate. An instruction's output is bound after its gates are built, with the wires as they are then.
- Select and return bindings: a value is the number on its wires, which the zero extension of a phi keeps (`Widths.PhiKeepsNumber`); which block a phi is appended to is left out; a valuation gives every value of the program at once.
- The hash of a value is any function of name, scope and version; types other than their width are left out; the comparison flag of select and return types is left out.
- Lexer, parser, AST evaluation, constant arithmetic, the switched-off peephole and liveness passes.
- Garbler and evaluator are functions from received messages to the next send, as the store sees them; the methods beside them do the loops. Buffering, encoding and compression of messages, HTTP handlers, session set-up and expiry are left out; a store key is the tuple it is made from.
- Too few result labels, and more gates than announced, make the source panic; both are errors here.
- Format.ParseMPCLC: which texts are types is a parameter, and type texts are kept as they are; the Bristol format is left out.
