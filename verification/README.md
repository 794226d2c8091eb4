# Miden VM: constraint systems and proving support, in Dafny

The project models the parts of the Miden virtual machine that decide what a proof means. It has five groups.

**Constraint systems.** A trace is a sequence of rows over the field of order P = 2^64 - 2^32 + 1. Cells are integers
below P, and every constraint of the generated evaluators is a predicate `Zero(e)`: the integer polynomial `e` is a
multiple of P. Each module takes the constraints of one component and proves what every satisfying trace means; the
`...Complete` modules and `BlockLayout` prove the converse, that every lawful computation has a satisfying trace.
`Goldilocks` proves that P is prime, so that a zero product has a zero factor; nothing is taken on trust there.

- `ChipletSelectors`: the chiplets trace is cut into six regions in a fixed order.
- `MemoryChiplet`: memory is sequentially consistent; `MemoryComplete`: every ordered list of accesses is accepted.
- `BitwiseChiplet`: results are bitwise AND and XOR, for any cycle length L with 16^L < P; `BitwiseComplete`: every list of requests
  is answered.
- `MerkleController`: direction bits are the binary digits of the index, and a path recomputes a root; `ControllerLaws`: which traces
  of the hasher controller are accepted; `MerkleComplete`: every list of path requests is answered; `BrokenPath` is a run in which the
  rows of a request are no path.
- `StackOverflow` and `VisibleStack`: the sixteen visible cells and the overflow chain form one unbounded stack;
  `StagedDepth` has two runs on which they do not, because of what a return restores. `ConcreteRows` gives such runs by their cells,
  `Opcodes` the operation classes by opcode number.
- `RangeTable`: which range-check tables are accepted, and that they hold 16-bit values only; `RangeChecks` carries this to the cells other components look up.
- `U32Ops`, `ExpaccOps`, `HornerOps`, `FriFolding`: arithmetic operations, with the helper registers the prover supplies
  (`HelperRegisters`) and the quadratic extension (`ExtField`).
- `OpGroups`: the executed operations of a basic block, and of a whole run, are the decoding of the committed op groups.
  `DecoderComplete` and `BlockLayout` write any list of batches out as rows that are accepted and execute it.
  `LooseOperation` is a run with an operation outside every block.

**LogUp.** `LogUpAccumulator` has the naive and the chunked accumulator, `LogUpConstraints` the symbolic side and the cyclic
recurrence, `LogUpClosure` the reduction across AIRs. All are stated over an abstract field (`AbstractField`); `FeltField`
and `QuadField` show that the base field and the quadratic extension, in which the accumulators run, are instances.

**Memory budget.** `MemoryBudget` models checked 64-bit arithmetic and the binary search for a trace height.

**Continuation stack.** `ContinuationStack` is the stateful stack with its parallel stack of source ids, `ContinuationCodec` its
wire format.

**Type strings.** `TypeStrings` has the label-stripping and normalising scans, `TypeCanonical` what they keep and drop.

The lookup buses are modelled as ideal: every tuple that a row removes was added by some row, and on the op group table
every tuple that is added is removed by exactly one row. The conditions that follow from another component are explicit
predicates on the trace: a range-checked cell occurs in the range-check table, an END row removes one block stack record
(its two call flags add up to 0 or 1) of a block that was opened earlier, blocks and batches are hashed at distinct
addresses, an output row of the hasher holds the compression of its input row.

Where the code and a comment disagree the model follows the code: the backward sweep of the batch inversion
(air/src/lookup/aux_builder.rs:467-475) keeps the inverse of the product of the *first* i + 1 denominators, not of the last ones.

## Model

| member | source | states |
|---|---|---|
| ChipletSelectors.RegionsPartition | air/src/constraints/generated.rs:2768-2848 | every satisfying trace is six contiguous regions in the order controller, bitwise, memory, ACE, kernel ROM, padding, with exactly the flag of its own region set on every row, a controller first row and a padding last row |
| ChipletSelectors.RankMonotone | air/src/constraints/generated.rs:2773-2822 | between any two rows the region never moves back in the fixed order |
| ChipletSelectors.SelectedIffLaidOut | air/src/constraints/generated.rs:2768-2848 | the selector constraints accept exactly the traces of such a layout |
| MemoryChiplet.OrderMeaning | air/src/constraints/generated.rs:3225-3297 | two consecutive memory rows are ordered by context, word address and clock over the integers, only reads may share a clock on a word, and the same-word flag is exact |
| MemoryChiplet.AccessesAreALog | air/src/constraints/generated.rs:3189-3312 | the whole memory region is one log: it starts from zeros, every row is well formed, and every cell that is not written copies the previous access of its word or is zero |
| MemoryChiplet.ValueIsLatestWrite | air/src/constraints/generated.rs:3270-3312 | in every log each cell value is the one stored by the latest earlier writing access of that word and element, or zero when there is none |
| MemoryChiplet.ReadsAreConsistent | air/src/constraints/generated.rs:3189-3312 | every element read, and every element of every word read, returns the value last stored in that cell at a strictly earlier clock, or zero if there was no store |
| MemoryComplete.MemoryIsComplete | air/src/constraints/generated.rs:3189-3312 | every finite list of word and element reads and writes, ordered by context, address and clock with only reads sharing a clock on a word, has a trace that meets the row, entry, order and value constraints and the limb bounds, and row k of the memory region is access k with the word its history left |
| BitwiseChiplet.BitOpDigits | air/src/constraints/generated.rs:3154-3188 | binary digit k of the reference operation is the AND or XOR of the operands' digits k |
| BitwiseChiplet.RowMeaning | air/src/constraints/generated.rs:3059-3188 | a bitwise row holds boolean bits and flag, and its output is the previous output with the AND or XOR nibble appended whenever that fits the field |
| BitwiseChiplet.CycleStep | air/src/constraints/generated.rs:3101-3188 | one row of a cycle appends one nibble to both operands and to the exact running result |
| BitwiseChiplet.MessagesAreRight | air/src/constraints/generated.rs:3546-3558 | on every row that sends a message both operands fit in 4L bits and the output is their bitwise AND or XOR as the selector says |
| BitwiseComplete.BitwiseIsComplete | air/src/constraints/generated.rs:3059-3188 | every list of AND and XOR requests on operands of 4L bits has a trace that meets every constraint, in which the last row of cycle j + 1 sends request j with its operands and its result |
| MerkleController.IndexIsCanonical | air/src/constraints/generated.rs:2936-2998 | for a path of at most 64 levels the direction bits, read as a binary number, equal the index cell itself; no value of P or more is possible |
| MerkleController.SlackExists | air/src/constraints/generated.rs:2956-2971 | every index below P has slack limbs that pass the range checks, so the check refuses no honest path |
| MerkleController.DirectionBitsAreDigits | air/src/constraints/generated.rs:2936-2998 | direction bit k is binary digit k of the index and there are no digits beyond the depth |
| MerkleController.DepthIsBounded | air/src/constraints/generated.rs:2005-2015 | the range checks of the depth and of 1024 * (depth - 1) pass for exactly the depths 1 to 64 |
| MerkleController.RequestedDepth | air/src/constraints/lookup/buses/chiplet_requests.rs:272-302 | between the row that starts a requested path and the row that returns its digest there are exactly as many row pairs as the request has levels, so at most 64 |
| MerkleController.PathIffContinued | air/src/constraints/chiplets/hasher_control/mod.rs:338-400 | these rows form one path if and only if every output row among them, the last aside, ends no operation and is followed by a Merkle input |
| MerkleController.RequestedRoot | air/src/constraints/lookup/buses/chiplet_requests.rs:272-302 | a request whose rows meet that condition has canonical direction bits and gets the root computed from its leaf, its siblings and its index |
| BrokenPath.ContinuityMatters | air/src/constraints/chiplets/hasher_control/mod.rs:338-400 | a run of seven rows that meets every constraint of the controller and sends exactly the messages of one MPVERIFY and one HPERM, in which the condition fails and the digest returned is not the root of the requested leaf |
| MerkleController.DigestRouted | air/src/constraints/generated.rs:3005-3032 | the digest of a level is the node of the next, in the rate half its direction bit names |
| MerkleController.PathComputesRoot | air/src/constraints/generated.rs:2936-3045 | a satisfying path ends in the root computed from its leaf, its siblings and the binary digits of its index |
| ControllerLaws.ControllerIff | air/src/constraints/generated.rs:2849-3045 | the constraints of the hasher controller accept exactly the traces whose rows obey its laws: which kinds of rows follow each other, what index, direction, digest, permutation, update count and capacity are handed on, what is zero, and the slack of a first Merkle input |
| MerkleComplete.MerkleIsComplete | air/src/constraints/generated.rs:2936-3045 | for any compression function, every list of MPVERIFY and MRUPDATE path requests of 1 to 64 levels with a canonical index below 2^depth has a controller trace that meets every constraint, the slack and depth range checks included, and answers each with the root of its leaf |
| StackOverflow.StackIffStaged | air/src/constraints/generated.rs:650-712 | for every run that meets the constraints and buses: the depth column is 16 plus the length of the chain on every row and every return restores its caller's chain, if and only if every return takes the record of a row that opened a context and a DYNCALL there staged the depth after its pop |
| StackOverflow.OverflowIsAStack | air/src/constraints/generated.rs:650-712 | in such a run, across context switches, a push prepends the spilled cell to the chain, a pop takes the head into cell 15 or a zero when there is none, opening a context starts an empty chain, and the chain is empty at both ends of the trace |
| StackOverflow.CallsAreStacks | air/src/constraints/generated.rs:650-712 | a run whose contexts are opened by CALL and SYSCALL is such a run, whatever it stages |
| StagedDepth.StagingMatters | air/src/constraints/generated.rs:1930-1944 | a run of ten rows that meets every constraint on clock, depth, pointer and visible cells and balances both buses, in which a return from DYNCALL hands the caller an empty chain instead of its own |
| StagedDepth.CallersMatter | air/src/constraints/lookup/messages.rs:735-774 | a run of six rows that does the same, in which the END of a JOIN says that it leaves a context and sets the depth to 0 |
| ConcreteRows.LawfulHolds | air/src/constraints/generated.rs:168-712 | any run that counts clock, depth and pointer and moves the visible cells as its operations say meets every constraint on them |
| Opcodes.OpeningNumbers | core/src/operations/mod.rs:25-132 | the operations that open a block, with and without a context, are those with the opcodes of the instruction set |
| Opcodes.ShiftingNumbers | core/src/operations/mod.rs:25-132 | so are the operations that push, that pop and that close a context |
| StackOverflow.LastInFirstOut | air/src/constraints/generated.rs:2719-2752 | in one context of any run, a pop that returns to the level of an earlier push restores the cell that push spilled, its depth, its pointer and the chain below it, whatever happened above |
| StackOverflow.ReturnRestoresCaller | air/src/constraints/generated.rs:1911-1983 | the END of a context goes back to the one row that opened its block and gives it its own chain (for DYNCALL the chain after its pop), context and address |
| VisibleStack.PushSelectors | air/src/constraints/generated.rs:239-622 | on a pushing operation the routing selectors of every position below its arity are exactly "from the cell above" |
| VisibleStack.PopSelectors | air/src/constraints/generated.rs:239-622 | on a popping operation the routing selectors of every position from its arity on are exactly "from the cell below" |
| VisibleStack.KeepSelectors | air/src/constraints/generated.rs:239-622 | on every other operation but DYNCALL the selectors of every position from its arity on are exactly "from the same cell" |
| VisibleStack.DyncallSelectors | air/src/constraints/generated.rs:239-622 | on DYNCALL the selectors of every position are exactly "from the cell below" |
| VisibleStack.PushMovesAll | air/src/constraints/generated.rs:168-712 | from any row where depth and chain agree, a pushing operation moves the whole unbounded stack, visible cells and chain, down by one from its arity on |
| VisibleStack.PopMovesAll | air/src/constraints/generated.rs:168-712 | a popping operation moves the whole stack up by one, and a zero comes in at the bottom when nothing is spilled |
| VisibleStack.OthersKeepAll | air/src/constraints/generated.rs:168-712 | every other operation within a context leaves the whole stack from its arity on in place |
| VisibleStack.DropUndoesPush | air/src/constraints/generated.rs:168-712 | a push followed by a full drop gives back the whole stack |
| VisibleStack.SoundAt | air/src/constraints/generated.rs:650-712 | depth and chain agree at the start of a run, at the start of every context, and on every row of a run whose returns go well |
| VisibleStack.RunKeepsBelow | air/src/constraints/generated.rs:168-712 | over any operations of one context the visible cells and the chain are one unbounded stack over zeros: every entry from one that no operation reaches on is unchanged, however deep, and is found where the pushes and pops have moved it |
| RangeTable.TableIsSixteenBits | air/src/constraints/generated.rs:133-167 | a table from 0 to 65535 with the permitted steps is nondecreasing and stays within 16 bits whenever rows * 2187 < P |
| RangeTable.TableIff | air/src/constraints/generated.rs:133-167 | the accepted tables are exactly those from 0 to 65535 in steps of 0 and 3^0 to 3^7, whenever rows * 2187 < P |
| RangeTable.CheckableIffU16 | air/src/constraints/generated.rs:133-167 | some accepted table holds x exactly if 0 <= x < 65536 |
| RangeTable.RangeCheckedIsU16 | air/src/constraints/generated.rs:133-167 | a cell whose value occurs in such a table is a 16-bit value |
| RangeChecks.U32SoundOnTrace | air/src/constraints/lookup/buses/block_stack_and_range_logcap.rs:323-336 | on a trace that carries its own range-check table and looks its helper cells up there, every u32 operation leaves the exact integer result |
| RangeChecks.MemoryLimbs | air/src/constraints/lookup/buses/hash_kernel.rs:258-292 | memory rows whose limbs are looked up in the table have the limb bounds that the memory results ask for |
| RangeChecks.MerkleSlack | air/src/constraints/lookup/buses/hash_kernel.rs:181-212 | the same for the slack limbs of a Merkle path |
| U32Ops.U32Sound | air/src/constraints/generated.rs:1413-1497 | with 16-bit limbs SPLIT is division and remainder by 2^32 of any cell, and ADD, ADD3, SUB, MUL, MADD and DIV on 32-bit operands give the exact integer results; ASSERT2 leaves two 32-bit values |
| U32Ops.NoWrap | air/src/constraints/generated.rs:1422-1427 | the inverse check keeps a recomposition of four limbs below P |
| U32Ops.U32Complete | processor/src/tracer.rs:495-617 | for all operands the processor accepts, its results with the tracer's helper registers satisfy every u32 constraint and range check |
| ExpaccOps.RunMultiplies | air/src/constraints/generated.rs:1370-1392 | any number of steps multiplies the accumulator by the base to the power of the peeled bits and shifts the exponent by them |
| ExpaccOps.ExpaccComputesPower | air/src/constraints/generated.rs:1370-1392 | at most 63 steps from accumulator 1 that end with exponent 0 leave base^exponent |
| ExpaccOps.ExpaccComplete | processor/src/execution/operations/field_ops/mod.rs:195-218 | the processor's step with the tracer's helper satisfies the constraints |
| ExtField.MulAssoc | air/src/constraints/ext_field.rs:72-78 | extension multiplication with u*u = 7 is associative |
| ExtField.MulDistrib | air/src/constraints/ext_field.rs:72-78 | extension multiplication distributes over addition |
| ExtField.Square | air/src/constraints/ext_field.rs:59-70 | the squaring formula is multiplication by itself |
| HornerOps.FoldIsPoly | air/src/constraints/generated.rs:1032-1147 | Horner's rule on n coefficients is acc * a^n plus the polynomial at a |
| HornerOps.StepOnCells | air/src/constraints/generated.rs:1032-1147 | one step folds the eight base or four extension coefficients in cells 0 to 7, in order, into the accumulator in cells 14 and 15 at the point in the first two helper registers |
| HornerOps.HornerEvaluates | air/src/constraints/generated.rs:1032-1147 | any number of HORNERBASE and HORNEREXT steps at one point leaves acc * alpha^n plus the polynomial of all streamed coefficients at alpha |
| HornerOps.BaseComplete | processor/src/execution/operations/crypto_ops/mod.rs:345-390 | the intermediate values the processor computes step by step satisfy the HORNERBASE constraints |
| HornerOps.ExtComplete | processor/src/execution/operations/crypto_ops/mod.rs:438-480 | the same for HORNEREXT |
| FriFolding.FoldMeaning | air/src/constraints/generated.rs:1207-1271 | folding a pair whose half sum is e and half difference c*o at a point k with c*k = beta gives e + o*beta |
| FriFolding.FoldsToAlpha | air/src/constraints/generated.rs:1148-1312 | if the query values are those of a polynomial f of degree below four at x, -x, tau*x and -tau*x, the folded output is f(alpha) |
| FriFolding.PreviousIsClaimed | air/src/constraints/generated.rs:1148-1291 | the value carried from the previous layer is f at the claimed domain point, and the segment index is below four |
| FriFolding.PointAdvances | air/src/constraints/generated.rs:1292-1299 | the domain point advances to its fourth power |
| FriFolding.FoldInterpolates | air/src/constraints/generated.rs:1148-1312 | whatever the four values, there is a polynomial of degree below four through them, and output and carried value lie on it |
| FriFolding.FoldOnCells | air/src/constraints/generated.rs:1148-1312 | the same from cells to cells: queries in cells 0 to 7, point in 10, carried value in 11 and 12, challenge in 13 and 14, output in cells 12 and 13 of the next row |
| FriFolding.PointersAdvance | air/src/constraints/generated.rs:1292-1312 | the point in cell 10 goes to its fourth power, the layer pointer advances by 8 and the end pointer moves up |
| FriFolding.FriComplete | processor/src/execution/operations/fri_ops/mod.rs:47-143 | every fold that the processor accepts, with the tracer's ev, es, x and its inverse, satisfies all constraints |
| FriFolding.CellsComplete | processor/src/execution/operations/fri_ops/mod.rs:47-143 | the same for the fifteen cells that the processor writes, whatever it starts from |
| OpGroups.GroupIsItsDigits | air/src/constraints/generated.rs:1598-1693 | one op group is executed as at most nine operations, and these are exactly the base-128 digits of its value, without wrap-around |
| OpGroups.TakesNextGroup | air/src/constraints/generated.rs:2205-2217 | a row that lowers the group count takes the next group of its own batch |
| OpGroups.CompleteIffOwn | air/src/constraints/generated.rs:2205-2217 | a batch, closed by END or by RESPAN, uses up exactly the groups its batch flags announce if and only if no in-span row outside it changes the group count at its address |
| OpGroups.BlocksOwn | air/src/constraints/decoder/mod.rs:149-155 | which holds for every batch of a trace that enters basic blocks through SPAN and RESPAN only |
| OpGroups.BatchDecodes | air/src/constraints/generated.rs:1598-1737 | what such a batch executes, no-ops aside, with PUSH immediates interleaved, equals the reference decoding of its eight committed cells |
| OpGroups.BlockDecodes | air/src/constraints/generated.rs:1598-1737 | what a basic block of any number of batches executes is the decoding of all its committed cells in turn, and its group count is the number of groups of all its batches |
| OpGroups.DecodingIsUnique | air/src/constraints/generated.rs:1598-1737 | blocks of any number of batches with the same committed cells execute the same instructions, in any two runs, whatever their batch flags |
| OpGroups.SpansAreBlocks | air/src/constraints/decoder/mod.rs:149-155 | where basic blocks are entered through SPAN and RESPAN only, every SPAN with its batches is such a block |
| OpGroups.OpenedIffEntered | air/src/constraints/decoder/mod.rs:149-155 | every in-span row follows a SPAN or RESPAN at its own address through in-span rows only, if and only if basic blocks are entered through SPAN and RESPAN only |
| OpGroups.CommittedIffFramed | air/src/constraints/decoder/mod.rs:149-155 | every operation of a run lies inside a batch of committed groups if and only if basic blocks are entered through SPAN and RESPAN and left through END and RESPAN only |
| OpGroups.RunDecodes | air/src/constraints/generated.rs:1598-1762 | everything such a run executes, from first row to last, is the decoding of the cells its SPAN and RESPAN rows commit to, batch after batch |
| OpGroups.RunIsDecided | air/src/constraints/generated.rs:1598-1762 | two such runs with the same committed cells execute the same instructions |
| DecoderComplete.FlagNumbers | core/src/operations/mod.rs:25-132 | the flags of SPAN, PUSH, RESPAN, END and HALT are set exactly for the opcodes of the instruction set |
| DecoderComplete.ControlNumbers | core/src/operations/mod.rs:25-132 | the control flag is 1 exactly for the opcodes of the control operations |
| DecoderComplete.BatchIff | air/src/constraints/generated.rs:1694-1737 | the batch flag constraints accept exactly bits of which one is set on SPAN and RESPAN, with zeros beyond the groups they announce, and none elsewhere |
| DecoderComplete.BlockIsAccepted | air/src/constraints/generated.rs:1598-1762 | rows that use up the slots of their batches in order meet every decoder constraint and balance the op group table both ways |
| BlockLayout.DecodingIsComplete | air/src/constraints/generated.rs:1598-1762 | for every list of batches of 1, 2, 4 or 8 slots, with up to nine operations a group and PUSH immediates in the slots after their group, the trace SPAN, operations, RESPAN, operations, ..., END, HALT meets every decoder constraint and balances the op group table both ways; it commits to exactly those slots and executes exactly those operations |
| LooseOperation.LooseOperationRuns | air/src/constraints/decoder/mod.rs:149-155 | a run of seven rows that meets the constraints of decoder and stack, with op group, block stack and block hash records matched, which executes INCR while its only batch decodes to nothing |
| Goldilocks.PrimeP | crates/field/README.md:35 | the modulus 2^64 - 2^32 + 1 has no proper factor |
| Goldilocks.ZeroProduct | crates/field/src/wasm_miden.rs:77-78 | a product that vanishes in the field has a factor that vanishes |
| FeltField.FeltsAreAField | crates/field/README.md:34-35 | base-field arithmetic meets every law that the LogUp results assume |
| QuadField.NonResidue | air/src/constraints/ext_field.rs:11-12 | no base-field element squares to 7 |
| QuadField.QuadsAreAField | air/src/constraints/ext_field.rs:1-78 | so the quadratic extension meets every law that the LogUp results assume |
| LogUpAccumulator.AccumulateSlow | air/src/lookup/aux_builder.rs:205-271 | returns the auxiliary columns and sigma' of the specification, and fails exactly on an empty shape, a zero denominator or a row count that is zero in the field |
| LogUpAccumulator.InvertAndScale | air/src/lookup/aux_builder.rs:445-485 | one inversion gives m/d for every fraction; it fails exactly when some denominator is zero |
| LogUpAccumulator.IsolateInverse | air/src/lookup/aux_builder.rs:467-484 | with the inverse of a prefix product, the previous prefix product isolates one inverse, and one more factor gives the next inverse |
| LogUpAccumulator.ComputeRowFracOffsets | air/src/lookup/aux_builder.rs:421-433 | offset r is the number of fractions of all earlier rows |
| LogUpAccumulator.FillChunk | air/src/lookup/aux_builder.rs:332-376 | a chunk writes the fraction columns and totals of its own rows and nothing else, also when it has no fractions |
| LogUpAccumulator.Accumulate | air/src/lookup/aux_builder.rs:296-414 | for every chunk size the fused accumulator returns the specified matrix and sigma', and fails exactly when the oracle does |
| LogUpAccumulator.SameMatrix | air/src/lookup/aux_builder.rs:296-414 | cell (r, c) of the row-major matrix is cell r of column c of the oracle |
| LogUpConstraints.BatchStands | air/src/lookup/constraint.rs:439-475 | the (N, D) pair of a batch stands for the sum of its fractions |
| LogUpConstraints.GroupStands | air/src/lookup/constraint.rs:318-385 | the (V, U) pair of a group with at most one flag on stands for the sum of its active fractions |
| LogUpConstraints.ColumnStands | air/src/lookup/constraint.rs:220-223 | the column pair stands for the sum of all fractions that the prover collects for it |
| LogUpConstraints.ColumnConstraint | air/src/lookup/builder.rs:190-197 | U*x - V vanishes exactly for the sum of the active fractions |
| LogUpConstraints.RowMeaning | air/src/lookup/constraint.rs:132-190 | the constraints of a row hold exactly when fraction columns hold their sums and the accumulator moves by the row total less sigma' |
| LogUpConstraints.RecurrenceForcesSum | air/src/lookup/aux_builder.rs:257-270 | a column that starts at 0 and meets the recurrence on every row, last to first included, forces n * sigma' to be the sum of all row totals |
| LogUpConstraints.AccCloses | air/src/lookup/aux_builder.rs:257-270 | the normalised accumulator closes cyclically |
| LogUpConstraints.RecurrenceHasOneSolution | air/src/lookup/aux_builder.rs:257-270 | the recurrence holds exactly for the accumulator that is built and its sigma' |
| LogUpConstraints.TraceMeaning | air/src/constraints/generated.rs:2039-2079 | an auxiliary trace satisfies the lookup constraints exactly when its fraction columns hold their sums and its accumulator meets the recurrence |
| LogUpConstraints.SatisfyingForcesSum | air/src/constraints/generated.rs:2039-2079 | the committed value of every satisfying trace is the normalised sum of all active fractions |
| LogUpConstraints.AccumulateSatisfies | air/src/lookup/aux_builder.rs:296-414 | what is accumulated from the collected fractions satisfies every constraint |
| LogUpClosure.ReduceBoundaryBuilder.Insert | air/src/lib.rs:1103-1116 | the reducer holds the sum of all boundary fractions so far, or the first zero denominator, after which it changes no more |
| LogUpClosure.BoundaryCorrection | air/src/lib.rs:616-645 | for Core and Chiplets the sum of their own boundary fractions, with an error exactly on a zero denominator or, for Chiplets, a partial kernel digest; for the permutation AIR zero, whatever its messages |
| LogUpClosure.CorrectionsAre | air/src/lib.rs:616-645 | the corrections of all AIRs add up to the boundary fractions of Core and Chiplets |
| LogUpClosure.EvalExternal | air/src/lib.rs:938-1026 | accepts exactly the well-shaped inputs without a zero boundary denominator in Core or Chiplets, and returns the trace-length-weighted sum of the committed values plus the boundary fractions of Core and of Chiplets |
| LogUpClosure.ReductionIsGlobalSum | air/src/lib.rs:999-1025 | for values committed by satisfying traces that is the sum of all row fractions of all three AIRs plus the boundary fractions of Core and Chiplets |
| LogUpClosure.StatementBoundary | air/src/constraints/lookup/miden_air.rs:27-86 | for the messages of a statement these boundary fractions are 1/(block hash seed) + 1/(initial deferred root) - 1/(final deferred root) plus the share of the kernel digests |
| MemoryBudget.ProverPeakBytes | air/src/memory.rs:48-86 | the computed peak is the unbounded-integer formula, and None exactly when a parameter-only term or five times the modelled bytes overflows 64 bits |
| MemoryBudget.PeakClosedForm | air/src/memory.rs:48-86 | the peak is 5/4 of the bytes of all columns at their heights and of the shared columns at the largest one, rounded up, and is given exactly when the parameter terms and five times those bytes fit 64 bits |
| MemoryBudget.PinnedPeaks | air/src/memory.rs:143-156 | the five pinned figures for the current AIR shapes |
| MemoryBudget.PeakMonotone | air/src/memory.rs:104-107 | raising heights never lowers the peak, with None as infinity |
| MemoryBudget.MaxHeightForBudget | air/src/memory.rs:108-130 | nothing above the result fits the budget, and the result fits unless no height does |
| MemoryBudget.MaxAnyHeightForBudget | air/src/memory.rs:88-102 | no shape that fits the budget has any height above the bound, and the bound is attained by some AIR or is zero |
| ContinuationStack.ClockTicksOnNodes | processor/src/continuation_stack.rs:118-160 | a continuation increments the clock exactly when it executes a node |
| ContinuationStack.NextClockIsTop | processor/src/continuation_stack.rs:374-401 | the entries of the next clock cycle are the top of the stack read downwards, up to and including the first that increments the clock |
| ContinuationStack.PushThenPop | processor/src/continuation_stack.rs:227-318 | a push then a pop returns the pushed pair, its id None when tracking is off, and restores the stack; popping an empty stack returns nothing and changes nothing |
| ContinuationStack.RunKeepsBelow | processor/src/continuation_stack.rs:227-342 | over any pushes and pops the entries that are never reached keep their continuations and ids |
| ContinuationStack.LastInFirstOut | processor/src/continuation_stack.rs:227-318 | after any history, a push, any balanced pushes and pops, and a pop give back the pushed pair and the stack from before the push |
| ContinuationStack.TrackedIds | processor/src/continuation_stack.rs:332-342 | after tracking starts, the entries that were there carry the given id at the top and None below it, whatever is pushed and popped above them |
| ContinuationStack.TrackThenPops | processor/src/continuation_stack.rs:332-342 | so the first pop carries the given id and the later pops of those entries None |
| ContinuationStack.Stack.constructor | processor/src/continuation_stack.rs:193-221 | a new stack holds the entry point, with its id when tracking is on |
| ContinuationStack.Stack.PushWithSourceNodeId | processor/src/continuation_stack.rs:227-240 | pushes one (continuation, id) pair, the id dropped when tracking is off, and that pair is what a peek then returns |
| ContinuationStack.Stack.PopWithSourceNodeId | processor/src/continuation_stack.rs:304-318 | removes and returns the top pair |
| ContinuationStack.Stack.StartTrackingSourceNodes | processor/src/continuation_stack.rs:332-342 | from then on every entry has an id; only the top one is given |
| ContinuationStack.Stack.PeekWithSourceNodeId | processor/src/continuation_stack.rs:357-370 | the pair that the next pop would return |
| ContinuationStack.Stack.ContinuationsForNextClock | processor/src/continuation_stack.rs:387-421 | the iterator yields the entries of the next clock cycle, each with its own id |
| ContinuationStack.Stack.PopNextClock | processor/src/continuation_stack.rs:304-421 | popping up to the first clock increment yields exactly what the iterator yields and leaves the rest |
| ContinuationStack.Stack.RunAll | processor/src/continuation_stack.rs:176-342 | after any sequence of operations the two vectors are aligned and act as the one stack of pairs that the laws above are about, and every pop returned what that stack returns |
| ContinuationCodec.UsizeRoundTrip | crates/serde-utils/src/byte_writer.rs:77-91 | every 64-bit length survives the vint64 encoding, whatever follows it |
| ContinuationCodec.EncodedLenMeaning | crates/serde-utils/src/byte_writer.rs:145-149 | the encoded length is 1 to 9 bytes, and a value of length k below 9 fits in 7k bits |
| ContinuationCodec.EncodedLenIsLeast | crates/serde-utils/src/byte_writer.rs:145-149 | k bytes are enough exactly for the values of 7k bits, and nine for all |
| ContinuationCodec.ContinuationRoundTrip | processor/src/continuation_stack.rs:452-534 | a continuation survives the wire except for its debug information |
| ContinuationCodec.WireTags | processor/src/continuation_stack.rs:436-446 | the first byte is 0 to 9 as the kind of continuation says |
| ContinuationCodec.DecodePrefix | processor/src/continuation_stack.rs:503-534 | from a part of its input a reader reads the same continuation or finds the end of input, and never another one |
| ContinuationCodec.StackRoundTrip | processor/src/continuation_stack.rs:542-553 | a stack survives the wire except for debug information, and is refused exactly when the reader cannot provide that many elements |
| ContinuationCodec.BudgetedRoundTrip | crates/serde-utils/src/byte_reader.rs:227-246 | a reader with a budget of exactly the encoded bytes accepts a stack if and only if its length times the assumed element size is at most the encoded body |
| ContinuationCodec.SameOnWire | processor/src/continuation_stack.rs:446-553 | two stacks have the same encoding exactly when they differ in debug information only |
| ContinuationCodec.TruncatedIsRefused | processor/src/continuation_stack.rs:548-553 | an encoded stack that is cut short anywhere is refused |
| TypeStrings.StripFieldLabels | scripts/check-masm-export-digests.rs:238-299 | the scan equals the specified step function applied from the start |
| TypeStrings.CharacterClasses | scripts/check-masm-export-digests.rs:262-292 | which characters start an identifier, continue one, are white space and are punctuation |
| TypeStrings.Normalize | scripts/check-masm-export-digests.rs:309-384 | the two passes and the final trim equal their specifications |
| TypeStrings.CanonicalizeTypeString | scripts/check-masm-export-digests.rs:229-231 | the result is the composed specification, to which the results on printed types apply |
| TypeCanonical.CanonicalIsCanon | scripts/check-masm-export-digests.rs:229-384 | for every nested struct type, every labelling, every number of blanks inside braces and around colons and commas, and every layout gives the canonical form of the bare type |
| TypeCanonical.ReadType | scripts/check-masm-export-digests.rs:309-384 | canonical forms are uniquely readable |
| TypeCanonical.CanonicalDecidesEquality | scripts/check-masm-export-digests.rs:219-384 | two printed types have the same canonical string exactly when names, field types, their number and their order agree |

## Findings

- DYNCALL stages the caller's depth in hasher cell 4. The cell enters the block stack record
  (air/src/constraints/generated.rs:1930-1944, air/src/constraints/lookup/buses/block_stack_and_range_logcap.rs:197-220), and no
  constraint or bus ties it to the depth of its row. `StagedDepth.StagingMatters` is a run on which a return then does not
  restore its caller; `StackOverflow.StackIffStaged` gives the exact condition.
- Records with and without a caller share one layout, the caller's fields being zero in the second kind
  (air/src/constraints/lookup/messages.rs:735-774). `StagedDepth.CallersMatter` is a run on which a return takes a record of the
  second kind; the condition above therefore also asks that a return takes the record of a row that opened a context.
- air/src/constraints/decoder/mod.rs:149-155 says that a basic block is entered through SPAN or RESPAN only. The constraints state
  the converse, that SPAN and RESPAN enter one: the in-span flag may rise after any control row. On
  `LooseOperation.LooseOperationRuns` an operation stands between SPLIT and SPAN and belongs to no batch, so what a run executes
  is not decided by what it commits to. `OpGroups.OpenedIffEntered` and `OpGroups.CommittedIffFramed` give the exact conditions under which
  every operation is a committed one, `OpGroups.CompleteIffOwn` what one batch needs of them.
- air/src/constraints/chiplets/hasher_control/mod.rs:338-400 carries index, direction and digest from one level of a Merkle path to
  the next where an output row that ends no operation is followed by a Merkle input. No constraint says that it is, and a Merkle
  input after level 0 sends no message (air/src/constraints/lookup/buses/chiplet_responses.rs:311-360). On
  `BrokenPath.ContinuityMatters` the rows of a request therefore hold another operation and a level of no path;
  `MerkleController.PathIffContinued` gives the exact condition.

## Left out

- Hasher permutation rounds, the ACE chiplet and kernel ROM rows: round constants and periodic tables are not part of this model.
- Equality of the generated evaluators with the hand-written constraint modules.
- What operations do to the entries within their reach, beyond the arithmetic operations above: cell-by-cell equations of one row.
- EQ, EQZ and the boolean and extension-field operations of the stack: one-row identities.
- The block hash table beyond one run, and the block stack beyond what the overflow results need.
- STARK proving and verification, commitments, transcripts and the probabilistic soundness of LogUp: the buses are ideal here.
- Message encoding: denominators are parameters, and so is the encoding of the boundary messages.
- Parallel execution of accumulator chunks: chunks are filled one after the other, and the parallel sum is a sequential one.
- Contents of package debug information: an opaque value.
- Allocation sizes, log messages and error texts.
- LogUpAccumulator.Accumulate: the row-major matrix is one flat buffer; chunk slices are row ranges of it, not separate borrows.
- ContinuationCodec.BudgetedRoundTrip: the in-memory size of a continuation, which the reader uses as the element size, is a parameter.
- TypeStrings.StripFieldLabels: alphabetic, alphanumeric and whitespace characters are the ASCII ones.
- TypeStrings.Normalize: the final trim removes ASCII whitespace only.
- TypeStrings.CanonicalizeTypeString: the same character classes.
- MerkleController.RequestedRoot: asks that every output row before the last passes its digest on, which the constraints do not force (see Findings); the sibling table of MRUPDATE is not modelled.
- MerkleComplete.MerkleIsComplete: permutation ids are zero, as the bus that they name is not modelled; sponge rows are left to BrokenPath.ContinuityMatters.
- BlockLayout.DecodingIsComplete: how the assembler groups operations into batches is not modelled; any such grouping is accepted.
- OpGroups.BatchDecodes: asks that no row outside the batch counts at its address, which the constraints do not force (see Findings).
- OpGroups.BlockDecodes: the same for every batch of the block.
- OpGroups.DecodingIsUnique: the same for both blocks; whole runs are the subject of OpGroups.RunIsDecided.
- OpGroups.RunDecodes: asks that basic blocks are entered and left in the proper way, which the constraints do not force (see Findings).
- StackOverflow.StackIffStaged: that the block an END row ends was opened on an earlier row is part of the bus assumption, not derived from balance.
- StagedDepth.StagingMatters: the run is one of the stack's constraints; its decoder columns hold only what the block stack reads.
- StagedDepth.CallersMatter: the same.
- LooseOperation.LooseOperationRuns: the range-check table of the trace is left empty.
- TypeCanonical.CanonicalDecidesEquality: the grammar has qualified names and nested structs; attributes, pointers, arrays and function signatures around them are not covered.
