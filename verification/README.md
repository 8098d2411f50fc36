# ArkCompiler bytecode tool chain: a verified model

This project models the parts of the ArkCompiler runtime core that turn an optimised graph into bytecode, write it
into an abc file and read it back: the register encoder, the dynamic common-subexpression elimination, the
accumulator allocation, the linearisation of the control-flow graph, the deduplication of literal arrays, the
line-number program, the exception tables, the annotation builders, the normalised dump, the worklist of nested
literal arrays and the flattening of module records. `dafny verify dfyconfig.toml` checks all of it.

## Main results

* **Register encoding** (`RegIr`, `RegEncoder`, `RegEncoderLemmas`, `RegEncoderPass`, `RegEncoderMeaning`,
  `RegEncoderShapes`). The pass succeeds exactly when some number of low temporaries both fits the frame and suffices,
  and reserves the smallest such number. Whenever it succeeds, every run of the encoded program under any control flow
  shows every instruction the operand values it had before. What becomes of each instruction is fixed by its shape and
  registers (`RegEncoderShapes`): narrow ones read only r0..r15, range ones read consecutive registers, and all other
  operands just move to their places.
* **Common-subexpression elimination** (`SsaGraph`, `SsaValues`, `DynamicCse`, `DynamicCseSound`, `DynamicCseEquiv`,
  `DynamicCsePass`, `DynamicCseComplete`). On every run of every graph, throwing runs included, every instruction gets
  the same operands and value before and after the pass, and every instruction the pass gives up is an unused duplicate
  or a check that cannot fire. Which instructions are given up is fixed exactly, in terms of opcodes, inputs, value
  numbers and places in the graph (`DynamicCseComplete`).
* **Literal arrays** (`LiteralKeys`, `LiteralKeysExact`, `LiteralDedup`, `LiteralSharing`, `LiteralHolders`,
  `LiteralDedupPass`, `LiteralLoss`). The content key is equal exactly for arrays with equal unfoldings, unresolved
  references included unless they are spelled like keys, which is decided by reading them. After deduplication across
  all programs every instruction still loads what it loaded if and only if none reaches an array that was given up;
  `LiteralLoss` has a program that loses content, and none does where only buffer instructions name what they name.
  Two buffer instructions share an array exactly when they are the same instruction with the same content, if and
  only if no id is used by both of them. Which ids end as aliases of which is fixed by the order of the uses
  (`LiteralHolders`).
* **Accumulator allocation** (`AccGraph`, `AccAlloc`, `AccMeaning`, `AccExact`). Code with the marked loads and stores
  left out computes, on every run, what code that loads and stores everywhere computes; and the marks are exactly those
  that the uses of each value and the stretches of code between them allow (`AccExact`).
* **Linearisation** (`Linearise`, `LineariseRuns`, `LineariseSim`, `LinearisePlaces`, `LineariseShape`). The emitted
  list is fixed position by position, labels of exception regions included. Every run of it
  visits the blocks of a run of the graph, with the same states, and never gets stuck, as long as the comparisons it
  comes to are sound: constants that are in registers are there, of two constants the second one is, and a value
  tested for inequality converts to a boolean as it should. The emitted test agrees with the comparison exactly there.
* **Debug information** (`LineProgram`, `LineEmitter`, `LineRoundTrip`, `LineLocals`, `LineOrder`, `LineSort`,
  `LineTables`, `LineRank`, `LineSortExact`, `LineAddress`, `LineReport`, `LineReportSorted`, `LineReportCases`,
  `LineBuild`, `DebugCursor`). Emitted, replayed and looked up again, every real instruction has its line and column,
  and the tables hold nothing else. For the local
  variables the source's sort does not suffice: its comparator is no strict weak order where three events meet, and
  variables may share a register. For any order of the events the exact condition is given for a variable to be
  reported with its range, the reader's completion of missing ends included (`LineReport`); and for a function, the
  exact condition for every order without inverted neighbours to have all ranges reported (`LineReportSorted`).
  `LineReportCases` has functions that lose a range, and one whose overlapping variables are all reported.
* **Exception tables and jumps** (`CodeTables`, `TryBlocks`, `TryRoundTrip`, `CodeProcessor`). Disassembled and
  emitted again, jumps are as long as they were and the try table is the same if and only if its ranges are distinct
  and each has a handler. Local-variable indices are right exactly under the condition `VariableIndexIsExact` gives.
* **Annotations** (`Annotations`, `AnnotationGrammar`, `AnnotationDocs`). The two nested builders accept exactly the
  streams that are the print of a document whose values can all be read, and produce exactly what it means.
* **abc2program tables** (`ProgramDump`, `LiteralWorklist`, `ModuleArrays`). The normalised dump is a canonical form
  exactly for functions in which no label that leads nowhere is written like an instruction index, the worklist
  processes exactly the reachable arrays and each once, and flattened module records can be read back if and only if
  their request indices fit 16 bits.

Opcodes are uninterpreted functions of their operands. Value numbers, dominators, register usage masks, block orders
and instruction sizes are inputs, with the small contracts named in the preconditions.

## Model

| member | source | states |
|---|---|---|
| `RegEncoderPass.Encoder.CalculateNumNeededRangeTemps` | bytecode_optimizer/reg_encoder.cpp:61-80 | the loop computes the running maximum of range operand counts, kept in 8 bits with the truncation that implies |
| `RegEncoderLemmas.RangeReservationIsExact` | bytecode_optimizer/reg_encoder.cpp:61-80 | the reserved block covers every range instruction if and only if no range instruction has 256 or more operands |
| `RegEncoderPass.Encoder.RenumberRegs` | bytecode_optimizer/reg_encoder.cpp:158-204 | exactly the real registers from `minReg` on move by the 8-bit sum, in operands, destinations and moves alike |
| `RegEncoderLemmas.WrappedDelta` | bytecode_optimizer/reg_encoder.cpp:206-284 | adding the wrapped negative delta to a used register is moving it down to its place, without wrapping |
| `RegEncoderLemmas.PlaceOfUsed` | bytecode_optimizer/reg_encoder.cpp:206-284 | a used register lands inside the compact frame, past the low temporaries and outside the range block |
| `RegEncoderLemmas.PlaceIsInjective` | bytecode_optimizer/reg_encoder.cpp:206-284 | the renaming of used registers is injective |
| `RegEncoderLemmas.MaskIsImage` | bytecode_optimizer/reg_encoder.cpp:273-279 | the mask shifted in place is exactly the image of the old mask, and the range block is unused |
| `RegEncoderShapes.FrameIsRead` | bytecode_optimizer/reg_encoder.cpp:206-251 | a mask is accepted if and only if the used registers in front of the arguments are one area at the beginning and one at the end, and then these are the locals and the temps |
| `RegEncoderPass.Encoder.RenumberArgRegs` | bytecode_optimizer/reg_encoder.cpp:206-284 | succeeds exactly when locals, range block, temps and arguments fit; then program, mask, range start and stack slots are those of the compact frame |
| `RegEncoderPass.Encoder.CalculateNumNeededTempsForInst` | bytecode_optimizer/reg_encoder.cpp:422-466 | raises the count to the number of operands above r15 that the instruction reads outside range calls and its acc slot, and never lowers it |
| `RegEncoderPass.Encoder.CalculateNumNeededTemps` | bytecode_optimizer/reg_encoder.cpp:302-319 | the count is the maximum over all instructions: an upper bound that some instruction attains |
| `RegEncoderLemmas.NeededIsBounded` | bytecode_optimizer/reg_encoder.cpp:422-466 | no instruction ever needs more than four low temporaries |
| `RegEncoderLemmas.MaxNeededGrows` | bytecode_optimizer/reg_encoder.cpp:96-115 | shifting the program up never lowers the number of temporaries it needs |
| `RegEncoderLemmas.NoSmallerStep` | bytecode_optimizer/reg_encoder.cpp:96-115 | a further round never passes a reservation that works |
| `RegEncoderLemmas.RoundReserves` | bytecode_optimizer/reg_encoder.cpp:99-115 | one round leaves every register moved by exactly the number of temporaries counted before it |
| `RegEncoderPass.Encoder.ReserveLowTemps` | bytecode_optimizer/reg_encoder.cpp:96-115 | the loop ends; then the shifted program needs exactly what is reserved, no smaller reservation works, and failure means the frame has no room for what is needed |
| `RegEncoderPass.Encoder.MoveMaskDown` | bytecode_optimizer/reg_encoder.cpp:276-279 | the downward in-place shift gives the mask of the compact frame |
| `RegEncoderPass.Encoder.MoveMaskUp` | bytecode_optimizer/reg_encoder.cpp:121-126 | the upward in-place shift gives the mask of the frame with the low temporaries in use |
| `RegEncoderPass.Encoder.InsertSpillsForInst` | bytecode_optimizer/reg_encoder.cpp:343-420 | exactly the selected operands are redirected to temporaries fed by moves in front of the instruction, equal sources sharing one temporary and different ones not; all else stays |
| `RegEncoderPass.Encoder.InsertSpills` | bytecode_optimizer/reg_encoder.cpp:286-300 | every block is the old one with each instruction in its spilled form, in order |
| `RegEncoderMeaning.MovesDeliver` | bytecode_optimizer/reg_encoder.cpp:321-335 | inserted moves deliver every source value and change nothing else |
| `RegEncoderMeaning.MoveOrderIsIrrelevant` | bytecode_optimizer/reg_encoder.cpp:321-335 | the same moves in any other order leave the same state |
| `RegEncoderMeaning.SpilledInstAgrees` | bytecode_optimizer/reg_encoder.cpp:343-420 | a renamed and spilled instruction sees the same operands and leaves the renamed state |
| `RegEncoderPass.Encoder.RunImpl` | bytecode_optimizer/reg_encoder.cpp:82-132 | succeeds if and only if some number of temporaries fits and suffices, reserves the smallest one, and leaves the encoded program, the shifted mask and the enlarged frame |
| `RegEncoderMeaning.EncodingPreservesTrace` | bytecode_optimizer/reg_encoder.cpp:82-132 | for every control flow and every number of steps the encoded program shows the same sequence of operations and operand values |
| `RegEncoderMeaning.EncodingPreservesState` | bytecode_optimizer/reg_encoder.cpp:82-132 | every block leaves the renamed state that the original block leaves |
| `RegEncoderShapes.EncodedInstructions` | bytecode_optimizer/reg_encoder.cpp:343-420 | every block holds its old instructions in order; by shape alone, range operands are consecutive in the range block, high operands of narrow instructions are low temporaries, the same one exactly for the same register, every other register is at its place in the compact frame, and moves precede just the instructions with operands to be moved |
| `RegEncoderShapes.ReservationIsEnough` | bytecode_optimizer/reg_encoder.cpp:96-115 | a reservation works if and only if it fits the frame and is the greatest number of operands above r15 that a narrow instruction has once everything moved up by it |
| `RegEncoderShapes.RangeTempsIsExact` | bytecode_optimizer/reg_encoder.cpp:61-80 | the range block is just what the range instruction with most data operands asks for |
| `RegEncoderShapes.SelectedExactly` | bytecode_optimizer/reg_encoder.cpp:343-420 | the operands that are moved are, of a range instruction, all data operands outside the acc slot, and of any other those above r15 |
| `RegEncoderShapes.RealOperandsCount` | bytecode_optimizer/reg_encoder.cpp:454-463 | what the pass assumes of a narrow instruction is that it names at most four registers |
| `RegEncoderShapes.EncodedOperands` | bytecode_optimizer/reg_encoder.cpp:343-420 | after the pass every instruction of narrow shape reads only r0..r15, and every one of range shape reads consecutive registers outside its acc slot and SaveState |
| `SsaGraph.PathOfRun` | bytecode_optimizer/dynamic_cse.cpp:172-194 | every run, throwing or not, follows a path of the block graph whose blocks it ran to their end |
| `SsaGraph.DominatorPrecedes` | bytecode_optimizer/dynamic_cse.cpp:196-212 | what dominates an instruction has completed on every run that reaches the instruction |
| `SsaGraph.NotRedone` | bytecode_optimizer/dynamic_cse.cpp:178-212 | an input is never executed again after the last execution of a user that dominates the current point |
| `DynamicCseSound.ProducerIsCurrent` | bytecode_optimizer/dynamic_cse.cpp:196-212 | a dominating producer's latest value is its operation applied to the values its inputs have now |
| `DynamicCseSound.SameKeyDuplicates` | bytecode_optimizer/dynamic_cse.cpp:129-159 | an instruction with the key of a dominating producer would compute, on every run, the value the producer holds |
| `DynamicCseSound.ReplacedIsEquivalent` | bytecode_optimizer/dynamic_cse.cpp:231-242 | moving all users, phis included, from a duplicate to its producer changes no operand and no value on any run |
| `DynamicCseEquiv.DominatedCheckIsRedundant` | bytecode_optimizer/dynamic_cse.cpp:222-229 | a super check dominated by the same check of the same value never fires |
| `DynamicCsePass.FirstReusableIsUnique` | bytecode_optimizer/dynamic_cse.cpp:196-212 | at most one producer is the first reusable one, so the search result is determined |
| `DynamicCsePass.StepsAreDetermined` | bytecode_optimizer/dynamic_cse.cpp:214-260 | visiting a list of instructions has exactly one outcome |
| `DynamicCsePass.Cse.BuildKey` | bytecode_optimizer/dynamic_cse.cpp:115-159 | a key exists exactly when the operation is one of the four, the data inputs have the expected count and all have value numbers; it then holds those numbers |
| `DynamicCseComplete.KeyOfExpression` | bytecode_optimizer/dynamic_cse.cpp:115-159 | an instruction has a key exactly if it is a conversion with one numbered data input or a strict comparison with two, and the key holds opcode, type and value numbers |
| `DynamicCseComplete.CheckKeyExactly` | bytecode_optimizer/dynamic_cse.cpp:83-113 | a super check has a key exactly with type void, one immediate 0 or 1 and one data input |
| `DynamicCsePass.Cse.FindReusable` | bytecode_optimizer/dynamic_cse.cpp:161-212 | returns the earliest recorded producer that dominates, is in a safe region and, if asked, is live across; none exactly when there is none |
| `DynamicCsePass.Cse.ProcessSuperCheck` | bytecode_optimizer/dynamic_cse.cpp:222-229 | drops the check exactly when an equal one is reusable, records it otherwise, keeps the invariant of the walk |
| `DynamicCsePass.Cse.ProcessExpression` | bytecode_optimizer/dynamic_cse.cpp:231-242 | moves the users to the first reusable producer exactly when there is one, records the instruction otherwise |
| `DynamicCsePass.Cse.ProcessInstruction` | bytecode_optimizer/dynamic_cse.cpp:214-243 | the three-way step, with the invariant that the current graph is equivalent to the original one |
| `DynamicCsePass.Cse.RunImpl` | bytecode_optimizer/dynamic_cse.cpp:247-260 | the result is equivalent to the input on every run, is the outcome of the steps over all blocks in order, and every given-up instruction is an unused duplicate or a check that cannot fire |
| `DynamicCseComplete.ExpressionsGivenUp` | bytecode_optimizer/dynamic_cse.cpp:161-243 | an expression is given up if and only if an earlier visited one of the same opcode, type and value numbers was kept that stands above it in the dominator tree, in its block or with both outside exception regions, and is used by some instruction but a phi at it or below it |
| `DynamicCseComplete.UsersTakenOver` | bytecode_optimizer/dynamic_cse.cpp:196-243 | its users then go to the one of those that was visited first |
| `DynamicCseComplete.ChecksGivenUp` | bytecode_optimizer/dynamic_cse.cpp:197-228 | a super check is given up if and only if an earlier one of the same input and immediate was kept above it, with the same condition on regions |
| `DynamicCseComplete.OthersKept` | bytecode_optimizer/dynamic_cse.cpp:214-243 | nothing else is given up or changes the graph |
| `DynamicCseComplete.GivenUpIsUnused` | bytecode_optimizer/dynamic_cse.cpp:240-242 | an expression that was given up has no user left, phis included |
| `DynamicCseComplete.VisitsAll` | bytecode_optimizer/dynamic_cse.cpp:247-260 | the pass visits all instructions of the listed blocks, in the order of the blocks |
| `DynamicCseComplete.WalkOfRun` | bytecode_optimizer/dynamic_cse.cpp:247-260 | what a run of the pass leaves comes about by the visits the theorems above speak of |
| `LiteralKeys.ComputeContentKey` | assembler/assembly-emitter.cpp:1405-1456 | terminates on every table, cyclic ones included; on acyclic tables the memoised key is the key of the complete unfolding, and every memo entry stays exact |
| `LiteralKeysExact.ReadTyped` | assembler/assembly-emitter.cpp:1405-1456 | an array can be read off its key, provided that no unresolved reference in it is spelled like a key |
| `LiteralKeysExact.ReadKeyIs` | assembler/assembly-emitter.cpp:1405-1456 | whatever a byte string reads as is such an array, and the byte string is its key |
| `LiteralKeysExact.KeyIsExact` | assembler/assembly-emitter.cpp:1405-1456 | arrays, of the same or of different tables, have equal keys if and only if their complete unfoldings are equal; unresolved references may occur as long as they are not spelled like keys |
| `LiteralKeysExact.SpellsExactly` | assembler/assembly-emitter.cpp:1413-1422 | a byte string is spelled like a key exactly when the reader accepts it, which decides the condition above |
| `LiteralKeysExact.ToldApartExactly` | assembler/assembly-emitter.cpp:1405-1456 | for an array with any unresolved references: its key is that of no other array of the kind above if and only if none of its references is spelled like a key |
| `LiteralKeysExact.EqualKeysExactly` | assembler/assembly-emitter.cpp:1405-1456 | any two arrays have equal keys exactly when their keys read as the same array |
| `LiteralKeysExact.DanglingExactly` | assembler/assembly-emitter.cpp:1413-1422 | no other item has the key of an unresolved reference if and only if its id is not spelled like a key |
| `LiteralKeysExact.DanglingKeyCollides` | assembler/assembly-emitter.cpp:1413-1422 | a table with two arrays of different unfoldings that share a key |
| `LiteralDedup.RecordedOk` | assembler/assembly-emitter.cpp:1486-1501 | recording an id as canonical or as an alias keeps: aliases resolve in one hop to an id of equal content that is no alias itself |
| `LiteralDedup.UndoneOk` | assembler/assembly-emitter.cpp:1488-1491 | undoing the entries of a mixed-use id keeps the same, even with aliases to it in place |
| `LiteralDedupPass.MeetBuffer` | assembler/assembly-emitter.cpp:1480-1501 | one buffer instruction keeps the walk invariant, finds the memoised key it needs, and keeps exact sharing for single-kind ids |
| `LiteralDedupPass.CollectAndResolveDuplicates` | assembler/assembly-emitter.cpp:1472-1504 | the walk over a program succeeds, leaves aliases only for ids that buffer instructions name, resolves each to a survivor of equal content, and gives every class the canonical id and every id the alias that the order of the uses determines |
| `LiteralDedupPass.Rewrite` | assembler/assembly-emitter.cpp:1513-1521 | the in-place loop resolves exactly the buffer instructions and drops exactly the aliased arrays |
| `LiteralDedup.MergedKeepsContent` | assembler/assembly-emitter.cpp:1506-1523 | through the union of the remaining tables every instruction unfolds to the array it unfolded to before if and only if none reaches, at any depth, an array that was given up |
| `LiteralDedup.ExclusiveLosesNothing` | assembler/assembly-emitter.cpp:1506-1523 | none does where no id of a buffer instruction is also named by a nested literal or by another instruction |
| `LiteralDedup.GivenUpExactly` | assembler/assembly-emitter.cpp:1513-1521 | just those arrays leave a program's table that one of its instructions was created from and none is any more; the others stay as they are |
| `LiteralLoss.NestedIsLost` | assembler/assembly-emitter.cpp:1506-1523 | a program with a nested reference to an array that ends as an alias, whose third instruction no longer loads what it loaded |
| `LiteralSharing.SharesExactly` | assembler/assembly-emitter.cpp:1506-1523 | with single-kind ids two buffer instructions name one array exactly when opcode and content agree |
| `LiteralSharing.MixedIdsAreShared` | assembler/assembly-emitter.cpp:1488-1501 | two instructions that name one id go on sharing an array, so sharing is exact only if no id is mixed |
| `LiteralHolders.HeldUntilErased` | assembler/assembly-emitter.cpp:1488-1501 | the id that opens a class is its canonical id until some id of the class is used by the other instruction, and never again |
| `LiteralHolders.AliasIs` | assembler/assembly-emitter.cpp:1480-1501 | an id ends as an alias of what was canonical for its class at its first use, or of nothing if it is mixed itself |
| `LiteralHolders.AliasExactly` | assembler/assembly-emitter.cpp:1480-1501 | an id ends as an alias of another one if and only if the first use of that one made it canonical, the id was first used later, by the same instruction and with the same content, before any id of that class was used by the other instruction, and it is not mixed itself; whether the other one is mixed later does not matter |
| `LiteralDedupPass.DeduplicateLiteralArrays` | assembler/assembly-emitter.cpp:1506-1523 | across all programs content is kept, mixed-use ids included, if and only if no instruction reaches an array that was given up, and sharing is exact if and only if no id is mixed |
| `AccGraph.CalmIsClean` | bytecode_optimizer/reg_acc_alloc.cpp:25-70 | a stretch the scan accepts holds no instruction that touches the accumulator, also where constants lost their write flag |
| `AccAlloc.RegAccAlloc.IsAccWriteBetween` | bytecode_optimizer/reg_acc_alloc.cpp:25-70 | true exactly when no calm linear stretch of any length joins the two instructions |
| `AccAlloc.RegAccAlloc.CanUserReadAcc` | bytecode_optimizer/reg_acc_alloc.cpp:103-136 | true exactly when the user reads the instruction once, as its accumulator operand, and the stretch between them is calm |
| `AccAlloc.RegAccAlloc.SetNeedLda` | bytecode_optimizer/reg_acc_alloc.cpp:171-184 | marks or unmarks the accumulator operand, and nothing where there is none |
| `AccAlloc.RegAccAlloc.MarkReaders` | bytecode_optimizer/reg_acc_alloc.cpp:224-236 | marks exactly the users that can read the accumulator and tells whether these are all real users, whatever the order of the users |
| `AccAlloc.RegAccAlloc.MarkAccForInstructions` | bytecode_optimizer/reg_acc_alloc.cpp:217-259 | the block is marked instruction by instruction as `Marked` says |
| `AccAlloc.RegAccAlloc.UpdateInstructionsAfterMark` | bytecode_optimizer/reg_acc_alloc.cpp:261-288 | an input that does not arrive in the accumulator loses its mark, and a constant one its write flag and the marks of its users |
| `AccAlloc.AllocatedSound` | bytecode_optimizer/reg_acc_alloc.cpp:217-288 | after any number of blocks every marked operand is reached from its producer along a stretch nothing touches |
| `AccAlloc.RegAccAlloc.RunImpl` | bytecode_optimizer/reg_acc_alloc.cpp:298-316 | the marks of the whole graph, with that property |
| `AccExact.AllocatedExactly` | bytecode_optimizer/reg_acc_alloc.cpp:217-311 | a result ends in the accumulator if and only if all its users but SaveStates read it there once with nothing in between and no later instruction takes it out; a constant loses its flag if and only if it does not end there; an operand needs no load if and only if it can be read so and no constant input of its reader took the mark away |
| `AccExact.OnlySaveStatesTake` | bytecode_optimizer/reg_acc_alloc.cpp:261-287 | of such results only SaveStates take any out of the accumulator |
| `AccExact.StaysWithoutSaveStates` | bytecode_optimizer/reg_acc_alloc.cpp:217-287 | a result that no SaveState has as first input ends in the accumulator exactly if all its users read it so |
| `AccExact.ReadersMarked` | bytecode_optimizer/reg_acc_alloc.cpp:227-236 | then its readers need no load, if their constant inputs stay too |
| `AccMeaning.ElisionRefines` | bytecode_optimizer/codegen.cpp:23-35 | at every moment of every run, skipping loads and stores of marked values gives every instruction the operands that loading and storing everywhere gives it |
| `Linearise.BytecodeGen.DoLda` | bytecode_optimizer/codegen.cpp:23-28 | a load is emitted exactly for a register that is not the accumulator |
| `Linearise.BytecodeGen.EmitJump` | bytecode_optimizer/codegen.cpp:110-134 | the jump goes to the fall-through successor of the block |
| `Linearise.BytecodeGen.IfEcma` | bytecode_optimizer/codegen.cpp:294-344 | encodes EQ and NE against a boolean constant on either side, fails for everything else |
| `Linearise.BytecodeGen.VisitIfImmZero` | bytecode_optimizer/codegen.cpp:358-374 | encodes EQ and NE against zero |
| `LineariseRuns.TestIsExact` | bytecode_optimizer/codegen.cpp:294-344 | with placed constants in their registers, the emitted test agrees with the comparison in every state where the value tested converts as it should, if and only if of two boolean constants the second is placed or is the first; then it agrees in no other state |
| `LineariseRuns.WholeBlockRuns` | bytecode_optimizer/codegen.cpp:66-134 | running the code of a block from its label executes its body and leaves by the exit its branch chooses |
| `Linearise.BytecodeGen.RunImpl` | bytecode_optimizer/codegen.cpp:66-108 | succeeds exactly when every comparison can be encoded; the list then is the code of the blocks in order |
| `LineariseShape.EmittedStands` | bytecode_optimizer/codegen.cpp:66-134 | position by position: the `nop` if there are try regions, then for each block its label, its end label if it closes a region, its body, its branch with a load unless the operand is in the accumulator, and its jump if it needs one |
| `LineariseShape.EndLabelsExactly` | bytecode_optimizer/codegen.cpp:69-79 | an end label stands right behind the label of its block, for just the blocks that close a region; `nop` stands only in front, if and only if there are try regions |
| `LineariseShape.LabelsOnce` | bytecode_optimizer/codegen.cpp:74-75 | every block's label is in the list exactly once |
| `LineariseShape.EncodedExactly` | bytecode_optimizer/codegen.cpp:294-374 | the list can be emitted if and only if every conditional has condition EQ or NE and every comparison a boolean constant |
| `LinearisePlaces.TargetIsStart` | bytecode_optimizer/codegen.cpp:66-108 | a jump to a block's label arrives where the code of that block starts |
| `LinearisePlaces.ListIsEmitted` | bytecode_optimizer/codegen.cpp:66-108 | the list whose runs are studied is the one the generator emits |
| `LinearisePlaces.EveryRunIsAGraphRun` | bytecode_optimizer/codegen.cpp:66-134 | after any number of steps the blocks visited, with their states, are a run of the graph from its first block, if no run of the graph comes to an unsound comparison |
| `LinearisePlaces.ListGoesOn` | bytecode_optimizer/codegen.cpp:66-134 | on the same condition the list reaches any number of blocks or stops in a block that returns |
| `LineProgram.SpecialRoundTrip` | libpandafile/file_items.cpp:1465-1478 | a special opcode reads back as the increments it encodes if and only if the 32-bit product did not wrap |
| `LineProgram.SpecialIsFound` | libpandafile/file_items.cpp:1465-1478 | where the product does not wrap, a special opcode is used if and only if some byte stands for both increments |
| `LineEmitter.FewestOps` | assembler/assembly-emitter.cpp:1819-1834 | one operation if some byte stands for both increments, two if the pc need not or can be advanced separately, else three |
| `LineEmitter.ReadNumberOps` | assembler/assembly-emitter.cpp:1819-1834 | however the increments are split, replaying adds one line entry at the advanced address |
| `LineBuild.Emitter.EmitNumber` | assembler/assembly-emitter.cpp:1819-1834 | emits the split that `ReadNumberOps` reads, for every branch |
| `LineBuild.Emitter.EmitLineNumber` | assembler/assembly-emitter.cpp:1836-1845 | a changed line flushes the pending pc increment, an unchanged one leaves it pending |
| `LineBuild.Emitter.EmitColumnNumber` | assembler/assembly-emitter.cpp:1847-1856 | a changed column flushes the pending pc increment and sets the column |
| `LineBuild.Emitter.EmitLocalVariable` | assembler/assembly-emitter.cpp:1778-1807 | start and end events are written at the current pc |
| `LineRoundTrip.TrackIns` | assembler/assembly-emitter.cpp:1883-1938 | decoder address plus pending increment stays the current pc, and all earlier instructions keep their line and column |
| `LineTables.TablesIns` | assembler/assembly-emitter.cpp:1883-1938 | the reader's tables have an entry exactly where the line of a real instruction, or of one that can throw, and where the column differs from the one before |
| `LineBuild.Emitter.CollectLocalVariable` | assembler/assembly-emitter.cpp:1858-1867 | the loop gathers a start and an end event for every variable whose register is one of the frame, from 0 up to the number of registers, and none for any other |
| `LineLocals.EventListIsOk` | assembler/assembly-emitter.cpp:1858-1881 | whatever order the sort leaves, every event of every variable is there exactly once |
| `LineLocals.LastEntry` | libpandafile/debug_info_extractor.cpp:108-122 | the entry the reader closes is that of the most recent start in the register |
| `LineLocals.TrackLocal` | assembler/assembly-emitter.cpp:1786-1807 | one event, in any order of events, opens its entry or closes the most recent one in its register, at the pc of its index |
| `LineOrder.RecoveredExactly` | assembler/assembly-emitter.cpp:1858-1881 | for any order by instruction: every variable is left closed at its own end if and only if the most recent start in the register of each end event is its own |
| `LineOrder.MatchedExactly` | assembler/assembly-emitter.cpp:1858-1881 | that holds if and only if no two variables are live in one register at the same time and at each instruction the ends in a register precede the starts |
| `LineSort.StrictWeakExactly` | assembler/assembly-emitter.cpp:1869-1880 | the comparator is a strict weak order exactly when no two events of one register with different starts meet an event of another register at one instruction |
| `LineSort.NothingInverted` | assembler/assembly-emitter.cpp:1869-1880 | under that condition an order without inverted neighbours has no inverted events at all |
| `LineSortExact.SortRecoversExactly` | assembler/assembly-emitter.cpp:1858-1881 | every order without inverted neighbours closes all variables by their own end events if and only if no two variables are live in one register at the same time and the comparator is a strict weak order on their events |
| `LineReportCases.ThreeMeetLosesOne` | assembler/assembly-emitter.cpp:1869-1880 | a function without overlaps, and an order without inverted neighbours, where the end of one variable closes another; the first is never closed and is reported up to the last address instead of its end |
| `LineSortExact.OverlapMissesOwnEnd` | assembler/assembly-emitter.cpp:1858-1881 | in every order, of two variables live in one register at the same time one is not closed by its own end event |
| `LineReportCases.NestedLosesOne` | libpandafile/debug_info_extractor.cpp:108-122 | of a variable and one nested in it, in one register, every order reports the inner one up to the end of the outer one, and the outer one exactly, though the comparator is a strict weak order |
| `LineReportCases.OverlapLosesNone` | libpandafile/debug_info_extractor.cpp:167-174 | two overlapping variables that end together are both reported exactly in every order without inverted neighbours, though not both are closed by their own ends |
| `LineRank.OrderIsSorted` | assembler/assembly-emitter.cpp:1869-1880 | orders that put a chosen start in front of the ends in its register, with an event of another register in between, have no inverted neighbours |
| `LineReport.VariableHasEntry` | libpandafile/debug_info_extractor.cpp:92-122 | in any order of the events every variable in a register of the frame has exactly one entry |
| `LineReport.EntryIsVariable` | libpandafile/debug_info_extractor.cpp:92-122 | every entry is a variable in a register of the frame, with its name and start, and the reader meets no unknown register |
| `LineReport.TableIsExact` | libpandafile/debug_info_extractor.cpp:92-122 | in any order the reader's table has exactly one entry for each variable in a register of the frame, with its name, register and start address, and none for any other |
| `LineAddress.InsAddress` | assembler/assembly-emitter.cpp:1836-1856 | the reader's address moves exactly at real instructions with a new line or column, to their pc |
| `LineAddress.LastPcIsGreatest` | libpandafile/debug_info_extractor.cpp:167-174 | the last address recorded is the greatest one of a real instruction with a new line or column and of the ends of the variables |
| `LineAddress.EventPcAtEnd` | assembler/assembly-emitter.cpp:1883-1938 | in any order by instruction the last event is where the last variable ends |
| `LineReport.ReportedExactly` | libpandafile/debug_info_extractor.cpp:167-174 | in any order a variable is reported with its exact range if and only if the last end in its register before the next start there has the address of its own end, which is not 0, or there is no such end behind address 0 and its own end is at the last address |
| `LineReport.AllReportedExactly` | libpandafile/debug_info_extractor.cpp:167-174 | in any order all entries of the finished table are exact if and only if that holds for all variables |
| `LineReportSorted.ClosedIsAchievable` | assembler/assembly-emitter.cpp:1858-1881 | an order without inverted neighbours leaves a variable closed only at an instruction, or open only, where the starts and ends of the function's variables allow it |
| `LineReportSorted.AchievableIsClosed` | assembler/assembly-emitter.cpp:1858-1881 | and for all that they allow there is such an order |
| `LineReportSorted.SortReportsExactly` | assembler/assembly-emitter.cpp:1858-1881 | every order without inverted neighbours has all ranges reported exactly if and only if each variable is, wherever the starts and ends of the function's variables allow it to be left closed or open |
| `LineBuild.Emitter.BuildLineNumberProgram` | assembler/assembly-emitter.cpp:1883-1938 | replayed, the program gives every real instruction its line (only throwing ones without debug information) and column, by tables with an entry exactly where these change; with any sort that orders the events by instruction, every variable has the entry that the order leaves it, and the reader ends at the last address recorded, as the conditions above have it |
| `DebugCursor.SkipToNextEntryIfNeeded` | abc2program/abc_code_processor.cpp:297-307 | a cursor on an entry moves to the last entry at or before the pc; an unset one does the same, except that it skips every entry of a table that starts behind the pc |
| `DebugCursor.FillLines` | abc2program/abc_code_processor.cpp:264-295 | one pass gives each instruction the last line entry at or before its pc |
| `DebugCursor.FillColumns` | abc2program/abc_code_processor.cpp:264-295 | the same for columns, with the default before the first entry |
| `DebugCursor.FillInsDebug` | abc2program/abc_code_processor.cpp:264-295 | emitted, replayed and looked up, every real instruction has its own line and column again |
| `TryBlocks.KeysAreDistinct` | assembler/assembly-emitter.cpp:1940-1980 | every range with a catch block is listed, and once |
| `TryBlocks.MakeOrder` | assembler/assembly-emitter.cpp:1940-1980 | ranges in order of first use, each with exactly its catch blocks in order |
| `TryBlocks.MakeOffsets` | assembler/assembly-emitter.cpp:1940-1980 | exactly the labels in use, each with the pc where it stands |
| `TryBlocks.BuildTryBlocks` | assembler/assembly-emitter.cpp:1982-2025 | one try block per range with its measured pcs and all handlers in order |
| `CodeTables.LabelMeasured` | assembler/assembly-emitter.cpp:1940-1980 | a label inserted for an index is measured at the pc of that instruction, or at the end of the code |
| `CodeTables.LabelPcIs` | assembler/assembly-emitter.cpp:1966-1981 | in any list a label in use gets the pc of its last place, or 0 if it stands nowhere |
| `TryRoundTrip.TriesComeBack` | assembler/assembly-emitter.cpp:1982-2025 | the measured table equals the original one if and only if its ranges are distinct and each has a handler |
| `TryRoundTrip.JumpsComeBack` | abc2program/abc_code_processor.cpp:163-179 | the distance from a jump to its label is the distance it had |
| `TryRoundTrip.InstructionStays` | abc2program/abc_code_processor.cpp:40-59 | every instruction is still there, behind its label, at its pc |
| `CodeProcessor.CodeProcessor.FillInsWithoutLabels` | abc2program/abc_code_processor.cpp:76-114 | the two maps are inverse to each other and list exactly the instructions; the jumps are found in order |
| `CodeProcessor.CodeProcessor.NeedToAddDummyEndIns` | abc2program/abc_code_processor.cpp:116-130 | true exactly when some handler reaches the end of the code |
| `CodeProcessor.CodeProcessor.FindIdx` | abc2program/abc_code_processor.cpp:140-151 | the listed index, or one past the last for a pc that is not listed |
| `CodeProcessor.CodeProcessor.AddJumpLabels` | abc2program/abc_code_processor.cpp:163-179 | every jump names the label of its target, and that label is wanted |
| `CodeProcessor.CodeProcessor.FillCatchBlocks` | abc2program/abc_code_processor.cpp:181-219 | the catch blocks of all try blocks in order, with all their labels wanted |
| `CodeProcessor.CodeProcessor.AddLabels` | abc2program/abc_code_processor.cpp:40-59 | each wanted label stands in front of its instruction, and every index in the pc map has moved by the labels before it |
| `CodeProcessor.CodeProcessor.FillProgramData` | abc2program/abc_code_processor.cpp:31-38 | the labelled list, the wanted labels and no others, all catch blocks, and the moved index map |
| `CodeProcessor.CodeProcessor.VariableRange` | abc2program/abc_code_processor.cpp:250-262 | a variable's pc range becomes the range between the moved indices of its ends |
| `CodeProcessor.VariableIndexIsExact` | abc2program/abc_code_processor.cpp:40-59 | the exact condition, for every variable of every function, under which its index has the variable's pc |
| `CodeProcessor.PcZeroIsRight` | abc2program/abc_code_processor.cpp:46-56 | without an entry for the end of the code, pc 0 is placed right if and only if there are no labels |
| `CodeProcessor.DisassembleAndEmit` | abc2program/abc_code_processor.cpp:31-38 | disassembling and emitting again returns the try table if and only if its ranges are distinct and each has a handler |
| `Annotations.StepKeepsValid` | assembler/meta.cpp:230-417 | every accepted attribute keeps an active element builder inside an active annotation builder |
| `Annotations.AnnotationMetadata.MeetExpRecordAttribute` | assembler/meta.cpp:245-257 | flushes both builders, then opens an annotation |
| `Annotations.AnnotationMetadata.MeetExpElementNameAttribute` | assembler/meta.cpp:279-297 | flushes the finished element, then opens the next; errors outside an annotation or behind an unfinished element |
| `Annotations.AnnotationMetadata.MeetExpElementValueAttribute` | assembler/meta.cpp:344-372 | adds a value of the element's type or reports why not |
| `Annotations.AnnotationMetadata.Meet` | assembler/meta.cpp:230-417 | the state after one attribute, error or not, with the builder invariant kept |
| `Annotations.AnnotationMetadata.ValidateData` | assembler/meta.cpp:419-430 | flushes what is finished and refuses what is not |
| `AnnotationGrammar.BuildersReadTheGrammar` | assembler/meta.h:295-506 | the builders fail exactly on streams the grammar rejects, and otherwise end empty with exactly the annotations the grammar reads |
| `AnnotationDocs.ParsedExactly` | assembler/meta.cpp:141-228 | the grammar reads a stream exactly if it is the print of a document in which every primitive value is read from its text, and every nested annotation is the first one before with its id |
| `AnnotationDocs.Load` | assembler/meta.cpp:230-430 | a whole stream is loaded if and only if it is such a print, and yields the annotations without an id that the document means |
| `ProgramDump.Dumper.GetFinalDumpIns` | abc2program/program_dump.cpp:368-385 | the instructions without labels, every label with the name of its position, every old index with its new one |
| `ProgramDump.Dumper.UpdateLabels4DumpIns` | abc2program/program_dump.cpp:405-423 | every jump names the position of its target |
| `ProgramDump.Dumper.UpdateCatchBlocks` | abc2program/program_dump.cpp:457-472 | every catch label names its position |
| `ProgramDump.Dumper.UpdateLocalVarMap` | abc2program/program_dump.cpp:526-538 | each register in use has the interval of its last variable, counted in instructions |
| `ProgramDump.InstructionShown` | abc2program/program_dump.cpp:368-423 | every instruction stands in the dump behind just those in front of it, and its jump is shown as the number of instructions in front of the first place of its label, or by name if there is none |
| `ProgramDump.CatchShown` | abc2program/program_dump.cpp:457-472 | catch blocks keep order and record, and each of their four labels is shown in the same way |
| `ProgramDump.VariableShown` | abc2program/program_dump.cpp:526-538 | a variable's start is the number of instructions in front of it, its length that of those inside |
| `ProgramDump.IntervalKept` | abc2program/program_dump.cpp:526-538 | a new interval is as long as the number of instructions in the old one |
| `ProgramDump.DumpIsCanonical` | abc2program/program_dump.cpp:368-472 | two functions have the same normalised instructions and catch labels if and only if they have the same instructions and targets, labels that lead nowhere compared by name, provided that none of these is written like an instruction index |
| `ProgramDump.CanonicalExactly` | abc2program/program_dump.cpp:368-472 | the dump stands for one such function only if and only if the function itself has no label that leads nowhere and is written like an index |
| `ProgramDump.UnresolvedLooksResolved` | abc2program/program_dump.cpp:405-423 | every function with such a label has the dump of a different function, in which no label is like that |
| `LiteralWorklist.Container.GetLiteralArrayById` | abc2program/abc_literal_array_processor.cpp:46-112 | tag and value of every literal in order; the arrays it names join the queue unless known |
| `LiteralWorklist.Container.FillLiteralArrayById` | abc2program/abc_class_processor.cpp:170-175 | an id already in the table keeps its entry |
| `LiteralWorklist.Complete` | abc2program/abc_class_processor.cpp:152-161 | what the worklist finds is exactly what is reachable from the seeds |
| `LiteralWorklist.Container.FillNestedLiteralArrays` | abc2program/abc_class_processor.cpp:152-161 | terminates on every finite reference graph, cyclic ones included; processes each reachable id once and no other |
| `ModuleArrays.FillEntrySize` | abc2program/abc_module_array_processor.cpp:172-191 | the five insertions at moving positions put each count in front of its own group |
| `ModuleArrays.FillProgramData` | abc2program/abc_module_array_processor.cpp:27-71 | the flattened vector of requests and counted groups |
| `ModuleArrays.SplitIsAll` | abc2program/abc_module_array_processor.cpp:27-71 | records in tag order are their groups one behind the other |
| `ModuleArrays.FlatIsInvertible` | abc2program/abc_module_array_processor.cpp:90-191 | decoding the vector gives the module back if and only if its request indices fit 16 bits |

## Left out

- RegEncoderPass.Encoder.RunImpl: is stated for range instructions with fewer than 256 operands, all of them real registers, because the range temporaries are counted in 8 bits; `RegEncoderLemmas.RangeReservationIsExact` shows that with more operands the reservation falls short.
- RegEncoderPass.Encoder.InsertSpills: the types and stack locations that spill moves carry are not modelled, only registers.
- DynamicCsePass.Cse.BuildKey: inputs are taken behind the casts that the source skips; value numbering and the dominator tree are inputs with the hypotheses of `InputOk`.
- DynamicCsePass.Cse.RunImpl: the later deletion of the given-up instructions by dead-code elimination is not modelled.
- LiteralDedupPass.DeduplicateLiteralArrays: ids shared between programs, cyclic tables and references out of a program are outside `Mergeable`; for them only termination and the table form hold.
- LiteralKeysExact.KeyIsExact: is stated for lengths below 2^32 and for tags that determine the kind of value.
- AccAlloc.RegAccAlloc.RunImpl: phis, calls and commutative users are not modelled, since where their operands end up depends on generated code.
- Linearise.BytecodeGen.RunImpl: comparisons with a nonzero immediate, exceptional edges and the bodies of ordinary instructions are not modelled; a body is a list of opaque instructions.
- LineariseRuns.TestIsExact: `jtrue` and `jfalse` are taken to test for the boolean itself and `istrue` and `isfalse` to convert by any truth function; what values the compared operands have is an input of the run theorems (`SoundRuns`).
- Linearise.BytecodeGen.VisitIfImmZero: conditions other than EQ and NE, which the source treats as unreachable, are excluded.
- LineBuild.Emitter.BuildLineNumberProgram: is stated for functions whose code is shorter than 2^32 / 15 bytes, because the product in a special opcode wraps there (`LineProgram.SpecialRoundTrip`), and for variables of positive length inside the function; the library's sort itself is a parameter.
- LineBuild.Emitter.EmitLocalVariable: names, signatures and their string offsets are one opaque name.
- CodeProcessor.CodeProcessor.FillProgramData: is stated for pcs on instruction boundaries or at the end of the code and code shorter than 2^32 bytes; for a pc inside an instruction the source takes the end of the code.
- ProgramDump.Dumper.UpdateCatchBlocks: maps the end label of a handler like the other three, although the printed text leaves it out.
- Annotations.AnnotationMetadata.Meet: the texts of types and values are read by a parameter that says which texts are values of which type; error messages are not modelled.
- LiteralWorklist.Container.FillNestedLiteralArrays: which array the set yields first is any choice; the tags and values of literals are opaque.
- File access, logging, options, the instruction parser, data accessors, the register allocator and text serialisation are not part of this model.
