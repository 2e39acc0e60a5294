# Agam code generation, verified

A Dafny model of the code generation back end of the Agam compiler (`crates/backends/agam_codegen`), of
the numeric kernels it links in, and of the tiering engine of its JIT. Each module is proved against a
specification that is independent of the code: a decoder written from a published binary format, a small
machine that runs the emitted code, the mathematical definition of a kernel, or a history of events.

- **WebAssembly** (`Leb128`, `Wire`, `WasmModule`, `WasmBuilder`, `WasmMachine`, `WasmLowering`,
  `WasmNarrowing`, `WasmEmission`, `WasmValidation`, `WasmTyping`, `WasmExports`, `WasmGaps`): integers,
  sections and modules read back by the grammar of the WebAssembly Core Specification 1.0 (sections 5.2.2,
  5.2.4, 5.5.2, 5.5.4, 5.5.6, 5.5.8, 5.5.10, 5.5.13) and validate by its rules (sections 3.3, 3.4); the
  lowering from SSA to a stack machine preserves meaning, end to end from MIR to bytes to execution.
- **C** (`CTypes`, `CInference`, `CAnalysis`, `CTypeRules`, `CRuntime`, `CMarks`, `CCopies`, `CStructs`,
  `CReturns`, `CMachine`, `CLiterals`, `CEmission`, `CNames`, `CLegal`, `CTyping`, `CApart`, `CKinds`,
  `CValues`, `CSimulation`, `CControl`, `CCalls`, `CCorrectness`, `CFit`, `CDriver`, `CExample`, `CMixed`,
  `CGaps`, `CCopyGaps`): consistency, termination and typing rules of the whole-module type inference, when the
  emitted program compiles, and a simulation of every MIR run by the emitted labelled C.
- **MIR** (`Mir`, `MirEval`, `MirMachine`, `MirKinds`, `MirRuns`): the operations as declared in
  `crates/middle/agam_mir/src/ir.rs` and evaluated in `eval.rs`, as a machine with call stack, values and
  locals. What a local holds between allocation, store and load follows the JIT
  (`crates/backends/agam_jit/src/lib.rs`, lines 1054-1080).
- **SPIR-V** (`Spirv`, `SpirvReading`), **linking** (`LinkIndex`, `FatBinary`), **struct layout** (`StructLayout`,
  `StableSort`), **GPU** (`WarpReduce`, `Occupancy`, `Tuner`), **runtime kernels** (`DataFrames`, `Tensors`),
  **tiering** (`Tiering`). `Words` and `Division` hold machine words and integer division, `Options` the
  result type of everything that can fail, `Sequences` sequences without repetition.

`dafny verify dfyconfig.toml` checks the project.

## Where the code does less than it seems to

Each of these is proved, by an input on which the code goes wrong or by the exact condition under which it
does not.

- The WebAssembly lowering has no case for `And` and `Or` and emits an addition: right only when both
  operands are false, respectively not both true (`OperatorExact`, `ConjunctionAdds`). Signed division of the
  least integer by -1 traps.
- An operand order the stack cannot express is swapped silently, which is harmless exactly for the operators
  that commute (`ParamLeftExactly`, `DifferenceSwaps`); the lowering theorems therefore ask for a stack
  discipline, with that order allowed for those operators.
- A function called `memory`, or two functions of one name, make the WebAssembly module invalid
  (`ExportNamesDistinct`).
- The C type inference need not stop: three mutually recursive functions keep it changing for ever
  (`RingNeverQuiet`). It stops on every call graph without cycles (`AcyclicStops`).
- A `let` becomes a declaration under the source name, so two of one name in a function, in whatever scopes,
  declare one C variable twice (`SecondAllocationRejected`, `TwoLetsRejected`). `EmittedLegal` says exactly
  which functions come out as legal C.
- A C local that copies another allocated local is typed as a structure. Its declaration is legal, but storing
  an integer in it is not: `StructsExactly` says which names become structures, `StructsApartExactly` and
  `StoreRejectedExactly` when C rejects the function and which assignment, `CopyRejected` shows one. Where
  copies go both ways, everything is a structure and compiles (`RelayApart`).
- A function that returns integers and booleans is typed as returning a boolean, and its integers come back
  unchanged exactly when they fit in 32 bits (`MixedReturnsAreBool`, `MixedReturnLosesBits`,
  `MixedRunTruncates`).
- Mangling lets two locals meet in one C variable, exactly when a name holds `_`, `.` or `::`
  (`SharedExactly`).
- MIR arithmetic wraps, signed C arithmetic does not: the simulation covers the runs on which every emitted
  operator is defined in C, and `IntInfixExact` says exactly which operands those are. `main` returns through
  C's `int`.
- Strings are joined as the interpreter joins them, but the emitted C compares them with `==`, which compares
  addresses; the simulation gives such a comparison no meaning. A float literal without a fraction prints as a C
  integer, which is right because its variable is declared a float (`LiteralConverts`).
- Backslashes, quotes, newlines and tabs of a string are escaped, a carriage return is not, and breaks
  the literal (`LiteralReadsBack`).
- A call of `str_concat` by its own name is declared as an integer, though the routine returns a string
  (`RuntimeCallTyped`).
- SPIR-V word counts overflow silently at 65535 operands, strings with a NUL are cut short, and nothing
  checks either (`InstructionRoundTrip`, `StringRoundTrip`).
- The struct layout is optimal when sizes are multiples of power-of-two alignments, and more generally
  whenever the greedy order is tight (`TightIsOptimal`). A size that is no multiple of its alignment can make
  it lose (`LosesExactly`, `OddSizesLose`).
- The emitted warp reduction calls itself a butterfly, but a butterfly would leave the sum in every
  lane: lane 0 is the only one sure to receive it (`SumInLaneZeroOnly`), and lane 31 always ends with 32
  times its own value (`TopLaneDoubles`).
- Launch tuning truncates the element count to 32 bits, and then the grid covers too little (`GridCovers`).
- Loop counters survive a deoptimization, so a function deoptimized in a hot loop is promoted again at the
  next back-edge (`DeoptDoesNotCool`).
- The tuner panics on an empty population unless it runs for no generations (`SearchEnds`).

## Model

| member | source | states |
|---|---|---|
| `Leb128.EncodeU32Leb128` | crates/backends/agam_codegen/src/wasm.rs:95-107 | the loop appends exactly the unsigned LEB128 form the round-trip and shortest-form theorems are about |
| `Leb128.EncodeI32Leb128` | crates/backends/agam_codegen/src/wasm.rs:109-122 | the same for the signed loop, arithmetic shift included |
| `Leb128.U32RoundTrip` | crates/backends/agam_codegen/src/wasm.rs:95-107 | every u32 reads back by the grammar of section 5.2.2, and the bytes behind it are left untouched |
| `Leb128.I32RoundTrip` | crates/backends/agam_codegen/src/wasm.rs:109-122 | every i32 reads back, sign extended, and the bytes behind it are left untouched |
| `Leb128.U32Shortest` | crates/backends/agam_codegen/src/wasm.rs:95-107 | at most five bytes, and no byte string the grammar reads as the same u32 is shorter |
| `Leb128.I32Shortest` | crates/backends/agam_codegen/src/wasm.rs:109-122 | the same for i32 |
| `WasmBuilder.EncodeString` | crates/backends/agam_codegen/src/wasm.rs:124-127 | a name is its length and its bytes |
| `WasmBuilder.EmitSection` | crates/backends/agam_codegen/src/wasm.rs:268-272 | identifier, byte length, contents |
| `WasmBuilder.WasmModuleBuilder.AddType` | crates/backends/agam_codegen/src/wasm.rs:160-167 | types stay pairwise different; the index returned is that of the given type |
| `WasmBuilder.WasmModuleBuilder.AddFunction` | crates/backends/agam_codegen/src/wasm.rs:169-174 | functions and code grow together; the index returned is that of the new function |
| `WasmBuilder.WasmModuleBuilder.AddExport` | crates/backends/agam_codegen/src/wasm.rs:176-182 | the export is appended, nothing else changes |
| `WasmBuilder.WasmModuleBuilder.BuildBytes` | crates/backends/agam_codegen/src/wasm.rs:189-265 | the section loops write exactly the bytes that `ModuleRoundTrip` reads back |
| `WasmModule.ModuleRoundTrip` | crates/backends/agam_codegen/src/wasm.rs:189-272 | reading the bytes by the section grammar gives back types, function type indices, memory, exports (the memory's own last) and code, with every byte consumed |
| `WasmModule.SectionRoundTrip` | crates/backends/agam_codegen/src/wasm.rs:268-272 | a section reads back whatever follows it, and an absent section is skipped |
| `WasmMachine.InstrRoundTrip` | crates/backends/agam_codegen/src/wasm.rs:306-345 | each instruction byte form reads back as that instruction |
| `WasmMachine.BodyRoundTrip` | crates/backends/agam_codegen/src/wasm.rs:293-359 | a function body reads back as the instructions it was made of, and the end opcode is found in the right place |
| `WasmEmission.EmitFunctionBody` | crates/backends/agam_codegen/src/wasm.rs:293-357 | the three nested loops write the body of the lowered function, whose meaning the next rows give |
| `WasmLowering.OperatorExact` | crates/backends/agam_codegen/src/wasm.rs:319-337 | for every operator and all 32-bit operands the interpreter accepts, the opcode chosen computes the right value if and only if the stated condition on the operands holds |
| `WasmLowering.OperandsFetched` | crates/backends/agam_codegen/src/wasm.rs:311-318 | both operands reach the top of the stack, in one order or the other |
| `WasmLowering.InstrSimulates` | crates/backends/agam_codegen/src/wasm.rs:303-348 | one instruction keeps parameters, operand stack and SSA values in agreement |
| `WasmLowering.LoweringCorrect` | crates/backends/agam_codegen/src/wasm.rs:281-363 | running the lowered code of a disciplined single-block function returns what MIR evaluation in 32-bit arithmetic returns, for every argument list |
| `WasmNarrowing.NarrowExactly` | crates/backends/agam_codegen/src/wasm.rs:319-337 | of the operators on integers, exactly addition, subtraction, multiplication and the three bitwise ones commute with dropping the high 32 bits of any operands |
| `WasmNarrowing.NarrowBinOp` | crates/backends/agam_codegen/src/wasm.rs:319-337 | the other operators commute with it on operands that fit in 32 bits, and shifts on counts below 32 |
| `WasmNarrowing.LoweringAgreesWithInterpreter` | crates/middle/agam_mir/src/eval.rs:361-444 | the lowered code returns the low half of what the 64-bit interpreter returns, for every argument list on which the run stays narrow |
| `WasmEmission.EmitWasmBinary` | crates/backends/agam_codegen/src/wasm.rs:277-366 | the binary is that of one page of memory and, for each function in order, its interned type, its body and its export; the next rows say what such a binary is |
| `WasmEmission.EmittedModuleDecodes` | crates/backends/agam_codegen/src/wasm.rs:277-366 | in the decoded binary, function i has its own name and its own code, and its type takes one i32 for each of its parameters and yields one i32; there is one memory of one page, exported as `memory` |
| `WasmEmission.EmittedModuleRuns` | crates/backends/agam_codegen/src/wasm.rs:277-366 | compile, decode, call: with locals laid out by the decoded type, function i of the binary returns the low half of the interpreter's result, for every argument list on which the run stays narrow |
| `WasmTyping.LoweredValid` | crates/backends/agam_codegen/src/wasm.rs:281-363 | the lowered body of a disciplined function validates (sections 3.3 and 3.4) against every type of as many i32 parameters and one i32 result: local indices in range, operands present, one i32 at the return |
| `WasmExports.EmittedModuleValid` | crates/backends/agam_codegen/src/wasm.rs:277-366 | the decoded binary of disciplined functions is valid as a whole if and only if the function names are all different and none of them is `memory` |
| `WasmLowering.ChainLowersAsOneBlock` | crates/backends/agam_codegen/src/wasm.rs:302-355 | several blocks of which only the last returns are lowered like the one block they make when run together |
| `WasmGaps.ConjunctionAdds` | crates/backends/agam_codegen/src/wasm.rs:336 | `true && true` on a disciplined function comes out as 2 |
| `WasmLowering.CommutesExactly` | crates/backends/agam_codegen/src/wasm.rs:319-337 | exchanging the two operands of the opcode chosen never matters if and only if the operator is one of addition, multiplication, `==`, `!=`, the bitwise ones, and the two that fall back to addition |
| `WasmLowering.ParamLeftExactly` | crates/backends/agam_codegen/src/wasm.rs:311-337 | with a parameter left of the value on top of the stack, the emitted code is right for all operands if and only if the operator commutes |
| `WasmGaps.DifferenceSwaps` | crates/backends/agam_codegen/src/wasm.rs:311-318 | one such function: a - 5 comes out as 5 - a for every a |
| `WasmExports.Utf8Injective` | crates/backends/agam_codegen/src/wasm.rs:124-127 | different names have different bytes |
| `WasmExports.ExportNamesDistinct` | crates/backends/agam_codegen/src/wasm.rs:231-251 | the export names of the emitted module are all different if and only if the function names are and none of them is `memory` |
| `CAnalysis.AnalyzeFunction` | crates/backends/agam_codegen/src/c_emitter.rs:99-308 | the seeding and inference loops compute the layout the inference theorems are about |
| `CAnalysis.AnalyzeOnce` | crates/backends/agam_codegen/src/c_emitter.rs:81-89 | one pass analyses the functions in order, each seeing what the pass has found so far |
| `CAnalysis.AnalyzeModule` | crates/backends/agam_codegen/src/c_emitter.rs:67-97 | stops after the first quiet pass and returns its layouts and types; on unique names and calls nested at most h deep it stops within h + 2 passes, whatever the order of the functions |
| `CInference.CallsAgreeWithCallees` | crates/backends/agam_codegen/src/c_emitter.rs:67-97 | when the loop has stopped, every call of a module function that is no builtin has exactly the return type of the callee's final layout |
| `CInference.PassNames` | crates/backends/agam_codegen/src/c_emitter.rs:67-97 | the type table always has exactly the module's functions as keys |
| `CInference.EntrySettles` | crates/backends/agam_codegen/src/c_emitter.rs:67-97 | on a ranked call graph, a function's entry never changes again once the passes outnumber its rank |
| `CInference.AcyclicStops` | crates/backends/agam_codegen/src/c_emitter.rs:67-97 | with calls nested at most h deep, the pass after h + 1 others changes nothing |
| `CInference.RingNeverQuiet` | crates/backends/agam_codegen/src/c_emitter.rs:67-97 | on three functions that call each other in a ring every pass changes something: the loop never ends |
| `MirRuns.RunKinded` | crates/middle/agam_mir/src/eval.rs:114-444 | in a module whose text respects its kinds, every value and local in every state of every run, callers included, is of its kind, and so is the result |
| `CFit.RunTyped` | crates/backends/agam_codegen/src/c_emitter.rs:67-308 | whatever the inference settles on in such a module, every value a run computes, every local it sets and its result are of the C type inferred: a float is typed Float and nothing else is, a string Str, an integer Int, a boolean Bool or Int |
| `CMixed.LabelCovered` | crates/backends/agam_codegen/src/c_emitter.rs:67-1262 | a function that multiplies floats and joins strings meets every condition of the inference and simulation theorems |
| `CTypeRules.EveryResultTyped` | crates/backends/agam_codegen/src/c_emitter.rs:209-308 | in the finished layout of any function with unique results, every operation obeys its typing rule on the final types of its operands: tests are booleans, floats and handles dominate arithmetic, a string absorbs what is added, a phi has the widest type of its entries, a known local keeps one type unless structures are stored in it |
| `CTypeRules.ReturnIsWidest` | crates/backends/agam_codegen/src/c_emitter.rs:294-306 | the return type is the widest of the types returned, in whatever order the blocks stand |
| `CTypeRules.PrimitiveTypes` | crates/middle/agam_sema/src/types.rs:303-332 | the C type of each primitive type, number by number |
| `CRuntime.RuntimeCallTyped` | crates/backends/agam_codegen/src/c_emitter.rs:222-230 | a call of a routine the runtime offers goes to that routine, and is declared with the return type of its prototype if and only if the routine is not the string concatenation |
| `CRuntime.EffectTyped` | crates/backends/agam_codegen/runtime/effect_prelude.c:10-118 | an operation of an effect the runtime implements is declared with the return type of its prototype |
| `CMarks.OpenedAreStructures` | crates/backends/agam_codegen/src/c_emitter.rs:111-201 | a value that is the operand of a field access, a tag read or a payload read, and the local it is loaded from, have a structure type in the finished layout |
| `CMarks.FirstPassMarks` | crates/backends/agam_codegen/src/c_emitter.rs:111-201 | after the seeding pass such a local has one of the structure types the operations of the function bring in: an enumeration where only tags and payloads are at work, a structure where only fields are |
| `CMarks.StoredLoadsTyped` | crates/backends/agam_codegen/src/c_emitter.rs:172-270 | a local that is stored a construction, or a load of an allocated local, is a structure wherever it is loaded, even further up |
| `CStructs.StructsExactly` | crates/backends/agam_codegen/src/c_emitter.rs:99-308 | in a function of simple operations the final layout types exactly those values and locals as structures that structures flow into: from locals marked as copies and from calls that return one, along copies, loads and stores, in the order of the text |
| `CStructs.StructsExactlyWhenCopied` | crates/backends/agam_codegen/src/c_emitter.rs:99-308 | where no call returns a structure, some local is typed as one if and only if a local that is no parameter is stored the marked result of a load |
| `CStructs.StructExactlyWhenStoredLoaded` | crates/backends/agam_codegen/src/c_emitter.rs:172-270 | the special case in terms of stores alone: where parameters are never stored to, locals are allocated above their loads and stored values are loaded or computed, a local becomes a struct if and only if some store to it stores a load of an allocated local |
| `CCopies.CopiedDirectly` | crates/backends/agam_codegen/src/c_emitter.rs:172-247 | where parameters are never stored to, the locals the seeding loop marks as copies are those some store gives a load of an allocated local |
| `CApart.StructsApartExactly` | crates/backends/agam_codegen/src/c_emitter.rs:736-1262 | no line of the emitted function converts, operates on, passes or returns a structure as something else if and only if the flow of structures agrees at every load, store and return and reaches no operator, call, branch or switch |
| `CApart.ModuleApartExactly` | crates/backends/agam_codegen/src/c_emitter.rs:67-1262 | the same for the layouts the inference loop ends with, in every module of simple operations |
| `CApart.StoreApart` | crates/backends/agam_codegen/src/c_emitter.rs:934-950 | the assignment a store prints type-checks if and only if structures flow into both its value and its local's variable or into neither |
| `CApart.StoreRejectedExactly` | crates/backends/agam_codegen/src/c_emitter.rs:934-950 | in terms of stores alone: the assignment to y is rejected if and only if some store to y stores a load of an allocated local, and this value is not a load of a local that is stored such a load too |
| `CApart.LoneCopyRejected` | crates/backends/agam_codegen/src/c_emitter.rs:172-247 | copying an allocated local that is not itself a copy always prints a rejected assignment |
| `CApart.UncopiedApart` | crates/backends/agam_codegen/src/c_emitter.rs:99-308 | without copied locals and calls that return structures nothing is mixed |
| `CCopyGaps.CopyRejected` | crates/backends/agam_codegen/src/c_emitter.rs:934-969 | `let x = 1; let y = x; return y` declares `y` as a structure and assigns an integer to it |
| `CCopyGaps.RelayApart` | crates/backends/agam_codegen/src/c_emitter.rs:934-969 | `let x; let y = x; x = y; return x` makes both locals structures, and its C is legal and mixes nothing |
| `CReturns.MixedReturnsAreBool` | crates/backends/agam_codegen/src/c_emitter.rs:293-306 | when the returned values are typed as integers and booleans, the return type inferred is boolean if and only if one of them is boolean |
| `CReturns.MixedReturnLosesBits` | crates/backends/agam_codegen/src/c_emitter.rs:1219-1262 | the emitted return of an integer in such a function yields the integer if and only if it fits in 32 bits, and its low half otherwise |
| `CGaps.MixedReturnsWide` | crates/middle/agam_mir/src/eval.rs:114-352 | the MIR run of `if c { return 4294967297 } return true` on `true` returns the integer |
| `CGaps.MixedRunTruncates` | crates/backends/agam_codegen/src/c_emitter.rs:614-1262 | the emitted C of that function, on the same argument and with the layout the inference gives it, returns 1 |
| `CNames.DecimalInjective` | crates/backends/agam_codegen/src/c_emitter.rs:789-804 | labels and value names of different numbers differ |
| `CNames.ValueNamesDistinct` | crates/backends/agam_codegen/src/c_emitter.rs:806-830 | different SSA ids have different C variables |
| `CNames.SpacesDisjoint` | crates/backends/agam_codegen/src/c_emitter.rs:736-787 | no value, local or parameter variable shadows one of another kind |
| `CNames.SharedExactly` | crates/backends/agam_codegen/src/c_emitter.rs:1336-1338 | some other local gets the same C variable if and only if the name holds `_`, `.` or `::` |
| `CNames.ApartExactly` | crates/backends/agam_codegen/src/c_emitter.rs:1336-1338 | adding the name to a set whose variables are pairwise different always keeps them so if and only if the name holds none of `_`, `.`, `::` |
| `CNames.MangledIdentifiers` | crates/backends/agam_codegen/src/c_emitter.rs:1332-1338 | the C names of functions and locals are made of letters, digits and underscores if and only if the source names are such identifiers joined by dots and double colons |
| `CLiterals.LiteralReadsBack` | crates/backends/agam_codegen/src/c_emitter.rs:1340-1345 | C reads the escaped literal back as the text if and only if the text holds no NUL and no carriage return |
| `CLegal.EmittedLegal` | crates/backends/agam_codegen/src/c_emitter.rs:736-1262 | the C function is legal (every variable declared once, and above its uses; every label placed once; every goto to a label; switch cases different) if and only if in the MIR values and blocks are numbered uniquely, no two parameters or allocations meet in one variable, everything is defined above its uses and every jump has its block |
| `CGaps.SecondAllocationRejected` | crates/backends/agam_codegen/src/c_emitter.rs:951-969 | a second allocation whose name mangles like an earlier one makes the C function illegal, wherever the two stand |
| `CGaps.TwoLetsRejected` | crates/middle/agam_mir/src/lower.rs:222-250 | `if c { let t = 1; return t } let t = 2; return t` is such a function |
| `CTyping.EmittedProgramLegal` | crates/backends/agam_codegen/src/c_emitter.rs:614-734 | the emitted program is legal (functions named apart, each of them legal, calls with as many arguments as the prototype of the function they reach) if and only if the same holds of the module: compilable functions, names that mangling keeps apart, calls that match |
| `CDriver.AppendBlock` | crates/backends/agam_codegen/src/c_emitter.rs:789-804 | a block is its label, its instructions in order and its terminator |
| `CDriver.FunctionBody` | crates/backends/agam_codegen/src/c_emitter.rs:736-787 | parameter aliases first, then the blocks in order |
| `CDriver.EmitFunctions` | crates/backends/agam_codegen/src/c_emitter.rs:614-734 | every function is emitted, in order, functions of one name included |
| `CDriver.EmitC` | crates/backends/agam_codegen/src/c_emitter.rs:614-734 | inference and emission together: the output is always the emitted program of the layouts; when the inference stops on unique names, those are the ones the simulation theorems are about |
| `CValues.IntInfixExact` | crates/backends/agam_codegen/src/c_emitter.rs:1301-1322 | on two 64-bit integers the C operator is defined and yields the MIR value if and only if a condition on operator and operands holds: no signed overflow, shift count in range, no least integer divided by -1 |
| `CValues.InfixEvaluates` | crates/middle/agam_mir/src/eval.rs:361-444 | on two integers, two floats or two booleans for which C defines it, the operator printed gives what the interpreter gives, computed or compared |
| `CValues.ConcatEvaluates` | crates/backends/agam_codegen/runtime/common_prelude.c:21-28 | the concatenation routine called on the two operands in order yields the string the interpreter yields |
| `CSimulation.ExprYields` | crates/backends/agam_codegen/src/c_emitter.rs:806-969 | the right-hand side printed for a simple operation evaluates to the interpreter's value, represented at the inferred type; on two strings it is the left one followed by the right one |
| `CControl.LabelFindsBlock` | crates/backends/agam_codegen/src/c_emitter.rs:789-804 | a goto to a block's label reaches the code of the first block with that number |
| `CSimulation.SimpleSimulates` | crates/backends/agam_codegen/src/c_emitter.rs:806-969 | the lines of one simple instruction on integers, booleans, floats, strings and units leave the C variables in agreement with SSA values and locals |
| `CControl.JumpSimulates` | crates/backends/agam_codegen/src/c_emitter.rs:1219-1262 | jump, branch and switch go to the label of the block the MIR goes to, values and locals unchanged |
| `CCalls.EntrySimulates` | crates/backends/agam_codegen/src/c_emitter.rs:736-787 | entering a function binds the parameters, runs the aliases and reaches the entry block |
| `CCorrectness.CallSimulates` | crates/backends/agam_codegen/src/c_emitter.rs:890-920 | a call line starts the callee with the values of its arguments |
| `CCorrectness.ReturnSimulates` | crates/backends/agam_codegen/src/c_emitter.rs:1219-1262 | a return line resumes the caller with the value |
| `CCorrectness.StepSimulates` | crates/backends/agam_codegen/src/c_emitter.rs:736-1262 | each MIR step is matched by one or more C steps, keeping values, locals, call stack and visited blocks in agreement |
| `CCorrectness.RunSimulates` | crates/backends/agam_codegen/src/c_emitter.rs:736-1262 | so is every finite run, loops and recursion included |
| `CCorrectness.ProgramCompiles` | crates/backends/agam_codegen/src/c_emitter.rs:614-1262 | a C compiler takes every program within reach of the simulation: it is legal, and no function mixes structures with anything else |
| `CCorrectness.EmittedProgramSimulates` | crates/backends/agam_codegen/src/c_emitter.rs:614-1262 | from the start of any function, for any number of MIR steps, the emitted program compiles and visits the same blocks in the same order with the same values and locals, and ends when the MIR run ends |
| `CCorrectness.EmittedProgramReturns` | crates/backends/agam_codegen/src/c_emitter.rs:614-1262 | a MIR run that returns is a run of the compiling C program that returns the same result after the same block sequence |
| `CFit.InferenceFits` | crates/backends/agam_codegen/src/c_emitter.rs:67-308 | the layouts of a quiet pass put a module of integers, booleans, floats, strings and units within reach of the simulation, functions that return an integer on one path and fall off the end on another included |
| `CFit.CompiledModuleSimulates` | crates/backends/agam_codegen/src/c_emitter.rs:67-1262 | inference, emission, compilation and execution together, for every run of every function of such a module |
| `CExample.CountdownCovered` | crates/backends/agam_codegen/src/c_emitter.rs:67-1262 | a function as lowered, with its trailing unit return, that copies its parameter into a local and counts it down meets every condition of the inference and simulation theorems |
| `StructLayout.SortFieldsSorted` | crates/backends/agam_codegen/src/layout_opt.rs:63-69 | of any two fields of the order, the first has the larger alignment, or the same and at least the size; fields equal in both keep their declaration order |
| `StructLayout.GreedyPacks` | crates/backends/agam_codegen/src/layout_opt.rs:71-84 | on power-of-two alignments with sizes a multiple of them, every field of the sorted order lands aligned with no gap before it |
| `StructLayout.GreedyIsOptimal` | crates/backends/agam_codegen/src/layout_opt.rs:62-90 | the greedy size is the sum of the sizes rounded up to the widest alignment, and no other order of the fields is smaller |
| `StructLayout.OptimizeLayout` | crates/backends/agam_codegen/src/layout_opt.rs:62-106 | the report: the sorted names, the size of that order, its padding beyond the sum of sizes, and the least number of cache lines that hold it |
| `StructLayout.NoGapsExactlyWhenTight` | crates/backends/agam_codegen/src/layout_opt.rs:71-84 | whatever the sizes and alignments, an order wastes nothing before its end if and only if each alignment divides the sizes before the field |
| `StructLayout.TightIsOptimal` | crates/backends/agam_codegen/src/layout_opt.rs:62-90 | whenever the greedy order wastes nothing inside, no order of the fields is smaller, whatever the sizes and alignments |
| `StructLayout.LosesExactly` | crates/backends/agam_codegen/src/layout_opt.rs:62-90 | among fields whose sizes are multiples of power-of-two alignments, one more field of power-of-two alignment never makes the greedy order lose if and only if its size is a multiple of its alignment |
| `StructLayout.OddSizesLose` | crates/backends/agam_codegen/src/layout_opt.rs:62-90 | for three fields one of whose sizes is no multiple of its alignment, the greedy order takes 16 bytes and another 12 |
| `LinkIndex.ModuleSummaryIndex.ComputeReachableFunctions` | crates/backends/agam_codegen/src/link_opt.rs:113-137 | the worklist ends and returns exactly the names at the end of a call path from a root or exported function, cycles and unregistered callees included |
| `LinkIndex.ModuleSummaryIndex.EliminateDeadFunctions` | crates/backends/agam_codegen/src/link_opt.rs:140-154 | returns exactly the unreachable registered names, without duplicates; survivors keep their summaries |
| `LinkIndex.ModuleSummaryIndex.RegisterFunction` | crates/backends/agam_codegen/src/link_opt.rs:108-110 | registers under the summary's own name, replacing an earlier registration |
| `LinkIndex.ClosedHoldsReachable` | crates/backends/agam_codegen/src/link_opt.rs:113-137 | the reachable names are the least set with the entry points and all callees of its members |
| `LinkIndex.PathsPreserved` | crates/backends/agam_codegen/src/link_opt.rs:140-154 | a sequence of calls is possible before elimination if and only if it is possible after |
| `LinkIndex.ReachabilityPreserved` | crates/backends/agam_codegen/src/link_opt.rs:140-154 | elimination changes nothing about what is reachable |
| `LinkIndex.NoCalleeLost` | crates/backends/agam_codegen/src/link_opt.rs:140-154 | no survivor loses a registered callee |
| `LinkIndex.SecondPassIdle` | crates/backends/agam_codegen/src/link_opt.rs:140-154 | a second elimination removes nothing |
| `LinkIndex.SurvivesExactly` | crates/backends/agam_codegen/src/link_opt.rs:113-154 | a function survives if and only if it is a root, is exported, or is among the callees of a survivor |
| `LinkIndex.SurvivorsAreLeast` | crates/backends/agam_codegen/src/link_opt.rs:140-154 | every set of names closed under entry points and registered callees contains the survivors, so nothing more could be removed |
| `FatBinary.FatBinaryBundle.AddArtifact` | crates/backends/agam_codegen/src/link_opt.rs:41-52 | appends the entry |
| `FatBinary.FatBinaryBundle.Serialize` | crates/backends/agam_codegen/src/link_opt.rs:55-74 | header and entry loop write the bytes that `BundleRoundTrip` reads back |
| `FatBinary.BundleRoundTrip` | crates/backends/agam_codegen/src/link_opt.rs:55-74 | reading the bytes by a decoder with the magic number, the version and the target numbers written out gives back the entries in order, with nothing left over, if and only if every length and the count fit in 32 bits |
| `FatBinary.FindPayload` | crates/backends/agam_codegen/src/link_opt.rs:77-82 | the payload of the first entry for the target; none only when there is no such entry |
| `FatBinary.ShippedLookup` | crates/backends/agam_codegen/src/link_opt.rs:55-82 | looking a target up in the decoded bundle finds the artifact first added for it |
| `WarpReduce.EmittedFoldsAll` | crates/backends/agam_codegen/src/gpu_emitter.rs:1104-1117 | the ten emitted instructions run on any warp, define the result register and leave the other values alone |
| `WarpReduce.FoldKeepsClasses` | crates/backends/agam_codegen/src/gpu_emitter.rs:1104-1117 | after the round with offset d, lanes below d hold the wrapping sums of their residue classes modulo d |
| `WarpReduce.WarpSum` | crates/backends/agam_codegen/src/gpu_emitter.rs:1104-1117 | lane 0 of the result holds the 32-bit wrapping sum of all 32 lanes, for every input |
| `WarpReduce.SumInLaneZeroOnly` | crates/backends/agam_codegen/src/gpu_emitter.rs:1104-1117 | a lane ends with the sum of all lanes on every warp if and only if it is lane 0; the emitted comment says butterfly |
| `WarpReduce.TopLaneDoubles` | crates/backends/agam_codegen/src/gpu_emitter.rs:1106 | lane 31 ends with 32 times its own value |
| `Spirv.EncodeString` | crates/backends/agam_codegen/src/spirv.rs:202-219 | the shift-and-or loop writes the words of the literal string |
| `Spirv.StringRoundTrip` | crates/backends/agam_codegen/src/spirv.rs:202-219 | a string reads back by the rule of section 2.2.1 if and only if it holds no NUL |
| `Spirv.StringWordsLength` | crates/backends/agam_codegen/src/spirv.rs:202-219 | a string of n bytes takes n / 4 + 1 words |
| `Spirv.FirstWordSplits` | crates/backends/agam_codegen/src/spirv.rs:150-155 | the first word holds the word count modulo 2^16 above the opcode |
| `Spirv.InstructionRoundTrip` | crates/backends/agam_codegen/src/spirv.rs:150-155 | an instruction reads back if and only if it has fewer than 65535 operands |
| `Spirv.StreamRoundTrip` | crates/backends/agam_codegen/src/spirv.rs:263-305 | a stream reads back if and only if each of its instructions does |
| `Spirv.ModuleRoundTrip` | crates/backends/agam_codegen/src/spirv.rs:263-305 | the words give back the identifier bound and the ten sections in logical order if and only if every instruction has fewer than 65535 operands |
| `Spirv.HistoryReadsBack` | crates/backends/agam_codegen/src/spirv.rs:196-305 | whatever order the builder calls came in, the module reads back as what they added, by section in logical order and in call order within a section |
| `SpirvReading.HistoryRead` | crates/backends/agam_codegen/src/spirv.rs:196-305 | after any history of builder calls whose strings hold no NUL and whose instructions fit their word counts, a reader that knows the specification's opcode numbers and operand places gets back from the finished words what each call said, section by section in logical order and in call order, with the number of identifiers |
| `Spirv.SectionsHoldTheirCalls` | crates/backends/agam_codegen/src/spirv.rs:196-261 | each section holds what its own calls added, in call order |
| `Spirv.IdentifiersBelowBound` | crates/backends/agam_codegen/src/spirv.rs:196-200 | identifiers are handed out as 1, 2, 3, and the bound is one past the last, until the counter wraps |
| `Spirv.NameFramed` | crates/backends/agam_codegen/src/spirv.rs:248-253 | a debug name is framed correctly if and only if it has fewer than 4 * 65533 bytes |
| `Spirv.WordsRoundTrip` | crates/backends/agam_codegen/src/spirv.rs:308-315 | the little-endian bytes give back the words |
| `Spirv.SpirvModuleBuilder.ExtInstImport` | crates/backends/agam_codegen/src/spirv.rs:232-239 | takes the next identifier and adds the import under it |
| `Spirv.SpirvModuleBuilder.BuildWords` | crates/backends/agam_codegen/src/spirv.rs:263-305 | the ten loops write the words that `ModuleRoundTrip` reads back |
| `Spirv.SpirvModuleBuilder.BuildBytes` | crates/backends/agam_codegen/src/spirv.rs:308-315 | each word in little-endian order |
| `DataFrames.FilterGt` | crates/backends/agam_codegen/runtime/dataframe_prelude.c:52-75 | the new frame holds exactly the rows above the threshold, in order; the second pass fills exactly the slots the first one counted |
| `DataFrames.FilterSplits` | crates/backends/agam_codegen/runtime/dataframe_prelude.c:52-75 | rows kept and rows dropped together are the rows, and each is on its side of the threshold |
| `DataFrames.BucketIsEuclidean` | crates/backends/agam_codegen/runtime/dataframe_prelude.c:114-117 | the adjusted C remainder is the Euclidean one |
| `DataFrames.GroupBy` | crates/backends/agam_codegen/runtime/dataframe_prelude.c:102-143 | on the given number of groups, or on one when it is not positive, one output row for each inhabited bucket, its slots neither over- nor under-filled, with the mean of its scores |
| `DataFrames.IdsAreInhabitedBuckets` | crates/backends/agam_codegen/runtime/dataframe_prelude.c:130-139 | the output ids are exactly the buckets some row falls into, strictly increasing |
| `DataFrames.TotalsConserved` | crates/backends/agam_codegen/runtime/dataframe_prelude.c:113-120 | over all buckets the counts add up to the length and the sums to the total score |
| `DataFrames.GroupingConserves` | crates/backends/agam_codegen/runtime/dataframe_prelude.c:102-143 | weighted by their counts, the means add up to the total score, and the counts to the length |
| `Tensors.DenseLayer` | crates/backends/agam_codegen/runtime/tensor_prelude.c:9-26 | no result if and only if there is no input or no output feature; otherwise every access is in bounds, the cells are written once each in row-major order, and each is the ReLU of bias plus dot product |
| `Tensors.Conv2d` | crates/backends/agam_codegen/runtime/tensor_prelude.c:28-51 | no result if and only if the kernel does not fit; otherwise every access is in bounds, the cells are written once each in row-major order, and each is the direct double sum |
| `Tensors.ConvolveWindow` | crates/backends/agam_codegen/runtime/tensor_prelude.c:38-47 | the flat accumulation is the double sum over the window |
| `Tensors.ConvolutionLinear` | crates/backends/agam_codegen/runtime/tensor_prelude.c:38-47 | convolution is linear in its input |
| `Tensors.ImpulseResponse` | crates/backends/agam_codegen/runtime/tensor_prelude.c:38-47 | an input with one cell that is not zero answers with the kernel around it: the kernel entry at its row and column within the window, and zero outside; with linearity this fixes the operation |
| `Tensors.DenseImpulse` | crates/backends/agam_codegen/runtime/tensor_prelude.c:9-26 | an input with one cell that is not zero reaches exactly its own row of the output, through the weight of its column, past the bias and the ReLU |
| `Tensors.DotLinear` | crates/backends/agam_codegen/runtime/tensor_prelude.c:17-22 | the products of a row add up linearly |
| `Tensors.ConvolutionLocal` | crates/backends/agam_codegen/runtime/tensor_prelude.c:38-47 | a cell depends on its window alone, wherever the window lies |
| `Occupancy.ActiveBlocksGreatest` | crates/backends/agam_codegen/src/gpu_occupancy.rs:96-124 | a number of blocks respects the warp, register, shared-memory and block limits together if and only if it is at most the number computed, zero register or shared-memory use included |
| `Occupancy.CalculateOccupancy` | crates/backends/agam_codegen/src/gpu_occupancy.rs:90-146 | has a result exactly when nothing panics: the greatest number of resident blocks, their warps, and those warps as a percentage of the device's, between 0 and 100 |
| `Occupancy.OccupancyMeans` | crates/backends/agam_codegen/src/gpu_occupancy.rs:90-146 | the whole report in plain arithmetic, from the least number of warps that hold the threads and the registers those take: when there is one, which counts of blocks fit, the warps, the percentage, and which limit is named, exactly |
| `Occupancy.LessMemoryFitsMore` | crates/backends/agam_codegen/src/gpu_occupancy.rs:90-126 | less shared memory per block never means fewer resident blocks or a lower occupancy |
| `Occupancy.PickBlock` | crates/backends/agam_codegen/src/gpu_occupancy.rs:164-179 | the loop keeps the first candidate of greatest occupancy, or 256 when none has any, and fails exactly when a trial panics |
| `Occupancy.AutoTune` | crates/backends/agam_codegen/src/gpu_occupancy.rs:158-195 | the launch for the block picked: grid, shared memory and whole percent |
| `Occupancy.ChoiceIsOptimal` | crates/backends/agam_codegen/src/gpu_occupancy.rs:158-195 | when one of 64, 128, 256 and 512 threads fits its memory and has any occupancy, the chosen block is one of them, fits, and no candidate that fits has a higher occupancy |
| `Occupancy.NoChoiceIs256` | crates/backends/agam_codegen/src/gpu_occupancy.rs:164-179 | when none does, 256 is chosen |
| `Occupancy.PanicsExactly` | crates/backends/agam_codegen/src/gpu_occupancy.rs:158-190 | the tuning panics if and only if the memory of some candidate overflows, or some candidate that fits its memory cannot be calculated |
| `Occupancy.GridCovers` | crates/backends/agam_codegen/src/gpu_occupancy.rs:181 | the grid covers all elements if and only if their number is below 2^32, and is then the least that does |
| `Tuner.Evolve` | crates/backends/agam_codegen/src/gpu_tuner.rs:98-171 | the run returns the front of the last ranking of the population after all generations, or the default settings when nobody was bred, and fails exactly when one of them cannot be made |
| `Tuner.Breed` | crates/backends/agam_codegen/src/gpu_tuner.rs:129-166 | one generation: the two fittest, then children until the population is full |
| `Tuner.PopulationSound` | crates/backends/agam_codegen/src/gpu_tuner.rs:98-171 | in every generation the size is that of the tuner, every gene lies in the candidate sets and every score is the fitness of its gene |
| `Tuner.GenerationIs` | crates/backends/agam_codegen/src/gpu_tuner.rs:129-166 | a generation position by position: the two leaders, then children with the block size, padding and threshold of the first and the unroll factor and width of the second, or the first with unroll 8, padding 1 and width 4 where its position times 0.1 is below the mutation rate |
| `Tuner.CrossoverGained` | crates/backends/agam_codegen/src/gpu_tuner.rs:138-166 | where some position is not mutated, the next generation reaches the fitness of that crossover of the leaders |
| `Tuner.MutationGained` | crates/backends/agam_codegen/src/gpu_tuner.rs:138-166 | where position 2 is mutated, the next generation reaches the fitness of the first leader with the options mutation sets |
| `Tuner.WinnerBeatsChildren` | crates/backends/agam_codegen/src/gpu_tuner.rs:98-171 | the winner of the run is at least as fit as the crossover and the mutant of the leaders of every generation before the last |
| `Tuner.SeedsExactly` | crates/backends/agam_codegen/src/gpu_tuner.rs:109-127 | sixty seeds or more are exactly the combinations of a block size, an unroll factor and a padding, the width going with the padding |
| `Tuner.PlainFitness` | crates/backends/agam_codegen/src/gpu_tuner.rs:66-96 | a point without options is worth its occupancy in percent, a tenth less unpadded and a fifth more padded |
| `Tuner.OptionsWorth` | crates/backends/agam_codegen/src/gpu_tuner.rs:66-96 | and each width and unroll factor multiplies that by its own factor |
| `Tuner.GenerationKeeps` | crates/backends/agam_codegen/src/gpu_tuner.rs:129-166 | no generation loses fitness |
| `Tuner.NothingLost` | crates/backends/agam_codegen/src/gpu_tuner.rs:98-171 | every individual of an earlier generation is matched by one of every later generation |
| `Tuner.WinnerIsBestEver` | crates/backends/agam_codegen/src/gpu_tuner.rs:98-171 | the candidate returned is at least as fit as every individual ever evaluated, with its true score |
| `Tuner.SearchEnds` | crates/backends/agam_codegen/src/gpu_tuner.rs:98-171 | on a device that accepts every candidate block size, a generation exists if and only if it is the first or the population is not empty |
| `Tuner.MutantIsFittest` | crates/backends/agam_codegen/src/gpu_tuner.rs:66-96 | among the padded points with its block size, the mutation target has the greatest fitness, the occupancy model included |
| `Tuner.AmpereEvaluable` | crates/backends/agam_codegen/src/gpu_occupancy.rs:22-35 | on the Ampere preset every point of the search space can be evaluated if and only if a thread uses fewer than 2^23 registers |
| `Tiering.OsrEngine.RecordLoopIteration` | crates/backends/agam_jit/src/osr.rs:126-146 | the counter grows by one; a promotion is returned exactly when the new count reaches the threshold and the function is still in the baseline tier |
| `Tiering.OsrEngine.TriggerDeopt` | crates/backends/agam_jit/src/osr.rs:155-174 | the function is back in the baseline tier and the bailout is recorded with the frame as given |
| `Tiering.OsrEngine.GetTier` | crates/backends/agam_jit/src/osr.rs:177-182 | optimized exactly when promoted and not deoptimized since |
| `Tiering.OsrEngine.DeoptCount` | crates/backends/agam_jit/src/osr.rs:185-187 | the number of deoptimizations in the history |
| `Tiering.OptimizedIffPromoted` | crates/backends/agam_jit/src/osr.rs:126-182 | in every history, a function is in the optimizing tier if and only if a promotion of it is followed by no deoptimization of it |
| `Tiering.PromotionsBounded` | crates/backends/agam_jit/src/osr.rs:126-174 | a function is promoted at most once more than it is deoptimized |
| `Tiering.PromotionsCapped` | crates/backends/agam_jit/src/osr.rs:126-187 | over all functions, promotions exceed the recorded bailouts by at most one each |
| `Tiering.DeoptDoesNotCool` | crates/backends/agam_jit/src/osr.rs:126-174 | after a deoptimization the next back-edge of a hot loop promotes again |

## Left out

- AnalyzeModule: takes a bound on the number of passes, which the source does not have, because the source's
  loop need not stop.
- EmitInstr: phis, aggregates, indexing, casts, effects and printing print lines the model does not spell out.
- EmitC: the same bound; the text of the program is modelled as one constructor for each kind of line, with the
  real variable, label and function names but without spacing, headers and type spelling.
- EmittedLegal: names are taken to be identifiers that meet no keyword or runtime name; a declaration straight
  after a label, which the emitter prints, is C23.
- EmittedProgramLegal: calls that leave the module, which the emitter declares by the types at the call, are not
  checked against each other.
- StructsApartExactly: keeps structures from everything else, but not pointers from integers; what a call returns
  has the type of its declaration by `CallsAgreeWithCallees`, and arguments are taken to be passed to functions
  without structure parameters, which is every function of such a module. Loaded and stored locals must be
  parameters or allocated under their own name, as lowering makes them.
- StoreRejectedExactly: the hypotheses of `StructExactlyWhenStoredLoaded`; `StoreApart` has none of them.
- LoweringCorrect: asks for a single returning block and a stack discipline, because the code lowers neither
  control flow nor calls and keeps no record of where values are.
- RunTyped: the same kinds, without the conditions on what C can print.
- EveryResultTyped: says nothing of an operand that is only defined further down, nor of a local that is loaded
  above every store and allocation of it but typed later. Of field accesses, phis, casts, effects and reference
  counts it gives the types, and nothing gives the values.
- LoweringAgreesWithInterpreter: asks for a run on which no intermediate value that an order-sensitive operator
  reads leaves 32 bits, because every emitted type is i32.
- EmittedProgramSimulates: covers constants, operators, copies, locals and calls on integers, booleans, floats,
  strings and units; phis, aggregates, printing, effects, reference counting, inline assembly and GPU operations
  have no meaning in the model. Floats are real numbers: rounding, infinities and NaN are not modelled, and a
  division by 0.0 has no meaning. Strings are their characters, without encoding, and literals are read without
  trigraphs; comparing strings has no meaning on the C side, and the C side never frees.
- CompiledModuleSimulates: asks for functions that come out as legal C (`Compilable`) and respect the kinds they
  declare (`ModuleKinded`: a float local is stored floats, a string local strings, an integer local integers,
  booleans and units, and a function that returns a string always does), with no local copied from an allocated
  one and no integers returned beside booleans, which C does not return unchanged (`MixedReturnLosesBits`); for
  parameters to be read through their locals, for `main` to have no parameters and return neither float nor
  string, for literals C can spell, which leaves out -2^63, and for no function that mangles to the name of the
  concatenation routine.
- StructExactlyWhenStoredLoaded: asks that no stored value is itself the result of a copy, a store or an
  allocation, because a struct passes through those; `StructsExactly` needs no such condition.
- MixedReturnLosesBits: the return to the program's caller; a return to a C caller goes through the same
  conversion (`ReturnSimulates`).
- EvalUnOp: the negation of the least i64 wraps, where a build of `eval.rs` with overflow checks panics.
- CalculateOccupancy: an overflowing product counts as a panic, as in a checked build; a release build wraps.
- AutoTune: percentages are reals; the rounding of `f64` is not modelled.
- Evolve: scores are reals; a device without warps makes every fitness 0/0, which the model counts as a failure
  of the run even where a population of one would never compare it.
- OptimizeLayout: sizes are unbounded, so `usize` overflow is not modelled; a zero alignment, on which the
  source panics, is excluded.
- RecordLoopIteration: the 64-bit counter is unbounded in the model.
- GroupBy: scores are reals; a failing allocation is not modelled.
- DenseLayer: cells are reals and dimensions unbounded; weights and biases, a hash of their indices in the
  source, are arbitrary functions of the same indices.
- Conv2d: as for the dense layer.
- Allocate: the identifier counter wraps as in a release build; a checked build panics.
- The lowering of GPU functions to SPIR-V instructions (`emit_spirv_module`): it hands out identifiers for
  parameters that no instruction defines.
- `agam_dataframe_sort`: the order is the C library's.
- `migrate_to_tier2`, which copies a frame, and the frame's setters.
- WIT interfaces, structs of arrays, SIMD symbol names, bank-conflict strides and the device presets: fixed text
  or constants.
- The other GPU intrinsics, the embedded preludes for effects and GPU hosts, environment probing and the Adam
  optimizer.
