# Trisha, modelled and proved in Dafny

Trisha compiles a stack-level intermediate representation (TIR) to the assembly of Triton VM, generates programs for
that machine (a checker for customizable constraint systems, a loader and a claim binder for recursive verification),
mines Neptune blocks, and carries a few smaller pieces: a proof codec, a static cost analyser, a FRI fold.
This project models these parts and proves what they promise. `dafny verify dfyconfig.toml` checks all of it.

How the parts fit together, bottom up:

- `Words`, `Machine`, `Control`, `SmallStep`, `Listing`, `Storing`. The machine: words modulo 2^64 - 2^32 + 1, a total
  memory in which absent cells read zero, input, secret input and output, native instructions with their operand
  ranges, blocks called by label. Two semantics, by whole blocks with fuel and by single steps with a return stack,
  and a lemma that they agree. Stacks are listed top first; memory is a map without zero entries, so that equality of
  memories is equality at every address.
- `Legalize`, `Scanning`, `Borrowing`, `DeepAccess`, `Permute`, `Encoding`. Stack access beyond the 16 words the machine
  can reach: borrow zero cells, spill, work, restore and clear; swap programs for permutations.
- `Sequence`, `Shuffling`, `Reaching`. Runs of Dup, Swap and Pop turned into one shuffle through memory, under a cost test,
  and how deep a shuffle reaches beside the operations it replaces.
- `Tir`, `Crowding`, `Lowering`, `TritonLowering`, `Operations`, `Simulation`, `ModuleLowering`, `Compilation`, `Divergence`,
  `Loops`, `Naming`, `Labels`. TIR with its meaning; the lowering as a class with the source's fields and loops, proved equal
  to a specification function; the proof that lowered code means what the source means; which labels a module defines.
- `Linker`, `DeadCode`, `Leaving`. Prefixing labels, the call graph, reachability, and that dropping unreachable functions
  changes no run.
- `Qualified`, `Marking`, `Endless`, `Toolchain`, `Executable`, `CrossModule`. The whole way: modules lowered one by one,
  prefixed, linked and pruned mean, step by step on the machine, what their functions mean together; a call of another
  module's function is that function, and conditions on the names of modules and functions are enough for all of it.
- `Entry`, `Primality`. The typed public-input adapter; its test for booleans needs the modulus to be prime, which is proved.
- `Ccs`, `CcsSound`, `Loader`, `FixedClaim`, `ClaimBinding`. The generated programs, on the same machine.
- `Powers`, `Digests`, `BitReversal`, `MerkleTree`, `Guesser`, `Reservation`, `Mining`, `MiningStops`, `Session`. The mining
  engine; the pair hash is an arbitrary function of two digests, concurrency is a state machine over all interleavings.
- `Cost`, `CostAnalysis`, `CallOrder`, `CallCircles`, `CostRuns`, `WorstCase`. The static cost analysis: when its report depends
  on the order of the functions, and when it is the worst case of what a run may take.
- `ProofCodec`, `FriFold`, `ExtensionField`. The smaller pieces.

Code that appends lines in loops or updates fields is a method proved equal to a function; what the lines do when they
run is proved about that function. Emitted assembly is a sequence of instructions, not text; a label line is the
instruction `Label`.

Deep accesses need free memory. The meaning of TIR does not depend on it: `Crowding.Meaning` is the meaning for every
memory, and the theorems say that the machine comes to the source's end or stops at an assertion, which is how the search ends that finds no room. That stop
is possible only if some deep access finds less than `reach` consecutive zero cells, where `reach` is any bound from 4096 on
that covers the module's depths (2^32 covers them all).

What the proofs turned up:

- `rs/lower/triton.rs:40-49` builds its own labels as `__then__1` and gives a source name the prefix `__` as well, so a
  function called `then__1` has the label of the first branch of its module (`Labels.ReservedNameCollides`).
  `Labels.LabelsDefinedOnce` gives the exact condition on the source's names, and `Labels.UnreservedNamesSuffice` one that
  asks for no numbering.
- `rs/lower/triton.rs:228-243` reverses a block through native swaps. Writes of more than 15 words and reads of more than 16
  emit an operand the machine does not have (`Operations.BlockWidths`, an if-and-only-if). A read of no words is lowered
  right where index arithmetic wraps around: `rs/lower/legalize.rs:155` takes one from the length of an empty order and
  does not use the result. With overflow checks switched on that subtraction panics; no build profile in the repository
  switches them on for release builds.
- `rs/lower/sequence.rs:65-79` leaves untouched words out of a shuffle, so a coalesced run may come through on a stack too
  short for its operations one by one: `Reaching.SwapsBackDiffer` has three swaps that do on 17 to 40 words.
  `Reaching.CodeAndOperations` says on exactly which stacks the two differ, and `Reaching.SameDepthExactly` for which plans
  they never do. The meaning of TIR therefore keeps reaching below the stack (`Short`) apart from an operation's refusal
  (`Failed`), and only the latter is promised to stop the machine.
- `rs/lower/linker.rs:239-241` gives modules `a.b` and `a_b` one prefix, and `a` and `a__b` prefixes of which one begins the
  other (`CrossModule.CloseNamesClash`). `CrossModule.SamePrefix` says exactly which names share a prefix, and
  `CrossModule.NamesSuffice` gives a condition on the names under which no two functions can meet.
- `rs/cost/analyzer.rs:259-277` charges a loop with neither a bound nor a literal end for one turn. The static cost of a block
  therefore covers all its runs if and only if no run can get into such a loop (`WorstCase.WorstCaseExactly`); taken to turn
  once, it is the worst case, reached by some run (`CostRuns.BlockMost`).
- `rs/cost/analyzer.rs:199-204` keeps costs computed while a recursive call counted as nothing out of the memo, but not
  costs computed from the outside of a circle of calls. What a function on such a circle is reported at depends on what was
  analysed before it, and the first loop of an unrelated function is enough to change it
  (`CallCircles.UnrelatedFunctionShows`). A function that only calls itself is reported the same in every order: for a target
  that counts calls the order shows if and only if some function reaches itself through a different one
  (`CallCircles.OrderShowsExactly`), and for every target it never shows otherwise (`CallOrder.OrderDoesNotMatter`). A target
  that takes the dearer branch or multiplies by the turns of a loop may hide such a circle (`CallCircles.CircleMayHide`).


## Model

| member | source | states |
|---|---|---|
| Words.ReadWriteUp | rs/lower/triton.rs:238-243 | A block write puts word i at base + i, the address wrapping around at the modulus, and leaves every other cell as it was. |
| Words.WriteUpCat | rs/lower/legalize.rs:5-12 | Two adjacent block writes are the one block write of both, which is what splitting a transfer into batches relies on. |
| Words.ClearRestores | rs/lower/legalize.rs:86-101 | Whatever was stored over a run of zero cells, zeroing the run gives back the memory cell for cell. |
| Words.CellsWriteUp | rs/lower/triton.rs:228-243 | Reading a block just written gives its words in order. |
| Control.RunsUnique | rs/lower/triton.rs:389-424 | Code with calls, returns and recursion has at most one outcome from a state, however much fuel its run is given. |
| SmallStep.RunArrives | rs/lower/triton.rs:389-424 | Big-step runs are runs of a machine with an instruction pointer and a stack of return addresses: ending, returning, recursing, halting and failing all arrive at the matching configuration. |
| SmallStep.ProgramHalts | rs/lower/triton.rs:331-340 | A listing whose code before the first label halts does so on the machine with pointer and return stack, started at line zero with no frames. |
| Endless.TimeoutLasts | rs/lower/triton.rs:389-424 | A run that uses up its fuel is still running on the machine with pointer and return stack, at least as many steps on. |
| Legalize.Batch | rs/lower/legalize.rs:5-12 | The loop appends exactly the batched lines for the count. |
| Operations.BatchPops | rs/lower/legalize.rs:5-12 | Popping n words in batches of at most five drops exactly the top n words. |
| DeepAccess.BatchWrites | rs/lower/legalize.rs:5-12 | Writing n words in batches stores them at consecutive ascending addresses and leaves the pointer n further on, also across the wrap to zero. |
| Operations.BatchReads | rs/lower/legalize.rs:86-99 | Reading n cells downwards in batches leaves them on the stack in the order in which they lie in memory, under the lowered pointer. |
| Legalize.Borrow | rs/lower/legalize.rs:53-84 | The method with its chunk loop appends exactly the borrowing code. |
| Borrowing.CheckLoop | rs/lower/legalize.rs:64-75 | The chunked check adds to the count the number of zero cells among exactly the cells of the block, counted one by one, so that field sums cannot cancel. |
| Scanning.ScanLoop | rs/lower/legalize.rs:116-150 | From any cursor the scan invariant allows, the scan ends at the end of the lowest run of the required length that starts at address zero or above, a run ending at p - 1 included; if there is none it stops at its assert; memory is never written. |
| Borrowing.SearchWorks | rs/lower/legalize.rs:103-114 | The search, entered with the failed check on the stack, returns the last address of the lowest such run, or stops at the assert with memory unchanged. |
| Borrowing.Borrows | rs/lower/legalize.rs:53-84 | Borrowing leaves the base of a block of verified-zero cells, on the preferred and on the fallback path, and changes neither memory nor the words below; it succeeds exactly when memory has such a block anywhere, and otherwise stops at an assert with memory unchanged. |
| Legalize.Restore | rs/lower/legalize.rs:86-101 | The method with its chunk loop appends exactly the restoring code. |
| DeepAccess.RestoreLoop | rs/lower/legalize.rs:86-101 | Restoring reads n words back in memory order, zeroes exactly those n cells and leaves the pointer n lower. |
| Legalize.Access | rs/lower/legalize.rs:18-51 | The method appends exactly the access code, in the shallow, the duplicating and the exchanging branch. |
| DeepAccess.ShallowAccess | rs/lower/legalize.rs:19-27 | Below depth 16 the single native instruction, or none for a swap with itself, has the meaning of the operation. |
| DeepAccess.AccessWorks | rs/lower/legalize.rs:18-101 | For every depth, every stack that holds the word and every memory with room, the emitted code gives exactly the stack of Dup(depth) or Swap(depth) and the same memory at every address; without room it stops at an assert with memory unchanged. |
| Encoding.AccessNative | rs/lower/legalize.rs:18-101 | Every operand that any access emits is one the machine can encode: stack positions below 16, batches of one to five. |
| Legalize.Search | rs/lower/legalize.rs:106-150 | The method appends exactly the lines of the search and the scan. |
| Permute.Emit | rs/lower/legalize.rs:153-171 | The method, exchanging entries of its array in place through the top, appends exactly the permutation code, and nothing for an empty order. |
| Permute.Permutes | rs/lower/legalize.rs:153-171 | The swap program realises any permutation of any length, with distances from one to the length less one only. |
| Permute.PermutesStack | rs/lower/legalize.rs:153-171 | On the machine the program puts the words of a window of up to 16 in the given order and touches nothing below. |
| Permute.ReversesStack | rs/lower/legalize.rs:173-175 | The reversal program turns the window around. |
| Encoding.ReverseNative | rs/lower/legalize.rs:173-175 | The reversal of n words is encodable if and only if n is at most 16. |
| Sequence.Plan | rs/lower/sequence.rs:13-86 | The method with its loops over the operations, the order and the use counts computes the planning function. |
| Sequence.Measured | rs/lower/sequence.rs:14-42 | The surveyed run consists of stack operations, and the required depth is enough for every one of them. |
| Shuffling.NeedIsLeast | rs/lower/sequence.rs:35-36 | The required depth is also the least that suffices. |
| Sequence.PrefixIsPrivate | rs/lower/sequence.rs:65-71 | No index after the trimmed prefix is below it, so taking the prefix off never makes an index negative. |
| Sequence.EmitShuffle | rs/lower/sequence.rs:88-117 | The method with its loops appends exactly the shuffle code. |
| Shuffling.FollowTracks | rs/lower/sequence.rs:46-57 | The symbolic order, followed through any run of stack operations, names at each position the word that the operations put there. |
| Shuffling.Loads | rs/lower/sequence.rs:92-105 | Loading cell by cell from the spilled block rebuilds the stack in the planned order, words used several times included. |
| Shuffling.ShuffleWorks | rs/lower/sequence.rs:88-117 | A shuffle of any width up to 2^32 puts the words of its block in the given order, leaves everything below and all memory as they were, or stops at an assert with memory unchanged when there is no room. |
| Shuffling.PlanTracks | rs/lower/sequence.rs:65-79 | The trimmed plan, applied above the prefix that stays on the stack, is the same rearrangement as the operations it consumes, one by one. |
| Shuffling.PlanWorks | rs/lower/sequence.rs:13-117 | Whenever a plan is made, running its code gives the stack that the consumed Dup, Swap and Pop operations give one by one, for every stack they fit, and the same memory. |
| Reaching.RunFits | rs/lower/sequence.rs:35-36 | The consumed operations underflow exactly the stacks that are shallower than the measured depth. |
| Reaching.PlanReaches | rs/lower/sequence.rs:65-117 | On a stack of any depth: with room in memory the planned code rearranges its block if the stack holds it and stops with an error if not; without room it stops at an assert. |
| Reaching.CodeAndOperations | rs/lower/sequence.rs:65-79 | With room in memory, code and operations disagree on whether they come through exactly on the stacks that hold the planned width but not the measured depth. |
| Reaching.SameDepthExactly | rs/lower/sequence.rs:65-79 | They agree on every stack if and only if the prefix that the plan leaves in place is empty. |
| Reaching.SwapsBackDiffer | rs/lower/sequence.rs:65-79 | Two swaps at depth 40 and one at depth 16 are planned as a shuffle of 17 words; on stacks of 17 to 40 words the shuffle comes through and the operations underflow. |
| Reaching.PlanIsMade | rs/lower/sequence.rs:13-86 | A run of up to 1024 operations that keeps within 4096 words, with no stack operation behind it, is planned if and only if it has two operations, one of them at depth 16 or more, and its shuffle is shorter than its estimate; the plan then consumes all of it and holds the words above those that stay in place. |
| Encoding.ShuffleNative | rs/lower/sequence.rs:88-117 | Every operand that a shuffle emits is encodable. |
| Shuffling.DeepLength | rs/lower/legalize.rs:18-101 | The exact number of instructions of a deep access, as a function of the depth and the kind. |
| Shuffling.CostIsLowerBound | rs/lower/sequence.rs:18-34 | The planner's cost is exact for shallow accesses and Pop and strictly below the emitted length for every depth from 16 on, by 15 and three for each batch of an exchange. |
| Shuffling.PlanIsShorter | rs/lower/sequence.rs:83-85 | A shuffle is chosen only if its code is strictly shorter than the code of the same operations lowered one by one. |
| TritonLowering.TritonLowering.FreshLabel | rs/lower/triton.rs:40-44 | The counter goes up by one and the label is the prefix with its decimal digits; nothing else changes. |
| TritonLowering.TritonLowering.LowerOpOut | rs/lower/triton.rs:51-355 | Lowering one operation appends its lines and moves the deferred blocks, the counter and the search label exactly as the lowering function says. |
| CrossModule.CallEmits | rs/lower/triton.rs:250-258 | A call of a name that starts with `@` or with two underscores is emitted under that name, any other under two underscores and the name. |
| TritonLowering.TritonLowering.LowerOpsOut | rs/lower/triton.rs:363-374 | The loop over the operations, planned runs first, computes the lowering function. |
| TritonLowering.TritonLowering.FlushDeferred | rs/lower/triton.rs:389-424 | The worklist loop ends, with nothing left deferred, having emitted every block and every block those blocks deferred. |
| TritonLowering.Lower | rs/lower/triton.rs:427-441 | The lowering of a module, its search helpers appended behind a halt only if some access needed them, is the lowering function. |
| Lowering.LowerOp | rs/lower/triton.rs:51-355 | What an operation leaves deferred is smaller, together, than the operation and what was deferred before: the worklist terminates. |
| Lowering.Flush | rs/lower/triton.rs:389-424 | A flush leaves nothing deferred. |
| Operations.RamWrites | rs/lower/triton.rs:238-243 | A block write of any width up to 15 stores the words in the order in which they were pushed, first word at the address. |
| Operations.RamReads | rs/lower/triton.rs:228-237 | A block read of any width up to 16, none included, leaves the words so that the first cell was pushed first, and changes no memory. |
| Operations.WriteThenRead | rs/lower/triton.rs:228-243 | Writing a block and reading it at the same address gives it back in source order and changes no other cell. |
| Operations.BlockWidths | rs/lower/triton.rs:228-243 | The widths whose code the machine can encode: writes if and only if at most 15, reads if and only if at most 16. |
| Operations.Reveals | rs/lower/triton.rs:194-207 | An event puts out its tag and then its fields in declaration order. |
| Operations.FlatWorks | rs/lower/triton.rs:54-110 | Every operation that is neither control flow nor a stack access, where it has a meaning, is lowered to code with that meaning. |
| Operations.FlatRefuses | rs/lower/triton.rs:54-143 | Where such an operation refuses its words or lacks input, its code stops with an error. |
| Simulation.BranchInvokes | rs/lower/triton.rs:402-419 | Entering and leaving a deferred branch: the flag is dropped first and a zero left last exactly where the block clears it. |
| Simulation.IfElseRuns | rs/lower/triton.rs:263-289 | The emitted test calls exactly one of the two blocks and leaves no flag behind. |
| Simulation.IfOnlyRuns | rs/lower/triton.rs:290-302 | The one-armed test calls its block exactly when the flag is not zero and leaves no flag behind. |
| Simulation.SimOps | rs/lower/triton.rs:263-374 | By induction over the source run, for every memory: the code of structured operations, coalesced runs included, comes to the end the operations come to, or, where the run was not promised the free cells that the code may want, stops at an assert. |
| Simulation.SimCall | rs/lower/triton.rs:389-424 | Calling a function or a loop block comes to the end that the call comes to in the source, with the same exception. |
| Crowding.CallCrowds | rs/lower/legalize.rs:53-84 | Asking for free cells at deep accesses only ever stops a source run; it never changes where the run leads. |
| ModuleLowering.BodyIsLowered | rs/lower/triton.rs:363-374 | The lines of a body stand for the body as soon as the search label and every block the body deferred are in place. |
| ModuleLowering.FlushStores | rs/lower/triton.rs:389-424 | Once the blocks that a flush emitted are in place, every deferred block is, with everything it defers in turn. |
| ModuleLowering.BodyDefers | rs/lower/triton.rs:263-315 | Lowering a body defers only structured blocks and emits only instructions the machine can encode. |
| Compilation.ModuleBlocks | rs/lower/triton.rs:427-441 | The code before the first label and the blocks of a lowered module, the search blocks included exactly when needed. |
| Compilation.ModuleStored | rs/lower/triton.rs:427-441 | In a lowered module without duplicate labels each function has the block that stands for it. |
| Compilation.LoweringPreservesMeaning | rs/lower/triton.rs:263-441 | For every module of structured functions closed by FnEnd whose listing carries no label twice, and every memory: a call that comes to an end in the source comes to the same end in the listing, with the same stack, memory, input, secret input and output, or stops with an error where the source refuses to go on; or it stops at an assert, which takes a deep access at which memory lacks free cells. |
| Compilation.ProgramRuns | rs/lower/triton.rs:331-340 | The entry lines call the function and halt: the program halts in the state in which the source ends, or stops with an error where the source does, or at an assert for want of memory. |
| Compilation.HaltsOnlyIfSourceDoes | rs/lower/triton.rs:331-340 | If the source comes to an end, the program halts in a state only if the source ended there, and if it did, the program halts there or gets stuck for want of memory. |
| Divergence.SlowCall | rs/lower/triton.rs:389-424 | While a source call has not ended within a given fuel, the machine has not either, or is stuck for want of memory; it has never halted or returned. |
| Divergence.ProgramHaltsExactly | rs/lower/triton.rs:263-441 | For a program that keeps within its stack and its labels, for any input and any memory and however long it takes: the lowered program halts in a state only if the source program ends there, so a source that refuses or runs forever is never accepted; and where the source program ends, the lowered one halts too, unless it gets stuck for want of memory. |
| Loops.RunsCountTimes | rs/lower/triton.rs:303-315 | A loop called with counter c whose body keeps the counter takes exactly c turns and ends with the counter at zero. |
| Loops.LoweredLoopCounts | rs/lower/triton.rs:394-406 | So does the generated subroutine, or it gets stuck for want of memory. |
| Labels.DecimalInjective | rs/lower/triton.rs:40-44 | Different counters have different digits, so generated labels never clash with each other. |
| Labels.DecimalReads | rs/lower/triton.rs:40-44 | The counter is appended in decimal: the digits, read from the left, give the counter, without leading zeros. |
| Naming.FlushNames | rs/lower/triton.rs:389-424 | A flush defines exactly the labels of the blocks it was given and of those they deferred, each once, in order, and draws the serial numbers that a walk over the source predicts. |
| Naming.ChosenAreSourceNames | rs/lower/triton.rs:303-330 | The labels that the lowering takes from the source are those of the functions and of the loops found by walking their bodies, each as often as it occurs there. |
| Labels.ModuleLabels | rs/lower/triton.rs:427-441 | The labels that a lowered module defines, each as often as it does, are the source's names and the generated ones. |
| Labels.LabelsDefinedOnce | rs/lower/triton.rs:263-315 | A lowered module defines no label twice if and only if the names of its functions and loops differ from each other and from the labels generated from the serial numbers drawn. |
| Labels.UnreservedNamesSuffice | rs/lower/triton.rs:40-49 | It is enough that those names differ and do not look like generated labels, which needs no numbering. |
| Labels.ReservedNameCollides | rs/lower/triton.rs:40-49 | Without that condition it is false: a function called then__1 that branches has its label defined twice. |
| Labels.GoodModuleKeepsMeaning | rs/lower/triton.rs:263-441 | The main theorem with conditions on the source only: good names, structured functions closed by FnEnd. |
| Leaving.LoweredBlocksEnd | rs/lower/triton.rs:389-441 | If every function returns at its end, every block of the lowered module ends by leaving and no skiz can jump over the end. |
| Leaving.LoweredModuleLeaves | rs/lower/triton.rs:427-441 | A lowered module meets the conditions that linking asks of modules. |
| Linker.MangleLabels | rs/lower/linker.rs:189-235 | The loop prefixes labels and local calls, unmarks calls to other modules, and leaves out a program's own entry lines. |
| Linker.ScanFunctions | rs/lower/linker.rs:45-66 | The index loops cut the listing into one block for each label. |
| Linker.BuildGraph | rs/lower/linker.rs:68-82 | The loop collects, for each label, the labels its block calls, itself included when it recurses. |
| Linker.Reach | rs/lower/linker.rs:115-132 | The breadth-first loop ends with exactly the labels that a path of calls leads to from the entry. |
| Linker.Link | rs/lower/linker.rs:20-184 | The linked listing is the prelude of the first program and the blocks reached from its main label, or everything when no module is a program; `CrossModule.PrefixOfModule` says what the prefixes are. |
| CrossModule.PrefixOfModule | rs/lower/linker.rs:237-241 | For every name the prefix is two characters longer, ends in two underscores, has an underscore for each dot and every other character of the name in its place. |
| CrossModule.SamePrefix | rs/lower/linker.rs:237-241 | Two modules get the same prefix if and only if their names differ at most in dots for underscores. |
| CrossModule.LinkedNamesMeet | rs/lower/linker.rs:189-235 | Mangling turns a marked call, in any module, and the label of the other module's function into one name, and a local call into the name of the module's own function. |
| DeadCode.KeepsReachable | rs/lower/linker.rs:134-158 | The linked listing keeps exactly the reachable functions, and every label that a kept one calls is kept. |
| DeadCode.StepsTogether | rs/lower/linker.rs:115-158 | One machine step with all functions in and one with the unreachable ones dropped lead to matching configurations, and calls and returns stay among kept functions. |
| DeadCode.LinkingPreservesRuns | rs/lower/linker.rs:20-184 | With distinct labels and no falling through, the linked program and the one with every function left in have, after any number of steps, the same status in the same state. |
| Leaving.LinkedBlocksEnd | rs/lower/linker.rs:36-43 | Prefixed and put together, modules that leave their blocks by themselves still do. |
| Qualified.FunctionQualified | rs/lower/linker.rs:186-235 | Prefixing changes no meaning: a function's block, prefixed and put among the blocks of other modules, stands for the function with global names. |
| Marking.MarkedRun | rs/lower/linker.rs:186-235 | Renaming all labels of a program in the same way changes no run. |
| Toolchain.WholeProgramKeepsMeaning | rs/lower/linker.rs:20-43 | In the whole program a call comes to the end that the functions of all modules together give it, calls from module to module included. |
| Executable.WholeIsDistinct | rs/lower/linker.rs:239-241 | No label of the whole program is defined twice if every module has good names and no module's prefix begins another's; `CrossModule.NamesSuffice` tells the latter from the modules' names. |
| CrossModule.NamesSuffice | rs/lower/linker.rs:237-241 | Module names without two dots or underscores in a row and without one at the end, no two of them alike but for dots and underscores, have prefixes none of which begins another. |
| CrossModule.CloseNamesClash | rs/lower/linker.rs:237-241 | Each part of that condition is needed: `a.b` and `a_b` share a prefix, and function `b__f` of `a` is function `f` of `a__b`. |
| CrossModule.ProjectIsDistinct | rs/lower/linker.rs:20-43 | With such module names and good names of functions and loops in every module, all labels of the whole program differ. |
| Executable.ExecutableKeepsMeaning | rs/lower/linker.rs:20-184 | Modules lowered one by one, linked and pruned: started at its first line the linked listing stops in exactly the state in which the program ends in the source, or faults where the source refuses to go on, or faults for want of memory. |
| Executable.ExecutableStopsExactly | rs/lower/linker.rs:20-184 | For a program that keeps within its stack and its labels, for every memory and however long it takes: the linked listing stops in a state only if the source ends in it, so a source that refuses or runs forever is never accepted, and it does stop if the source ends, unless memory is too full. |
| CrossModule.CallsAreGlobal | rs/lower/triton.rs:250-258 | In any module, a call of `@`, another module's prefix and a function name is a call of that module's function of that name; an unmarked call is one of the module's own function. |
| CrossModule.CrossCallMeans | rs/lower/triton.rs:250-258 | Such a call evaluates to what the other module's function evaluates to, from every state and with every fuel. |
| CrossModule.MainCallsOtherModule | rs/lower/linker.rs:20-184 | A program whose main function calls a function of another module: lowered module by module, linked and pruned, the listing stops in exactly the state that function ends in, faults where it refuses, and can otherwise only fault for want of free memory. The conditions are on the source and its names alone. |
| Entry.Emit | rs/lower/entry.rs:56-79 | The loop appends the read and the check of each leaf. |
| Entry.BoolTest | rs/lower/entry.rs:61-69 | x(x - 1) is zero in the field only for zero and one. |
| Entry.ChecksU32 | rs/lower/entry.rs:70-75 | The check passes exactly the words below 2^32 and leaves the word as it was. |
| Entry.EntryAccepts | rs/lower/entry.rs:56-79 | The adapter goes on if and only if the input starts with admissible words, one for each leaf, which it moves to the stack in order; otherwise the machine stops. |
| Entry.TypedEntryRuns | rs/lower/entry.rs:56-79 | In front of a program, the program runs with the arguments on the stack. |
| Entry.ValidateStructure | rs/lower/entry.rs:8-54 | Accepted exactly are at most one entry, at top level and outside functions, with its resolved parameters, if any, directly before it, and no such operation nested. |
| Primality.DivisorIsLarge | rs/lower/entry.rs:61-69 | Every divisor of the field modulus above one is at least 2^32, because a root of unity has that many different powers modulo it. |
| Primality.ModulusIsPrime | rs/lower/entry.rs:61-69 | The field modulus 2^64 - 2^32 + 1 is prime. |
| Primality.Inverse | patches/gpu.rs:119-124 | Every nonzero word has an inverse. |
| Primality.NoZeroDivisors | rs/lower/entry.rs:61-69 | A product of words is zero only if one of them is. |
| Ccs.Validate | rs/ccs.rs:139-191 | The loops over matrices, rows, terms and coordinates accept exactly the admissible relations: sizes, ranges, canonical values, strictly increasing public coordinates, and the work bound. |
| Ccs.Generate | rs/ccs.rs:32-70 | The loops over columns, coordinates, rows, matrices and terms emit exactly the checker code. |
| CcsSound.New | rs/ccs.rs:26-85 | There is a checker exactly for admissible relations. Its program, run on its own public input, halts on exactly the witnesses, of as many words as it asks for, that have one in column zero and the given value in each public column, and make every row's residual zero. |
| CcsSound.LoadsColumns | rs/ccs.rs:40-43 | The witness is copied word by word to addresses zero on. |
| CcsSound.ComputesMatrices | rs/ccs.rs:51-58 | For a row, the cells behind the columns hold the inner products of each matrix row with the witness. |
| CcsSound.ChecksRow | rs/ccs.rs:50-69 | A row passes if and only if the weighted sum of products of its inner products is zero in the field. |
| CcsSound.CheckerDecides | rs/ccs.rs:26-85 | On any witness of the right length and any public input the generated program reaches halt if and only if column zero is one, each public coordinate equals its input word, and every row's weighted sum of products is zero modulo p. |
| CcsSound.CheckerIsShort | rs/ccs.rs:139-191 | The program has at most 8 instructions for each unit of the work that is bounded, 6 for each public coordinate, one for each binding byte, and 14 more. |
| CcsSound.AdmissibleExactly | rs/ccs.rs:139-191 | The admissible relations with all bounds in numbers, the entries counted row by row, and the coordinates compared two by two. |
| CcsSound.BindingIsInProgram | rs/ccs.rs:33-39 | For one relation and one list of coordinates, equal programs are bound to equal bytes. |
| Loader.Guards | rs/recursive/assembly.rs:10-12 | The length guard passes exactly lengths from one to the maximum, leaves the length on the stack and in its control cell, and changes nothing else. |
| Loader.LoadsTail | rs/recursive/assembly.rs:28 | The one-word loop consumes exactly n secret words and stores them in order at consecutive addresses, touching no other cell. |
| Loader.LoadsFives | rs/recursive/assembly.rs:28 | The five-word loop does the same in steps of five, leaving fewer than five words. |
| Loader.LoadsWords | rs/recursive/assembly.rs:28 | Together they load exactly n words, for every n below 2^32 that the secret input can supply and every start address, the wrap to zero included; from 2^32 on they stop at the first comparison with nothing read and nothing stored. |
| FixedClaim.FixedClaimAssembly | rs/recursive/fixed_claim.rs:25-78 | The two loops emit exactly the binder's code, and nothing where the name, the count or a colliding marker makes the generator panic. |
| ClaimBinding.BinderIsMadeExactly | rs/recursive/fixed_claim.rs:25-52 | There is a binder if and only if the name is made of letters, digits and underscores, there are one to three digests, and the codec puts each marked input word at one place and no other. |
| FixedClaim.InputIndexTwice | rs/recursive/fixed_claim.rs:62-64 | The index computed for the popped word is its own inverse: it reverses the order of the digests and keeps the place within a digest. |
| FixedClaim.PoppedIsInput | rs/recursive/fixed_claim.rs:13-20 | The word popped at each turn is the word of the expected input, each digest back to front, at the index it is stored under. |
| ClaimBinding.PositionsFound | rs/recursive/fixed_claim.rs:37-53 | The places are found exactly when each marker occurs once, and each is then the only place of its marker. |
| ClaimBinding.PositionsAreLayout | rs/recursive/fixed_claim.rs:34-53 | For a codec that copies the input words to places of its own, the places found are those. |
| ClaimBinding.BinderWrites | rs/recursive/fixed_claim.rs:54-67 | From digests on the stack the binder leaves memory with exactly the encoding of the expected claim at its address, word for word, no other cell changed, and the digests gone. |
| ClaimBinding.BinderCallsVerifier | rs/recursive/fixed_claim.rs:68-77 | The subroutine then hashes that block and returns what the verifier makes of the commitment turned around. |
| BitReversal.ReversalTwice | honeycrisp/neptune_mine.rs:271-279 | Reversing the bits of a number below 2^height twice gives it back. |
| BitReversal.ReversalDigits | honeycrisp/neptune_mine.rs:271-279 | Digit i of a reversal is digit height - 1 - i of the number. |
| BitReversal.MirroredAt | honeycrisp/neptune_mine.rs:271-278 | The four masked exchanges and the rotation turn a 32-bit word around. |
| BitReversal.ReverseIndexIsReversal | honeycrisp/neptune_mine.rs:271-280 | With the final shift the routine computes the reversal of the lowest height bits, for every height from 1 to 32. |
| Guesser.Butterfly | honeycrisp/neptune_mine.rs:286-306 | After five rounds, swapping two buffers, element k is the root over the 32 buds that follow k cyclically. |
| Guesser.ReverseOrder | honeycrisp/neptune_mine.rs:311-317 | The in-place swap loop puts at each position exactly the element from the bit-reversed position. |
| Guesser.LeafsAtHeight | honeycrisp/neptune_mine.rs:286-320 | The leaves are those roots, in plain or in bit-reversed order. |
| Guesser.LeafsOfProjections | honeycrisp/neptune_mine.rs:257-320 | What goes into a leaf, shown by two hashes: with the one that keeps its left input every leaf is the commitment, with the one that keeps its right input leaf k is the digest of the index 31 further on, going around, at the reversed k in reversed order. |
| Guesser.BuildInternalNodes | honeycrisp/neptune_mine.rs:326-359 | Level by level the kept array is filled with exactly the nodes of the full tree, the lowest inner level left out. |
| Guesser.GuesserBuffer.Build | honeycrisp/neptune_mine.rs:191-212 | The buffer holds the leaves of its commitment and the kept nodes over them. |
| Guesser.GuesserBuffer.TreeRoot | honeycrisp/neptune_mine.rs:214-216 | The first kept node is the root of the full binary tree over the leaves. |
| Guesser.GuesserBuffer.PathAtHeight | honeycrisp/neptune_mine.rs:227-253 | The path, with the missing level hashed again from the leaves, is the authentication path of the full tree, for every height from 2 on and every index. |
| MerkleTree.NodeIsRoot | honeycrisp/neptune_mine.rs:322-325 | In the 1-indexed numbering, node 2^depth + place is the root over its own share of the leaves. |
| MerkleTree.WholePath | honeycrisp/neptune_mine.rs:218-222 | The siblings on the way up, by node number, are the authentication path of the recursive tree. |
| MerkleTree.PathLeadsToRoot | honeycrisp/neptune_mine.rs:218-222 | Hashing a leaf up along its path gives the root, for every tree, index and pair hash. |
| Reservation.Attempts.New | honeycrisp/mining_session.rs:11-16 | A range of attempts exists exactly if its end fits in 64 bits. |
| Reservation.Attempts.Reserve | honeycrisp/mining_session.rs:17-29 | One atomic update: the range from the counter on, at most what was asked, never past the end; none if nothing was asked or nothing is left. |
| Reservation.ReservedFits | honeycrisp/mining_session.rs:17-29 | A reservation is nonempty, starts at the counter, and is cut off only at the end. |
| Reservation.Winner.Publish | honeycrisp/mining_session.rs:38-40 | The first value stays. |
| Mining.StepKeeps | honeycrisp/neptune_mine.rs:425-453 | Every step of every worker keeps the invariant: ranges apart, tallies exact, winners owed or published. |
| Mining.ReservationsApart | honeycrisp/mining_session.rs:17-29 | In every interleaving, and whatever a device answers, the reserved ranges are nonempty, disjoint, without gaps, start at the start and stay within the end. |
| Mining.HashedAtMostOnce | honeycrisp/neptune_mine.rs:435-449 | At no time, and whatever a device answers, has an attempt been hashed twice, or one outside the reserved part. |
| Mining.WinnerStays | honeycrisp/mining_session.rs:38-43 | Once a winner is in the slot it stays, whatever happens after. |
| Mining.MiningOutcome | honeycrisp/neptune_mine.rs:563-618 | When all workers have finished: without a result every attempt was hashed exactly once, and missed if the device reports its winners; a result has a hash within the target in any case. |
| Mining.RunIsBounded | honeycrisp/neptune_mine.rs:425-453 | No interleaving is longer than four steps for each attempt and two for each worker. |
| MiningStops.WinnerStopsWorkers | honeycrisp/neptune_mine.rs:425-453 | Once a winner is published, however many attempts are left, all workers together take at most four more steps each. |
| MiningStops.WinnerWasHashed | honeycrisp/neptune_mine.rs:425-453 | In every interleaving the published winner is an attempt of the interval, hashed by the worker named with it, if devices answer with attempts they were given. |
| Session.Run | cli/mining_session.rs:163-187 | For arbitrary answers of fetch, mine and submit: every recorded answer is the one that the outside gives to exactly the recorded question at that point; batches start at zero, follow one another, and have 4096 attempts or those that are left; each is mined on the template fetched last, and followed by a fetch; exhaustion means exactly the limit was reserved; a win is the last submission and the only one accepted. |
| Session.Round | cli/mining_session.rs:173-185 | In one round the next attempts are mined, a template is fetched, and a result is submitted exactly if the parent fetched after it is unchanged, with the block it was mined on; the answers are those of the outside. |
| Session.SessionIsDetermined | cli/mining_session.rs:163-187 | For every limit and every outside there is only one record and one outcome that meet what `Run` promises. |
| ProofCodec.ProofToBytes | rs/convert.rs:96-104 | The growing buffer is the encoding. |
| ProofCodec.EncodingAt | rs/convert.rs:96-104 | Byte i of the count and of every word is its digit for 256 to the power of i, the count first and the words in order. |
| ProofCodec.DecodeEncode | rs/convert.rs:96-135 | Decoding gives back every canonical proof whose encoding is within the size limit. |
| ProofCodec.EncodeDecode | rs/convert.rs:109-135 | Accepted bytes are the encoding of what they decode to. |
| ProofCodec.AcceptsExactlyEncodings | rs/convert.rs:96-135 | Bytes decode to a proof if and only if they are its encoding and within the limit, so no two accepted byte strings share a proof. |
| CostAnalysis.CostAnalyzer.CostFn | rs/cost/analyzer.rs:176-205 | With the recursion guard, and remembering only costs computed from the outside, a call is charged exactly what the guarded function says; the analyser terminates on every program, recursive ones included. |
| CostAnalysis.CostAnalyzer.CostBlock | rs/cost/analyzer.rs:207-216 | The loop over a block's statements, left to right, adds up what the block costs given what calls cost, and remembers its calls in order when it is itself analysed from the outside. |
| CostAnalysis.CostAnalyzer.CostStmt | rs/cost/analyzer.rs:218-336 | The same for each kind of statement; `CostRuns.StmtMost` says what the cost of a statement is. |
| CostAnalysis.CostAnalyzer.CostExpr | rs/cost/visit.rs:15-83 | The same for each kind of expression, built-in functions before functions of the program. |
| CostAnalysis.CostAnalyzer.FindLoopIterationCost | rs/cost/visit.rs:85-113 | The first loop of a function is charged for one turn, and every call in it is thereby analysed, and remembered, from the outside; `WorstCase.LoopFigure` says what the figure is. |
| CostAnalysis.CostAnalyzer.AnalyzeFile | rs/cost/analyzer.rs:96-132 | Each function in turn, followed by its first loop, the memo carried along: the reported costs, the figures for one turn, and the total. |
| CostRuns.ExprMost | rs/cost/visit.rs:15-83 | In every table the cost of an expression is the most that evaluating it may take, given the most that calls may take: built-in costs by full name and then by the part behind the last dot, any other call with the overhead of a call. |
| CostRuns.StmtMost | rs/cost/analyzer.rs:218-336 | In every table some run of a statement takes its cost, and none takes more if loops without a bound turn once or there are none that a run can get into: either branch of an `if`, as many turns as the declared bound or else the literal end, each as it likes, one arm of a `match` after the comparisons up to it. |
| CostRuns.BlockMost | rs/cost/analyzer.rs:207-216 | The same for a block with its tail. |
| WorstCase.WorstCaseExactly | rs/cost/analyzer.rs:259-277 | However often loops without a bound turn, no run of a block exceeds its cost, if and only if no run can get into a loop with neither a declared bound nor a literal end. |
| WorstCase.LoopFigure | rs/cost/visit.rs:85-113 | There is a figure exactly if a statement of the body is a loop; it is about the first one, and gives the most that one turn may take and the most turns it may make. |
| WorstCase.ReportIsWorstCase | rs/cost/analyzer.rs:96-118 | Where no function reaches itself, every function is reported, in every table, at the most that calling it may take, calls of calls included. |
| WorstCase.TotalIsWorstCase | rs/cost/analyzer.rs:120-126 | The total of such a program is the most that its main function may take, and a call more. |
| WorstCase.TotalIsSum | rs/cost/analyzer.rs:120-126 | Without a main function the total is the sum of the reported costs. |
| Cost.BlockSame | rs/cost/analyzer.rs:207-216 | The cost of a block depends only on the costs of the functions it calls. |
| CallOrder.GuardHitsOnlyItself | rs/cost/analyzer.rs:176-205 | Where calls of other functions go down in rank, with a correct memo, a call is charged what the plain recursive definition says; the guard is hit only by calls of a function by itself. |
| CallOrder.OrderDoesNotMatter | rs/cost/analyzer.rs:104-122 | For every target: if no function reaches itself through a different one, no two orders report a function differently. |
| CallOrder.ReportIsSettled | rs/cost/analyzer.rs:96-122 | Then the report of a whole file has every function and every first loop at its settled cost, in whatever order the file is gone through. |
| CallOrder.PlainCostIsPlain | rs/cost/analyzer.rs:176-205 | The plain definition, a function's calls of itself counted as nothing, has a solution for every program whose other calls go down in some rank. |
| CallOrder.PlainIsComplete | rs/cost/analyzer.rs:176-205 | Where a function does not call itself either, nothing is left out: it costs what its body costs with every call charged in full. |
| CallCircles.OrderShowsExactly | rs/cost/analyzer.rs:199-204 | For a target that counts calls, two orders report some function differently if and only if some function reaches itself through a different one. |
| CallCircles.CircleShows | rs/cost/analyzer.rs:176-205 | At every call of such a circle the caller is reported at strictly less before its callee than after it. |
| CallCircles.UnrelatedFunctionShows | rs/cost/analyzer.rs:106-122 | A file on which it shows: a function that nothing calls, and whose first loop calls one of two functions that call each other, raises what the other is reported at from 2 to 3. |
| CallCircles.CircleMayHide | rs/cost/analyzer.rs:218-262 | For a target that multiplies by a loop's turns there is a program with such a circle that every order reports the same. |
| FriFold.SplitAt | patches/gpu.rs:100-105 | At x and at -x a polynomial is the sum and the difference of its even part and x times its odd part, at the square. |
| FriFold.FoldsPair | patches/gpu.rs:125-133 | One folded element is the even part plus the challenge times the odd part, at the square. |
| FriFold.FoldsCodeword | patches/gpu.rs:106-134 | Over every commutative ring in which two has an inverse: if the codeword holds the values of f on a domain whose second half is the first negated, the folded codeword holds the values of the folded polynomial, with half as many coefficients, on the squares of the first half. |
| FriFold.BaseFieldIsRing | patches/gpu.rs:119-124 | The machine's words are such a ring. |
| ExtensionField.XFieldIsRing | patches/gpu.rs:106-134 | So is the cubic extension modulo X^3 - X + 1, in which the codewords lie. |
| ExtensionField.XCubed | patches/gpu.rs:106-134 | It is that extension: the cube of X is X - 1. |
| ExtensionField.FoldsExtension | patches/gpu.rs:106-134 | A codeword over the extension on a symmetric domain of words, folded with the words' inverses and the half of one, holds the values of the folded polynomial on the squares. |

## Left out

- TritonLowering.TritonLowering.LowerOpOut: without the TIR operations on bits and shifts, the extension field, hashing, the sponge, Merkle steps, `Seal`, `ReadMem`, `WriteMem`, vector assertions, target calls, inline assembly, proof blocks and comments: they pass through to one native instruction, or are the same permutations in front of an instruction that is not modelled.
- `Return` inside a branch or a loop body: the generated block returns to the line after its call, not from the function, so it has no meaning here.
- Modules are lists of functions, each from `FnStart` to `FnEnd`, with an optional entry; flat TIR outside functions is lowered by the model but not given a meaning.
- Compilation.LoweringPreservesMeaning: says when a stop for want of memory is possible, not when it happens: a coalesced run asks for the width of its block, which is not a figure of the source.
- Divergence.ProgramHaltsExactly: says nothing about source runs that reach below the stack, call a label that does not exist or fall out of a function.
- DeepAccess.AccessWorks: depths below 2^32, the width of the source's operand; the same holds for the width of a shuffle, which the planner keeps to 4096.
- Typed entry parameters are modelled on their own in `Entry` and put in front of an arbitrary program, not made part of TIR.
- Linker.Reach: without the matching of inexact call targets by suffix (`rs/lower/linker.rs:88-113`): targets are taken as exact.
- DeadCode.LinkingPreservesRuns: compares with the program in which all prefixed functions are left in; `Executable` joins it to the lowering and the prefixing.
- Linker.Link: without the library code appended for registered entrypoints; lines are instructions, so trimming, empty lines and comments are gone; in the source a label in a comment line would be read as one.
- The verifier, the hash library and the claim codec that the recursive programs call: the binder is proved for every codec that copies the input words to places of its own, and for any routines under the two labels it calls.
- Loader.LoadsWords: the framing of `assembly` around the loader (schema check, commitment check, proof-length comparison) is not modelled; the guards and the loops are.
- Proving and verifying with the STARK, `encode_proof` and `decode_proof` of the CCS module, and conversion of claims.
- The tree height is a parameter where the source fixes 29; the nonce derivation and the block hash are one arbitrary predicate on attempt and worker.
- Mining.MiningOutcome: a batch device that reports no winner is trusted to have found none; the device's kernel is not part of this model. A device that reports a nonce that does not win makes the worker panic, as in the source.
- Memory ordering of the atomics: reservation and publication are single atomic steps.
- `Template::parse`, the rule and backend tables of the mining session and all JSON: a fetch either gives a template or an error.
- The cost algebra of `rs/cost/model/mod.rs` and the target's tables: the analysis is proved for every algebra, so overflow of a table is whatever its addition makes of it. The loop-bound warnings of the report and the figures derived from the total (instruction count, padded height, proving time) are left out.
- WorstCase.ReportIsWorstCase: what a run may take is defined on the syntax that the analysis sees, with the target's charges for each construct, not on the emitted code; a `return` is taken for its value, and what follows it is charged as well.
- CostAnalysis.CostAnalyzer.AnalyzeFile: for the functions in any order; the source takes them in the order of their names.
- The bounded JSON admission parser (`neptune/json.rs`), input validation (`rs/convert.rs:16-37`), the number-theoretic transforms and matrix products beside the FRI fold, the optimiser, the GPU hosts, and all command-line, file, network and process handling.
