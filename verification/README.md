# Models of the pipelined CPU, its runtime and its workloads

These modules model eight parts of the repository in Dafny and prove what each part is for. One file
holds one module (`Rv32Isa.dfy` holds two). `dafny verify dfyconfig.toml` checks all of them.

## The parts

**Five-stage RV32I core** (`IP/pipeline-cpu`). `PipelineStages` is the combinational logic, one function for
each output of a Verilog module; `PipelineCpu` is the clocked core as a class with its stage registers,
and one edge of it as a function. `Rv32Words` and `Rv32Isa` are an independent definition of RV32I, chapter 2 of
the RISC-V Unprivileged ISA, one instruction at a time; `Rv32Encoding` proves that it decodes exactly the
instruction listings of the manual, and `Rv32Facts` says in plain arithmetic what the words, registers, bytes and comparisons
are that definition and core share. The link is made in three steps: `PipelineDatapath` proves that the logic without the pipeline has the effect of RV32I, `PipelineRefinement` proves the
invariant that forwarding, stalls and flushes maintain, and `PipelineTheorem` draws the conclusions for whole
runs, with the exact cycle of every commit. The theorem assumes, of every instruction of the sequential run,
that it is RV32I and not the skipped store below, that a `jalr` target is even, and that fetching up to three
instructions ahead reads what would be fetched later; where they hold up to some instruction, everything up to its
commit is right. `PipelineConditions` proves that the last condition follows when nothing stores into code and that all
conditions are met by a program that stalls and jumps; `PipelineWitnesses` gives power-on states without each condition on
which the core commits something else.

**Skew suffix sort** (`ssort.cc`). `RadixSort` has the counting sort and the stable sort it is proved equal to;
`SuffixOrder` the order of suffixes and the facts about triples, reduced strings and ranks; `SkewPhases` what
each phase hands to the next; `SkewSort` the program on its arrays, every loop a method, recursion included.

**Dinic's maximum flow** (`dinic.cc`). `FlowTheory` has flows on paired arcs, cuts and duality, `DinicSteps`
what one search and one push do, `Dinic` the class on its arrays. The search reuses `d` without clearing it, and
a push computes a residual before it recurses; both are kept as they are.

**Brainf\*\*k compiler and machine** (`bf.c`). `BfLanguage` has structured programs and their meaning,
`BfMachine` the instructions and the simulation, `BfParsing` which token lists are programs, `BfText` what a source text does
character by character, without opcodes or structured programs, and that the meaning is the same, `BfCompiler` both
routines on their arrays.

**x86 page tables** (`vme.c`), for both layouts. `PageTree` has tables as trees, `PageMemory` the memory
that holds them, `VmeConfig` the address layouts, `VmeSteps` the steps of the walk and what an address space keeps,
`Vme` the routines, `VmeRuns` whole runs of calls on any number of address spaces.

**Merge sort on linked nodes** (`core_list_join.c`). `ListOrder` has orders that survive data changing under
them and the links of lists, `ListSort` the program on nodes in the heap.

**Multiword arithmetic** (`int64.c`, `longlong.h`, `multi3.c`). `Powers` has powers of two and bitwise operators,
`WordDivision` the unsigned division and zero counts on 32-bit words, `SignedDivision` the signed routines,
`LongLong` two-by-one division and the multiplications, for any half-word base of at least 2 where the macros are
generic.

**Combinatorial and parsing cores.** `BitMasks` and `Queens` (`queen.c`); `InversionParity`, `Puzzle` and `Grid`
(`puzzle.h`), with `WordCycles` and `PuzzleSolving` for the converse, that every board accepted as solvable can be
solved, and `PuzzleDistance` for the sizes whose distances fit their field; `ExprSyntax`, `ExprEval` and `ExprNumerals`
(`expr.c`); `MatrixPower` and `Fib` (`fib.c`); `PseudoLru`
(`pseudoLRU.sv`). `Counting` holds facts about lists that several modules use.

## How the code is modelled

- What the code changes in place is changed in place: stage registers, arrays, linked nodes, page memory and the
  tree bits are fields or arrays with `modifies` clauses. A C function whose loops are long is split into methods
  that are called in the order of the loops; those methods carry ghost parameters that name the data at entry.
- Machine words wrap around where that decides the result: all words of the pipeline, the division and
  multiplication routines, cells and pointer of the virtual machine, queen counts and masks, expression values,
  matrix entries and addresses of the copy loop. Elsewhere integers are unbounded; see below.
- A panic, a failed assertion or an error return is an outcome (`ok` false, `Stopped`, -1), never a precondition.
- Randomness, devices and callers are left outside. The memory of the core is a map of bytes, reads of absent
  bytes give zero. `pgalloc` hands out the front of a pool of existing, distinct, non-zero pages, `pgfree` appends
  to it. The two benchmark kernels and the checksum of `calc_func` are arbitrary functions. Input of the virtual
  machine is a function from position to the cell it fills.

## Where code and intent differ

- `IP/pipeline-cpu/decode.v:309` turns the store `sw x0, 0(x1)` into nothing. `PipelineConditions.SkippedStoreExact`
  says exactly when that is harmless.
- `IP/pipeline-cpu/select_pc.v:8` fetches a `jalr` target without clearing bit 0, while the committed next pc at
  `execute.v:42` has it cleared. `PipelineRefinement.JumpTarget` says they agree exactly for even targets.
- There is no path for pc + 4 out of the memory stage (`decode.v:267-268`). The invariant shows why none is needed:
  behind a jump in that stage there are only bubbles.
- `IP/pipeline-cpu/regE.v:48-69` does not reset the instruction word of a bubble. The model does not either.
- `core_list_join.c:487` mentions the empty list, but line 484 writes through a null tail for it, the outcome `ok` false of
  `ListSort.Mergesort`.
- `puzzle.h` keeps the distance in 8 bits for every size; `PuzzleDistance.DistanceFits` says that five rows are the most.
- `int64.c:364` overflows for the minimum divided by -1 and gives the minimum again; `SignedDivision.Divdi3` says this
  is the only case.
- `expr.c:210` expects 320 entries to suffice for any expression. `ExprEval.CheckParentheses` says exactly when they do, and
  `ExprEval.MinusesNest` names expressions for which they do not; a write behind them is the outcome `overflow`.
- `expr.c:299-308`, after an unknown register, takes the rest of the expression for 0, so that a division then stops the
  program where the failure was to be reported. `ExprEval.MeaningIsZeroed` and `ExprEval.UnknownReported` say exactly when it
  is reported, `ExprEval.UnknownDividend` names cases.
- `ctrl.v:35` also stalls behind a load into x0, whose value nothing can use; `PipelineTheorem.IdleLoadStalls` is a case.
- `queen.c` counts in 32 bits, so that the count is the number of placements modulo 2^32.

## Model

| member | source | states |
|---|---|---|
| PipelineTheorem.CommitsAreSequential | IP/pipeline-cpu/CPU.v:13-303 | From any power-on state, at every cycle: a raised commit output is an instruction of the sequential RV32I run in its turn, with its pc, word, next pc, registers before and after and memory after all equal to that run |
| PipelineTheorem.EveryInstructionCommits | IP/pipeline-cpu/CPU.v:13-303 | Every instruction of the sequential run does commit, in exactly the cycle the schedule gives it |
| PipelineTheorem.CommitsUpTo | IP/pipeline-cpu/CPU.v:13-303 | If the conditions hold of the instructions up to number n, whatever the program does later, then all that commits up to the cycle of instruction n is the sequential run in its turn |
| PipelineTheorem.CommitsInItsCycle | IP/pipeline-cpu/CPU.v:13-303 | If the conditions hold of the instructions up to number n, instruction n commits in exactly the cycle the schedule gives it |
| PipelineTheorem.CycleCount | IP/pipeline-cpu/ctrl.v:35-50 | The commit cycle of instruction k is a fill of 4, plus k, plus the load-use stalls before it, plus twice the taken jumps before it |
| PipelineTheorem.CommitWithinBound | IP/pipeline-cpu/ctrl.v:35-50 | From every cycle on a commit follows: at most two cycles without one once the pipeline has filled |
| PipelineTheorem.WaitForCommit | simulator/src/sim/sim.c:94-96 | The wait loop ends within four edges, at a cycle that commits the next instruction of the run |
| PipelineTheorem.StallIsPenalty | IP/pipeline-cpu/ctrl.v:35-40 | The core stalls exactly when, by the instructions themselves, the next one reads the register being loaded, or follows a load into x0 and reads x0 or has fewer than two source registers; it flushes exactly on taken jumps |
| PipelineTheorem.HazardIs | IP/pipeline-cpu/ctrl.v:35 | The comparison of register numbers decides that condition for every pair of supported words |
| PipelineTheorem.IdleLoadStalls | IP/pipeline-cpu/ctrl.v:35 | A stall for nothing: lw x0, 0(x0) delays lui x5, 0 |
| PipelineRefinement.StepInv | IP/pipeline-cpu/CPU.v:13-303 | One edge keeps the invariant that ties all five stages, the registers and the memory to the sequential run, and says when an instruction enters execute |
| PipelineRefinement.OperandIsCurrent | IP/pipeline-cpu/decode.v:266-279 | Forwarding is complete: absent a load-use stall or a pending jump the selected operand is the register value of the sequential run |
| PipelineRefinement.ForwardFromM | IP/pipeline-cpu/decode.v:267-268 | The two memory-stage paths suffice for every instruction that is not a jump, so no pc + 4 path from there is needed |
| PipelineRefinement.JumpTarget | IP/pipeline-cpu/select_pc.v:8 | The pc fetched after a jump is the committed next pc if and only if a jalr target is even |
| PipelineCpu.Cpu.Posedge | IP/pipeline-cpu/CPU.v:13-303 | One clock edge of the registers in place is the next-state function, with or without reset |
| PipelineDatapath.DatapathIsRv32i | IP/pipeline-cpu/decode.v:259-338 | For every supported word in every state, decode, ALU, memory and write-back together have exactly the effect RV32I defines |
| PipelineConditions.SkippedStoreExact | IP/pipeline-cpu/decode.v:309 | On sw x0, 0(x1) the core leaves a state no program can tell from that of RV32I if and only if the addressed word already reads as zero |
| PipelineConditions.SkippedStoreDiffers | IP/pipeline-cpu/decode.v:309 | It does differ when the store is to wipe out its own instruction word |
| PipelineWitnesses.FirstCommitExact | IP/pipeline-cpu/CPU.v:13-303 | From every power-on state, on any program, the first commit is in cycle 4, and it is right exactly when the logic without the pipeline is right on that instruction |
| PipelineWitnesses.SkippedStoreCommits | IP/pipeline-cpu/decode.v:309 | A core that powers on before that store commits it with an effect RV32I does not have; SkippedStorePower gives the state |
| PipelineConditions.OddTarget | IP/pipeline-cpu/select_pc.v:8 | With jalr x0, 1(x0) in execute the core fetches from 1 and will report 0 as the next pc |
| PipelineWitnesses.OddJalrCommits | IP/pipeline-cpu/select_pc.v:8 | A core that powers on before that jump next commits the instruction at 1, in cycle 7, where RV32I goes to 0; OddJalrPower gives the state |
| PipelineWitnesses.OverwriteCommits | IP/pipeline-cpu/fetch.v:12-14 | A core that powers on before a store into the next instruction commits the old word of that instruction, so that the condition on fetching ahead is needed; OverwritePower gives the state |
| PipelineConditions.FixedCodeIsFetchStable | IP/pipeline-cpu/fetch.v:12-14 | If no instruction of the run stores into the fetched bytes, fetching ahead always reads the right word |
| PipelineConditions.HazardIsRunnable | IP/pipeline-cpu/ctrl.v:35-40 | The conditions of the pipeline theorem hold for a program with a load, an instruction that uses what it loads and a jump |
| PipelineConditions.HazardOccurs | IP/pipeline-cpu/ctrl.v:35-40 | In that program the stall and the flush do occur; HazardBoots gives a power-on state that holds it at the reset pc |
| Rv32Facts.IsaComparesSigned | IP/pipeline-cpu/decode.v:333-334 | In the RV32I definition blt, bge and slt compare two words as what they are after moving both by 2^31: the sign bit counts negatively |
| Rv32Facts.CoreComparesSigned | IP/pipeline-cpu/execute.v:33 | The branch decision and the ALU of the core compare in that way too, for all operands |
| Rv32Facts.SraIs | IP/pipeline-cpu/execute.v:37 | An arithmetic shift moves every bit down and puts copies of the sign bit above them |
| Rv32Facts.AddIs | IP/pipeline-cpu/execute.v:30 | The sum of both the definition and the core is what a subtraction undoes |
| Rv32Facts.StoredBytes | IP/pipeline-cpu/memory.v:49-59 | A store of 1, 2 or 4 bytes leaves the low bytes of the value, least significant first, at consecutive addresses and no other byte changed, wrap-around included |
| Rv32Facts.BytesOfWord | IP/pipeline-cpu/memory.v:33-39 | A word read from memory has the four bytes there, least significant first |
| Rv32Facts.ByteAtIs | IP/pipeline-cpu/memory.v:46-47 | The bytes of a word are at its address and the ones after it |
| Rv32Facts.ReadAfterWrite | IP/pipeline-cpu/regfile.v:28-38 | A register reads as the value last written to it; register 0 reads as zero whatever is written |
| Rv32Encoding.Packed | IP/pipeline-cpu/decode.v:55-61 | From a word put together from opcode, registers and function codes at their bit positions the decoder takes exactly those fields |
| Rv32Encoding.DecodesOp | IP/pipeline-cpu/decode.v:183-192 | Each of the ten register operations, encoded as the manual lists it, is decoded as that operation on those registers |
| Rv32Encoding.DecodesOpImm | IP/pipeline-cpu/decode.v:158-166 | Each operation with a 12-bit immediate, encoded as listed, is decoded as that operation, the immediate extended by its sign bit |
| Rv32Encoding.DecodesShift | IP/pipeline-cpu/decode.v:159-164 | Each shift by an immediate amount, encoded as listed, is decoded as that shift |
| Rv32Encoding.DecodesLoad | IP/pipeline-cpu/decode.v:168-172 | Each load, encoded as listed, is decoded as that load with its offset |
| Rv32Encoding.DecodesStore | IP/pipeline-cpu/decode.v:202-204 | Each store, whose offset stands in two pieces of the word, is decoded as that store |
| Rv32Encoding.DecodesBranch | IP/pipeline-cpu/decode.v:195-200 | Each branch, whose offset stands in four pieces of the word, is decoded as that branch |
| Rv32Encoding.DecodesJump | IP/pipeline-cpu/decode.v:174-206 | jal, whose offset stands in four pieces of the word, and jalr are decoded as such |
| Rv32Encoding.DecodesUpper | IP/pipeline-cpu/decode.v:154-155 | lui and auipc, encoded as listed, are decoded as such |
| Rv32Encoding.DecodesSystem | IP/pipeline-cpu/decode.v:64-75 | Fences of any kind are decoded as fences, and the words of ecall and ebreak as environment calls |
| Rv32Encoding.OnlyListed | IP/pipeline-cpu/decode.v:154-206 | A word that is decoded as an instruction has the codes listed for that instruction |
| SkewSort.SuffixArray | software-test/benchmarks/microbench/src/ssort/ssort.cc:27-85 | For every n >= 2 and text over 1..K with three zeros after it, the call ends and leaves every position once, in strictly increasing order of suffixes, and nothing beyond n is written |
| SuffixOrder.SuffixArrayUnique | software-test/benchmarks/microbench/src/ssort/ssort.cc:25-27 | A text has only one suffix array, so the result is determined |
| SkewSort.SortSample | software-test/benchmarks/microbench/src/ssort/ssort.cc:34-59 | After the first phases, recursion included, the two sampled thirds are sorted by suffix and every sampled suffix has its rank |
| SkewSort.MergePhase | software-test/benchmarks/microbench/src/ssort/ssort.cc:61-84 | From sorted and ranked samples the last phases produce the suffix array |
| SuffixOrder.SufLessMeans | software-test/benchmarks/microbench/src/ssort/ssort.cc:25-27 | The order of suffixes is the lexicographic one, decided by the first difference, a suffix that ends coming first |
| RadixSort.RadixPass | software-test/benchmarks/microbench/src/ssort/ssort.cc:14-23 | The output is the stable sort of the input by the keys, and the rest of the output array is untouched |
| RadixSort.StableSortPermutes | software-test/benchmarks/microbench/src/ssort/ssort.cc:13-14 | That stable sort keeps every element with its multiplicity |
| RadixSort.StableSortOrdered | software-test/benchmarks/microbench/src/ssort/ssort.cc:13-14 | It orders by key, and by whatever order the input had among equal keys |
| RadixSort.CountKeys | software-test/benchmarks/microbench/src/ssort/ssort.cc:16-18 | After the counting loops each counter is the number of elements with that key |
| RadixSort.PrefixSums | software-test/benchmarks/microbench/src/ssort/ssort.cc:19-21 | After the summing loop each counter is where the bucket of its key starts in the sorted output |
| RadixSort.Distribute | software-test/benchmarks/microbench/src/ssort/ssort.cc:22 | The distribution loop turns bucket starts into the stable sort |
| SkewSort.SamplePositions | software-test/benchmarks/microbench/src/ssort/ssort.cc:34-36 | Lists exactly the positions 1 and 2 mod 3, with the dummy one when n is 1 mod 3 |
| SkewSort.SortTriples | software-test/benchmarks/microbench/src/ssort/ssort.cc:38-41 | The three passes sort the sampled positions by their three characters |
| SkewSort.NameTriples | software-test/benchmarks/microbench/src/ssort/ssort.cc:43-51 | The name array gives each sampled position the number of its triple, and the count of different triples is returned |
| SuffixOrder.ReducedOrder | software-test/benchmarks/microbench/src/ssort/ssort.cc:53-55 | Suffixes of the name string are ordered as the text suffixes they stand for, which makes the recursion sound |
| SkewSort.StoreRanks | software-test/benchmarks/microbench/src/ssort/ssort.cc:56-57 | After the recursion each sampled position holds its place in the suffix array |
| SkewSort.InvertNames | software-test/benchmarks/microbench/src/ssort/ssort.cc:58-59 | Without equal names, inverting them gives the suffix array of the name string |
| SkewPhases.RanksFromSuffixArray | software-test/benchmarks/microbench/src/ssort/ssort.cc:56-57 | Places in the suffix array of the names compare as the sampled text suffixes |
| SkewSort.MultiplesOfThree | software-test/benchmarks/microbench/src/ssort/ssort.cc:61-62 | Collects the multiples of three in the order of the suffixes after their first character |
| SkewPhases.ThirdsSortedByFirst | software-test/benchmarks/microbench/src/ssort/ssort.cc:63 | Stably sorting it by first character orders the suffixes at multiples of three |
| SuffixOrder.MergeCompare1 | software-test/benchmarks/microbench/src/ssort/ssort.cc:7-9 | A pair comparison of character and rank decides between a suffix at 1 mod 3 and one at 0 mod 3 |
| SuffixOrder.MergeCompare2 | software-test/benchmarks/microbench/src/ssort/ssort.cc:10-12 | A triple comparison of two characters and a rank decides between 2 mod 3 and 0 mod 3 |
| SkewSort.SampleFirstRight | software-test/benchmarks/microbench/src/ssort/ssort.cc:70-72 | The comparison written in the merge reads inside its arrays and is the comparison of the two suffixes |
| SkewSort.SmallerHead | software-test/benchmarks/microbench/src/ssort/ssort.cc:67-72 | One merge comparison yields the smaller of the two heads and where it came from |
| SkewSort.MergeSuffixes | software-test/benchmarks/microbench/src/ssort/ssort.cc:65-84 | The merge loop with its two drain loops outputs the merge of both lists |
| SkewPhases.MergedIsSuffixArray | software-test/benchmarks/microbench/src/ssort/ssort.cc:65-84 | Merging sorted lists that cover the positions gives the suffix array |
| Dinic.Dinic.Maxflow | software-test/benchmarks/microbench/src/dinic/dinic.cc:93-102 | For different source and sink the call ends, leaves a flow on the same network, returns its gain in value, and no flow is larger: the vertices last reached are a cut of that capacity |
| Dinic.Dinic.DFS | software-test/benchmarks/microbench/src/dinic/dinic.cc:77-91 | Sends exactly the returned amount, at most the limit, from x to t; keeps capacities and antisymmetry, leaves arcs at lower levels alone, and sends something whenever a level path with room exists |
| Dinic.Dinic.BFS | software-test/benchmarks/microbench/src/dinic/dinic.cc:57-75 | Says whether the sink is reached; every reached vertex has a parent one level lower, and no arc with room leaves the reached set, although old levels are never cleared |
| Dinic.Dinic.Scan | software-test/benchmarks/microbench/src/dinic/dinic.cc:64-72 | Scanning one vertex reaches the ends of all its arcs with room and keeps what is queued |
| Dinic.Dinic.AddEdge | software-test/benchmarks/microbench/src/dinic/dinic.cc:47-55 | Adds a forward arc with the capacity and a partner with none, threaded into both lists; nothing for capacity 0 |
| Dinic.Dinic.constructor | software-test/benchmarks/microbench/src/dinic/dinic.cc:28-45 | A graph starts without edges, every list empty |
| FlowTheory.PushMoves | software-test/benchmarks/microbench/src/dinic/dinic.cc:83-84 | Pushing along an arc and back along its partner keeps the flow admissible and changes the balance of its two ends only |
| FlowTheory.SaturatedCutIsMaximum | software-test/benchmarks/microbench/src/dinic/dinic.cc:93-102 | A flow that fills a cut equals its capacity and bounds every other flow |
| DinicSteps.PushOn | software-test/benchmarks/microbench/src/dinic/dinic.cc:82-86 | A recursive push from the end of an arc, followed by a push along it, is a push from its start, although the residual was computed before the recursion |
| DinicSteps.BackToSource | software-test/benchmarks/microbench/src/dinic/dinic.cc:67-70 | From any reached vertex that can push to the sink a level path extends back to the source |
| DinicSteps.FailedSearchIsMaximum | software-test/benchmarks/microbench/src/dinic/dinic.cc:96-101 | A search that misses the sink proves the flow maximum |
| DinicSteps.ZeroIsFlow | software-test/benchmarks/microbench/src/dinic/dinic.cc:47-55 | A freshly built network with non-negative capacities carries the zero flow, which is where a run may start |
| BfCompiler.Machine.Compile | software-test/benchmarks/microbench/src/bf/bf.c:65-102 | Succeeds if and only if the text has fewer than 4096 code characters and brackets that balance and nest at most 512 deep; then the program memory holds the structured program with that text, and running it halts with exactly what the run of the text, character by character, ends with |
| BfText.CompiledRunsText | software-test/benchmarks/microbench/src/bf/bf.c:65-124 | Compiled code halts with some data, pointer, input and output if and only if the run of the source text ends with them: + and - step a cell modulo 2^16, > and < the pointer and off the data at its edges, a dot writes a cell modulo 2^8, a comma reads, a bracket loops while the cell is not zero, any other character does nothing |
| BfText.TextMeaning | software-test/benchmarks/microbench/src/bf/bf.c:70-93 | That run of a text is the meaning of the structured program it is the text of, for every memory, input and number of loop rounds |
| BfText.LoopText | software-test/benchmarks/microbench/src/bf/bf.c:80-93 | The body of a loop is the text up to the bracket that closes it, counting brackets in between |
| BfText.AcceptsText | software-test/benchmarks/microbench/src/bf/bf.c:65-102 | Which token lists are accepted is which texts are, by counting characters and brackets |
| BfCompiler.Machine.Execute | software-test/benchmarks/microbench/src/bf/bf.c:108-124 | Performs machine steps on program, data, input and the output buffer until it halts, is about to write behind the buffer, or has used up the step limit |
| BfMachine.BufferSuffices | software-test/benchmarks/microbench/src/bf/bf.c:116 | A compiled program that ends writes behind the output buffer if and only if its source writes more than the buffer holds |
| BfMachine.CompiledMeansSource | software-test/benchmarks/microbench/src/bf/bf.c:65-124 | Compiled code halts with some data, pointer, input and output if and only if the structured program ends with them |
| BfMachine.Simulation | software-test/benchmarks/microbench/src/bf/bf.c:108-124 | Whatever the structured program does within its fuel, ending, running off the data or going on, the machine does in some number of steps |
| BfMachine.HaltedIsLast | software-test/benchmarks/microbench/src/bf/bf.c:110 | A run has at most one halted state, its last |
| BfMachine.StaysInside | software-test/benchmarks/microbench/src/bf/bf.c:110-122 | The program counter never leaves the compiled program |
| BfMachine.JumpsPair | software-test/benchmarks/microbench/src/bf/bf.c:88-91 | Operands of matching brackets point at each other |
| BfMachine.JumpsNest | software-test/benchmarks/microbench/src/bf/bf.c:88-91 | Two loops are disjoint or one contains the other |
| BfParsing.ProgramsAccepted | software-test/benchmarks/microbench/src/bf/bf.c:77-99 | A structured program is accepted if and only if it fits the program memory and nests within the stack |
| BfParsing.UniqueParse | software-test/benchmarks/microbench/src/bf/bf.c:65-102 | A token list is the text of at most one program |
| BfCompiler.CompiledIsSource | software-test/benchmarks/microbench/src/bf/bf.c:65-102 | The compiled program is the program the source was written from |
| Vme.Machine.Map | abstract-machine/am/src/x86/qemu/vme.c:141-156 | Panics exactly on an address outside user space, an unaligned address, a missing or present mapping as the request forbids, or too few free pages; otherwise the walk of va finds the new entry, every other walk in user or kernel space what it found before, and pages only move from the pool into tables; every entry above the last on the walk of va is then present, writable and user, and the last one is present and user with the page asked for, and writable exactly when prot says so |
| Vme.Machine.Protect | abstract-machine/am/src/x86/qemu/vme.c:117-135 | The new address space has the translations of the kernel for all kernel addresses and none else, in one page taken from the pool |
| Vme.Machine.Unprotect | abstract-machine/am/src/x86/qemu/vme.c:137-139 | Frees exactly the tables of the address space, each once, no kernel table and no mapped page: pool and tables together are what they were |
| Vme.Machine.Teardown | abstract-machine/am/src/x86/qemu/vme.c:77-87 | Frees the tables under an entry, children before parents, and no page the last level maps |
| Vme.Machine.Ptwalk | abstract-machine/am/src/x86/qemu/vme.c:57-75 | Panics exactly when fewer pages are free than tables are missing; otherwise every table on the path exists, no translation has changed, and the place of the last entry is returned; if the tables already there were present, writable and user, so are all on the path |
| Vme.Machine.Pgallocz | abstract-machine/am/src/x86/qemu/vme.c:40-47 | Takes the next free page and clears it, and panics when there is none |
| Vme.Machine.CopyArea | abstract-machine/am/src/x86/qemu/vme.c:123-130 | The loop over one kernel area copies all entries it spans, wrap-around of the address included |
| VmeSteps.MappingKeeps | abstract-machine/am/src/x86/qemu/vme.c:141-156 | A mapping in user space keeps the address space well-formed and changes the walk of its own path only, through user or kernel tables |
| VmeSteps.NewSpace | abstract-machine/am/src/x86/qemu/vme.c:117-135 | What the copied top-level entries make of a cleared page is a well-formed address space |
| VmeSteps.OtherSpace | abstract-machine/am/src/x86/qemu/vme.c:141-156 | Work on one address space within its stock of pages leaves every other one well-formed, apart and with the same translations |
| VmeRuns.LastCallWins | abstract-machine/am/src/x86/qemu/vme.c:117-156 | After any run of protect, map and unprotect on any spaces, every user address of every live space has the last mapping made or removed for its page in that space, and none if there was none since the space was made |
| VmeRuns.RunsStayOpen | abstract-machine/am/src/x86/qemu/vme.c:65-69 | After any run, on the way to every mapped user address of every live space all entries above the last are present, writable, user and no large page, so that the last mapping alone decides what the user may do |
| VmeRuns.KernelNeverChanges | abstract-machine/am/src/x86/qemu/vme.c:117-156 | After any run every live space translates every kernel address as the table of the kernel did at the start |
| VmeRuns.PagesComeBack | abstract-machine/am/src/x86/qemu/vme.c:77-87 | Spaces that are made, mapped into and removed during a run, in any interleaving, give back exactly the pages they took, whatever other spaces stay alive |
| VmeRuns.PagesStay | abstract-machine/am/src/x86/qemu/vme.c:77-87 | Over any run the free pages and the tables of the live spaces together are the same pages |
| VmeRuns.CallKeeps | abstract-machine/am/src/x86/qemu/vme.c:117-156 | Each call, also protect and unprotect, leaves all live spaces well-formed and sharing no table |
| VmeRuns.OthersKept | abstract-machine/am/src/x86/qemu/vme.c:117-156 | Each call leaves the tables and translations of all other live spaces as they were |
| VmeRuns.CallFinds | abstract-machine/am/src/x86/qemu/vme.c:141-156 | A call changes the mapping of an address only by naming its page and space, or by making the space |
| VmeRuns.ProtectAmong | abstract-machine/am/src/x86/qemu/vme.c:117-135 | protect among any live spaces is a step of such a run, and succeeds exactly when a page is free |
| VmeRuns.MapAmong | abstract-machine/am/src/x86/qemu/vme.c:141-156 | map among any live spaces is a step of such a run, and panics exactly on unacceptable requests |
| VmeRuns.UnprotectAmong | abstract-machine/am/src/x86/qemu/vme.c:137-139 | unprotect among any live spaces is a step of such a run |
| VmeRuns.FreshOk | abstract-machine/am/src/x86/qemu/vme.c:89-115 | A machine with an empty kernel table and any number of free pages is a state from which runs may start, in both layouts |
| VmeConfig.MasksAreFields | abstract-machine/am/src/x86/qemu/vme.c:3-22 | The masks of both layouts are bit fields that tile the address down to the page offset |
| VmeConfig.SamePath | abstract-machine/am/src/x86/qemu/vme.c:49-51 | Different user pages have different table paths |
| VmeConfig.KernelAddress | abstract-machine/am/src/x86/qemu/vme.c:123-130 | Every address of a kernel area goes through a copied entry |
| VmeConfig.UserRange | abstract-machine/am/src/x86/qemu/vme.c:25-33 | User space is 1 GiB from 0x40000000 in one layout and 512 GiB from 0x100000000000 in the other |
| VmeConfig.PathIs | abstract-machine/am/src/x86/qemu/vme.c:6-19 | The path of an address is its bits 31-22 and 21-12 in one layout, and 47-39, 38-30, 29-21 and 20-12 in the other |
| PageTree.Flags | abstract-machine/am/src/x86/qemu/vme.c:66-80 | Present, writable, user and large page are bits 0, 1, 2 and 7 of an entry, and its page number is what stands above bit 11 |
| PageTree.TableWordFacts | abstract-machine/am/src/x86/qemu/vme.c:69 | The entry of a new table is present, writable and user, has its page, and maps no large page |
| VmeSteps.PteBits | abstract-machine/am/src/x86/qemu/vme.c:152 | The entry that map writes has the page, is present and user, and is writable exactly when asked for |
| PageMemory.WalkIsGet | abstract-machine/am/src/x86/qemu/vme.c:57-75 | The walk in memory finds what the tree says |
| ListSort.Mergesort | software-test/benchmarks/coremark/src/core_list_join.c:426-496 | On any non-empty list the sort ends with a null-terminated list of the same nodes, each once, in order by key with equal keys in their first order, comparisons having changed the data only by remembering; every element of two or more ends compared: index and upper byte as at the start, and its low byte marked in bit 7 and kept from then on, equal to the upper byte, or as at the start, by the comparator; on the empty list, and only there, it writes through a null tail |
| ListOrder.OrderUnique | software-test/benchmarks/coremark/src/core_list_join.c:426-496 | Only one arrangement of the same elements is in order, so the result is determined |
| ListSort.Pass | software-test/benchmarks/coremark/src/core_list_join.c:433-484 | One pass turns runs of insize into runs of twice that, halves their number and counts the merges |
| ListSort.MergeRuns | software-test/benchmarks/coremark/src/core_list_join.c:454-478 | The merge of two runs, comparisons changing data meanwhile, appends their elements in order and leaves the rest of the list |
| ListSort.Step | software-test/benchmarks/coremark/src/core_list_join.c:442-448 | Stepping stops after insize nodes or at the end of the list |
| ListSort.CompareHeads | software-test/benchmarks/coremark/src/core_list_join.c:463 | One comparison says which head is next, equal keys favouring the first run |
| ListSort.CalcFunc | software-test/benchmarks/coremark/src/core_list_join.c:63-95 | Computes at most once per element: a remembered result is returned without touching any checksum, a fresh one is stored in the low byte with the mark bit; each kernel checksum is its first result that is not zero |
| ListSort.Cmp | software-test/benchmarks/coremark/src/core_list_join.c:101-118 | The comparator by data returns the difference of the low seven bits and leaves bit 7 set, what was marked before unchanged; the one by index returns the difference of the indices and without results leaves the low byte equal to the upper byte; index and upper byte stay |
| ListOrder.OrderedMeans | software-test/benchmarks/coremark/src/core_list_join.c:101-118 | In order means by the low seven bits of the data, or by index, and by first place where these are equal |
| ListOrder.RegeneratedIs | software-test/benchmarks/coremark/src/core_list_join.c:114-115 | Regenerating copies the upper byte into the lower and keeps the upper |
| ListOrder.OrderedEvolves | software-test/benchmarks/coremark/src/core_list_join.c:63-118 | Later comparisons do not disturb an order already established |
| ListOrder.DataRestored | software-test/benchmarks/coremark/src/core_list_join.c:112-118 | Sorting by data and back by index with regeneration restores every element |
| WordDivision.Udivmoddi4 | abstract-machine/klib/src/int64.c:412-620 | For every 64-bit dividend and every non-zero divisor the results satisfy a = q * b + r with r < b |
| WordDivision.DivideByHigh | abstract-machine/klib/src/int64.c:446-507 | The same on the branch for an empty low divisor word |
| WordDivision.DivideByLow | abstract-machine/klib/src/int64.c:510-558 | The same on the branch for a one-word divisor |
| WordDivision.DivideByBoth | abstract-machine/klib/src/int64.c:559-589 | The same on the branch for a divisor that uses both words |
| WordDivision.ShiftSubtract | abstract-machine/klib/src/int64.c:597-619 | From registers cut at the shift count the loop ends with quotient and remainder |
| WordDivision.DivideRound | abstract-machine/klib/src/int64.c:600-614 | One round on the four words brings down one bit and subtracts when it fits |
| WordDivision.Round | abstract-machine/klib/src/int64.c:600-614 | The same round on double words keeps what is divided, quotient so far and remainder consistent |
| WordDivision.SignMask | abstract-machine/klib/src/int64.c:612 | The sign of d - r - 1 says whether r reaches d, without overflow even for divisors with the top bit set |
| WordDivision.Clzsi2 | abstract-machine/klib/src/int64.c:626-655 | The result is the number of leading zero bits |
| WordDivision.Ctzsi2 | abstract-machine/klib/src/int64.c:661-695 | The result is the number of trailing zero bits |
| SignedDivision.Divdi3 | abstract-machine/klib/src/int64.c:355-365 | The quotient is rounded toward zero if and only if it is not the minimum divided by -1, which gives the minimum again |
| SignedDivision.OnlyOverflow | abstract-machine/klib/src/int64.c:355-365 | The minimum divided by -1 is the only quotient that does not fit |
| SignedDivision.TruncIsTowardsZero | abstract-machine/klib/src/int64.c:353-356 | Rounding toward zero leaves a remainder smaller than the divisor with the sign of the dividend |
| SignedDivision.Moddi3 | abstract-machine/klib/src/int64.c:379-390 | The result is the remainder of that rounding, for all non-zero divisors |
| SignedDivision.Divmoddi4 | abstract-machine/klib/src/int64.c:369-375 | Quotient and remainder of that rounding together, outside the one overflow |
| SignedDivision.Ctzdi2 | abstract-machine/klib/src/int64.c:703-709 | The result is the exponent of the largest power of two that divides the double word |
| SignedDivision.Clzdi2 | abstract-machine/klib/src/int64.c:711-717 | The result is the number of leading zero bits of the double word |
| LongLong.UdivQrnndC | abstract-machine/am/src/riscv/npc/libgcc/longlong.h:1681-1716 | For a divisor with the top bit set and a high word below it, the exact quotient and remainder of the two-word numerator |
| LongLong.HalfDigit | abstract-machine/am/src/riscv/npc/libgcc/longlong.h:1688-1699 | One half-word digit: exact, after at most two corrections of the estimate |
| LongLong.Corrections | abstract-machine/am/src/riscv/npc/libgcc/longlong.h:1692-1699 | Under wrapping words the two guarded corrections end at the exact digit and remainder |
| LongLong.UmulPpmm | abstract-machine/am/src/riscv/npc/libgcc/longlong.h:1080-1102 | The two result words are the exact product of two words |
| LongLong.Multi3 | abstract-machine/am/src/riscv/npc/libgcc/multi3.c:40-86 | The result is the product modulo 2^64, for all operands |
| LongLong.MultiplyLow | abstract-machine/am/src/riscv/npc/libgcc/multi3.c:58-77 | The shift-add loop ends with the exact product of the low words |
| Queens.Dfs | software-test/benchmarks/microbench/src/queen/queen.c:5-17 | From masks that describe a partial board the search returns the number of ways to complete it, as a 32-bit word |
| Queens.Run | software-test/benchmarks/microbench/src/queen/queen.c:21-28 | For sizes 1 to 30 the result is the number of lists of n columns in which no two are equal or as far apart as their rows, modulo 2^32 |
| Queens.AllPlacements | software-test/benchmarks/microbench/src/queen/queen.c:26-28 | The completions of the empty board are exactly the full placements, and the count is their number |
| Queens.CountIsSize | software-test/benchmarks/microbench/src/queen/queen.c:5-17 | The recursive count counts every completion once |
| Queens.PlacedMeans | software-test/benchmarks/microbench/src/queen/queen.c:5-17 | Placements are the boards on which no two queens share a column or a diagonal |
| Queens.MasksNext | software-test/benchmarks/microbench/src/queen/queen.c:13 | Placing a queen and shifting keeps the three masks equal to the columns and diagonals in use, bits lost at the edges included |
| Queens.CandidatesAre | software-test/benchmarks/microbench/src/queen/queen.c:9 | The candidate mask has exactly the columns no queen attacks |
| BitMasks.LowestBit | software-test/benchmarks/microbench/src/queen/queen.c:11-12 | pos & (~pos + 1) is the lowest set bit, and subtracting it clears that bit only |
| Puzzle.MoveKeeps | software-test/benchmarks/microbench/src/15pz/puzzle.h:203-305 | A legal move gives a board with the same verdict and a cached Manhattan distance equal to a recomputation |
| PuzzleDistance.DistanceFits | software-test/benchmarks/microbench/src/15pz/puzzle.h:203-305 | The distances of all boards fit the signed 8-bit field of the class if and only if there are at most five rows |
| PuzzleSolving.SolvableIsReachable | software-test/benchmarks/microbench/src/15pz/puzzle.h:307-347 | For every size, a board with its right distance is reachable from the solution by legal moves if and only if solvable accepts it |
| PuzzleSolving.SolvableIsSolved | software-test/benchmarks/microbench/src/15pz/puzzle.h:307-347 | From every accepted board legal moves lead to the solution |
| PuzzleSolving.LeadsBack | software-test/benchmarks/microbench/src/15pz/puzzle.h:203-305 | Every run of legal moves can be undone by legal moves |
| PuzzleSolving.GoTo | software-test/benchmarks/microbench/src/15pz/puzzle.h:255-305 | Along a snake through the rows the blank can go anywhere without changing the order of the tiles |
| PuzzleSolving.TriWithin | software-test/benchmarks/microbench/src/15pz/puzzle.h:203-253 | Any three tiles that follow each other along the snake can be rotated by legal moves |
| PuzzleSolving.ExchangedWord | software-test/benchmarks/microbench/src/15pz/puzzle.h:334-346 | Boards that differ in two tiles exchanged have different verdicts |
| WordCycles.SortTo | software-test/benchmarks/microbench/src/15pz/puzzle.h:203-305 | Rotating three neighbours at a time puts all tiles but the last two in place |
| Puzzle.LowerBound | software-test/benchmarks/microbench/src/15pz/puzzle.h:359-362 | No run of legal moves to the solution is shorter than the cached distance, and its length differs from it by an even number |
| Puzzle.TermSteps | software-test/benchmarks/microbench/src/15pz/puzzle.h:99-100 | A tile counts as many steps as its place is rows and columns away from its place in the solution |
| Puzzle.ReachableIsSolvable | software-test/benchmarks/microbench/src/15pz/puzzle.h:463-474 | Every board reachable from the solution is solvable, with the right cached distance |
| Puzzle.MoveBack | software-test/benchmarks/microbench/src/15pz/puzzle.h:203-305 | The opposite move is legal afterwards and restores the board |
| Puzzle.BadMove | software-test/benchmarks/microbench/src/15pz/puzzle.h:168-214 | A move gives a valid puzzle exactly when the test for it says so, and otherwise changes the flag only |
| Puzzle.Solvable | software-test/benchmarks/microbench/src/15pz/puzzle.h:316-347 | The answer is that the puzzle is valid and inversions plus the distance of the blank from its corner are even |
| Puzzle.FromArray | software-test/benchmarks/microbench/src/15pz/puzzle.h:78-115 | The constructed puzzle is valid if and only if the tiles are a permutation, and its distance is the sum over all tiles |
| Puzzle.CountPairs | software-test/benchmarks/microbench/src/15pz/puzzle.h:334-342 | The nested loops count the pairs out of order |
| InversionParity.ExchangeFlips | software-test/benchmarks/microbench/src/15pz/puzzle.h:316-347 | Exchanging two elements of a list without repetition changes the parity of its inversions |
| InversionParity.PairsAreInversions | software-test/benchmarks/microbench/src/15pz/puzzle.h:334-342 | Counting pairs from the earlier element equals counting from the later one |
| ExprEval.Eval | simulator/src/monitor/sdb/expr.c:271-317 | On the tokens of any expression the program stops if it nests deeper than the 320 entries, and otherwise stops exactly when the expression, with 0 from its first unknown register on, has no value, or else gives that value and reports whether all registers are known; it gives v with success exactly when v is the value of the expression by arithmetic on its leaves; with a value, success is kept if and only if it nests at most 320 deep |
| ExprEval.HasValueIs | simulator/src/monitor/sdb/expr.c:301-308 | An expression has at most one value, and it is the one computed: with values a and b of the operands, a sum minus b is a and a difference plus b is a modulo 2^32, a product is congruent to a * b, a quotient q has q * b <= a < q * b + b, and the tests are 1 or 0 exactly when they hold or not |
| ExprEval.ComputeIs | simulator/src/monitor/sdb/expr.c:301-308 | The word each operator gives meets that relation, for all operands |
| ExprNumerals.NumeralValue | simulator/src/monitor/sdb/expr.c:190-200 | A number of any size written in decimal, or in hexadecimal after 0x with small or capital letters, with or without U behind it, stands for that number modulo 2^32 |
| ExprNumerals.RegisterValue | simulator/src/monitor/sdb/expr.c:181-188 | A register is looked up by its name without the dollar sign |
| ExprEval.MeaningIsValue | simulator/src/monitor/sdb/expr.c:271-317 | What eval makes of an expression is its value with success if and only if all registers are known and no divisor is zero |
| ExprEval.MeaningIsZeroed | simulator/src/monitor/sdb/expr.c:299-308 | For every expression: the outcome is the value of the expression with 0 for the first unknown register and for every operand after it, a stop where that has none, and a reported failure otherwise |
| ExprEval.UnknownReported | simulator/src/monitor/sdb/expr.c:299-308 | Where all divisors are good an unknown register is reported, unless the first one stands in the dividend of some division, which stops the program |
| ExprEval.UnknownDividend | simulator/src/monitor/sdb/expr.c:299-308 | With an unknown register $zz, $zz / 2 and 2 / $zz stop the program and $zz + 2 is reported |
| ExprEval.CheckParentheses | simulator/src/monitor/sdb/expr.c:206-269 | It writes behind the 320 entries if and only if more parentheses than that are open at some token; otherwise the verdict is exact: outer pair, different pairs, no pair, or unbalanced |
| ExprEval.NestedOverflows | simulator/src/monitor/sdb/expr.c:210 | Around a number 320 pairs of parentheses are the most that fit |
| ExprEval.MinusesNest | simulator/src/monitor/sdb/expr.c:210 | The expression 1 - (1 - (1 - ...)) has a value at any depth and fits with up to 321 signs |
| ExprEval.GetPosition | simulator/src/monitor/sdb/expr.c:320-354 | The position is the last operator of least binding outside parentheses by the precedence rules, or none |
| ExprEval.Expr2Val | simulator/src/monitor/sdb/expr.c:179-201 | A numeral has its value modulo 2^32 in its base, suffix U ignored, and leaves success as it was; a register has its content and succeeds, an unknown one is 0 and fails |
| ExprSyntax.ParensOfShow | simulator/src/monitor/sdb/expr.c:216-240 | The tokens of an expression close every parenthesis they open and nest as deep as its tree demands |
| ExprSyntax.ScanOfShow | simulator/src/monitor/sdb/expr.c:323-351 | Scanning an expression has the effect of its main operator alone |
| ExprSyntax.MainWins | simulator/src/monitor/sdb/expr.c:332-348 | Against operands of the right binding the operator between them wins: && lowest, equality to the right, the others to the left |
| ExprSyntax.LevelsExact | simulator/src/monitor/sdb/expr.c:332-348 | No parentheses are demanded that the scan does not need: without them it splits elsewhere |
| MatrixPower.Recurrence | software-test/benchmarks/microbench/src/fib/fib.c:3 | The last entry of the n-th power of the companion matrix is the sum of the M values before it |
| MatrixPower.FirstValue | software-test/benchmarks/microbench/src/fib/fib.c:3 | The sequence starts with 1 |
| Fib.Run | software-test/benchmarks/microbench/src/fib/fib.c:43-60 | For every exponent and dimension, squaring and multiplying leaves the power of the companion matrix modulo 2^32 |
| Fib.Mult | software-test/benchmarks/microbench/src/fib/fib.c:16-24 | The table becomes the matrix product modulo 2^32 |
| Fib.Fill | software-test/benchmarks/microbench/src/fib/fib.c:44-50 | The tables start as the companion matrix and the unit matrix |
| Fib.Assign | software-test/benchmarks/microbench/src/fib/fib.c:26-30 | The target table holds the matrix of the source table |
| MatrixPower.PowerAdd | software-test/benchmarks/microbench/src/fib/fib.c:52-59 | Powers multiply by adding exponents |
| PseudoLru.OneVictim | IP/Linux/general/pseudoLRU.sv:50-66 | For every tree state exactly one entry is enabled for replacement |
| PseudoLru.SafeAfterHit | IP/Linux/general/pseudoLRU.sv:37-49 | An entry just hit is not the victim again before log2(ENTRIES) further hits |
| PseudoLru.HitCount | IP/Linux/general/pseudoLRU.sv:42-47 | One hit adds at most one to the bits that point at any entry and leaves none pointing at the entry hit |
| PseudoLru.PseudoLru.Posedge | IP/Linux/general/pseudoLRU.sv:34-75 | Reset clears the tree; otherwise the clock edge applies the hit to it in place, or keeps it |
| PseudoLru.PseudoLru.ReplaceEn | IP/Linux/general/pseudoLRU.sv:50-66 | The enable of an entry is the conjunction over its bits |
| PseudoLru.PseudoLru.ReplacementIdx | IP/Linux/general/pseudoLRU.sv:77-88 | The first enabled entry is the one the bits spell out, and 0 without enable |

## Left out

- BfCompiler.Machine.Execute: has a limit of steps, because the loop of a source program need not end; every limit is
  covered, and `BfMachine.CompiledMeansSource` speaks about whole runs. What a write behind the output buffer does to other
  memory is not modelled.
- ExprEval.Eval: on tokens that are not those of a minimally parenthesised expression it is only said that the routine ends,
  with a word or stopped, and never turns a failure into success.
- ExprEval.CheckParentheses: nothing is said about the verdict after a write behind the 320 entries.
- ListSort.CalcFunc: the state and matrix kernels and `crcu16` are arbitrary functions, so what they compute is not part of
  this model; the kernels may depend on how often they ran, on their seed and on the checksum.
- Dinic.Dinic.Maxflow: integers are unbounded, so overflow of the total flow is not modelled; vertices, capacities and
  flows of the benchmark are far below that.
- SkewSort.SuffixArray: array elements and sizes are unbounded, and the driver of the benchmark, whose text may hold 0, is
  not part of this model.
- ListSort.Mergesort: `insize` is unbounded, so its overflow for lists of more than 2^30 nodes is not modelled.
- Puzzle.MoveKeeps: the cached distance is unbounded; `PuzzleDistance.DistanceFits` says for which sizes that is the 8-bit
  field of the class. Hash values are left out.
- Puzzle.FromArray: takes tile numbers below N*N, since the code indexes an array with them unchecked.
- WordDivision.Udivmoddi4: division by zero is excluded, as the C language leaves it undefined; so is the branch at
  `int64.c:448-456`, which only such a divisor reaches.
- Vme.Machine.Ptwalk: page 0 is never free, because address 0 stands for failure, and the flags are always those of `map`.
- LongLong.UmulPpmm: covers the generic and the riscv form; the assembly forms of `longlong.h` are left out.
- Queens.Run: sizes 1 to 30, for which the masks fit a word.
- Pipeline: CSR accesses, SYSTEM instructions with a destination, RV32M and illegal encodings are outside the conditions;
  the simulator call for EBREAK and the initial register values of `regfile.v` are left out, any power-on state being
  covered.
- `vme_init`, loading CR3, large pages and user contexts of `vme.c`; the kernel table is any table without user entries.
- Allocation failure of `bench_alloc`, and freeing in the workloads.
- Dereference and the tokenizer of `expr.c`: a leading `*` skips its left operand, and tokens come from a regular
  expression library.
- The A* search, heap and hash of the 15-puzzle, and its random constructor.
- `IP/Linux` outside the pseudo-LRU: its scoreboard pointers are zeroed every cycle (`scoreboard.sv:134-135`) and its page
  walk indexes the level as a single bit (`ptw.sv:70`), so there is no intended behaviour to compare the code with. Its
  FIFO, return stack and branch history are independent of the parts here.
- QuickLZ, whose decompression is a stub, so that no round trip can be stated; the other list operations of CoreMark, none of
  which the sort calls; qsort, sieve, MD5, Dhrystone, string and stdio helpers, which none of the modelled parts uses.
- Device input and output, signals, Verilator, DPI, LLVM, boot code and difftest plumbing.
