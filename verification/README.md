# Verified models of a systems-course repository

The repository is a set of exercises around one small computer, the SM213, and around C programs with shared
state. This project models its hard parts in Dafny and proves what they are for. Everything is stated over all
inputs: every 32-bit word, every memory, every schedule, every command line.

## What is modelled

**The SM213 and its programs.** `Word` and `MainMemory` give two's-complement words and the big-endian byte
memory of a1/MainMemory.java; `Bits` says what the word operators do to each bit. `Isa` is the instruction set as functions on states; `Cpu.CPU` is the processor
of a7/CPU.java with its fetch and execute stages, proved against `Isa`. `SmJt` and `SmJtMachine.Machine` are
the second simulator, a7/sm_jt.c, in the same two forms. `Runs`, `Assembly`, `Assembler` and `Programs` are
the means to reason about a program in memory: the effect of each instruction, its layout in bytes, and the
frame argument that a run does not overwrite its own code. On top of them:

- `BitCount` and `BitCountCode`: a6/A6-3b.c and a6/A6-3b.s. The machine program, through its calls, stack
  frames and two nested loops, leaves the number of one bits of each x[k] in y[k]. The array length, both
  addresses and the stack address are parameters; 8, 0x2000, 0x2020 and 0x805c are one instance.
- `Switch` and `SwitchCode`: a7/A7_4.c and a7/A7_4.s. The machine program, through its wrapped range check and
  its jump table in memory, computes the switch for all i, j and m.
- `Shipped`: both programs, and the jump table, written into arbitrary memory, so that nothing is assumed to be
  loaded already; and both run on the processor object.
- `MaxProgram` and `MaxLoader`: the hand-assembled words of `loadMax` are decoded, loaded and run on the C
  simulator.
- `Portability`: on which instructions, and so on which runs, the two simulators agree.

**Bounded buffers.** `SemBuffer` (a9/pc_sem.c), `CondBuffer` (a9/pc_mutex_cond.c) and `SpinBuffer`
(a8/pc_spinlock.c) are transition systems with any number of producers and consumers, any iteration count and
any buffer size. `Counting` has the roles, the surplus, and the sums over threads and over the histogram that
all three use.

**Shared elements.** `SharedList`, `SharedTree` and `SharedRun` are the reference-counted elements of
a5/list.c and a5/tree.c, as classes that are updated in place, and the whole run of a5/p2.c.

**Arrays.** `GrowableList` is a7/list.c, `ExchangeSort` is a3/bubble_sort_dynamic.c.

## Main results

1. `BitCountCode.BitCountHalts`, `SwitchCode.SwitchHalts`, `Shipped.ShippedBitCount`, `Shipped.ShippedSwitch`,
   `MaxLoader.ComputeMax`: machine code, executed byte by byte, halts with what its source says.
2. `Portability.StepAgree` and `Portability.RunAgree`: the two simulators agree exactly on the supported
   instructions, and on exactly the runs made of them.
3. `CondBuffer.AlwaysSafe` (no lost wakeup), `CondBuffer.RunEnds`, for each buffer what its histogram and wait
   counts count (`HistogramCounts`, `WaitsCount`), and the exact condition for completing:
   `SemBuffer.CompletesIff`, `CondBuffer.CompletesIff`, `SpinBuffer.CompletableIff`.
4. `SharedRun.Run`: for any command line and any selection, both printouts in full, every reference accounted
   for at every stage, nothing freed read, every element and node freed once.
5. `ExchangeSort.Sort`, `GrowableList`: refinement, with exact or bounded cost.

## How the code was read

- The superclass of a1/MainMemory.java, which defines readInteger and writeInteger, is not part of this model;
  they are taken as an alignment check followed by get or set of four bytes. Operand fields are unsigned
  nibbles and the immediate is a sign-extended byte, as the declarations at a7/sm_jt.c:6-11 have it.
- The superclass of a7/CPU.java, which runs its cycles, is not part of this model; `Cpu.CPU.RunCycles` repeats
  cycles until one throws.
- The assembler is not in the repository. An instruction lies at an address when the bytes there decode to the
  format listed in a7/CPU.java; `Assembler` writes such bytes for any listing.
- The bounds test of get and set computes `address + length - 1` in an int, so it wraps for an address near
  2^31; the access then ends in an array index exception instead, after some bytes of a store. The contracts
  say so.
- a7/sm_jt.c differs from a7/CPU.java for opcode c with a negative offset, which it converts to an unsigned
  short, for opcodes d and e, which do nothing, and for illegal instructions, which it skips.
  `Portability.Supported` is the exact boundary.
- The max program compares by the sign of a wrapped difference. Its running maximum is right throughout
  exactly when no difference overflows (`MaxProgram.FoldIsMax`). For the final answer the exact condition is
  weaker (`MaxProgram.FinalIsMax`): an overflow can make it wrong (`MaxProgram.OverflowGoesWrong`) and need not
  (`MaxProgram.OverflowCanBeHarmless`).
- Case 16 of a7/A7_4.c changes the global j; a7/A7_4.s works on a copy and does not. Both are stated.
- Each `main` creates as many producers as consumers. The exact condition for completing is weaker: what the
  producers add less what the consumers take must lie between 0 and the buffer size.
- Condition variables are Mesa style and wake only when signalled, one sleeper at a time, any one. Semaphores
  are counting ones. A spinlock is taken only when free.
- strcmp compares the characters of the two strings by their codes.
- In SemBuffer and SpinBuffer each load and each store of shared data is a step of its own; in CondBuffer a
  step is one statement, since all of them are under the mutex.
- The documentation of list_remove allows any position; its loop reads data[len], so the call is defined
  exactly when the buffer is not full. list_filter is documented to keep what f finds non-zero; the code keeps
  where f returns 1.
- list_foldl, list_map1 and list_map2 pass the old value of the output slot as well as the elements; the
  callbacks are modelled with that value as their first argument.
- In SharedList and SharedTree, freeing clears a ghost flag, and every method that reads or frees an object
  requires the flag or proves it; so a proof is also a proof that nothing is used after it is freed or freed
  twice. A slot of type node_t* is a value that names the field it points to.

## Model

| member | source | states |
|---|---|---|
| BitCountCode.BitCountHalts | a6/A6-3b.s:2-49 | from any memory with the program loaded and the regions apart, the run reaches halt; y[k] is the number of one bits of x[k] for all k; x, the code and all memory but y and two stack words are unchanged; r5 is back at its start value |
| Shipped.ShippedBitCount | a6/A6-3b.s:1-97 | the same for the shipped addresses and eight words, with the code written into arbitrary memory |
| Shipped.RunBitCount | a7/CPU.java:52-212 | the processor object, cycled until it throws on the loaded program, throws the halt and ends with y counted and r5 restored |
| Shipped.EveryHaltCounts | a6/A6-3b.s:2-49 | any halting run of the program ends so; there is no other outcome |
| BitCountCode.MainLoop | a6/A6-3b.s:32-44 | main_loop run to its end keeps the stack pointer and the saved return address and fills y from the top down |
| BitCountCode.Iteration | a6/A6-3b.s:33-44 | one iteration, through the call and back, fills one more element of y and changes only the argument's stack word beside it |
| BitCountCode.Callee | a6/A6-3b.s:9-23 | f leaves in r0 the bit count of the word on the stack, keeps r4 and r6 and writes no memory |
| BitCountCode.FLoop | a6/A6-3b.s:14-22 | f_loop adds to r0 the one bits among those left in r1 and ends with control at f_end |
| BitCountCode.FIteration | a6/A6-3b.s:15-22 | one iteration counts the top bit left in r1 and shifts it out |
| BitCountCode.Call | a6/A6-3b.s:32-40 | the caller pushes x[k] on the stack and reaches f with the return address in r6 |
| BitCountCode.Return | a6/A6-3b.s:23-44 | f pops its frame and returns; main pops the argument, stores r0 in y[k] and goes round |
| BitCountCode.Epilog | a6/A6-3b.s:45-49 | main returns to the address it saved, with the stack pointer restored |
| BitCountCode.FillOne | a6/A6-3b.s:34-43 | the two stores of an iteration keep x, the saved return address and the elements already filled |
| BitCount.F | a6/A6-3b.c:8-16 | the C function returns the number of one bits of any int and terminates, though it tests only the sign bit and shifts left |
| BitCount.CountAll | a6/A6-3b.c:20-22 | the loop from the last element down leaves every y[i] the bit count of x[i] |
| BitCount.ShiftedTop | a6/A6-3b.c:10-11 | the sign of a is the highest bit not yet counted, and shifting by one drops exactly that bit |
| BitCount.ShiftedZero | a6/A6-3b.c:10 | a is zero exactly when none of the bits left is one, which ends the loop |
| Word.AndSign | a6/A6-3b.c:11 | a & 0x80000000 is zero exactly for non-negative a, for a bitwise and defined on bits |
| Word.OnesFromTop | a6/A6-3b.c:10-14 | counting the bits from the top down gives the same number as from the bottom up |
| Bits.PopCountIsBits | a6/A6-3b.c:8-16 | the number the programs compute is the number of places k at which bit k of the word is one |
| Bits.AndBit | a7/CPU.java:127 | for every k, bit k of a & b is one exactly when bit k of both is, for signed words and their unsigned readings |
| Bits.NotBit | a7/CPU.java:147 | ~a has every bit the other way |
| Bits.ShlBit | a7/CPU.java:161 | a left shift by any amount moves each bit up and fills with zeros |
| Bits.SarBit | a7/CPU.java:163 | a right shift by any amount moves each bit down and fills with the sign |
| Bits.ShiftAmount | a7/CPU.java:159-164 | the immediate's sign chooses the direction, and the amount is the low five bits of its magnitude |
| Bits.ScaledIs | a7/CPU.java:104-112 | an indexed address is the base plus four times the index, wrapped, for all words |
| SwitchCode.SwitchHalts | a7/A7_4.s:2-84 | for all words i, j, m the run halts with the word at 0x20c what the C switch selects; nothing but that word and three stack words changes |
| Shipped.RunSwitch | a7/CPU.java:52-212 | the processor object, cycled until it throws on the jump-table program, throws the halt and has stored the selected value in n |
| Shipped.ShippedSwitch | a7/A7_4.s:1-95 | the same with code and jump table written into arbitrary memory; afterwards both are still there and only n and the stack frame have changed |
| Shipped.TableNamesCases | a7/A7_4.s:75-84 | every word of the table is the address of the case for its i |
| Shipped.TableWritten | a7/A7_4.s:75-84 | writing the nine words leaves them readable at their addresses and changes no other byte |
| Shipped.SwitchImageHolds | a7/A7_4.s:1-84 | the assembled code and the written table together are the image the run needs, and the rest of memory is as it was |
| SwitchCode.RangeTest | a7/A7_4.s:28-37 | negate, add and test for positive passes exactly 10 <= i <= 18, also where i - 10 or i - 18 wraps |
| SwitchCode.RangeCheck | a7/A7_4.s:28-38 | the range check reaches the dispatch with i - 10 in r0 exactly for i in 10..18, and the default otherwise |
| SwitchCode.Dispatch | a7/A7_4.s:39 | the indirect jump goes to the case for i and changes nothing else |
| SwitchCode.PassArguments | a7/A7_4.s:2-13 | the three globals are copied into the stack frame, each unharmed by the copies before it |
| SwitchCode.LoadArguments | a7/A7_4.s:14-27 | the call hands i, j and m over in registers, with the return address in r6 |
| SwitchCode.Cases | a7/A7_4.s:41-73 | each case joins with the selected value in r2, from j in r1 and m in r2 |
| SwitchCode.Finish | a7/A7_4.s:73-74 | the value is returned, stored in n, and the machine halts |
| Switch.Globals.FooUsingJumptable | a7/A7_4.c:8-70 | the C function through its label table returns the selected value, stores it in n, and changes j only in case 16 |
| Switch.NegateAdd | a7/A7_4.c:21-22 | negating and adding with overflow is a wrapped difference, which is zero exactly for equal words |
| MaxLoader.ComputeMax | a7/sm_jt.c:223-238 | whatever the simulator held, loading the program with any ten words and running it stops with the folded maximum at 0, the true maximum if and only if that maximum survives, 10 at 4, and array and code unchanged |
| MaxLoader.LoadMax | a7/sm_jt.c:152-189 | the loader leaves the start values, the array and all 31 code words in memory and the pc at 0x50 |
| MaxProgram.MaxHalts | a7/sm_jt.c:166-188 | from any memory with the program loaded the C machine halts with the folded maximum at 0, the true one if and only if it survives, 10 at 4, and everything from address 8 on unchanged |
| MaxProgram.ImageIsProgram | a7/sm_jt.c:167-187 | the hexadecimal words decode, at their addresses, to the intended instructions |
| MaxProgram.FoldIsMax | a7/sm_jt.c:176-181 | comparing by the sign of a wrapped difference gives the true running maximum throughout if and only if no running maximum less the next element overflows |
| MaxProgram.FinalIsMax | a7/sm_jt.c:176-184 | the final answer is the maximum if and only if the maximum's last occurrence replaces the register's value without overflow and no later element is smaller by 2^31 or more |
| MaxProgram.FinalWithin | a7/sm_jt.c:176-184 | when nothing overflows up to the maximum's last occurrence, the answer is right if and only if no later element is smaller by 2^31 or more |
| MaxProgram.OverflowCanBeHarmless | a7/sm_jt.c:176-181 | an array with an overflow for which the final answer is still right |
| MaxProgram.OverflowGoesWrong | a7/sm_jt.c:176-181 | an array for which the final answer is 0 although an element is 0x7fffffff |
| MaxProgram.NonNegative | a7/sm_jt.c:154-165 | with start value -1, an array without negative words never overflows |
| MaxProgram.Loop | a7/sm_jt.c:172-183 | the loop folds all ten elements and leaves memory as it was |
| MaxProgram.Compare | a7/sm_jt.c:176-183 | the element replaces the running maximum exactly when the wrapped difference is not positive |
| Portability.StepAgree | a7/sm_jt.c:13-136 | from equal registers, pc and memory one cycle of both simulators ends alike if and only if the instruction is supported, whatever extension the C one has left over |
| Portability.RunAgree | a7/sm_jt.c:223-232 | two runs agree at every point up to n if and only if every instruction executed is supported |
| Portability.ExecAgree | a7/CPU.java:92-212 | the execute stages agree exactly on the supported decoded instructions |
| Portability.FetchAgree | a7/CPU.java:52-75 | the fetch stages fail together, or leave the same fields, pc and memory, up to the unused extension |
| Portability.StaleExtension | a7/sm_jt.c:20-28 | the extension kept from an earlier instruction is never observed |
| Portability.DoubledShort | a7/sm_jt.c:120 | converting a negative offset to an unsigned short always changes the jump |
| Portability.PortableSupported | a7/sm_jt.c:31-136 | an assembly instruction without indirect jumps, negative jump offsets or long shifts is supported wherever the first machine does not fault |
| Cpu.CPU.Cycle | a7/CPU.java:52-212 | the stages of the class together are one step of the instruction set; on an exception the machine is as it was before the stage that threw |
| Cpu.CPU.FetchStage | a7/CPU.java:52-75 | the decode registers and pc that the fetch function defines; on an invalid address nothing changes |
| Cpu.CPU.ExecuteStage | a7/CPU.java:92-212 | registers, pc and memory become what the execute function defines, and are unchanged on any exception |
| Cpu.CPU.ExecuteAlu | a7/CPU.java:115-157 | the same for the register-to-register group |
| Cpu.CPU.ExecuteMemory | a7/CPU.java:99-113 | the same for the loads and stores |
| Cpu.CPU.ExecuteControl | a7/CPU.java:166-207 | the same for branches, direct and indirect jumps, halt and nop |
| Assembly.StepAt | a7/CPU.java:95-207 | fetching, decoding and executing the bytes of an instruction is the effect of that instruction |
| Assembly.FetchAt | a7/CPU.java:52-75 | fetch returns the encoded fields, with the extension for the two long formats, and moves the pc past them |
| Assembly.ExecAt | a7/CPU.java:92-212 | executing fields of an instruction's format is the instruction's effect, for every format |
| Assembler.EncodeDecodes | a7/CPU.java:95-207 | the bytes an instruction is written as decode to its fields, the sign-extended immediate and the 32-bit extension |
| Assembler.AssembledLoads | a7/CPU.java:95-207 | any listing within memory whose instructions do not overlap can be loaded |
| Assembler.AssembledElsewhere | a7/CPU.java:95-207 | loading a listing changes no byte that no instruction covers |
| SmJtMachine.Machine.Fetch | a7/sm_jt.c:13-29 | the globals become what the fetch function defines, unless a byte outside memory would be read |
| SmJtMachine.Machine.Exec | a7/sm_jt.c:31-136 | the globals become what the execute function defines; undefined exactly where an index or a shift leaves what C defines |
| SmJtMachine.Machine.Compute | a7/sm_jt.c:223-232 | the loop ends in the state in which the run halts |
| SmJtMachine.Machine.Load2 | a7/sm_jt.c:138-142 | stores two bytes at the pc, high byte first, and moves the pc past them |
| SmJtMachine.Machine.Load4 | a7/sm_jt.c:144-150 | stores a word at the pc and moves the pc past it |
| SmJtMachine.LoadThenFetch | a7/sm_jt.c:13-29 | fetching what load2, and load4 for opcodes 0 and b, stored anywhere in memory returns exactly the nibbles, the immediate and the extension that were stored, and moves the pc past them |
| MainMemory.IntegerRoundTrip | a1/MainMemory.java:46-65 | bytesToInteger undoes integerToBytes on every int |
| MainMemory.BytesRoundTrip | a1/MainMemory.java:46-65 | integerToBytes undoes bytesToInteger on every four bytes |
| MainMemory.UnsignedBytes | a1/MainMemory.java:57-65 | the bytes shifted out of a signed int are the base-256 digits of its unsigned reading |
| MainMemory.ReadAfterWrite | a1/MainMemory.java:74-100 | a word written is read back, and no other byte has changed |
| MainMemory.WriteReadBack | a1/MainMemory.java:74-100 | writing the word that is already there changes nothing |
| MainMemory.MainMemory.Get | a1/MainMemory.java:74-84 | the bytes of the range, exactly when it lies in memory; an address whose bounds test wraps ends in the array's exception |
| MainMemory.MainMemory.Set | a1/MainMemory.java:92-100 | the range holds the value and nothing else changed; rejected without effect; or, where the test wraps, the bytes before the end of memory written |
| MainMemory.BoundsTest | a1/MainMemory.java:75 | the test rejects a range if and only if it is outside memory and its last address does not wrap |
| MainMemory.WrapPasses | a1/MainMemory.java:75 | four bytes at 0x7fffffff pass the test of every memory and lie in none |
| MainMemory.MainMemory.IsAccessAligned | a1/MainMemory.java:29-36 | true exactly for multiples of the length, for negative addresses and lengths too; length 0 throws |
| CondBuffer.AlwaysSafe | a9/pc_mutex_cond.c:32-62 | in every reachable state items is in range, at most one thread is under the mutex, each histogram entry and each wait count is that of its events so far, and while a thread sleeps every place it could use is accounted for by a woken thread, the mutex holder about to use it, or a signal about to come |
| CondBuffer.StepInv | a9/pc_mutex_cond.c:32-62 | every step of every thread, whichever sleeper a signal picks, keeps the invariant |
| CondBuffer.StepWakeups | a9/pc_mutex_cond.c:36-42 | no step loses a wakeup, for producers and for consumers |
| CondBuffer.RunEnds | a9/pc_mutex_cond.c:32-62 | every run under every schedule has at most 9 NUM_ITERATIONS + 5 steps for each thread |
| CondBuffer.StepLeft | a9/pc_mutex_cond.c:32-62 | every step lowers one measure, a signal that puts a sleeper back to work included |
| CondBuffer.RunNotStuck | a9/pc_mutex_cond.c:32-62 | when the surplus fits into the buffer, every reachable state with a thread unfinished has a step |
| CondBuffer.CompletesIff | a9/pc_mutex_cond.c:65-76 | a run that can go no further has finished all threads if and only if the surplus fits into the buffer |
| CondBuffer.Final | a9/pc_mutex_cond.c:78-85 | at the end the assertion of main holds, items is the surplus, entry i of the histogram is the number of times items became i, even and odd entries balance, and each wait count is the number of times a thread of its kind went to sleep, at most as often as the other kind has signalled |
| CondBuffer.HistogramCounts | a9/pc_mutex_cond.c:40-41 | in every reachable state entry i is the number of times items has become i, less the one entry still to be made |
| CondBuffer.WaitsCount | a9/pc_mutex_cond.c:36-39 | in every reachable state a wait count is the number of times a thread of the role has gone to sleep, and one for each that is about to |
| CondBuffer.HeldUp | a9/pc_mutex_cond.c:34-44 | a thread cannot step exactly when it is done, asleep, or at the mutex while another thread holds it |
| CondBuffer.AnySleeper | a9/pc_mutex_cond.c:42 | a signal can wake any thread that sleeps on its condition, and moves no other |
| CondBuffer.Begin | a9/pc_mutex_cond.c:23-30 | runs begin with any number of threads in any roles |
| CondBuffer.EntryParity | a9/pc_mutex_cond.c:40-41 | the index of a histogram entry has the parity of its ordinal number |
| CondBuffer.StepPaid | a9/pc_mutex_cond.c:34-60 | no step lets the counted waits that have ended exceed the signals of the other side |
| SemBuffer.AlwaysSafe | a9/pc_sem.c:30-54 | in every reachable state the three semaphores and items are conserved, items and every histogram index are in range, at most one thread is in its critical section, entry i of the histogram is the number of times items has become i less the one entry still to be made, and its alternating sum is 0 or -1 |
| SemBuffer.StepInv | a9/pc_sem.c:30-54 | every load, store, wait and signal of every thread keeps the invariant |
| SemBuffer.StepConserved | a9/pc_sem.c:33-38 | empty, full and the threads in flight add up to MAX_ITEMS, items to full and the threads' pending changes, mutex and its holder to one |
| SemBuffer.RunNotStuck | a9/pc_sem.c:30-54 | when the surplus fits into the buffer, every reachable state with a thread unfinished has a step |
| SemBuffer.CompletesIff | a9/pc_sem.c:56-70 | a run that can go no further has finished all threads if and only if the surplus fits into the buffer |
| SemBuffer.RunLength | a9/pc_sem.c:30-54 | a run is complete if and only if it has 9 NUM_ITERATIONS + 1 steps for each thread, so all complete runs have the same length |
| SemBuffer.Final | a9/pc_sem.c:72-78 | at the end items is the surplus, the assertion of main holds, entry i of the histogram is the number of times items became i, and even and odd entries balance |
| SemBuffer.HistogramCounts | a9/pc_sem.c:35-36 | in every reachable state entry i is the number of times items has become i, less the one entry still to be made |
| SemBuffer.HeldUp | a9/pc_sem.c:33-38 | a thread cannot step exactly when it is done, its room semaphore is 0, or another thread is in its critical section while it waits for the mutex |
| SemBuffer.Begin | a9/pc_sem.c:21-28 | runs begin with any number of threads in any roles |
| SemBuffer.ItemsInRange | a9/pc_sem.c:33-36 | the conservation laws alone keep items, and what items is about to become, between 0 and MAX_ITEMS |
| SpinBuffer.AlwaysSafe | a8/pc_spinlock.c:22-66 | in every reachable state no assertion of produce or consume has failed despite the unlocked test, at most one thread is under the lock, and while it is free items is produced less consumed; the histogram adds up |
| SpinBuffer.StepInv | a8/pc_spinlock.c:22-66 | every load and store of every thread keeps the invariant |
| SpinBuffer.CompletableIff | a8/pc_spinlock.c:36-66 | from a reachable state some schedule finishes all threads if and only if the surplus fits into the buffer |
| SpinBuffer.Drain | a8/pc_spinlock.c:40-47 | the holder of the lock can always run on to its release, having completed its operation if it had room |
| SpinBuffer.SomeoneHasRoom | a8/pc_spinlock.c:39-41 | with the lock free and operations left, some thread with operations left has room |
| SpinBuffer.Final | a8/pc_spinlock.c:82-88 | when all threads have finished, items is the surplus, the histogram's total is the number of operations, and even and odd entries balance |
| SpinBuffer.Report | a8/pc_spinlock.c:85-88 | at the end entry i of the histogram is the number of times items became i, and a wait count is the number of times a thread of its kind found no room under the lock |
| SpinBuffer.HistogramCounts | a8/pc_spinlock.c:25-26 | in every reachable state entry i is the number of times items has become i, less the one entry still to be made |
| SpinBuffer.WaitsCount | a8/pc_spinlock.c:41-42 | in every reachable state a wait count, with the waits about to be counted, is the number of tests under the lock that found no room |
| SpinBuffer.HeldUp | a8/pc_spinlock.c:40 | a thread cannot step exactly when it is done or spins while another thread holds the lock |
| SpinBuffer.Begin | a8/pc_spinlock.c:11-14 | runs begin with any number of threads in any roles |
| SpinBuffer.RunIsPath | a8/pc_spinlock.c:36-66 | the states of a run are those its schedule leads to |
| SpinBuffer.WaitsBounded | a8/pc_spinlock.c:39-42 | in every reachable state a role has waited at most once for each pair of one of its stores and another of its threads |
| SpinBuffer.FinalWaits | a8/pc_spinlock.c:85-86 | at the end the wait count of a role of p threads is at most (p - 1) p NUM_ITERATIONS |
| Counting.Record | a9/pc_sem.c:36 | one more entry at index i adds one to the histogram's total and the sign of i to its alternating sum |
| SharedRun.Run | a5/p2.c:14-33 | for any arguments and any selection: first printout the command line from each selected argument on, second each selected argument alone; the lines ascend character by character, and of equal values the later argument comes first; at the end the list, the tree, one distinct element for each argument and every node of the tree, one for each selected argument, are freed |
| SharedRun.FillTree | a5/p2.c:21-25 | the tree holds the selected elements in its order, and every reference count is one for the list plus one for each node that holds the element |
| SharedRun.Unlink | a5/p2.c:28 | deleting the list takes exactly the list's references, frees exactly the elements no node holds, and cuts every next |
| SharedRun.Finish | a5/p2.c:29-32 | after the list is gone the print reads only live elements; then every element and node still live is freed |
| SharedRun.OrderIs | a5/tree.c:43-56 | the tree's order holds exactly the selected arguments, ascends in the characters of strcmp, and has equal values in reverse order of insertion |
| SharedRun.OrderIsOrdered | a5/tree.c:43-56 | the same order under the recursive comparison |
| SharedRun.OrderedAscends | a5/tree.c:45 | for any sequence of arguments, ordered under the recursive comparison means ascending in characters |
| SharedRun.OrderSelects | a5/p2.c:22-25 | it has each selected argument and no other |
| SharedRun.OrderIsUnique | a5/tree.c:43-56 | any sequence of just the selected arguments that is so ordered is the tree's order |
| SharedRun.PickInserted | a5/tree.c:43-56 | inserting an element before the first not less than it is inserting its index in that order |
| SharedList.List.AddElement | a5/list.c:40-53 | appends a fresh element with reference count 1 and keeps the list doubly linked |
| SharedList.List.DeleteElement | a5/list.c:58-69 | removes the element at its index, wherever it is, keeps the list doubly linked, cuts both its links, and drops one reference, freeing at zero |
| SharedList.List.Delete | a5/list.c:28-33 | ends with the empty list; each former element has null links and one reference less, and is freed exactly when that was its last |
| SharedList.Element.DecRef | a5/list.c:98-104 | takes one reference, and frees exactly at the last |
| SharedTree.Tree.InsertNode | a5/tree.c:61-63 | the in-order sequence becomes the old one with the element, in a fresh node and with one reference more, before the first not less than it in characters, and ascends |
| SharedTree.InsertAt | a5/tree.c:43-56 | the same below any slot, a root or a child field, which is written when it is empty and kept otherwise |
| SharedTree.InsertLeft | a5/tree.c:45-46 | an element not above a node's goes, in order, into the node's left part |
| SharedTree.InsertRight | a5/tree.c:47-48 | an element above a node's goes, in order, into its right part |
| SharedTree.InsertedSorted | a5/tree.c:43-56 | insertion keeps the in-order sequence ascending, in characters too |
| SharedTree.InsertedPlaced | a5/tree.c:45-48 | the element goes before the first one that is not less than it in characters |
| SharedTree.InsertedPermutes | a5/tree.c:43-56 | insertion keeps the elements there were and adds one |
| SharedTree.PlaceUnique | a5/tree.c:45 | in a sorted sequence only one place has everything before it less and nothing from it on less |
| SharedTree.LeqIsStrcmp | a5/tree.c:45 | the comparison holds exactly when one string is a prefix of the other or has the lesser character at their first difference |
| SharedTree.LeqTransitive | a5/tree.c:45 | the order of strcmp is transitive |
| SharedTree.DeleteBelow | a5/tree.c:26-33 | frees every node once and takes from each element as many references as nodes held it |
| SharedTree.Tree.Delete | a5/tree.c:38-41 | the same for the whole tree, and frees the tree |
| SharedTree.PrintBelow | a5/tree.c:65-73 | prints one line for each node, in order: the list from the node's element on, or its value alone when the list no longer holds it |
| SharedTree.PrintLine | a5/tree.c:68-70 | following next from a live element ends, reads only live elements and prints exactly the list from there on |
| GrowableList.List.Append | a7/list.c:55-60 | appends to the contents; a buffer that grew is a fresh one |
| GrowableList.List.AppendArray | a7/list.c:65-68 | appends the first n elements to the contents, for any n up to the array's length, none for n <= 0 |
| GrowableList.List.Insert | a7/list.c:74-81 | the contents with the element at the position and the rest moved up |
| GrowableList.List.Remove | a7/list.c:87-91 | the contents without the element at the position, defined if and only if the buffer is not full |
| GrowableList.RemoveFromFull | a7/list.c:87-91 | ten elements appended to a new list fill it, and removing any of them is undefined |
| GrowableList.List.Index | a7/list.c:105-110 | the first position of an equal element, or -1 exactly when there is none |
| GrowableList.List.Expand | a7/list.c:44-47 | five times the size, the same contents, and all that growth has copied so far is a quarter of size - 10 |
| GrowableList.List.GrowthIsPaid | a7/list.c:4-60 | after any run, what growth has copied is a quarter of size - 10, and less than 5/4 of the greatest length so far, which in an append-only run is the length |
| GrowableList.Map1 | a7/list.c:127-134 | extends the output by the mapped elements and leaves the input unchanged |
| GrowableList.Map2 | a7/list.c:146-164 | extends the output by the pairwise results up to the shorter length |
| GrowableList.Foldl | a7/list.c:173-179 | the accumulator goes from the initial value through f(acc, e, acc) for each element in turn, and the result is the left fold |
| GrowableList.FoldedSnoc | a7/list.c:173-179 | the fold of nothing is the accumulator, and one element more gives f(fold, element, fold) |
| GrowableList.InsertedIs | a7/list.c:74-81 | the one sequence that agrees with the old before the position, has the element there and the rest one place up |
| GrowableList.RemovedIs | a7/list.c:87-91 | the one sequence that agrees with the old before the position and has the rest one place down |
| GrowableList.Filter | a7/list.c:190-198 | extends the output by the elements for which f returns 1 |
| GrowableList.FilteredKeeps | a7/list.c:190-198 | filtering keeps every occurrence of the selected elements and none of the others |
| GrowableList.FoldedConcat | a7/list.c:173-179 | folding a concatenation goes on from the fold of its first part |
| ExchangeSort.Sort | a3/bubble_sort_dynamic.c:6-15 | the array becomes ascending, a permutation of what it was, by exchanges of inverted pairs, no more of them than it had pairs of places out of order |
| ExchangeSort.InversionsArePairs | a3/bubble_sort_dynamic.c:10 | the inversion count is the number of pairs of places, adjacent or not, whose elements are out of order |
| ExchangeSort.ExchangesBounded | a3/bubble_sort_dynamic.c:10-14 | any sequence of exchanges of inverted pairs is at most as long as the number of inversions |
| ExchangeSort.ExchangeLowers | a3/bubble_sort_dynamic.c:10-14 | exchanging an inverted pair, adjacent or not, lowers the number of inversions |

## Left out

- Printing, argument parsing, `showMem` and the `main` functions that only create threads and report: input and output.
- The uthread, mutex, condition variable, semaphore and spinlock libraries: only the behaviour stated above is used.
- Spurious wakeups of condition variables: the model has none, and the termination bound of the waits would not hold with them.
- a8/aRead.c and a8/tRead.c: they depend on a disk and an interrupt order that are not in the repository.
- The `instruction` register of a7/CPU.java, which is for display.
- a6/CPU.java, a4/BinaryTree.c and a3/bubble_sort_awesome.c: each is contained in a file that is modelled.
- The other assembly programs: straight-line or one-off, and simpler than the two that are modelled.
- a7/trunc.c, a7/testip.c, a7/Poly.c, a5/stack.c, a5/p1.c and a1/Endianness.java: drivers or short exercises.
- `loadTest` in a7/sm_jt.c: its instructions are covered one by one by the agreement of the two simulators.
- Cpu.CPU.Cycle: which decode registers a fetch that throws has already set is not stated; registers, pc and memory are.
- SmJtMachine.Machine.Exec: a step into C undefined behaviour has the single outcome Undefined, and the state after it is not described; shifts into the sign bit and signed overflow wrap.
- GrowableList.List.Remove: the buffer's state after an undefined call is not described.
- Allocation failure, the int width of lengths, sizes and counters, and negative array lengths.
- `list_destroy`, `list_foreach` and the getters of a7/list.c and a5/list.c: nothing to prove beyond their bodies.
