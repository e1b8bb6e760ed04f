# OKL4, verified in Dafny

Models of the algorithmic parts of the OKL4 repository, with proofs of what they
promise. `dafny verify dfyconfig.toml` checks the whole project.

| module | what it is about |
|---|---|
| `HybridMutex` | the Micro kernel's mutex, from the compare-and-set in libokl4 to the kernel's wait queue, as a machine whose steps are single memory accesses; safety, absence of deadlock and termination of the mutex tests over every interleaving |
| `Handshake` | the start-up and finish protocol of the threaded tests |
| `PhysAllocator`, `MarkScan`, `AllocatorRuns`, `AllocatorBytes` | the image builder's physical memory allocator: each call, when the scan of a mark ends, and whole runs |
| `Markup` | the template machine against the meaning of the template's syntax tree |
| `RangeAllocator`, `RangeRuns`, `VirtualPools` | libokl4's range allocator as a linked list, what holds over all its runs, and the test that nests pools inside pools |
| `Bitmap`, `FreeWalk` | libokl4's bitmap allocator and the scattered order in which a test frees it |
| `Tokeniser`, `RegisterText` | the register language: an exact account of its tokens, what every way of writing a file is read as, and a printing and parsing round trip |
| `BitfieldLayout`, `RegisterFields` | the structs and accessors generated for device registers |
| `LayoutVirtual` | the placement of programs in virtual memory |
| `Pager` | a page table as a cache of the segment table |
| `Coverage`, `CoverageReport` | the index of the coverage tool, and the figures it keeps |
| `DeviceNumbering`, `DeviceNames` | the numbers and the names of virtual devices |
| `Align`, `MachineWord`, `Numerals`, `Optional` | alignment arithmetic; 32-bit words and their operators; decimal numerals; a value or nothing |

Code that changes things step by step is a method or a class with loops, proved
equal to a function on values; the properties are lemmas about those functions.

Where the code and its own words disagree, the model follows the code:

- `mark` is documented to raise when a range crosses a border of free memory. It
  does so exactly when the range also starts in free memory
  (`AllocatorRuns.CrossingRaisesIff`), and it raises on free ranges that span two
  entries as well (`AllocatorRuns.MarkRaisesIff`).
- A named range is documented to fail if one of its values is allocated. It also
  fails across an item of size 0, which holds none (`RangeRuns.NamedGrantedIff`).
- The last byte of every block allocated from physical memory stays in the free
  list (`AllocatorRuns.AllocTakes`). Marks and page-aligned allocs do harm with it
  exactly when they are not allowed in the sense of `AllocatorRuns.StaysSafeIff`:
  a mark that starts in the entry that begins there, or a block one byte longer
  than whole pages. For allocs of any kind, `AllocatorBytes.AllocRunSafeIff`.
- `mark` with an inverted range can scan for ever (`MarkScan.EndsIff`).
- Names of virtual devices can coincide (`DeviceNames.NamesDistinctIff`).
- A program is checked against fixed ones with the size hint of the program before
  it, which is enough exactly when it is no larger (`LayoutVirtual.AlwaysClearIff`).
- A zone's last program claims its 1M region but for the last byte
  (`LayoutVirtual.ZoneKeptIff`).
- `mark` can turn used bytes around its range into free ones
  (`AllocatorRuns.MarkLeaves`).
- A coverage figure is computed once, and a trace read later may go unseen
  (`CoverageReport.LateTraceIsSeenIff`).

## Model

| member | source | states |
|---|---|---|
| Align.Down | tools/pyelf/elf/util.py:94-98 | rounds down to the greatest multiple of the alignment; alignment 0 leaves the value alone |
| Align.Up | tools/pyelf/elf/util.py:85-92 | rounds up to the least multiple of the alignment; alignment 0 leaves the value alone |
| Align.RemIsModulo | tools/pyelf/elf/util.py:85-98 | the linear remainder used throughout is Python's `%` for every integer and every positive divisor |
| PhysAllocator.Allocator.Mark | tools/util.py:293-341 | the edit of the free list inside its own scan leaves exactly the specified list and result, empty ranges included, wherever the scan ends |
| MarkScan.EndsIff | tools/util.py:308-336 | for page sizes of at least 2 and separate entries the scan ends if and only if the range is not inverted, or nothing holds its base, or what does begins or ends there |
| MarkScan.EndsAsMarked | tools/util.py:308-341 | taken turn by turn, a scan that ends leaves the same list and outcome |
| MarkScan.InvertedNeverEnds | tools/util.py:308-336 | a concrete inverted range for which it never ends |
| PhysAllocator.Allocator.Alloc | tools/util.py:343-411 | the scan with its edits leaves exactly the specified list and result, error cases included |
| PhysAllocator.Allocator.RoundPages | tools/util.py:413-444 | the rescan-until-stable loop terminates; a byte stays free if and only if a page border lies between the start of its entry and it and more than a page of the entry follows that border; every entry of two bytes or more then begins on a border, and shorter entries stay as they are |
| PhysAllocator.RoundsToPages | tools/util.py:413-444 | the same of the one-pass function that the rescan equals |
| PhysAllocator.CutKeepsRounding | tools/util.py:420-442 | one cut of the rescan does not change the one-pass result, and lowers the measure by which the rescan ends |
| PhysAllocator.SmoothIsRounded | tools/util.py:413-444 | a list in which a whole scan finds nothing to cut is its own one-pass result |
| AllocatorRuns.AllocIsFirstFit | tools/util.py:365-411 | `alloc` raises, and changes nothing, exactly when the alignment is less than a page or not whole pages, or no entry has a block of the size congruent to `virt`; otherwise it returns the least such address of the first entry that has one |
| AllocatorRuns.AllocTakes | tools/util.py:379-403 | byte by byte, what leaves the free list is the block without its last byte plus the lead gap down to the alignment, and the last byte stays listed |
| AllocatorRuns.MarkTakes | tools/util.py:308-341 | a mark that starts in an entry of whole pages removes exactly the pages of its range |
| AllocatorRuns.MarkLeaves | tools/util.py:293-341 | for every free list, byte by byte: a mark returns the page border at or below its base; the first entry that holds the border is widened to whole pages, which can make used bytes free, and loses the range; all else stays |
| AllocatorRuns.MarkRaisesIff | tools/util.py:293-313 | a mark raises exactly when it starts in free memory and no single entry holds its whole range |
| AllocatorRuns.CrossingRaisesIff | tools/util.py:300-313 | a range with both free and used bytes raises if and only if it starts in free memory, against the documented promise that it always does |
| AllocatorRuns.AdjacentEntriesRaise | tools/util.py:300-313 | a concrete range that is free throughout raises because it spans two entries |
| AllocatorRuns.MarkClearsIff | tools/util.py:293-341 | a mark that returns has cleared its range if and only if the range starts in free memory or meets none |
| AllocatorRuns.MarkFromBelowIsSilent | tools/util.py:300-313 | a concrete range that enters free memory from below, returns, and stays free |
| AllocatorRuns.SinglePageIsDropped | tools/util.py:413-444 | `round_pages` keeps a page-aligned entry exactly when it is longer than one page |
| AllocatorRuns.StepKeepsInvIff | tools/util.py:315-403 | at any point of a run, a mark or a page-aligned alloc keeps free pages clear of blocks and marks if and only if it is allowed: a mark starts in an entry that begins on a page border or meets neither free memory nor a block, and an alloc is refused or is not one byte more than whole pages |
| AllocatorRuns.StaysSafeIff | tools/util.py:293-411 | all continuations of the run by page-aligned allocs of such sizes hand out safe blocks if and only if the step was allowed; otherwise handing out single pages reaches one that is already taken or marked |
| AllocatorRuns.RunIsSafe | tools/util.py:293-411 | for every run of such marks and allocs, in any order, all blocks are pairwise disjoint, were free at the start and miss every marked range, although each block's last byte stays in the list |
| AllocatorBytes.AllocRunSafeIff | tools/util.py:365-411 | for every run of allocs, of any sizes and virtual addresses, the blocks are disjoint and were free if and only if no request fits first into an entry that begins on a block's byte congruent to its virtual address |
| AllocatorBytes.AllocSafeIff | tools/util.py:379-403 | the same for one request at any point of such a run |
| AllocatorBytes.FifthByteTwice | tools/util.py:396-397 | a concrete block one byte longer than a page whose last byte is handed out again |
| AllocatorRuns.MarkAfterAllocDoublesBlock | tools/util.py:322-335 | a concrete mark in an entry that begins on a block's last byte, after which the same block is handed out again |
| Markup.Run | tools/util.py:486-565 | for every readable syntax tree and every `eval` and `exec`, scanning the printed template terminates with exactly the output, environment and ABORT or exception result of the tree's direct meaning, started with the output file bound |
| Markup.CodeSeesOut | tools/util.py:496-564 | all code of a template, in conditionals and loops as well, is run with `out` bound: what `eval` and `exec` would do without it makes no difference |
| Markup.AppendRunsBoth | tools/util.py:507-565 | of two templates joined, the second is run in the world that the first leaves, or not at all when the first was aborted or failed |
| Markup.AbortLeavesAll | tools/util.py:517-564 | an ABORT inside a loop or a conditional also ends everything around it |
| Markup.NormalStep | tools/util.py:511-530 | in the text state the next delimiter found and the state entered are those of the next piece of the tree |
| Markup.IfStep | tools/util.py:545-554 | the text up to the first closing `fi}}` is the whole conditional, and its body is again a readable template |
| Markup.LoopStep | tools/util.py:555-564 | the text up to the first closing `*}}` is the whole loop body, which is again a readable template |
| HybridMutex.StepKeepsInv | pistachio/src/mutex.cc:419-565 | no step of any thread, in user code, in the kernel or between the two, fails an assertion or breaks the invariant tying the user word, the kernel's holder and queue, the spinlock and every thread's nesting depth |
| HybridMutex.EveryRunIsSafe | ctest/src/mutex.c:66-224 | for any number of threads, any disciplined programs, with nested locks and try-locks that compete and may be refused, and any interleaving of single accesses to the lock word, its count and the shared word: at most one thread is inside, the shared word is that thread's net increments, it is 0 whenever the lock is free, and no assertion fails, of the mutex or of a test about a try-lock's answer |
| HybridMutex.EndsFree | ctest/src/mutex.c:147-153 | when all threads have finished, the lock is free, its count and the shared word are 0 and the kernel holds no owner, queue or spinlock |
| HybridMutex.ClosingCheckSucceeds | ctest/src/mutex.c:147-153 | one more thread that then runs the test's closing try-lock gets the lock under every schedule, never fails its assertion, and leaves the lock free |
| HybridMutex.TryLockDecides | libs/okl4/src/micro/mutex_trylock.c:78-84 | in every reachable state a try-lock takes the lock at its compare-and-set if and only if nobody owns it; taken, it is this thread's alone, refused, nothing but the thread's own position has changed |
| HybridMutex.TryLockBegins | libs/okl4/src/micro/mutex_trylock.c:71-80 | up to then only the thread's own position changes; the holder of a counted mutex counts, everyone else competes |
| HybridMutex.MisuseFails | libs/okl4/src/micro/mutex_lock.c:70-78 | an operation fails its first assertion exactly when it unlocks what its thread does not hold or locks an uncounted mutex again |
| HybridMutex.KernelOnlyUnderContention | libs/okl4/src/micro/mutex_lock.c:80-87 | a thread enters the kernel to lock only when another owns the lock, and to unlock only when the word is marked contended |
| HybridMutex.HandsOver | pistachio/src/mutex.cc:496-566 | a contended unlock gives the lock straight to the thread it wakes, and the kernel goes on tracking it exactly when others still wait |
| HybridMutex.DeadHolderReplaced | pistachio/src/mutex.cc:461-473 | a contended lock whose holder is no thread is taken over, uncontended, by the thread that finds it |
| HybridMutex.KernelAsserts | pistachio/src/mutex.cc:439-829 | in any state, reachable or not, the kernel's assertions fail exactly when the tracked holder asks again, an untracked lock has a queue, or a thread wakes that is not the holder while others wait |
| HybridMutex.SomeoneCanMove | pistachio/src/mutex.cc:419-565 | in every state of the invariant with an unfinished thread some thread can take a step: no deadlock and no lost wake-up |
| HybridMutex.RankDrops | pistachio/src/mutex.cc:419-565 | every step, retries of the compare-and-set included, lowers a natural-number measure of the whole system |
| HybridMutex.EveryRunEnds | ctest/src/mutex.c:132-154 | every schedule that keeps moving is bounded by the measure of the start state, and when nobody can move everybody has finished with the lock free and memory restored |
| HybridMutex.TestsAreGood | ctest/src/mutex.c:66-200 | the single-threaded test and the loops of both test children, for any number of iterations and threads, are such disciplined programs |
| Handshake.StepKeepsInv | ctest/src/helpers_threading.c:90-192 | every step of parent or child keeps what the parent's position says about every child and about what it has heard |
| Handshake.EveryRunIsOrderly | ctest/src/helpers_threading.c:90-192 | for any number of children and any interleaving: a child's first message is its own arguments, the wait loop consumes only finish messages and no child's twice, and a child is deleted only after its own was consumed |
| Handshake.NoRunIsStuck | ctest/src/helpers_threading.c:160-188 | no reachable state before the parent is done is stuck |
| Handshake.StepCounts | ctest/src/helpers_threading.c:90-192 | every step of parent or child lowers the number of steps left by exactly one |
| Handshake.EveryRunEnds | ctest/src/helpers_threading.c:124-192 | no interleaving goes on for ever, and one that cannot go on has finished the test in a number of steps fixed by the children's work |
| LayoutVirtual.CheckFixedCollision | tools/kenge.py:1090-1104 | the loop with its early exit computes the next hole, for every list |
| LayoutVirtual.Layout | tools/kenge.py:1119-1185 | the classification, the sort, the removal of programs at 0 and the chain of placements give the specified addresses |
| LayoutVirtual.FloatingAre | tools/kenge.py:1119-1130 | the programs placed are those to allocate and no others, each as often and in the order given |
| LayoutVirtual.RetainedAre | tools/kenge.py:1126-1160 | the programs stepped over are in order of address, at each address but 0 those fixed there in the order given, and none at 0 |
| LayoutVirtual.TightFit | tools/kenge.py:1106-1111 | a program whose window of its predecessor's hint, and of 1M, is clear at the first aligned address after the predecessor is placed there |
| LayoutVirtual.ZoneKeptIff | tools/kenge.py:1106-1111 | the last byte of its 1M region, which a zone's last program does not claim, is given to the next program if and only if it is aligned for it |
| LayoutVirtual.NextHoleIsClear | tools/kenge.py:1090-1104 | the address found is not below the start and its window meets no fixed program, using only the order of addresses |
| LayoutVirtual.NextHoleIsLeast | tools/kenge.py:1090-1111 | with one alignment throughout, it is the least aligned address from the start on whose window is clear, so the early exit loses nothing |
| LayoutVirtual.LayoutIsDisjoint | tools/kenge.py:1088-1183 | over a whole layout, the first program is at the base, placed programs are pairwise disjoint, a zone's last program keeps later ones out of its 1M region, and each program after the first that is no larger than 1M or its predecessor's hint misses every retained fixed program |
| LayoutVirtual.AlwaysClearIff | tools/kenge.py:1106-1111 | a program misses every possible list of fixed ones if and only if it is no larger than 1M or its predecessor's size hint |
| LayoutVirtual.PredecessorsHintIsUsed | tools/kenge.py:1106-1111 | a concrete layout in which a program larger than its predecessor's hint lands on a fixed one |
| BitfieldLayout.WriteLittleEndian | tools/dd_dsl.py:142-159 | the loop emits the specified paddings and fields for every list |
| BitfieldLayout.WriteBigEndian | tools/dd_dsl.py:160-178 | the reversed loop emits the specified paddings and fields for every list |
| BitfieldLayout.LittlePlacement | tools/dd_dsl.py:142-159 | laid out from the low bit, all fields start at their declared bits if and only if the list is sorted and non-overlapping |
| BitfieldLayout.BigPlacement | tools/dd_dsl.py:160-178 | laid out from the high bit, all fields end at their declared bits if and only if the list is sorted, non-overlapping and inside the register |
| BitfieldLayout.BothOrdersAgree | tools/dd_dsl.py:138-178 | both structs put every field on its declared bits if and only if the list is sorted, non-overlapping and inside the register |
| RegisterFields.MaskIsOnes | tools/dd_dsl_2.py:363-376 | the mask 2**bits - 1 is the word whose lowest `bits` bits are set |
| RegisterFields.Register.SetField | tools/dd_dsl_2.py:266-279 | the field's bits become the value's lowest bits and every other bit of the register stays |
| RegisterFields.Register.SetBitAt | tools/dd_dsl_2.py:208-221 | the bit ends set and every other bit of the register stays |
| RegisterFields.Register.ClearBitAt | tools/dd_dsl_2.py:223-236 | the bit ends clear and every other bit of the register stays |
| RegisterFields.Register.GetField | tools/dd_dsl_2.py:238-251 | the field's bits moved down to bit 0, with zeros above |
| RegisterFields.SetAt | tools/dd_dsl_2.py:266-279 | a field update changes the field's bits to the value's and no other bit |
| RegisterFields.FieldsAreIndependent | tools/dd_dsl_2.py:208-279 | one access to the packed word is the same access to a variable of its own for every field |
| RegisterFields.PackedRefinesFields | tools/dd_dsl_2.py:208-279 | any sequence of accesses to the packed word refines updates to one variable per field |
| RegisterFields.LastWriteWins | tools/dd_dsl_2.py:238-279 | after any sequence a read returns the last value written, masked, if nothing touched the field since |
| RegisterFields.UnnamedBitsKept | tools/dd_dsl_2.py:208-279 | a bit outside every field written, and not set or cleared by name, survives any sequence |
| Tokeniser.Scanner.EatStringLiteral | tools/wae_tok.py:94-110 | the loop eats up to the closing quote, or fails where the source raises |
| Tokeniser.Scanner.EatToken | tools/wae_tok.py:115-131 | the loop eats one delimiter or a maximal run without end-of-token characters |
| Tokeniser.Scanner.Tokenise | tools/wae_tok.py:133-142 | the loop appends exactly the line's tokens, and fails exactly on the lines that have none |
| Tokeniser.TokensIffSpelling | tools/wae_tok.py:75-142 | for every line, literals included: its tokens are these if and only if the line spells them with white space around, none of it missing where a word would run on |
| Numerals.DecimalReads | tools/dd_dsl.py:310-318 | the decimal numeral of every natural reads back as that natural, and never as octal |
| Numerals.NumeralPrints | tools/dd_dsl.py:310-318 | every numeral is the one printed for its value |
| RegisterText.ParseListExpr | tools/dd_dsl.py:320-337 | the comma loop computes the list expression, errors included |
| RegisterText.ParseRegister | tools/dd_dsl.py:339-383 | the header parser computes the specified register or error, Python's slices from the end included |
| RegisterText.Parse | tools/dd_dsl.py:416-466 | the line loop computes the specified registers or error |
| RegisterText.IntExprReads | tools/dd_dsl.py:310-318 | an expression is whatever `int` its text evaluates to, and a parse error exactly when that raises or is no `int` |
| RegisterText.JoinSplits | tools/dd_dsl.py:310-318 | that text is the tokens parted by single blanks: splitting it there gives them back |
| RegisterText.VariableReadsIff | tools/dd_dsl.py:385-413 | a line of tokens is read as a variable if and only if it is one, with its one or two bounds written in whatever expressions |
| RegisterText.VariableFails | tools/dd_dsl.py:385-413 | a bound that does not evaluate to an `int` is a parse error |
| RegisterText.HeaderReads | tools/dd_dsl.py:339-383 | the tokens of every header, with size and offsets in whatever expressions, one offset or a list, and options in any case and order, are read as its register |
| RegisterText.HeaderFails | tools/dd_dsl.py:339-383 | a missing size, an expression that does not evaluate to an `int`, or an unknown option is a parse error |
| RegisterText.HeaderNeedsMarks | tools/dd_dsl.py:344-368 | a header without `@` is a parse error, and one whose options are not closed is not read |
| RegisterText.OptionsRead | tools/dd_dsl.py:369-380 | options in any case: read-only drops writing, write-only drops reading, anything else but read-write is an error |
| RegisterText.IdleLinesIgnored | tools/dd_dsl.py:430-460 | comments, commands and empty lines anywhere in a file change nothing |
| RegisterText.CommandIff | tools/dd_dsl.py:433-437 | a line that starts with `;` is ignored if it has exactly one `=` inside, and else ends the parser |
| RegisterText.LinesThatCrash | tools/dd_dsl.py:449-458 | a variable before the first register, and any compound variable, ends the parser |
| RegisterText.BadLineEnds | tools/dd_dsl.py:430-465 | the first line that cannot be read ends the parser with its error, whatever follows |
| RegisterText.FileReadsBack | tools/dd_dsl.py:416-466 | any file whose other lines spell the registers, in whatever expressions, with any spacing and trailing comments, parses to exactly those registers and variables in order |
| RegisterText.PrintedVariableSays | tools/dd_dsl.py:297-301 | a printed variable's line has exactly that variable's tokens |
| RegisterText.PrintedFileReadsBack | tools/dd_dsl.py:104-113 | parsing undoes printing for every list of good registers; variables are printed as the source prints them, headers by the grammar, since the source has no working printer for them |
| Pager.GetSeg | kbench/src/kbench.c:265-283 | the identifier, offset, caching and rights of the first segment that has the address, with 32-bit sums that wrap, or the failure value when none has |
| Pager.AnswersAre | kbench/src/new_bench_mutex.c:118-172 | a fault outside every segment is refused, whoever sent it; one inside is mapped for a client and stops the pager for anyone else, as does any other message |
| Pager.Pager.Serve | kbench/src/new_bench_mutex.c:109-175 | one message maps exactly one page, or none, and is answered, refused or fatal as the source has it |
| Pager.TableIsACache | kbench/src/new_bench_mutex.c:127-165 | after any run of messages over page-aligned segments, every address of every mapped page has exactly the segment, offset, caching and rights of the linear lookup |
| Pager.MappedIffAnswered | kbench/src/new_bench_mutex.c:127-165 | the pages mapped after a run are exactly those of the faults answered, per address space |
| Pager.RightForTheFaultIff | kbench/src/new_bench_mutex.c:146-158 | without alignment, a faulting address gets its own place if and only if the segment's offset and virtual address are equally far into a page |
| Pager.RightForThePageIff | kbench/src/new_bench_mutex.c:146-158 | without alignment, every address of the page mapped gets its own place if and only if that holds and the page lies in one segment |
| Pager.OneByteOff | kbench/src/new_bench_mutex.c:146-158 | a concrete segment with its offset one byte into a page, and the wrong place it gives |
| RangeAllocator.Allocator.NamedAllocation | libs/okl4/src/range_alloc.c:104-142 | on the linked list itself: the new item is linked after the first one whose free region has its base, or the list is unchanged and the code says why |
| RangeAllocator.Allocator.AnonymousAllocation | libs/okl4/src/range_alloc.c:144-175 | on the linked list itself: the new item takes the top of the first free region with room, or the list is unchanged |
| RangeAllocator.Allocator.Alloc | libs/okl4/src/range_alloc.c:91-102 | dispatches on the anonymous base |
| RangeAllocator.Allocator.Free | libs/okl4/src/range_free.c:64-85 | the item is unlinked and its whole region goes to the one before it |
| RangeRuns.RunTiled | libs/okl4/src/range_alloc.c:91-175 | every run of requests and returns, in any order, keeps the items a tiling of the pool |
| RangeRuns.RangesDisjoint | libs/okl4/src/range_alloc.c:91-175 | in a tiling the allocated ranges are pairwise disjoint and inside the pool |
| RangeRuns.FreeOrTaken | libs/okl4/src/range_helpers.h:107-118 | every value of the pool is free or allocated, never both, and no other value is either |
| RangeRuns.NamedGrantedIff | libs/okl4/src/range_alloc.c:73-142 | a named request is exhausted exactly when its base is not free, and granted exactly when its whole range is free and no empty item lies inside |
| RangeRuns.EmptyItemBlocks | libs/okl4/src/range_alloc.c:68-74 | a concrete free range refused because of an empty item, against the documented promise |
| RangeRuns.AnonymousGrantedIff | libs/okl4/src/range_alloc.c:81-175 | an anonymous request is granted exactly when some free region is large enough, and then ends where the first such region does |
| RangeRuns.TakeTakesExactly | libs/okl4/src/range_alloc.c:104-175 | a granted request takes exactly its own values, all free before, out of the free ones |
| RangeRuns.GiveGivesExactly | libs/okl4/src/range_free.c:64-85 | a return frees exactly the values of its own range |
| RangeRuns.GiveUndoesTake | libs/okl4/src/range_free.c:64-85 | returning the range just granted restores the whole list |
| RangeRuns.TakeKeepsOthers | libs/okl4/src/range_alloc.c:104-175 | a granted request adds its range to those held and moves no other |
| RangeRuns.GiveKeepsOthers | libs/okl4/src/range_free.c:64-85 | a return removes its range from those held and moves no other |
| RangeRuns.AllGivenBack | libs/okl4/src/range_free.c:64-85 | after any run that has returned everything the pool is as it was made, whatever the order |
| RangeRuns.SpaceConserved | libs/okl4/src/range_alloc.c:91-175 | allocated and free sizes always add up to the pool |
| VirtualPools.Pool.AllocPool | libs/okl4/src/virtmem_pool_alloc_pool.c:61-91 | a child pool's range, named or anonymous, is carved out of its parent's list and the child starts with all of it free |
| VirtualPools.HalvingTest | ctest/src/virt_pool.c:317-365 | for every pool size the recursion over real pools terminates, none of its expectations fails, it holds the specified ranges at its deepest, and every pool's linked list is restored |
| VirtualPools.HalvesTile | ctest/src/virt_pool.c:317-365 | those ranges with the last pool tile the root without overlap, and the depth is the ceiling of the base-two logarithm of its size |
| Bitmap.FindFirstFree | libs/okl4/src/bitmap_internal.h:81-96 | the shifting loop finds the lowest clear bit of a word |
| Bitmap.Allocator.constructor | libs/okl4/src/bitmap_init.c:64-104 | all units start free and the spare bits of the last word are taken |
| Bitmap.Allocator.NamedAllocation | libs/okl4/src/bitmap_alloc.c:125-152 | out of range, in use and success exactly as the unit is, setting that unit alone |
| Bitmap.Allocator.AnonymousAllocation | libs/okl4/src/bitmap_alloc.c:86-122 | the word-wise search from the guess gives the lowest free unit from the guessed word on, or else the lowest of all, and fails only when all are taken |
| Bitmap.Allocator.Free | libs/okl4/src/bitmap_free.c:64-79 | clears that unit alone |
| FreeWalk.FindMax | ctest/src/bitmap_allocator.c:1017-1018 | the doubling loop stops at the least power of two, from 2 on, that is not below the count |
| FreeWalk.WalkIsPermutation | ctest/src/bitmap_allocator.c:1020-1026 | the walk over any power of two up to 2^32 is its own inverse, so each number below it is reached at exactly one step |
| FreeWalk.FreeAllRandom | ctest/src/bitmap_allocator.c:1011-1028 | for up to 2^31 items every item's unit ends free and no other unit changes |
| Coverage.Index.AddAddress | tools/coverage.py:79-194 | the nested constructors and look-ups record the address as specified, or fail when the file is in another package |
| Coverage.Index.PoolWords | tools/coverage.py:282-290 | the words to skip are exactly those of the paired literal-pool markers |
| Coverage.Index.AddAddressRange | tools/coverage.py:281-295 | the loop records what the specification does, or fails when it does |
| Coverage.RecordKeepsSound | tools/coverage.py:79-206 | recording keeps the tree equal to the flat list grouped by file and symbol, with each file listed once, by its own package |
| Coverage.InExactlyOneSymbol | tools/coverage.py:79-206 | an address object is in the list of its own symbol, once, and in no other |
| Coverage.ScanRecords | tools/coverage.py:281-295 | for every run of complete ranges that do not clash, nothing is raised and the addresses recorded are exactly the words outside the pools, each once, under the symbol, file and package of its own range |
| Coverage.RangeFailsIff | tools/coverage.py:281-295 | a range raises exactly when it has three markers or more, an odd number, the last of them not its end; or its first word is recorded; or it has a word to record and its file is in another package |
| Coverage.ReadTracelog | tools/coverage.py:408-419 | the loop marks what the specification marks |
| Coverage.TraceHits | tools/coverage.py:408-419 | a trace hits exactly the objects whose address is in it, and unhits none |
| Coverage.TreeIsFlat | tools/coverage.py:127-132 | a symbol's list and its hits count the same as the flat list of objects |
| Coverage.ScanCoverage | tools/coverage.py:122-132 | after a scan and a trace a symbol's coverage is the share of its recorded words that are in the trace |
| CoverageReport.Report.GetSymbol | tools/coverage.py:122-132 | while everything kept is right, the answer is the symbol's figure and everything kept stays right; a figure once kept is returned again and never changes |
| CoverageReport.Report.GetFile | tools/coverage.py:160-172 | while everything kept is right, the answer is the mean over the symbols, which are asked in turn and keep theirs, and everything kept stays right |
| CoverageReport.Report.GetPackage | tools/coverage.py:191-202 | while everything kept is right, the answer is the mean over the files, which are asked in turn and keep theirs, and everything kept stays right |
| CoverageReport.MeanIs | tools/coverage.py:160-202 | the mean times the number of figures is their sum, sums join in any order, and no figures give 0 |
| CoverageReport.EveryAnswerIsRight | tools/coverage.py:122-202 | whatever was asked before and in whatever order, the answer is the figure itself, as if nothing were kept |
| CoverageReport.AnswersAfterScan | tools/coverage.py:79-206 | so after any scan and trace, for every sequence of questions, and every figure lies within 0 and 100 |
| CoverageReport.LateTraceIsSeenIff | tools/coverage.py:122-202 | an answer given after a later trace is the true figure if and only if the trace hits no new word below an object that was asked before and is at or below the one asked for now |
| CoverageReport.StaleAtZero | tools/coverage.py:122-132 | a concrete symbol that stays at 0 after all of it has been hit |
| DeviceNumbering.Cell.RequireDevices | cells/iguana/iguana_cell.py:334-348 | one more instance per entry of the list, the counters cleared, the program's list replaced |
| DeviceNumbering.Cell.LayoutDevices | cells/iguana/iguana_cell.py:351-368 | creates and hands out the specified devices, each named by its kind and number, and advances the counters |
| DeviceNumbering.LayOut | cells/iguana/iguana_cell.py:322-368 | a whole cell, from calls to layout, has the specified instances and capabilities |
| DeviceNumbering.CreatedOnServers | cells/iguana/iguana_cell.py:356-362 | each instance is on a server of its kind, once per registration of that server, and each number below the kind's count has its instance there |
| DeviceNumbering.RequestsOfClients | cells/iguana/iguana_cell.py:364-365 | a program asks for a kind as often as its last list has it, once over for each call it made |
| DeviceNumbering.NumbersRunUp | cells/iguana/iguana_cell.py:364-368 | for any calls the numbers handed out for a kind are 0, 1, 2 and so on, each once, and the counter ends at their number |
| DeviceNumbering.MatchIff | cells/iguana/iguana_cell.py:334-368 | the numbers handed out are exactly the instances created if and only if the programs' last lists ask for the kind as often as all calls did |
| DeviceNumbering.OnceEachMatches | cells/iguana/iguana_cell.py:334-368 | so they match for every kind when each program calls at most once |
| DeviceNames.NamesMeetIff | cells/iguana/iguana_cell.py:358-367 | some names of two kinds of different length coincide if and only if the longer is the shorter followed by digits that do not start with 0 |
| DeviceNames.NamesDistinctIff | cells/iguana/iguana_cell.py:334-367 | the names a cell hands out are all different if and only if no kind is asked for so often that its numbers reach the names of a kind that extends it |
| DeviceNames.SerialTen | cells/iguana/iguana_cell.py:358-367 | a concrete pair of devices with one name |

## Left out

- Markup.Run: templates that are not printed from a readable tree; an unclosed conditional or loop makes the source's scan start over, and a conditional inside a conditional is cut at the first `fi}}`. A loop body that changes the list it is run for.
- PhysAllocator.Allocator.Mark: inverted ranges for which the scan never ends; a page size of 1, where the source takes its own inclusive end for an exclusive one; and free lists whose entries overlap.
- RangeAllocator.Allocator.Alloc: a pool that ends at the top of the address space, where the source's sums wrap; the debug poison written by free and destroy.
- VirtualPools.HalvingTest: starts from a pool with nothing allocated, as the test expects of the root pool; allocation failure of the C heap.
- FreeWalk.FreeAllRandom: more than 2^31 items, for which the source's doubling loop wraps to 0 and does not end.
- RegisterText.Parse: the assignments to Python globals made by lines that start with `;`, which are only checked for their form. Evaluation of expressions other than decimal numerals is a parameter, and an `int` is 32 bits wide.
- BitfieldLayout.WriteBigEndian: the source also fills in the end of one-bit variables in place.
- AllocatorRuns.RunIsSafe: marks together with allocs off page borders, which are covered only without marks (`AllocatorBytes.AllocRunSafeIff`), and requests for no bytes.
- CoverageReport: arithmetic is over reals; more than one trace after the first question.
- HybridMutex: any blocked thread may be the one woken, so priority order and inheritance are not modelled; a failed grab of that thread, after which the kernel drops its spinlock and starts the release over, changes nothing and is no step. Not modelled are deletion of threads or mutexes, aborted system calls, faults on the user word and non-hybrid kernel mutexes. Memory is sequentially consistent.
- Handshake: entry points that exchange messages themselves; failed thread creation and message errors.
- LayoutVirtual: writing and reading of link files, and physical and ROM addresses.
- Pager: the kernel's map call is taken to succeed, as the source asserts; reading the segment table from the environment.
- RegisterFields: reading and writing the bus; each access is atomic.
- Scraping of objdump and nm output, parsing of trace files, and the choice of packages in the coverage tool.
- The accessor generators of tools/dd_dsl.py, and `Register.__str__`, which cannot format a list of offsets.
- The rest of the kernel (IPC, scheduling, address spaces, capabilities), the remaining tests and benchmarks, and the SCons, XML and toolchain plumbing.
