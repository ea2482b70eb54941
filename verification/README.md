# Verified models of the systems exercises

The repository is a set of independent C programs.  This project models the six that carry
real invariants and proves what they are for.  Code that updates memory is imperative Dafny
over classes and arrays, each method proved against a specification; the laws about those
specifications are lemmas.

| files | system |
|---|---|
| `HeapWords`, `HeapBits`, `HeapLayout`, `HeapCanonical`, `HeapAllocator`, `HeapTheorems`, `HeapExamples`, `HeapDriver` | segregated-fit allocator (`Lab6_malloclab`) |
| `ShellJobs`, `ShellControl`, `ShellProgram`, `ShellTheorems`, `ShellForeground` | tiny shell, its signal handler and its children (`Lab5_shelllab`) |
| `Threads`, `BoundedBuffer`, `CacheLock` | semaphore protocols of the proxy (`Lab7_proxylab`) |
| `CacheRecency`, `CacheTraces`, `CacheAddresses`, `CacheSimulator` | LRU cache simulator (`Lab4_cachelab`) |
| `Transpose` | staged in-place transposes (`Lab4_cachelab`) |
| `RobustInput`, `NumberPrinting` | buffered input and number printing (`Lab7_proxylab`) |
| `Harness`, `LinkedQueue` | counting allocator and linked queue (`Lab0_cprogramminglab`) |
| `Sequences` | reversal and list steps, shared by several of them |

`dafny verify dfyconfig.toml` verifies everything.

## The main results

**Allocator.**  Memory is one array of words that `Heap` overwrites in place; ghost fields say
which blocks it stands for (`layout`) and which of them are threaded on a list (`listed`).
`Heap.Valid` is the invariant: blocks tile the heap up to the epilogue, sizes are even numbers of
words and at least 4, headers, footers and prev-alloc bits tell the truth, no two free blocks
touch, and each of the twelve lists is exactly the free blocks of its size class in address order
with pred and succ mutually inverse.  Every call whose request is served (see the next section) keeps
it on every path, the out-of-memory ones included, and never changes a byte of a payload that is live and not its own.  `Realloc` carries
over the old contents although the block is freed, coalesced, perhaps chosen again and given a
footer before the copy.  Both take any 64-bit size, and an if-and-only-if says for which sizes,
heaps and capacities they keep their promise.  `HeapCanonical` shows that the whole state between
calls is a function of the live blocks and the heap's extent, from which the commutation of frees,
"allocate and free leaves no trace" and "nothing live means at most one block" follow.
`HeapDriver` runs the repository's own test `eval_mm_valid`: on any well-formed trace it finds
nothing wrong, stops early only at a request for which memory does not suffice, and always passes
with a capacity that covers the demand of the trace.

**Shell.**  Main program, handler and children are one transition system; its invariant holds after
any run.  The shell never sleeps on a finished job, at most one job is in the foreground and none
at the prompt, and every child collected has a table entry.  The shell dies exactly when a job is
added to a full table, and a run of seventeen background jobs does that.  One `bg` or `fg` leaves
the signal mask as it was exactly if it found a job or SIGCHLD was blocked already.  Whatever happens
on the way, the shell is back from a foreground job, new or named by `fg`, only when the job has
ended or stopped, and then gets back by itself; for a background job, new or named by `bg`, it never
waits.  A job keeps its table entry until its process ends.

**Proxy.**  For any number of threads and any interleaving: the bounded buffer is first in, first
out, holds between 0 and n items and never overwrites an unread one; the readers/writers lock
excludes writers but lets any number of readers in together; neither gets stuck, and a thread that
waits does so only for a named reason: a full or empty buffer, or a certain other thread in its way.

**Cache simulator.**  Time stamps refine a recency list; from that follow LRU inclusion, that misses
never increase with associativity, the stack-distance description of hits, and the balance of the
three counters.  `Simulate` counts exactly the hits, misses and evictions that the history of each
set demands.

**Transposes.**  B becomes the transpose of A whatever B held, for the 64x64 code at any size that is a
multiple of 8.

**Input, printing, queue.**  Any mix of buffered reads delivers a prefix of the stream, independent of
short reads and interrupts, and each line is the only one there is; a long prints as the one numeral
for it, without leading zeros; the queue refines a sequence and leaks nothing, `malloc` failing at will.

## Where the code falls short of what it promises

Each of these is stated as the code's behaviour, with the condition under which it is right and a
run from the initial state on which it is not.

- Sizes are computed in 64 bits and narrowed to the `int` of `mem_sbrk`.  `mm_malloc` returns NULL or
  a block fit for the request, and leaves a heap, if and only if `Served` holds of the heap before the
  call: a free block fits, or the narrowed increment is the size of the block, or it is refused; where
  the 64-bit sum wraps, only if there is no free block and no room (`HeapAllocator.Heap.Malloc`).
  `ServedAgain` is the condition of `mm_realloc` (`HeapAllocator.Heap.Realloc`).  At 4 GiB the
  break moves by 32 bytes and the promise is broken (`HeapExamples.Truncated4GiB`; `Heap.ExtendHeap`
  leaves no heap in such a case); 5 GiB are refused as they should be (`HeapExamples.Refused5GiB`).
- Section 7.22.3.5 of ISO C11 leaves the old block alone when reallocation fails; `mm_realloc` has freed
  it by then.  It fails if and only if no free block is large enough, nor is the old one together with
  the free blocks that touch it, nor is there room to grow (`NoRoomToMove`, a condition on the heap
  before the call); `HeapExamples.LostByRealloc` is a run.
- When the second extension of `mm_malloc` fails, the first stays allocated without an owner: exactly
  the third case of `GrowResult`; `HeapExamples.LostByMalloc` is a run.
- `bg` and `fg` that find no job return with SIGCHLD blocked (`ShellTheorems.BgFgMask`).  One `fg`
  without an argument is enough (`ShellTheorems.MaskLostReached`), and from then on the prompt never
  hears of a child again (`ShellTheorems.MaskLostForever`).
- `addjob` keeps job numbers distinct exactly when `nextjid` is not in use
  (`ShellTheorems.AddJidsExactly`); `ShellTheorems.JidReissued` is a run to two jobs with one number.
- `sio_ltoa` prints every long so that it reads back except the least one
  (`NumberPrinting.RoundTrip`), which prints as `-(` in base ten if its negation wraps around.
- The driver's overlap test finds every common byte except with a range strictly inside the new one
  (`HeapDriver.OverlapsExactly`).

## What the models assume

- The heap starts on a 16-byte boundary; addresses are word offsets from its start and 0 is NULL.
  No memory is larger than half the 64-bit address space.  Tags are numbers
  `8 * words + 2 * prev_alloc + alloc`; `HeapBits.PackNumber` and `HeapBits.MasksNumber` connect them
  with the masks and shifts of the C code on 64-bit vectors.
- A store outside the heap, or past the block that is being filled, ends a call with a fault; what it
  would overwrite is not followed.
- Shell: no pid is given out again before its process is collected, `fork` and `kill` succeed, SIGCONT
  discards the report of a stop not yet collected.
- Proxy: one step is one P, one V or one access to shared memory; `front` and `rear` are unbounded.
- Cache simulator: at least one line per set, 0 < s and b + s < 64 (the shifts are undefined otherwise),
  stamps and counters unbounded, trace sizes ignored as in the code.
- Buffered input: `read()` is given as a list of outcomes - data, end of file, interruption, error - of any
  length; the receiver's buffer is large enough (one byte at least, for the terminator of a line), and
  `maxlen` fits the `int` that counts.

## Model

| member | source | states |
|---|---|---|
| HeapBits.PackBitsAdds | Lab6_malloclab/mm.c:368-370 | on a size with three clear low bits PACK is addition of the two flags |
| HeapBits.PackBitsSize | Lab6_malloclab/mm.c:364-370 | get_blockSize gives back the size that was packed |
| HeapBits.PackBitsFlags | Lab6_malloclab/mm.c:285-307 | check_prev_alloc and check_alloc give back the flags that were packed |
| HeapBits.PackNumber | Lab6_malloclab/mm.c:368-370 | PACK on bits is, read as a number, the tag the heap model works with |
| HeapBits.MasksNumber | Lab6_malloclab/mm.c:285-366 | the three masks read from any tag's bits what the model reads from its number |
| HeapWords.AskedExactly | Lab6_malloclab/mm.c:152 | the block size computed in 64 bits is the one for the request, or the sum has wrapped to 0, 2 or 4 words or to 2^64 bytes |
| HeapWords.GrowsExactly | Lab6_malloclab/memlib.c:58-65 | an increment that survives the narrowing is refused exactly beyond INT_MAX or the memory; another grows the heap by less than asked |
| HeapWords.ByteToWordAligned | Lab6_malloclab/mm.c:249-255 | the even number of words that holds the bytes with less than 16 to spare |
| HeapWords.ClassFromBounds | Lab6_malloclab/mm.c:257-262 | the list chosen is the lowest whose bound is not exceeded |
| HeapWords.ClassExactly | Lab6_malloclab/mm.c:134-138 | the bounds are 4, 8, 16 and so on to 4096 words, the last list is for all above |
| HeapWords.ClassOfMonotone | Lab6_malloclab/mm.c:257-262 | a larger block is never on a lower list, so a search upward misses no fit |
| HeapWords.CopiedByte | Lab6_malloclab/mm.c:223-235 | after the word-wise copy every byte of the target is the byte of the source |
| HeapLayout.BlockBelow | Lab6_malloclab/mm.c:313-323 | every boundary but the first is the end of exactly a block |
| HeapLayout.FreeBelow | Lab6_malloclab/mm.c:315-319 | a clear prev-alloc bit and the footer below lead to the free block that ends here |
| HeapLayout.MergeSound | Lab6_malloclab/mm.c:313-336 | joining two adjacent free blocks keeps tiling, tags, lists and live blocks, and leaves one place fewer where free blocks touch |
| HeapLayout.UnlinkKeepsLinks | Lab6_malloclab/mm.c:279-282 | taking a block out of its list leaves all lists exact, ordered and doubly linked |
| HeapLayout.InsertKeepsLinks | Lab6_malloclab/mm.c:349-361 | putting a block in its gap leaves all lists exact, ordered and doubly linked |
| HeapLayout.InsertSound | Lab6_malloclab/mm.c:337-362 | the stores of place_free_block behind the last lower node touch neither tags nor payloads |
| HeapLayout.CutWords | Lab6_malloclab/mm.c:288-303 | the tags split writes make allocated part and remainder two blocks of a sound heap |
| HeapLayout.PlacedExactly | Lab6_malloclab/mm.c:288-303 | a remainder becomes a free block if and only if it has more than 32 bytes; without one the block is handed out whole |
| HeapLayout.ExtendSound | Lab6_malloclab/mm.c:264-273 | turning the epilogue into a block and writing a new one keeps the heap sound |
| HeapLayout.RetagKeepsTags | Lab6_malloclab/mm.c:191-194 | new header, footer and prev-alloc bit above describe the layout with the flag flipped |
| HeapLayout.NextOnList | Lab6_malloclab/mm.c:486-495 | following succ skips no free block of the list |
| HeapLayout.PlacedHandedOut | Lab6_malloclab/mm.c:275-303 | a block placed for a request is aligned, large enough, at most 32 bytes too large and apart from all live payloads |
| HeapLayout.CarriedFromFreed | Lab6_malloclab/mm.c:213-224 | what freed memory and the saved last word give is the old payload |
| HeapLayout.NotAHeap | Lab6_malloclab/mm.c:264-273 | a header at the old end for a block too small, or reaching beyond the new end, is part of no heap whatever |
| HeapAllocator.Heap.ResetBrk | Lab6_malloclab/memlib.c:48-51 | the heap is empty again |
| HeapAllocator.Heap.Sbrk | Lab6_malloclab/memlib.c:58-69 | refuses a negative or too large increment and changes nothing, else returns the old break |
| HeapAllocator.Heap.Init | Lab6_malloclab/mm.c:120-141 | succeeds exactly if the roots and the epilogue fit, and leaves a valid heap without blocks |
| HeapAllocator.Heap.WriteNextHf | Lab6_malloclab/mm.c:372-380 | rewrites the prev-alloc bit above a block in the header and, of a free block, the footer |
| HeapAllocator.Heap.ChooseList | Lab6_malloclab/mm.c:257-262 | finds the size class |
| HeapAllocator.Heap.FindPlace | Lab6_malloclab/mm.c:338-348 | stops at the last node of the list below the block |
| HeapAllocator.Heap.PlaceFreeBlock | Lab6_malloclab/mm.c:337-362 | the block is on the list of its class, everything else as before |
| HeapAllocator.Heap.Unlink | Lab6_malloclab/mm.c:292-295 | the block is on no list, everything else as before |
| HeapAllocator.Heap.JoinBelow | Lab6_malloclab/mm.c:315-323 | afterwards the block below is allocated; live blocks and payload words are kept |
| HeapAllocator.Heap.JoinAbove | Lab6_malloclab/mm.c:324-331 | afterwards no two free blocks touch; live blocks and payload words are kept |
| HeapAllocator.Heap.Coalesce | Lab6_malloclab/mm.c:313-336 | one freed block in a coalesced heap becomes a coalesced heap with the same live blocks |
| HeapAllocator.Heap.Free | Lab6_malloclab/mm.c:188-201 | the heap stays valid, exactly this block is no longer live, and its payload but the last word survives with all others |
| HeapAllocator.Heap.Split | Lab6_malloclab/mm.c:288-303 | splits exactly when more than 32 bytes remain, and the remainder is on its list |
| HeapAllocator.Heap.AllocateBlock | Lab6_malloclab/mm.c:275-284 | the block is allocated, split or whole, and off its list, even when its footer is stale |
| HeapAllocator.Heap.GrowTwice | Lab6_malloclab/mm.c:162-181 | the ways through the two extensions, with the block that is lost when the second fails, and when they leave no heap |
| HeapAllocator.Heap.ExtendHeap | Lab6_malloclab/mm.c:264-273 | for any word count: refused exactly as mem_sbrk does; one block appended; or a fault exactly if the increment was cut short, and then no heap is left |
| HeapAllocator.Heap.FindFit | Lab6_malloclab/mm.c:482-498 | NULL exactly when no free block is large enough, else the lowest block of the lowest list that has one |
| HeapAllocator.Heap.Malloc | Lab6_malloclab/mm.c:150-182 | for any 64-bit size: NULL or a fit block, in a heap, if and only if the request is served; then the heap is valid on all four ways out, and said which way is taken and what it leaves, payload aligned, disjoint and large enough, other payloads unchanged |
| HeapAllocator.Heap.ExtendFree | Lab6_malloclab/mm.c:170-171 | the second extension: NULL, or a free block at the end in its list, or a fault when the block is empty |
| HeapAllocator.Heap.MoveData | Lab6_malloclab/mm.c:223-224 | the result holds the bytes at the old place, the last old word taken from the saved copy; nothing beyond the new payload changes |
| HeapAllocator.Heap.FillFit | Lab6_malloclab/mm.c:221-231 | copying into a block still listed as free, over its footer, and allocating it afterwards is sound |
| HeapAllocator.Heap.FillExtend | Lab6_malloclab/mm.c:233-242 | the same through an extension of the heap |
| HeapAllocator.Heap.Realloc | Lab6_malloclab/mm.c:208-245 | NULL allocates, size 0 does nothing; else the promise is kept if and only if the request is served again; then it fails, losing the block, exactly if neither a free block nor the old one with its neighbours nor the heap has room, and otherwise the first min(old payload, size) bytes are the old ones; other payloads are unchanged |
| HeapCanonical.CanonicalLayout | Lab6_malloclab/mm.c:437-456 | two coalesced tilings with the same live blocks and end are the same |
| HeapCanonical.CanonicalTags | Lab6_malloclab/mm.c:383-396 | the layout determines every header, footer and the epilogue |
| HeapCanonical.CanonicalLinks | Lab6_malloclab/mm.c:337-362 | the set of listed blocks determines every pred and succ |
| HeapCanonical.CanonicalHeap | Lab6_malloclab/mm.c:400-475 | live blocks and extent determine blocks, tags and the contents of all lists |
| HeapCanonical.WalkContents | Lab6_malloclab/mm.c:400-435 | a list walk meets exactly the free blocks of the class, in address order |
| HeapCanonical.WalkBack | Lab6_malloclab/mm.c:349-361 | along every list pred is the inverse of succ |
| HeapCanonical.NothingLive | Lab6_malloclab/mm.c:313-336 | with every block freed at most one is left, covering the heap |
| HeapCanonical.FreedFit | Lab6_malloclab/mm.c:313-336 | after a free there is a fit exactly if there was one or the block with its free neighbours is one |
| HeapTheorems.SameUseSameState | Lab6_malloclab/mm.c:188-201 | heaps with the same live blocks and extent have the same blocks and lists |
| HeapTheorems.FreeInEitherOrder | Lab6_malloclab/mm.c:188-201 | freeing two live blocks in either order gives the same blocks and lists |
| HeapTheorems.MallocThenFree | Lab6_malloclab/mm.c:150-201 | allocating from a list and freeing at once restores blocks and lists |
| HeapExamples.LostByMalloc | Lab6_malloclab/mm.c:170-179 | a run in which mm_malloc returns NULL and a block stays allocated |
| HeapExamples.LostByRealloc | Lab6_malloclab/mm.c:220-242 | a run in which mm_realloc returns NULL and the live block is gone |
| HeapExamples.Truncated4GiB | Lab6_malloclab/memlib.c:58-69 | a run in which a request of 4 GiB breaks the promise |
| HeapExamples.Refused5GiB | Lab6_malloclab/memlib.c:58-69 | one of 5 GiB is refused by every memory up to 40 MiB, the heap untouched |
| HeapDriver.AddRange | Lab6_malloclab/mdriver.c:388-436 | says which test failed, and passes exactly aligned ranges in the heap that overlap no other by the test made there |
| HeapDriver.OverlapsExactly | Lab6_malloclab/mdriver.c:413-425 | the test finds a common byte, except with a range strictly inside the new one |
| HeapDriver.OversizedExactly | Lab6_malloclab/memlib.c:58 | requests of more than INT_MAX - 39 bytes are too large for an int |
| HeapDriver.HandedOutPasses | Lab6_malloclab/mdriver.c:388-436 | what the allocator hands out passes |
| HeapDriver.SameData | Lab6_malloclab/mdriver.c:686-695 | the comparison loop is true exactly if all bytes match |
| HeapDriver.DoAlloc | Lab6_malloclab/mdriver.c:632-663 | an allocation passes the test, all fill bytes intact, or the block is too large for an int or memory for two of it |
| HeapDriver.DoRealloc | Lab6_malloclab/mdriver.c:665-705 | a reallocation passes the test and the comparison, all fill bytes intact, or the block is too large for an int or for the memory left |
| HeapDriver.DoFree | Lab6_malloclab/mdriver.c:707-718 | a free leaves all other fill bytes intact |
| HeapDriver.EvalMmValid | Lab6_malloclab/mdriver.c:600-728 | on every well-formed trace: never misaligned, outside the heap, overlapping or data lost; stops early only at a request for which memory does not suffice; passes whenever the capacity covers the trace's demand |
| ShellJobs.MaxJid | Lab5_shelllab/tsh.c:447-455 | no job number is larger |
| ShellJobs.MaxJidUsed | Lab5_shelllab/tsh.c:447-455 | the largest number belongs to an entry |
| ShellJobs.OwnEntry | Lab5_shelllab/tsh.c:512-521 | getjobpid finds a job by its own pid |
| ShellJobs.AddKeeps | Lab5_shelllab/tsh.c:458-481 | adding gives an entry to the new process and to nobody else |
| ShellJobs.DeleteKeeps | Lab5_shelllab/tsh.c:484-499 | deleting takes away the entry of that process only |
| ShellJobs.JobTable.constructor | Lab5_shelllab/tsh.c:439-444 | all entries are free |
| ShellJobs.JobTable.Maxjid | Lab5_shelllab/tsh.c:447-455 | the loop finds the largest job number |
| ShellJobs.JobTable.Addjob | Lab5_shelllab/tsh.c:458-481 | takes the first free entry and the next number, wrapping after 16, or changes nothing |
| ShellJobs.JobTable.Deletejob | Lab5_shelllab/tsh.c:484-499 | frees the entry and numbers on from the largest left, or changes nothing |
| ShellJobs.JobTable.Fgpid | Lab5_shelllab/tsh.c:502-509 | the first foreground job, 0 if none |
| ShellJobs.JobTable.Getjobpid | Lab5_shelllab/tsh.c:512-521 | the first entry with that pid, NULL if none |
| ShellJobs.JobTable.Getjobjid | Lab5_shelllab/tsh.c:524-534 | the first entry with that number, NULL if none |
| ShellControl.InitInv | Lab5_shelllab/tsh.c:439-444 | the invariant holds at the first prompt |
| ShellControl.AddMatched | Lab5_shelllab/tsh.c:195-207 | with SIGCHLD blocked the child forked is in the table before it can be collected |
| ShellControl.ChosenExactly | Lab5_shelllab/tsh.c:308-319 | the job found is the first with the number or pid given, and none is found if and only if there is none |
| ShellControl.ChooseKeeps | Lab5_shelllab/tsh.c:307-322 | making a job FG or BG, or finding none, keeps the invariant |
| ShellControl.ContinueKeeps | Lab5_shelllab/tsh.c:324-326 | after SIGCONT the job is live again and waited for if in the foreground |
| ShellControl.CollectEntry | Lab5_shelllab/tsh.c:365-367 | a child collected has exactly one entry |
| ShellControl.CollectStep | Lab5_shelllab/tsh.c:365-383 | collecting a dead or stopped child keeps the invariant and never meets a missing entry |
| ShellControl.NextInv | Lab5_shelllab/tsh.c:183-392 | every step of shell, handler and children keeps the invariant |
| ShellProgram.Shell.AddNewJob | Lab5_shelllab/tsh.c:206-212 | the code after the fork on the table in memory is the step of the transition system, whose kind of job NewForeground and NewBackground pin down |
| ShellProgram.Shell.ChooseJobFor | Lab5_shelllab/tsh.c:308-322 | so is the choice of the job in do_bgfg |
| ShellProgram.Shell.TestForeground | Lab5_shelllab/tsh.c:338-340 | so is the loop condition of waitfg |
| ShellProgram.Shell.CollectOne | Lab5_shelllab/tsh.c:365-383 | so is one turn of the handler's loop |
| ShellTheorems.InvSafe | Lab5_shelllab/tsh.c:334-342 | asleep on a live job or about to be woken, one foreground job at most, none at the prompt, only known children collected |
| ShellTheorems.AlwaysSafe | Lab5_shelllab/tsh.c:183-392 | all of that after any run from the start |
| ShellTheorems.DiesExactly | Lab5_shelllab/tsh.c:207-209 | the shell dies exactly when it adds a job to a full table |
| ShellTheorems.SeventeenJobs | Lab5_shelllab/tsh.c:465-480 | a run from the start that gets there |
| ShellTheorems.BgFgMask | Lab5_shelllab/tsh.c:300-329 | from prompt to prompt, whatever happens on the way, one bg or fg leaves the mask as it was if and only if a job was found or SIGCHLD was blocked already |
| ShellTheorems.MaskLostReached | Lab5_shelllab/tsh.c:307-308 | a run of one fg without an argument from the start loses the mask |
| ShellTheorems.MaskLostForever | Lab5_shelllab/tsh.c:307-319 | once lost, no SIGCHLD reaches the prompt in any later run |
| ShellTheorems.AddJidsExactly | Lab5_shelllab/tsh.c:469-471 | job numbers stay distinct if and only if the next one is not in use |
| ShellTheorems.SixteenJobs | Lab5_shelllab/tsh.c:183-215 | a run to a table filled with jobs 1 to 16 |
| ShellTheorems.JidReissued | Lab5_shelllab/tsh.c:469-494 | a run from the start, two of sixteen jobs ending, after which two live jobs have number 1 |
| ShellForeground.NewForeground | Lab5_shelllab/tsh.c:195-213 | after any run without another command the shell is back from a new foreground job only if the job ended or stopped and has no entry or a stopped one; the mask is as before |
| ShellForeground.NewBackground | Lab5_shelllab/tsh.c:195-213 | it never waits for a new background job, which is still BG, or has ended or stopped; the mask is as before |
| ShellForeground.ChosenForeground | Lab5_shelllab/tsh.c:308-328 | it waits in the same way for the job that fg names |
| ShellForeground.ChosenBackground | Lab5_shelllab/tsh.c:308-328 | it never waits for the job that bg names, which is running and BG, or has ended or stopped |
| ShellForeground.KeptUntilExit | Lab5_shelllab/tsh.c:365-383 | stopped or running, a job stays in the table until its process ends |
| ShellForeground.PromptReturns | Lab5_shelllab/tsh.c:334-383 | once the foreground process has ended or stopped, waitfg and the handler by themselves lead back to the prompt |
| BoundedBuffer.InitInv | Lab7_proxylab/sbuf.c:4-12 | the invariant holds after sbuf_init |
| BoundedBuffer.StepAccounts | Lab7_proxylab/sbuf.c:14-31 | every slot and item is accounted for by a semaphore or a thread on its way, and the mutex by one |
| BoundedBuffer.StepContents | Lab7_proxylab/sbuf.c:14-31 | no unread slot is overwritten and the oldest item is read |
| BoundedBuffer.TakeInv | Lab7_proxylab/sbuf.c:14-31 | every turn of every thread keeps both |
| BoundedBuffer.FirstInFirstOut | Lab7_proxylab/sbuf.c:14-31 | in every interleaving the items removed are a prefix of those inserted, with 0 to n between |
| BoundedBuffer.NeverStuck | Lab7_proxylab/sbuf.c:14-31 | with a producer and a consumer still looping some thread can go on |
| BoundedBuffer.WaitsFor | Lab7_proxylab/sbuf.c:14-31 | in every reachable state a thread that cannot go on waits for a full or empty buffer, a slot or item on its way with another thread, or another thread inside mutex |
| BoundedBuffer.Sbuf.constructor | Lab7_proxylab/sbuf.c:4-12 | sbuf_init gives an initial state |
| BoundedBuffer.Sbuf.Insert | Lab7_proxylab/sbuf.c:14-20 | each statement of sbuf_insert in memory is that step |
| BoundedBuffer.Sbuf.Remove | Lab7_proxylab/sbuf.c:22-31 | each statement of sbuf_remove in memory is that step, and the item is the one recorded |
| CacheLock.InitInv | Lab7_proxylab/proxy.c:292-299 | the invariant holds after cache_init |
| CacheLock.TakeInv | Lab7_proxylab/proxy.c:211-269 | every step keeps: mutex has one holder, read_cnt counts the readers inside, w is held by one writer or the readers |
| CacheLock.WriterAlone | Lab7_proxylab/proxy.c:242-269 | while one writes no other thread writes or has passed P(w) as a reader |
| CacheLock.Exclusion | Lab7_proxylab/proxy.c:211-269 | in every interleaving a writer is never inside with a reader or another writer |
| CacheLock.NeverStuck | Lab7_proxylab/proxy.c:211-269 | while a thread is inside a call some such thread can go on |
| CacheLock.WaitsFor | Lab7_proxylab/proxy.c:211-269 | in every reachable state a thread that cannot go on waits for another: at mutex for one between P and V, the first reader for a writer, a writer for a writer or a reader that holds w |
| CacheLock.AllReading | Lab7_proxylab/proxy.c:211-236 | from the start any number of threads can come to read together |
| CacheLock.Lock.constructor | Lab7_proxylab/proxy.c:292-299 | cache_init gives an initial state |
| CacheLock.Lock.ReadCache | Lab7_proxylab/proxy.c:211-236 | each statement of the reader's protocol in memory is that step, whose waiting WaitsFor describes |
| CacheLock.Lock.WriteCache | Lab7_proxylab/proxy.c:242-269 | each statement of the writer's protocol in memory is that step |
| CacheAddresses.SetBits | Lab4_cachelab/cachelab-handout/csim.c:132-135 | the two shifts pick the s bits above the offset, so the set exists |
| CacheAddresses.SameBlock | Lab4_cachelab/cachelab-handout/csim.c:132-135 | tag and set agree exactly for addresses in the same block |
| CacheRecency.TouchTake | Lab4_cachelab/cachelab-handout/csim.c:65-106 | a use of a tag commutes with cutting the recency list to the lines there are |
| CacheRecency.StackDistance | Lab4_cachelab/cachelab-handout/csim.c:65-106 | a tag stands as deep as the number of different tags used since |
| CacheTraces.Contents | Lab4_cachelab/cachelab-handout/csim.c:65-138 | after a trace a set holds the top of the stack of its history |
| CacheTraces.Inclusion | Lab4_cachelab/cachelab-handout/csim.c:65-106 | with more lines per set the same trace leaves at least the same tags |
| CacheTraces.MissesNeverIncrease | Lab4_cachelab/cachelab-handout/csim.c:65-106 | and costs no more misses |
| CacheTraces.HeldExactly | Lab4_cachelab/cachelab-handout/csim.c:65-106 | a tag is held if and only if it was used and fewer than E others of the set came since |
| CacheTraces.CountersExactly | Lab4_cachelab/cachelab-handout/csim.c:65-106 | an access counts as a hit if and only if its tag was used with fewer than E others of the set since, else as a miss, and as an eviction if and only if E different tags came before; a modification adds one hit |
| CacheTraces.ModifyHits | Lab4_cachelab/cachelab-handout/csim.c:76-103 | the second access of a modification is a hit and changes nothing else |
| CacheTraces.EveryUseCounted | Lab4_cachelab/cachelab-handout/csim.c:65-138 | hits + misses = loads + stores + 2 * modifies |
| CacheTraces.RunBalanced | Lab4_cachelab/cachelab-handout/csim.c:65-106 | no set overflows or repeats a tag, and misses = evictions + lines in use |
| CacheTraces.LinesInUse | Lab4_cachelab/cachelab-handout/csim.c:55-106 | misses - evictions = lines in use <= E * 2^s |
| CacheSimulator.HitStep | Lab4_cachelab/cachelab-handout/csim.c:71-77 | restamping the line found moves its tag to the front |
| CacheSimulator.FillStep | Lab4_cachelab/cachelab-handout/csim.c:87-93 | filling a free line puts the tag in front of a list with room |
| CacheSimulator.EvictStep | Lab4_cachelab/cachelab-handout/csim.c:98-101 | the line with the least stamp is the least recently used, and only it drops out |
| CacheSimulator.Cache.constructor | Lab4_cachelab/cachelab-handout/csim.c:33-63 | the empty cache |
| CacheSimulator.Cache.Scan | Lab4_cachelab/cachelab-handout/csim.c:66-85 | a line with the tag if there is one, else the first free line, else one with the least stamp |
| CacheSimulator.Cache.UpdateCache | Lab4_cachelab/cachelab-handout/csim.c:65-106 | lines, stamps and counters change as the recency list does, stamps distinct and below timeStamp, tags distinct |
| CacheSimulator.Cache.Simulate | Lab4_cachelab/cachelab-handout/csim.c:117-141 | after the trace the lines and counters are those of the recency model, the counters exactly what the history of the sets demands |
| Transpose.ParkBoth | Lab4_cachelab/cachelab-handout/trans.c:66-87 | both halves are parked in the lower rows of the two blocks to the right, nothing else changes |
| Transpose.PutBack | Lab4_cachelab/cachelab-handout/trans.c:207-222 | a parked half is copied to its place, nothing else changes |
| Transpose.Spread | Lab4_cachelab/cachelab-handout/trans.c:65-206 | on each of the four overlapping guards each half is parked or in place as the later guards expect |
| Transpose.Block | Lab4_cachelab/cachelab-handout/trans.c:65-222 | a block ends up transposed and only cells of its rows from its columns on have changed |
| Transpose.TransposeByBlocks | Lab4_cachelab/cachelab-handout/trans.c:60-225 | B is the transpose of A for every A, every initial B and every size that is a multiple of 8 |
| Transpose.Transpose32By32 | Lab4_cachelab/cachelab-handout/trans.c:32-54 | B is the transpose, the diagonal element of a row stored last |
| Transpose.Transpose67By61 | Lab4_cachelab/cachelab-handout/trans.c:228-301 | B is the transpose, odd strips included |
| Transpose.TransposeSubmit | Lab4_cachelab/cachelab-handout/trans.c:25-30 | the transpose for the three sizes, B untouched for any other |
| RobustInput.Rio.constructor | Lab7_proxylab/csapp.c:837-842 | the stream ahead is what the descriptor will deliver |
| RobustInput.Rio.RioRead | Lab7_proxylab/csapp.c:805-830 | delivers the next bytes of the stream, 0 at its end, -1 on an error, and retries interruptions; short only when the buffer is used up |
| RobustInput.Rio.RioReadnb | Lab7_proxylab/csapp.c:849-864 | delivers exactly the next n bytes, or those before the end, or -1 if and only if an error comes first; the rest of the stream stays ahead |
| RobustInput.Rio.RioReadlineb | Lab7_proxylab/csapp.c:871-895 | delivers exactly the line of at most maxlen - 1 bytes ahead, or -1 if and only if an error comes first, for any maxlen; terminated unless nothing was read or an error occurred |
| RobustInput.TakeConserves | Lab7_proxylab/csapp.c:805-895 | a call neither loses nor repeats nor reorders a byte |
| RobustInput.DeliveredIsPrefix | Lab7_proxylab/csapp.c:849-895 | what any mix of calls delivers up to an error is a prefix of the stream |
| RobustInput.ReadAll | Lab7_proxylab/csapp.c:849-895 | that is what any list of calls on one rio_t hands out |
| RobustInput.ReadsCompose | Lab7_proxylab/csapp.c:849-864 | two reads that fill their buffers deliver what one read of both sizes does |
| RobustInput.LineExact | Lab7_proxylab/csapp.c:871-895 | the line is the one that stops at the first newline, maxlen - 1 bytes or the end, whichever is first |
| RobustInput.LineFull | Lab7_proxylab/csapp.c:876-889 | it stops short of the end exactly for the newline or for want of room |
| RobustInput.TakeFails | Lab7_proxylab/csapp.c:849-895 | a call fails if and only if it meets the error before it has all bytes or the newline |
| RobustInput.ShortReadsInvisible | Lab7_proxylab/csapp.c:809-820 | splitting a read in two with an interruption between changes nothing that is delivered |
| NumberPrinting.DigitsBack | Lab7_proxylab/csapp.c:246-248 | the digits put down, reversed, read as the number |
| NumberPrinting.RoundTrip | Lab7_proxylab/csapp.c:226-255 | parsing the text gives back v if and only if v is not the least long |
| NumberPrinting.TextExactly | Lab7_proxylab/csapp.c:226-255 | for every other long the text is the only numeral for it: signed exactly if negative, no leading zero, lower-case digits |
| NumberPrinting.LeastLong | Lab7_proxylab/csapp.c:241-254 | what the least long prints as in each base |
| NumberPrinting.TextFits | Lab7_proxylab/csapp.c:276-282 | at most 64 characters in any base and 20 in base ten |
| NumberPrinting.SioStrlen | Lab7_proxylab/csapp.c:258-265 | the length up to the terminator |
| NumberPrinting.SioReverse | Lab7_proxylab/csapp.c:226-235 | the string is reversed in place, the rest of the array untouched |
| NumberPrinting.SioLtoa | Lab7_proxylab/csapp.c:238-255 | the array holds the text of v, terminated, and nothing beyond it changes |
| NumberPrinting.SioPutl | Lab7_proxylab/csapp.c:276-282 | what is written is a numeral that reads back as v unless v is the least long |
| Harness.Allocator.TestMalloc | Lab0_cprogramminglab/harness.c:112-139 | NULL exactly on failure and then nothing changes, else a new block heads the list and the count goes up |
| Harness.Allocator.FindHeader | Lab0_cprogramminglab/harness.c:76-100 | an error exactly if the block is not on the list |
| Harness.Allocator.TestFree | Lab0_cprogramminglab/harness.c:141-175 | exactly this block leaves the doubly linked list and the count goes down; NULL is an error |
| Harness.Allocator.LeadAround | Lab0_cprogramminglab/harness.c:163-174 | head and both neighbours' links lead around the block |
| LinkedQueue.QNew | Lab0_cprogramminglab/queue.c:25-34 | an empty queue with one allocation, or NULL and no change |
| LinkedQueue.QFree | Lab0_cprogramminglab/queue.c:37-52 | every allocation of the queue is given back, none twice |
| LinkedQueue.QInsertHead | Lab0_cprogramminglab/queue.c:61-84 | the string goes in front; a failure of either malloc leaves queue and count as they were |
| LinkedQueue.QInsertTail | Lab0_cprogramminglab/queue.c:94-130 | the string goes to the end, likewise |
| LinkedQueue.QRemoveHead | Lab0_cprogramminglab/queue.c:140-155 | the first string is removed, its first bufsize - 1 characters, or all if it has fewer, are copied, and both its blocks are freed |
| LinkedQueue.QSize | Lab0_cprogramminglab/queue.c:161-167 | the number of strings |
| LinkedQueue.QReverse | Lab0_cprogramminglab/queue.c:176-193 | the strings in reverse order, in the same elements, nothing allocated or freed |
| LinkedQueue.Session | Lab0_cprogramminglab/queue.c:25-193 | over any operations every result, copied strings included, and the contents are those of the sequence they describe, the count is 1 + 2 * size, and 0 with no error after q_free |

## Left out

- The proxy's list of cached objects: a hit on the head links it to itself and eviction leaves a dangling link, so there is no list order to prove; only the lock is modelled.
- HeapAllocator.Heap.Sbrk: increments that are not multiples of 8, which no call makes.
- HeapAllocator.Heap.Init: a heap that mem_reset_brk has not emptied; the roots would then not start at its first word.
- HeapAllocator.Heap.MemMove: memmove is one simultaneous move of words, not a loop over bytes.
- HeapAllocator.Heap.Realloc: what is overwritten after a fault.
- HeapDriver.EvalMmValid: the messages, the trace file and the performance figures of the driver; the overlap test is the driver's own, which misses an older range strictly inside the new one (HeapDriver.OverlapsExactly; HeapAllocator.Heap.Malloc states disjointness in full).
- CacheSimulator.Cache.constructor: an empty cache (E = 0), on whose first miss the code uses an index it has not set.
- CacheSimulator.Cache.Simulate: stamps and counters as C ints, s = 0 or b + s >= 64, on which C does not define the shifts, and files that do not parse.
- ShellProgram.Shell.AddNewJob: parsing of command lines, built-ins other than bg and fg, the messages, and the forwarding of SIGINT and SIGTSTP; a signal sent to a child appears as its exit or stop.
- Transpose.Block: the cache misses the layout is meant to save.
- Harness.Allocator.TestMalloc: the mode that forbids allocation, guard words, fill bytes, and a NULL from the malloc underneath, which the code does not survive.
- Harness.Allocator.FindHeader: the magic number of the header, and the mode without the search.
- Harness.Allocator.TestFree: blocks that are not on the list, whose header is memory the code does not own.
- LinkedQueue.QRemoveHead: the padding of strncpy, and a bufsize of 0.
- BoundedBuffer.Sbuf.Insert: front and rear as C ints, which overflow after 2^31 items.
- The data lab's `bits.c`: single expressions, most of them settled by a bit-vector solver.
- Sockets, HTTP parsing and forwarding, fork and exec, option parsing, timers, printing, the drivers and trace generators, and the bomb and attack labs.
