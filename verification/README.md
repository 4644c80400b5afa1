# TayhuangOS kernel: a verified model

TayhuangOS is a small 64-bit kernel in C. This project models the parts of it where the state is hard to see through: the
scheduler with its semaphores and mailboxes, the byte FIFO that user programs build on the semaphores, and the
memory stack from the kernel heap over the page allocator and the 4-level page tables to the loader of kernel
modules. Dafny proves the properties below for all inputs, all runs and all reachable states.

`dafny verify dfyconfig.toml` checks the whole project.

## The files

| file | what it models |
|---|---|
| `AvlTree.dfy` | the search tree of the semaphores as a value: walk down, four rotations, factors, way back up |
| `SignalTable.dfy` | the same tree as nodes on the heap with parent pointers, and creation, lookup, up and down by id |
| `Semaphores.dfy` | one semaphore: counter, ceiling, queue of sleepers |
| `Fifo.dfy`, `FifoRing.dfy`, `FifoCalls.dfy` | the shared byte FIFO: the protocol as a state machine over any number of threads, its statements in place, and what the calls are given and return |
| `Mail.dfy` | one mailbox: a ring of bytes that stands for a queue of messages |
| `Registers.dfy` | the interrupt frame, what a thread keeps of it, and the copies between the two |
| `Machine.dfy` | scheduler, task and thread creation, semaphore and message calls, clock: the step machine |
| `Calls.dfy` | what the calls mean to those who make them, over whole runs of the step machine |
| `ReadyList.dfy` | thread records, and the ready list that links them |
| `Kernel.dfy` | the same over thread records in linked lists, mailboxes in byte rings and semaphores in their tree, as a refinement of the step machine |
| `Heap.dfy` | the kernel heap: segment layouts, and the doubly linked headers in memory |
| `Pmm.dfy`, `PmmRuns.dfy`, `Powers.dfy` | the page allocator, its runs and its initialisation; powers of two |
| `HeapGrowth.dfy` | the recursion between heap and page allocator, and runs of kmalloc and kfree calls through it |
| `PageTables.dfy` | the 4-level tables written in place, against the flat map they stand for |
| `LongMode.dfy` | the identity map the boot loader builds in bulk |
| `Basics.dfy` | bytes, and sequences without repetition |
| `ProgramLoader.dfy` | copies through a page table, and the loading of a module |

Code that changes things in place is a class or a method over arrays and fields, proved against a function or a
predicate on values; the properties are then lemmas about that function. The pieces compose: the page allocator's
conservation gives the page tables fresh frames, fresh frames keep every table referenced once, that makes the tree
agree with the flat map, and the flat map carries the copies of the loader.

`Kernel` joins the concrete structures: `Holds(s)` says that the linked records, the byte rings and the tree stand for
the machine state s, and every method leaves them standing for the state the machine goes to. `Interrupt` is the
whole step, `Run` any sequence of steps, and `Kernel.Boot` such a run from the start of the kernel on.

The kernel enters system calls and interrupts through interrupt gates, so each of them, together with the
scheduling decision at its end, is one atomic step of `Machine`. The statements of the FIFO run in user code, so
there every statement is a step of its own.

## Where the code holds only under a condition

Each of these is stated as an equivalence, or as a condition with a witness that it is needed.

- `__fix_rl` (kernel/task/signal.c:173-178) does not correct the factors after its two rotations.
  `AvlTree.ClimbBalances` says exactly when that matters, `AvlTree.LeaningRLBreaksFactors` that it can happen. Ids
  handed out by `__create_signal` only grow, so real runs never take that branch (`AvlTree.LargestInserted`).
- A semaphore survives every run exactly when it is created with a ceiling of at least 1 and a value of at least 0
  (`Semaphores.SafeExactly`); otherwise an up can write through the NULL of an empty queue.
- `create_fifo` lets its semaphores count the requested size while the ring has only what its pages hold beside the
  header (libs/libfifo/fifo.c:48-52). `Fifo.CreatedSafeExactly` gives the sizes for which no byte is ever lost.
- `set_mapping` that runs out of memory leaves an entry that names frame 0, which it clears. No translation changes by
  that (`PageTables.AddressSpaces.MapPage`). For other contents of frame 0 `PageTables.NullFrameExactly` says which pages
  keep their translations.
- `init_pmm` steps two pages further after every area of its first loop, whatever the area's size
  (kernel/memory/pmm.c:78). `PmmRuns.InitExactly` and `PmmRuns.InStepMeans` say for which page counts the free lists
  are right, and `PmmRuns.InitBeginsRun` that exactly then the runs of the allocator start from a partition.
- `add_free_area` reads head and tail before it allocates the list node (kernel/memory/pmm.c:45-61). If that
  allocation makes the heap grow, pages can be lost; `HeapGrowth.AddedAroundGrowthExactly` says exactly when, and
  `HeapGrowth.PagesCanBeLost` that it can happen. The growth path of `kmalloc` itself is not affected, because its nodes
  always find room in the new area.
- `load_program` rounds the start page up (kernel/kmod_loader.c:38). `ProgramLoader.CoversExactly`: the pages
  allocated are the segment's own exactly when its address is page-aligned; `ProgramLoader.HoldsExactly`: the segment
  can be read back exactly then, or when the page it begins in was mapped before.
- `enqueue_thread` puts level-1 threads on the level-0 list (kernel/task/task_manager.c:169-171), so the level-1 list
  stays empty and there is one FIFO of ready threads. doc/内核细节.md:23 promises that a level-0 thread is scheduled at
  once when there is one. `Machine.PriorityExactly` says which switches keep that, and `Kernel.LevelZeroWaits` is a run
  that does not.

## Model

| member | source | states |
|---|---|---|
| `AvlTree.RepairLeft` | kernel/task/signal.c:84-170 | When a node has become left-heavy by two, the LL or LR branch it reaches makes it balanced, one lower, and leaves every cached factor exact. |
| `AvlTree.RepairRight` | kernel/task/signal.c:118-178 | When a node has become right-heavy by two, the RR or RL branch makes it balanced and one lower; the factors are exact if and only if it is not the RL branch with an inner node that leaned, whose factors `__fix_rl` does not correct. |
| `AvlTree.ClimbIds` | kernel/task/signal.c:180-244 | The way back up, with whichever rotation it ends in, changes no in-order position of any id. |
| `AvlTree.DescendSplits` | kernel/task/signal.c:180-207 | The walk down from the root ends at a node with the id if and only if the id is present, and otherwise at the one free place between the larger ids on the left and the smaller ones on the right. |
| `AvlTree.DescendStays` | kernel/task/signal.c:180-207 | The place found is a leaf position of the same tree: hanging nothing there gives back the tree. |
| `AvlTree.ClimbBalances` | kernel/task/signal.c:209-244 | From any place in an exact tree the way back up finds every node it dereferences, leaves the tree balanced, and leaves the factors exact if and only if it does not end in the uncorrected RL branch. |
| `AvlTree.InsertKeepsAvl` | kernel/task/signal.c:180-253 | Inserting any id into any well-formed tree: a duplicate is recognised; otherwise the ids are the old ones with the new one in its place, the tree is balanced, and it is well-formed again if and only if the insertion does not end in the uncorrected RL branch. |
| `AvlTree.LeaningRLBreaksFactors` | kernel/task/signal.c:173-178 | That branch is reachable: a family of well-formed trees and ids for which the insertion leaves a wrong factor. |
| `AvlTree.ClimbSpine` | kernel/task/signal.c:84-115 | In a tree whose right subtrees along the left spine are perfect, adding at the left end keeps that shape and fires no rotation but `__fix_ll`. |
| `AvlTree.LargestInserted` | kernel/task/signal.c:180-253 | Inserting an id larger than all others keeps the spine shape, exact factors and balance, and only `__fix_ll` can fire. |
| `AvlTree.CreatedShape` | kernel/task/signal.c:313-329 | After any number n of creations the tree has the spine shape and its ids are exactly n-1, ..., 0 in order. |
| `AvlTree.CreatedIsAvl` | kernel/task/signal.c:313-329 | After any number of creations factor = height(right) - height(left) at every node, and the search order holds. |
| `AvlTree.CreatedHeight` | kernel/task/signal.c:313-329 | After n >= 1 creations the height h satisfies 2^(h-1) <= n < 2^h. |
| `AvlTree.CreatedIsLowest` | kernel/task/signal.c:313-329 | No binary tree with as many nodes is lower, so lookups are as short as they can be. |
| `SignalTable.LiftLeft` | kernel/task/signal.c:84-115 | The pointer rotation to the right on heap nodes: `left`, `right` and `parent` afterwards link exactly the rotated tree, and nothing else has changed. |
| `SignalTable.LiftRight` | kernel/task/signal.c:118-149 | The mirrored pointer rotation. |
| `SignalTable.SignalTable.FixLL` | kernel/task/signal.c:84-115 | The whole pointer tree, parent links included, afterwards represents the tree with LL applied at that node, with the same set of nodes. |
| `SignalTable.SignalTable.FixRR` | kernel/task/signal.c:118-149 | The same for RR. |
| `SignalTable.SignalTable.FixLR` | kernel/task/signal.c:152-170 | The same for LR, factors rewritten by the inner node's factor. |
| `SignalTable.SignalTable.FixRL` | kernel/task/signal.c:173-178 | The same for RL, which only chains the two single rotations. |
| `SignalTable.SignalTable.Rebalance` | kernel/task/signal.c:209-244 | The loop up the parent pointers leaves exactly the tree of the pure climb, linked both ways. |
| `SignalTable.SignalTable.FindPlace` | kernel/task/signal.c:180-207 | The pointer walk down ends at the node with the id if there is one, and otherwise at the parent under which the new node belongs. |
| `SignalTable.SignalTable.InsertNode` | kernel/task/signal.c:180-253 | Insertion on the heap is the pure insertion: the links represent the inserted tree and the nodes are the old ones plus the new one, or the old ones for a duplicate. |
| `SignalTable.FindsExactly` | kernel/task/signal.c:255-271 | The search path finds a node if and only if the id is in the tree. |
| `SignalTable.SignalTable.GetSignal` | kernel/task/signal.c:255-271 | The pointer loop returns the semaphore with that id, or NULL when there is none. |
| `SignalTable.NextCreation` | kernel/task/signal.c:313-329 | The next id is new, its insertion succeeds, and the tree keeps the spine shape with the ids counting down. |
| `SignalTable.SignalTable.CreateSignal` | kernel/task/signal.c:313-329 | A fresh node with the next id joins the table, which stays valid; the new semaphore has the given ceiling, value and kind and no sleepers; all others are as before. |
| `SignalTable.SignalTable.UpSignal` | kernel/task/signal.c:331-346 | The semaphore found by its id is raised as `Semaphores.Up` says and the thread woken is the one it names; if all semaphores of the table owe exactly their sleepers, they still do. |
| `SignalTable.SignalTable.DownSignal` | kernel/task/signal.c:349-360 | The semaphore found by its id is lowered as `Semaphores.Down` says, and the caller sleeps exactly when that says so; settled tables stay settled. |
| `Semaphores.UpSettled` | kernel/task/signal.c:331-346 | On a semaphore whose queue holds exactly the threads the counter owes, `__up_signal` never dequeues from an empty queue, wakes a thread if and only if one is owed, and keeps the relation. |
| `Semaphores.DownSettled` | kernel/task/signal.c:349-360 | `__down_signal` lowers the counter by one, soft or not, keeps the relation, and takes one token if there is one. |
| `Semaphores.RunSettled` | kernel/task/signal.c:275-360 | Over every run: the counter stays under its ceiling, the queue length is max(0, -signals), no up fails, and the threads woken so far followed by those still asleep are the threads put to sleep, in order. |
| `Semaphores.RunCounts` | kernel/task/signal.c:275-360 | The counter after any run, soft or not, is the least of the initial value plus all ups and downs, and of the ceiling plus the ups and downs since any moment: every down counts, and every up but those that find the ceiling reached. |
| `Semaphores.SafeExactly` | kernel/task/signal.c:313-346 | A non-soft semaphore survives every sequence of operations if and only if it is created with a ceiling of at least 1 and a value of at least 0. |
| `Fifo.MutualExclusion` | libs/libfifo/fifo.c:70-100 | At most one thread is between taking and releasing the mutex. |
| `Fifo.TokensKept` | libs/libfifo/fifo.c:70-100 | Every step keeps the tokens: those in the two counting semaphores and those threads hold always sum to the requested size, split by how many unread bytes there are. |
| `Fifo.QueuesKept` | libs/libfifo/fifo.c:70-100 | Every step keeps each wait queue equal to the set of threads asleep on that semaphore, each once. |
| `Fifo.OffsetsKept` | libs/libfifo/fifo.c:70-100 | Every step keeps the offsets equal to the numbers of bytes written and read, modulo the ring size. |
| `Fifo.IntactKept` | libs/libfifo/fifo.c:70-100 | No step overwrites an unread byte, and the bytes read stay a prefix of the bytes written. |
| `Fifo.SafeAlways` | libs/libfifo/fifo.c:70-116 | For any number of threads, each of which writes or reads one byte and then chooses again, and for any interleaving, what has been read is the first part of what has been written, at most the requested number of bytes is unread, and none of them is overwritten. |
| `Fifo.ExclusiveAlways` | libs/libfifo/fifo.c:70-116 | In every reachable state at most one thread is in the critical section and the offsets it uses lie in the ring. |
| `Fifo.NoTokenLost` | libs/libfifo/fifo.c:70-100 | No up that a thread is about to do finds its semaphore at the ceiling, where the token would be lost, and none looks for a sleeper in an empty queue. |
| `Fifo.NoDeadlock` | libs/libfifo/fifo.c:70-100 | While a reader and a writer are still looping, some thread can take its next statement. |
| `Fifo.SafeExactly` | libs/libfifo/fifo.c:41-58 | With any thread at all, no run ever loses an unread byte if and only if the size the semaphores count does not exceed the ring. |
| `Fifo.CreatedSafeExactly` | libs/libfifo/fifo.c:41-58 | A FIFO made by `create_fifo` for n bytes loses nothing on any run if and only if n = 0 or 1 <= n mod 4096 <= 4096 - 48, that is, if the header fits beside the request in its last page; the ring size is computed as a `size_t`, which for n = 0 wraps, but then no thread ever passes its first down. |
| `FifoRing.SharedFifo.WriterStep` | libs/libfifo/fifo.c:88-100 | Each statement of `fifo_write_byte`, on the shared buffer in place, is the protocol's step. |
| `FifoRing.SharedFifo.ReaderStep` | libs/libfifo/fifo.c:70-86 | Each statement of `fifo_read_byte`, on the shared buffer in place, is the protocol's step; the local variable receives the byte the protocol reads at the load, and every other statement leaves it as it is. |
| `FifoRing.SharedFifo.constructor` | libs/libfifo/fifo.c:41-58 | The new FIFO is the protocol's initial state: full `empty`, empty `full`, free mutex, both offsets 0. |
| `FifoCalls.FollowMatches` | libs/libfifo/fifo.c:70-100 | Every statement keeps the account of the calls: what a thread's write calls were given is what it has stored and what it is about to store, what its read calls returned and are about to return is what it has loaded, each in order. |
| `FifoCalls.CallsExact` | libs/libfifo/fifo.c:70-116 | Over every run of any number of threads: the bytes the write calls are given are the bytes stored, thread by thread; the bytes the read calls return are the bytes loaded, each returned by the one call that loaded it; and what has been loaded is the first part of what has been stored. |
| `FifoCalls.OneToOne` | libs/libfifo/fifo.c:102-116 | When one thread writes and one reads, what the reader's calls have returned is at any moment the first part of what the writer's calls were given. |
| `FifoCalls.Callers.WriterAct` | libs/libfifo/fifo.c:88-100 | Each statement of a write call, on the shared buffer and with the byte the call was given, is the step of that account. |
| `FifoCalls.Callers.ReaderAct` | libs/libfifo/fifo.c:70-86 | Each statement of a read call, with its variable kept from the load to the return, is the step of that account. |
| `FifoCalls.Callers.PerformAll` | libs/libfifo/fifo.c:41-116 | Any run of a new FIFO, carried out in place, is the run these properties are about; no up in it looks into an empty queue. |
| `Pmm.Allocator.AddFreeArea` | kernel/memory/pmm.c:44-62 | The area goes to the tail of its list, so exactly its pages become free once more. |
| `Pmm.Allocator.AllocFreePages` | kernel/memory/pmm.c:90-104 | The oldest area of the lowest order that has one is taken, and exactly its pages leave the free set. |
| `Pmm.Allocator.ReturnPages` | kernel/memory/pmm.c:122-138 | For every page count each list gets at its tail the area of its binary digit of the count, placed behind those of the lower digits, and the list of the largest order one area per 512 pages; together they cover exactly the given range, each page once. |
| `Pmm.Allocator.AllocPages` | kernel/memory/pmm.c:106-115 | The oldest area of the lowest order g that has one gives its first 2^order pages, every list from `order` to g - 1 gets exactly one area of the rest, the one that begins 2^i pages into it, and no other list changes; exactly 2^order pages leave the free set. |
| `PmmRuns.EveryRunPartitions` | kernel/memory/pmm.c:106-138 | Over every sequence of allocations and returns of any range inside an allocated block, free areas and what is still allocated partition the managed pages. |
| `PmmRuns.Alloc` | kernel/memory/pmm.c:106-115 | `alloc_pages` is such a move: the new block holds exactly the pages that were free before and are not now. |
| `PmmRuns.Return` | kernel/memory/pmm.c:122-138 | `return_pages` of a range inside an allocated block is such a move: the block keeps what lies before and behind the range. |
| `PmmRuns.InitPmm` | kernel/memory/pmm.c:65-87 | The two loops of `init_pmm`, with the step of two pages after every area of the first loop. |
| `PmmRuns.InitExactly` | kernel/memory/pmm.c:72-86 | From empty lists `init_pmm` makes every managed page free exactly once, and no other page, if and only if every area below 512 pages that another area follows has exactly two pages. |
| `PmmRuns.InitBeginsRun` | kernel/memory/pmm.c:72-86 | What `init_pmm` leaves is a partition of the managed pages into free areas, with nothing handed out, so that every run from it stays one, if and only if the page count is in step. |
| `PmmRuns.InStepMeans` | kernel/memory/pmm.c:72-86 | For at least 512 managed pages that condition says: a multiple of 512, or two more than one. |
| `PageTables.WalkIsFlat` | kernel/memory/paging.c:136-182 | For every page number the 4-level walk finds exactly what the flat map says, given that every table frame is referenced by one entry only; address bits above the four indices are ignored. |
| `PageTables.AddressSpaces.constructor` | kernel/memory/paging.c:34-45 | Without any table the structure is sound, given free pages that are free once and lie in memory. |
| `PageTables.AddressSpaces.TakeFrame` | kernel/memory/paging.c:41-45 | The new table frame was free, is free no longer, is no table yet, and is all zero; no translation changes. |
| `PageTables.AddressSpaces.EnsureTable` | kernel/memory/paging.c:55-66 | One level of `__set_mapping`: the child table exists afterwards, at most one frame is taken for it, and no translation of any address space changes. Without memory the result is NULL; frame 0 is then cleared in place of a table and the entry names it, and still the walk finds for every page of every address space what it found before. |
| `PageTables.WalkIsFlatBut` | kernel/memory/paging.c:136-182 | With one entry that names frame 0 and that frame empty, the 4-level walk still finds exactly what the flat map says. |
| `PageTables.NullFrameExactly` | kernel/memory/paging.c:58-76 | With one entry that names frame 0, whatever that frame holds, a page keeps its translation if and only if its walk does not go through the entry or the rest of the walk, from frame 0 on, finds nothing. |
| `PageTables.AddressSpaces.MapPage` | kernel/memory/paging.c:47-109 | `__set_mapping` changes the translation of exactly this page of this address space, takes at most three frames, for tables on the way to this page only, and succeeds whenever three are free; when it fails it changes no translation at all. |
| `PageTables.AddressSpaces.CreatePgd` | kernel/memory/paging.c:34-38 | An empty top-level table in a frame that was free; no translation changes. |
| `PageTables.AddressSpaces.SetMapping` | kernel/memory/paging.c:112-121 | After mapping n pages the view is the old one with the range mapped; the new tables are on the way to a page of the range, at most 3n, and 3n free frames are enough; when it fails, the walk finds the first pages of the range mapped, up to the one that failed, and everything else as before. |
| `PageTables.MapRangeExact` | kernel/memory/paging.c:112-121 | Mapping a range sends page base+i to frame+i for exactly the pages of the range and leaves every other page of this and every other address space as it was. |
| `PageTables.TablesExactly` | kernel/memory/paging.c:47-121 | Once the pages of a range are mapped, the tables are exactly those there were and those on the way to the pages of the range. |
| `PageTables.AddressSpaces.SetMappingVV` | kernel/memory/paging.c:123-133 | Sharing n pages into another address space gives the view with the range shared, with new tables only on the way to pages of the range; 3n free frames are enough, and after a failure a first part of the range is shared and nothing else has changed. |
| `PageTables.ShareRangeExact` | kernel/memory/paging.c:123-133 | After sharing, the destination range sees the frames of the source range, and nothing else has changed; when the destination starts g pages behind the source in the same address space and the ranges overlap, it repeats the first g of them. |
| `PageTables.AddressSpaces.PhysicalAddressExact` | kernel/memory/paging.c:136-182 | `get_physical_address` is the address of the flat map's frame plus the offset in the page, and NULL when nothing is mapped. |
| `PageTables.AddressSpaces.AllocVpages` | kernel/memory/pmm.c:141-158 | It succeeds whenever the list of 512-page areas has at least n/512 + 9 + 3n entries. When it succeeds each page of the range has its own frame that was free before; a page lies in the frame behind that of the page before it unless one of the blocks of the page count's binary split begins there; exactly the data pages and the new tables, all on the way to pages of the range, have left the free set, and no other translation of any address space has changed. |
| `PageTables.BackingMore` | kernel/memory/pmm.c:141-158 | One more block of a virtual allocation keeps all of that for the longer range. |
| `LongMode.SetupPaging` | loader/grub_loader/lm/setup_lm.c:52-168 | For memory sizes up to 4 GB it succeeds exactly for a positive size; the arrays end at `*limit`, below 4 GB; nothing outside them is written; the walker finds page n at itself if and only if its first byte lies below the memory size (n * 4096 < memsz), and every other page missing. |
| `LongMode.LayoutExactly` | loader/grub_loader/lm/setup_lm.c:58-78 | Every level has as many tables as its entries need and no more: (r - 1) * 512 < entries <= r * 512, and the same for the pages of memory; the four arrays lie one behind the other from PAGE_ADDRESS to the limit. |
| `LongMode.IdentityMapped` | loader/grub_loader/lm/setup_lm.c:52-168 | The kernel's own walker agrees on the four linear arrays: identity for the pages that begin below the memory size, not present from there on. |
| `LongMode.Fill` | loader/grub_loader/lm/setup_lm.c:80-98 | One nested loop writes each entry of its array once, present for the first `entries` of them, and touches nothing else. |
| `Heap.KernelHeap.constructor` | kernel/memory/kheap.c:44-52 | One free segment over the whole area. |
| `Heap.KernelHeap.DoCombine` | kernel/memory/kheap.c:57-84 | The header writes of `do_combine` keep the list linked both ways, and the layout is the old one with the segment joined with the next one and then with the one before where both are free and adjacent. |
| `Heap.CombinedKeeps` | kernel/memory/kheap.c:57-84 | Joining at the only place where two free neighbours may touch leaves disjoint 64-byte multiples with nothing left to join. |
| `Heap.KernelHeap.FindFit` | kernel/memory/kheap.c:92-96 | The loop ends at the first segment that fits, or at the last one of the list when none does. |
| `Heap.KernelHeap.Take` | kernel/memory/kheap.c:123-149 | The header writes of a split or of a whole hand-out keep the list well linked; the layout is the old one with that segment handed out, and the pointer is 24 bytes behind its start. |
| `Heap.TakenKeeps` | kernel/memory/kheap.c:123-149 | Splitting keeps disjoint 64-byte multiples and leaves nothing to join. |
| `Heap.LiveTaken` | kernel/memory/kheap.c:86-150 | The block handed out is at least as long as asked, new, apart from every live block, and the only addition to them. |
| `Heap.KernelHeap.Kfree` | kernel/memory/kheap.c:152-158 | The segment is freed and joined in place; the list stays well linked. |
| `Heap.LiveFreed` | kernel/memory/kheap.c:152-158 | Exactly the freed block leaves the live ones. |
| `Heap.KernelHeap.AddArea` | kernel/memory/kheap.c:106-115 | A new 256 KB area is linked in behind the last segment and joined with it if it can be; the list stays well linked. |
| `Heap.FreeUndoesTake` | kernel/memory/kheap.c:123-158 | Freeing what was just handed out restores the exact segment layout. |
| `Heap.TotalCombined` | kernel/memory/kheap.c:57-84 | Joining changes no byte count. |
| `Heap.EveryRun` | kernel/memory/kheap.c:44-158 | Over every run of the heap's own operations - hand-out, release, arrival of an area: disjoint segments of 64-byte multiples with no two joinable neighbours, total size the first area plus 256 KB per arrival, and the live blocks are exactly those handed out and not released. |
| `HeapGrowth.KernelMemory.Kmalloc` | kernel/memory/kheap.c:86-150 | Terminates for every size and every state of heap and free lists. When something fits it is a plain hand-out; otherwise, with an area of at least 64 pages and round64(n+48) <= 256 KB - 3*64, it succeeds after exactly one growth whose nodes cause no further one. Blocks in use stay, the new one is fresh and long enough, and all memory the heap gains was free. |
| `HeapGrowth.KernelMemory.Kfree` | kernel/memory/kheap.c:151-158 | The segment is freed and joined in place, the free lists stay, and heap and free pages stay separate, so that growth remains possible. |
| `HeapGrowth.KernelMemory.RunCalls` | kernel/memory/kheap.c:86-158 | Over any sequence of kmalloc and kfree calls, growths included: whatever was in use at the start stays, every block held is new, has a pointer of its own and is as long as asked, and the sizes held are those asked and not released. If no request is larger than one area allows and there are as many areas of 64 pages or more as requests, every call succeeds and the bytes of the heap and of the free pages add up to what they were. |
| `HeapGrowth.KernelMemory.Grow` | kernel/memory/kheap.c:98-121 | The growth path: the free lists afterwards are those with 64 pages taken and the rest of the area returned, the heap is 256 KB larger, and the retry with the header added twice still finds room. |
| `HeapGrowth.KernelMemory.TakeArea` | kernel/memory/kheap.c:102-115 | The oldest area of the lowest order from 64 pages up is taken, and its first 64 pages join the heap without touching it. |
| `HeapGrowth.ThreeNodes` | kernel/memory/pmm.c:122-138 | Returning the rest of such an area takes at most three list nodes. |
| `HeapGrowth.KernelMemory.AddFreeArea` | kernel/memory/pmm.c:44-62 | With a node at hand the area goes to the tail of its list; when the node itself makes the heap grow, the list ends up as reading head and tail before the allocation makes it. |
| `HeapGrowth.KernelMemory.ReturnPages` | kernel/memory/pmm.c:122-138 | With room for its nodes in the heap it returns exactly the range and grows nothing; in any case nothing but the range and pages that were free changes hands. |
| `HeapGrowth.ReturnedExactly` | kernel/memory/pmm.c:122-138 | The lists it leaves have exactly the range more, for every page count. |
| `HeapGrowth.ReturnedParts` | kernel/memory/pmm.c:122-138 | List by list it leaves the areas of the binary digits of the page count at the tails, as the allocator alone does. |
| `HeapGrowth.GrownExactly` | kernel/memory/kheap.c:102-118 | A growth takes exactly 64 pages from the free lists, those the heap gains. |
| `HeapGrowth.AddedAroundGrowthExactly` | kernel/memory/pmm.c:44-62 | Around a growth `add_free_area` is exact if and only if the tail it remembered is still the tail, that is, unless its order lies from 64 pages up to below the area taken, or the growth took the only area of its list; otherwise 2^order pages are lost. |
| `HeapGrowth.PagesCanBeLost` | kernel/memory/pmm.c:44-62 | The loss is reachable: a sound heap and disjoint free lists on which returning 64 pages makes the node allocation grow the heap and drops an area. |
| `Mail.HeaderRoundTrip` | include/tayhuang/msgpack.h:23-30 | The packed 8-byte header, 16-bit fields low byte first, decodes to what was encoded. |
| `Mail.ParseEncoded` | kernel/syscall/syscalls.c:60-92 | Reading a ring of messages from its start gives back exactly those messages. |
| `Mail.OldestFirst` | kernel/syscall/syscalls.c:77-92 | The first bytes of the ring are the header and the body of the oldest message, and the rest are the other messages. |
| `Mail.Mailbox.PutBytes` | kernel/syscall/syscalls.c:63-74 | The byte loop appends its source to the used bytes, wrapping anywhere, up to an exactly full ring. |
| `Mail.Mailbox.WriteToBuffer` | kernel/syscall/syscalls.c:60-75 | Appends header and body to the used bytes; the write pointer is the read pointer plus the used size, round the ring. |
| `Mail.Mailbox.ReadFromBuffer` | kernel/syscall/syscalls.c:77-92 | Takes the oldest header and body off the used bytes, delivers the body unchanged and nothing behind it. |
| `Mail.Mailbox.SendMsg` | kernel/syscall/syscalls.c:94-122 | Accepted if and only if the bytes of all pending messages, the header and the body fit the buffer together, and the receiver allows this sender or any; the queue then ends with the message, its source being the sender's number in 16 bits; otherwise nothing changes. |
| `Mail.Mailbox.DummySendMsg` | kernel/syscall/syscalls.c:274-303 | The same for the kernel's own messages, refused only by a receiver that waits for one particular task. |
| `Mail.Mailbox.RecvMsg` | kernel/syscall/syscalls.c:158-172 | Returns the oldest accepted message intact and removes it, or the empty answer with 255 as its number and 65535 as its source; the size it asserts is always there; what was received and what is pending together are what was accepted, in order. |
| `Mail.Mailbox.SetMailbuffer` | kernel/syscall/syscalls.c:197-208 | A new empty ring over the given buffer; the filter stays. |
| `Machine.OnePlaceEach` | kernel/task/task_scheduler.c:49-133 | In every reachable state each live thread but the idle one is in exactly one place: running and current, once in the ready list, once in the queue of exactly one semaphore, or waiting for a message. |
| `Machine.Step` | kernel/syscall/syscall.c:87-101 | Every system call, tick, interrupt or fault keeps the invariant: placement, an empty level-1 list, settled semaphores, and no sleeping handler with a message pending. |
| `Machine.After` | kernel/task/task_scheduler.c:35-133 | Hence so does every run. |
| `Machine.BodyKeeps` | kernel/syscall/syscall.c:30-84 | Every call body leaves a state in which only the current thread may have stopped running. |
| `Machine.DecisionKeeps` | kernel/task/task_scheduler.c:49-133 | The scheduling decision always finds a thread to run and leaves the current one running. |
| `Machine.StepThreads` | kernel/task/thread.c:30-102 | No step loses or doubles a thread: the threads are the old ones, plus the one created, minus the one that ended. |
| `Machine.SendWakes` | kernel/syscall/syscalls.c:94-122 | A message is accepted if and only if its header and body fit behind the bytes pending and the receiver's filter is the sender or -1. Then the queue has one message more, whose number, id, length, source in 16 bits and body are those sent; a sleeping handler becomes READY and is queued exactly once, any other thread stays as it is. A refused one changes nothing. |
| `Machine.RecvTakesOldest` | kernel/syscall/syscalls.c:158-176 | A receive takes the oldest message off the caller's own mailbox and returns its 8 header bytes as one register, or -1 in the fields for number and source; nothing else changes. |
| `Machine.IrqWakes` | kernel/syscall/syscalls.c:274-303 | The same for messages of interrupts: number 3, source -2, accepted if and only if they fit and the filter is negative; the interrupted thread's rax stays. |
| `Machine.UpKeeps` | kernel/task/signal.c:331-346 | `__up_signal` never dequeues from an empty queue, and the thread it wakes moves from the wait queue to the ready list. |
| `Machine.DownKeeps` | kernel/task/signal.c:349-360 | `__down_signal` of a thread that must wait moves it into that queue, and only there. |
| `Machine.StepReady` | kernel/task/task_scheduler.c:35-133 | A switch takes exactly the head of the ready list; every other change of the list is at its tail. |
| `Machine.DispatchedInOrder` | kernel/task/task_scheduler.c:35-133 | Over every run the thread at place k of the ready list is dispatched at exactly the (k+1)-th following switch, and until then moves up one place per switch. |
| `Machine.StepSlice` | kernel/intterup/clock.c:60-72 | A level-1 thread runs on only while its slice is not used up and no thread is ready, and each tick takes one from the slice. |
| `Machine.SwitchExactly` | kernel/task/task_scheduler.c:49-75 | When a step switches threads: if the caller's task has level 0 exactly when its call stops the caller (a semaphore without a token, an empty mailbox, the end of the thread); at level 1 exactly when it does that, or a thread is ready or made ready by it, or the slice is used up; from the idle thread at every decision. |
| `Machine.DispatchedExactly` | kernel/task/task_scheduler.c:78-127 | A switch dispatches the head of the threads that were ready, those the call makes ready and the caller if it could run on, in this order, or the idle thread if there is none; the others are ready afterwards, in this order. |
| `Machine.PriorityExactly` | kernel/task/task_manager.c:165-172 | A switch leaves no level-0 thread ready behind a dispatched thread of another level if and only if the head of those threads is at level 0 or none of them is. |
| `Machine.AtMostThreeTicksPerPriority` | kernel/intterup/clock.c:60-72 | Between getting the processor and the next switch a level-1 thread of priority p >= 1 sees at most 3p ticks, whatever happens in between. |
| `Machine.StepRegs` | kernel/task/task_scheduler.c:78-114 | A thread that is not running keeps its saved registers and its page table, which is that of its task, and is given exactly those when dispatched: every field of the frame but the handler's own stack. |
| `Machine.StepSaves` | kernel/task/task_scheduler.c:78-97 | A thread that is switched away from is left with every field of the frame it was interrupted with, the call's result in rax; one that runs on gets that frame back; a tick, an interrupt or a fault leaves rax as it was too. |
| `Machine.ResumesWhereItStopped` | kernel/task/task_scheduler.c:78-127 | A thread switched away from and back any number of steps later continues with exactly the frame it left with, field by field, the result of its call in rax and its task's page table. |
| `Calls.SetAllowIs` | kernel/syscall/syscalls.c:148-150 | `__set_allow` makes the given number the filter of the caller's own task; nothing else of the machine changes. |
| `Calls.SetMailbufferIs` | kernel/syscall/syscalls.c:197-208 | `__set_mailbuffer` empties the caller's mailbox, gives it the new size and makes the calling thread its handler; the filter and everything else stay. |
| `Calls.CheckIpcIs` | kernel/syscall/syscalls.c:130-140 | `__check_ipc` puts the caller to sleep if and only if its task has a mailbox with nothing in it; nothing else changes. |
| `Calls.SettingsStay` | kernel/syscall/syscalls.c:148-208 | Over any run a task keeps its filter, and its mailbox and handler, until one of its own threads sets them; level, priority and page table never change. |
| `Calls.FilterDecides` | kernel/syscall/syscalls.c:94-150 | After `set_allow(pid)`, and any run in which the task sets no other filter, a message from task q joins its queue if and only if it fits and pid is q or -1, one of an interrupt if and only if it fits and pid is negative. |
| `Calls.HandlerWakes` | kernel/syscall/syscalls.c:116-120 | The thread that gave a task its mailbox is still there after any run in which the task gets no other one, and a message that joins the queue while that thread sleeps makes it READY, once, at the tail. |
| `Calls.QueueMoves` | kernel/syscall/syscalls.c:158-172 | Over any run the message at place k of a mailbox is at place k - n after n receives by threads of that task, unchanged. |
| `Calls.SentIsReceived` | kernel/syscall/syscalls.c:94-176 | Round trip over any run: when the receiver has received what was pending before an accepted message, its next receive reads in its register the number and id that were sent, the length, and the sender in 16 bits, and copies the body that was sent. |
| `Calls.IrqIsReceived` | kernel/syscall/syscalls.c:274-303 | The same round trip for the message of an interrupt, which reads as number 3 from 65534. |
| `Calls.SemaphoreRuns` | kernel/task/signal.c:331-360 | A semaphore of the machine goes through any run exactly as it would alone with the ups and downs made on it, callers included, and without a failure. |
| `Calls.CreatedCounts` | kernel/task/signal.c:313-360 | `create_signal` returns the id of a semaphore with the ceiling and kind asked for, whose counter after any later run is what the ups and downs on it make of the initial value, and whose woken threads followed by its sleepers are those put to sleep, in order. |
| `Calls.BirthIs` | kernel/task/thread.c:29-90 | A new thread is SUBBMITED and last in the ready list with its entry frame, its task's priority and a slice of three times that; a new task has the level, priority and page table asked for, no mailbox and the filter 0; everything else stays. |
| `Calls.StartsAtEntry` | kernel/task/thread.c:29-90 | Whether the step that makes a thread dispatches it or another one any number of steps later, the first frame it runs with is its entry's, register by register, in its task's page table. |
| `Registers.LoadUndoesSave` | kernel/task/task_scheduler.c:78-114 | The copies of `up_thread` undo those of `down_thread` into whatever frame they are made: basic block, rbp, rsp, ss, cs, rip and rflags come back, the page table is the task's, the handler's stack that of the ending interrupt. |
| `Registers.SaveUndoesLoad` | kernel/task/task_scheduler.c:78-114 | And the other way round: nothing a thread keeps is lost by loading and saving it. |
| `Registers.SaveFrame` | kernel/task/task_scheduler.c:78-88 | The seven copies of `down_thread`, one by one, keep every field of the frame a thread owns under its own name. |
| `Registers.LoadFrame` | kernel/task/task_scheduler.c:100-111 | The eight copies of `up_thread`, one by one, set every field of the frame but the handler's own stack from the field of the same name, and pgd from the task. |
| `Machine.NewThreadKeeps` | kernel/task/thread.c:61-90 | A new thread joins the tail of the ready list, once, and every other thread stays in its place: the invariant holds again. |
| `Machine.NewTaskKeeps` | kernel/task/task_manager.c:255-277 | A new task without a mailbox keeps the invariant. |
| `Kernel.FirstState` | kernel/kernel.c:174-181 | Scheduling starts with the first task at level 0 and priority 1, its thread running and handling an empty mailbox of 8192 bytes with the filter 0, nobody ready and no semaphore; that is what `set_mailbuffer` and `start_schedule` make of the state before, and it satisfies the invariant. |
| `Kernel.LevelZeroWaits` | kernel/task/task_manager.c:165-172 | From the start of scheduling, making a level-1 task, then a level-0 task, and then waiting for a message dispatches the level-1 thread while the level-0 thread is ready. |
| `Kernel.Kernel.constructor` | kernel/kernel.c:322-327 | The records, empty lists and empty tree that `entry` builds stand for the machine before scheduling: the first task running, the empty task in no list. All of them are newly allocated. |
| `Kernel.Kernel.Init` | kernel/kernel.c:174-181 | After `set_mailbuffer` and `start_schedule` they stand for the state in which scheduling starts, with a mailbox of 8192 bytes handled by the first thread, and that state satisfies the invariant. The only new object is that mailbox's ring. |
| `Kernel.Kernel.Wake` | kernel/task/task_manager.c:165-172 | The woken record becomes READY and is linked behind the tail node of the level-0 list; records, links, rings and tree then stand for the machine after its wake-up. |
| `Kernel.Kernel.TakeHead` | kernel/task/task_manager.c:110-120 | The head node of the linked list is unlinked; it is the record of the first thread of the machine's ready list, and the list stands for the rest. |
| `Kernel.Kernel.DoSwitch` | kernel/task/task_scheduler.c:117-127 | On the linked records: registers copied out, the old thread requeued or dropped, the head of the list made current, registers copied in; the structures then stand for the machine's switch and the frame is its frame. |
| `Kernel.Kernel.AfterSyscall` | kernel/task/task_scheduler.c:130-133 | The decision read off the records and the list head is the machine's, and so is what it does. |
| `Kernel.Kernel.UpSignal` | kernel/task/signal.c:331-346 | The semaphore is found through the tree and raised there, the thread it names has a record, and the structures stand for the machine's up; the queue it dequeues from is never empty. |
| `Kernel.Kernel.DownSignal` | kernel/task/signal.c:349-360 | The semaphore found through the tree is lowered there, and the current record sleeps exactly when the machine's caller does. |
| `Kernel.Kernel.CreateSignal` | kernel/task/signal.c:313-329 | The new tree node stands for the machine's new semaphore, under the next id. |
| `Kernel.Kernel.SendMsg` | kernel/syscall/syscalls.c:94-122 | Header and body go into the receiver's ring byte by byte, which then stands for the machine's queue with the message at its end; the handler record it dereferences is always there, and is woken exactly when the machine says. |
| `Kernel.Kernel.DummySendMsg` | kernel/syscall/syscalls.c:274-303 | The same for the messages of interrupts. |
| `Kernel.Kernel.RecvMsg` | kernel/syscall/syscalls.c:158-172 | The oldest message is read out of the caller's ring: its body arrives at the start of the given memory, the rest of which stays, and its header is the machine's result. |
| `Kernel.Kernel.SetMailbuffer` | kernel/syscall/syscalls.c:197-208 | The given memory, if it is no other task's ring, becomes the caller's empty ring and the caller its handler. |
| `Kernel.Kernel.Syscall` | kernel/syscall/syscall.c:30-84 | Whatever the call, lists, rings and tree afterwards stand for the machine after the body of that event, and the result register holds its result. |
| `Kernel.Kernel.Interrupt` | kernel/syscall/syscall.c:87-101 | One call or interrupt with its scheduling decision, carried out on linked lists, byte rings and the tree, is one step of the machine. Records, rings and tree nodes are the old ones, newly allocated ones and the ring that was passed. |
| `Kernel.Kernel.Run` | kernel/syscall/syscall.c:87-101 | Any sequence of calls and interrupts, carried out on these structures, leaves them standing for the state the machine's run ends in, and hands back the machine's frames; so everything proved of the machine's runs is true of them. |
| `Kernel.Boot` | kernel/kernel.c:322-327 | The same from nothing: the structures are built, scheduling starts, and any run the callers keep to follows. |
| `ReadyList.LevelList.Enqueue` | kernel/task/task_manager.c:145-153 | On linked nodes: the list gains the thread at its tail and stays well linked. |
| `ReadyList.LevelList.Dequeue` | kernel/task/task_manager.c:110-120 | On linked nodes: the head is unlinked and returned, the rest stays in order. |
| `ProgramLoader.WrittenAt` | kernel/memory/pmm.c:160-184 | Through a page table, a byte arrives when no later byte of the copy goes to the same physical place. |
| `ProgramLoader.Loader.Pvmemcpy` | kernel/memory/pmm.c:177-184 | The loop writes each byte where the page table puts it, in order. |
| `ProgramLoader.Loader.Vmemset` | kernel/memory/pmm.c:160-166 | The same for a range filled with one byte. |
| `ProgramLoader.CoversExactly` | kernel/kmod_loader.c:30-42 | The pages allocated are those the segment lies in if and only if its address is page-aligned, since the start page is rounded up. |
| `ProgramLoader.SegmentHolds` | kernel/kmod_loader.c:30-52 | Both copies together make an aligned segment read as its file bytes followed by zeros. |
| `ProgramLoader.Loader.LoadSegment` | kernel/kmod_loader.c:30-52 | Only the segment's own pages are mapped anew, in frames that were free; the segment reads as its file bytes and then zeros if and only if its address is page-aligned or the page it begins in was mapped before; no byte of a page in use changes while an aligned one is loaded. It succeeds whenever the list of 512-page areas has n/512 + 9 + 3n entries for the n pages of the segment. |
| `ProgramLoader.HoldsExactly` | kernel/kmod_loader.c:30-52 | A segment that has been loaded reads as its file bytes and zeros if and only if its address is page-aligned or the page it begins in was mapped before: otherwise that page is not mapped. |
| `ProgramLoader.Loader.LoadProgram` | kernel/kmod_loader.c:30-52 | Nothing happens for a header that is not PT_LOAD, and that always succeeds; otherwise the segment is loaded and the extent reported is its own. |
| `ProgramLoader.LoadedMore` | kernel/kmod_loader.c:73-85 | Loading one more segment leaves those already loaded as they are. |
| `ProgramLoader.Extent` | kernel/kmod_loader.c:81-84 | Start and end are the least address and the greatest end over all segments, and are those of segments. |
| `ProgramLoader.KernelMapped` | kernel/kernel.c:248-250 | Mapping the kernel's 32 MB afterwards gives the identity there and leaves every segment above it readable. |
| `ProgramLoader.Loader.LoadKmod` | kernel/kmod_loader.c:58-96 | For aligned segments in different pages above 32 MB, every segment reads as its file bytes and zeros through the new page table; the kernel is mapped; the heap starts page-aligned, at least two and less than three pages past the end; no other address space changes. It succeeds whenever the list of 512-page areas has one entry, and those that the segments and the 32 MB map need. |

## Left out

- Ports, disks, PIC, PIT, descriptor tables, logging and assembly: effects on hardware. A system call or an interrupt is one atomic step, and that is all the model keeps of them.
- Nested interrupts (`entered_handler`): interrupt gates keep a second one out, so the flag is always clear at entry.
- `create_task` runs in a thread with interrupts on; the model takes it as one step, so a tick inside it is not modelled.
- Permission, cache and dirty bits of page-table entries, the 39-bit width of their address field, and the error text of the walker.
- Physical memory in `PageTables` and `ProgramLoader` is split into table entries and bytes; that no frame is both is proved (a page's frame is never a table), but the tables' own bytes are not in the byte array.
- PageTables.AddressSpaces.MapPage: after a failure the tables have an entry that names frame 0; what later calls do with such tables is not modelled.
- PageTables.AddressSpaces.SetMapping: beyond 2^19 pages the `int` product `i * MEMUNIT_SZ` overflows (kernel/memory/paging.c:116), for which C defines no result; the bound on the page count says that this does not happen.
- PageTables.AddressSpaces.SetMappingVV: the same bound, for the same product (kernel/memory/paging.c:128).
- PageTables.AddressSpaces.AllocVpages: the source does not look at the results of its two callees; the contract speaks of the case in which both succeed.
- Pmm: list nodes are kept as values, and their storage comes in with `HeapGrowth`. The source never frees a node it unlinks, so neither does the model.
- HeapGrowth.KernelMemory.Kmalloc: a NULL from the page allocator, which the source writes through, is a failing result; sizes near 2^64, where the rounding wraps, are not modelled.
- HeapGrowth.KernelMemory.AddFreeArea: list nodes are told apart by the address of their area, which is unique while no page is free twice.
- Heap: headers live in a map from addresses; what callers write into their blocks is not modelled, so neither is the damage of a write past the end.
- LongMode.SetupPaging: memory sizes above 4 GB, where the tables would run into device memory.
- Mail.Mailbox.SendMsg: bodies of 64 KB and more, whose length does not fit the header; source and destination lie outside the mailbox; the mailbox is a plain array and not seen through the page table.
- Machine: threads, tasks and semaphores are records in maps and the lists are sequences; `Kernel` has them as linked records, rings and a tree. The bodies of messages that are sent are values there; what is received goes into the caller's memory, which is a plain array and not seen through the page table.
- Kernel.Kernel.SendMsg: the reserved byte of the header, which the source leaves uninitialised, is 0.
- Kernel.Kernel.Interrupt: which record a number names is a map lookup, where the source follows list links or an index; the number of a new thread or task comes with the event.
- Kernel.Kernel.Run: the memory a receive passes has room for the message and is no mailbox ring, a mailbox is not put into another task's ring, and ids are those the counter hands out. The source checks none of this.
- Machine.BodyKeeps: a thread that handles a mailbox does not end, semaphores are created sanely and used by ids that exist, a new task has a fresh number and level 0 or 1. The source checks none of this.
- Machine.Step: before `start_schedule` no decision is made; runs begin when scheduling does.
- Thread stacks (`stack_bottom`), thread ids within a task, the sibling lists of threads and tasks, `lastest_msg`.
- `__get_signals` and `__is_soft_signal` read one field; `__reg_irq` fills the table from which the destination of an interrupt message comes, which the model takes with the event; `__test_and_lock` sets one byte of the caller's memory.
- `clear_mail`, which is `set_mailbuffer` on the ring the task has, with the handler kept.
- Remote calls and shared memory (kernel/syscall/sys_task.c:40-86): a pointer per task that moves on, then `set_mappingvv` or `alloc_vpages`, which are modelled.
- Fifo.CreatedSafeExactly: for the last 4095 sizes below 2^31 the `int` product of pages and page size overflows (libs/libfifo/fifo.c:52), for which C defines no result; beyond 2^31 the page count does not fit an `int`, nor the size the ceiling of a semaphore.
- ProgramLoader.Loader.LoadKmod: the headers are taken as already picked out of the file, and the file image does not lie in pages that become free frames of the program. `vpmemcpy` and `vvmemcpy` are the same loop with the table on the other side.
- The statistics of the FIFO: `used_size` is never updated by the source.
- Semaphore ids: the source's counter would wrap after 2^32 creations; the model's does not.
- `libs/libkmod`, the FAT32 readers, the boot loader's own heap, printing and string routines.
