# A verified model of the kernel's core data structures and protocols

The repository is a small AArch64 kernel and hypervisor.  This project models the parts of it whose correctness is
not obvious from reading them, and proves what they are for:

- **Red-black trees** (`lib/rbtree.c`).  All trees share one static node pool, modelled column by column as arrays
  indexed by pool slot (`RbNodes.NodePool`); a node pointer is a slot number, `NULL` is -1, and the `key` and `val`
  fields share one column.  The methods update these arrays in place, as the source does.  A ghost value
  (`RbShape.Tree`) names the node in every position, and `TreeAt` ties it to every field of every node, so "parent and
  child links are inverse" is part of every statement.  The unusual fix-ups, which swap entries between nodes and
  push red nodes upward, and the doomed leaf that stays linked while a deletion is repaired, are kept as they are.
- **The pool and the queue of freed nodes** (`lib/rbtree.c`, `lib/queue.c`): `Queue` is the sentinel queue on linked
  slots, `RbForest` all trees, the pool and the queue together, `RbRuns` any sequence of operations on them, from
  `rbtree_init` on.
- **The spin lock** (`spinlock/spinlock.S`), one instruction at a time, with exclusive monitors.
- **The scheduler** (`schedule/task.c` with the trap path of `exception/exception.c`): all cores interleave single
  accesses to shared memory; the spin lock enters as the atomic lock that `Spinlock` proves it to be, and
  `SchedulerLock` runs the same scheduler on the lock's own instructions.  `SchedulerBoot` has the scheduler's code as
  methods that update the task list in place, and connects the two.
- **The UART rings** (`io/uart_pl011.c`): the handler may interrupt the threads between any two statements.
- **Stage-2 translation** (`mem/ept.c`, `main_hyper.c`): the nested loops that fill the tables against the hardware's
  walk.
- **Formatting and parsing numbers** (`io/printf.c`, `mem/string.c`), **list-register injection** (`hyper/vgic.c`,
  `exception/gic/gic.c`) and the **packed bitmap** (`mem/bitmap.c`).

## Where the code does something else than one might expect

Each of these is a theorem about the code as it is.

- Deleting a node that has a left child copies the predecessor's key but not its value (`lib/rbtree.c:236`).  Keys are
  deleted correctly; a (key, value) entry is removed exactly when the found node has no left child or the two entries
  share the key or the value (`RbSearch.DeletedEntries`, with the example `RbSearch.ValueLost`).
- In every run, a task first executes with the context that `create_task` prepared for it if and only if its number
  is not that of a core, or that core's boot code happens to have these very registers
  (`SchedulerRuns.StartsAsPrepared`).  What was prepared for a task numbered like a core is never used at all: runs
  with any other context in its place give all cores the same registers throughout (`SchedulerRuns.NeverUsed`).
- `print_int` puts zero padding before the sign, so a zero-padded number reads back exactly when it is not negative or
  the field is no wider than its text (`Numbers.ZeroPadded`; minus five in a field of four reads as 0,
  `Numbers.ZeroPaddedFive`).
- `bitmap_find_contiguous_free` with a count beyond the size wraps its loop bound around: it returns a run that leaves
  the map, or all ones when the run's own indices wrap around as well and meet a set bit
  (`Bitmap.Bitmap.FindContiguousFree`, with an example of each in `Bitmap.Oversized`).
- In a map without bits the two searches for one clear bit disagree, and only there (`Bitmap.Bitmap.FindOne`).
- Interrupt ids of 512 and more do not fit the nine bits that the list-register packing keeps (`Vgic.VidIntact`; 512
  arrives as 0, `Vgic.VidLost`).
- Accumulating in `atol` overflows exactly when the number read is beyond the greatest `long` in magnitude, which
  includes the most negative `long` (`Numbers.Atol`).

## Assumptions

- `comp` is a total preorder; `comp(a, b) > 0` means that `b` sorts after `a`.
- Deletion is called with a key that is present, and at most 16 trees are allocated, as the source requires.
- `tv_abort`, which `rbtree_node_alloc` calls when the pool is exhausted (`lib/rbtree.c:44`), never returns; it is not
  defined in the repository and not part of this model.  If it did return, `rbtree_insert` would store through a null
  pointer (`lib/rbtree.c:143`).  `RbForest.Forest.Insert` returns `false` at that point.
- The scheduler starts when every core has finished `schedule_init_local`, with a constant number of tasks that is at
  least the number of cores, and reschedules from the timer interrupt.
- A thread that calls `uart_advance_putc` or `uart_advance_getc` runs on the core that takes the UART's interrupt, and
  each ring has one producer and one consumer.

## Model

| member | source | states |
|---|---|---|
| RbMoves.TurnRR | lib/rbtree.c:99-120 | the third case of `rotate` relinks the nodes, with all parent links, into the shape `TurnedRR`, and touches no node outside the subtree |
| RbMoves.TurnRL | lib/rbtree.c:121-137 | the same for the fourth case; also the first case of a deletion's repair on the left |
| RbMoves.TurnLR | lib/rbtree.c:81-97 | the same for the second case; also the first case of a deletion's repair on the right |
| RbMoves.TurnLL | lib/rbtree.c:69-80 | the same for the first case, where the parent node itself rises |
| RbMoves.TurnSpinL | lib/rbtree.c:270-287 | the same for the sibling's far child in a deletion on the left; with the red sibling of lines 294-308 |
| RbMoves.TurnSpinR | lib/rbtree.c:330-347 | the same on the right; with the red sibling of lines 354-368 |
| RbBalance.EntriesLR | lib/rbtree.c:81-97 | swapping entries between three nodes while moving their subtrees keeps the entries in order |
| RbBalance.EntriesRR | lib/rbtree.c:99-120 | cycling entries through three nodes while moving their subtrees keeps the entries in order |
| RbInsert.RepairedFits | lib/rbtree.c:176-193 | one round of the insertion repair turns a red-red clash into a balanced subtree of the height its position wants, whether it rotates (two of four shapes leaving a red node) or repaints the uncle |
| RbInsert.RepairedKeeps | lib/rbtree.c:176-193 | the round moves no entry to another place in the order and keeps the set of nodes |
| RbRounds.Rotate | lib/rbtree.c:63-139 | `rotate` chooses among its four cases by the links alone and produces the intended shape, fixing the great-grandparent's child link |
| RbRounds.Rise | lib/rbtree.c:176-193 | the body of the repair loop: the clash, if any, moves two levels up; contents and node set unchanged |
| RbTree.RbTree.Repair | lib/rbtree.c:176-199 | the repair loop terminates with a red-black tree and the right head, the entries in the same order |
| RbOrder.PlacedKeeps | lib/rbtree.c:157-175 | the specification of insertion keeps the entries sorted and adds exactly one entry to their multiset |
| RbTree.RbTree.Descend | lib/rbtree.c:157-175 | the descent ends at a node with a free child link such that all entries before that place sort strictly before the key and none after it does |
| RbTree.RbTree.InsertNode | lib/rbtree.c:141-201 | insertion leaves a valid red-black search tree whose entries are the old ones with the new one placed before its equals, uses exactly the one new node, and changes nothing outside the tree |
| RbSearch.SearchComplete | lib/rbtree.c:203-216 | in a sorted tree the search finds an entry with an equal key if and only if there is one |
| RbSearch.HeightBound | lib/rbtree.c:203-216 | 2^(h/2) <= n + 1 for a red-black tree of height h with n entries |
| RbTree.RbTree.Search | lib/rbtree.c:203-216 | the loop returns the node of the specified entry, or null, after at most h comparisons |
| RbDelete.NearFits | lib/rbtree.c:252-269 | a deficient position whose black sibling has a red near child ends settled, without moving an entry |
| RbDelete.FarFits | lib/rbtree.c:270-287 | the same with a red far child |
| RbDelete.FadedFits | lib/rbtree.c:288-292 | with a black sibling and no red child the deficiency moves up, or ends at a red node, exactly as `flag` says |
| RbDelete.LoweredFits | lib/rbtree.c:294-308 | with a red sibling the position moves down below a red node and is still deficient |
| RbErase.UrgencyFalls | lib/rbtree.c:247-370 | a measure, black ancestors and the parent's colour, falls in every round that leaves the position deficient |
| RbErase.EraseRound | lib/rbtree.c:247-370 | one round of the deletion repair on the linked nodes, all ten branches: settled or still deficient with a smaller measure, same entries, nothing else touched |
| RbTree.RbTree.EraseLoop | lib/rbtree.c:245-370 | the repair loop terminates with the tree red-black, the doomed leaf still linked |
| RbUnlink.LeafGone | lib/rbtree.c:54-58 | taking the doomed leaf out leaves a tree with the same entries and one node fewer |
| RbUnlink.ChooseRight | lib/rbtree.c:227-231 | a found node without a left child takes over its red right leaf's entry |
| RbUnlink.ChoosePred | lib/rbtree.c:232-244 | a found node with a left child takes over the predecessor's key but keeps its own value; the node to remove is the predecessor's or its red left leaf |
| RbUnlink.FindMax | lib/rbtree.c:233-235 | the loop reaches the last node of the left subtree |
| RbTree.RbTree.DeleteNode | lib/rbtree.c:218-372 | deletion terminates and leaves a valid red-black search tree with the specified entries and exactly one node fewer, changing nothing outside the tree |
| RbSearch.DeletedKeys | lib/rbtree.c:218-244 | the key multiset loses exactly the found key |
| RbSearch.DeletedSorted | lib/rbtree.c:218-244 | the remaining entries are sorted |
| RbSearch.DeletedEntries | lib/rbtree.c:232-244 | exactly one (key, value) entry with an equal key goes, if and only if the found node has no left child or the entry before it has the same key or value |
| RbSearch.DeletedVals | lib/rbtree.c:232-244 | the values lose the predecessor's one instead of the found one when the found node has a left child |
| RbSearch.TwoEntries | lib/rbtree.c:203-216 | a two-node red-black tree in which the search finds a node with a left child |
| RbSearch.ValueLost | lib/rbtree.c:236 | deleting from that tree leaves the remaining key with the deleted value |
| Queue.LinkHeap.Remove | lib/queue.c:7-12 | the exact effect of unlinking on all links, also for a node linked to itself |
| Queue.LinkHeap.Insert | lib/queue.c:14-23 | the exact effect of linking in after a node, also after itself; nothing happens for null arguments |
| Queue.LinkHeap.InsertPrev | lib/queue.c:25-34 | the same before a node; it differs from linking in between the neighbours only when the node is its own new neighbour |
| Queue.InsertedHolds | lib/queue.c:14-34 | linking between neighbours inserts into the represented sequence at that place and touches no other node |
| Queue.RemovedHolds | lib/queue.c:7-12 | unlinking removes that one place from the represented sequence |
| Queue.NoCycle | lib/queue.c:73-84 | mutual links behind a node without predecessor never repeat a node |
| Queue.HoldsOne | lib/queue.c:73-84 | the links determine the sequence |
| Queue.KeepQueue | lib/queue.c:7-47 | changes to other nodes leave a queue as it was |
| Queue.LinkHeap.Init | lib/queue.c:36-41 | an initialised queue is empty |
| Queue.LinkHeap.Enque | lib/queue.c:43-47 | enqueueing appends |
| Queue.LinkHeap.IsEmpty | lib/queue.c:49-51 | true exactly for the empty sequence |
| Queue.LinkHeap.Pop | lib/queue.c:62-71 | removes and returns the first node, or null |
| Queue.LinkHeap.Check | lib/queue.c:73-84 | terminates on arbitrary links and returns true exactly when they form a queue from head to tail |
| Queue.LinkHeap.Find | lib/queue.c:97-104 | true exactly for the nodes of the sequence |
| RbForest.Conservation | lib/rbtree.c:41-61 | live nodes, freed nodes and fresh slots always make up the pool |
| RbForest.EntriesLive | lib/rbtree.c:17-25 | the slots in trees are as many as the entries of all trees |
| RbForest.Forest.AllocNode | lib/rbtree.c:41-52 | the first freed node if there is one, else the next fresh slot, else null |
| RbForest.Forest.FreeNode | lib/rbtree.c:59-60 | a node that left its tree goes on the free queue, once |
| RbForest.Forest.AllocTree | lib/rbtree.c:34-39 | a new empty tree beside the others, which stay as they are |
| RbForest.Forest.Insert | lib/rbtree.c:141-201 | with every tree, pool slot and queue link accounted for: comes to the abort of line 44 exactly when all pool nodes hold entries, and otherwise changes the entries of its own tree only |
| RbForest.Forest.Delete | lib/rbtree.c:218-372 | likewise; the freed node is on the queue once and in no tree |
| RbRuns.CountDeleted | lib/rbtree.c:218-244 | a deletion lowers the number of entries with keys equal to the found one by exactly one, and no other count |
| RbRuns.CountPlaced | lib/rbtree.c:157-175 | an insertion raises it by exactly one |
| RbRuns.DelStep | lib/rbtree.c:203-244 | searching for a key and deleting it if found does to a tree what removing an equal key does to an unordered bag |
| RbRuns.PutStep | lib/rbtree.c:41-52 | inserting does what adding to a bag does, and fails exactly when all bags together hold as many entries as the pool has nodes |
| RbRuns.GetStep | lib/rbtree.c:203-216 | the search finds a key if and only if the bag has an equal one |
| RbRuns.Run | lib/rbtree.c:141-372 | over any sequence of insertions, searches and deletions on any trees, the library answers (room for the entry, key found) as unordered bags of bounded total size do, and has as many entries with any key as they have |
| RbRuns.FromStart | lib/rbtree.c:27-39 | the same from `rbtree_init` and the allocation of any 16 or fewer trees on, against bags that start empty |
| Spinlock.StepInv | spinlock/spinlock.S:13-43 | every instruction of every core keeps the lock's invariant, with spurious store failures and lost monitors |
| Spinlock.MutualExclusion | spinlock/spinlock.S:13-43 | over all interleavings at most one core owns the lock, and the word is 1 exactly when one does |
| Spinlock.Refines | spinlock/spinlock.S:13-43 | every instruction is a step of an atomic lock: taken only when free, freed only by its holder |
| Spinlock.Undisturbed | spinlock/spinlock.S:13-20 | a core that meets a free lock undisturbed holds it after four instructions |
| SchedulerInv.StepInv | schedule/task.c:104-204 | every step of every core keeps the invariant |
| SchedulerInv.SomeWaits | schedule/task.c:117-132 | with more tasks than cores the cyclic scan meets a task that is on no core |
| SchedulerRuns.RunningExactly | schedule/task.c:106-133 | over all interleavings no task is on two cores, and outside the lock the RUNNING tasks are exactly those on cores |
| SchedulerRuns.ScanFinds | schedule/task.c:117-148 | the scan always ends at a waiting task that is on no core; it never falls through, and what is restored is the new current task |
| SchedulerRuns.StepVirtual | schedule/task.c:192-204 | each step changes the registers of the stepping core's task only, in user code or by its system call's result |
| SchedulerRuns.RunVirtual | exception/exception.c:70-83 | over all runs the machine refines one private register set per task |
| SchedulerRuns.VirtualExists | schedule/task.c:192-204 | every reachable state determines such private registers |
| SchedulerRuns.Closer | schedule/task.c:117-131 | a switch brings a core closer, cyclically, to every task that is on no core |
| SchedulerRuns.BoundedWaiting | schedule/task.c:157-170 | a core takes at most 20 * (task_count - 1) ticks while a given task stays off all cores |
| SchedulerRuns.FirstRun | schedule/task.c:24-42 | over all runs: a task first executes with its prepared context, or, if it is numbered like a core, with the registers of that core's boot code |
| SchedulerRuns.StartsAsPrepared | schedule/task.c:80-88 | over all runs: a task first executes with its prepared context if and only if its number is not a core's, or that core's boot registers are the prepared ones |
| SchedulerRuns.KeepsContext | schedule/task.c:192-204 | over all runs in which a task stays off all cores its saved context stays as it is |
| SchedulerRuns.NeverUsed | schedule/task.c:80-88 | over all runs: with any other context prepared for a task numbered like a core the run is still possible and gives every core the same registers |
| SchedulerRuns.NoOtherRuns | schedule/task.c:80-88 | and no other run becomes possible |
| SchedulerLock.ActStep | spinlock/spinlock.S:13-43 | with the lock's own instructions in place of the atomic lock, every instruction and every access of the scheduler is a step of the scheduler with the atomic lock, or none, and keeps the joint invariant |
| SchedulerLock.Projects | schedule/task.c:104-148 | every run of the scheduler on the real lock is, for the scheduler, a run on the atomic one |
| SchedulerLock.SafeOnRealLock | schedule/task.c:116-133 | over all interleavings of lock instructions and scheduler accesses: no task is on two cores, at most one core is in the locked section, and while the lock word is 0 the RUNNING tasks are exactly those on cores |
| SchedulerLock.HoldsBriefly | spinlock/spinlock.S:13-43 | over all runs on the real lock: from the store that takes the lock to the one that frees it a core executes at most task_count + 5 instructions and accesses, whatever the others do |
| SchedulerBoot.Kernel.CreateTask | schedule/task.c:24-42 | appends a waiting task with a full counter, or fails with 64 tasks |
| SchedulerBoot.Kernel.InitLocal | schedule/task.c:80-88 | core `c` takes task `c`, which runs from then on |
| SchedulerBoot.Kernel.Start | main.c:86-103 | creating the tasks and initialising every core leads to the state in which the runs above begin |
| SchedulerBoot.Kernel.Schedule | schedule/task.c:104-148 | `_schedule` in place: the first task behind the current one, cyclically, that does not run becomes the core's, and its context the frame |
| SchedulerBoot.Kernel.TimerInterrupt | exception/exception.c:70-83 | trap, save, tick, reschedule and return in place |
| SchedulerBoot.Undisturbed | schedule/task.c:104-170 | from every reachable state with the lock free, the interleaving machine can run one core alone through exactly what that code computes |
| Uart.Full | io/uart_pl011.c:65-66 | a ring looks full exactly with 1023 bytes queued and empty exactly with none |
| Uart.Stored | io/uart_pl011.c:70-71 | a stored byte is invisible until the write index moves, and then queued last |
| Uart.StepInv | io/uart_pl011.c:52-108 | every statement of putc, getc and the handler keeps the invariant, including the two-access update of the interrupt mask |
| Uart.Prefixes | io/uart_pl011.c:52-108 | over all interleavings: sent is a prefix of put, got of accepted, only what is queued is missing, and a non-empty transmit ring has its interrupt enabled or about to be |
| Uart.DropsWhenFull | io/uart_pl011.c:83-89 | a received byte is dropped only with 1023 bytes queued |
| Uart.Drains | io/uart_pl011.c:97-101 | a ready device gets every queued byte from one run of the handler's loop |
| Stage2.PackUnpack | mem/ept.c:96-119 | the descriptor word decodes to the fields that were set |
| Stage2.WalkReaches | mem/ept.c:156-161 | the hardware's three-level walk ends at the very word that `get_ept_entry` addresses by page number |
| Stage2.IdentityMapped | mem/ept.c:91-140 | every address below 4 GiB maps to itself with RAM or device attributes |
| Stage2.Ept.Init | mem/ept.c:44-154 | the nested loops build exactly these tables |
| Stage2.Ept.MmioMap | main_hyper.c:111-131 | sixteen consecutive pages lose read and write, all other words stay |
| Stage2.Ept.Setup | main_hyper.c:143-162 | the tables when the guest starts |
| Stage2.GuardedMapped | main_hyper.c:148-162 | every address is still mapped to itself, and exactly the revoked pages are neither readable nor writable |
| Stage2.RevokedPages | main_hyper.c:111-162 | these are 33 pages |
| Numbers.Atol | mem/string.c:144-177 | the parsing loop computes the specified value, and some step of it overflows a `long` exactly when that value's magnitude exceeds the greatest `long` |
| Numbers.RoundTrip | io/printf.c:45-111 | for every number and every space-padded width of either sign, `atol` reads back what `print_int` writes |
| Numbers.ZeroPadded | io/printf.c:50-58 | with zero padding this holds if and only if the number is not negative or the field is no wider than its text |
| Numbers.ZeroPaddedFive | io/printf.c:50-58 | minus five, zero-padded to four places, reads as 0 |
| Printf.PStream.AddChar | io/printf.c:35-43 | the buffer always holds the longest prefix of the text that fits |
| Printf.PStream.PrintStr | io/printf.c:45-73 | pads on the left or, for negative widths, with spaces on the right |
| Printf.PStream.PrintInt | io/printf.c:75-111 | the digits, generated backwards into a 26-byte buffer that they never overflow and reversed in place, are the number's; the negation overflows exactly for the most negative `long` |
| Printf.PStream.PrintUnsigned | io/printf.c:113-156 | the same for unsigned numbers with the alternate form's prefix |
| Printf.Vsnprintf | io/printf.c:174-287 | terminates, writes within size, stores the longest prefix of the untruncated output that leaves room for the NUL, and returns the untruncated length, unless a `%ld` conversion negates the most negative `long`; it does so exactly when `PlainSafe` says |
| Printf.LiteralPrefix | io/printf.c:189-193 | text before the first directive is copied as it stands |
| Printf.NoDirectives | io/printf.c:189-193 | a format without directives is its own output |
| Printf.FormatThenParse | io/printf.c:210-244 | formatting any `long` without a width or with one of either sign, and parsing the output, gives the number |
| Printf.FormatLong | io/printf.c:174-287 | the text that `vsnprintf` leaves in the buffer for it parses to the number whenever the size exceeds the length and the number is not the most negative one |
| Vgic.MakeDecodes | exception/gic/gic.c:168-173 | the packed word decodes, by the layout of GICH_LR, to a pending hardware interrupt with these ids and priority |
| Vgic.VidIntact | exception/gic/gic.c:168-173 | the virtual id survives if and only if it is below 512 |
| Vgic.VidLost | exception/gic/gic.c:168-173 | interrupt 512 arrives as interrupt 0 |
| Vgic.DropsOneMax | hyper/vgic.c:300-317 | with no register free exactly one entry is dropped, and its priority field is the maximum of all old entries and the new one |
| Vgic.FreeLosesNone | hyper/vgic.c:300-306 | with a free register nothing is lost |
| Vgic.Inject | hyper/vgic.c:300-317 | the loop performs that pass in place up to the first free register |
| Vgic.InjectVector | hyper/vgic.c:283-317 | an entry is dropped exactly when no register is free |
| Bitmap.OneBit | mem/bitmap.c:18-28 | setting and clearing a bit of a byte leaves the others |
| Bitmap.Bitmap.Test | mem/bitmap.c:30-35 | membership in the represented set; past the end everything is clear |
| Bitmap.Bitmap.Set | mem/bitmap.c:18-22 | adds one index, or nothing past the end |
| Bitmap.Bitmap.Clear | mem/bitmap.c:24-28 | removes one index |
| Bitmap.Bitmap.FindFirstFree | mem/bitmap.c:37-44 | the least clear index, or all ones when there is none |
| Bitmap.Bitmap.FindContiguousFree | mem/bitmap.c:46-59 | for counts up to the size the least start of a run of clear bits inside the map, or all ones when there is none; beyond the size, with bound and indices wrapping around as `size_t`, the least start of a clear run, which leaves the map, or all ones when there is none up to the bound |
| Bitmap.Bitmap.FindOne | mem/bitmap.c:37-59 | the two searches agree for one bit if and only if the map has any bits |
| Bitmap.Oversized | mem/bitmap.c:46-59 | 9 clear bits are found at 0 in a clear map of 8; with bits 0 and 7 set the greatest count finds none |

## Left out

- Node fields are updated in the source's blocks (one rotation, one relinking) rather than strictly in its statement order: independent field writes are regrouped, for example colours before links and `key` together with `val`.
- The left and right branches of the deletion repair share one method where they mirror each other, as do the two uncle branches of the insertion repair.
- The spin lock, the interleaved scheduler and the UART are step machines on values, since their point is what other cores and interrupts do between two accesses; only the scheduler's code is also given as methods that update in place.
- Pool sizes and the tree pool's array of 16 `rbtree_t`: the pool size is a parameter, the trees are objects in a sequence.
- `queue_list_print`, which only reads, and `lib/list.c`, which repeats the queue.
- `schedule()`, which zeroes a counter without resetting it, and `switch_context`: the cooperative path is not used by the timer.
- Memory ordering: instructions and statements take effect in order, and barriers are not modelled.
- Fairness: the spin lock may starve a core, and the bounds on waiting count timer ticks that are taken.
- System calls change nothing but the returned register; interrupts other than the timer's return at once.
- Strings are sequences of characters that end where the C string has its NUL.
- Device behaviour: flags, received bytes and raised interrupts are arbitrary inputs.
- `|=` of an aligned address into a descriptor is the sum with its packed fields, which `Stage2.OrIsSum` justifies for disjoint bits.
- Cache and TLB maintenance, `gva_to_ipa` and the trap handlers of `mem/ept.c`.
- Numbers.Atol: the value that C leaves undefined once the accumulator has overflowed; it returns the unbounded one.
- Bitmap.Bitmap.FindContiguousFree: a count one above the size makes the loop bound all ones, so that the loop ends only at a clear run; a map of 2^63 bits or more without one, where the call never returns, is excluded.
- Printf.PStream.PrintInt: for the most negative `long`, whose negation C leaves undefined and whose remainders would index outside the digit table, it writes the digits of the unbounded negation and reports the overflow.
- Printf.Vsnprintf: promises nothing after such an overflow; an argument that is missing or of the wrong kind, undefined in C, reads as zero or empty; the count of characters is unbounded.
- The remaining branches of `hyper/vgic.c` and `exception/gic/gic.c`, which read and write device registers.
- `memmove`, `strstr` and the other functions of `mem/string.c`, boot code, guest images and drivers without state.
