# A verified model of Orbit OS

Orbit OS is a small 32-bit kernel. This project models the parts of it that carry state from one call to the next, and
proves what they keep over whole runs. `dafny verify dfyconfig.toml` checks everything.

| module | what it models |
|---|---|
| `Bits` | C's `\|`, `&`, `& ~` and `1 <<` on unsigned words |
| `Memory` | word-addressed memory |
| `Wrappers` | optional values |
| `Pmm` | the bitmap allocator of `memory/pmm.c`, from the boot memory map on |
| `Vmm` | what two-level page tables in memory stand for, and what runs of mappings make of them |
| `Paging` | `memory/vmm.c` and the MMIO loop of `drivers/e1000.c`, writing the tables in place |
| `Context` | trap frames, C frames, and `switch_task`, as functions on registers and memory |
| `Tasks` | `process/process.c` and `drivers/pit.c` as a state machine of events, and its invariant |
| `Machine` | the same code run imperatively, instruction by instruction and statement by statement, proved equal to it |
| `Runs` | the theorems over whole runs: the invariant, resumption, first steps |
| `Rounds` | the scheduler over whole runs: round robin, fairness, that everyone comes back |
| `Reentry` | what goes wrong when `process_schedule` is interrupted |
| `Boot` | the allocator, the page tables, the network card's window and the first two threads put together |
| `Keyboard` | the ring buffer of `drivers/keyboard.c`, its interrupt and its reader interleaved |
| `Terminal` | the 80x25 screen of `drivers/terminal.c` as a window over an unbounded tape |
| `Shell` | the line editor of `shell/shell.c` |
| `CString` | `kernel/string.c` |
| `Initrd` | `mkfs.py` and `fs/initrd.c`, and the round trip between them |
| `Cat` | the `cat` loop of `shell/shell.c` |
| `Pci` | address packing and the two scans of `drivers/pci.c` |

Code that changes state is a class whose methods are proved against specification functions; the theorems are lemmas
about those functions. What each of these functions means is stated a second time without it: in bytes, addresses,
cells or keys (`Vmm.WalkBits`, `Pmm.InitializeFrom`, `Context.TrapReachesHandler`, `Terminal.PutShows`,
`Shell.LinesSubmitted`, `Keyboard.Keys`, `Initrd.ArchiveEntry`, `Pci.RowsAre` and others).

## How the tasks are modelled

The machine has general registers, eip, eflags, segment registers, cr3 and memory. A run is any sequence of four
kinds of event: the running thread executes code of its own (any change of registers, and of memory outside other
threads' stacks and all control blocks), a timer interrupt, a call of `process_schedule`, a call of
`process_create_thread`, the last two with interrupts off. The C functions on the timer's path (`irq_handler`,
`pit_callback`, `process_schedule`) are frames of the System V Intel386 psABI, section 2.2: they save ebp, ebx, esi
and edi, keep any number of words of locals (`Layout`), and compute anything in registers and locals (`Scratch`). eip
is followed where it is stored and reloaded: at interrupts, calls and returns on this path. The stack room such a path
takes (`Room`) must fit in a thread's 4 KiB stack, and thread code is interrupted only with that much room left.
`Layout.mapped` is the set of blocks whose pages stand for themselves: the kernel's own stores to control blocks and
stacks go there. `Boot.BootKernel` establishes that from the page tables, and `Boot.AddressSpaceStands` shows that it
stays so over every run.

## Things the proofs show about the code

* The boot mapping covers 16 MiB, as the code has it; `docs/memory.md` says 8 MB. With fewer than 5 free blocks the
  boot loop maps less, skips the rest silently and still enables paging (`Paging.PageTables.Initialize` states how far
  for every number of free blocks). With 5 of them below 16 MiB the tables stay reachable after paging is on.
* Blocks at or above 16 MiB are handed out like any other and cannot be written. After boot the next block stands for
  itself if and only if a block below 16 MiB is free (`Boot.NextBlockMapped`), and none is when the modules and the
  bitmap reach that far (`Boot.HighModules`): with 64 MiB and an initrd that ends at 32 MiB the first store of
  `process_initialize` faults. With 8 free blocks below 16 MiB, 10 with a network card, the boot goes through
  (`Boot.BootKernel`).
* The inner loop of `pmm_initialize` ends if and only if the region is at most 0xFFFFF000 bytes long
  (`Pmm.InnerLoopEnds`).
* `pmm_used_blocks` is right after boot if and only if no block is reached by two regions or lies beyond
  `pmm_max_blocks` (`Pmm.CounterExact`). On a PC the hole between 640 KiB and 1 MiB is not counted in
  `mem_lower + mem_upper`, so the last region does reach beyond, and the counter is too low from boot on
  (`Pmm.HoleMiscounts`). Which blocks are handed out does not depend on it.
* A mapping's rights are cut down to the flags of whichever mapping came first in its 4 MiB slot.
* A new thread starts with interrupts off, because it leaves through `switch_task`'s `ret` and not through `iret`
  (`Runs.FreshStarts`). Until its own code turns them on, or it calls `process_schedule`, nobody else runs; fairness
  counts ticks, and no ticks are taken meanwhile.
* `process_schedule` must not be interrupted. With interrupts on after its line 95 and before line 100, timer ticks are
  harmless up to the next one that schedules, at most 50 ticks on; that one parks the caller's stack in the next
  thread's control block, and that thread can no longer be resumed (`Reentry.TicksLoseNext`, for any number of threads
  above one). The kernel's only call is made by the timer's handler, with interrupts off.
* When table blocks run out, a mapping is dropped if and only if its 4 MiB slot is not among the first f slots asked
  for, f being the blocks there were (`Vmm.RunRights`).
* Regions of the memory map need not be page-aligned for the loops to be exact. An available region exposes a block
  below the safe start exactly when its first address at or above it is less than its page offset above
  (`Pmm.ProtectsExactly`); regions that begin at a page, or end below the safe start, never do.
* Fairness needs no assumption about the tick counter: at the 32-bit wrap the counter is 0, which schedules. The quantum
  before it is 46 ticks long, all others are 50 (`Rounds.QuantumExact`, `Reentry.TicksLeftExact`).
* The allocator's null and the address of block 0 are the same; they can be told apart exactly when block 0 is in use
  (`Pmm.NullMeansFull`).
* An archive of more than 64 files is served for its first 64.
* `cat` drops, of every chunk of 255 bytes, what follows a NUL: it prints a file as it is if and only if the file holds
  no NUL.
* The two PCI scans test the multi-function bit under different conditions, and they agree if and only if no function
  that only the list visits is the first of its vendor and device. That holds when absent functions read as all ones;
  `Pci.HiddenCard` is a configuration space where it does not.

## What callers must grant

* `pmm_max_blocks` is a multiple of 32; available regions end at 4 GiB or below and are at most 0xFFFFF000 bytes long;
  strides of the memory map do not wrap (`Pmm.RegionsEnd`, `Pmm.MapOk`). For `Pmm.BootProtects`, the bitmap ends below
  4 GiB, the last module ends highest and no region exposes a block.
* Once paging is on, a block about to become a table, and the blocks that `process_initialize` and
  `process_create_thread` get, lie in pages that stand for themselves: a store to any other page does not reach the block
  (`Paging.PageTables.DirectExactly`). After boot two free blocks below 16 MiB are enough for a thread
  (`Boot.LowCreates`); for the e1000 loop it takes as many as the window still needs tables, two at most
  (`Paging.PageTables.MapMmio`).
* For the tables to stay reachable, a page that holds the directory or a table is mapped to itself only
  (`Paging.PageTables.MapPage`), and thread code does not write into those blocks (`Runs.Spared`).
* `offset + size` does not wrap in `initrd_read`; header names in an archive are terminated; the archive ends below
  4 GiB.
* `itoa` is not called on the minimum int.
* `process_schedule` and `process_create_thread` are called with interrupts off; the latter with an entry point outside
  the timer's path.
* Timer interrupts come at ring 0 with es = fs = gs = ds and the kernel's code segment; the boot stack lies in used
  blocks.

## Model

| member | source | states |
|---|---|---|
| `Pmm.SetBlock` | memory/pmm.c:11-13 | or-ing one bit into the word array adds exactly that block to the set the bitmap stands for |
| `Pmm.ClearBlock` | memory/pmm.c:15-17 | and-ing with the complement removes exactly that block |
| `Pmm.BlockAllocator.BitmapTest` | memory/pmm.c:19-21 | the masked word is non-zero if and only if the block is in the set |
| `Pmm.AllSet` | memory/pmm.c:48 | words of all ones stand for the set of all blocks |
| `Pmm.BlockAllocator.Initialize` | memory/pmm.c:23-74 | in 32-bit arithmetic, for any memory map whose regions end: both loops end; the used set is every block but those the loops reach, at or above the end of kernel, modules and bitmap; the counter went down once a turn, so it is lower than the set's size by the turns that freed nothing |
| `Pmm.InitializeFrom` | memory/pmm.c:23-74 | in the boot loader's terms, for n whole blocks of memory and page-aligned regions laid out in the map: a block is free if and only if it is one of the n, starts in an available region, and lies at or above n / 8 bytes behind the kernel's end and, with modules, behind the last one's; for regions that keep clear of each other inside memory the counter is the number of the rest |
| `Pmm.MapIsRead` | memory/pmm.c:56-71 | entries laid out one after the other, each behind its size field, are what the walk meets, in order, each once |
| `Pmm.BlockAllocator.FreeRegion` | memory/pmm.c:62-69 | the inner loop, its counter and addresses in 32 bits, ends; it frees exactly the blocks of one region from the safe start on, and counts one for each |
| `Pmm.InnerLoopEnds` | memory/pmm.c:62 | with a 32-bit counter going up in pages, the loop reaches the end of a region if and only if that is at most 0xFFFFF000 bytes long |
| `Pmm.CounterExact` | memory/pmm.c:27-68 | the counter equals the number of used blocks after boot if no block is reached by two regions or beyond the bitmap; and, for maps of fewer than 4096 entries, only if |
| `Pmm.HoleMiscounts` | memory/pmm.c:24-68 | a PC's memory map, with the hole between 640 KiB and 1 MiB, for which the counter is wrong |
| `Pmm.ProtectsExactly` | memory/pmm.c:56-73 | with the safe start inside memory, nothing that starts below it is freed if and only if no available region comes to its first safe address less than its page offset above it |
| `Pmm.CoversAligned` | memory/pmm.c:62-69 | of a region that begins at a page, the blocks freed are those that start in it, at or above the safe start |
| `Pmm.AlignedIsSafe` | memory/pmm.c:62-69 | a region that begins at a page, or ends at or below the safe start, exposes nothing |
| `Pmm.BootProtects` | memory/pmm.c:29-51 | when no region exposes a block, no block that is free after boot begins below the end of the kernel, of any module, or of the bitmap |
| `Pmm.BlockAllocator.AllocBlock` | memory/pmm.c:76-85 | takes the least free block and no other, or answers null and changes nothing; the counter follows |
| `Pmm.NullMeansFull` | memory/pmm.c:76-85 | null means that every block is used, and only that, if and only if block 0 is in use (or there are no blocks) |
| `Pmm.BlockAllocator.FreeBlock` | memory/pmm.c:87-93 | removes the block from the used set; a block that is free already changes neither bitmap nor counter |
| `Pmm.LedgerBalances` | memory/pmm.c:76-93 | over any run of allocations and of frees by holders, used is what is reserved or held, nothing is both, and every block has at most one holder |
| `Pmm.BlockAllocator.MemoryCounters` | memory/pmm.c:95-105 | total = used + free in 32-bit arithmetic, whatever the counter says; with a counter that is right nothing wraps, and used and free are the sizes of the two sets times 4096 |
| `Vmm.WalkIsRights` | memory/vmm.c:18-32 | the hardware's walk of the tables reads off a partial map from pages, each page's rights cut down to those of its slot |
| `Vmm.WalkBits` | memory/vmm.h:6-8 | in bits: the walk finds a page if and only if bit 0 is set in both entries, may write with bit 1 in both, is open to user mode with bit 2 in both, and takes the frame from the page's entry |
| `Paging.PageTables.MapPage` | memory/vmm.c:18-32 | with room for a table the partial map gains exactly this page; out of memory leaves memory unchanged; directory and tables stay distinct blocks taken since boot; with paging on they stay reachable if and only if the page holds none of them or is mapped to itself; a block is taken only for a missing table |
| `Paging.PageTables.DirectExactly` | memory/vmm.c:24-31 | an access to a block of a new table lands in that block if and only if paging is off or the block's page stands for itself |
| `Vmm.MapChangesOnePage` | memory/vmm.c:18-32 | a successful mapping changes the walk of that page and of no other; its rights are those asked for, restricted by what the slot was given first |
| `Vmm.RunRights` | memory/vmm.c:18-32 | after any sequence of calls with f blocks, successful or not, a page is mapped iff it was asked for and its slot is among the first f slots asked for; it walks to the frame of its last call, with the rights common to that call and the first one in its slot |
| `Vmm.NewTableReachable` | memory/vmm.c:22-28 | a table made in a page that stands for itself is reachable once paging is on, and so are all others still |
| `Vmm.NewTable` | memory/vmm.c:22-28 | a zeroed block nobody uses, installed as a table, adds no page, keeps every other entry, and aliases no table |
| `Paging.PageTables.Initialize` | memory/vmm.c:34-49 | with f free blocks: f = 0 changes nothing; otherwise 1 + min(4, f - 1) blocks are used, exactly that many slots are identity-mapped, all other addresses fault, and paging is on; with 5 low blocks the tables can be reached, and all but 5 of the low blocks are left |
| `Vmm.BootWalk` | memory/vmm.c:34-49 | once t tables have been made the walk of v is v, writable and open to user mode, for all v below t times 4 MiB, and faults for all others |
| `Vmm.BootEntries` | memory/vmm.c:27-44 | the words of the boot mapping: page p's entry is 4096 p + 7, and its slot's entry has flags 7 |
| `Vmm.IdentityKept` | memory/vmm.c:43-45 | mapping pages to themselves keeps every mapping the identity |
| `Paging.PageTables.MapMmio` | drivers/e1000.c:24-30 | the loop does what 256 calls in order do with the blocks there are, each page to itself, and keeps tables reachable, given a supply of reachable blocks for the tables still missing; it takes no more low blocks than tables are missing |
| `Vmm.WindowRights` | drivers/e1000.c:27-30 | afterwards every page of the window stands for itself, closed to user mode and writable unless its slot was read-only before, or is missing where no table could be made; outside the window no rights change |
| `Vmm.WindowComplete` | drivers/e1000.c:27-30 | with as many blocks as tables are missing, every page of the window is mapped |
| `Vmm.WindowBytes` | drivers/e1000.c:24-29 | in addresses: the window is the mebibyte from the page that BAR 0, without its low 4 bits, lies in, wrapping at 4 GiB |
| `Vmm.LowSupplies` | drivers/e1000.c:27-30 | free blocks below 16 MiB are such a supply while the pages there stand for themselves |
| `Boot.BootMemory` | kernel/kernel.c:82-83 | pmm_initialize, then vmm_initialize: for every number f of blocks free in between, which addresses the processor finds at themselves and which fault, how many blocks are used, that what was used stays used and holds no table, and how many low blocks are left |
| `Boot.KernelIsUsed` | memory/pmm.c:29-51 | every address below the kernel's end, block 0 included, lies in a block in use from the start |
| `Boot.BelowSafeIsMapped` | memory/vmm.c:41-45 | if a block below 16 MiB is free, every address of kernel, modules and bitmap lies below 16 MiB and stands for itself |
| `Boot.HighModules` | memory/pmm.c:29-51 | if modules and bitmap end above the last page below 16 MiB, no low block is free |
| `Boot.NextBlockMapped` | process/process.c:20-23 | after boot the next block handed out can be written if and only if a block below 16 MiB is free; otherwise it is not mapped at all |
| `Boot.MapCard` | drivers/e1000.c:17-30 | after the boot mapping, and given two low blocks, the e1000 loop leaves every mapped page standing for itself, all pages below 16 MiB mapped, every address of the mebibyte from BAR 0's page on mapped to itself, the tables reachable, and takes at most two low blocks |
| `Boot.LowCreates` | process/process.c:50-54 | two free blocks below 16 MiB are enough for process_create_thread to write what it is handed |
| `Boot.BootKernel` | kernel/kernel.c:82-123 | with 8 free blocks below 16 MiB (10 with a card) and the boot stack inside the kernel, pmm_initialize, vmm_initialize, e1000_initialize, process_initialize and process_create_thread end in a state every run theorem starts from; all pages the kernel counts on stand for themselves; directory and tables lie untouched in blocks no thread owns; both threads use them |
| `Boot.AddressSpaceStands` | process/process.c:89-101 | after any run in which thread code leaves the tables alone, cr3 is the directory made at boot and the walk of every page gives what it gave then |
| `Context.TrapRoundTrip` | kernel/interrupts.s:141-166 | the stub's frame gives back all general registers, eip, eflags and esp; the segment registers if and only if es, fs and gs held what ds held |
| `Context.TrapReachesHandler` | kernel/isr.h:6-11 | at the C handler's first instruction its argument points to a registers_t: ds, the eight words of pusha, int_no, err_code, eip, cs and eflags at their offsets, with the values of the interrupted cpu and the stub; the return address is the stub's, the segments are the kernel's, and of eflags only bit 9 is cleared |
| `Context.SwitchRoundTrip` | process/switch.s:12-38 | reloading from the saved esp gives back edi, esi, ebx, ebp, the caller's return address, and esp just above it |
| `Machine.Computer.SwitchTask` | process/switch.s:12-38 | the instructions, one by one, compute `Context.Switch` |
| `Machine.Computer.StubEnter` | kernel/interrupts.s:50-154 | interrupt delivery and the stub up to the call of its C handler, instruction by instruction, compute `Context.TrapEnter`, and hand over a registers_t for that error code and vector |
| `Machine.Computer.StubExit` | kernel/interrupts.s:125-166 | both stubs' ways out (with ebx or eax as the spare register) compute `Context.TrapExit` |
| `Machine.Computer.ProcessSchedule` | process/process.c:89-101 | the statements compute `Tasks.Schedule`, with the call of `switch_task` as the last thing done on the old stack |
| `Machine.Computer.TimerInterrupt` | drivers/pit.c:9-15 | from interrupt to the next instruction of some thread's own code: `Tasks.TimerTick`, by way of the interrupt number found in the frame; how often that schedules is `Rounds.QuantumExact` |
| `Machine.Computer.IrqHandler` | kernel/isr.c:137-145 | reads int_no through its argument, and calls pit_callback if and only if it is 32 |
| `Machine.Computer.ProcessInitialize` | process/process.c:20-41 | makes the running code the only thread of the ring; every store goes to a page that stands for itself |
| `Machine.Computer.ProcessCreateThread` | process/process.c:50-87 | the tail walk ends at the last thread from any reachable ring, wherever the current one is; the new thread is linked behind it, with the mock frame on its own stack; every store goes to a page that stands for itself |
| `Tasks.TickStays` | drivers/pit.c:9-15 | a tick that does not schedule, or finds no other thread, gives the thread back all its registers and its stack |
| `Tasks.NothingToSchedule` | process/process.c:89-92 | before process_initialize a call of process_schedule returns to its caller with callee-saved registers and flags unchanged, and writes only below the caller's stack pointer |
| `Tasks.CreateInv` | process/process.c:50-87 | creating a thread, from blocks whose pages stand for themselves, keeps the invariant: one ring in creation order, ids counting up from 1, the newcomer just before the head |
| `Tasks.CreatedProcess` | process/process.h:6-12 | the new control block by the offsets of process_t: id, esp below the mock frame, top of its stack, its creator's page directory, the queue's head; and the old tail's link |
| `Runs.BootInv` | process/process.c:20-41 | `process_initialize` establishes the invariant, when the control block's page and those of the stack stand for themselves |
| `Runs.StepInv` | process/process.c:78-101 | every event keeps it: the ring is one cycle through all threads in creation order, the current thread is in it, all others can be resumed, and all they own lies in pages that stand for themselves |
| `Runs.RunInv` | process/process.c:78-101 | so does every run |
| `Runs.KernelWrites` | process/process.c:50-101 | every word an interrupt, a process_schedule or a process_create_thread changes is some thread's stack or control block, in a page that stands for itself |
| `Runs.RunReserved` | process/process.c:50-101 | over any run, blocks in use that no thread owned are never given to one, and the kernel writes no word in them |
| `Runs.RunOneSpace` | process/process.c:73-76 | all threads of a run share the page directory of the one it began with |
| `Runs.StepTss` | process/process.c:97-98 | a switch puts the next thread's kernel stack into the TSS: the top of its stack, or for the first thread esp + 4096 as process_initialize found it; no other event changes that |
| `Runs.RunTss` | process/process.c:97-98 | over any run from then on the TSS names the kernel stack of the thread that runs |
| `Runs.RunKeeps` | process/process.c:89-101 | whatever others do, a thread that does not run keeps its stack, saved esp, page directory |
| `Runs.SwitchResumes` | process/switch.s:12-38 | after any run of other threads, switch_task returns with edi, esi, ebx, ebp, esp, return address and stack as they were at the call, on the thread's own page directory |
| `Runs.PreemptionTransparent` | kernel/interrupts.s:141-166 | a ring-0 thread interrupted anywhere and switched away from, for any run of others, resumes with every register, eip, eflags, cr3 and its stack unchanged |
| `Runs.YieldReturns` | process/process.c:89-101 | a thread that called process_schedule finds it returned as the psABI promises, its stack unchanged and interrupts off as it called |
| `Reentry.TicksLoseNext` | process/process.c:94-100 | with interrupts on between the two statements of process_schedule, the next thread can still be resumed, and the processor is back where it was, after any number of ticks if and only if none of them schedules; the first that does, at most 50 ticks on, loses it |
| `Reentry.TicksLeftExact` | drivers/pit.c:11-12 | the next tick that schedules is the one that brings the counter to a multiple of 50, or to its wrap if that comes first |
| `Runs.FreshStarts` | process/process.c:54-76 | however late it first runs, a new thread reaches its entry point with edi, esi, ebx, ebp zero, thread_exit as return address, its creator's page directory, and interrupts off |
| `Rounds.RoundRobin` | process/process.c:89-101 | with nobody created, after m schedulings the thread m places on in the ring has the processor: current_process, stack, code and cr3 are its own |
| `Rounds.OneTurnEach` | process/process.c:89-101 | any run of exactly n schedulings, with n threads, hands the processor to every control block exactly once and ends with the thread it began with |
| `Rounds.QuantumBound` | drivers/pit.c:11-14 | never more than 49 ticks pass without a scheduling, counter wrap or not |
| `Rounds.QuantumExact` | drivers/pit.c:11-14 | how often any run enters process_schedule, exactly: once a call, and once for every tick that brings the 32-bit counter to a multiple of 50; and what the counter holds then |
| `Rounds.EveryFiftieth` | drivers/pit.c:11-14 | without calls and without wrap that is (tick % 50 + ticks) / 50, rounded down |
| `Rounds.KeepsQuantum` | drivers/pit.c:11-14 | a thread that got the processor by a tick keeps it for the next 49, if it makes no call and the counter does not wrap |
| `Rounds.Fairness` | drivers/pit.c:11-14 | with n threads, within 50 n ticks every thread gets the processor, running its own code on its own stack |
| `Rounds.PreemptedIsBack` | drivers/pit.c:9-15 | a preempted thread, among n and with nobody created, is back within 50 n ticks, with all its registers, eip, eflags and stack as the timer found them |
| `Rounds.YieldsComeBack` | process/process.c:89-101 | from any reachable state with n > 1 threads and interrupts off, a thread that calls process_schedule is current again after at most n - 1 further calls |
| `Keyboard.Driver.Callback` | drivers/keyboard.c:46-80 | the handler, for each of the 256 scancodes, does what `Keyboard.Interrupt` says; what a key gives is in the next rows |
| `Keyboard.Keys` | drivers/keyboard.c:14-44 | the rows of the keyboard, spelled out without and with shift, and Enter, backspace, tab, escape, asterisk and space |
| `Keyboard.ReleasesTypeNothing` | drivers/keyboard.c:51-71 | releases, shift, control, alt and all codes behind the space bar give no character |
| `Keyboard.LetterKeys` | drivers/keyboard.c:14-44 | every letter has a key that gives the small letter, and with shift the capital |
| `Keyboard.KeysApart` | drivers/keyboard.c:14-28 | no two of the letter and digit keys give the same character |
| `Keyboard.ShiftLasts` | drivers/keyboard.c:51-58 | over any run shift is on if and only if a shift key was pressed and neither was released since (or it was on before and none was) |
| `Keyboard.FullMeans255` | drivers/keyboard.c:74-77 | the buffer refuses a character if and only if 255 are pending, and the slot the producer writes is no unread one |
| `Keyboard.ScanKeeps` | drivers/keyboard.c:72-79 | an interrupt between any two steps of the reader keeps the invariant, and accepts the character unless 255 are pending |
| `Keyboard.StepKeeps` | drivers/keyboard.c:87-100 | each single read or write of the reader keeps the invariant |
| `Keyboard.RunInOrder` | drivers/keyboard.c:72-100 | in every interleaving the characters returned are a prefix of those accepted, in order, each once, at most 255 behind |
| `Keyboard.BootInOrder` | drivers/keyboard.c:10-13 | that holds of every run from the empty buffer the kernel starts with |
| `Keyboard.Driver.HasKey` | drivers/keyboard.c:87-89 | whether a character accepted has not been returned yet |
| `Keyboard.NothingDropped` | drivers/keyboard.c:72-79 | everything typed is accepted if and only if nothing was typed while 255 were pending |
| `Keyboard.ReaderDrains` | drivers/keyboard.c:91-100 | left alone, the reader returns all that is pending, in six steps a character |
| `Keyboard.Driver.GetChar` | drivers/keyboard.c:91-100 | undisturbed, the statements do the reader's six steps and return the oldest pending character |
| `Terminal.Screen.PutChar` | drivers/terminal.c:61-94 | for every character the screen still shows the tape from the window's top, cells from the cursor on are blank, the cursor is inside 80x25, and the change of cursor and glyphs is that of `PutShows` |
| `Terminal.PutShows` | drivers/terminal.c:64-93 | on the screen: a newline goes to column 0 of the next row and, from row 24 only, moves all rows up; a backspace goes one place back, across rows, but not beyond the top left, and blanks it; a printed character fills the cursor's cell, with a new row behind column 79; no other glyph changes |
| `Terminal.PutMeans` | drivers/terminal.c:64-93 | on the tape: a newline adds 1 to 80 blanks up to a multiple of 80, a printed character itself, a backspace takes one place away unless at the window's top left; the window moves, by one row, exactly when the cursor leaves its last one |
| `Terminal.Screen.Scroll` | drivers/terminal.c:48-57 | in place, rows 1 to 24 move up and the last becomes blank |
| `Terminal.Screen.Write` | drivers/terminal.c:96-99 | any string: the fold of its characters over the tape |
| `Terminal.BackspaceUndoes` | drivers/terminal.c:64-74 | backspace undoes any printed character, across rows and after a scroll |
| `Terminal.PrintAppends` | drivers/terminal.c:85-93 | printed characters are appended to the tape as they are, wherever they wrap and scroll |
| `Shell.Editor.Key` | shell/shell.c:206-216 | a key edits the buffer and the screen alike; none touches the prompt |
| `Shell.Editor.Enter` | shell/shell.c:200-205 | Enter hands over exactly the line, and on the tape come a newline, or a cleared screen, the command's output, and a new prompt |
| `Shell.Editor.Run` | shell/shell.c:197-217 | over any keys, the commands submitted and the line in the buffer are a function of the keys alone |
| `Shell.LinesSubmitted` | shell/shell.c:200-216 | whatever lines of at most 255 characters from 32 to 126 are typed, each with an Enter, are the commands submitted |
| `Shell.TakenBack` | shell/shell.c:206-215 | a character typed where there is room and then a backspace make no difference to anything after |
| `Shell.Ignored` | shell/shell.c:206-215 | nor do a backspace on an empty line, a character that cannot be printed, or a 256th one |
| `Shell.PromptSpells` | shell/shell.c:20 | the prompt's bytes are those of "Orbit> " |
| `Shell.Editor.OnScreen` | shell/shell.c:18-22 | while a line is edited the cells from the prompt to the cursor spell the prompt followed by the buffer |
| `CString.StrCmp` | kernel/string.c:28-34 | computes `CString.Compare` of the two strings |
| `CString.CompareDecides` | kernel/string.c:28-34 | its sign decides the lexicographic order of unsigned bytes: zero exactly on equality, antisymmetric |
| `CString.CompareTransitive` | kernel/string.c:28-34 | and it is transitive |
| `CString.CompareIsDifference` | kernel/string.c:28-34 | the answer is the difference of the unsigned bytes at the first place where the strings differ or one ends |
| `CString.StrNCmp` | kernel/string.c:36-45 | strncmp is strcmp of the two strings cut to n, and its counter never goes below 0 |
| `CString.Reverse` | kernel/string.c:47-57 | in place, the first length characters are reversed and the rest kept |
| `CString.Itoa` | kernel/string.c:59-87 | writes the terminated text of the value |
| `CString.TextParses` | kernel/string.c:59-87 | the text parses back to the value, its digits are valid for the base, and it has no leading zero |
| `CString.DigitIs` | kernel/string.c:76-77 | the digits are 0 to 9 and then small letters |
| `CString.DecimalFits` | kernel/string.c:59-87 | in base 10 text and terminator take at most 12 bytes |
| `CString.StrCpy` | kernel/string.c:89-96 | copies the string and its terminator, and nothing behind it changes |
| `Initrd.MkFs` | mkfs.py:23-38 | writes magic, count, one header a file with its running offset, then the data |
| `Initrd.ArchiveTop` | mkfs.py:23-28 | the archive begins with ORBT and the number of files, least significant byte first, and its data begin at 8 + 72 n |
| `Initrd.ArchiveEntry` | mkfs.py:30-38 | byte by byte: file i's header lies at 8 + 72 i, with at most 63 bytes of its name filled up with NULs to 64, its offset and its length; at that offset lie its bytes, and the next file's behind them |
| `Initrd.RangesTile` | mkfs.py:27-38 | every byte behind the headers belongs to the data range of exactly one file |
| `Initrd.Disk.Initialize` | fs/initrd.c:55-83 | reads at most 64 headers; without the magic number nothing is mounted |
| `Initrd.RoundTrip` | fs/initrd.c:72-82 | node i of an archive made by mkfs has file i's name cut to 63 bytes, its length, and a data range holding its bytes |
| `Initrd.MountedIsReadable` | fs/initrd.c:64-83 | every archive mkfs writes can be parsed, with any number of files |
| `Initrd.ServedNames` | fs/initrd.c:74-82 | after mounting, the names finddir compares with are the files' names cut to 63 bytes, in the archive's order |
| `Initrd.Disk.Read` | fs/initrd.c:23-32 | delivers what lies between offset and the end, at most size bytes, and leaves the rest of the buffer alone |
| `Initrd.Disk.FindDir` | fs/initrd.c:45-53 | returns the first node with exactly that name, or none |
| `Initrd.FoundAndRead` | fs/initrd.c:23-53 | with names distinct after cutting, each of the first 64 files is found by its cut name, and reading it whole gives its bytes |
| `Initrd.ReadNamed` | kernel/kernel.c:105-110 | with an archive mounted, looking a file up by its stored name and reading it whole puts its bytes into the caller's buffer |
| `Initrd.Fetch` | kernel/kernel.c:89-110 | from mkfs through mounting, look-up and read: the caller's buffer holds the file |
| `Initrd.ListFiles` | shell/shell.c:64-78 | the ls loop lists exactly the nodes' names in order, ends, and finds every one of them |
| `Cat.CatFile` | shell/shell.c:90-102 | ends for every file, never overruns its buffer, and sends `Cat.Printed` of the file and a newline to the screen |
| `Cat.PrintedIsFile` | shell/shell.c:90-102 | what is printed is the file if and only if the file holds no NUL |
| `Cat.PrintedIsReached` | shell/shell.c:90-102 | byte by byte: what is printed is every byte that has no NUL at it or before it in its chunk of 255 |
| `Pci.AddressIsSum` | drivers/pci.c:8-22 | the fields of a configuration address do not overlap: it is the sum of its parts, so distinct functions never share one |
| `Pci.Enumerate` | drivers/pci.c:37-73 | the rows are those of the listed functions, each once, in bus, slot, function order, with their ids and classes |
| `Pci.RowsAre` | drivers/pci.c:37-73 | in bytes of configuration space: a function has a row if and only if its vendor (bytes 0 and 1) is not 0xFFFF and it is function 0, or function 0 is absent or has bit 7 set in byte 14; the rows show vendor, device (bytes 2 and 3), class (byte 11) and subclass (byte 10), in bus, slot, function order |
| `Pci.FindDevice` | drivers/pci.c:96-122 | returns the first function it compares that has the vendor and device, or fails when there is none |
| `Pci.FoundIs` | drivers/pci.c:96-122 | in bytes: the first function, in bus, slot, function order, that has the ids and is function 0 or has bit 7 set in byte 14 of its function 0; none if there is none |
| `Pci.ScansAgree` | drivers/pci.c:37-122 | the two scans agree on every real vendor and device if and only if nothing is hidden from the search |
| `Pci.OnesAgree` | drivers/pci.c:37-122 | they agree whenever absent functions read as all ones |
| `Pci.FindIsFirstRow` | drivers/pci.c:96-122 | then the search succeeds exactly when a row shows the vendor and device, and returns the first such row |
| `Pci.HiddenCard` | drivers/pci.c:37-122 | a configuration space where a card is listed and not found |

## Left out

- Memory is a map of aligned 32-bit words, unwritten words reading as 0. The task model reads and writes it without a walk; `KernelWrites` and `AddressSpaceStands` say that the walk would change nothing.
- The integers held in registers and control blocks are not wrapped to 32 bits, except next_pid and the tick; stacks and blocks lie below 4 GiB.
- Paging.PageTables: the TLB, fault delivery and writes to read-only pages are not modelled; the walk is.
- Pmm.BlockAllocator.Initialize: the bitmap is an array of its own, not memory at the end of the kernel; `BootProtects` says its place is never handed out and `BelowSafeIsMapped` that it stands for itself. The bits that the loop clears for blocks beyond `pmm_max_blocks` are memory behind the bitmap, which is not modelled; the counter is.
- Pmm.CounterExact: the second half is for maps of fewer than 4096 entries; a longer map could take the counter round all 32 bits.
- User mode: `enter_user_mode`, privilege changes and the TSS beyond the value stored in it; resumption is claimed for ring-0 threads.
- Segment registers beyond es = fs = gs = ds (`Context.TrapRoundTrip` says exactly what is lost otherwise).
- The bodies of `irq_handler` and of the compiled functions' prologues: any body that keeps to the psABI is allowed, as described above; other interrupts than the timer do not switch tasks and are part of a thread's own steps.
- `isr_handler`, port I/O, PIC and PIT programming, serial output, VGA cursor ports, `hlt`.
- Keyboard.Driver.GetChar: the blocking loop is part of the state machine `Keyboard.Next`, not of the method. The two reads in the loop's test happen head first; only the reader writes the tail, so their order does not matter.
- Colour attributes: the refinement compares glyphs.
- Shell.Editor.Enter: execute_command is any clearing of the screen and any output (`Response`); only `cat` is modelled as code.
- Initrd.Disk: node names are values, not 128-byte arrays; the pointer returned by finddir is an index; the directory node itself and `fs/fs.c`, a one-line dispatch, are not modelled.
- Initrd.MkFs: names are given as byte strings; reading the directory is not modelled.
- CString.Itoa: the minimum int, where the negation overflows in C; negative values in bases other than 10.
- `memset` appears as the loops `Paging.PageTables.ClearBlock` and `Pmm.BlockAllocator.FillOnes`, a word at a time.
- Pci.Enumerate: rows are values; the hexadecimal printing is not modelled. The search for vendor 0xFFFF is not compared with the list.
- `drivers/rtc.c`, `kernel/gdt.c`, `kernel/idt.c`, `kernel/syscall.c`, the rest of `kernel/kernel.c`, the dashboard and the test scripts: plumbing, or easy members.
