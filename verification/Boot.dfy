/** The kernel's boot, put together: the allocator from the boot memory map, the page tables over it, and the first
  * thread of the run queue. */
module Boot {
  import opened Pmm
  import opened Vmm
  import opened Wrappers
  import opened Bits
  import Memory
  import Paging
  import Context
  import Tasks
  import Runs
  import Machine

  /** What the boot loader must have handed over, and no region shifted against page borders reaches below the safe
    * start. */
  ghost predicate BootOk(info: BootInfo, table: map<nat, MmapEntry>, kernelEnd: nat) {
    && MaxBlocks(info) % 32 == 0 && MaxBlocks(info) > 0 && kernelEnd > 0
    && MapOk(info, table) && RegionsEnd(RegionsOf(info, table))
    && BitmapStart(info, kernelEnd) + MaxBlocks(info) / 8 < WRAP
    && forall i :: 0 <= i < |RegionsOf(info, table)| ==> !Exposes(RegionsOf(info, table)[i], SafeStart(info, kernelEnd))
  }

  /** The blocks free after pmm_initialize. */
  ghost function FreeAtBoot(info: BootInfo, table: map<nat, MmapEntry>, kernelEnd: nat): set<nat>
    requires MapOk(info, table)
  {
    FreeAfterBoot(RegionsOf(info, table), SafeStart(info, kernelEnd), MaxBlocks(info))
  }

  ghost function UsedAtBoot(info: BootInfo, table: map<nat, MmapEntry>, kernelEnd: nat): set<nat>
    requires MapOk(info, table)
  {
    Blocks(MaxBlocks(info)) - FreeAtBoot(info, table, kernelEnd)
  }

  lemma SafeIsAbove(info: BootInfo, kernelEnd: nat)
    requires BitmapStart(info, kernelEnd) + MaxBlocks(info) / 8 < WRAP
    ensures SafeStart(info, kernelEnd) == BitmapStart(info, kernelEnd) + MaxBlocks(info) / 8 >= kernelEnd
  {}

  /** Every address of memory below the kernel's end lies in a block that is in use from the start; block 0 is one. */
  lemma KernelIsUsed(info: BootInfo, table: map<nat, MmapEntry>, kernelEnd: nat, a: nat)
    requires BootOk(info, table, kernelEnd) && a < kernelEnd && a / 4096 < MaxBlocks(info)
    ensures a / 4096 in UsedAtBoot(info, table, kernelEnd)
  {
    var b := a / 4096;
    assert b * 4096 <= a;
    SafeIsAbove(info, kernelEnd);
    if b in FreeAtBoot(info, table, kernelEnd) {
      NothingExposed(RegionsOf(info, table), SafeStart(info, kernelEnd), MaxBlocks(info), b);
    }
  }

  /** pmm_initialize, then vmm_initialize. With f blocks free after the first, paging is on if f > 0; the processor then
    * finds every address below 4 MiB times the tables made at itself, writable, and faults everywhere else; and what
    * was in use still is. With five of the f blocks below 16 MiB the tables can be reached, and the rest is left. */
  method BootMemory(info: BootInfo, table: map<nat, MmapEntry>, kernelEnd: nat, mem: Words)
    returns (pmm: BlockAllocator, vmm: Paging.PageTables)
    requires BootOk(info, table, kernelEnd)
    ensures fresh(pmm) && fresh(pmm.bitmap) && fresh(vmm) && vmm.pmm == pmm
    ensures vmm.kept == UsedAtBoot(info, table, kernelEnd)
    ensures pmm.Valid() && pmm.maxBlocks == MaxBlocks(info) && UsedAtBoot(info, table, kernelEnd) <= pmm.Used()
    ensures var f := |FreeAtBoot(info, table, kernelEnd)|;
      var low := LowFree(UsedAtBoot(info, table, kernelEnd), pmm.maxBlocks);
      if f == 0 then !vmm.paging && vmm.mem == mem else
        && vmm.paging && (low >= 5 ==> vmm.Valid())
        && Booted(vmm.mem, vmm.Dir(), pmm.Used(), pmm.count, pmm.maxBlocks, f, low, UsedAtBoot(info, table, kernelEnd))
  {
    pmm := BootBlocks(info, table, kernelEnd);
    vmm := new Paging.PageTables(pmm, mem);
    vmm.Initialize();
  }

  method BootBlocks(info: BootInfo, table: map<nat, MmapEntry>, kernelEnd: nat) returns (pmm: BlockAllocator)
    requires BootOk(info, table, kernelEnd)
    ensures fresh(pmm) && fresh(pmm.bitmap) && pmm.Valid() && pmm.maxBlocks == MaxBlocks(info)
    ensures 0 in pmm.Used() && pmm.Used() == UsedAtBoot(info, table, kernelEnd)
    ensures pmm.maxBlocks - pmm.count == |FreeAtBoot(info, table, kernelEnd)|
  {
    KernelIsUsed(info, table, kernelEnd, 0);
    pmm := new BlockAllocator.Initialize(info, table, kernelEnd);
    FreeCount(FreeAtBoot(info, table, kernelEnd), pmm.maxBlocks);
  }

  lemma FreeCount(free: set<nat>, n: nat)
    requires free <= Blocks(n)
    ensures |Blocks(n) - free| == n - |free|
  {
    CountFree(free, n);
  }

  // ---------------------------------------------------------------- what stands for itself

  /** Every mapped page stands for itself, and all pages below 16 MiB are mapped. */
  ghost predicate SelfMap(s: Space) {
    IsIdentity(s) && LowIdentity(s)
  }

  lemma PrefixSelfMap(k: nat)
    requires k == 4096
    ensures SelfMap(Prefix(k))
  {
    PrefixIsLow(k);
  }

  /** Whatever lies below the safe start stands for itself once paging is on, if any block below 16 MiB is free: the
    * kernel, the modules and the bitmap. */
  lemma BelowSafeIsMapped(info: BootInfo, table: map<nat, MmapEntry>, kernelEnd: nat, s: Space, a: nat)
    requires BootOk(info, table, kernelEnd) && LowFree(UsedAtBoot(info, table, kernelEnd), MaxBlocks(info)) > 0
    requires a < SafeStart(info, kernelEnd) && SelfMap(s)
    ensures a < 0x100_0000 && SelfMapped(s, a / 4096)
  {
    var n, b := MaxBlocks(info), FirstFree(UsedAtBoot(info, table, kernelEnd), MaxBlocks(info));
    Taking(UsedAtBoot(info, table, kernelEnd), n);
    FreeCount(FreeAtBoot(info, table, kernelEnd), n);
    NothingExposed(RegionsOf(info, table), SafeStart(info, kernelEnd), n, b);
    assert a / 4096 < 4096;
  }

  /** Modules or a bitmap that reach up to 16 MiB leave no low block free. */
  lemma HighModules(info: BootInfo, table: map<nat, MmapEntry>, kernelEnd: nat)
    requires BootOk(info, table, kernelEnd) && SafeStart(info, kernelEnd) > 0xFF_F000
    ensures LowFree(UsedAtBoot(info, table, kernelEnd), MaxBlocks(info)) == 0
  {
    var used, n := UsedAtBoot(info, table, kernelEnd), MaxBlocks(info);
    if LowFree(used, n) > 0 {
      FreeCount(FreeAtBoot(info, table, kernelEnd), n);
      Taking(used, n);
      NothingExposed(RegionsOf(info, table), SafeStart(info, kernelEnd), n, FirstFree(used, n));
    }
  }

  /** After boot the next block handed out can be written if and only if a block below 16 MiB is free; otherwise the
    * first store of process_initialize faults. */
  lemma NextBlockMapped(m: Words, dir: nat, used: set<nat>, n: nat)
    requires SpaceOf(m, dir) == Prefix(4096) && used <= Blocks(n) && FirstFree(used, n) < n < 0x10_0000
    ensures var b := FirstFree(used, n);
      && (SelfMapped(SpaceOf(m, dir), b) <==> LowFree(used, n) > 0)
      && (LowFree(used, n) == 0 ==> Walk(m, dir, b).None?)
  {
    var b := FirstFree(used, n);
    FreeBelowNone(used, n, if n < 4096 then n else 4096);
    PrefixRights(4, 4096, b);
    WalkIsRights(m, dir, b);
  }

  // ---------------------------------------------------------------- the network card

  /** The window of the card, mapped to itself over tables that map the low pages to themselves. */
  lemma CardMapped(st: Stock, first: nat)
    requires first < 0x10_0000 && Slotted(st.space) && SelfMap(st.space) && st.free >= Missing(st.space, first)
    ensures var s := TryAll(st, Window(first, 256)).space;
      SelfMap(s) && forall p :: InWindow(first, 256, p) ==> SelfMapped(s, p)
  {
    var s := TryAll(st, Window(first, 256)).space;
    IdentityKept(st, Window(first, 256));
    forall p | InWindow(first, 256, p)
      ensures SelfMapped(s, p)
    {
      WindowComplete(st, first, p);
    }
    forall p: nat | p < 4096
      ensures Rights(s, p).Some? && Rights(s, p).value.frame == p
    {
      LowStays(st, first, p);
    }
  }

  lemma LowStays(st: Stock, first: nat, p: nat)
    requires Slotted(st.space) && SelfMapped(st.space, p)
    ensures SelfMapped(TryAll(st, Window(first, 256)).space, p)
  {
    WindowRights(st, first, 256, p);
  }

  /** Paging is on, the tables can be reached, every mapped page stands for itself and all low ones are mapped. */
  ghost predicate Mapped(vmm: Paging.PageTables)
    reads vmm, vmm.pmm, vmm.pmm.bitmap
  {
    vmm.Valid() && vmm.paging && SelfMap(vmm.Contents())
  }

  ghost function LowLeft(pmm: BlockAllocator): nat
    reads pmm, pmm.bitmap
  {
    LowFree(pmm.Used(), pmm.maxBlocks)
  }

  /** The mebibyte from the page of BAR 0 on stands for itself. */
  ghost predicate Seen(s: Space, bar0: Option<nat>) {
    bar0.Some? ==> forall d: nat :: d < 0x10_0000 ==> SelfMapped(s, WindowByte(bar0.value, d) / 4096)
  }

  /** The e1000 loop after boot, with blocks below 16 MiB for the tables it may need: every mapped page still stands for
    * itself, the whole window does, and at most two blocks are gone. */
  method MapCard(vmm: Paging.PageTables, bar0: nat)
    requires Mapped(vmm) && bar0 < WRAP && LowLeft(vmm.pmm) >= 2
    modifies vmm`mem, vmm.pmm`usedBlocks, vmm.pmm`count, vmm.pmm.bitmap
    ensures Mapped(vmm) && Seen(vmm.Contents(), Some(bar0)) && old(vmm.pmm.Used()) <= vmm.pmm.Used()
    ensures LowLeft(vmm.pmm) >= old(LowLeft(vmm.pmm)) - 2
  {
    ghost var first, st := AndNot(bar0, 0xF) / 4096, vmm.Supply();
    AndNotShrinks(bar0, 0xF);
    vmm.UsedFree(vmm.pmm.Used());
    Taking(vmm.pmm.Used(), vmm.pmm.maxBlocks);
    LowSupplies(vmm.Contents(), vmm.pmm.Used(), vmm.pmm.maxBlocks, Missing(vmm.Contents(), first));
    SpaceSlotted(vmm.mem, vmm.Dir());
    CardMapped(st, first);
    vmm.MapMmio(bar0);
    AllSeen(vmm.Contents(), bar0, first);
  }

  lemma AllSeen(s: Space, bar0: nat, first: nat)
    requires bar0 < WRAP && first == AndNot(bar0, 0xF) / 4096
    requires forall p :: InWindow(first, 256, p) ==> SelfMapped(s, p)
    ensures Seen(s, Some(bar0))
  {
    forall d: nat | d < 0x10_0000
      ensures SelfMapped(s, WindowByte(bar0, d) / 4096)
    {
      WindowBytes(bar0, first, d);
    }
  }

  /** e1000_initialize: nothing to map unless the card is there. */
  method MapAnyCard(vmm: Paging.PageTables, bar0: Option<nat>)
    requires Mapped(vmm) && (bar0.Some? ==> bar0.value < WRAP) && LowLeft(vmm.pmm) >= Needed(bar0) - 5
    modifies vmm`mem, vmm.pmm`usedBlocks, vmm.pmm`count, vmm.pmm.bitmap
    ensures Mapped(vmm) && Seen(vmm.Contents(), bar0) && old(vmm.pmm.Used()) <= vmm.pmm.Used()
    ensures LowLeft(vmm.pmm) >= 3
  {
    if bar0.Some? {
      MapCard(vmm, bar0.value);
    }
  }

  // ---------------------------------------------------------------- the first threads

  /** The kernel counts on the pages below 16 MiB. */
  ghost predicate LowMapped(k: Context.Layout) {
    forall b: nat :: b in k.mapped <==> b < 4096
  }

  /** Two free blocks below 16 MiB are all that process_create_thread needs. */
  lemma LowCreates(k: Context.Layout, used: set<nat>, n: nat)
    requires LowMapped(k) && used <= Blocks(n)
    ensures LowFree(used, n) >= 1 ==> Tasks.NextBlock(k, used, n) && AllocUsed(used, n) <= Blocks(n)
    ensures LowFree(used, n) >= 2 ==> Tasks.NextBlock(k, AllocUsed(used, n), n)
    ensures LowFree(AllocUsed(used, n), n) >= LowFree(used, n) - 1
  {
    Taking(used, n);
    if LowFree(used, n) >= 2 {
      Taking(AllocUsed(used, n), n);
    }
  }

  lemma StackIsUsed(info: BootInfo, table: map<nat, MmapEntry>, kernelEnd: nat, lo: nat, hi: nat, used: set<nat>)
    requires BootOk(info, table, kernelEnd) && hi <= kernelEnd && hi <= 4096 * MaxBlocks(info)
    requires UsedAtBoot(info, table, kernelEnd) <= used
    ensures Runs.StackIn(lo, hi, used)
  {
    forall a: nat | lo <= a < hi
      ensures a / 4096 in used
    {
      KernelIsUsed(info, table, kernelEnd, a);
    }
  }

  /** The machine just before process_initialize: nothing in the ring, the boot stack in used low blocks. */
  ghost predicate Unthreaded(k: Context.Layout, s: Tasks.Kernel, lo: nat, hi: nat) {
    && Tasks.LayoutOk(k) && LowMapped(k) && s.nextPid == 1 && lo < hi <= 0x100_0000
    && s.used <= Blocks(s.maxBlocks) && s.maxBlocks < 0x10_0000 && 0 in s.used && Runs.StackIn(lo, hi, s.used)
    && Tasks.AtThread(k, Tasks.Thread(0, lo, hi), s.core.cpu) && !Context.InterruptsOn(s.core.cpu)
  }

  /** The first thread, the code that boots, alone in its ring. */
  ghost function FirstThread(s: Tasks.Kernel, lo: nat, hi: nat): Tasks.Config {
    Tasks.Config(Tasks.Initialize(s), [Tasks.Thread(AllocAddress(s.used, s.maxBlocks), lo, hi)], 0)
  }

  lemma FirstThreadInv(k: Context.Layout, s: Tasks.Kernel, lo: nat, hi: nat, entry: int)
    requires Unthreaded(k, s, lo, hi) && LowFree(s.used, s.maxBlocks) >= 3 && !Context.InKernelPath(k, entry)
    ensures var c := FirstThread(s, lo, hi);
      && Tasks.Inv(k, c) && Tasks.Legal(k, c, Tasks.Create(entry))
      && Runs.OneSpace(c, s.core.cpu.cr3) && Runs.KernelStacks(c, s.core.cpu.esp + 4096)
    ensures Machine.Backed(k, AllocAddress(s.used, s.maxBlocks))
  {
    LowCreates(k, s.used, s.maxBlocks);
    LowCreates(k, AllocUsed(s.used, s.maxBlocks), s.maxBlocks);
    Runs.BootInv(k, s, lo, hi);
  }

  /** Neither the stack nor any block still free is one of these. */
  ghost predicate Aside(blocks: set<nat>, s: Tasks.Kernel, lo: nat, hi: nat) {
    blocks <= s.used && forall a: nat :: lo <= a < hi ==> a / 4096 !in blocks
  }

  lemma FirstThreadReserves(k: Context.Layout, s: Tasks.Kernel, lo: nat, hi: nat, blocks: set<nat>)
    requires Unthreaded(k, s, lo, hi) && Tasks.NextBlock(k, s.used, s.maxBlocks) && Aside(blocks, s, lo, hi)
    ensures Runs.Reserved(FirstThread(s, lo, hi), blocks)
    ensures Runs.SameIn(s.core.mem, FirstThread(s, lo, hi).s.core.mem, blocks)
  {
    var b, pcb := FirstFree(s.used, s.maxBlocks), AllocAddress(s.used, s.maxBlocks);
    forall a: nat | pcb <= a < pcb + 20
      ensures a / 4096 == b
    {
      Offset(b, a - pcb);
    }
  }

  /** process_initialize and process_create_thread. */
  method StartThreads(computer: Machine.Computer, ghost lo: nat, ghost hi: nat, entry: int, ghost tables: set<nat>)
    returns (ghost c: Tasks.Config)
    requires computer.pmm.Valid() && Unthreaded(computer.k, computer.State(), lo, hi)
    requires LowLeft(computer.pmm) >= 3 && !Context.InKernelPath(computer.k, entry)
    requires Aside(tables, computer.State(), lo, hi)
    modifies computer`mem, computer`current, computer`queue, computer`nextPid
    modifies computer.pmm`usedBlocks, computer.pmm`count, computer.pmm.bitmap
    ensures c.s == computer.State() && Tasks.Inv(computer.k, c) && Started(c, old(computer.cpu), lo, hi)
    ensures Runs.Reserved(c, tables) && Runs.SameIn(old(computer.mem), c.s.core.mem, tables)
  {
    ghost var s := computer.State();
    ghost var c1 := FirstThread(s, lo, hi);
    FirstThreadInv(computer.k, s, lo, hi, entry);
    computer.ProcessInitialize();
    var _ := computer.ProcessCreateThread(entry, c1);
    c := Tasks.Apply(computer.k, c1, Tasks.Create(entry));
    SecondThread(computer.k, s, lo, hi, entry, tables);
  }

  lemma SecondThread(k: Context.Layout, s: Tasks.Kernel, lo: nat, hi: nat, entry: int, tables: set<nat>)
    requires Unthreaded(k, s, lo, hi) && LowFree(s.used, s.maxBlocks) >= 3 && !Context.InKernelPath(k, entry)
    requires Aside(tables, s, lo, hi)
    ensures var c := Tasks.Apply(k, FirstThread(s, lo, hi), Tasks.Create(entry));
      && Tasks.Inv(k, c) && Started(c, s.core.cpu, lo, hi)
      && Runs.Reserved(c, tables) && Runs.SameIn(s.core.mem, c.s.core.mem, tables)
  {
    var c1, e := FirstThread(s, lo, hi), Tasks.Create(entry);
    FirstThreadInv(k, s, lo, hi, entry);
    LowCreates(k, s.used, s.maxBlocks);
    FirstThreadReserves(k, s, lo, hi, tables);
    Tasks.CreateInv(k, c1, entry);
    Runs.StepOneSpace(k, c1, e, s.core.cpu.cr3);
    Runs.StepKernelStacks(k, c1, e, s.core.cpu.esp + 4096);
    Runs.StepReserved(k, c1, e, tables);
  }

  /** How many free blocks below 16 MiB the boot takes: one for the directory and four for its tables, up to two for the
    * tables of a network card's window, one for the first thread, two for the second. */
  function Needed(bar0: Option<nat>): nat {
    if bar0.Some? then 10 else 8
  }

  /** The page tables: pmm_initialize, vmm_initialize and, where there is a card, e1000_initialize. */
  method BootTables(info: BootInfo, table: map<nat, MmapEntry>, kernelEnd: nat, mem: Words, bar0: Option<nat>)
    returns (vmm: Paging.PageTables)
    requires BootOk(info, table, kernelEnd) && (bar0.Some? ==> bar0.value < WRAP)
    requires LowFree(UsedAtBoot(info, table, kernelEnd), MaxBlocks(info)) >= Needed(bar0)
    ensures fresh(vmm) && fresh(vmm.pmm) && fresh(vmm.pmm.bitmap)
    ensures vmm.pmm.maxBlocks == MaxBlocks(info) && vmm.kept == UsedAtBoot(info, table, kernelEnd)
    ensures Mapped(vmm) && Seen(vmm.Contents(), bar0) && LowLeft(vmm.pmm) >= 3
  {
    vmm := BootLow(info, table, kernelEnd, mem);
    MapAnyCard(vmm, bar0);
  }

  /** pmm_initialize and vmm_initialize, when there are low blocks for all tables. */
  method BootLow(info: BootInfo, table: map<nat, MmapEntry>, kernelEnd: nat, mem: Words)
    returns (vmm: Paging.PageTables)
    requires BootOk(info, table, kernelEnd) && LowFree(UsedAtBoot(info, table, kernelEnd), MaxBlocks(info)) >= 5
    ensures fresh(vmm) && fresh(vmm.pmm) && fresh(vmm.pmm.bitmap) && Mapped(vmm)
    ensures vmm.pmm.maxBlocks == MaxBlocks(info) && vmm.kept == UsedAtBoot(info, table, kernelEnd)
    ensures LowLeft(vmm.pmm) >= LowFree(UsedAtBoot(info, table, kernelEnd), MaxBlocks(info)) - 5
  {
    ghost var low := LowFree(UsedAtBoot(info, table, kernelEnd), MaxBlocks(info));
    FreeCount(FreeAtBoot(info, table, kernelEnd), MaxBlocks(info));
    Taking(UsedAtBoot(info, table, kernelEnd), MaxBlocks(info));
    var pmm;
    pmm, vmm := BootMemory(info, table, kernelEnd, mem);
    PrefixSelfMap(4096);
  }

  /** The whole boot, up to the background thread. With free blocks enough below 16 MiB, and the boot stack inside the
    * kernel, the machine is in a state every run theorem starts from, and the pages the kernel counts on stand for
    * themselves in the page tables that both threads use. */
  method BootKernel(info: BootInfo, table: map<nat, MmapEntry>, kernelEnd: nat, mem: Words, bar0: Option<nat>,
                    k: Context.Layout, cpu: Context.Cpu, lo: nat, hi: nat, entry: int)
    returns (computer: Machine.Computer, vmm: Paging.PageTables, ghost c: Tasks.Config)
    requires BootOk(info, table, kernelEnd) && (bar0.Some? ==> bar0.value < WRAP)
    requires LowFree(UsedAtBoot(info, table, kernelEnd), MaxBlocks(info)) >= Needed(bar0)
    requires Tasks.LayoutOk(k) && LowMapped(k) && lo < hi <= kernelEnd && hi <= 4096 * MaxBlocks(info)
    requires Tasks.AtThread(k, Tasks.Thread(0, lo, hi), cpu) && !Context.InterruptsOn(cpu)
    requires !Context.InKernelPath(k, entry)
    ensures fresh(computer) && fresh(vmm) && computer.k == k && c.s == computer.State() && Tasks.Inv(k, c)
    ensures vmm.paging && SelfMap(vmm.Contents()) && Seen(vmm.Contents(), bar0)
    ensures forall b :: b in k.mapped ==> SelfMapped(vmm.Contents(), b)
    ensures Started(c, cpu.(cr3 := vmm.pageDirectory), lo, hi)
    ensures Holds(c, vmm.mem, vmm.Dir())
  {
    vmm := BootTables(info, table, kernelEnd, mem, bar0);
    vmm.pmm.UsedInRange();
    computer := new Machine.Computer(k, vmm.pmm, cpu.(cr3 := vmm.pageDirectory), vmm.mem);
    BootStack(info, table, kernelEnd, k, computer.State(), cpu, vmm.pageDirectory, lo, hi);
    TablesAside(info, table, kernelEnd, vmm.mem, vmm.Dir(), computer.State(), lo, hi);
    c := StartThreads(computer, lo, hi, entry, TableBlocks(vmm.mem, vmm.Dir()));
  }

  lemma TablesAside(info: BootInfo, table: map<nat, MmapEntry>, kernelEnd: nat, m: Words, dir: nat, s: Tasks.Kernel,
                    lo: nat, hi: nat)
    requires BootOk(info, table, kernelEnd) && hi <= kernelEnd && hi <= 4096 * MaxBlocks(info)
    requires TablesOk(m, dir, s.used - UsedAtBoot(info, table, kernelEnd))
    ensures Aside(TableBlocks(m, dir), s, lo, hi)
  {
    TableBlocksUsed(m, dir, s.used - UsedAtBoot(info, table, kernelEnd));
    StackIsUsed(info, table, kernelEnd, lo, hi, UsedAtBoot(info, table, kernelEnd));
  }

  /** The machine's memory holds the directory and the tables of m, in blocks that no thread owns, and all threads run
    * on that directory. */
  ghost predicate Holds(c: Tasks.Config, m: Words, dir: nat) {
    && Runs.Reserved(c, TableBlocks(m, dir)) && Runs.SameIn(m, c.s.core.mem, TableBlocks(m, dir))
    && Runs.OneSpace(c, dir * 4096)
  }

  /** The machine's memory, as the processor reads table entries from it. */
  function Unsigned(m: Memory.Mem): Words {
    map a | a in m :: if m[a] >= 0 then m[a] else 0
  }

  /** After any run in which thread code leaves the tables alone, cr3 is the directory it was after boot, and the
    * processor finds every page where it found it then: those the kernel counts on still stand for themselves. */
  lemma AddressSpaceStands(k: Context.Layout, c: Tasks.Config, es: seq<Tasks.Event>, m: Words, dir: nat)
    requires Tasks.Inv(k, c) && Runs.LegalRun(k, c, es) && Holds(c, m, dir)
    requires Runs.Spared(k, c, es, TableBlocks(m, dir))
    ensures var c' := Runs.Run(k, c, es);
      && Holds(c', m, dir) && c'.s.core.cpu.cr3 == dir * 4096
      && forall p: nat :: p < 0x10_0000 ==> Walk(Unsigned(c'.s.core.mem), dir, p) == Walk(m, dir, p)
  {
    Runs.RunReserved(k, c, es, TableBlocks(m, dir));
    Runs.RunOneSpace(k, c, es, dir * 4096);
    var m' := Unsigned(Runs.Run(k, c, es).s.core.mem);
    SameTables(m, m', dir);
    forall p: nat | p < 0x10_0000
      ensures Walk(m', dir, p) == Walk(m, dir, p)
    {
      WalkIsRights(m, dir, p);
      WalkIsRights(m', dir, p);
    }
  }

  /** Two threads on one page directory, the first of them running as the boot loader's cpu does. */
  ghost predicate Started(c: Tasks.Config, cpu: Context.Cpu, lo: nat, hi: nat) {
    && |c.ts| == 2 && c.cur == 0 && c.ts[0].lo == lo && c.ts[0].hi == hi
    && c.s.core.cpu == cpu && Runs.OneSpace(c, cpu.cr3) && Runs.KernelStacks(c, cpu.esp + 4096)
  }

  lemma BootStack(info: BootInfo, table: map<nat, MmapEntry>, kernelEnd: nat, k: Context.Layout, s: Tasks.Kernel,
                  cpu: Context.Cpu, dir: nat, lo: nat, hi: nat)
    requires BootOk(info, table, kernelEnd) && LowFree(UsedAtBoot(info, table, kernelEnd), MaxBlocks(info)) > 0
    requires Tasks.LayoutOk(k) && LowMapped(k) && lo < hi <= kernelEnd && hi <= 4096 * MaxBlocks(info)
    requires Tasks.AtThread(k, Tasks.Thread(0, lo, hi), cpu) && !Context.InterruptsOn(cpu)
    requires s.core.cpu == cpu.(cr3 := dir) && s.nextPid == 1 && s.maxBlocks == MaxBlocks(info)
    requires UsedAtBoot(info, table, kernelEnd) <= s.used <= Blocks(s.maxBlocks)
    ensures Unthreaded(k, s, lo, hi)
  {
    KernelIsUsed(info, table, kernelEnd, 0);
    StackIsUsed(info, table, kernelEnd, lo, hi, s.used);
    SafeIsAbove(info, kernelEnd);
    PrefixSelfMap(4096);
    BelowSafeIsMapped(info, table, kernelEnd, Prefix(4096), hi - 1);
  }
}
