/** Whole runs of the kernel: what every event keeps, and that suspended threads come back as they left. */
module Runs {
  import opened Memory
  import opened Context
  import opened Tasks
  import Pmm

  function Run(k: Layout, c: Config, es: seq<Event>): (c': Config)
    requires |c.ts| > 0
    ensures |c.ts| <= |c'.ts| && c'.ts[..|c.ts|] == c.ts
    decreases |es|
  {
    if es == [] then c else Run(k, Apply(k, c, es[0]), es[1..])
  }

  ghost predicate LegalRun(k: Layout, c: Config, es: seq<Event>)
    requires |c.ts| > 0
    decreases |es|
  {
    es == [] || (Legal(k, c, es[0]) && LegalRun(k, Apply(k, c, es[0]), es[1..]))
  }

  // ---------------------------------------------------------------- the invariant

  predicate BlockKept(m0: Mem, m: Mem, pcb: int) {
    Id(m, pcb) == Id(m0, pcb) && SavedEsp(m, pcb) == SavedEsp(m0, pcb) && Directory(m, pcb) == Directory(m0, pcb)
    && Next(m, pcb) == Next(m0, pcb)
  }

  /** What a thread's own code writes leaves all control blocks and the other stacks alone. */
  lemma ComputeKeeps(c: Config, m: Mem, i: nat)
    requires Shape(c.ts) && Respects(c, m) && i < |c.ts|
    ensures BlockKept(c.s.core.mem, m, c.ts[i].pcb)
    ensures i != c.cur ==> SameOn(c.s.core.mem, m, c.ts[i].lo, c.ts[i].hi)
  {
    var t := c.ts[i];
    assert forall a :: t.pcb <= a < t.pcb + 20 ==> Owns(t, a) && !(t.lo <= a < t.hi);
    assert forall a :: t.lo <= a < t.hi ==> Owns(t, a);
  }

  lemma ComputeInv(k: Layout, c: Config, e: Event)
    requires Inv(k, c) && Legal(k, c, e) && e.Compute?
    ensures Inv(k, Apply(k, c, e))
  {
    var m := e.mem;
    forall i: nat | i < |c.ts|
      ensures BlockKept(c.s.core.mem, m, c.ts[i].pcb)
      ensures i != c.cur ==> Suspended(k, m, c.ts[i])
    {
      ComputeKeeps(c, m, i);
      if i != c.cur {
        SuspendedKept(k, c.s.core.mem, m, c.ts[i]);
      }
    }
  }

  lemma ScheduleInv(k: Layout, c: Config, e: Event)
    requires Inv(k, c) && Legal(k, c, e) && Schedules(c, e) && |c.ts| > 1
    ensures Inv(k, Apply(k, c, e)) && OwnOnly(c, Apply(k, c, e).s.core.mem)
    ensures Exchanged(k, c, Entry(c.s, k, e), Apply(k, c, e).s)
  {
    var q := Entry(c.s, k, e);
    EntryIsOk(k, c, e);
    ApplyIsTrip(k, c, e);
    TripSwitches(k, c, e, q);
    InvKept(k, c, Apply(k, c, e));
  }

  lemma StayInv(k: Layout, c: Config, e: Event)
    requires Inv(k, c) && Legal(k, c, e) && (e.Tick? || e.Yield?) && (Schedules(c, e) ==> |c.ts| == 1)
    ensures Inv(k, Apply(k, c, e)) && Apply(k, c, e).cur == c.cur
    ensures OwnOnly(c, Apply(k, c, e).s.core.mem)
  {
    if e.Tick? {
      TickStays(k, c, e);
    } else {
      YieldStays(k, c, e);
    }
    InvKept(k, c, Apply(k, c, e));
  }

  /** Every event keeps the invariant: the ring stays one cycle through all threads in creation order, numbered
    * 1, 2, ...; the running thread is in it; every other thread can be resumed. */
  lemma StepInv(k: Layout, c: Config, e: Event)
    requires Inv(k, c) && Legal(k, c, e)
    ensures Inv(k, Apply(k, c, e))
  {
    match e
    case Compute(_, _) => ComputeInv(k, c, e);
    case Create(entry) => CreateInv(k, c, entry);
    case Tick(_) => if Schedules(c, e) && |c.ts| > 1 { ScheduleInv(k, c, e); } else { StayInv(k, c, e); }
    case Yield(_) => if |c.ts| > 1 { ScheduleInv(k, c, e); } else { StayInv(k, c, e); }
  }

  lemma {:induction false} RunInv(k: Layout, c: Config, es: seq<Event>)
    requires Inv(k, c) && LegalRun(k, c, es)
    ensures Inv(k, Run(k, c, es))
    decreases |es|
  {
    if es != [] {
      StepInv(k, c, es[0]);
      RunInv(k, Apply(k, c, es[0]), es[1..]);
    }
  }

  /** The stack [lo, hi) lies in used blocks. */
  ghost predicate StackIn(lo: int, hi: int, used: set<nat>) {
    forall a: nat :: lo <= a < hi ==> a / 4096 in used
  }

  /** process_initialize establishes the invariant around the code that calls it: the boot stack [lo, hi) must lie in
    * used blocks and in pages that stand for themselves, and so must the block left for the control block. */
  lemma BootInv(k: Layout, s: Kernel, lo: int, hi: int)
    requires LayoutOk(k) && s.nextPid == 1 && 0 <= lo < hi
    requires s.used <= Pmm.Blocks(s.maxBlocks) && s.maxBlocks < 0x10_0000 && 0 in s.used
    requires NextBlock(k, s.used, s.maxBlocks) && StackIn(lo, hi, s.used) && StackIn(lo, hi, k.mapped)
    requires AtThread(k, Thread(0, lo, hi), s.core.cpu)
    ensures var c := Config(Initialize(s), [Thread(Pmm.AllocAddress(s.used, s.maxBlocks), lo, hi)], 0);
      Inv(k, c) && KernelStacks(c, s.core.cpu.esp + 4096)
  {
    var b := Pmm.FirstFree(s.used, s.maxBlocks);
    var th := Thread(4096 * b, lo, hi);
    var c := Config(Initialize(s), [th], 0);
    assert Pmm.AllocAddress(s.used, s.maxBlocks) == th.pcb && Pmm.AllocUsed(s.used, s.maxBlocks) == s.used + {b};
    BootShape(th, b, s.used);
    BootUsed(th, b, s.used);
    BootUsed(th, b, k.mapped);
    assert k.mapped + {b} == k.mapped;
    BootBlock(s.core.mem, th.pcb, s.core.cpu.esp, s.core.cpu.cr3);
    BootQueue(c, s, th, b);
    assert AtThread(k, th, s.core.cpu);
  }

  lemma BootShape(th: Thread, b: nat, used: set<nat>)
    requires th.pcb == 4096 * b && 0 <= th.lo < th.hi && b !in used && 0 in used && StackIn(th.lo, th.hi, used)
    ensures Shape([th])
  {
    ClearOfBlock(th.lo, th.hi, b, used);
  }

  lemma BootUsed(th: Thread, b: nat, used: set<nat>)
    requires th.pcb == 4096 * b && StackIn(th.lo, th.hi, used)
    ensures InBlocks([th], used + {b})
  {
    forall a: nat | Owns(th, a)
      ensures a / 4096 in used + {b}
    {
      if !(th.lo <= a < th.hi) {
        assert a / 4096 == b;
      }
    }
  }

  lemma BootQueue(c: Config, s: Kernel, th: Thread, b: nat)
    requires c == Config(Initialize(s), [th], 0) && Shape([th]) && InBlocks([th], s.used + {b}) && s.nextPid == 1
    requires b == Pmm.FirstFree(s.used, s.maxBlocks) < s.maxBlocks && th.pcb == 4096 * b
    requires s.used <= Pmm.Blocks(s.maxBlocks) && s.maxBlocks < 0x10_0000 && 0 in s.used
    requires Id(c.s.core.mem, th.pcb) == 1 && Next(c.s.core.mem, th.pcb) == th.pcb
    ensures Queue(c)
  {
    assert {0} <= s.used;
    Pmm.SubsetSize({0}, s.used);
    assert |s.used + {b}| == |s.used| + 1;
  }

  lemma BootBlock(m0: Mem, pcb: int, esp: int, cr3: int)
    ensures var m := InitMem(m0, pcb, 1, esp, cr3);
      Id(m, pcb) == 1 && Next(m, pcb) == pcb && Directory(m, pcb) == cr3 && KernelStack(m, pcb) == esp + 4096
  {}

  // ---------------------------------------------------------------- suspended threads are left alone

  /** Thread i's stack, saved stack pointer and page directory read the same in both memories. */
  ghost predicate ThreadKept(m: Mem, m': Mem, t: Thread) {
    && SameOn(m, m', t.lo, t.hi)
    && SavedEsp(m', t.pcb) == SavedEsp(m, t.pcb) && Directory(m', t.pcb) == Directory(m, t.pcb)
  }

  lemma StepKeeps(k: Layout, c: Config, e: Event, i: nat)
    requires Inv(k, c) && Legal(k, c, e) && i < |c.ts| && i != c.cur
    ensures ThreadKept(c.s.core.mem, Apply(k, c, e).s.core.mem, c.ts[i])
  {
    match e
    case Compute(_, mem) => ComputeKeeps(c, mem, i);
    case Create(entry) =>
      NewShape(c);
      ApplyIsCreate(k, c, entry, NewThread(c.s));
      CreateWrites(k, c, entry, NewThread(c.s));
      CreateKeeps(k, c, entry, Apply(k, c, e).s.core.mem, NewThread(c.s), i);
    case _ =>
      if Schedules(c, e) && |c.ts| > 1 { ScheduleInv(k, c, e); } else { StayInv(k, c, e); }
      OthersKept(k, c, Apply(k, c, e).s.core.mem, i);
      BlockWordsKept(c, Apply(k, c, e).s.core.mem, i);
  }

  /** Thread i does not run before any event of es. */
  predicate Away(k: Layout, c: Config, es: seq<Event>, i: nat)
    requires |c.ts| > 0
    decreases |es|
  {
    es == [] || (c.cur != i && Away(k, Apply(k, c, es[0]), es[1..], i))
  }

  lemma {:induction false} RunKeeps(k: Layout, c: Config, es: seq<Event>, i: nat)
    requires Inv(k, c) && LegalRun(k, c, es) && i < |c.ts| && Away(k, c, es, i)
    ensures ThreadKept(c.s.core.mem, Run(k, c, es).s.core.mem, c.ts[i])
    decreases |es|
  {
    if es != [] {
      var c1 := Apply(k, c, es[0]);
      assert c1.ts[i] == c1.ts[..|c.ts|][i];
      StepInv(k, c, es[0]);
      StepKeeps(k, c, es[0], i);
      RunKeeps(k, c1, es[1..], i);
    }
  }

  // ---------------------------------------------------------------- one address space

  /** cr3 and every control block hold the same page directory. */
  ghost predicate OneSpace(c: Config, dir: int) {
    c.s.core.cpu.cr3 == dir && forall i :: 0 <= i < |c.ts| ==> Directory(c.s.core.mem, c.ts[i].pcb) == dir
  }

  lemma StepOneSpace(k: Layout, c: Config, e: Event, dir: int)
    requires Inv(k, c) && Legal(k, c, e) && OneSpace(c, dir)
    ensures OneSpace(Apply(k, c, e), dir)
  {
    var c' := Apply(k, c, e);
    StepInv(k, c, e);
    forall i: nat | i < |c'.ts|
      ensures Directory(c'.s.core.mem, c'.ts[i].pcb) == dir
    {
      StepDirectory(k, c, e, i);
    }
  }

  /** An event leaves the page directory of each thread; a new one gets its creator's. */
  lemma StepDirectory(k: Layout, c: Config, e: Event, i: nat)
    requires Inv(k, c) && Legal(k, c, e) && i < |Apply(k, c, e).ts|
    ensures var c' := Apply(k, c, e);
      Directory(c'.s.core.mem, c'.ts[i].pcb) ==
        if i < |c.ts| then Directory(c.s.core.mem, c.ts[i].pcb) else c.s.core.cpu.cr3
  {
    match e
    case Compute(_, mem) => ComputeKeeps(c, mem, i);
    case Create(entry) => CreateWrote(k, c, entry, Apply(k, c, e).s.core.mem, i);
    case _ =>
      if Schedules(c, e) && |c.ts| > 1 { ScheduleInv(k, c, e); } else { StayInv(k, c, e); }
      BlockWordsKept(c, Apply(k, c, e).s.core.mem, i);
  }

  lemma CreateWrote(k: Layout, c: Config, entry: int, m: Mem, i: nat)
    requires Inv(k, c) && Legal(k, c, Create(entry)) && m == Apply(k, c, Create(entry)).s.core.mem && i <= |c.ts|
    ensures Created(k, c, entry, m, NewThread(c.s)) && Apply(k, c, Create(entry)).ts == c.ts + [NewThread(c.s)]
    ensures i < |c.ts| ==>
      && Directory(m, c.ts[i].pcb) == Directory(c.s.core.mem, c.ts[i].pcb)
      && KernelStack(m, c.ts[i].pcb) == KernelStack(c.s.core.mem, c.ts[i].pcb)
    ensures Fresh(c, NewThread(c.s))
  {
    NewShape(c);
    ApplyIsCreate(k, c, entry, NewThread(c.s));
    CreateWrites(k, c, entry, NewThread(c.s));
    if i < |c.ts| {
      CreateKeeps(k, c, entry, m, NewThread(c.s), i);
    }
  }

  /** All threads of a run share the page directory it began with. */
  lemma {:induction false} RunOneSpace(k: Layout, c: Config, es: seq<Event>, dir: int)
    requires Inv(k, c) && LegalRun(k, c, es) && OneSpace(c, dir)
    ensures OneSpace(Run(k, c, es), dir)
    decreases |es|
  {
    if es != [] {
      StepInv(k, c, es[0]);
      StepOneSpace(k, c, es[0], dir);
      RunOneSpace(k, Apply(k, c, es[0]), es[1..], dir);
    }
  }

  // ---------------------------------------------------------------- the kernel stack in the TSS

  /** The kernel stack of a thread, for interrupts from user mode: the top of its own stack; for the first thread top0,
    * what process_initialize took it to be. */
  function StackTop(c: Config, top0: int, i: nat): int
    requires i < |c.ts|
  {
    if i == 0 then top0 else c.ts[i].hi
  }

  ghost predicate KernelStacks(c: Config, top0: int) {
    forall i: nat :: i < |c.ts| ==> KernelStack(c.s.core.mem, c.ts[i].pcb) == StackTop(c, top0, i)
  }

  lemma StepKernelStacks(k: Layout, c: Config, e: Event, top0: int)
    requires Inv(k, c) && Legal(k, c, e) && KernelStacks(c, top0)
    ensures KernelStacks(Apply(k, c, e), top0)
  {
    var c' := Apply(k, c, e);
    forall i: nat | i < |c'.ts|
      ensures KernelStack(c'.s.core.mem, c'.ts[i].pcb) == StackTop(c', top0, i)
    {
      StepKernelStack(k, c, e, i);
      assert i < |c.ts| ==> c'.ts[i] == c'.ts[..|c.ts|][i];
    }
  }

  /** An event leaves the kernel stack of each thread; a new one gets the top of its stack. */
  lemma StepKernelStack(k: Layout, c: Config, e: Event, i: nat)
    requires Inv(k, c) && Legal(k, c, e) && i < |Apply(k, c, e).ts|
    ensures var c' := Apply(k, c, e);
      KernelStack(c'.s.core.mem, c'.ts[i].pcb) ==
        if i < |c.ts| then KernelStack(c.s.core.mem, c.ts[i].pcb) else c'.ts[i].hi
  {
    match e
    case Compute(_, mem) => assert Owns(c.ts[i], c.ts[i].pcb + 8) && !(c.ts[i].lo <= c.ts[i].pcb + 8 < c.ts[i].hi);
    case Create(entry) => CreateWrote(k, c, entry, Apply(k, c, e).s.core.mem, i);
    case _ =>
      if Schedules(c, e) && |c.ts| > 1 { ScheduleInv(k, c, e); } else { StayInv(k, c, e); }
      BlockWordsKept(c, Apply(k, c, e).s.core.mem, i);
  }

  /** The TSS names the kernel stack of the thread that runs. */
  ghost predicate TssFollows(c: Config, top0: int) {
    c.cur < |c.ts| && c.s.tssEsp0 == StackTop(c, top0, c.cur)
  }

  /** A switch makes it so, and every other event keeps it so. */
  lemma StepTss(k: Layout, c: Config, e: Event, top0: int)
    requires Inv(k, c) && Legal(k, c, e) && KernelStacks(c, top0)
    requires TssFollows(c, top0) || (Schedules(c, e) && |c.ts| > 1)
    ensures TssFollows(Apply(k, c, e), top0)
  {
    if Schedules(c, e) && |c.ts| > 1 {
      ScheduleInv(k, c, e);
    } else if e.Tick? {
      TickStays(k, c, e);
    } else if e.Yield? {
      YieldStays(k, c, e);
    }
  }

  /** From the first switch on, over any run, the kernel stack in the TSS is that of the running thread. */
  lemma {:induction false} RunTss(k: Layout, c: Config, es: seq<Event>, top0: int)
    requires Inv(k, c) && LegalRun(k, c, es) && KernelStacks(c, top0) && TssFollows(c, top0)
    ensures KernelStacks(Run(k, c, es), top0) && TssFollows(Run(k, c, es), top0)
    decreases |es|
  {
    if es != [] {
      StepInv(k, c, es[0]);
      StepKernelStacks(k, c, es[0], top0);
      StepTss(k, c, es[0], top0);
      RunTss(k, Apply(k, c, es[0]), es[1..], top0);
    }
  }

  // ---------------------------------------------------------------- what the kernel writes

  ghost predicate Owned(ts: seq<Thread>, a: int) {
    exists i :: 0 <= i < |ts| && Owns(ts[i], a)
  }

  /** Every word the kernel's part of an event changes is some thread's own, and lies in a page that stands for
    * itself. */
  lemma KernelWrites(k: Layout, c: Config, e: Event, a: int)
    requires Inv(k, c) && Legal(k, c, e) && !e.Compute?
    requires Read(Apply(k, c, e).s.core.mem, a) != Read(c.s.core.mem, a)
    ensures Owned(Apply(k, c, e).ts, a) && a >= 0 && a / 4096 in k.mapped
  {
    StepInv(k, c, e);
    if e.Create? {
      CreateWrote(k, c, e.entry, Apply(k, c, e).s.core.mem, 0);
      WrittenIsOwned(k, c, e.entry, Apply(k, c, e).s.core.mem, NewThread(c.s), a);
    } else {
      TripWrites(k, c, e, a);
    }
    OwnedIsMapped(k, Apply(k, c, e), a);
  }

  lemma TripWrites(k: Layout, c: Config, e: Event, a: int)
    requires Inv(k, c) && Legal(k, c, e) && (e.Tick? || e.Yield?)
    requires Read(Apply(k, c, e).s.core.mem, a) != Read(c.s.core.mem, a)
    ensures Owned(Apply(k, c, e).ts, a)
  {
    if Schedules(c, e) && |c.ts| > 1 { ScheduleInv(k, c, e); } else { StayInv(k, c, e); }
    assert Owns(c.ts[c.cur], a);
  }

  lemma OwnedIsMapped(k: Layout, c: Config, a: int)
    requires Inv(k, c) && Owned(c.ts, a)
    ensures a >= 0 && a / 4096 in k.mapped
  {}

  lemma WrittenIsOwned(k: Layout, c: Config, entry: int, m: Mem, th: Thread, a: int)
    requires Created(k, c, entry, m, th) && Read(m, a) != Read(c.s.core.mem, a)
    ensures Owned(c.ts + [th], a)
  {
    var ts, last := c.ts + [th], |c.ts| - 1;
    assert ts[last] == c.ts[last] && ts[|c.ts|] == th;
    assert Owns(ts[last], a) || Owns(ts[|c.ts|], a);
  }

  /** These blocks are in use, and no thread owns a word in them. */
  ghost predicate Reserved(c: Config, blocks: set<nat>) {
    blocks <= c.s.used && forall i, a: nat :: 0 <= i < |c.ts| && Owns(c.ts[i], a) ==> a / 4096 !in blocks
  }

  ghost predicate SameIn(m: Mem, m': Mem, blocks: set<nat>) {
    forall a: nat :: a / 4096 in blocks ==> Read(m', a) == Read(m, a)
  }

  lemma StepReserved(k: Layout, c: Config, e: Event, blocks: set<nat>)
    requires Inv(k, c) && Legal(k, c, e) && Reserved(c, blocks)
    ensures Reserved(Apply(k, c, e), blocks)
    ensures !e.Compute? ==> SameIn(c.s.core.mem, Apply(k, c, e).s.core.mem, blocks)
  {
    if e.Create? {
      CreateReserved(k, c, e.entry, blocks);
    }
    if !e.Compute? {
      forall a: nat | a / 4096 in blocks
        ensures Read(Apply(k, c, e).s.core.mem, a) == Read(c.s.core.mem, a)
      {
        if Read(Apply(k, c, e).s.core.mem, a) != Read(c.s.core.mem, a) {
          KernelWrites(k, c, e, a);
        }
      }
    }
  }

  lemma CreateReserved(k: Layout, c: Config, entry: int, blocks: set<nat>)
    requires Inv(k, c) && Legal(k, c, Create(entry)) && Reserved(c, blocks)
    ensures Reserved(Apply(k, c, Create(entry)), blocks)
  {
    var used, n := c.s.used, c.s.maxBlocks;
    OwnBlocksOnly(NewThread(c.s), Pmm.FirstFree(used, n), Pmm.FirstFree(Pmm.AllocUsed(used, n), n));
    ApplyIsCreate(k, c, entry, NewThread(c.s));
  }

  /** The threads' own code leaves these blocks alone. */
  ghost predicate Spared(k: Layout, c: Config, es: seq<Event>, blocks: set<nat>)
    requires |c.ts| > 0
    decreases |es|
  {
    es == [] ||
    ((es[0].Compute? ==> SameIn(c.s.core.mem, es[0].mem, blocks)) && Spared(k, Apply(k, c, es[0]), es[1..], blocks))
  }

  /** Over any run, blocks in use that no thread owned are not given to a thread, and not written by the kernel. */
  lemma {:induction false} RunReserved(k: Layout, c: Config, es: seq<Event>, blocks: set<nat>)
    requires Inv(k, c) && LegalRun(k, c, es) && Reserved(c, blocks) && Spared(k, c, es, blocks)
    ensures Reserved(Run(k, c, es), blocks) && SameIn(c.s.core.mem, Run(k, c, es).s.core.mem, blocks)
    decreases |es|
  {
    if es != [] {
      StepInv(k, c, es[0]);
      StepReserved(k, c, es[0], blocks);
      RunReserved(k, Apply(k, c, es[0]), es[1..], blocks);
    }
  }

  // ---------------------------------------------------------------- resumption

  /** The cpu and memory at switch_task's first instruction, and right after its ret. */
  function AtSwitch(k: Layout, c: Config, e: Event): Core
    requires e.Tick? || e.Yield?
  {
    SwitchCall(Entry(c.s, k, e), k, e.x.sched)
  }

  function AfterSwitch(k: Layout, c: Config, e: Event): Core
    requires e.Tick? || e.Yield?
  {
    Schedule(Entry(c.s, k, e), k, e.x.sched).core
  }

  /** Thread i, not running in c, is switched to by e. */
  ghost predicate Arrives(k: Layout, c: Config, e: Event, i: nat) {
    Legal(k, c, e) && c.cur != i && i < |c.ts| && Apply(k, c, e).cur == i
  }

  lemma Arrival(k: Layout, c: Config, e: Event, i: nat)
    requires Inv(k, c) && Arrives(k, c, e, i)
    ensures Schedules(c, e) && |c.ts| > 1
    ensures var w, m := AfterSwitch(k, c, e), c.s.core.mem;
      && w.cpu == LoadContext(w.cpu, w.mem, SavedEsp(m, c.ts[i].pcb), Directory(m, c.ts[i].pcb))
      && ThreadKept(m, w.mem, c.ts[i])
      && Apply(k, c, e).s.core == Core(Unwind(k, w.cpu, w.mem, e.x.back), w.mem)
      && !InterruptsOn(w.cpu)
  {
    assert Schedules(c, e) && |c.ts| > 1;
    ClearIFClears(c.s.core.cpu.eflags);
    var q := Entry(c.s, k, e);
    EntryIsOk(k, c, e);
    ApplyIsTrip(k, c, e);
    ScheduleSwitches(k, c, q, e.x.sched);
    DepartedOwnOnly(k, c, q, AtSwitch(k, c, e), AfterSwitch(k, c, e));
    OthersKept(k, c, AfterSwitch(k, c, e).mem, i);
    BlockWordsKept(c, AfterSwitch(k, c, e).mem, i);
  }

  /** What thread c.cur leaves behind when e switches away from it: u at the call of switch_task, m afterwards. */
  ghost predicate Left(k: Layout, c: Config, e: Event, q: Core, u: Core, m: Mem) {
    && c.cur < |c.ts| &&
    var th, sp := c.ts[c.cur], q.cpu.esp - SwitchDepth(k);
    && Parked(k, m, q, sp) && Saved(m, u) && SavedEsp(m, th.pcb) == sp == u.cpu.esp - 16
    && th.lo <= sp && q.cpu.esp < c.s.core.cpu.esp <= th.hi && SameOn(u.mem, m, u.cpu.esp, th.hi)
    && Directory(m, th.pcb) == c.s.core.cpu.cr3
    && SameOn(c.s.core.mem, m, c.s.core.cpu.esp, th.hi)
  }

  lemma Departure(k: Layout, c: Config, e: Event)
    requires Inv(k, c) && Legal(k, c, e) && Schedules(c, e) && |c.ts| > 1
    ensures Left(k, c, e, Entry(c.s, k, e).core, AtSwitch(k, c, e), Apply(k, c, e).s.core.mem)
    ensures e.Tick? ==> Interrupted(k, Apply(k, c, e).s.core.mem, c.s.core.cpu)
    ensures EntryOk(k, c, e, Entry(c.s, k, e))
  {
    var q, u, t := Entry(c.s, k, e), AtSwitch(k, c, e), AfterSwitch(k, c, e);
    EntryIsOk(k, c, e);
    ApplyIsTrip(k, c, e);
    ScheduleSwitches(k, c, q, e.x.sched);
    EntryBounds(k, c, q);
    DepartedOwnOnly(k, c, q, u, t);
    BlockWordsKept(c, t.mem, c.cur);
    LeftBehind(k, c, e, q, u, t);
    if e.Tick? {
      InterruptedKept(k, q.core.mem, t.mem, c.s.core.cpu, c.ts[c.cur]);
    }
  }

  lemma LeftBehind(k: Layout, c: Config, e: Event, q: Kernel, u: Core, t: Core)
    requires EntryOk(k, c, e, q) && Departed(k, c, q, u, t) && Directory(t.mem, c.ts[c.cur].pcb) == c.s.core.cpu.cr3
    requires var th := c.ts[c.cur];
      && Clear(th.lo, th.hi, th.pcb, th.pcb + 20) && th.lo + SwitchDepth(k) <= q.core.cpu.esp < th.hi
      && c.s.core.cpu.esp <= th.hi
    ensures Left(k, c, e, q.core, u, t.mem)
  {
    var th, nx := c.ts[c.cur], c.ts[After(c.cur, |c.ts|)];
    SwitchedKeeps(k, q.core, u, t, th, SavedEsp(c.s.core.mem, nx.pcb), Directory(c.s.core.mem, nx.pcb));
  }

  /** switch_task writes nothing of the stack at or above the esp it was called with. */
  lemma SwitchedKeeps(k: Layout, q: Core, u: Core, t: Core, th: Thread, esp: int, cr3: int)
    requires Switched(q, k, u, t, th.pcb + 4, esp, cr3) && Clear(th.lo, th.hi, th.pcb, th.pcb + 20)
    requires th.lo + SwitchDepth(k) <= q.cpu.esp < th.hi
    ensures SameOn(u.mem, t.mem, u.cpu.esp, th.hi) && SameOn(q.mem, t.mem, q.cpu.esp, th.hi)
  {}

  /** Between e0, which switches away from a thread, and e1, which is the first to switch back to it, any events
    * of any other threads may lie. */
  ghost predicate Absence(k: Layout, c0: Config, e0: Event, es: seq<Event>, e1: Event) {
    && Inv(k, c0) && Legal(k, c0, e0) && Schedules(c0, e0) && |c0.ts| > 1
    && var c1 := Apply(k, c0, e0);
    LegalRun(k, c1, es) && Away(k, c1, es, c0.cur) && Arrives(k, Run(k, c1, es), e1, c0.cur)
  }

  function Back(k: Layout, c0: Config, e0: Event, es: seq<Event>): Config
    requires |c0.ts| > 0
  {
    Run(k, Apply(k, c0, e0), es)
  }

  lemma AbsenceKeeps(k: Layout, c0: Config, e0: Event, es: seq<Event>, e1: Event)
    requires Absence(k, c0, e0, es, e1)
    ensures var th, c1, c2 := c0.ts[c0.cur], Apply(k, c0, e0), Back(k, c0, e0, es);
      && Inv(k, c2) && (e1.Tick? || e1.Yield?) && c2.ts[c0.cur] == th
      && ThreadKept(c1.s.core.mem, AfterSwitch(k, c2, e1).mem, th)
      && AfterSwitch(k, c2, e1).cpu == LoadContext(AfterSwitch(k, c2, e1).cpu, AfterSwitch(k, c2, e1).mem,
                                                   SavedEsp(c1.s.core.mem, th.pcb), Directory(c1.s.core.mem, th.pcb))
      && Apply(k, c2, e1).s.core == Core(Unwind(k, AfterSwitch(k, c2, e1).cpu, AfterSwitch(k, c2, e1).mem, e1.x.back),
                                         AfterSwitch(k, c2, e1).mem)
      && !InterruptsOn(AfterSwitch(k, c2, e1).cpu)
  {
    var i, c1, c2 := c0.cur, Apply(k, c0, e0), Back(k, c0, e0, es);
    assert c1.ts[i] == c1.ts[..|c0.ts|][i] && c2.ts[i] == c2.ts[..|c1.ts|][i];
    StepInv(k, c0, e0);
    RunInv(k, c1, es);
    RunKeeps(k, c1, es, i);
    Arrival(k, c2, e1, i);
  }

  lemma LeftKept(k: Layout, c: Config, e: Event, q: Core, u: Core, m: Mem, m': Mem)
    requires Left(k, c, e, q, u, m) && ThreadKept(m, m', c.ts[c.cur])
    ensures Left(k, c, e, q, u, m')
  {}

  /** The machine right after switch_task's ret has the stack that was left, and has loaded its context. */
  ghost predicate Reloaded(k: Layout, c0: Config, e0: Event, q: Core, u: Core, w: Core) {
    && Left(k, c0, e0, q, u, w.mem)
    && w.cpu == LoadContext(w.cpu, w.mem, u.cpu.esp - 16, c0.s.core.cpu.cr3)
    && (e0.Tick? ==> Interrupted(k, w.mem, c0.s.core.cpu))
  }

  lemma Comeback(k: Layout, c0: Config, e0: Event, es: seq<Event>, e1: Event)
    requires Absence(k, c0, e0, es, e1)
    ensures e1.Tick? || e1.Yield?
    ensures var c2 := Back(k, c0, e0, es);
      var w := AfterSwitch(k, c2, e1);
      && Reloaded(k, c0, e0, Entry(c0.s, k, e0).core, AtSwitch(k, c0, e0), w)
      && Apply(k, c2, e1).s.core == Core(Unwind(k, w.cpu, w.mem, e1.x.back), w.mem)
      && !InterruptsOn(w.cpu)
  {
    Departure(k, c0, e0);
    AbsenceKeeps(k, c0, e0, es, e1);
    var q, u, m, w := Entry(c0.s, k, e0).core, AtSwitch(k, c0, e0), Apply(k, c0, e0).s.core.mem,
                      AfterSwitch(k, Back(k, c0, e0, es), e1);
    Reload(k, c0, e0, q, u, m, w);
  }

  lemma Reload(k: Layout, c0: Config, e0: Event, q: Core, u: Core, m: Mem, w: Core)
    requires Left(k, c0, e0, q, u, m) && ThreadKept(m, w.mem, c0.ts[c0.cur])
    requires var th := c0.ts[c0.cur];
      && w.cpu == LoadContext(w.cpu, w.mem, SavedEsp(m, th.pcb), Directory(m, th.pcb))
      && Clear(th.lo, th.hi, th.pcb, th.pcb + 20) && th.lo + Room(k) <= c0.s.core.cpu.esp <= th.hi
    requires e0.Tick? ==> Interrupted(k, m, c0.s.core.cpu)
    ensures Reloaded(k, c0, e0, q, u, w)
  {
    LeftKept(k, c0, e0, q, u, m, w.mem);
    if e0.Tick? {
      InterruptedKept(k, m, w.mem, c0.s.core.cpu, c0.ts[c0.cur]);
    }
  }

  /** Resumption. Whatever ran in between, switch_task returns to the thread with edi, esi, ebx, ebp as they were when
    * it was called, esp just above the return address it was called with, eip at that address, the thread's own page
    * directory, and every word of the stack from there up unchanged. */
  lemma SwitchResumes(k: Layout, c0: Config, e0: Event, es: seq<Event>, e1: Event)
    requires Absence(k, c0, e0, es, e1)
    ensures e1.Tick? || e1.Yield?
    ensures Resumed(c0, AtSwitch(k, c0, e0), AfterSwitch(k, Back(k, c0, e0, es), e1))
  {
    Comeback(k, c0, e0, es, e1);
    ReloadedResumes(k, c0, e0, Entry(c0.s, k, e0).core, AtSwitch(k, c0, e0), AfterSwitch(k, Back(k, c0, e0, es), e1));
  }

  ghost predicate Resumed(c0: Config, u: Core, w: Core) {
    && c0.cur < |c0.ts|
    && w.cpu.edi == u.cpu.edi && w.cpu.esi == u.cpu.esi && w.cpu.ebx == u.cpu.ebx && w.cpu.ebp == u.cpu.ebp
    && w.cpu.esp == u.cpu.esp + 4 && w.cpu.eip == Read(u.mem, u.cpu.esp)
    && w.cpu.cr3 == Directory(w.mem, c0.ts[c0.cur].pcb) == c0.s.core.cpu.cr3
    && SameOn(u.mem, w.mem, u.cpu.esp, c0.ts[c0.cur].hi)
  }

  lemma ReloadedResumes(k: Layout, c0: Config, e0: Event, q: Core, u: Core, w: Core)
    requires Reloaded(k, c0, e0, q, u, w)
    ensures Resumed(c0, u, w)
  {
    SwitchRoundTrip(u, w.mem, w.cpu, c0.s.core.cpu.cr3);
  }

  /** Preemption is transparent: a ring-0 thread interrupted by the timer anywhere, and switched away from, gets back
    * every register, eip, eflags and its address space, and its stack from esp up, unchanged. */
  lemma PreemptionTransparent(k: Layout, c0: Config, e0: Event, es: seq<Event>, e1: Event)
    requires Absence(k, c0, e0, es, e1) && e0.Tick?
    ensures var c3, th := Apply(k, Back(k, c0, e0, es), e1), c0.ts[c0.cur];
      c3.s.core.cpu == c0.s.core.cpu && SameOn(c0.s.core.mem, c3.s.core.mem, c0.s.core.cpu.esp, th.hi)
  {
    EntryIsOk(k, c0, e0);
    Comeback(k, c0, e0, es, e1);
    ReloadedPreempted(k, c0, e0, Entry(c0.s, k, e0), AtSwitch(k, c0, e0), AfterSwitch(k, Back(k, c0, e0, es), e1),
                      e1.x.back);
  }

  lemma ReloadedPreempted(k: Layout, c0: Config, e0: Event, q: Kernel, u: Core, w: Core, x: Scratch)
    requires Distinct(k) && EntryOk(k, c0, e0, q) && Reloaded(k, c0, e0, q.core, u, w) && e0.Tick?
    requires AtThread(k, c0.ts[c0.cur], c0.s.core.cpu)
    ensures Unwind(k, w.cpu, w.mem, x) == c0.s.core.cpu
    ensures SameOn(c0.s.core.mem, w.mem, c0.s.core.cpu.esp, c0.ts[c0.cur].hi)
  {
    PreemptedReturns(k, w.mem, c0.s.core.cpu, q.core, w.cpu, c0.s.core.cpu.cr3, x);
  }

  /** A thread that gave up the processor itself finds its call of process_schedule returned like any other call, with
    * interrupts off as it made it, whoever switched back to it. */
  lemma YieldReturns(k: Layout, c0: Config, e0: Event, es: seq<Event>, e1: Event)
    requires Absence(k, c0, e0, es, e1) && e0.Yield?
    ensures var c3, th := Apply(k, Back(k, c0, e0, es), e1), c0.ts[c0.cur];
      && CalleeSaved(c3.s.core.cpu, c0.s.core.cpu) && !InterruptsOn(c3.s.core.cpu)
      && SameOn(c0.s.core.mem, c3.s.core.mem, c0.s.core.cpu.esp, th.hi)
  {
    EntryIsOk(k, c0, e0);
    Comeback(k, c0, e0, es, e1);
    ReloadedYielded(k, c0, e0, Entry(c0.s, k, e0), AtSwitch(k, c0, e0), AfterSwitch(k, Back(k, c0, e0, es), e1),
                    e1.x.back);
  }

  lemma ReloadedYielded(k: Layout, c0: Config, e0: Event, q: Kernel, u: Core, w: Core, x: Scratch)
    requires EntryOk(k, c0, e0, q) && Reloaded(k, c0, e0, q.core, u, w) && e0.Yield?
    requires AtThread(k, c0.ts[c0.cur], c0.s.core.cpu)
    ensures CalleeSaved(Unwind(k, w.cpu, w.mem, x), c0.s.core.cpu) && Unwind(k, w.cpu, w.mem, x).eflags == w.cpu.eflags
    ensures SameOn(c0.s.core.mem, w.mem, c0.s.core.cpu.esp, c0.ts[c0.cur].hi)
  {
    ParkedReturns(k, w.mem, q.core, u.cpu.esp - 16, w.cpu, c0.s.core.cpu.cr3, x);
  }

  // ---------------------------------------------------------------- a thread's first steps

  /** From its creation in c0 to its first switch by e1, a new thread is away. */
  ghost predicate Birth(k: Layout, c0: Config, entry: int, es: seq<Event>, e1: Event) {
    && Inv(k, c0) && Legal(k, c0, Create(entry))
    && var c1 := Apply(k, c0, Create(entry));
    LegalRun(k, c1, es) && Away(k, c1, es, |c0.ts|) && Arrives(k, Run(k, c1, es), e1, |c0.ts|)
  }

  /** However long after its creation, a new thread reaches entry with edi, esi, ebx and ebp zero, thread_exit as its
    * return address at the top of its stack, and its creator's page directory. It starts with interrupts off: they stay
    * off until its own code turns them on. */
  lemma FreshStarts(k: Layout, c0: Config, entry: int, es: seq<Event>, e1: Event)
    requires Birth(k, c0, entry, es, e1)
    ensures var c2 := Back(k, c0, Create(entry), es);
      var core, th := Apply(k, c2, e1).s.core, NewThread(c0.s);
      && core.cpu.eip == entry && core.cpu.edi == 0 && core.cpu.esi == 0 && core.cpu.ebx == 0 && core.cpu.ebp == 0
      && core.cpu.esp == th.hi - 4 && Read(core.mem, core.cpu.esp) == k.threadExit
      && core.cpu.cr3 == c0.s.core.cpu.cr3
      && !InterruptsOn(core.cpu)
  {
    var c2 := Back(k, c0, Create(entry), es);
    Born(k, c0, entry, es, e1);
    Arrival(k, c2, e1, |c0.ts|);
    FirstSteps(k, c0, entry, c2.s.core.mem, NewThread(c0.s), AfterSwitch(k, c2, e1), e1.x.back);
  }

  /** Until then its control block and its stack stay as they were made. */
  lemma Born(k: Layout, c0: Config, entry: int, es: seq<Event>, e1: Event)
    requires Birth(k, c0, entry, es, e1)
    ensures var c2, th, i := Back(k, c0, Create(entry), es), NewThread(c0.s), |c0.ts|;
      && Inv(k, c2) && Arrives(k, c2, e1, i) && c2.ts[i] == th && Fresh(c0, th)
      && Framed(k, c0, entry, c2.s.core.mem, th)
  {
    var i, c1, c2 := |c0.ts|, Apply(k, c0, Create(entry)), Back(k, c0, Create(entry), es);
    CreateWrote(k, c0, entry, c1.s.core.mem, i);
    assert c1.ts[i] == NewThread(c0.s);
    StepInv(k, c0, Create(entry));
    AwayKept(k, c1, es, i);
    StillFramed(k, c0, entry, c1.s.core.mem, c2.s.core.mem, NewThread(c0.s));
  }

  lemma AwayKept(k: Layout, c: Config, es: seq<Event>, i: nat)
    requires Inv(k, c) && LegalRun(k, c, es) && i < |c.ts| && Away(k, c, es, i)
    ensures Inv(k, Run(k, c, es)) && Run(k, c, es).ts[i] == c.ts[i]
    ensures ThreadKept(c.s.core.mem, Run(k, c, es).s.core.mem, c.ts[i])
  {
    RunInv(k, c, es);
    RunKeeps(k, c, es, i);
    assert Run(k, c, es).ts[i] == Run(k, c, es).ts[..|c.ts|][i];
  }

  /** The mock frame and the saved words process_create_thread made. */
  ghost predicate Framed(k: Layout, c0: Config, entry: int, m: Mem, th: Thread) {
    && SavedEsp(m, th.pcb) == th.hi - 24 && Directory(m, th.pcb) == c0.s.core.cpu.cr3
    && Read(m, th.hi - 4) == k.threadExit && Read(m, th.hi - 8) == entry
    && Read(m, th.hi - 12) == 0 && Read(m, th.hi - 16) == 0 && Read(m, th.hi - 20) == 0 && Read(m, th.hi - 24) == 0
  }

  lemma StillFramed(k: Layout, c0: Config, entry: int, m: Mem, m': Mem, th: Thread)
    requires Created(k, c0, entry, m, th) && Fresh(c0, th) && ThreadKept(m, m', th)
    ensures Framed(k, c0, entry, m', th)
  {}

  lemma FirstSteps(k: Layout, c0: Config, entry: int, m: Mem, th: Thread, w: Core, x: Scratch)
    requires Framed(k, c0, entry, m, th) && ThreadKept(m, w.mem, th) && Fresh(c0, th) && !InKernelPath(k, entry)
    requires w.cpu == LoadContext(w.cpu, w.mem, SavedEsp(m, th.pcb), Directory(m, th.pcb))
    ensures Unwind(k, w.cpu, w.mem, x) == w.cpu
    ensures var c := w.cpu;
      && c.eip == entry && c.edi == 0 && c.esi == 0 && c.ebx == 0 && c.ebp == 0 && c.esp == th.hi - 4
      && Read(w.mem, c.esp) == k.threadExit && c.cr3 == c0.s.core.cpu.cr3
  {}
}
