/** Threads: the run queue linked through the process control blocks, the timer's preemption and its runs. */
module Tasks {
  import opened Memory
  import opened Context
  import Pmm

  // ---------------------------------------------------------------- control blocks

  function Id(m: Mem, pcb: int): int {
    Read(m, pcb)
  }

  function SavedEsp(m: Mem, pcb: int): int {
    Read(m, pcb + 4)
  }

  function KernelStack(m: Mem, pcb: int): int {
    Read(m, pcb + 8)
  }

  function Directory(m: Mem, pcb: int): int {
    Read(m, pcb + 12)
  }

  function Next(m: Mem, pcb: int): int {
    Read(m, pcb + 16)
  }

  /** The machine, the statics of process.c and pit.c, the kernel stack in the TSS, and the allocator's blocks. */
  datatype Kernel = Kernel(core: Core, current: int, queue: int, nextPid: int, tick: int, tssEsp0: int,
                           used: set<nat>, maxBlocks: nat)

  // ---------------------------------------------------------------- the operations

  /** The cpu and memory at switch_task's first instruction. */
  function SwitchCall(q: Kernel, k: Layout, x: Scratch): Core {
    var m := Enter(q.core, k.schedLocals, x).mem;
    var next := Next(m, q.current);
    Depart(q.core, k, x, q.current + 4, SavedEsp(m, next), Directory(m, next))
  }

  /** process_schedule, from its first instruction to where it leaves this stack: by its own return when there is
    * nothing to switch to, by switch_task's otherwise. */
  function Schedule(s: Kernel, k: Layout, x: Scratch): Kernel {
    var t := Enter(s.core, k.schedLocals, x);
    var next := Next(t.mem, s.current);
    if s.current == 0 || next == s.current then
      s.(core := Core(Leave(t.cpu, t.mem, k.schedLocals, x), t.mem))
    else
      s.(core := Switch(SwitchCall(s, k, x)), current := next, tssEsp0 := KernelStack(t.mem, next))
  }

  function Finish(s: Kernel, k: Layout, x: Scratch): Kernel {
    s.(core := Core(Unwind(k, s.core.cpu, s.core.mem, x), s.core.mem))
  }

  /** What the compiled functions on the path do to registers and locals. */
  datatype Path = Path(irq: Scratch, pit: Scratch, sched: Scratch, back: Scratch)

  predicate Quantum(tick: int) {
    tick % 50 == 0
  }

  function NextTick(tick: int): int {
    (tick + 1) % 0x1_0000_0000
  }

  /** Inside pit_callback, the tick counted. */
  function Callback(s: Kernel, k: Layout, x: Path): Kernel {
    s.(core := InPit(s.core, k, 0, 32, x.irq, x.pit), tick := NextTick(s.tick))
  }

  /** One timer interrupt, from the interrupted instruction until some thread's code runs again: irq_handler calls
    * pit_callback if that is what is registered for the number it finds in its argument. */
  function TimerTick(s: Kernel, k: Layout, x: Path): Kernel {
    var t := TrapEnter(s.core, k.retStub, 0, 32);
    if IntNo(t) == 32 then PitTick(s, k, x)
    else
      var u := Enter(t, k.irqLocals, x.irq);
      Finish(s.(core := Core(Leave(u.cpu, u.mem, k.irqLocals, x.irq), u.mem)), k, x.back)
  }

  lemma TickIsPit(s: Kernel, k: Layout, x: Path)
    ensures TimerTick(s, k, x) == PitTick(s, k, x)
  {
    TimerIntNo(s.core, k.retStub, 0, 32);
  }

  /** The same once pit_callback is called. */
  function PitTick(s: Kernel, k: Layout, x: Path): Kernel {
    var t := Callback(s, k, x);
    if Quantum(t.tick) then
      Finish(Schedule(t.(core := Push(t.core, k.retPit)), k, x.sched), k, x.back)
    else
      Finish(t.(core := Core(Leave(t.core.cpu, t.core.mem, k.pitLocals, x.pit), t.core.mem)), k, x.back)
  }

  /** A thread calls process_schedule itself; eip is where the call returns to. */
  function CallSchedule(s: Kernel, k: Layout, x: Path): Kernel {
    Finish(Schedule(s.(core := Push(s.core, s.core.cpu.eip)), k, x.sched), k, x.back)
  }

  function InitMem(m: Mem, pcb: int, pid: int, esp: int, cr3: int): Mem {
    m[pcb := pid][pcb + 16 := pcb][pcb + 8 := esp + 4096][pcb + 12 := cr3]
  }

  /** process_initialize */
  function Initialize(s: Kernel): Kernel {
    var pcb := Pmm.AllocAddress(s.used, s.maxBlocks);
    var m := InitMem(s.core.mem, pcb, s.nextPid, s.core.cpu.esp, s.core.cpu.cr3);
    s.(core := Core(s.core.cpu, m), current := pcb, queue := pcb, nextPid := (s.nextPid + 1) % 0x1_0000_0000,
       used := Pmm.AllocUsed(s.used, s.maxBlocks))
  }

  /** The control block, the mock stack frame that switch_task will pop, and the two links of the ring. */
  function CreateMem(m: Mem, pid: int, proc: int, top: int, exit: int, entry: int, cr3: int, tail: int, queue: int): Mem
  {
    m[proc := pid][proc + 8 := top]
     [top - 4 := exit][top - 8 := entry][top - 12 := 0][top - 16 := 0][top - 20 := 0][top - 24 := 0]
     [proc + 4 := top - 24][proc + 12 := cr3][tail + 16 := proc][proc + 16 := queue]
  }

  /** process_create_thread; tail is the control block the walk along the queue ends at. */
  function CreateThread(s: Kernel, k: Layout, entry: int, tail: int): Kernel {
    var used1 := Pmm.AllocUsed(s.used, s.maxBlocks);
    var proc, base := Pmm.AllocAddress(s.used, s.maxBlocks), Pmm.AllocAddress(used1, s.maxBlocks);
    var top := base + 4096;
    var m := CreateMem(s.core.mem, s.nextPid, proc, top, k.threadExit, entry, s.core.cpu.cr3, tail, s.queue);
    s.(core := Core(s.core.cpu, m), nextPid := (s.nextPid + 1) % 0x1_0000_0000,
       used := Pmm.AllocUsed(used1, s.maxBlocks))
  }

  lemma CreateThreadIs(s: Kernel, k: Layout, entry: int, tail: int, proc: int, top: int, used1: set<nat>)
    requires used1 == Pmm.AllocUsed(s.used, s.maxBlocks) && proc == Pmm.AllocAddress(s.used, s.maxBlocks)
    requires top == Pmm.AllocAddress(used1, s.maxBlocks) + 4096
    ensures CreateThread(s, k, entry, tail) ==
      s.(core := Core(s.core.cpu, CreateMem(s.core.mem, s.nextPid, proc, top, k.threadExit, entry, s.core.cpu.cr3,
                                            tail, s.queue)),
         nextPid := (s.nextPid + 1) % 0x1_0000_0000, used := Pmm.AllocUsed(used1, s.maxBlocks))
  {}

  // ---------------------------------------------------------------- threads and their regions

  /** A control block and the stack [lo, hi) that goes with it. */
  datatype Thread = Thread(pcb: int, lo: int, hi: int)

  predicate Clear(a: int, b: int, c: int, d: int) {
    b <= c || d <= a
  }

  predicate Apart(t: Thread, u: Thread) {
    && Clear(t.lo, t.hi, u.lo, u.hi) && Clear(t.pcb, t.pcb + 20, u.pcb, u.pcb + 20)
    && Clear(t.lo, t.hi, u.pcb, u.pcb + 20) && Clear(t.pcb, t.pcb + 20, u.lo, u.hi)
  }

  predicate Owns(t: Thread, a: int) {
    t.lo <= a < t.hi || t.pcb <= a < t.pcb + 20
  }

  ghost predicate Shape(ts: seq<Thread>) {
    && |ts| > 0
    && (forall i :: 0 <= i < |ts| ==> 0 < ts[i].pcb && 0 <= ts[i].lo < ts[i].hi
                                        && Clear(ts[i].lo, ts[i].hi, ts[i].pcb, ts[i].pcb + 20))
    && (forall i, j :: 0 <= i < |ts| && 0 <= j < |ts| && i != j ==> Apart(ts[i], ts[j]))
  }

  /** Every word a thread owns lies in one of these blocks. */
  ghost predicate InBlocks(ts: seq<Thread>, blocks: set<nat>) {
    forall i, a: nat :: 0 <= i < |ts| && Owns(ts[i], a) ==> a / 4096 in blocks
  }

  function After(i: nat, n: nat): nat {
    if i + 1 == n then 0 else i + 1
  }

  /** The control blocks form one cycle, in creation order, starting at the queue's head. */
  ghost predicate Ring(m: Mem, queue: int, ts: seq<Thread>) {
    && |ts| > 0 && queue == ts[0].pcb
    && forall i :: 0 <= i < |ts| ==> Next(m, ts[i].pcb) == ts[After(i, |ts|)].pcb
  }

  ghost predicate Numbered(m: Mem, ts: seq<Thread>) {
    forall i :: 0 <= i < |ts| ==> Id(m, ts[i].pcb) == i + 1
  }

  /** The cpu runs th's own code at ring 0, with stack space left for a trip through the kernel. */
  ghost predicate AtThread(k: Layout, th: Thread, c: Cpu) {
    && th.lo + Room(k) <= c.esp <= th.hi && !InKernelPath(k, c.eip)
    && c.cs == 8 && c.ds == c.es == c.fs == c.gs && 0 <= c.ds < 0x1_0000
  }

  const KERNEL_CPU: Cpu := Cpu(0, 0, 0, 0, 0, 0, 0, 0, 0, 0, 8, 0x10, 0x10, 0x10, 0x10, 0)

  const NO_SCRATCH: Scratch := Scratch(0, 0, 0, 0, 0, 0, 0, map[])

  /** Switching to th and running on would bring it back to its own code, inside its own stack. */
  ghost predicate Suspended(k: Layout, m: Mem, th: Thread) {
    && th.lo <= SavedEsp(m, th.pcb)
    && AtThread(k, th, Unwind(k, LoadContext(KERNEL_CPU, m, SavedEsp(m, th.pcb), 0), m, NO_SCRATCH))
  }

  // ---------------------------------------------------------------- unwinding depends on the stack above esp only

  /** Equal as far as where they run and on which stack. */
  predicate Alike(c: Cpu, c': Cpu) {
    c.esp == c'.esp && c.eip == c'.eip && Ring0(c) && Ring0(c')
  }

  lemma LeaveAlike(c: Cpu, c': Cpu, m: Mem, words: nat, x: Scratch, x': Scratch)
    requires Alike(c, c')
    ensures Alike(Leave(c, m, words, x), Leave(c', m, words, x'))
  {}

  lemma UnwindLands(k: Layout, th: Thread, c: Cpu, c': Cpu, m: Mem, x: Scratch, x': Scratch)
    requires Alike(c, c')
    ensures AtThread(k, th, Unwind(k, c, m, x)) <==> AtThread(k, th, Unwind(k, c', m, x'))
  {
    LeaveAlike(c, c', m, k.schedLocals + 3, x, x');
    var c1, c1' := LeaveSched(k, c, m, x), LeaveSched(k, c', m, x');
    LeaveAlike(c1, c1', m, k.pitLocals, x, x');
    var c2, c2' := LeavePit(k, c1, m, x), LeavePit(k, c1', m, x');
    LeaveAlike(c2, c2', m, k.irqLocals, x, x');
    StubLands(k, th, LeaveIrq(k, c2, m, x), LeaveIrq(k, c2', m, x'), m);
  }

  lemma StubLands(k: Layout, th: Thread, c: Cpu, c': Cpu, m: Mem)
    requires Alike(c, c')
    ensures AtThread(k, th, LeaveStub(k, c, m)) <==> AtThread(k, th, LeaveStub(k, c', m))
  {}

  lemma UnwindReads(k: Layout, c: Cpu, m: Mem, m': Mem, x: Scratch, hi: int)
    requires SameOn(m, m', c.esp, hi) && Unwind(k, c, m, x).esp <= hi
    ensures Unwind(k, c, m', x) == Unwind(k, c, m, x) && c.esp <= Unwind(k, c, m, x).esp
  {
    var c1 := LeaveSched(k, c, m, x);
    var c2 := LeavePit(k, c1, m, x);
    var c3 := LeaveIrq(k, c2, m, x);
    var c4 := LeaveStub(k, c3, m);
    assert c.esp <= c1.esp <= c2.esp <= c3.esp <= c4.esp;
    assert LeaveSched(k, c, m', x) == c1;
    assert LeavePit(k, c1, m', x) == c2;
    assert LeaveIrq(k, c2, m', x) == c3;
  }

  /** As long as th's saved stack pointer and the stack above it are untouched, th stays suspended as it was. */
  lemma SuspendedKept(k: Layout, m: Mem, m': Mem, th: Thread)
    requires Suspended(k, m, th)
    requires SameOn(m, m', th.lo, th.hi) && SavedEsp(m', th.pcb) == SavedEsp(m, th.pcb)
    ensures Suspended(k, m', th)
  {
    var sp := SavedEsp(m, th.pcb);
    var c := LoadContext(KERNEL_CPU, m, sp, 0);
    UnwindReads(k, c, m, m, NO_SCRATCH, th.hi);
    UnwindReads(k, c, m, m', NO_SCRATCH, th.hi);
  }

  // ---------------------------------------------------------------- runs

  /** The kernel with its threads in creation order; ts[cur] is running its own code. */
  datatype Config = Config(s: Kernel, ts: seq<Thread>, cur: nat)

  ghost predicate LayoutOk(k: Layout) {
    Distinct(k) && Room(k) <= 4092
  }

  /** The run queue: one cycle through all control blocks in creation order, numbered from 1. */
  ghost predicate Queue(c: Config) {
    && Shape(c.ts) && Ring(c.s.core.mem, c.s.queue, c.ts) && Numbered(c.s.core.mem, c.ts)
    && c.s.nextPid == |c.ts| + 1 && Accounted(c)
  }

  ghost predicate OthersSuspended(k: Layout, c: Config) {
    forall i :: 0 <= i < |c.ts| && i != c.cur ==> Suspended(k, c.s.core.mem, c.ts[i])
  }

  /** What holds between any two events of a run. What threads own lies in pages that stand for themselves. */
  ghost predicate Inv(k: Layout, c: Config) {
    && LayoutOk(k) && Queue(c) && c.cur < |c.ts| && c.s.current == c.ts[c.cur].pcb
    && Directory(c.s.core.mem, c.ts[c.cur].pcb) == c.s.core.cpu.cr3
    && AtThread(k, c.ts[c.cur], c.s.core.cpu) && OthersSuspended(k, c) && InBlocks(c.ts, k.mapped)
  }

  /** Block 0 and every block a thread lives in are used; each thread but the first brought two. */
  ghost predicate Accounted(c: Config) {
    && c.s.used <= Pmm.Blocks(c.s.maxBlocks) && c.s.maxBlocks < 0x10_0000 && 0 in c.s.used
    && InBlocks(c.ts, c.s.used) && 2 * |c.ts| <= |c.s.used| + 1
  }

  /** Compute: the running thread executes code of its own. Tick: a timer interrupt. Yield: it calls
    * process_schedule. Create: it calls process_create_thread. Neither call is safe with interrupts on. */
  datatype Event = Compute(cpu: Cpu, mem: Mem) | Tick(x: Path) | Yield(x: Path) | Create(entry: int)

  /** Outside the stacks of the others and all control blocks, a thread may write what it likes. */
  ghost predicate Respects(c: Config, m: Mem) {
    forall i, a :: 0 <= i < |c.ts| && Owns(c.ts[i], a) && (i != c.cur || a < c.ts[i].lo || c.ts[i].hi <= a) ==>
      Read(m, a) == Read(c.s.core.mem, a)
  }

  ghost predicate Legal(k: Layout, c: Config, e: Event) {
    c.cur < |c.ts| &&
    match e
    case Compute(cpu, mem) => AtThread(k, c.ts[c.cur], cpu) && cpu.cr3 == c.s.core.cpu.cr3 && Respects(c, mem)
    case Tick(_) => InterruptsOn(c.s.core.cpu)
    case Yield(_) => !InterruptsOn(c.s.core.cpu)
    case Create(entry) =>
      && !InterruptsOn(c.s.core.cpu) && !InKernelPath(k, entry)
      && NextBlock(k, c.s.used, c.s.maxBlocks)
      && NextBlock(k, Pmm.AllocUsed(c.s.used, c.s.maxBlocks), c.s.maxBlocks)
  }

  /** There is a block to hand out, and it can be written with paging on. */
  predicate NextBlock(k: Layout, used: set<nat>, n: nat) {
    Pmm.FirstFree(used, n) < n && Pmm.FirstFree(used, n) in k.mapped
  }

  /** Whether the event enters process_schedule. */
  predicate Schedules(c: Config, e: Event) {
    e.Yield? || (e.Tick? && Quantum(NextTick(c.s.tick)))
  }

  function Apply(k: Layout, c: Config, e: Event): (c': Config)
    requires |c.ts| > 0
    ensures |c.ts| <= |c'.ts| && c'.ts[..|c.ts|] == c.ts
  {
    match e
    case Compute(cpu, mem) => c.(s := c.s.(core := Core(cpu, mem)))
    case Tick(x) =>
      Config(TimerTick(c.s, k, x), c.ts, if Schedules(c, e) then After(c.cur, |c.ts|) else c.cur)
    case Yield(x) => Config(CallSchedule(c.s, k, x), c.ts, After(c.cur, |c.ts|))
    case Create(entry) =>
      var used1 := Pmm.AllocUsed(c.s.used, c.s.maxBlocks);
      var proc, base := Pmm.AllocAddress(c.s.used, c.s.maxBlocks), Pmm.AllocAddress(used1, c.s.maxBlocks);
      Config(CreateThread(c.s, k, entry, c.ts[|c.ts| - 1].pcb), c.ts + [Thread(proc, base, base + 4096)], c.cur)
  }

  // ---------------------------------------------------------------- one trip through process_schedule

  /** The kernel at process_schedule's first instruction. */
  function Entry(s: Kernel, k: Layout, e: Event): Kernel
    requires e.Tick? || e.Yield?
  {
    match e
    case Tick(x) => var t := Callback(s, k, x); t.(core := Push(t.core, k.retPit))
    case Yield(x) => s.(core := Push(s.core, s.core.cpu.eip))
  }

  /** Only the running thread's own stack has been written on the way in, and there is room for the rest. */
  ghost predicate Ready(k: Layout, c: Config, q: Kernel) {
    && c.cur < |c.ts| && q == c.s.(core := q.core, tick := q.tick)
    && c.ts[c.cur].lo + SwitchDepth(k) <= q.core.cpu.esp < c.s.core.cpu.esp
    && Within(c.s.core.mem, q.core.mem, q.core.cpu.esp, c.s.core.cpu.esp)
    && Ring0(q.core.cpu) && q.core.cpu.cr3 == c.s.core.cpu.cr3
  }

  /** What process_schedule finds on the stack: the return into pit_callback over an interrupted thread, or into
    * the thread that called it. */
  ghost predicate EntryOk(k: Layout, c: Config, e: Event, q: Kernel) {
    && Ready(k, c, q) && (e.Tick? || e.Yield?)
    && (e.Tick? ==> q.core.cpu.esp == c.s.core.cpu.esp - SchedDepth(k) && Interrupted(k, q.core.mem, c.s.core.cpu)
                    && Read(q.core.mem, q.core.cpu.esp) == k.retPit
                    && q.core.cpu.eflags == ClearIF(c.s.core.cpu.eflags))
    && (e.Yield? ==> q.core.cpu == c.s.core.cpu.(esp := c.s.core.cpu.esp - 4)
                     && Read(q.core.mem, q.core.cpu.esp) == c.s.core.cpu.eip)
  }

  lemma EntryIsOk(k: Layout, c: Config, e: Event)
    requires Inv(k, c) && (e.Tick? || e.Yield?)
    ensures EntryOk(k, c, e, Entry(c.s, k, e))
  {
    if e.Tick? {
      TickReady(c.s.core, k, e.x);
    }
  }

  lemma TickReady(s: Core, k: Layout, x: Path)
    requires Ring0(s.cpu)
    ensures var t := InPit(s, k, 0, 32, x.irq, x.pit);
      var u := Push(t, k.retPit);
      && u.cpu.esp == s.cpu.esp - SchedDepth(k) && Within(s.mem, u.mem, u.cpu.esp, s.cpu.esp)
      && Interrupted(k, u.mem, s.cpu) && Read(u.mem, u.cpu.esp) == k.retPit
      && Ring0(u.cpu) && u.cpu.cr3 == s.cpu.cr3 && u.cpu.eflags == ClearIF(s.cpu.eflags)
  {
    PitWrites(s, k, 0, 32, x.irq, x.pit);
    var t, d := InPit(s, k, 0, 32, x.irq, x.pit), s.cpu.esp - SchedDepth(k);
    PushWrites(t, k.retPit, d);
    TickLayers(s, k, t.mem, Push(t, k.retPit).mem, s.cpu.esp, d);
  }

  lemma TickLayers(s: Core, k: Layout, m1: Mem, m2: Mem, e: int, d: int)
    requires e == s.cpu.esp && d == e - SchedDepth(k)
    requires Within(s.mem, m1, d + 4, e) && Interrupted(k, m1, s.cpu) && Within(m1, m2, d, d + 4)
    ensures Within(s.mem, m2, d, e) && Interrupted(k, m2, s.cpu)
  {
    assert forall a :: a >= d + 4 ==> Read(m2, a) == Read(m1, a);
  }

  /** The control blocks still read as they did when the thread left its own code. */
  lemma BlocksKept(k: Layout, c: Config, q: Kernel, x: Scratch, i: nat)
    requires Shape(c.ts) && Ready(k, c, q) && c.s.core.cpu.esp <= c.ts[c.cur].hi && i < |c.ts|
    ensures var m, pcb := Enter(q.core, k.schedLocals, x).mem, c.ts[i].pcb;
      && Next(m, pcb) == Next(c.s.core.mem, pcb) && SavedEsp(m, pcb) == SavedEsp(c.s.core.mem, pcb)
      && Directory(m, pcb) == Directory(c.s.core.mem, pcb) && KernelStack(m, pcb) == KernelStack(c.s.core.mem, pcb)
  {
    var th, e := c.ts[c.cur], q.core.cpu.esp;
    EnterWrites(q.core, k.schedLocals, x, e - SwitchDepth(k) + 32, e);
    if i != c.cur {
      assert Apart(th, c.ts[i]);
    }
  }

  lemma ScheduleIs(k: Layout, c: Config, q: Kernel, x: Scratch)
    requires Inv(k, c) && Ready(k, c, q) && |c.ts| > 1
    ensures var m0, th, nx := c.s.core.mem, c.ts[c.cur], c.ts[After(c.cur, |c.ts|)];
      && SwitchCall(q, k, x) == Depart(q.core, k, x, th.pcb + 4, SavedEsp(m0, nx.pcb), Directory(m0, nx.pcb))
      && Schedule(q, k, x) == q.(core := Switch(SwitchCall(q, k, x)), current := nx.pcb,
                                 tssEsp0 := KernelStack(m0, nx.pcb))
  {
    var m0, nx := c.s.core.mem, c.ts[After(c.cur, |c.ts|)];
    BlocksKept(k, c, q, x, c.cur);
    BlocksKept(k, c, q, x, After(c.cur, |c.ts|));
    assert Apart(c.ts[c.cur], nx);
    ScheduleShape(q, k, x, nx.pcb, SavedEsp(m0, nx.pcb), Directory(m0, nx.pcb), KernelStack(m0, nx.pcb));
  }

  lemma ScheduleShape(q: Kernel, k: Layout, x: Scratch, next: int, esp: int, cr3: int, stack: int)
    requires var m := Enter(q.core, k.schedLocals, x).mem;
      && next == Next(m, q.current)
      && esp == SavedEsp(m, next) && cr3 == Directory(m, next) && stack == KernelStack(m, next)
    requires q.current != 0 && next != q.current
    ensures SwitchCall(q, k, x) == Depart(q.core, k, x, q.current + 4, esp, cr3)
    ensures Schedule(q, k, x) == q.(core := Switch(SwitchCall(q, k, x)), current := next, tssEsp0 := stack)
  {}

  /** The running thread has been parked and the next one's stack taken. */
  ghost predicate Departed(k: Layout, c: Config, q: Kernel, u: Core, t: Core) {
    && c.cur < |c.ts| &&
    var nx := c.ts[After(c.cur, |c.ts|)];
    Switched(q.core, k, u, t, c.ts[c.cur].pcb + 4, SavedEsp(c.s.core.mem, nx.pcb), Directory(c.s.core.mem, nx.pcb))
  }

  lemma ScheduleSwitches(k: Layout, c: Config, q: Kernel, x: Scratch)
    requires Inv(k, c) && Ready(k, c, q) && |c.ts| > 1
    ensures Departed(k, c, q, SwitchCall(q, k, x), Schedule(q, k, x).core)
  {
    var u, t := SwitchCall(q, k, x), Schedule(q, k, x).core;
    ScheduleIs(k, c, q, x);
    EntryBounds(k, c, q);
    CallDeparts(k, c, q, x, u, t);
  }

  lemma CallDeparts(k: Layout, c: Config, q: Kernel, x: Scratch, u: Core, t: Core)
    requires c.cur < |c.ts| && Ring0(q.core.cpu)
    requires var th := c.ts[c.cur];
      Clear(th.lo, th.hi, th.pcb, th.pcb + 20) && th.lo + SwitchDepth(k) <= q.core.cpu.esp < th.hi
    requires var m0, nx := c.s.core.mem, c.ts[After(c.cur, |c.ts|)];
      u == Depart(q.core, k, x, c.ts[c.cur].pcb + 4, SavedEsp(m0, nx.pcb), Directory(m0, nx.pcb))
    requires t == Switch(u)
    ensures Departed(k, c, q, u, t)
  {
    var m0, th, nx := c.s.core.mem, c.ts[c.cur], c.ts[After(c.cur, |c.ts|)];
    CallSwitches(q.core, k, x, u, th, SavedEsp(m0, nx.pcb), Directory(m0, nx.pcb));
  }

  lemma EntryBounds(k: Layout, c: Config, q: Kernel)
    requires Inv(k, c) && Ready(k, c, q)
    ensures var th := c.ts[c.cur];
      Clear(th.lo, th.hi, th.pcb, th.pcb + 20) && th.lo + SwitchDepth(k) <= q.core.cpu.esp < th.hi
  {}

  lemma CallSwitches(q: Core, k: Layout, x: Scratch, u: Core, th: Thread, esp: int, cr3: int)
    requires u == Depart(q, k, x, th.pcb + 4, esp, cr3) && Ring0(q.cpu)
    requires Clear(th.lo, th.hi, th.pcb, th.pcb + 20) && th.lo + SwitchDepth(k) <= q.cpu.esp < th.hi
    ensures Switched(q, k, u, Switch(u), th.pcb + 4, esp, cr3)
  {
    DepartWrites(q, k, x, th.pcb + 4, esp, cr3);
    SwitchSwitches(q, k, u, th.pcb + 4, esp, cr3);
  }

  /** Nothing is written but the running thread's own stack and the esp word of its control block. */
  ghost predicate OwnOnly(c: Config, m: Mem) {
    c.cur < |c.ts| && forall a :: !(c.ts[c.cur].lo <= a < c.ts[c.cur].hi) && a != c.ts[c.cur].pcb + 4 ==>
      Read(m, a) == Read(c.s.core.mem, a)
  }

  lemma OthersKept(k: Layout, c: Config, m: Mem, i: nat)
    requires Shape(c.ts) && OwnOnly(c, m) && i < |c.ts| && i != c.cur
    ensures SameOn(c.s.core.mem, m, c.ts[i].lo, c.ts[i].hi)
    ensures SavedEsp(m, c.ts[i].pcb) == SavedEsp(c.s.core.mem, c.ts[i].pcb)
    ensures Suspended(k, c.s.core.mem, c.ts[i]) ==> Suspended(k, m, c.ts[i])
  {
    assert Apart(c.ts[c.cur], c.ts[i]);
    if Suspended(k, c.s.core.mem, c.ts[i]) {
      SuspendedKept(k, c.s.core.mem, m, c.ts[i]);
    }
  }

  lemma BlockWordsKept(c: Config, m: Mem, i: nat)
    requires Shape(c.ts) && OwnOnly(c, m) && i < |c.ts|
    ensures var m0, pcb := c.s.core.mem, c.ts[i].pcb;
      Id(m, pcb) == Id(m0, pcb) && Directory(m, pcb) == Directory(m0, pcb) && Next(m, pcb) == Next(m0, pcb)
      && KernelStack(m, pcb) == KernelStack(m0, pcb)
  {
    assert i != c.cur ==> Apart(c.ts[c.cur], c.ts[i]);
  }

  lemma QueueKept(c: Config, c': Config)
    requires Queue(c) && c'.ts == c.ts && c.cur < |c.ts| && OwnOnly(c, c'.s.core.mem)
    requires c'.s == c.s.(core := c'.s.core, current := c'.s.current, tick := c'.s.tick, tssEsp0 := c'.s.tssEsp0)
    ensures Queue(c')
  {
    var m := c'.s.core.mem;
    forall i | 0 <= i < |c.ts|
      ensures Id(m, c.ts[i].pcb) == i + 1 && Next(m, c.ts[i].pcb) == c.ts[After(i, |c.ts|)].pcb
    {
      BlockWordsKept(c, m, i);
    }
  }

  /** The invariant after an event that creates nothing, from what the event did to the memory and the cpu. */
  lemma InvKept(k: Layout, c: Config, c': Config)
    requires Inv(k, c) && c'.ts == c.ts && c'.cur < |c.ts| && OwnOnly(c, c'.s.core.mem)
    requires c'.s == c.s.(core := c'.s.core, current := c.ts[c'.cur].pcb, tick := c'.s.tick, tssEsp0 := c'.s.tssEsp0)
    requires AtThread(k, c.ts[c'.cur], c'.s.core.cpu)
    requires c'.s.core.cpu.cr3 == Directory(c.s.core.mem, c.ts[c'.cur].pcb)
    requires c'.cur != c.cur ==> Suspended(k, c'.s.core.mem, c.ts[c.cur])
    ensures Inv(k, c')
  {
    var m := c'.s.core.mem;
    QueueKept(c, c');
    BlockWordsKept(c, m, c'.cur);
    forall i | 0 <= i < |c.ts| && i != c'.cur
      ensures Suspended(k, m, c.ts[i])
    {
      if i != c.cur {
        OthersKept(k, c, m, i);
      }
    }
  }

  /** A parked thread is suspended: a preempted one at the very cpu state it was interrupted in. */
  lemma ParkedIsSuspended(k: Layout, c: Config, e: Event, q: Kernel, m: Mem)
    requires Distinct(k) && EntryOk(k, c, e, q) && AtThread(k, c.ts[c.cur], c.s.core.cpu)
    requires Clear(c.ts[c.cur].lo, c.ts[c.cur].hi, c.ts[c.cur].pcb, c.ts[c.cur].pcb + 20)
    requires Parked(k, m, q.core, q.core.cpu.esp - SwitchDepth(k))
    requires SavedEsp(m, c.ts[c.cur].pcb) == q.core.cpu.esp - SwitchDepth(k)
    requires forall a :: a >= q.core.cpu.esp && a != c.ts[c.cur].pcb + 4 ==> Read(m, a) == Read(q.core.mem, a)
    ensures Suspended(k, m, c.ts[c.cur])
  {
    if e.Tick? {
      InterruptedKept(k, q.core.mem, m, c.s.core.cpu, c.ts[c.cur]);
      PreemptedReturns(k, m, c.s.core.cpu, q.core, KERNEL_CPU, 0, NO_SCRATCH);
    } else {
      CallerReturns(k, c.ts[c.cur], c.s.core.cpu, q.core, m);
    }
  }

  lemma CallerReturns(k: Layout, th: Thread, c: Cpu, q: Core, m: Mem)
    requires AtThread(k, th, c) && q.cpu.esp == c.esp - 4 && Read(q.mem, q.cpu.esp) == c.eip
    requires Parked(k, m, q, q.cpu.esp - SwitchDepth(k)) && SavedEsp(m, th.pcb) == q.cpu.esp - SwitchDepth(k)
    ensures Suspended(k, m, th)
  {
    ParkedReturns(k, m, q, q.cpu.esp - SwitchDepth(k), KERNEL_CPU, 0, NO_SCRATCH);
  }

  lemma InterruptedKept(k: Layout, m: Mem, m': Mem, c: Cpu, th: Thread)
    requires Interrupted(k, m, c) && th.lo + Room(k) <= c.esp <= th.hi && Clear(th.lo, th.hi, th.pcb, th.pcb + 20)
    requires forall a :: c.esp - SchedDepth(k) <= a < th.hi && a != th.pcb + 4 ==> Read(m', a) == Read(m, a)
    ensures Interrupted(k, m', c)
  {}

  lemma ApplyIsTrip(k: Layout, c: Config, e: Event)
    requires |c.ts| > 0 && Schedules(c, e)
    ensures Apply(k, c, e) ==
      Config(Finish(Schedule(Entry(c.s, k, e), k, e.x.sched), k, e.x.back), c.ts, After(c.cur, |c.ts|))
  {
    if e.Tick? {
      TickIsPit(c.s, k, e.x);
    }
  }

  lemma DepartedOwnOnly(k: Layout, c: Config, q: Kernel, u: Core, t: Core)
    requires Inv(k, c) && Ready(k, c, q) && Departed(k, c, q, u, t)
    ensures OwnOnly(c, t.mem)
  {}

  /** Whoever comes next runs on in its own code, on its own page directory. */
  lemma NextRuns(k: Layout, c: Config, q: Kernel, u: Core, t: Core, x: Scratch)
    requires Inv(k, c) && Ready(k, c, q) && |c.ts| > 1 && Departed(k, c, q, u, t)
    ensures var nx, cpu := c.ts[After(c.cur, |c.ts|)], Unwind(k, t.cpu, t.mem, x);
      AtThread(k, nx, cpu) && cpu.cr3 == Directory(c.s.core.mem, nx.pcb)
  {
    var j := After(c.cur, |c.ts|);
    DepartedOwnOnly(k, c, q, u, t);
    OthersKept(k, c, t.mem, j);
    UnwindLands(k, c.ts[j], LoadContext(KERNEL_CPU, t.mem, SavedEsp(t.mem, c.ts[j].pcb), 0), t.cpu, t.mem,
                NO_SCRATCH, x);
    UnwindKeepsCr3(k, t.cpu, t.mem, x);
  }

  lemma UnwindKeepsCr3(k: Layout, c: Cpu, m: Mem, x: Scratch)
    ensures Unwind(k, c, m, x).cr3 == c.cr3
  {}

  /** A trip that switches: the thread that leaves is suspended, the next one runs. */
  ghost predicate Exchanged(k: Layout, c: Config, q: Kernel, f: Kernel) {
    && c.cur < |c.ts| &&
    var nx := c.ts[After(c.cur, |c.ts|)];
    && OwnOnly(c, f.core.mem) && Suspended(k, f.core.mem, c.ts[c.cur])
    && f == q.(core := f.core, current := nx.pcb, tssEsp0 := KernelStack(c.s.core.mem, nx.pcb))
    && AtThread(k, nx, f.core.cpu) && f.core.cpu.cr3 == Directory(c.s.core.mem, nx.pcb)
  }

  lemma TripSwitches(k: Layout, c: Config, e: Event, q: Kernel)
    requires Inv(k, c) && EntryOk(k, c, e, q) && |c.ts| > 1
    ensures Exchanged(k, c, q, Finish(Schedule(q, k, e.x.sched), k, e.x.back))
  {
    var t, u := Schedule(q, k, e.x.sched), SwitchCall(q, k, e.x.sched);
    ScheduleIs(k, c, q, e.x.sched);
    ScheduleSwitches(k, c, q, e.x.sched);
    TripExchanges(k, c, e, q, u, t, e.x.back);
  }

  lemma TripExchanges(k: Layout, c: Config, e: Event, q: Kernel, u: Core, t: Kernel, x: Scratch)
    requires Inv(k, c) && EntryOk(k, c, e, q) && |c.ts| > 1 && Departed(k, c, q, u, t.core)
    requires var nx := c.ts[After(c.cur, |c.ts|)];
      t == q.(core := t.core, current := nx.pcb, tssEsp0 := KernelStack(c.s.core.mem, nx.pcb))
    ensures Exchanged(k, c, q, Finish(t, k, x))
  {
    LeaverSuspended(k, c, e, q, u, t.core);
    DepartedOwnOnly(k, c, q, u, t.core);
    NextRuns(k, c, q, u, t.core, x);
  }

  lemma LeaverSuspended(k: Layout, c: Config, e: Event, q: Kernel, u: Core, t: Core)
    requires Inv(k, c) && EntryOk(k, c, e, q) && Departed(k, c, q, u, t)
    ensures Suspended(k, t.mem, c.ts[c.cur])
  {
    EntryBounds(k, c, q);
    DepartedParks(k, c, q, u, t);
    ParkedIsSuspended(k, c, e, q, t.mem);
  }

  lemma DepartedParks(k: Layout, c: Config, q: Kernel, u: Core, t: Core)
    requires Departed(k, c, q, u, t)
    ensures Parked(k, t.mem, q.core, q.core.cpu.esp - SwitchDepth(k))
    ensures SavedEsp(t.mem, c.ts[c.cur].pcb) == q.core.cpu.esp - SwitchDepth(k)
    ensures forall a :: a >= q.core.cpu.esp && a != c.ts[c.cur].pcb + 4 ==> Read(t.mem, a) == Read(q.core.mem, a)
  {}

  // ---------------------------------------------------------------- trips that stay

  lemma ScheduleStays(k: Layout, c: Config, q: Kernel, x: Scratch)
    requires Inv(k, c) && Ready(k, c, q) && |c.ts| == 1
    ensures var t := Enter(q.core, k.schedLocals, x);
      Schedule(q, k, x) == q.(core := Core(Leave(t.cpu, t.mem, k.schedLocals, x), t.mem))
  {
    BlocksKept(k, c, q, x, 0);
  }

  /** A tick that does not schedule, or finds no other thread, gives the interrupted thread its cpu back. */
  lemma TickStays(k: Layout, c: Config, e: Event)
    requires Inv(k, c) && Legal(k, c, e) && e.Tick? && (Schedules(c, e) ==> |c.ts| == 1)
    ensures var c', s := Apply(k, c, e), c.s.core;
      && c'.s == c.s.(core := c'.s.core, tick := NextTick(c.s.tick)) && c'.ts == c.ts && c'.cur == c.cur
      && c'.s.core.cpu == s.cpu
      && Within(s.mem, c'.s.core.mem, s.cpu.esp - Room(k), s.cpu.esp)
  {
    var s, x := c.s.core, e.x;
    TickIsPit(c.s, k, x);
    PitWrites(s, k, 0, 32, x.irq, x.pit);
    var t := InPit(s, k, 0, 32, x.irq, x.pit);
    if !Schedules(c, e) {
      PitLeaves(k, t.mem, s.cpu, t.cpu, x.pit, x.back);
    } else {
      var q := Entry(c.s, k, e);
      EntryIsOk(k, c, e);
      ApplyIsTrip(k, c, e);
      ScheduleStays(k, c, q, x.sched);
      StayingTick(k, c, e, q);
    }
  }

  lemma StayingTick(k: Layout, c: Config, e: Event, q: Kernel)
    requires Inv(k, c) && EntryOk(k, c, e, q) && e.Tick?
    ensures var t := Enter(q.core, k.schedLocals, e.x.sched);
      var s, f := c.s.core, Leave(t.cpu, t.mem, k.schedLocals, e.x.sched);
      Unwind(k, f, t.mem, e.x.back) == s.cpu && Within(s.mem, t.mem, s.cpu.esp - Room(k), s.cpu.esp)
  {
    var s, t := c.s.core, Enter(q.core, k.schedLocals, e.x.sched);
    EnterLeave(q.core, k.schedLocals, e.x.sched, e.x.sched);
    assert Interrupted(k, t.mem, s.cpu);
    PitLeaves(k, t.mem, s.cpu, Leave(t.cpu, t.mem, k.schedLocals, e.x.sched), e.x.pit, e.x.back);
  }

  /** Before process_initialize a call of process_schedule returns to its caller, registers and all, and changes nothing
    * but words below the caller's stack pointer. */
  lemma NothingToSchedule(q: Kernel, k: Layout, x: Scratch)
    requires q.current == 0
    ensures var t, e := Schedule(q, k, x), q.core.cpu.esp;
      && t == q.(core := t.core) && CalleeSaved(t.core.cpu, q.core.cpu.(eip := Read(q.core.mem, e), esp := e + 4))
      && t.core.cpu.eflags == q.core.cpu.eflags && Within(q.core.mem, t.core.mem, e - SwitchDepth(k), e)
  {
    EnterLeave(q.core, k.schedLocals, x, x);
  }

  /** With no other thread, a call of process_schedule is an ordinary call that returns. */
  lemma YieldStays(k: Layout, c: Config, e: Event)
    requires Inv(k, c) && e.Yield? && |c.ts| == 1
    ensures var c', s := Apply(k, c, e), c.s.core;
      && c'.s == c.s.(core := c'.s.core) && c'.ts == c.ts && c'.cur == c.cur
      && CalleeSaved(c'.s.core.cpu, s.cpu) && AtThread(k, c.ts[0], c'.s.core.cpu)
      && Within(s.mem, c'.s.core.mem, s.cpu.esp - Room(k), s.cpu.esp)
  {
    var q := Entry(c.s, k, e);
    EntryIsOk(k, c, e);
    ApplyIsTrip(k, c, e);
    ScheduleStays(k, c, q, e.x.sched);
    EnterLeave(q.core, k.schedLocals, e.x.sched, e.x.sched);
  }

  /** What a call preserves: the callee-saved registers, the stack pointer, where to go on, and the address space. */
  predicate CalleeSaved(c: Cpu, c0: Cpu) {
    && c.edi == c0.edi && c.esi == c0.esi && c.ebx == c0.ebx && c.ebp == c0.ebp
    && c.esp == c0.esp && c.eip == c0.eip && c.cr3 == c0.cr3
  }

  // ---------------------------------------------------------------- creating a thread

  lemma ClearOfBlock(lo: int, hi: int, b: nat, used: set<nat>)
    requires 0 <= lo < hi && b !in used && forall a: nat :: lo <= a < hi ==> a / 4096 in used
    ensures Clear(lo, hi, 4096 * b, 4096 * b + 4096)
  {
    var a := if lo < 4096 * b then 4096 * b else lo;
    assert lo <= a < hi ==> a / 4096 in used;
    assert 4096 * b <= a < 4096 * b + 4096 ==> a / 4096 == b;
  }

  /** A control block and a stack in two blocks nobody uses keep clear of every thread there is. */
  lemma NewApart(ts: seq<Thread>, used: set<nat>, i: nat, b: nat, b': nat)
    requires Shape(ts) && InBlocks(ts, used) && i < |ts| && b !in used && b' !in used
    ensures Apart(ts[i], Thread(4096 * b, 4096 * b', 4096 * b' + 4096))
  {
    var t := ts[i];
    assert forall a: nat :: t.lo <= a < t.hi || t.pcb <= a < t.pcb + 20 ==> Owns(t, a);
    ClearOfBlock(t.lo, t.hi, b, used);
    ClearOfBlock(t.lo, t.hi, b', used);
    ClearOfBlock(t.pcb, t.pcb + 20, b, used);
    ClearOfBlock(t.pcb, t.pcb + 20, b', used);
  }

  /** The thread an event creates, and the blocks it gets. */
  function NewThread(s: Kernel): Thread {
    var base := Pmm.AllocAddress(Pmm.AllocUsed(s.used, s.maxBlocks), s.maxBlocks);
    Thread(Pmm.AllocAddress(s.used, s.maxBlocks), base, base + 4096)
  }

  /** What process_create_thread writes: the new control block, the top of the new stack, and the tail's link. */
  ghost predicate Wrote(m0: Mem, m: Mem, th: Thread, pid: int, exit: int, entry: int, cr3: int, tail: int, queue: int) {
    && (forall a :: !Owns(th, a) && a != tail + 16 ==> Read(m, a) == Read(m0, a))
    && Next(m, tail) == th.pcb && Next(m, th.pcb) == queue && Id(m, th.pcb) == pid
    && SavedEsp(m, th.pcb) == th.hi - 24 && KernelStack(m, th.pcb) == th.hi && Directory(m, th.pcb) == cr3
    && Read(m, th.hi - 4) == exit && Read(m, th.hi - 8) == entry
    && Read(m, th.hi - 12) == 0 && Read(m, th.hi - 16) == 0 && Read(m, th.hi - 20) == 0 && Read(m, th.hi - 24) == 0
  }

  lemma CreateMemWrites(m0: Mem, th: Thread, pid: int, exit: int, entry: int, cr3: int, tail: int, queue: int)
    requires th.hi == th.lo + 4096 && Clear(th.lo, th.hi, th.pcb, th.pcb + 20)
    requires Clear(th.lo, th.hi, tail, tail + 20) && Clear(th.pcb, th.pcb + 20, tail, tail + 20)
    ensures Wrote(m0, CreateMem(m0, pid, th.pcb, th.hi, exit, entry, cr3, tail, queue), th, pid, exit, entry, cr3,
                  tail, queue)
  {
    var m := CreateMem(m0, pid, th.pcb, th.hi, exit, entry, cr3, tail, queue);
    CreateOwns(m0, th, pid, exit, entry, cr3, tail, queue, m);
    CreateBlock(m0, th, pid, exit, entry, cr3, tail, queue, m);
    CreateStack(m0, th, pid, exit, entry, cr3, tail, queue, m);
  }

  lemma CreateOwns(m0: Mem, th: Thread, pid: int, exit: int, entry: int, cr3: int, tail: int, queue: int, m: Mem)
    requires th.hi == th.lo + 4096 && m == CreateMem(m0, pid, th.pcb, th.hi, exit, entry, cr3, tail, queue)
    ensures forall a :: !Owns(th, a) && a != tail + 16 ==> Read(m, a) == Read(m0, a)
  {}

  lemma CreateBlock(m0: Mem, th: Thread, pid: int, exit: int, entry: int, cr3: int, tail: int, queue: int, m: Mem)
    requires th.hi == th.lo + 4096 && Clear(th.lo, th.hi, th.pcb, th.pcb + 20)
    requires Clear(th.pcb, th.pcb + 20, tail, tail + 20)
    requires m == CreateMem(m0, pid, th.pcb, th.hi, exit, entry, cr3, tail, queue)
    ensures Next(m, tail) == th.pcb && Next(m, th.pcb) == queue && Id(m, th.pcb) == pid
    ensures SavedEsp(m, th.pcb) == th.hi - 24 && KernelStack(m, th.pcb) == th.hi && Directory(m, th.pcb) == cr3
  {}

  lemma CreateStack(m0: Mem, th: Thread, pid: int, exit: int, entry: int, cr3: int, tail: int, queue: int, m: Mem)
    requires th.hi == th.lo + 4096 && Clear(th.lo, th.hi, th.pcb, th.pcb + 20)
    requires Clear(th.lo, th.hi, tail, tail + 20)
    requires m == CreateMem(m0, pid, th.pcb, th.hi, exit, entry, cr3, tail, queue)
    ensures Read(m, th.hi - 4) == exit && Read(m, th.hi - 8) == entry
    ensures Read(m, th.hi - 12) == 0 && Read(m, th.hi - 16) == 0 && Read(m, th.hi - 20) == 0 && Read(m, th.hi - 24) == 0
  {}

  ghost predicate Created(k: Layout, c: Config, entry: int, m: Mem, th: Thread) {
    && |c.ts| > 0
    && Wrote(c.s.core.mem, m, th, c.s.nextPid, k.threadExit, entry, c.s.core.cpu.cr3, c.ts[|c.ts| - 1].pcb, c.s.queue)
  }

  /** At pcb lies a process_t with these fields, in the order of process.h. */
  ghost predicate ProcessAt(m: Mem, pcb: int, id: int, esp: int, kernelStack: int, pageDirectory: int, next: int) {
    && Read(m, pcb) == id && Read(m, pcb + 4) == esp && Read(m, pcb + 8) == kernelStack
    && Read(m, pcb + 12) == pageDirectory && Read(m, pcb + 16) == next
  }

  /** The new control block, field by field, and the old tail's link to it. */
  lemma CreatedProcess(k: Layout, c: Config, entry: int, m: Mem, th: Thread)
    requires Created(k, c, entry, m, th)
    ensures ProcessAt(m, th.pcb, c.s.nextPid, th.hi - 24, th.hi, c.s.core.cpu.cr3, c.s.queue)
    ensures Read(m, c.ts[|c.ts| - 1].pcb + 16) == th.pcb
  {}

  /** The new thread's regions are its own, and so is the room in them. */
  ghost predicate Fresh(c: Config, th: Thread) {
    && (forall i :: 0 <= i < |c.ts| ==> Apart(c.ts[i], th)) && 0 < th.pcb && 0 < th.lo && th.hi == th.lo + 4096
    && Clear(th.lo, th.hi, th.pcb, th.pcb + 20)
  }

  lemma NewFresh(c: Config)
    requires Shape(c.ts) && Accounted(c)
    requires Pmm.FirstFree(c.s.used, c.s.maxBlocks) < c.s.maxBlocks
    requires Pmm.FirstFree(Pmm.AllocUsed(c.s.used, c.s.maxBlocks), c.s.maxBlocks) < c.s.maxBlocks
    ensures Fresh(c, NewThread(c.s))
  {
    var used, n := c.s.used, c.s.maxBlocks;
    var b, b' := Pmm.FirstFree(used, n), Pmm.FirstFree(Pmm.AllocUsed(used, n), n);
    assert b !in used && b' !in used && b != b';
    forall i: nat | i < |c.ts|
      ensures Apart(c.ts[i], NewThread(c.s))
    {
      NewApart(c.ts, used, i, b, b');
    }
  }

  lemma NewShape(c: Config)
    requires Shape(c.ts) && Accounted(c)
    requires Pmm.FirstFree(c.s.used, c.s.maxBlocks) < c.s.maxBlocks
    requires Pmm.FirstFree(Pmm.AllocUsed(c.s.used, c.s.maxBlocks), c.s.maxBlocks) < c.s.maxBlocks
    ensures var th := NewThread(c.s);
      var used := Pmm.AllocUsed(Pmm.AllocUsed(c.s.used, c.s.maxBlocks), c.s.maxBlocks);
      && Shape(c.ts + [th]) && InBlocks(c.ts + [th], used)
      && used <= Pmm.Blocks(c.s.maxBlocks) && 0 in used && |used| == |c.s.used| + 2
      && Fresh(c, th)
  {
    var used, n := c.s.used, c.s.maxBlocks;
    var b, b' := Pmm.FirstFree(used, n), Pmm.FirstFree(Pmm.AllocUsed(used, n), n);
    NewFresh(c);
    OwnBlocksOnly(NewThread(c.s), b, b');
    NewInBlocks(c.ts, NewThread(c.s), used, b, b');
  }

  lemma OwnBlocksOnly(th: Thread, b: nat, b': nat)
    requires th == Thread(4096 * b, 4096 * b', 4096 * b' + 4096)
    ensures forall a: nat :: Owns(th, a) ==> a / 4096 == b || a / 4096 == b'
  {}

  lemma NewInBlocks(ts: seq<Thread>, th: Thread, used: set<nat>, b: nat, b': nat)
    requires InBlocks(ts, used) && b !in used && b' !in used && b != b'
    requires forall a: nat :: Owns(th, a) ==> a / 4096 == b || a / 4096 == b'
    ensures InBlocks(ts + [th], used + {b} + {b'}) && |used + {b} + {b'}| == |used| + 2
  {}

  lemma ApplyIsCreate(k: Layout, c: Config, entry: int, th: Thread)
    requires |c.ts| > 0 && th == NewThread(c.s)
    ensures var c' := Apply(k, c, Create(entry));
      && c'.ts == c.ts + [th] && c'.cur == c.cur && c'.s.core.cpu == c.s.core.cpu
      && c'.s.core.mem == CreateMem(c.s.core.mem, c.s.nextPid, th.pcb, th.hi, k.threadExit, entry, c.s.core.cpu.cr3,
                                    c.ts[|c.ts| - 1].pcb, c.s.queue)
      && c'.s == c.s.(core := c'.s.core, nextPid := (c.s.nextPid + 1) % 0x1_0000_0000,
                      used := Pmm.AllocUsed(Pmm.AllocUsed(c.s.used, c.s.maxBlocks), c.s.maxBlocks))
  {}

  lemma CreateWrites(k: Layout, c: Config, entry: int, th: Thread)
    requires |c.ts| > 0 && Fresh(c, th)
    ensures var m := CreateMem(c.s.core.mem, c.s.nextPid, th.pcb, th.hi, k.threadExit, entry, c.s.core.cpu.cr3,
                               c.ts[|c.ts| - 1].pcb, c.s.queue);
      Created(k, c, entry, m, th)
  {
    var tail := c.ts[|c.ts| - 1];
    assert Apart(tail, th);
    CreateMemWrites(c.s.core.mem, th, c.s.nextPid, k.threadExit, entry, c.s.core.cpu.cr3, tail.pcb, c.s.queue);
  }

  /** The stack a new thread is given: switching to it reaches entry with the four registers zero, and entry's
    * return address is thread_exit. */
  lemma FreshContext(k: Layout, c: Config, entry: int, m: Mem, th: Thread, cpu: Cpu, cr3: int)
    requires Created(k, c, entry, m, th)
    ensures var f := LoadContext(cpu, m, SavedEsp(m, th.pcb), cr3);
      && f.edi == 0 && f.esi == 0 && f.ebx == 0 && f.ebp == 0 && f.eip == entry && f.esp == th.hi - 4
      && Read(m, f.esp) == k.threadExit && f.cr3 == cr3 && f.eflags == cpu.eflags
  {}

  lemma CreateKeeps(k: Layout, c: Config, entry: int, m: Mem, th: Thread, i: nat)
    requires Created(k, c, entry, m, th) && i < |c.ts| && Shape(c.ts) && Fresh(c, th)
    ensures var m0, t := c.s.core.mem, c.ts[i];
      && SameOn(m0, m, t.lo, t.hi) && SavedEsp(m, t.pcb) == SavedEsp(m0, t.pcb)
      && Directory(m, t.pcb) == Directory(m0, t.pcb) && Id(m, t.pcb) == Id(m0, t.pcb)
      && KernelStack(m, t.pcb) == KernelStack(m0, t.pcb)
      && (i < |c.ts| - 1 ==> Next(m, t.pcb) == Next(m0, t.pcb))
  {
    var t, last := c.ts[i], c.ts[|c.ts| - 1];
    assert Apart(t, th);
    if i != |c.ts| - 1 {
      assert Apart(t, last);
    }
  }

  lemma CreateRing(k: Layout, c: Config, entry: int, m: Mem, th: Thread)
    requires Shape(c.ts) && Ring(c.s.core.mem, c.s.queue, c.ts) && Numbered(c.s.core.mem, c.ts)
    requires c.s.nextPid == |c.ts| + 1 && Created(k, c, entry, m, th) && Fresh(c, th)
    ensures Ring(m, c.s.queue, c.ts + [th]) && Numbered(m, c.ts + [th])
  {
    forall i: nat | i < |c.ts|
      ensures Id(m, c.ts[i].pcb) == i + 1
      ensures i < |c.ts| - 1 ==> Next(m, c.ts[i].pcb) == c.ts[i + 1].pcb
    {
      CreateKeeps(k, c, entry, m, th, i);
      assert i < |c.ts| - 1 ==> After(i, |c.ts|) == i + 1;
    }
  }

  lemma CreateSuspends(k: Layout, c: Config, entry: int, m: Mem, th: Thread, i: nat)
    requires Inv(k, c) && Created(k, c, entry, m, th) && Fresh(c, th) && !InKernelPath(k, entry)
    requires i <= |c.ts| && i != c.cur
    ensures Suspended(k, m, (c.ts + [th])[i])
  {
    if i < |c.ts| {
      CreateKeeps(k, c, entry, m, th, i);
      SuspendedKept(k, c.s.core.mem, m, c.ts[i]);
    } else {
      FreshContext(k, c, entry, m, th, KERNEL_CPU, 0);
    }
  }

  lemma CreateInv(k: Layout, c: Config, entry: int)
    requires Inv(k, c) && Legal(k, c, Create(entry))
    ensures Inv(k, Apply(k, c, Create(entry)))
  {
    var c', th := Apply(k, c, Create(entry)), NewThread(c.s);
    NewShape(c);
    ApplyIsCreate(k, c, entry, th);
    CreateWrites(k, c, entry, th);
    CreateMapped(k, c, entry);
    Pmm.SubsetSize(c'.s.used, Pmm.Blocks(c.s.maxBlocks));
    CreatedInv(k, c, entry, c', th);
  }

  /** The new thread's regions are the two blocks, and these are mapped. */
  lemma CreateMapped(k: Layout, c: Config, entry: int)
    requires Inv(k, c) && Legal(k, c, Create(entry))
    ensures InBlocks(c.ts + [NewThread(c.s)], k.mapped)
  {
    var used, n := c.s.used, c.s.maxBlocks;
    var used1 := Pmm.AllocUsed(used, n);
    var b, b' := Pmm.FirstFree(used, n), Pmm.FirstFree(used1, n);
    OwnBlocksOnly(NewThread(c.s), b, b');
    BothIn(c.ts, NewThread(c.s), k.mapped, b, b');
  }

  lemma BothIn(ts: seq<Thread>, th: Thread, blocks: set<nat>, b: nat, b': nat)
    requires InBlocks(ts, blocks) && b in blocks && b' in blocks
    requires forall a: nat :: Owns(th, a) ==> a / 4096 == b || a / 4096 == b'
    ensures InBlocks(ts + [th], blocks)
  {}

  lemma CreatedInv(k: Layout, c: Config, entry: int, c': Config, th: Thread)
    requires InBlocks(c'.ts, k.mapped)
    requires Inv(k, c) && !InKernelPath(k, entry) && Fresh(c, th) && Created(k, c, entry, c'.s.core.mem, th)
    requires c'.ts == c.ts + [th] && c'.cur == c.cur && c'.s.core.cpu == c.s.core.cpu
    requires c'.s == c.s.(core := c'.s.core, nextPid := (c.s.nextPid + 1) % 0x1_0000_0000, used := c'.s.used)
    requires Shape(c'.ts) && InBlocks(c'.ts, c'.s.used) && c'.s.used <= Pmm.Blocks(c.s.maxBlocks) && 0 in c'.s.used
    requires |c'.s.used| == |c.s.used| + 2 <= c.s.maxBlocks
    ensures Inv(k, c')
  {
    var m := c'.s.core.mem;
    CreatedQueue(k, c, entry, c', th);
    CreateKeeps(k, c, entry, m, th, c.cur);
    forall i: nat | i < |c'.ts| && i != c.cur
      ensures Suspended(k, m, c'.ts[i])
    {
      CreateSuspends(k, c, entry, m, th, i);
    }
  }

  lemma CreatedQueue(k: Layout, c: Config, entry: int, c': Config, th: Thread)
    requires Queue(c) && Fresh(c, th) && Created(k, c, entry, c'.s.core.mem, th)
    requires c'.ts == c.ts + [th]
    requires c'.s == c.s.(core := c'.s.core, nextPid := (c.s.nextPid + 1) % 0x1_0000_0000, used := c'.s.used)
    requires Shape(c'.ts) && InBlocks(c'.ts, c'.s.used) && c'.s.used <= Pmm.Blocks(c.s.maxBlocks) && 0 in c'.s.used
    requires |c'.s.used| == |c.s.used| + 2 <= c.s.maxBlocks
    ensures Queue(c')
  {
    CreateRing(k, c, entry, c'.s.core.mem, th);
  }
}
