/** The stacks a thread leaves behind: the interrupt stub's frame, the frames of the C functions below it, and the
  * words switch_task pushes; and the way back through them. */
module Context {
  import opened Memory

  datatype Cpu = Cpu(eax: int, ecx: int, edx: int, ebx: int, esp: int, ebp: int, esi: int, edi: int,
                     eip: int, eflags: int, cs: int, ds: int, es: int, fs: int, gs: int, cr3: int)

  /** What is fixed before threads run. By the compiler and linker: the local words of each C function on the timer's
    * path (outgoing arguments of the first two included), and the return addresses of the calls on it. By the page
    * tables: the blocks whose pages stand for themselves, in the one address space all threads share. */
  datatype Layout = Layout(irqLocals: nat, pitLocals: nat, schedLocals: nat,
                           retStub: int, retIrq: int, retPit: int, retSched: int, threadExit: int, mapped: set<nat>)

  ghost predicate Distinct(k: Layout) {
    && k.retStub != k.retIrq && k.retStub != k.retPit && k.retStub != k.retSched
    && k.retIrq != k.retPit && k.retIrq != k.retSched && k.retPit != k.retSched
    && !InKernelPath(k, k.threadExit)
  }

  predicate InKernelPath(k: Layout, eip: int) {
    eip == k.retStub || eip == k.retIrq || eip == k.retPit || eip == k.retSched
  }

  /** Whatever a C function computes: register values, and words for its locals. */
  datatype Scratch = Scratch(eax: int, ecx: int, edx: int, ebx: int, ebp: int, esi: int, edi: int, locals: Mem)

  datatype Core = Core(cpu: Cpu, mem: Mem)

  // ---------------------------------------------------------------- calls, by the psABI's convention

  /** Pushes one word: an argument, or a return address as call does. */
  function Push(s: Core, v: int): Core {
    Core(s.cpu.(esp := s.cpu.esp - 4), s.mem[s.cpu.esp - 4 := v])
  }

  /** A C function's prologue and body up to its next call: callee-saved registers and locals go on the stack,
    * then every register but esp may hold anything. */
  function Enter(s: Core, words: nat, x: Scratch): Core {
    var e := s.cpu.esp;
    var m := s.mem[e - 4 := s.cpu.ebp][e - 8 := s.cpu.ebx][e - 12 := s.cpu.esi][e - 16 := s.cpu.edi];
    Core(s.cpu.(eax := x.eax, ecx := x.ecx, edx := x.edx, ebx := x.ebx, ebp := x.ebp, esi := x.esi, edi := x.edi,
                esp := e - 16 - 4 * words),
         Scribble(m, x.locals, e - 16 - 4 * words, e - 16))
  }

  /** The epilogue: drop the locals, restore the callee-saved registers, return. */
  function Leave(c: Cpu, m: Mem, words: nat, x: Scratch): Cpu {
    var b := c.esp + 4 * words;
    c.(edi := Read(m, b), esi := Read(m, b + 4), ebx := Read(m, b + 8), ebp := Read(m, b + 12),
       eip := Read(m, b + 16), esp := b + 20, eax := x.eax, ecx := x.ecx, edx := x.edx)
  }

  // ---------------------------------------------------------------- the interrupt stub

  predicate InterruptsOn(c: Cpu) {
    c.eflags / 0x200 % 2 == 1
  }

  function ClearIF(eflags: int): int {
    if eflags / 0x200 % 2 == 1 then eflags - 0x200 else eflags
  }

  /** A register after a move into its low half, as ax of eax. */
  function SetLow(a: int, low: int): int {
    a - a % 0x1_0000 + low
  }

  /** From the interrupt at ring 0 to the handler's first instruction: the processor pushes eflags, cs and eip,
    * the stub an error code, the vector, all registers and ds, then the frame's address and its return address. */
  function TrapEnter(s: Core, retStub: int, errCode: int, vector: int): Core {
    var c, e := s.cpu, s.cpu.esp;
    var axds := SetLow(c.eax, c.ds);
    Core(c.(eax := SetLow(axds, 0x10), ds := 0x10, es := 0x10, fs := 0x10, gs := 0x10,
            cs := 8, eflags := ClearIF(c.eflags), esp := e - 64),
         s.mem[e - 4 := c.eflags][e - 8 := c.cs][e - 12 := c.eip][e - 16 := errCode][e - 20 := vector]
              [e - 24 := c.eax][e - 28 := c.ecx][e - 32 := c.edx][e - 36 := c.ebx][e - 40 := e - 20]
              [e - 44 := c.ebp][e - 48 := c.esi][e - 52 := c.edi][e - 56 := axds][e - 60 := e - 56]
              [e - 64 := retStub])
  }

  /** From the handler's return (retStub popped) through iret. */
  function TrapExit(c: Cpu, m: Mem): Cpu {
    var p := c.esp + 4;
    var seg := Read(m, p) % 0x1_0000;
    Cpu(Read(m, p + 32), Read(m, p + 28), Read(m, p + 24), Read(m, p + 20), p + 56, Read(m, p + 12),
        Read(m, p + 8), Read(m, p + 4), Read(m, p + 44), Read(m, p + 52), Read(m, p + 48),
        seg, seg, seg, seg, c.cr3)
  }

  // ---------------------------------------------------------------- switch_task

  /** The first half: four pushes, and esp into the word the first argument points to. */
  function SaveContext(s: Core): Core {
    var p := s.cpu.esp;
    var m := s.mem[p - 4 := s.cpu.ebp][p - 8 := s.cpu.ebx][p - 12 := s.cpu.esi][p - 16 := s.cpu.edi];
    Core(s.cpu.(esp := p - 16), m[Read(m, p + 4) := p - 16])
  }

  /** The second half: another stack, another page directory, four pops and ret. */
  function LoadContext(c: Cpu, m: Mem, esp: int, cr3: int): Cpu {
    c.(edi := Read(m, esp), esi := Read(m, esp + 4), ebx := Read(m, esp + 8), ebp := Read(m, esp + 12),
       eip := Read(m, esp + 16), esp := esp + 20, cr3 := cr3, eax := cr3)
  }

  function Switch(s: Core): Core {
    var t, p := SaveContext(s), s.cpu.esp;
    Core(LoadContext(t.cpu, t.mem, Read(t.mem, p + 8), Read(t.mem, p + 12)), t.mem)
  }

  // ---------------------------------------------------------------- the way back to the thread

  function LeaveSched(k: Layout, c: Cpu, m: Mem, x: Scratch): Cpu {
    if c.eip == k.retSched then Leave(c, m, k.schedLocals + 3, x) else c
  }

  function LeavePit(k: Layout, c: Cpu, m: Mem, x: Scratch): Cpu {
    if c.eip == k.retPit then Leave(c, m, k.pitLocals, x) else c
  }

  function LeaveIrq(k: Layout, c: Cpu, m: Mem, x: Scratch): Cpu {
    if c.eip == k.retIrq then Leave(c, m, k.irqLocals, x) else c
  }

  function LeaveStub(k: Layout, c: Cpu, m: Mem): Cpu {
    if c.eip == k.retStub then TrapExit(c, m) else c
  }

  /** Runs on from eip through whatever is left of the kernel's path until a thread's own code is reached. */
  function Unwind(k: Layout, c: Cpu, m: Mem, x: Scratch): Cpu {
    LeaveStub(k, LeaveIrq(k, LeavePit(k, LeaveSched(k, c, m, x), m, x), m, x), m)
  }

  // ---------------------------------------------------------------- what each step writes

  ghost predicate Within(m: Mem, m': Mem, lo: int, hi: int) {
    forall a :: !(lo <= a < hi) ==> Read(m', a) == Read(m, a)
  }

  lemma EnterWrites(s: Core, words: nat, x: Scratch, lo: int, e: int)
    requires e == s.cpu.esp && lo == e - 16 - 4 * words
    ensures var t := Enter(s, words, x);
      && t.cpu.esp == lo && Within(s.mem, t.mem, lo, e)
      && Read(t.mem, e - 4) == s.cpu.ebp && Read(t.mem, e - 8) == s.cpu.ebx
      && Read(t.mem, e - 12) == s.cpu.esi && Read(t.mem, e - 16) == s.cpu.edi
  {}

  /** At address p lies the struct registers that a handler of a ring-0 interrupt is given: the fields of isr.h by
    * their offsets, for a cpu that was interrupted in state c. */
  ghost predicate RegistersAt(m: Mem, p: int, c: Cpu, errCode: int, vector: int) {
    && Read(m, p) % 0x1_0000 == c.ds
    && Read(m, p + 4) == c.edi && Read(m, p + 8) == c.esi && Read(m, p + 12) == c.ebp && Read(m, p + 16) == c.esp - 20
    && Read(m, p + 20) == c.ebx && Read(m, p + 24) == c.edx && Read(m, p + 28) == c.ecx && Read(m, p + 32) == c.eax
    && Read(m, p + 36) == vector && Read(m, p + 40) == errCode
    && Read(m, p + 44) == c.eip && Read(m, p + 48) == c.cs && Read(m, p + 52) == c.eflags && p + 56 == c.esp
  }

  /** t is at the first instruction of the C handler of an interrupt that found the cpu in state c: the handler will
    * return to the stub, its argument is the struct's address, the segments are the kernel's, interrupts are off. */
  ghost predicate AtHandler(t: Core, c: Cpu, retStub: int, errCode: int, vector: int) {
    && Read(t.mem, t.cpu.esp) == retStub && RegistersAt(t.mem, Read(t.mem, t.cpu.esp + 4), c, errCode, vector)
    && t.cpu.ds == t.cpu.es == t.cpu.fs == t.cpu.gs == 0x10 && t.cpu.cs == 8
    && t.cpu.eflags / 512 % 2 == 0 && t.cpu.eflags == c.eflags - c.eflags / 512 % 2 * 512
    && t.cpu.cr3 == c.cr3 && t.cpu.esp + 64 == c.esp
  }

  /** regs->int_no, read by a handler at its first instruction. */
  function IntNo(t: Core): int {
    Read(t.mem, Read(t.mem, t.cpu.esp + 4) + 36)
  }

  lemma TrapReachesHandler(s: Core, retStub: int, errCode: int, vector: int)
    requires 0 <= s.cpu.ds < 0x1_0000
    ensures AtHandler(TrapEnter(s, retStub, errCode, vector), s.cpu, retStub, errCode, vector)
  {
    var t, c, e := TrapEnter(s, retStub, errCode, vector), s.cpu, s.cpu.esp;
    var axds := SetLow(c.eax, c.ds);
    LowHalf(c.eax, c.ds);
    ClearIFClears(c.eflags);
    TrapMemory(s.mem, t.mem, c, e, axds, retStub, errCode, vector);
  }

  lemma ClearIFClears(eflags: int)
    ensures ClearIF(eflags) / 0x200 % 2 == 0
  {
    var q := eflags / 0x200;
    assert (eflags - 0x200) / 0x200 == q - 1;
  }

  lemma TrapMemory(m0: Mem, m: Mem, c: Cpu, e: int, axds: int, retStub: int, errCode: int, vector: int)
    requires m == m0[e - 4 := c.eflags][e - 8 := c.cs][e - 12 := c.eip][e - 16 := errCode][e - 20 := vector]
                    [e - 24 := c.eax][e - 28 := c.ecx][e - 32 := c.edx][e - 36 := c.ebx][e - 40 := e - 20]
                    [e - 44 := c.ebp][e - 48 := c.esi][e - 52 := c.edi][e - 56 := axds][e - 60 := e - 56]
                    [e - 64 := retStub]
    requires e == c.esp && axds % 0x1_0000 == c.ds
    ensures Read(m, e - 64) == retStub && Read(m, e - 60) == e - 56
    ensures RegistersAt(m, e - 56, c, errCode, vector)
  {
    var m1 := m0[e - 4 := c.eflags][e - 8 := c.cs][e - 12 := c.eip][e - 16 := errCode][e - 20 := vector]
                [e - 24 := c.eax][e - 28 := c.ecx][e - 32 := c.edx];
    TopWords(m0, m1, c, e, errCode, vector);
    BottomWords(m1, m, c, e, axds, retStub);
  }

  lemma TimerIntNo(s: Core, retStub: int, errCode: int, vector: int)
    ensures IntNo(TrapEnter(s, retStub, errCode, vector)) == vector
  {
    var c, e := s.cpu, s.cpu.esp;
    var axds := SetLow(c.eax, c.ds);
    TrapMemory(s.mem, TrapEnter(s, retStub, errCode, vector).mem, c.(ds := axds % 0x1_0000), e, axds, retStub,
               errCode, vector);
  }

  /** The words an interrupted thread's registers are kept in; e is its esp at the interrupt. */
  ghost predicate TrapFrame(k: Layout, m: Mem, c: Cpu) {
    var e := c.esp;
    && Read(m, e - 4) == c.eflags && Read(m, e - 8) == c.cs && Read(m, e - 12) == c.eip
    && Read(m, e - 24) == c.eax && Read(m, e - 28) == c.ecx && Read(m, e - 32) == c.edx && Read(m, e - 36) == c.ebx
    && Read(m, e - 44) == c.ebp && Read(m, e - 48) == c.esi && Read(m, e - 52) == c.edi
    && Read(m, e - 56) % 0x1_0000 == c.ds && Read(m, e - 64) == k.retStub
  }

  lemma TrapWrites(k: Layout, s: Core, errCode: int, vector: int)
    requires 0 <= s.cpu.ds < 0x1_0000
    ensures var m := TrapEnter(s, k.retStub, errCode, vector).mem;
      Within(s.mem, m, s.cpu.esp - 64, s.cpu.esp) && TrapFrame(k, m, s.cpu)
  {
    TrapWithin(k, s, errCode, vector);
    TrapWords(k, s, errCode, vector);
  }

  lemma TrapWithin(k: Layout, s: Core, errCode: int, vector: int)
    ensures Within(s.mem, TrapEnter(s, k.retStub, errCode, vector).mem, s.cpu.esp - 64, s.cpu.esp)
  {}

  lemma TrapWords(k: Layout, s: Core, errCode: int, vector: int)
    requires 0 <= s.cpu.ds < 0x1_0000
    ensures TrapFrame(k, TrapEnter(s, k.retStub, errCode, vector).mem, s.cpu)
  {
    var c, e := s.cpu, s.cpu.esp;
    var axds := SetLow(c.eax, c.ds);
    LowHalf(c.eax, c.ds);
    TrapMemory(s.mem, TrapEnter(s, k.retStub, errCode, vector).mem, c, e, axds, k.retStub, errCode, vector);
  }

  lemma TopWords(m0: Mem, m1: Mem, c: Cpu, e: int, errCode: int, vector: int)
    requires m1 == m0[e - 4 := c.eflags][e - 8 := c.cs][e - 12 := c.eip][e - 16 := errCode][e - 20 := vector]
                     [e - 24 := c.eax][e - 28 := c.ecx][e - 32 := c.edx]
    ensures Read(m1, e - 4) == c.eflags && Read(m1, e - 8) == c.cs && Read(m1, e - 12) == c.eip
    ensures Read(m1, e - 16) == errCode && Read(m1, e - 20) == vector
    ensures Read(m1, e - 24) == c.eax && Read(m1, e - 28) == c.ecx && Read(m1, e - 32) == c.edx
  {}

  lemma BottomWords(m1: Mem, m2: Mem, c: Cpu, e: int, axds: int, retStub: int)
    requires m2 == m1[e - 36 := c.ebx][e - 40 := e - 20][e - 44 := c.ebp][e - 48 := c.esi][e - 52 := c.edi]
                     [e - 56 := axds][e - 60 := e - 56][e - 64 := retStub]
    ensures Read(m2, e - 36) == c.ebx && Read(m2, e - 44) == c.ebp && Read(m2, e - 48) == c.esi
    ensures Read(m2, e - 40) == e - 20 && Read(m2, e - 52) == c.edi && Read(m2, e - 56) == axds
    ensures Read(m2, e - 60) == e - 56 && Read(m2, e - 64) == retStub
    ensures forall a :: a >= e - 32 ==> Read(m2, a) == Read(m1, a)
  {}

  lemma LowHalf(a: int, d: int)
    requires 0 <= d < 0x1_0000
    ensures SetLow(a, d) % 0x1_0000 == d
  {}

  /** The stub's frame gives back every register, eip and eflags; and the segment registers exactly when
    * es, fs and gs held what ds held. */
  lemma TrapRoundTrip(k: Layout, m: Mem, c: Cpu, c': Cpu)
    requires TrapFrame(k, m, c) && c'.esp == c.esp - 60
    ensures TrapExit(c', m).(es := c.es, fs := c.fs, gs := c.gs, cr3 := c.cr3) == c
    ensures TrapExit(c', m) == c.(cr3 := c'.cr3) <==> c.es == c.ds && c.fs == c.ds && c.gs == c.ds
  {}

  // ---------------------------------------------------------------- what a suspended stack looks like

  /** How far below an interrupted thread's esp pit_callback and process_schedule find their return addresses. */
  function PitDepth(k: Layout): int {
    64 + 16 + 4 * k.irqLocals + 4
  }

  function SchedDepth(k: Layout): int {
    PitDepth(k) + 16 + 4 * k.pitLocals + 4
  }

  /** From process_schedule's return address down to the esp that switch_task saves. */
  function SwitchDepth(k: Layout): int {
    16 + 4 * k.schedLocals + 16 + 16
  }

  /** The stack space the longest path through the kernel takes. */
  function Room(k: Layout): int {
    SchedDepth(k) + SwitchDepth(k)
  }

  /** A timer interrupt that found the cpu in state c is being handled: the frames of the stub and of irq_handler are
    * in place. */
  ghost predicate Interrupted(k: Layout, m: Mem, c: Cpu) {
    TrapFrame(k, m, c) && Read(m, c.esp - PitDepth(k)) == k.retIrq
  }

  lemma PushWrites(s: Core, v: int, at: int)
    requires at == s.cpu.esp - 4
    ensures var t := Push(s, v);
      t.cpu.esp == at && Within(s.mem, t.mem, at, at + 4) && Read(t.mem, at) == v
  {}

  /** From the interrupt to pit_callback's first instruction. */
  function InIrq(s: Core, k: Layout, errCode: int, vector: int, irq: Scratch): Core {
    Push(Enter(TrapEnter(s, k.retStub, errCode, vector), k.irqLocals, irq), k.retIrq)
  }

  lemma IrqWrites(s: Core, k: Layout, errCode: int, vector: int, irq: Scratch)
    requires 0 <= s.cpu.ds < 0x1_0000
    ensures var t := InIrq(s, k, errCode, vector, irq);
      && t.cpu.esp == s.cpu.esp - PitDepth(k)
      && Within(s.mem, t.mem, s.cpu.esp - PitDepth(k), s.cpu.esp)
      && Interrupted(k, t.mem, s.cpu)
      && t.cpu.cr3 == s.cpu.cr3 && t.cpu.cs == 8 && t.cpu.ds == t.cpu.es == t.cpu.fs == t.cpu.gs == 0x10
      && t.cpu.eflags == ClearIF(s.cpu.eflags)
  {
    var e := s.cpu.esp;
    var t1 := TrapEnter(s, k.retStub, errCode, vector);
    TrapWrites(k, s, errCode, vector);
    var t2 := Enter(t1, k.irqLocals, irq);
    var d := e - PitDepth(k);
    EnterWrites(t1, k.irqLocals, irq, d + 4, e - 64);
    PushWrites(t2, k.retIrq, d);
    IrqLayers(k, s, t1.mem, t2.mem, Push(t2, k.retIrq).mem, e, d);
  }

  lemma IrqLayers(k: Layout, s: Core, m1: Mem, m2: Mem, m3: Mem, e: int, d: int)
    requires e == s.cpu.esp && d == e - PitDepth(k)
    requires Within(s.mem, m1, e - 64, e) && TrapFrame(k, m1, s.cpu)
    requires Within(m1, m2, d + 4, e - 64) && Within(m2, m3, d, d + 4) && Read(m3, d) == k.retIrq
    ensures Within(s.mem, m3, d, e) && Interrupted(k, m3, s.cpu)
  {
    assert forall a :: a >= e - 64 ==> Read(m3, a) == Read(m2, a) == Read(m1, a);
    assert forall a :: a < d ==> Read(m3, a) == Read(m2, a) == Read(m1, a);
  }

  /** Inside pit_callback. */
  function InPit(s: Core, k: Layout, errCode: int, vector: int, irq: Scratch, pit: Scratch): Core {
    Enter(InIrq(s, k, errCode, vector, irq), k.pitLocals, pit)
  }

  lemma PitWrites(s: Core, k: Layout, errCode: int, vector: int, irq: Scratch, pit: Scratch)
    requires 0 <= s.cpu.ds < 0x1_0000
    ensures var t := InPit(s, k, errCode, vector, irq, pit);
      && t.cpu.esp == s.cpu.esp - SchedDepth(k) + 4
      && Within(s.mem, t.mem, s.cpu.esp - SchedDepth(k) + 4, s.cpu.esp)
      && Interrupted(k, t.mem, s.cpu)
      && t.cpu.cr3 == s.cpu.cr3 && t.cpu.cs == 8 && t.cpu.ds == t.cpu.es == t.cpu.fs == t.cpu.gs == 0x10
      && t.cpu.eflags == ClearIF(s.cpu.eflags)
  {
    IrqWrites(s, k, errCode, vector, irq);
    var t := InIrq(s, k, errCode, vector, irq);
    PitLayers(s, k, t, pit);
  }

  lemma PitLayers(s: Core, k: Layout, t: Core, pit: Scratch)
    requires t.cpu.esp == s.cpu.esp - PitDepth(k)
    requires Within(s.mem, t.mem, s.cpu.esp - PitDepth(k), s.cpu.esp) && Interrupted(k, t.mem, s.cpu)
    ensures var u := Enter(t, k.pitLocals, pit);
      && u.cpu.esp == s.cpu.esp - SchedDepth(k) + 4
      && Within(s.mem, u.mem, s.cpu.esp - SchedDepth(k) + 4, s.cpu.esp) && Interrupted(k, u.mem, s.cpu)
  {
    EnterWrites(t, k.pitLocals, pit, s.cpu.esp - SchedDepth(k) + 4, s.cpu.esp - PitDepth(k));
    var m := Enter(t, k.pitLocals, pit).mem;
    assert forall a :: a >= s.cpu.esp - PitDepth(k) ==> Read(m, a) == Read(t.mem, a);
  }

  /** Leaving pit_callback early or late, an interrupted thread gets back exactly the cpu it lost. */
  lemma PitReturns(k: Layout, m: Mem, c: Cpu, c': Cpu, x: Scratch)
    requires Distinct(k) && Interrupted(k, m, c) && !InKernelPath(k, c.eip)
    requires c.ds == c.es == c.fs == c.gs
    requires c'.esp == c.esp - PitDepth(k) + 4 && c'.eip == k.retIrq
    ensures Unwind(k, c', m, x) == c.(cr3 := c'.cr3)
  {
    var c1 := LeaveIrq(k, c', m, x);
    assert c1.eip == k.retStub && c1.esp == c.esp - 60;
    TrapRoundTrip(k, m, c, c1);
  }

  // ---------------------------------------------------------------- process_schedule's way into switch_task

  /** Up to the call of switch_task(slot, nextEsp, nextCr3). */
  function Depart(s: Core, k: Layout, x: Scratch, slot: int, nextEsp: int, nextCr3: int): Core {
    Push(Push(Push(Push(Enter(s, k.schedLocals, x), nextCr3), nextEsp), slot), k.retSched)
  }

  /** What switch_task leaves of a caller of process_schedule that was at q: its callee-saved registers as pushed by
    * process_schedule, and the return addresses. sp is the esp that was saved. */
  ghost predicate Parked(k: Layout, m: Mem, q: Core, sp: int) {
    && sp == q.cpu.esp - SwitchDepth(k)
    && Read(m, sp + 16) == k.retSched
    && Read(m, q.cpu.esp - 4) == q.cpu.ebp && Read(m, q.cpu.esp - 8) == q.cpu.ebx
    && Read(m, q.cpu.esp - 12) == q.cpu.esi && Read(m, q.cpu.esp - 16) == q.cpu.edi
    && Read(m, q.cpu.esp) == Read(q.mem, q.cpu.esp)
  }

  /** The words switch_task itself pushed for a caller that was at u. */
  ghost predicate Saved(m: Mem, u: Core) {
    var p := u.cpu.esp;
    && Read(m, p - 4) == u.cpu.ebp && Read(m, p - 8) == u.cpu.ebx
    && Read(m, p - 12) == u.cpu.esi && Read(m, p - 16) == u.cpu.edi && Read(m, p) == Read(u.mem, p)
  }

  /** u is at switch_task's first instruction, called from process_schedule, which was entered at q. */
  ghost predicate Called(q: Core, k: Layout, u: Core, slot: int, nextEsp: int, nextCr3: int) {
    var e := q.cpu.esp;
    && u.cpu.esp == e - SwitchDepth(k) + 16 && u.cpu.cr3 == q.cpu.cr3 && u.cpu.cs == q.cpu.cs
    && u.cpu.ds == q.cpu.ds && u.cpu.es == q.cpu.es && u.cpu.fs == q.cpu.fs && u.cpu.gs == q.cpu.gs
    && u.cpu.eflags == q.cpu.eflags
    && Within(q.mem, u.mem, e - SwitchDepth(k) + 16, e)
    && Read(u.mem, u.cpu.esp) == k.retSched && Read(u.mem, u.cpu.esp + 4) == slot
    && Read(u.mem, u.cpu.esp + 8) == nextEsp && Read(u.mem, u.cpu.esp + 12) == nextCr3
    && Read(u.mem, e - 4) == q.cpu.ebp && Read(u.mem, e - 8) == q.cpu.ebx
    && Read(u.mem, e - 12) == q.cpu.esi && Read(u.mem, e - 16) == q.cpu.edi
  }

  lemma DepartWrites(q: Core, k: Layout, x: Scratch, slot: int, nextEsp: int, nextCr3: int)
    ensures Called(q, k, Depart(q, k, x, slot, nextEsp, nextCr3), slot, nextEsp, nextCr3)
  {
    var e := q.cpu.esp;
    var lo := e - SwitchDepth(k) + 32;
    EnterWrites(q, k.schedLocals, x, lo, e);
    var s := Enter(q, k.schedLocals, x);
    FourPushes(s, nextCr3, nextEsp, slot, k.retSched, lo);
    DepartLayers(q, k, s, Depart(q, k, x, slot, nextEsp, nextCr3), slot, nextEsp, nextCr3, e, lo);
  }

  lemma FourPushes(s: Core, a: int, b: int, c: int, d: int, lo: int)
    requires lo == s.cpu.esp
    ensures var t := Push(Push(Push(Push(s, a), b), c), d);
      && t.cpu == s.cpu.(esp := lo - 16) && Within(s.mem, t.mem, lo - 16, lo)
      && Read(t.mem, lo - 4) == a && Read(t.mem, lo - 8) == b && Read(t.mem, lo - 12) == c && Read(t.mem, lo - 16) == d
  {}

  lemma DepartLayers(q: Core, k: Layout, s: Core, u: Core, slot: int, nextEsp: int, nextCr3: int, e: int, lo: int)
    requires e == q.cpu.esp && lo == e - SwitchDepth(k) + 32
    requires Within(q.mem, s.mem, lo, e) && Within(s.mem, u.mem, lo - 16, lo)
    requires Read(s.mem, e - 4) == q.cpu.ebp && Read(s.mem, e - 8) == q.cpu.ebx
    requires Read(s.mem, e - 12) == q.cpu.esi && Read(s.mem, e - 16) == q.cpu.edi
    requires u.cpu == s.cpu.(esp := lo - 16) && s.cpu.cr3 == q.cpu.cr3 && s.cpu.cs == q.cpu.cs && s.cpu.ds == q.cpu.ds
    requires s.cpu.es == q.cpu.es && s.cpu.fs == q.cpu.fs && s.cpu.gs == q.cpu.gs && s.cpu.eflags == q.cpu.eflags
    requires Read(u.mem, lo - 4) == nextCr3 && Read(u.mem, lo - 8) == nextEsp
    requires Read(u.mem, lo - 12) == slot && Read(u.mem, lo - 16) == k.retSched
    ensures Called(q, k, u, slot, nextEsp, nextCr3)
  {}

  /** What switch_task's first half leaves behind. */
  lemma SaveWrites(q: Core, k: Layout, u: Core, slot: int, nextEsp: int, nextCr3: int)
    requires Called(q, k, u, slot, nextEsp, nextCr3) && !(q.cpu.esp - SwitchDepth(k) <= slot <= q.cpu.esp)
    ensures var e, v := q.cpu.esp, SaveContext(u);
      && (forall a :: !(e - SwitchDepth(k) <= a < e) && a != slot ==> Read(v.mem, a) == Read(q.mem, a))
      && (forall a :: !(u.cpu.esp - 16 <= a < u.cpu.esp) && a != slot ==> Read(v.mem, a) == Read(u.mem, a))
      && Read(v.mem, slot) == e - SwitchDepth(k)
      && Parked(k, v.mem, q, e - SwitchDepth(k)) && Saved(v.mem, u)
      && Read(v.mem, u.cpu.esp + 8) == nextEsp && Read(v.mem, u.cpu.esp + 12) == nextCr3
  {
    SaveLayers(q, u, k, slot);
  }

  lemma SaveLayers(q: Core, u: Core, k: Layout, slot: int)
    requires !(q.cpu.esp - SwitchDepth(k) <= slot <= q.cpu.esp)
    requires u.cpu.esp == q.cpu.esp - SwitchDepth(k) + 16 && Read(u.mem, u.cpu.esp + 4) == slot
    requires Within(q.mem, u.mem, u.cpu.esp, q.cpu.esp)
    ensures var v := SaveContext(u);
      && (forall a :: a != slot && !(u.cpu.esp - 16 <= a < u.cpu.esp) ==> Read(v.mem, a) == Read(u.mem, a))
      && (forall a :: a != slot && !(u.cpu.esp - 16 <= a < q.cpu.esp) ==> Read(v.mem, a) == Read(q.mem, a))
      && Read(v.mem, slot) == u.cpu.esp - 16 && Saved(v.mem, u)
  {}

  predicate Ring0(c: Cpu) {
    c.cs == 8 && c.ds == c.es == c.fs == c.gs && 0 <= c.ds < 0x1_0000
  }

  /** switch_task, called at u, has gone over to the stack at nextEsp, leaving the machine at t: everything written
    * since q lies in the parked thread's stack below q's esp, and in the word the stack pointer was saved in. */
  ghost predicate Switched(q: Core, k: Layout, u: Core, t: Core, slot: int, nextEsp: int, nextCr3: int) {
    var e := q.cpu.esp;
    && (forall a :: !(e - SwitchDepth(k) <= a < e) && a != slot ==> Read(t.mem, a) == Read(q.mem, a))
    && (forall a :: !(u.cpu.esp - 16 <= a < u.cpu.esp) && a != slot ==> Read(t.mem, a) == Read(u.mem, a))
    && Read(t.mem, slot) == e - SwitchDepth(k)
    && Parked(k, t.mem, q, e - SwitchDepth(k)) && Saved(t.mem, u)
    && u.cpu.esp == e - SwitchDepth(k) + 16 && Ring0(t.cpu) && t.cpu.eflags == q.cpu.eflags
    && t.cpu == LoadContext(t.cpu, t.mem, nextEsp, nextCr3)
  }

  lemma SwitchLoads(u: Core, esp: int, cr3: int)
    requires Read(SaveContext(u).mem, u.cpu.esp + 8) == esp && Read(SaveContext(u).mem, u.cpu.esp + 12) == cr3
    requires Ring0(u.cpu)
    ensures var t := Switch(u);
      t.mem == SaveContext(u).mem && t.cpu == LoadContext(t.cpu, t.mem, esp, cr3) && Ring0(t.cpu)
      && t.cpu.eflags == u.cpu.eflags
  {}

  lemma SwitchSwitches(q: Core, k: Layout, u: Core, slot: int, nextEsp: int, nextCr3: int)
    requires Called(q, k, u, slot, nextEsp, nextCr3) && Ring0(q.cpu)
    requires !(q.cpu.esp - SwitchDepth(k) <= slot <= q.cpu.esp)
    ensures Switched(q, k, u, Switch(u), slot, nextEsp, nextCr3)
  {
    SaveWrites(q, k, u, slot, nextEsp, nextCr3);
    SwitchLoads(u, nextEsp, nextCr3);
  }

  /** Round trip of switch_task: whatever ran in between, as long as the five saved words are still there, the thread
    * finds its callee-saved registers, its stack pointer and its return address as it left them. */
  lemma SwitchRoundTrip(u: Core, m: Mem, c: Cpu, cr3: int)
    requires Saved(m, u)
    ensures var c' := LoadContext(c, m, u.cpu.esp - 16, cr3);
      && c'.edi == u.cpu.edi && c'.esi == u.cpu.esi && c'.ebx == u.cpu.ebx && c'.ebp == u.cpu.ebp
      && c'.esp == u.cpu.esp + 4 && c'.eip == Read(u.mem, u.cpu.esp) && c'.cr3 == cr3
  {}

  /** A parked caller of process_schedule returns from it: callee-saved registers, esp and eip are its own again. */
  lemma ParkedReturns(k: Layout, m: Mem, q: Core, sp: int, c: Cpu, cr3: int, x: Scratch)
    requires Parked(k, m, q, sp)
    ensures var c' := LeaveSched(k, LoadContext(c, m, sp, cr3), m, x);
      && c'.edi == q.cpu.edi && c'.esi == q.cpu.esi && c'.ebx == q.cpu.ebx && c'.ebp == q.cpu.ebp
      && c'.esp == q.cpu.esp + 4 && c'.eip == Read(q.mem, q.cpu.esp) && c'.cr3 == cr3
      && c'.cs == c.cs && c'.ds == c.ds && c'.es == c.es && c'.fs == c.fs && c'.gs == c.gs
      && c'.eflags == c.eflags
  {}

  /** A thread that was preempted by the timer and parked gets back every register it had. */
  lemma PreemptedReturns(k: Layout, m: Mem, c: Cpu, q: Core, c0: Cpu, cr3: int, x: Scratch)
    requires Distinct(k) && Interrupted(k, m, c) && !InKernelPath(k, c.eip)
    requires c.ds == c.es == c.fs == c.gs
    requires q.cpu.esp == c.esp - SchedDepth(k) && Read(q.mem, q.cpu.esp) == k.retPit
    requires Parked(k, m, q, q.cpu.esp - SwitchDepth(k))
    ensures Unwind(k, LoadContext(c0, m, q.cpu.esp - SwitchDepth(k), cr3), m, x) == c.(cr3 := cr3)
  {
    var sp := q.cpu.esp - SwitchDepth(k);
    var c1 := LoadContext(c0, m, sp, cr3);
    ParkedReturns(k, m, q, sp, c0, cr3, x);
    var c2 := LeaveSched(k, c1, m, x);
    var c3 := LeavePit(k, c2, m, x);
    assert c3.eip == k.retIrq && c3.esp == c.esp - PitDepth(k) + 4;
    PitReturns(k, m, c, c3, x);
    assert Unwind(k, c3, m, x) == Unwind(k, c1, m, x);
  }

  /** A C function that returns restores the callee-saved registers and esp, and goes on at its return address. */
  lemma EnterLeave(q: Core, words: nat, x: Scratch, y: Scratch)
    ensures var t := Enter(q, words, x);
      var c := Leave(t.cpu, t.mem, words, y);
      && c.edi == q.cpu.edi && c.esi == q.cpu.esi && c.ebx == q.cpu.ebx && c.ebp == q.cpu.ebp
      && c.esp == q.cpu.esp + 4 && c.eip == Read(q.mem, q.cpu.esp) && c.cr3 == q.cpu.cr3 && c.eflags == q.cpu.eflags
      && c.cs == q.cpu.cs && c.ds == q.cpu.ds && c.es == q.cpu.es && c.fs == q.cpu.fs && c.gs == q.cpu.gs
      && Within(q.mem, t.mem, q.cpu.esp - 16 - 4 * words, q.cpu.esp)
  {}

  /** From inside pit_callback, whether or not process_schedule was tried, back to the interrupted instruction. */
  lemma PitLeaves(k: Layout, m: Mem, c: Cpu, c': Cpu, x: Scratch, y: Scratch)
    requires Distinct(k) && Interrupted(k, m, c) && !InKernelPath(k, c.eip)
    requires c.ds == c.es == c.fs == c.gs
    requires c'.esp == c.esp - SchedDepth(k) + 4
    ensures Unwind(k, Leave(c', m, k.pitLocals, x), m, y) == c.(cr3 := c'.cr3)
    ensures c'.eip == k.retPit ==> Unwind(k, c', m, y) == c.(cr3 := c'.cr3)
  {
    PitReturns(k, m, c, Leave(c', m, k.pitLocals, x), y);
    PitReturns(k, m, c, Leave(c', m, k.pitLocals, y), y);
  }
}
