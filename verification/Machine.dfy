/** The machine run step by step: the assembly of switch.s and interrupts.s instruction by instruction, and the
  * C of process.c and pit.c statement by statement, each proved against the functions the runs are made of. */
module Machine {
  import opened Memory
  import opened Context
  import opened Tasks
  import Pmm

  class Computer {
    const k: Layout
    const pmm: Pmm.BlockAllocator
    var cpu: Cpu
    var mem: Mem
    var current: int
    var queue: int
    var nextPid: int
    var tick: int
    var tssEsp0: int

    constructor (k: Layout, pmm: Pmm.BlockAllocator, cpu: Cpu, mem: Mem)
      ensures this.k == k && this.pmm == pmm && this.cpu == cpu && this.mem == mem
      ensures current == 0 && queue == 0 && nextPid == 1 && tick == 0
    {
      this.k, this.pmm, this.cpu, this.mem := k, pmm, cpu, mem;
      current, queue, nextPid, tick, tssEsp0 := 0, 0, 1, 0, 0;
    }

    ghost function State(): Kernel
      reads this, pmm, pmm.bitmap
    {
      Kernel(Core(cpu, mem), current, queue, nextPid, tick, tssEsp0, pmm.Used(), pmm.maxBlocks)
    }

    function Here(): Core
      reads this
    {
      Core(cpu, mem)
    }

    /** A store by C code: with paging on it reaches address a only if a's page stands for itself. */
    method Write(a: int, v: int)
      requires Backed(k, a)
      modifies this`mem
      ensures mem == old(mem)[a := v]
    {
      mem := mem[a := v];
    }

    // ---------------------------------------------------------------- instructions

    method Push(v: int, ghost at: int)
      requires at == cpu.esp - 4
      modifies this`cpu, this`mem
      ensures cpu == old(cpu).(esp := at) && mem == old(mem)[at := v]
      ensures Here() == Context.Push(old(Here()), v)
    {
      cpu := cpu.(esp := cpu.esp - 4);
      mem := mem[cpu.esp := v];
    }

    method Pop(ghost at: int) returns (v: int)
      requires at == cpu.esp
      modifies this`cpu
      ensures v == Read(mem, at) && cpu == old(cpu).(esp := at + 4)
    {
      v := Read(mem, cpu.esp);
      cpu := cpu.(esp := cpu.esp + 4);
    }

    /** process/switch.s */
    method SwitchTask()
      modifies this`cpu, this`mem
      ensures Here() == Switch(old(Here()))
    {
      ghost var s, p := Here(), cpu.esp;
      SaveRegisters();
      assert Here() == SaveContext(s).(cpu := Here().cpu);
      ghost var n, cr3 := Read(mem, p + 8), Read(mem, p + 12);
      cpu := cpu.(eax := Read(mem, cpu.esp + 28));
      cpu := cpu.(esp := Read(mem, cpu.esp + 24));
      cpu := cpu.(cr3 := cpu.eax);
      assert cpu == SaveContext(s).cpu.(eax := cr3, cr3 := cr3, esp := n);
      RestoreRegisters();
    }

    /** The four pushes, and esp into the word that the first argument points to. */
    method SaveRegisters()
      modifies this`cpu, this`mem
      ensures mem == SaveContext(old(Here())).mem
      ensures cpu == SaveContext(old(Here())).cpu.(eax := cpu.eax)
    {
      ghost var p := cpu.esp;
      Push(cpu.ebp, p - 4);
      Push(cpu.ebx, p - 8);
      Push(cpu.esi, p - 12);
      Push(cpu.edi, p - 16);
      assert cpu.esp + 20 == p + 4;
      cpu := cpu.(eax := Read(mem, cpu.esp + 20));
      mem := mem[cpu.eax := cpu.esp];
    }

    /** Four pops and ret. */
    method RestoreRegisters()
      modifies this`cpu
      ensures cpu == LoadContext(old(cpu), mem, old(cpu.esp), old(cpu.cr3)).(eax := old(cpu.eax))
    {
      ghost var n := cpu.esp;
      var v := Pop(n);
      cpu := cpu.(edi := v);
      v := Pop(n + 4);
      cpu := cpu.(esi := v);
      v := Pop(n + 8);
      cpu := cpu.(ebx := v);
      v := Pop(n + 12);
      cpu := cpu.(ebp := v);
      v := Pop(n + 16);
      cpu := cpu.(eip := v);
    }

    // ---------------------------------------------------------------- the interrupt stubs

    /** The processor's part of an interrupt at ring 0, then irqN and irq_common_stub up to the call's target. */
    method StubEnter(errCode: int, vector: int)
      modifies this`cpu, this`mem
      ensures Here() == TrapEnter(old(Here()), k.retStub, errCode, vector)
      ensures 0 <= old(cpu.ds) < 0x1_0000 ==> AtHandler(Here(), old(cpu), k.retStub, errCode, vector)
    {
      ghost var e := cpu.esp;
      if 0 <= cpu.ds < 0x1_0000 {
        TrapReachesHandler(Here(), k.retStub, errCode, vector);
      }
      StubFrame(errCode, vector, e);
      cpu := cpu.(eax := SetLow(cpu.eax, cpu.ds));
      Push(cpu.eax, e - 56);
      cpu := cpu.(eax := SetLow(cpu.eax, 0x10));
      cpu := cpu.(ds := 0x10, es := 0x10, fs := 0x10, gs := 0x10);
      Push(cpu.esp, e - 60);
      Push(k.retStub, e - 64);
    }

    method StubFrame(errCode: int, vector: int, ghost e: int)
      requires e == cpu.esp
      modifies this`cpu, this`mem
      ensures cpu == old(cpu).(eflags := ClearIF(old(cpu.eflags)), cs := 8, esp := e - 52)
      ensures mem == old(mem)[e - 4 := old(cpu.eflags)][e - 8 := old(cpu.cs)][e - 12 := old(cpu.eip)]
        [e - 16 := errCode][e - 20 := vector][e - 24 := cpu.eax][e - 28 := cpu.ecx][e - 32 := cpu.edx]
        [e - 36 := cpu.ebx][e - 40 := e - 20][e - 44 := cpu.ebp][e - 48 := cpu.esi][e - 52 := cpu.edi]
    {
      Deliver(e);
      Push(errCode, e - 16);
      Push(vector, e - 20);
      PushAll(e - 20);
    }

    /** What the processor does through an interrupt gate when it stays at ring 0. */
    method Deliver(ghost e: int)
      requires e == cpu.esp
      modifies this`cpu, this`mem
      ensures cpu == old(cpu).(eflags := ClearIF(old(cpu.eflags)), cs := 8, esp := e - 12)
      ensures mem == old(mem)[e - 4 := old(cpu.eflags)][e - 8 := old(cpu.cs)][e - 12 := old(cpu.eip)]
    {
      Push(cpu.eflags, e - 4);
      Push(cpu.cs, e - 8);
      Push(cpu.eip, e - 12);
      cpu := cpu.(eflags := ClearIF(cpu.eflags), cs := 8);
    }

    /** pusha */
    method PushAll(ghost p: int)
      requires p == cpu.esp
      modifies this`cpu, this`mem
      ensures cpu == old(cpu).(esp := p - 32)
      ensures mem == old(mem)[p - 4 := cpu.eax][p - 8 := cpu.ecx][p - 12 := cpu.edx][p - 16 := cpu.ebx][p - 20 := p]
                             [p - 24 := cpu.ebp][p - 28 := cpu.esi][p - 32 := cpu.edi]
    {
      var esp := cpu.esp;
      Push(cpu.eax, p - 4);
      Push(cpu.ecx, p - 8);
      Push(cpu.edx, p - 12);
      Push(cpu.ebx, p - 16);
      Push(esp, p - 20);
      Push(cpu.ebp, p - 24);
      Push(cpu.esi, p - 28);
      Push(cpu.edi, p - 32);
    }

    /** popa: the saved esp is skipped. */
    method PopAll(ghost p: int)
      requires p == cpu.esp
      modifies this`cpu
      ensures cpu == old(cpu).(edi := Read(mem, p), esi := Read(mem, p + 4), ebp := Read(mem, p + 8),
                               ebx := Read(mem, p + 16), edx := Read(mem, p + 20), ecx := Read(mem, p + 24),
                               eax := Read(mem, p + 28), esp := p + 32)
    {
      var v := Pop(p);
      cpu := cpu.(edi := v);
      v := Pop(p + 4);
      cpu := cpu.(esi := v);
      v := Pop(p + 8);
      cpu := cpu.(ebp := v);
      v := Pop(p + 12);
      v := Pop(p + 16);
      cpu := cpu.(ebx := v);
      v := Pop(p + 20);
      cpu := cpu.(edx := v);
      v := Pop(p + 24);
      cpu := cpu.(ecx := v);
      v := Pop(p + 28);
      cpu := cpu.(eax := v);
    }

    /** irq_common_stub from the handler's return to iret; isr_common_stub does the same by way of eax. */
    method StubExit(byEbx: bool)
      modifies this`cpu
      ensures cpu == TrapExit(old(cpu), mem)
    {
      cpu := cpu.(esp := cpu.esp + 4);
      ghost var p := cpu.esp;
      var v := Pop(p);
      if byEbx {
        cpu := cpu.(ebx := v);
      } else {
        cpu := cpu.(eax := v);
      }
      cpu := cpu.(ds := v % 0x1_0000, es := v % 0x1_0000, fs := v % 0x1_0000, gs := v % 0x1_0000);
      PopAll(p + 4);
      cpu := cpu.(esp := cpu.esp + 8);
      InterruptReturn(p + 44);
    }

    /** sti; iret: at ring 0 iret pops eip, cs and eflags. */
    method InterruptReturn(ghost p: int)
      requires p == cpu.esp
      modifies this`cpu
      ensures cpu == old(cpu).(eip := Read(mem, p), cs := Read(mem, p + 4), eflags := Read(mem, p + 8), esp := p + 12)
    {
      cpu := cpu.(eflags := ClearIF(cpu.eflags) + 0x200);
      var v := Pop(p);
      cpu := cpu.(eip := v);
      v := Pop(p + 4);
      cpu := cpu.(cs := v);
      v := Pop(p + 8);
      cpu := cpu.(eflags := v);
    }

    // ---------------------------------------------------------------- C functions

    /** Prologue and body of a C function, up to its next call or its return. */
    method EnterFunction(words: nat, x: Scratch)
      modifies this`cpu, this`mem
      ensures Here() == Enter(old(Here()), words, x)
    {
      ghost var s, e := Here(), cpu.esp;
      PushSaved(e);
      var top := cpu.esp;
      ghost var m, lo := mem, e - 16 - 4 * words;
      cpu := cpu.(esp := cpu.esp - 4 * words);
      mem := Scribble(mem, x.locals, cpu.esp, top);
      EnterIs(s, words, x, e, e - 16, lo, m);
      cpu := cpu.(eax := x.eax, ecx := x.ecx, edx := x.edx, ebx := x.ebx, ebp := x.ebp, esi := x.esi, edi := x.edi);
    }

    method PushSaved(ghost e: int)
      requires e == cpu.esp
      modifies this`cpu, this`mem
      ensures cpu == old(cpu).(esp := e - 16)
      ensures mem == old(mem)[e - 4 := cpu.ebp][e - 8 := cpu.ebx][e - 12 := cpu.esi][e - 16 := cpu.edi]
    {
      Push(cpu.ebp, e - 4);
      Push(cpu.ebx, e - 8);
      Push(cpu.esi, e - 12);
      Push(cpu.edi, e - 16);
    }

    method LeaveFunction(words: nat, x: Scratch)
      modifies this`cpu
      ensures cpu == Leave(old(cpu), mem, words, x)
    {
      cpu := cpu.(esp := cpu.esp + 4 * words, eax := x.eax, ecx := x.ecx, edx := x.edx);
      ghost var b := cpu.esp;
      var v := Pop(b);
      cpu := cpu.(edi := v);
      v := Pop(b + 4);
      cpu := cpu.(esi := v);
      v := Pop(b + 8);
      cpu := cpu.(ebx := v);
      v := Pop(b + 12);
      cpu := cpu.(ebp := v);
      v := Pop(b + 16);
      cpu := cpu.(eip := v);
    }

    /** Runs whatever return addresses of the timer's path are met, until a thread's own code is. */
    method ReturnToThread(x: Scratch)
      modifies this`cpu
      ensures cpu == Unwind(k, old(cpu), mem, x)
    {
      if cpu.eip == k.retSched {
        LeaveFunction(k.schedLocals + 3, x);
      }
      if cpu.eip == k.retPit {
        LeaveFunction(k.pitLocals, x);
      }
      if cpu.eip == k.retIrq {
        LeaveFunction(k.irqLocals, x);
      }
      if cpu.eip == k.retStub {
        StubExit(true);
      }
    }

    // ---------------------------------------------------------------- process.c and pit.c

    /** process_schedule, from its first instruction until this stack is left. */
    method ProcessSchedule(x: Scratch)
      modifies this`cpu, this`mem, this`current, this`tssEsp0
      ensures State() == Schedule(old(State()), k, x)
    {
      ghost var q := State();
      EnterFunction(k.schedLocals, x);
      if current == 0 || Next(mem, current) == current {
        LeaveFunction(k.schedLocals, x);
      } else {
        SwitchToNext(x, q);
      }
    }

    method SwitchToNext(x: Scratch, ghost q: Kernel)
      requires State() == q.(core := Enter(q.core, k.schedLocals, x))
      requires current != 0 && Next(mem, current) != current
      modifies this`cpu, this`mem, this`current, this`tssEsp0
      ensures State() == Schedule(q, k, x)
    {
      var prev, next := current, Next(mem, current);
      current := next;
      tssEsp0 := KernelStack(mem, next);
      assert State() == q.(core := Here(), current := next, tssEsp0 := tssEsp0);
      var nextEsp, nextCr3 := SavedEsp(mem, next), Directory(mem, next);
      ScheduleShape(q, k, x, next, nextEsp, nextCr3, tssEsp0);
      CallSwitchTask(q.core, x, prev + 4, nextEsp, nextCr3);
      assert State() == q.(core := Here(), current := next, tssEsp0 := tssEsp0);
      assert Here() == Switch(SwitchCall(q, k, x));
    }

    method CallSwitchTask(ghost q: Core, ghost x: Scratch, slot: int, nextEsp: int, nextCr3: int)
      requires Here() == Enter(q, k.schedLocals, x)
      modifies this`cpu, this`mem
      ensures Here() == Switch(Depart(q, k, x, slot, nextEsp, nextCr3))
    {
      Push(nextCr3, cpu.esp - 4);
      Push(nextEsp, cpu.esp - 4);
      Push(slot, cpu.esp - 4);
      Push(k.retSched, cpu.esp - 4);
      SwitchTask();
    }

    /** pit_callback, from its first instruction until it returns or this stack is left. */
    method PitCallback(x: Path)
      modifies this`cpu, this`mem, this`current, this`tssEsp0, this`tick
      ensures State() == AfterPit(old(State()), k, x)
    {
      ghost var s := State();
      EnterFunction(k.pitLocals, x.pit);
      tick := (tick + 1) % 0x1_0000_0000;
      ghost var t := s.(core := Enter(s.core, k.pitLocals, x.pit), tick := NextTick(s.tick));
      assert State() == t;
      if tick % 50 == 0 {
        Push(k.retPit, cpu.esp - 4);
        assert State() == t.(core := Context.Push(t.core, k.retPit));
        ProcessSchedule(x.sched);
      } else {
        LeaveFunction(k.pitLocals, x.pit);
      }
    }

    /** The timer interrupt, from the interrupted instruction to the next one of some thread. */
    method TimerInterrupt(x: Path)
      modifies this`cpu, this`mem, this`current, this`tssEsp0, this`tick
      ensures State() == TimerTick(old(State()), k, x)
    {
      ghost var s := State();
      StubEnter(0, 32);
      ghost var t := s.(core := TrapEnter(s.core, k.retStub, 0, 32));
      assert State() == t;
      IrqHandler(x);
      TickShape(s, k, x);
      ghost var u := State();
      ReturnToThread(x.back);
      assert State() == Finish(u, k, x.back);
    }

    /** irq_handler, from its first instruction until it returns or this stack is left. Of the handlers that may be
      * registered only pit_callback, for number 32, is one that switches. */
    method IrqHandler(x: Path)
      modifies this`cpu, this`mem, this`current, this`tssEsp0, this`tick
      ensures State() == AfterIrq(old(State()), k, x)
    {
      ghost var s := State();
      var intNo := InterruptNumber();
      EnterFunction(k.irqLocals, x.irq);
      ghost var t := s.(core := Enter(s.core, k.irqLocals, x.irq));
      assert State() == t;
      if intNo == 32 {
        Push(k.retIrq, cpu.esp - 4);
        assert State() == t.(core := Context.Push(t.core, k.retIrq));
        PitCallback(x);
      } else {
        LeaveFunction(k.irqLocals, x.irq);
        assert State() == t.(core := Core(Leave(t.core.cpu, t.core.mem, k.irqLocals, x.irq), t.core.mem));
      }
      IrqShape(s, k, x, t, intNo);
    }

    /** regs->int_no: the argument is just above the return address. */
    method InterruptNumber() returns (intNo: int)
      ensures intNo == IntNo(Here())
    {
      var regs := Read(mem, cpu.esp + 4);
      intNo := Read(mem, regs + 36);
    }

    /** simple_kmalloc: a whole block. */
    method SimpleKmalloc() returns (p: int)
      requires pmm.Valid()
      modifies pmm`usedBlocks, pmm`count, pmm.bitmap
      ensures pmm.Valid() && p == Pmm.AllocAddress(old(pmm.Used()), pmm.maxBlocks)
      ensures pmm.Used() == Pmm.AllocUsed(old(pmm.Used()), pmm.maxBlocks)
    {
      p := pmm.AllocBlock();
    }

    /** process_initialize: the running code becomes the first thread, alone in the ring. */
    method ProcessInitialize()
      requires pmm.Valid() && Backed(k, Pmm.AllocAddress(pmm.Used(), pmm.maxBlocks))
      modifies this`mem, this`current, this`queue, this`nextPid, pmm`usedBlocks, pmm`count, pmm.bitmap
      ensures pmm.Valid()
      ensures State() == Initialize(old(State()))
    {
      ghost var s := State();
      var pcb := ControlBlock();
      AddressIsPage(s.used, s.maxBlocks);
      current := pcb;
      FillFirst(pcb, cpu.esp, cpu.cr3);
      queue := pcb;
      InitializeIs(s, pcb, pmm.Used(), State());
    }

    /** A new control block, with the next id. */
    method ControlBlock() returns (pcb: int)
      requires pmm.Valid() && Backed(k, Pmm.AllocAddress(pmm.Used(), pmm.maxBlocks))
      modifies this`mem, this`nextPid, pmm`usedBlocks, pmm`count, pmm.bitmap
      ensures pmm.Valid() && pcb == Pmm.AllocAddress(old(pmm.Used()), pmm.maxBlocks)
      ensures pmm.Used() == Pmm.AllocUsed(old(pmm.Used()), pmm.maxBlocks)
      ensures mem == old(mem)[pcb := old(nextPid)] && nextPid == (old(nextPid) + 1) % 0x1_0000_0000
    {
      pcb := SimpleKmalloc();
      Write(pcb, nextPid);
      nextPid := (nextPid + 1) % 0x1_0000_0000;
    }

    method FillFirst(pcb: int, esp: int, cr3: int)
      requires pcb % 4096 == 0 && Backed(k, pcb)
      modifies this`mem
      ensures mem == old(mem)[pcb + 16 := pcb][pcb + 8 := esp + 4096][pcb + 12 := cr3]
    {
      PageBacked(k, pcb);
      Write(pcb + 16, pcb);
      Write(pcb + 8, esp + 4096);
      Write(pcb + 12, cr3);
    }

    /** process_create_thread: a control block, a stack with the mock frame, and the new thread behind the tail. */
    method ProcessCreateThread(entry: int, ghost c: Config) returns (proc: int)
      requires Tasks.Queue(c) && InBlocks(c.ts, k.mapped) && c.s == State() && pmm.Valid() && Legal(k, c, Create(entry))
      modifies this`mem, this`nextPid, pmm`usedBlocks, pmm`count, pmm.bitmap
      ensures pmm.Valid()
      ensures State() == CreateThread(c.s, k, entry, c.ts[|c.ts| - 1].pcb) && proc == NewThread(c.s).pcb
    {
      ghost var s, th := c.s, NewThread(c.s);
      CreateReady(k, c, entry, th);
      var base;
      ghost var used1;
      proc, base, used1 := TwoBlocks();
      ghost var used2 := Pmm.AllocUsed(used1, s.maxBlocks);
      assert State() == s.(core := Here(), nextPid := nextPid, used := used2) && cpu == s.core.cpu;
      var top := base + 4096;
      FillAndLink(proc, top, entry, c, th, s.nextPid);
      assert State() == s.(core := Here(), nextPid := nextPid, used := used2) && cpu == s.core.cpu;
      CreateThreadIs(s, k, entry, c.ts[|c.ts| - 1].pcb, proc, top, used1);
    }

    /** One block for the control block, and one for the stack. */
    method TwoBlocks() returns (proc: int, base: int, ghost used1: set<nat>)
      requires pmm.Valid() && Backed(k, Pmm.AllocAddress(pmm.Used(), pmm.maxBlocks))
      modifies this`mem, this`nextPid, pmm`usedBlocks, pmm`count, pmm.bitmap
      ensures pmm.Valid() && nextPid == (old(nextPid) + 1) % 0x1_0000_0000
      ensures proc == Pmm.AllocAddress(old(pmm.Used()), pmm.maxBlocks)
      ensures used1 == Pmm.AllocUsed(old(pmm.Used()), pmm.maxBlocks)
      ensures base == Pmm.AllocAddress(used1, pmm.maxBlocks) && pmm.Used() == Pmm.AllocUsed(used1, pmm.maxBlocks)
      ensures mem == old(mem)[proc := old(nextPid)]
    {
      proc := ControlBlock();
      used1 := pmm.Used();
      base := SimpleKmalloc();
    }

    /** The rest of the control block, the mock frame, and the two links. */
    method FillAndLink(proc: int, top: int, entry: int, ghost c: Config, ghost th: Thread, ghost pid: int)
      requires Tasks.Queue(c) && queue == c.s.queue && Fresh(c, th) && th.pcb == proc && th.hi == top
      requires mem == c.s.core.mem[proc := pid] && InBlocks(c.ts, k.mapped) && TwoPages(k, proc, top)
      modifies this`mem
      ensures mem == CreateMem(c.s.core.mem, pid, proc, top, k.threadExit, entry, cpu.cr3, c.ts[|c.ts| - 1].pcb, queue)
    {
      FillBlock(proc, top, entry);
      MockReads(c.s.core.mem, mem, th, proc, top, pid, k.threadExit, entry, cpu.cr3);
      var head := queue;
      var tail := FindTail(c, c.s.core.mem, th);
      CreateMemIs(c.s.core.mem, mem, pid, proc, top, k.threadExit, entry, cpu.cr3, tail, head);
      TailBacked(k, c, tail, proc, top);
      Write(tail + 16, proc);
      Write(proc + 16, head);
    }

    method FillBlock(proc: int, top: int, entry: int)
      requires TwoPages(k, proc, top)
      modifies this`mem
      ensures mem == old(mem)[proc + 8 := top]
        [top - 4 := k.threadExit][top - 8 := entry][top - 12 := 0][top - 16 := 0][top - 20 := 0][top - 24 := 0]
        [proc + 4 := top - 24][proc + 12 := cpu.cr3]
    {
      PageBacked(k, proc);
      Write(proc + 8, top);
      MockFrame(top, entry);
      Write(proc + 4, top - 24);
      var cr3 := cpu.cr3;
      Write(proc + 12, cr3);
    }

    /** The six words switch_task will find on a new stack. */
    method MockFrame(top: int, entry: int)
      requires TwoPages(k, top - 4096, top)
      modifies this`mem
      ensures mem == old(mem)[top - 4 := k.threadExit][top - 8 := entry]
                             [top - 12 := 0][top - 16 := 0][top - 20 := 0][top - 24 := 0]
    {
      PageBacked(k, top - 4096);
      var stack := top;
      stack := stack - 4;
      Write(stack, k.threadExit);
      stack := stack - 4;
      Write(stack, entry);
      stack := stack - 4;
      Write(stack, 0);
      stack := stack - 4;
      Write(stack, 0);
      stack := stack - 4;
      Write(stack, 0);
      stack := stack - 4;
      Write(stack, 0);
    }

    /** The walk along the ring ends at its last thread, wherever the current one is. */
    method FindTail(ghost c: Config, ghost m0: Mem, ghost th: Thread) returns (tail: int)
      requires Tasks.Queue(c) && queue == c.s.queue && c.s.core.mem == m0 && Fresh(c, th)
      requires forall a :: !Owns(th, a) ==> Read(mem, a) == Read(m0, a)
      ensures tail == c.ts[|c.ts| - 1].pcb
    {
      tail := queue;
      ghost var i := 0;
      RingReads(c, mem, th, 0);
      while Next(mem, tail) != queue
        invariant 0 <= i < |c.ts| && tail == c.ts[i].pcb
        invariant Next(mem, tail) == c.ts[After(i, |c.ts|)].pcb
        decreases |c.ts| - i
      {
        HeadOnce(c, After(i, |c.ts|));
        tail := Next(mem, tail);
        i := i + 1;
        RingReads(c, mem, th, i);
      }
      HeadOnce(c, After(i, |c.ts|));
    }
  }

  /** a lies in a page that stands for itself. */
  predicate Backed(k: Layout, a: int) {
    a >= 0 && a / 4096 in k.mapped
  }

  /** A control block and the stack below top, each a page that stands for itself. */
  predicate TwoPages(k: Layout, proc: int, top: int) {
    proc % 4096 == 0 && Backed(k, proc) && top % 4096 == 0 && Backed(k, top - 4096)
  }

  lemma PageBacked(k: Layout, p: int)
    requires p % 4096 == 0 && Backed(k, p)
    ensures forall a :: p <= a < p + 4096 ==> Backed(k, a)
  {
    forall a | p <= a < p + 4096
      ensures a / 4096 == p / 4096
    {
    }
  }

  lemma AddressIsPage(used: set<nat>, n: nat)
    ensures Pmm.AllocAddress(used, n) % 4096 == 0
  {}

  lemma CreateReady(k: Layout, c: Config, entry: int, th: Thread)
    requires Tasks.Queue(c) && Legal(k, c, Create(entry)) && th == NewThread(c.s)
    ensures Fresh(c, th) && TwoPages(k, th.pcb, th.hi) && Backed(k, Pmm.AllocAddress(c.s.used, c.s.maxBlocks))
  {
    NewFresh(c);
    NewPages(k, c, entry, th);
  }

  lemma NewPages(k: Layout, c: Config, entry: int, th: Thread)
    requires Legal(k, c, Create(entry)) && th == NewThread(c.s)
    ensures TwoPages(k, th.pcb, th.hi) && Backed(k, Pmm.AllocAddress(c.s.used, c.s.maxBlocks))
  {}

  lemma TailBacked(k: Layout, c: Config, tail: int, proc: int, top: int)
    requires Shape(c.ts) && InBlocks(c.ts, k.mapped) && tail == c.ts[|c.ts| - 1].pcb && TwoPages(k, proc, top)
    ensures Backed(k, tail + 16) && Backed(k, proc + 16)
  {
    assert Owns(c.ts[|c.ts| - 1], tail + 16);
    PageBacked(k, proc);
  }

  lemma InitializeIs(s: Kernel, pcb: int, used: set<nat>, t: Kernel)
    requires pcb == Pmm.AllocAddress(s.used, s.maxBlocks) && used == Pmm.AllocUsed(s.used, s.maxBlocks)
    requires t == s.(core := t.core, current := pcb, queue := pcb, nextPid := (s.nextPid + 1) % 0x1_0000_0000,
                     used := used)
    requires t.core.cpu == s.core.cpu
    requires t.core.mem == s.core.mem[pcb := s.nextPid][pcb + 16 := pcb][pcb + 8 := s.core.cpu.esp + 4096]
                                     [pcb + 12 := s.core.cpu.cr3]
    ensures t == Initialize(s)
  {}

  lemma EnterIs(s: Core, words: nat, x: Scratch, e: int, top: int, lo: int, m: Mem)
    requires e == s.cpu.esp && top == e - 16 && lo == e - 16 - 4 * words
    requires m == s.mem[e - 4 := s.cpu.ebp][e - 8 := s.cpu.ebx][e - 12 := s.cpu.esi][e - 16 := s.cpu.edi]
    ensures Enter(s, words, x) == Core(
      s.cpu.(eax := x.eax, ecx := x.ecx, edx := x.edx, ebx := x.ebx, ebp := x.ebp, esi := x.esi, edi := x.edi,
             esp := lo),
      Scribble(m, x.locals, lo, top))
  {}

  /** What pit_callback does, from its first instruction. */
  function AfterPit(s: Kernel, k: Layout, x: Path): Kernel {
    var t := s.(core := Enter(s.core, k.pitLocals, x.pit), tick := NextTick(s.tick));
    if Quantum(t.tick) then Schedule(t.(core := Push(t.core, k.retPit)), k, x.sched)
    else t.(core := Core(Leave(t.core.cpu, t.core.mem, k.pitLocals, x.pit), t.core.mem))
  }

  /** What irq_handler does, from its first instruction. */
  function AfterIrq(s: Kernel, k: Layout, x: Path): Kernel {
    var u := Enter(s.core, k.irqLocals, x.irq);
    if IntNo(s.core) == 32 then AfterPit(s.(core := Push(u, k.retIrq)), k, x)
    else s.(core := Core(Leave(u.cpu, u.mem, k.irqLocals, x.irq), u.mem))
  }

  lemma IrqShape(s: Kernel, k: Layout, x: Path, t: Kernel, intNo: int)
    requires t == s.(core := Enter(s.core, k.irqLocals, x.irq)) && intNo == IntNo(s.core)
    ensures AfterIrq(s, k, x) ==
      if intNo == 32 then AfterPit(t.(core := Push(t.core, k.retIrq)), k, x)
      else t.(core := Core(Leave(t.core.cpu, t.core.mem, k.irqLocals, x.irq), t.core.mem))
  {}

  lemma TickShape(s: Kernel, k: Layout, x: Path)
    ensures TimerTick(s, k, x) == Finish(AfterIrq(s.(core := TrapEnter(s.core, k.retStub, 0, 32)), k, x), k, x.back)
  {}

  lemma CreateMemIs(m0: Mem, m: Mem, pid: int, proc: int, top: int, exit: int, entry: int, cr3: int,
                    tail: int, head: int)
    requires m == m0[proc := pid][proc + 8 := top]
      [top - 4 := exit][top - 8 := entry][top - 12 := 0][top - 16 := 0][top - 20 := 0][top - 24 := 0]
      [proc + 4 := top - 24][proc + 12 := cr3]
    ensures m[tail + 16 := proc][proc + 16 := head] == CreateMem(m0, pid, proc, top, exit, entry, cr3, tail, head)
  {}

  lemma MockReads(m0: Mem, m: Mem, th: Thread, proc: int, top: int, pid: int, exit: int, entry: int, cr3: int)
    requires th.hi == th.lo + 4096 && proc == th.pcb && top == th.hi
    requires m == m0[proc := pid][proc + 8 := top]
      [top - 4 := exit][top - 8 := entry][top - 12 := 0][top - 16 := 0][top - 20 := 0][top - 24 := 0]
      [proc + 4 := top - 24][proc + 12 := cr3]
    ensures forall a :: !Owns(th, a) ==> Read(m, a) == Read(m0, a)
  {}

  lemma RingReads(c: Config, m: Mem, th: Thread, i: nat)
    requires Tasks.Queue(c) && Fresh(c, th) && i < |c.ts|
    requires forall a :: !Owns(th, a) ==> Read(m, a) == Read(c.s.core.mem, a)
    ensures Next(m, c.ts[i].pcb) == c.ts[After(i, |c.ts|)].pcb
  {
    assert Apart(c.ts[i], th);
  }

  lemma HeadOnce(c: Config, i: nat)
    requires Tasks.Queue(c) && i < |c.ts|
    ensures c.ts[i].pcb == c.s.queue <==> i == 0
  {
    if i != 0 {
      assert Apart(c.ts[0], c.ts[i]);
    }
  }
}
