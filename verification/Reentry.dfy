/** Why process_schedule is called with interrupts off: between the statement that makes the next process current and
  * the call of switch_task, a timer tick enters it again. */
module Reentry {
  import opened Memory
  import opened Context
  import opened Tasks
  import opened Runs
  import opened Rounds

  /** The caller of process_schedule, its frame on the stack and interrupts as they were. */
  function Inside(c: Config, k: Layout, x: Scratch): Core {
    Enter(Push(c.s.core, c.s.core.cpu.eip), k.schedLocals, x)
  }

  /** The next process is current, the running thread is still running. */
  function Ahead(c: Config): Kernel
    requires c.cur < |c.ts|
  {
    c.s.(current := c.ts[After(c.cur, |c.ts|)].pcb)
  }

  /** The kernel halfway through process_schedule. */
  function Halfway(c: Config, k: Layout, x: Scratch): Kernel
    requires c.cur < |c.ts|
  {
    Ahead(c.(s := c.s.(core := Inside(c, k, x))))
  }

  /** A thread is running that can be interrupted, and is not alone. */
  ghost predicate Amid(k: Layout, c: Config) {
    Inv(k, c) && |c.ts| > 1 && InterruptsOn(c.s.core.cpu)
  }

  function TickAll(s: Kernel, k: Layout, ys: seq<Path>): Kernel
    decreases |ys|
  {
    if ys == [] then s else TickAll(TimerTick(s, k, ys[0]), k, ys[1..])
  }

  /** How many timer ticks it takes to the next one that schedules: 50 at most, wrap of the counter or not. */
  function TicksLeft(tick: int): (n: nat)
    requires 0 <= tick < 0x1_0000_0000
    ensures 1 <= n <= 50 - tick % 50
    decreases 50 - tick % 50
  {
    QuantumStep(tick);
    if Quantum(NextTick(tick)) then 1 else 1 + TicksLeft(NextTick(tick))
  }

  /** Exactly: to the next multiple of 50, or to the wrap of the counter if that comes first. */
  lemma {:induction false} TicksLeftExact(tick: int)
    requires 0 <= tick < 0x1_0000_0000
    ensures TicksLeft(tick) == if 50 - tick % 50 < 0x1_0000_0000 - tick then 50 - tick % 50 else 0x1_0000_0000 - tick
    decreases 50 - tick % 50
  {
    QuantumStep(tick);
    if !Quantum(NextTick(tick)) {
      TicksLeftExact(NextTick(tick));
    }
  }

  /** The thread nx can be resumed as before and the processor is back where it was, or the stack of th is parked in
    * nx's control block and nx is lost. */
  ghost predicate Outcome(k: Layout, th: Thread, nx: Thread, cpu: Cpu, s: Kernel, harmless: bool) {
    if harmless then Suspended(k, s.core.mem, nx) && s.core.cpu == cpu
    else th.lo <= SavedEsp(s.core.mem, nx.pcb) < th.hi && !Suspended(k, s.core.mem, nx)
  }

  /** With interrupts on halfway through process_schedule, the next thread, which could be resumed, still can after any
    * number of ticks that do not schedule; the first tick that does, at most 50 ticks on, loses it. */
  lemma TicksLoseNext(k: Layout, c: Config, x: Scratch, ys: seq<Path>)
    requires Amid(k, c) && c.ts[c.cur].lo + 2 * Room(k) <= c.s.core.cpu.esp
    requires 0 <= c.s.tick < 0x1_0000_0000 && |ys| <= TicksLeft(c.s.tick)
    ensures var th, nx := c.ts[c.cur], c.ts[After(c.cur, |c.ts|)];
      && Suspended(k, Halfway(c, k, x).core.mem, nx)
      && Outcome(k, th, nx, Inside(c, k, x).cpu, TickAll(Halfway(c, k, x), k, ys), |ys| < TicksLeft(c.s.tick))
  {
    var c1 := InsideIsCompute(k, c, x);
    TicksAmid(k, c1, ys, TicksLeft(c.s.tick));
  }

  lemma {:induction false} TicksAmid(k: Layout, c: Config, ys: seq<Path>, left: nat)
    requires Amid(k, c) && 0 <= c.s.tick < 0x1_0000_0000 && |ys| <= left == TicksLeft(c.s.tick)
    ensures Outcome(k, c.ts[c.cur], c.ts[After(c.cur, |c.ts|)], c.s.core.cpu, TickAll(Ahead(c), k, ys), |ys| < left)
    decreases |ys|
  {
    if ys != [] {
      TicksLeftStep(c.s.tick, left);
      if left == 1 {
        TickLosesNext(k, c, ys[0]);
        LastTick(Ahead(c), k, ys);
      } else {
        TickIsHarmless(k, c, ys[0]);
        TicksAmid(k, Apply(k, c, Tick(ys[0])), ys[1..], left - 1);
      }
    }
  }

  lemma LastTick(s: Kernel, k: Layout, ys: seq<Path>)
    requires |ys| == 1
    ensures TickAll(s, k, ys) == TimerTick(s, k, ys[0])
  {}

  lemma TicksLeftStep(tick: int, left: nat)
    requires 0 <= tick < 0x1_0000_0000 && left == TicksLeft(tick)
    ensures left == 1 <==> Quantum(NextTick(tick))
    ensures 0 <= NextTick(tick) < 0x1_0000_0000 && (left != 1 ==> TicksLeft(NextTick(tick)) == left - 1)
  {}

  /** A tick that does not schedule takes no notice of who is current. */
  lemma TickIsHarmless(k: Layout, c: Config, y: Path)
    requires Amid(k, c) && !Quantum(NextTick(c.s.tick))
    ensures var c' := Apply(k, c, Tick(y));
      && TimerTick(Ahead(c), k, y) == Ahead(c') && Amid(k, c') && c'.ts == c.ts && c'.cur == c.cur
      && c'.s.core.cpu == c.s.core.cpu && c'.s.tick == NextTick(c.s.tick)
  {
    TickIsPit(c.s, k, y);
    TickIsPit(Ahead(c), k, y);
    TickStays(k, c, Tick(y));
    StayInv(k, c, Tick(y));
  }

  /** A scheduling tick parks the running stack in the next thread's control block: that thread, until then ready to be
    * resumed, is lost. */
  lemma TickLosesNext(k: Layout, c: Config, y: Path)
    requires Amid(k, c) && Quantum(NextTick(c.s.tick))
    ensures var th, nx, m := c.ts[c.cur], c.ts[After(c.cur, |c.ts|)], TimerTick(Ahead(c), k, y).core.mem;
      th.lo <= SavedEsp(m, nx.pcb) < th.hi && !Suspended(k, m, nx)
  {
    var q0 := Entry(c.s, k, Tick(y));
    EntryIsOk(k, c, Tick(y));
    EntryBounds(k, c, q0);
    Overwrites(k, c, q0, y.sched);
    var q := q0.(current := c.ts[After(c.cur, |c.ts|)].pcb);
    assert Entry(Ahead(c), k, Tick(y)) == q;
    TickIsPit(Ahead(c), k, y);
    assert TimerTick(Ahead(c), k, y) == Finish(Schedule(q, k, y.sched), k, y.back);
    NotItsOwn(k, Schedule(q, k, y.sched).core.mem, c.ts[c.cur], c.ts[After(c.cur, |c.ts|)]);
  }

  /** To the other threads, being inside process_schedule is a computation like any other. */
  lemma InsideIsCompute(k: Layout, c: Config, x: Scratch) returns (c1: Config)
    requires Inv(k, c) && c.ts[c.cur].lo + 2 * Room(k) <= c.s.core.cpu.esp
    ensures c1 == c.(s := c.s.(core := Inside(c, k, x))) && Inv(k, c1)
    ensures InterruptsOn(c1.s.core.cpu) == InterruptsOn(c.s.core.cpu)
  {
    var t := Inside(c, k, x);
    InsideWrites(c.s.core, k, x, t);
    InsideLegal(k, c, t);
    ComputeInv(k, c, Compute(t.cpu, t.mem));
    c1 := Apply(k, c, Compute(t.cpu, t.mem));
  }

  lemma InsideWrites(s: Core, k: Layout, x: Scratch, t: Core)
    requires t == Enter(Push(s, s.cpu.eip), k.schedLocals, x)
    ensures s.cpu.esp - Room(k) <= t.cpu.esp <= s.cpu.esp && SameSide(s.cpu, t.cpu)
    ensures Within(s.mem, t.mem, t.cpu.esp, s.cpu.esp)
  {
    var e := s.cpu.esp;
    var p := Push(s, s.cpu.eip);
    PushWrites(s, s.cpu.eip, e - 4);
    EnterWrites(p, k.schedLocals, x, e - 20 - 4 * k.schedLocals, e - 4);
  }

  /** The same code, segments, flags and address space. */
  predicate SameSide(c: Cpu, d: Cpu) {
    && d.eip == c.eip && d.eflags == c.eflags && d.cr3 == c.cr3
    && d.cs == c.cs && d.ds == c.ds && d.es == c.es && d.fs == c.fs && d.gs == c.gs
  }

  lemma InsideLegal(k: Layout, c: Config, t: Core)
    requires Inv(k, c) && SameSide(c.s.core.cpu, t.cpu)
    requires c.ts[c.cur].lo + Room(k) <= t.cpu.esp <= c.s.core.cpu.esp
    requires Within(c.s.core.mem, t.mem, t.cpu.esp, c.s.core.cpu.esp)
    ensures Legal(k, c, Compute(t.cpu, t.mem))
  {
    StackIsOwn(k, c, t.mem, t.cpu.esp);
  }

  lemma StackIsOwn(k: Layout, c: Config, m: Mem, lo: int)
    requires Shape(c.ts) && c.cur < |c.ts| && c.ts[c.cur].lo <= lo && c.s.core.cpu.esp <= c.ts[c.cur].hi
    requires Within(c.s.core.mem, m, lo, c.s.core.cpu.esp)
    ensures Respects(c, m)
  {
    forall i, a | 0 <= i < |c.ts| && Owns(c.ts[i], a) && (i != c.cur || a < c.ts[i].lo || c.ts[i].hi <= a)
      ensures Read(m, a) == Read(c.s.core.mem, a)
    {
      assert i != c.cur ==> Apart(c.ts[c.cur], c.ts[i]);
    }
  }

  /** process_schedule entered with the next process current saves the running stack in that process's block. */
  lemma Overwrites(k: Layout, c: Config, q0: Kernel, x: Scratch)
    requires Inv(k, c) && Ready(k, c, q0) && |c.ts| > 1
    ensures var th, nx := c.ts[c.cur], c.ts[After(c.cur, |c.ts|)];
      th.lo <= SavedEsp(Schedule(q0.(current := nx.pcb), k, x).core.mem, nx.pcb) < th.hi
  {
    var j := After(c.cur, |c.ts|);
    EntryBounds(k, c, q0);
    BlocksKept(k, c, q0, x, j);
    TwoApart(k, c, j);
    ScheduleSaves(q0.(current := c.ts[j].pcb), k, x, c.ts[c.cur], c.ts[j].pcb, c.ts[After(j, |c.ts|)].pcb);
  }

  /** A call of process_schedule with current at pcb saves the caller's stack pointer there. */
  lemma ScheduleSaves(q: Kernel, k: Layout, x: Scratch, th: Thread, pcb: int, next: int)
    requires q.current == pcb && pcb != 0 && next == Next(Enter(q.core, k.schedLocals, x).mem, pcb) && next != pcb
    requires Ring0(q.core.cpu) && Clear(th.lo, th.hi, pcb, pcb + 20)
    requires th.lo + SwitchDepth(k) <= q.core.cpu.esp < th.hi
    ensures th.lo <= SavedEsp(Schedule(q, k, x).core.mem, pcb) < th.hi
  {
    var m := Enter(q.core, k.schedLocals, x).mem;
    ScheduleShape(q, k, x, next, SavedEsp(m, next), Directory(m, next), KernelStack(m, next));
    SavesAt(q.core, k, x, Thread(pcb, th.lo, th.hi), SavedEsp(m, next), Directory(m, next), SwitchCall(q, k, x));
  }

  lemma TwoApart(k: Layout, c: Config, j: nat)
    requires Inv(k, c) && |c.ts| > 1 && j == After(c.cur, |c.ts|)
    ensures j < |c.ts| && Apart(c.ts[c.cur], c.ts[j]) && c.ts[j].pcb != 0
    ensures Next(c.s.core.mem, c.ts[j].pcb) == c.ts[After(j, |c.ts|)].pcb != c.ts[j].pcb
  {
    assert Apart(c.ts[j], c.ts[After(j, |c.ts|)]);
  }

  lemma SavesAt(q: Core, k: Layout, x: Scratch, th: Thread, esp: int, cr3: int, u: Core)
    requires Ring0(q.cpu) && Clear(th.lo, th.hi, th.pcb, th.pcb + 20) && th.lo + SwitchDepth(k) <= q.cpu.esp < th.hi
    requires u == Depart(q, k, x, th.pcb + 4, esp, cr3)
    ensures th.lo <= SavedEsp(Switch(u).mem, th.pcb) < th.hi
  {
    CallSwitches(q, k, x, u, th, esp, cr3);
    SavedThere(q, k, u, Switch(u), th, esp, cr3);
  }

  lemma SavedThere(q: Core, k: Layout, u: Core, t: Core, th: Thread, esp: int, cr3: int)
    requires Switched(q, k, u, t, th.pcb + 4, esp, cr3) && th.lo + SwitchDepth(k) <= q.cpu.esp < th.hi
    ensures th.lo <= SavedEsp(t.mem, th.pcb) < th.hi
  {}

  lemma NotItsOwn(k: Layout, m: Mem, th: Thread, nx: Thread)
    requires Apart(th, nx) && th.lo <= SavedEsp(m, nx.pcb) < th.hi && 0 <= nx.lo < nx.hi
    ensures !Suspended(k, m, nx)
  {
    if Suspended(k, m, nx) {
      UnwindReads(k, LoadContext(KERNEL_CPU, m, SavedEsp(m, nx.pcb), 0), m, m, NO_SCRATCH, nx.hi);
    }
  }
}
