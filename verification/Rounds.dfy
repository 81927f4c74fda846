/** The scheduler over whole runs: whose turn it is, how soon, and that everyone comes back. */
module Rounds {
  import opened Memory
  import opened Context
  import opened Tasks
  import opened Runs

  // ---------------------------------------------------------------- round robin

  /** How many events of the run enter process_schedule, and how many are timer ticks. */
  function Schedulings(k: Layout, c: Config, es: seq<Event>): nat
    requires |c.ts| > 0
    decreases |es|
  {
    if es == [] then 0
    else (if Schedules(c, es[0]) then 1 else 0) + Schedulings(k, Apply(k, c, es[0]), es[1..])
  }

  function Ticks(es: seq<Event>): nat {
    if es == [] then 0 else (if es[0].Tick? then 1 else 0) + Ticks(es[1..])
  }

  predicate NoCreation(es: seq<Event>) {
    forall i :: 0 <= i < |es| ==> !es[i].Create?
  }

  /** m places after i in a ring of n. */
  function Places(i: nat, m: nat, n: nat): nat
    decreases m
  {
    if m == 0 then i else Places(After(i, n), m - 1, n)
  }

  lemma {:induction false} PlacesInRing(i: nat, m: nat, n: nat)
    requires i < n && m <= n
    ensures Places(i, m, n) == if i + m < n then i + m else i + m - n
    decreases m
  {
    if m > 0 {
      PlacesInRing(After(i, n), m - 1, n);
    }
  }

  lemma CurrentMoves(k: Layout, c: Config, e: Event)
    requires |c.ts| > 0 && !e.Create?
    ensures Apply(k, c, e).ts == c.ts
    ensures Apply(k, c, e).cur == if Schedules(c, e) then After(c.cur, |c.ts|) else c.cur
  {}

  /** Thread j has the processor: current_process points at its control block, the cpu runs its own code on its own
    * stack, and cr3 is its page directory. */
  ghost predicate Running(k: Layout, s: Kernel, th: Thread) {
    s.current == th.pcb && AtThread(k, th, s.core.cpu) && s.core.cpu.cr3 == Directory(s.core.mem, th.pcb)
  }

  lemma {:induction false} CurMoves(k: Layout, c: Config, es: seq<Event>)
    requires |c.ts| > 0 && NoCreation(es)
    ensures var c' := Run(k, c, es);
      c'.ts == c.ts && c'.cur == Places(c.cur, Schedulings(k, c, es), |c.ts|)
    decreases |es|
  {
    if es != [] {
      var c1, moves := FirstEvent(k, c, es);
      CurMoves(k, c1, es[1..]);
    }
  }

  /** The run behind its first event. */
  lemma FirstEvent(k: Layout, c: Config, es: seq<Event>) returns (c1: Config, moves: bool)
    requires |c.ts| > 0 && NoCreation(es) && es != []
    ensures c1.ts == c.ts && c1.cur == (if moves then After(c.cur, |c.ts|) else c.cur) && NoCreation(es[1..])
    ensures Run(k, c, es) == Run(k, c1, es[1..])
    ensures Schedulings(k, c, es) == (if moves then 1 else 0) + Schedulings(k, c1, es[1..])
  {
    c1, moves := Apply(k, c, es[0]), Schedules(c, es[0]);
    CurrentMoves(k, c, es[0]);
  }

  /** With nobody created, after m schedulings the thread m places on in the ring has the processor, whatever else
    * has happened. */
  lemma RoundRobin(k: Layout, c: Config, es: seq<Event>)
    requires Inv(k, c) && LegalRun(k, c, es) && NoCreation(es)
    ensures Run(k, c, es).ts == c.ts && Places(c.cur, Schedulings(k, c, es), |c.ts|) < |c.ts|
    ensures Running(k, Run(k, c, es).s, c.ts[Places(c.cur, Schedulings(k, c, es), |c.ts|)])
  {
    CurMoves(k, c, es);
    RunInv(k, c, es);
  }

  /** How many schedulings from i to j. */
  function Turn(i: nat, j: nat, n: nat): int {
    if j > i then j - i else j + n - i
  }

  lemma PlacesTurn(i: nat, j: nat, n: nat)
    requires i < n && j < n
    ensures 1 <= Turn(i, j, n) <= n && Places(i, Turn(i, j, n), n) == j
  {
    PlacesInRing(i, Turn(i, j, n), n);
  }

  /** How many events of the run hand the processor to the thread with this control block. */
  function TurnsOf(k: Layout, c: Config, es: seq<Event>, pcb: int): nat
    requires |c.ts| > 0
    decreases |es|
  {
    if es == [] then 0 else
      var c1 := Apply(k, c, es[0]);
      (if Schedules(c, es[0]) && c1.s.current == pcb then 1 else 0) + TurnsOf(k, c1, es[1..], pcb)
  }

  lemma NextTurn(i: nat, j: nat, n: nat)
    requires i < n && j < n
    ensures After(i, n) < n
    ensures if After(i, n) == j then Turn(i, j, n) == 1 else Turn(After(i, n), j, n) == Turn(i, j, n) - 1
    ensures After(i, n) == j ==> Turn(After(i, n), j, n) == n
  {}

  /** Throughout the run current_process points at the control block of ts[cur]. */
  ghost predicate Tracks(k: Layout, c: Config, es: seq<Event>)
    requires |c.ts| > 0
    decreases |es|
  {
    && c.cur < |c.ts| && c.s.current == c.ts[c.cur].pcb
    && (es != [] ==> Tracks(k, Apply(k, c, es[0]), es[1..]))
  }

  lemma {:induction false} RunTracks(k: Layout, c: Config, es: seq<Event>)
    requires Inv(k, c) && LegalRun(k, c, es)
    ensures Tracks(k, c, es)
    decreases |es|
  {
    if es != [] {
      StepInv(k, c, es[0]);
      RunTracks(k, Apply(k, c, es[0]), es[1..]);
    }
  }

  ghost predicate OwnBlocks(ts: seq<Thread>) {
    forall i, j :: 0 <= i < j < |ts| ==> ts[i].pcb != ts[j].pcb
  }

  lemma ShapeOwnBlocks(ts: seq<Thread>)
    requires Shape(ts)
    ensures OwnBlocks(ts)
  {
    forall i, j | 0 <= i < j < |ts|
      ensures ts[i].pcb != ts[j].pcb
    {
      assert Apart(ts[i], ts[j]);
    }
  }

  /** In a run of at most n schedulings, j has one turn if its place is reached, and none otherwise. */
  lemma {:induction false} TurnsInRun(k: Layout, c: Config, es: seq<Event>, j: nat)
    requires |c.ts| > 0 && OwnBlocks(c.ts) && Tracks(k, c, es)
    requires NoCreation(es) && j < |c.ts| && Schedulings(k, c, es) <= |c.ts|
    ensures TurnsOf(k, c, es, c.ts[j].pcb) == if Turn(c.cur, j, |c.ts|) <= Schedulings(k, c, es) then 1 else 0
    decreases |es|
  {
    if es != [] {
      var c1 := Apply(k, c, es[0]);
      CurrentMoves(k, c, es[0]);
      TurnsInRun(k, c1, es[1..], j);
      assert c1.s.current == c.ts[j].pcb <==> c1.cur == j;
      TurnSum(c.cur, c1.cur, j, |c.ts|, Schedules(c, es[0]), Schedulings(k, c1, es[1..]));
    }
  }

  lemma TurnSum(i: nat, i1: nat, j: nat, n: nat, moves: bool, later: nat)
    requires i < n && j < n && i1 == (if moves then After(i, n) else i) && later + (if moves then 1 else 0) <= n
    ensures var here := if moves && i1 == j then 1 else 0;
      here + (if Turn(i1, j, n) <= later then 1 else 0)
      == if Turn(i, j, n) <= later + (if moves then 1 else 0) then 1 else 0
  {
    NextTurn(i, j, n);
  }

  /** Any run with exactly n schedulings, n threads and nobody created hands the processor to every thread exactly
    * once, and ends with the thread it began with. */
  lemma OneTurnEach(k: Layout, c: Config, es: seq<Event>)
    requires Inv(k, c) && LegalRun(k, c, es) && NoCreation(es) && Schedulings(k, c, es) == |c.ts|
    ensures forall j :: 0 <= j < |c.ts| ==> TurnsOf(k, c, es, c.ts[j].pcb) == 1
    ensures Running(k, Run(k, c, es).s, c.ts[c.cur])
  {
    RunTracks(k, c, es);
    ShapeOwnBlocks(c.ts);
    forall j: nat | j < |c.ts|
      ensures TurnsOf(k, c, es, c.ts[j].pcb) == 1
    {
      TurnsInRun(k, c, es, j);
    }
    PlacesInRing(c.cur, |c.ts|, |c.ts|);
    RoundRobin(k, c, es);
  }

  lemma TickCounts(k: Layout, c: Config, e: Event)
    requires |c.ts| > 0
    ensures Apply(k, c, e).s.tick == if e.Tick? then NextTick(c.s.tick) else c.s.tick
  {
    if e.Tick? {
      TickIsPit(c.s, k, e.x);
    }
  }

  lemma QuantumStep(t: int)
    requires 0 <= t < 0x1_0000_0000
    ensures 0 <= NextTick(t) < 0x1_0000_0000
    ensures NextTick(t) % 50 == 0 || NextTick(t) % 50 == t % 50 + 1
  {}

  /** The ticks since the last scheduling tick: at most 49, wrap of the counter or not. */
  lemma {:induction false} QuantumBound(k: Layout, c: Config, es: seq<Event>)
    requires |c.ts| > 0 && 0 <= c.s.tick < 0x1_0000_0000
    ensures 50 * Schedulings(k, c, es) + 49 >= c.s.tick % 50 + Ticks(es)
    decreases |es|
  {
    if es != [] {
      TickCounts(k, c, es[0]);
      QuantumStep(c.s.tick);
      QuantumBound(k, Apply(k, c, es[0]), es[1..]);
    }
  }

  function Yields(es: seq<Event>): nat {
    if es == [] then 0 else (if es[0].Yield? then 1 else 0) + Yields(es[1..])
  }

  /** How many of the first u ticks since the counter was 0 bring it to a multiple of 50: in each full turn of its
    * 32 bits 85899345, and the 0 at the end. */
  function Multiples(u: nat): nat {
    u / 0x1_0000_0000 * 85899346 + u % 0x1_0000_0000 / 50
  }

  lemma NextMultiple(u: nat, t: nat)
    requires t == u % 0x1_0000_0000
    ensures NextTick(t) == (u + 1) % 0x1_0000_0000
    ensures Multiples(u + 1) == Multiples(u) + if NextTick(t) % 50 == 0 then 1 else 0
  {
    var q := u / 0x1_0000_0000;
    assert u == 0x1_0000_0000 * q + t;
    if t == 0xFFFF_FFFF {
      assert u + 1 == 0x1_0000_0000 * (q + 1);
      assert t / 50 == 85899345;
    } else {
      assert u + 1 == 0x1_0000_0000 * q + (t + 1);
      NextFifty(t);
    }
  }

  lemma NextFifty(t: nat)
    ensures (t + 1) / 50 == t / 50 + if (t + 1) % 50 == 0 then 1 else 0
  {}

  /** Exactly how often a run enters process_schedule: once for each call, and once for each tick that brings the
    * counter to a multiple of 50. u and v are the counter before and after as it would be without wrapping. */
  lemma {:induction false} QuantumExact(k: Layout, c: Config, es: seq<Event>, u: nat, v: nat)
    requires |c.ts| > 0 && c.s.tick == u % 0x1_0000_0000 && v == u + Ticks(es)
    ensures Schedulings(k, c, es) + Multiples(u) == Yields(es) + Multiples(v)
    ensures Run(k, c, es).s.tick == v % 0x1_0000_0000
    decreases |es|
  {
    if es != [] {
      TickCounts(k, c, es[0]);
      NextMultiple(u, c.s.tick);
      QuantumExact(k, Apply(k, c, es[0]), es[1..], if es[0].Tick? then u + 1 else u, v);
    }
  }

  /** While the counter does not wrap and nobody calls, every 50th tick schedules and no other does. */
  lemma EveryFiftieth(k: Layout, c: Config, es: seq<Event>)
    requires |c.ts| > 0 && Yields(es) == 0 && 0 <= c.s.tick && c.s.tick + Ticks(es) < 0x1_0000_0000
    ensures Schedulings(k, c, es) == (c.s.tick % 50 + Ticks(es)) / 50
  {
    QuantumExact(k, c, es, c.s.tick, c.s.tick + Ticks(es));
    FewMultiples(c.s.tick, Ticks(es), c.s.tick + Ticks(es));
  }

  lemma Fifties(q: nat, r: nat, v: nat)
    requires v == 50 * q + r
    ensures v / 50 == q + r / 50
  {}

  lemma FewMultiples(t: nat, n: nat, v: nat)
    requires v == t + n < 0x1_0000_0000
    ensures Multiples(v) == Multiples(t) + (t % 50 + n) / 50
  {
    assert Multiples(v) == v / 50 && Multiples(t) == t / 50;
    Fifties(t / 50, t % 50 + n, v);
  }

  /** A thread that gets the processor by a tick keeps it for the next 49, if it does not call process_schedule and the
    * counter does not wrap. */
  lemma KeepsQuantum(k: Layout, c: Config, es: seq<Event>)
    requires |c.ts| > 0 && Yields(es) == 0 && 0 <= c.s.tick && c.s.tick + Ticks(es) < 0x1_0000_0000
    requires c.s.tick % 50 + Ticks(es) < 50
    ensures Run(k, c, es).cur == c.cur
  {
    EveryFiftieth(k, c, es);
    StaysOn(k, c, es);
  }

  lemma {:induction false} StaysOn(k: Layout, c: Config, es: seq<Event>)
    requires |c.ts| > 0 && Schedulings(k, c, es) == 0
    ensures Run(k, c, es).cur == c.cur
    decreases |es|
  {
    if es != [] {
      StaysOn(k, Apply(k, c, es[0]), es[1..]);
    }
  }

  /** Some prefix of the run has exactly m schedulings, for every m up to their number. */
  lemma {:induction false} PrefixWith(k: Layout, c: Config, es: seq<Event>, m: nat) returns (l: nat)
    requires |c.ts| > 0 && m <= Schedulings(k, c, es)
    ensures l <= |es| && Schedulings(k, c, es[..l]) == m
    decreases |es|
  {
    if m == 0 {
      l := 0;
    } else {
      var c1, step := Apply(k, c, es[0]), if Schedules(c, es[0]) then 1 else 0;
      var l1 := PrefixWith(k, c1, es[1..], m - step);
      l := l1 + 1;
      assert es[..l][1..] == es[1..][..l1];
    }
  }

  lemma EnoughTurns(turns: nat, phase: nat, ticks: nat, n: nat)
    requires 50 * turns + 49 >= phase + ticks && ticks >= 50 * n
    ensures turns >= n
  {}

  /** Fairness: with n threads and nobody created, within 50 * n ticks every thread gets the processor, no matter what
    * the threads do and whether the 32-bit tick counter wraps meanwhile. */
  lemma Fairness(k: Layout, c: Config, es: seq<Event>, j: nat) returns (l: nat)
    requires Inv(k, c) && LegalRun(k, c, es) && NoCreation(es) && j < |c.ts| && 0 <= c.s.tick < 0x1_0000_0000
    requires Ticks(es) >= 50 * |c.ts|
    ensures l <= |es| && Run(k, c, es[..l]).ts == c.ts && Running(k, Run(k, c, es[..l]).s, c.ts[j])
  {
    var n := |c.ts|;
    QuantumBound(k, c, es);
    EnoughTurns(Schedulings(k, c, es), c.s.tick % 50, Ticks(es), n);
    PlacesTurn(c.cur, j, n);
    l := PrefixWith(k, c, es, Turn(c.cur, j, n));
    LegalPrefix(k, c, es, l);
    RoundRobin(k, c, es[..l]);
  }

  // ---------------------------------------------------------------- everyone comes back

  /** A thread that is away comes back at the first scheduling of its turn. */
  lemma {:induction false} TurnComes(k: Layout, c: Config, es: seq<Event>, i: nat) returns (l: nat)
    requires c.cur < |c.ts| && i < |c.ts| && c.cur != i && LegalRun(k, c, es) && NoCreation(es)
    requires Schedulings(k, c, es) >= Turn(c.cur, i, |c.ts|)
    ensures l < |es| && Away(k, c, es[..l], i) && Arrives(k, Run(k, c, es[..l]), es[l], i)
    decreases |es|
  {
    var c1 := Apply(k, c, es[0]);
    CurrentMoves(k, c, es[0]);
    if c1.cur == i {
      l := 0;
    } else {
      var l1 := TurnComes(k, c1, es[1..], i);
      l := l1 + 1;
      assert es[..l][1..] == es[1..][..l1];
    }
  }

  lemma ComesBack(k: Layout, c0: Config, e0: Event, es: seq<Event>) returns (l: nat)
    requires Inv(k, c0) && Legal(k, c0, e0) && Schedules(c0, e0) && |c0.ts| > 1
    requires LegalRun(k, Apply(k, c0, e0), es) && NoCreation(es)
    requires Schedulings(k, Apply(k, c0, e0), es) >= |c0.ts| - 1
    ensures l < |es| && Absence(k, c0, e0, es[..l], es[l])
  {
    var c1, i := Apply(k, c0, e0), c0.cur;
    CurrentMoves(k, c0, e0);
    FullTurn(i, |c0.ts|);
    l := TurnComes(k, c1, es, i);
    IsAbsence(k, c0, e0, c1, es, es[..l], es[l], l);
  }

  lemma FullTurn(i: nat, n: nat)
    requires i < n && n > 1
    ensures After(i, n) != i && After(i, n) < n && Turn(After(i, n), i, n) == n - 1
  {}

  lemma IsAbsence(k: Layout, c0: Config, e0: Event, c1: Config, es: seq<Event>, es': seq<Event>, e1: Event, l: nat)
    requires Inv(k, c0) && Legal(k, c0, e0) && Schedules(c0, e0) && |c0.ts| > 1 && c1 == Apply(k, c0, e0)
    requires LegalRun(k, c1, es) && l < |es| && es' == es[..l]
    requires Away(k, c1, es', c0.cur) && Arrives(k, Run(k, c1, es'), e1, c0.cur)
    ensures Absence(k, c0, e0, es', e1)
  {
    LegalPrefix(k, c1, es, l);
  }

  lemma {:induction false} LegalPrefix(k: Layout, c: Config, es: seq<Event>, l: nat)
    requires |c.ts| > 0 && LegalRun(k, c, es) && l <= |es|
    ensures LegalRun(k, c, es[..l])
    decreases l
  {
    if l > 0 {
      LegalPrefix(k, Apply(k, c, es[0]), es[1..], l - 1);
      assert es[..l][1..] == es[1..][..l - 1];
    }
  }

  /** Every preempted thread is back within 50 ticks for each thread there is, with its registers, eip, eflags and
    * stack as they were when the timer interrupted it. */
  lemma PreemptedIsBack(k: Layout, c0: Config, e0: Event, es: seq<Event>) returns (l: nat)
    requires Inv(k, c0) && Legal(k, c0, e0) && Schedules(c0, e0) && |c0.ts| > 1 && e0.Tick?
    requires 0 <= c0.s.tick < 0x1_0000_0000
    requires LegalRun(k, Apply(k, c0, e0), es) && NoCreation(es) && Ticks(es) >= 50 * |c0.ts|
    ensures l < |es|
    ensures var c3, th := Run(k, Apply(k, c0, e0), es[..l + 1]), c0.ts[c0.cur];
      && c3.cur == c0.cur && c3.s.core.cpu == c0.s.core.cpu
      && SameOn(c0.s.core.mem, c3.s.core.mem, c0.s.core.cpu.esp, th.hi)
  {
    var c1 := Apply(k, c0, e0);
    CurrentMoves(k, c0, e0);
    TickCounts(k, c0, e0);
    QuantumStep(c0.s.tick);
    QuantumBound(k, c1, es);
    EnoughTurns(Schedulings(k, c1, es), c1.s.tick % 50, Ticks(es), |c0.ts|);
    l := ComesBack(k, c0, e0, es);
    PreemptionTransparent(k, c0, e0, es[..l], es[l]);
    RunSnoc(k, c1, es, l);
  }

  lemma {:induction false} RunSnoc(k: Layout, c: Config, es: seq<Event>, l: nat)
    requires |c.ts| > 0 && l < |es|
    ensures Run(k, c, es[..l + 1]) == Apply(k, Run(k, c, es[..l]), es[l])
    decreases l
  {
    if l == 0 {
      assert es[..1][1..] == [];
    } else {
      assert es[..l][1..] == es[1..][..l - 1] && es[..l + 1][1..] == es[1..][..l];
      RunSnoc(k, Apply(k, c, es[0]), es[1..], l - 1);
    }
  }

  /** cli, by the running thread. */
  function ClearInterrupts(c: Config): Event {
    Compute(c.s.core.cpu.(eflags := ClearIF(c.s.core.cpu.eflags)), c.s.core.mem)
  }

  lemma ClearIsLegal(k: Layout, c: Config)
    requires Inv(k, c)
    ensures var c1 := Apply(k, c, ClearInterrupts(c));
      Legal(k, c, ClearInterrupts(c)) && c1.ts == c.ts && c1.cur == c.cur && !InterruptsOn(c1.s.core.cpu)
  {
    ClearIFClears(c.s.core.cpu.eflags);
  }

  /** Nothing happens but that whoever runs turns interrupts off and calls process_schedule. */
  predicate OnlyYields(es: seq<Event>, x: Path) {
    forall i :: 0 <= i < |es| ==> es[i].Compute? || es[i] == Yield(x)
  }

  /** From any reachable state there is such a run with any number of calls. */
  lemma {:induction false} YieldRun(k: Layout, c: Config, x: Path, n: nat) returns (es: seq<Event>)
    requires Inv(k, c)
    ensures |c.ts| > 0 && OnlyYields(es, x) && LegalRun(k, c, es) && Schedulings(k, c, es) == n
    decreases n
  {
    if n == 0 {
      es := [];
    } else {
      var c2 := PoliteTurn(k, c, x);
      var rest := YieldRun(k, c2, x, n - 1);
      es := [ClearInterrupts(c), Yield(x)] + rest;
      PoliteStep(k, c, ClearInterrupts(c), x, c2, rest, es);
    }
  }

  lemma PoliteTurn(k: Layout, c: Config, x: Path) returns (c2: Config)
    requires Inv(k, c)
    ensures |c.ts| > 0 && Legal(k, c, ClearInterrupts(c))
    ensures Legal(k, Apply(k, c, ClearInterrupts(c)), Yield(x))
    ensures c2 == Apply(k, Apply(k, c, ClearInterrupts(c)), Yield(x)) && Inv(k, c2)
  {
    var off := ClearInterrupts(c);
    var c1 := Apply(k, c, off);
    ClearIsLegal(k, c);
    StepInv(k, c, off);
    StepInv(k, c1, Yield(x));
    c2 := Apply(k, c1, Yield(x));
  }

  lemma PoliteStep(k: Layout, c: Config, e: Event, x: Path, c2: Config, rest: seq<Event>, es: seq<Event>)
    requires |c.ts| > 0 && es == [e, Yield(x)] + rest && e.Compute?
    requires Legal(k, c, e) && Legal(k, Apply(k, c, e), Yield(x)) && c2 == Apply(k, Apply(k, c, e), Yield(x))
    requires LegalRun(k, c2, rest) && OnlyYields(rest, x)
    ensures LegalRun(k, c, es) && OnlyYields(es, x) && Schedulings(k, c, es) == 1 + Schedulings(k, c2, rest)
  {
    var tail := es[1..];
    assert tail[0] == Yield(x) && tail[1..] == rest;
    assert LegalRun(k, Apply(k, c, e), tail);
    assert Schedulings(k, Apply(k, c, e), tail) == 1 + Schedulings(k, c2, rest);
  }

  /** From any reachable state with several threads, a thread that calls process_schedule with interrupts off has the
    * processor back after at most n - 1 further calls by the others. */
  lemma YieldsComeBack(k: Layout, c: Config, x: Path) returns (es: seq<Event>, e: Event)
    requires Inv(k, c) && |c.ts| > 1 && !InterruptsOn(c.s.core.cpu)
    ensures OnlyYields(es + [e], x) && Absence(k, c, Yield(x), es, e)
    ensures Schedulings(k, Apply(k, c, Yield(x)), es) < |c.ts| - 1
  {
    var n, c1 := |c.ts| - 1, Apply(k, c, Yield(x));
    CurrentMoves(k, c, Yield(x));
    StepInv(k, c, Yield(x));
    var all := YieldRun(k, c1, x, n);
    var l := ComesBack(k, c, Yield(x), all);
    es, e := all[..l], all[l];
    OnlyPrefix(all, x, l);
    ReturnSchedules(k, c, Yield(x), es, e);
    FewerBefore(k, c1, all, l);
  }

  lemma OnlyPrefix(es: seq<Event>, x: Path, l: nat)
    requires OnlyYields(es, x) && l < |es|
    ensures OnlyYields(es[..l] + [es[l]], x)
  {}

  lemma ReturnSchedules(k: Layout, c0: Config, e0: Event, es: seq<Event>, e1: Event)
    requires Absence(k, c0, e0, es, e1) && !e1.Create?
    ensures Schedules(Run(k, Apply(k, c0, e0), es), e1)
  {
    CurrentMoves(k, Run(k, Apply(k, c0, e0), es), e1);
  }

  lemma {:induction false} FewerBefore(k: Layout, c: Config, es: seq<Event>, l: nat)
    requires |c.ts| > 0 && l < |es| && Schedules(Run(k, c, es[..l]), es[l])
    ensures Schedulings(k, c, es[..l]) < Schedulings(k, c, es)
    decreases l
  {
    if l == 0 {
      assert es[..0] == [];
    } else {
      assert es[..l][1..] == es[1..][..l - 1];
      FewerBefore(k, Apply(k, c, es[0]), es[1..], l - 1);
    }
  }
}
