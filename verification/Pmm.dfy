/** The physical block allocator: a bitmap packed in 32-bit words, a set bit standing for a used block. */
module Pmm {
  import opened Bits

  const FULL_WORD: nat := 0xFFFF_FFFF

  // ---------------------------------------------------------------- the bitmap as a set

  predicate BitAt(ws: seq<nat>, b: nat)
    requires b < 32 * |ws|
  {
    Bit(ws[b / 32], b % 32)
  }

  /** The block numbers a bitmap marks as used. */
  ghost function UsedOf(ws: seq<nat>): set<nat> {
    set b: nat | b < 32 * |ws| && BitAt(ws, b)
  }

  lemma SetBlock(ws: seq<nat>, b: nat)
    requires b < 32 * |ws|
    ensures UsedOf(ws[b / 32 := Or(ws[b / 32], Shift(b % 32))]) == UsedOf(ws) + {b}
  {
    var ws' := ws[b / 32 := Or(ws[b / 32], Shift(b % 32))];
    forall c: nat | c < 32 * |ws|
      ensures BitAt(ws', c) <==> c == b || BitAt(ws, c)
    {
      OrBit(ws[b / 32], Shift(b % 32), c % 32);
      ShiftBit(b % 32, c % 32);
    }
  }

  lemma ClearBlock(ws: seq<nat>, b: nat)
    requires b < 32 * |ws|
    ensures UsedOf(ws[b / 32 := AndNot(ws[b / 32], Shift(b % 32))]) == UsedOf(ws) - {b}
  {
    var ws' := ws[b / 32 := AndNot(ws[b / 32], Shift(b % 32))];
    forall c: nat | c < 32 * |ws|
      ensures BitAt(ws', c) <==> c != b && BitAt(ws, c)
    {
      AndNotBit(ws[b / 32], Shift(b % 32), c % 32);
      ShiftBit(b % 32, c % 32);
    }
  }

  lemma AllSet(ws: seq<nat>)
    requires forall i :: 0 <= i < |ws| ==> ws[i] == FULL_WORD
    ensures UsedOf(ws) == Blocks(32 * |ws|)
  {
    Shift32();
    forall b: nat | b < 32 * |ws|
      ensures BitAt(ws, b)
    {
      FullBit(32, b % 32);
    }
  }

  function Blocks(n: nat): (s: set<nat>)
    ensures forall b: nat :: b in s <==> b < n
    ensures |s| == n
  {
    if n == 0 then {} else Blocks(n - 1) + {n - 1}
  }

  lemma SubsetSize(s: set<nat>, t: set<nat>)
    requires s <= t
    ensures |s| <= |t| && (|s| == |t| ==> s == t)
  {
    assert t == s + (t - s);
  }

  lemma CountFree(s: set<nat>, n: nat)
    requires s <= Blocks(n)
    ensures |Blocks(n) - s| == n - |s|
  {
    assert Blocks(n) == s + (Blocks(n) - s);
  }

  lemma NoWrap(k: nat)
    requires k < 0x10_0000
    ensures (k * 4096) % 0x1_0000_0000 == k * 4096 < 0x1_0000_0000
  {}

  // ---------------------------------------------------------------- first fit

  /** The least block from `from` on that is not used; n when there is none. */
  function FirstFree(used: set<nat>, n: nat, from: nat := 0): (b: nat)
    requires from <= n
    ensures from <= b <= n
    ensures b < n ==> b !in used
    ensures forall c: nat :: from <= c < b ==> c in used
    decreases n - from
  {
    if from == n || from !in used then from else FirstFree(used, n, from + 1)
  }

  function AllocUsed(used: set<nat>, n: nat): set<nat> {
    if FirstFree(used, n) < n then used + {FirstFree(used, n)} else used
  }

  /** The address handed out, a null pointer standing for "none left". */
  function AllocAddress(used: set<nat>, n: nat): int {
    if FirstFree(used, n) < n then FirstFree(used, n) * 4096 else 0
  }

  /** A null answer means "none left" exactly when block 0 is in use or there are no blocks at all. */
  lemma NullMeansFull(used: set<nat>, n: nat)
    requires used <= Blocks(n)
    ensures (AllocAddress(used, n) == 0 <==> used == Blocks(n)) <==> (0 in used || n == 0)
  {
    var b := FirstFree(used, n);
    if b == n {
      assert Blocks(n) <= used;
    } else {
      assert b in Blocks(n);
    }
  }

  /** While block 0 is in use, null means "none left", and any other answer is the first free block's address. */
  lemma AnswerBlock(used: set<nat>, n: nat)
    requires 0 in used
    ensures AllocAddress(used, n) == 0 <==> FirstFree(used, n) == n
    ensures AllocAddress(used, n) != 0 ==>
      AllocAddress(used, n) % 4096 == 0 && AllocAddress(used, n) / 4096 == FirstFree(used, n)
  {}

  // ---------------------------------------------------------------- runs of the allocator

  datatype Request = Alloc | Free(block: nat)

  /** The used set, and the blocks handed out and not given back since, as often as they were. */
  datatype Ledger = Ledger(used: set<nat>, held: multiset<nat>)

  /** Callers give back only what they hold. */
  predicate Allowed(l: Ledger, r: Request) {
    r.Free? ==> r.block in l.held
  }

  function Serve(l: Ledger, n: nat, r: Request): Ledger {
    match r
    case Free(b) => Ledger(l.used - {b}, l.held - multiset{b})
    case Alloc =>
      Ledger(AllocUsed(l.used, n),
             if FirstFree(l.used, n) < n then l.held + multiset{FirstFree(l.used, n)} else l.held)
  }

  predicate AllAllowed(l: Ledger, n: nat, rs: seq<Request>)
    decreases |rs|
  {
    rs == [] || (Allowed(l, rs[0]) && AllAllowed(Serve(l, n, rs[0]), n, rs[1..]))
  }

  function ServeAll(l: Ledger, n: nat, rs: seq<Request>): Ledger
    decreases |rs|
  {
    if rs == [] then l else ServeAll(Serve(l, n, rs[0]), n, rs[1..])
  }

  /** What is used is what was reserved and what is held; nothing is both, and no block has two holders. */
  ghost predicate Balanced(l: Ledger, n: nat, reserved: set<nat>) {
    && l.used <= Blocks(n)
    && (forall b :: b in l.used <==> b in reserved || b in l.held)
    && (forall b :: b in reserved ==> b !in l.held)
    && (forall b :: l.held[b] <= 1)
  }

  /** Over any run of allocations and of frees by holders the books balance: no block in anyone's hands, and no
    * reserved block, is ever handed out. */
  lemma {:induction false} LedgerBalances(l: Ledger, n: nat, rs: seq<Request>, reserved: set<nat>)
    requires Balanced(l, n, reserved) && AllAllowed(l, n, rs)
    ensures Balanced(ServeAll(l, n, rs), n, reserved)
    decreases |rs|
  {
    if rs != [] {
      LedgerBalances(Serve(l, n, rs[0]), n, rs[1..], reserved);
    }
  }

  // ---------------------------------------------------------------- the boot memory map

  datatype MmapEntry = MmapEntry(size: nat, addr: nat, len: nat, available: bool)

  /** `mods`: the ends of the boot modules, when flag bit 3 says there are any; `hasMmap`: flag bit 6. */
  datatype BootInfo = BootInfo(memLower: nat, memUpper: nat, mods: seq<nat>,
                               hasMmap: bool, mmapAddr: nat, mmapLength: nat)

  function MaxBlocks(info: BootInfo): (n: nat)
    ensures n < 0x10_0000
  {
    (((info.memLower + info.memUpper) % 0x1_0000_0000) * 1024) % 0x1_0000_0000 / 4096
  }

  /** Where the bitmap is placed: behind the kernel and the last module listed. */
  function BitmapStart(info: BootInfo, kernelEnd: nat): nat {
    if |info.mods| > 0 && info.mods[|info.mods| - 1] > kernelEnd then info.mods[|info.mods| - 1] else kernelEnd
  }

  const WRAP: nat := 0x1_0000_0000

  function SafeStart(info: BootInfo, kernelEnd: nat): nat {
    (BitmapStart(info, kernelEnd) + MaxBlocks(info) / 8) % WRAP
  }

  function MapEnd(info: BootInfo): nat {
    (info.mmapAddr + info.mmapLength) % WRAP
  }

  /** Every entry the walk reaches is there, and each stride (size field plus 4) stays below 4 GiB. */
  predicate MapReadable(table: map<nat, MmapEntry>, at: nat, end: nat)
    decreases end - at
  {
    at < end ==>
      at in table && at + table[at].size + 4 < WRAP && MapReadable(table, at + table[at].size + 4, end)
  }

  /** The entries in the order of the walk. */
  function Entries(table: map<nat, MmapEntry>, at: nat, end: nat): seq<MmapEntry>
    requires MapReadable(table, at, end)
    decreases end - at
  {
    if at >= end then [] else [table[at]] + Entries(table, at + table[at].size + 4, end)
  }

  /** The bytes these entries take, each with its size field in front. */
  function Span(rs: seq<MmapEntry>): nat {
    if rs == [] then 0 else Span(rs[..|rs| - 1]) + rs[|rs| - 1].size + 4
  }

  /** Where entry i lies when they begin at start. */
  function EntryAddress(start: nat, rs: seq<MmapEntry>, i: nat): nat
    requires i <= |rs|
  {
    start + Span(rs[..i])
  }

  /** The entries rs lie in memory one after the other, as the boot loader puts them there. */
  ghost predicate LaidOut(table: map<nat, MmapEntry>, start: nat, rs: seq<MmapEntry>) {
    forall i: nat :: i < |rs| ==>
      EntryAddress(start, rs, i) in table && table[EntryAddress(start, rs, i)] == rs[i]
  }

  lemma SpanStep(rs: seq<MmapEntry>, i: nat)
    requires i < |rs|
    ensures Span(rs[..i + 1]) == Span(rs[..i]) + rs[i].size + 4
  {
    assert rs[..i + 1][..i] == rs[..i];
  }

  lemma {:induction false} SpanGrows(rs: seq<MmapEntry>, i: nat)
    requires i <= |rs|
    ensures Span(rs[..i]) <= Span(rs) && (i < |rs| ==> Span(rs[..i]) < Span(rs))
    decreases |rs| - i
  {
    if i < |rs| {
      SpanStep(rs, i);
      SpanGrows(rs, i + 1);
    } else {
      assert rs[..i] == rs;
    }
  }

  /** The walk from entry i on meets the entries as they were laid out, and can be made. */
  lemma {:induction false} WalkMeets(table: map<nat, MmapEntry>, start: nat, rs: seq<MmapEntry>, i: nat, at: nat,
                                     end: nat)
    requires LaidOut(table, start, rs) && i <= |rs| && at == EntryAddress(start, rs, i)
    requires end == start + Span(rs) < WRAP
    ensures MapReadable(table, at, end) && Entries(table, at, end) == rs[i..]
    decreases |rs| - i
  {
    SpanGrows(rs, i);
    if i < |rs| {
      SpanStep(rs, i);
      SpanGrows(rs, i + 1);
      WalkMeets(table, start, rs, i + 1, at + rs[i].size + 4, end);
    } else {
      assert rs[..i] == rs;
    }
  }

  /** Whatever the boot loader laid out is what the walk finds. */
  lemma MapIsRead(info: BootInfo, table: map<nat, MmapEntry>, rs: seq<MmapEntry>)
    requires info.hasMmap && LaidOut(table, info.mmapAddr, rs)
    requires info.mmapLength == Span(rs) && info.mmapAddr + Span(rs) < WRAP
    ensures MapOk(info, table) && RegionsOf(info, table) == rs
  {
    var start, end := info.mmapAddr, info.mmapAddr + Span(rs);
    assert MapEnd(info) == end;
    WalkMeetsAll(table, start, rs, end);
  }

  lemma WalkMeetsAll(table: map<nat, MmapEntry>, start: nat, rs: seq<MmapEntry>, end: nat)
    requires LaidOut(table, start, rs) && end == start + Span(rs) < WRAP
    ensures MapReadable(table, start, end) && Entries(table, start, end) == rs
  {
    assert rs[..0] == [] && rs[0..] == rs;
    WalkMeets(table, start, rs, 0, start, end);
  }

  /** The entries in `done` have been walked, the next one lies at `at`. */
  ghost predicate Walking(rs: seq<MmapEntry>, done: seq<MmapEntry>, table: map<nat, MmapEntry>, at: nat, end: nat) {
    MapReadable(table, at, end) && rs == done + Entries(table, at, end)
  }

  lemma NextEntry(rs: seq<MmapEntry>, done: seq<MmapEntry>, table: map<nat, MmapEntry>, at: nat, next: nat, end: nat)
    requires Walking(rs, done, table, at, end) && at < end && next == (at + table[at].size + 4) % WRAP
    ensures table[at] in rs && Walking(rs, done + [table[at]], table, next, end) && next > at
  {
    var rest := Entries(table, next, end);
    assert rs == (done + [table[at]]) + rest;
    assert rs[|done|] == table[at];
  }

  lemma WalkEnds(rs: seq<MmapEntry>, done: seq<MmapEntry>, table: map<nat, MmapEntry>, at: nat, end: nat)
    requires Walking(rs, done, table, at, end) && at >= end
    ensures done == rs
  {}

  /** The memory map, where flag bit 6 promises one. */
  predicate MapOk(info: BootInfo, table: map<nat, MmapEntry>) {
    info.hasMmap ==> MapReadable(table, info.mmapAddr, MapEnd(info))
  }

  function RegionsOf(info: BootInfo, table: map<nat, MmapEntry>): seq<MmapEntry>
    requires MapOk(info, table)
  {
    if info.hasMmap then Entries(table, info.mmapAddr, MapEnd(info)) else []
  }

  /** The address the inner loop has for block b in region r: it goes on from the region's first address in whole
    * pages. */
  function StepAddress(r: MmapEntry, b: nat): int {
    r.addr + 4096 * (b - r.addr / 4096)
  }

  /** The loop over region r reaches block b, at or above safe. */
  predicate Covers(r: MmapEntry, safe: nat, b: nat) {
    r.available && r.addr <= StepAddress(r, b) < r.addr + r.len && StepAddress(r, b) >= safe
  }

  ghost predicate Available(rs: seq<MmapEntry>, safe: nat, b: nat) {
    exists i :: 0 <= i < |rs| && Covers(rs[i], safe, b)
  }

  ghost function FreeAfterBoot(rs: seq<MmapEntry>, safe: nat, n: nat): set<nat> {
    set b | b in Blocks(n) && Available(rs, safe, b)
  }

  /** What the loops need of available regions to end, with addresses in 32 bits: the region ends below 4 GiB, and
    * the last whole page the stride can reach is not before its end. */
  predicate RegionsEnd(rs: seq<MmapEntry>) {
    forall i :: 0 <= i < |rs| && rs[i].available ==> rs[i].addr + rs[i].len <= WRAP && rs[i].len <= 0xFFFF_F000
  }

  /** The inner loop's counter after t turns. */
  function Turn(t: nat): nat {
    (4096 * t) % WRAP
  }

  /** The inner loop over a region of len bytes ends if and only if len is at most 0xFFFFF000: for any longer one the
    * 32-bit counter wraps to 0 before it gets there. */
  lemma InnerLoopEnds(len: nat)
    requires len < WRAP
    ensures (exists t :: Turn(t) >= len) <==> len <= 0xFFFF_F000
  {
    assert Turn(0xF_FFFF) == 0xFFFF_F000;
    forall t: nat
      ensures Turn(t) <= 0xFFFF_F000
    {
      TurnIsPage(t);
    }
  }

  lemma TurnIsPage(t: nat)
    ensures Turn(t) % 4096 == 0 && Turn(t) <= 0xFFFF_F000
  {
    var q, r := t / 0x10_0000, t % 0x10_0000;
    assert 4096 * t == WRAP * q + 4096 * r;
    assert Turn(t) == 4096 * r;
  }

  /** No block is reached by two regions, and none lies beyond the bitmap. */
  ghost predicate InsideOnce(rs: seq<MmapEntry>, safe: nat, n: nat) {
    Inside(rs, safe, n) && Once(rs, safe)
  }

  ghost predicate Inside(rs: seq<MmapEntry>, safe: nat, n: nat) {
    forall i, b: nat :: 0 <= i < |rs| && Covers(rs[i], safe, b) ==> b < n
  }

  ghost predicate Once(rs: seq<MmapEntry>, safe: nat) {
    forall i, j, b: nat :: 0 <= i < j < |rs| && Covers(rs[i], safe, b) ==> !Covers(rs[j], safe, b)
  }

  /** Of a region that begins at a page, the loop frees the blocks that start in it, at or above safe. */
  lemma CoversAligned(r: MmapEntry, safe: nat, b: nat)
    requires r.addr % 4096 == 0
    ensures Covers(r, safe, b) <==> r.available && r.addr <= b * 4096 < r.addr + r.len && b * 4096 >= safe
  {}

  /** The first address at or above safe that the loop over r comes to. */
  function FirstSafe(r: MmapEntry, safe: nat): nat {
    if r.addr >= safe then r.addr else r.addr + 4096 * ((safe - r.addr + 4095) / 4096)
  }

  /** The loop over r frees a block that starts below safe: its address there is not a multiple of the page size. */
  predicate Exposes(r: MmapEntry, safe: nat) {
    r.available && FirstSafe(r, safe) < r.addr + r.len && FirstSafe(r, safe) - r.addr % 4096 < safe
  }

  lemma FirstSafeLeast(r: MmapEntry, safe: nat, b: nat)
    requires Covers(r, safe, b)
    ensures FirstSafe(r, safe) <= StepAddress(r, b)
    ensures b * 4096 == StepAddress(r, b) - r.addr % 4096
  {
    var k, q := b - r.addr / 4096, (safe - r.addr + 4095) / 4096;
    assert r.addr == 4096 * (r.addr / 4096) + r.addr % 4096;
    if r.addr < safe {
      assert 4096 * k >= safe - r.addr;
      assert k >= q;
    }
  }

  lemma FirstSafeCovered(r: MmapEntry, safe: nat) returns (b: nat)
    requires r.available && FirstSafe(r, safe) < r.addr + r.len
    ensures Covers(r, safe, b) && b * 4096 == FirstSafe(r, safe) - r.addr % 4096
  {
    var q := if r.addr >= safe then 0 else (safe - r.addr + 4095) / 4096;
    b := r.addr / 4096 + q;
    assert StepAddress(r, b) == r.addr + 4096 * q == FirstSafe(r, safe);
  }

  lemma NothingExposed(rs: seq<MmapEntry>, safe: nat, n: nat, b: nat)
    requires (forall i :: 0 <= i < |rs| ==> !Exposes(rs[i], safe)) && b in FreeAfterBoot(rs, safe, n)
    ensures b * 4096 >= safe
  {
    var i :| 0 <= i < |rs| && Covers(rs[i], safe, b);
    FirstSafeLeast(rs[i], safe, b);
  }

  /** With the safe start inside memory, nothing below it is ever freed if and only if no region exposes a block. */
  lemma ProtectsExactly(rs: seq<MmapEntry>, safe: nat, n: nat)
    requires safe <= 4096 * n
    ensures (forall b :: b in FreeAfterBoot(rs, safe, n) ==> b * 4096 >= safe)
       <==> (forall i :: 0 <= i < |rs| ==> !Exposes(rs[i], safe))
  {
    if forall i :: 0 <= i < |rs| ==> !Exposes(rs[i], safe) {
      forall b | b in FreeAfterBoot(rs, safe, n)
        ensures b * 4096 >= safe
      {
        NothingExposed(rs, safe, n, b);
      }
    }
    forall i | 0 <= i < |rs| && Exposes(rs[i], safe)
      ensures exists b :: b in FreeAfterBoot(rs, safe, n) && b * 4096 < safe
    {
      var b := FirstSafeCovered(rs[i], safe);
      assert b in FreeAfterBoot(rs, safe, n);
    }
  }

  /** Regions that begin at a page, or end below safe, expose nothing. */
  lemma AlignedIsSafe(r: MmapEntry, safe: nat)
    requires r.addr % 4096 == 0 || r.addr + r.len <= safe
    ensures !Exposes(r, safe)
  {}

  // ---------------------------------------------------------------- the allocator

  /** How many blocks there are, and where memory is safe: behind the kernel, the last module and the bitmap. */
  method Sizes(info: BootInfo, kernelEnd: nat) returns (blocks: nat, safeMemStart: nat)
    ensures blocks == MaxBlocks(info) && safeMemStart == SafeStart(info, kernelEnd)
  {
    var memSizeKb := (info.memLower + info.memUpper) % WRAP;
    var memSizeBytes := (memSizeKb * 1024) % WRAP;
    blocks := memSizeBytes / 4096;
    safeMemStart := kernelEnd;
    if |info.mods| > 0 {
      var lastModEnd := info.mods[|info.mods| - 1];
      if lastModEnd > safeMemStart {
        safeMemStart := lastModEnd;
      }
    }
    var bitmapSize := blocks / 8;
    safeMemStart := (safeMemStart + bitmapSize) % WRAP;
  }

  class BlockAllocator {
    var bitmap: array<nat>
    var maxBlocks: nat
    var usedBlocks: nat
    /** How many bits are set. pmm_used_blocks is meant to say so. */
    ghost var count: nat

    /** The bitmap has one bit a block. */
    ghost predicate Valid()
      reads this, bitmap
    {
      Sized() && usedBlocks < WRAP && count == |Used()|
    }

    ghost predicate Sized()
      reads this`bitmap, this`maxBlocks, bitmap
    {
      && bitmap.Length * 32 == maxBlocks && maxBlocks < 0x10_0000
      && forall i :: 0 <= i < bitmap.Length ==> bitmap[i] <= FULL_WORD
    }

    /** The counter is off by d: it is right if d is 0. */
    ghost predicate Off(d: nat)
      reads this`usedBlocks, this`count
    {
      count < WRAP && usedBlocks == Counter(count, d)
    }

    ghost function Used(): set<nat>
      reads this`bitmap, bitmap
    {
      UsedOf(bitmap[..])
    }

    lemma UsedInRange()
      requires Valid()
      ensures Used() <= Blocks(maxBlocks) && count <= maxBlocks
    {
      SubsetSize(Used(), Blocks(maxBlocks));
    }

    method BitmapSet(b: nat)
      requires b < 32 * bitmap.Length
      requires forall i :: 0 <= i < bitmap.Length ==> bitmap[i] <= FULL_WORD
      modifies bitmap
      ensures Used() == old(Used()) + {b}
      ensures forall i :: 0 <= i < bitmap.Length ==> bitmap[i] <= FULL_WORD
    {
      SetBlock(bitmap[..], b);
      Shift32();
      ShiftGrows(b % 32, 32);
      OrWidth(bitmap[b / 32], Shift(b % 32), 32);
      ghost var ws := bitmap[..];
      bitmap[b / 32] := Or(bitmap[b / 32], Shift(b % 32));
      assert bitmap[..] == ws[b / 32 := Or(ws[b / 32], Shift(b % 32))];
    }

    method BitmapClear(b: nat)
      requires b < 32 * bitmap.Length
      requires forall i :: 0 <= i < bitmap.Length ==> bitmap[i] <= FULL_WORD
      modifies bitmap
      ensures Used() == old(Used()) - {b}
      ensures forall i :: 0 <= i < bitmap.Length ==> bitmap[i] <= FULL_WORD
    {
      ClearBlock(bitmap[..], b);
      AndNotShrinks(bitmap[b / 32], Shift(b % 32));
      ghost var ws := bitmap[..];
      bitmap[b / 32] := AndNot(bitmap[b / 32], Shift(b % 32));
      assert bitmap[..] == ws[b / 32 := AndNot(ws[b / 32], Shift(b % 32))];
    }

    /** Clears the bit of a used block and counts it as free. */
    method Release(b: nat)
      requires Valid() && b in Used()
      modifies this`usedBlocks, this`count, bitmap
      ensures Valid() && Used() == old(Used()) - {b} && (forall d: nat :: old(Off(d)) ==> Off(d))
    {
      UsedInRange();
      BitmapClear(b);
      CounterShifts(count, usedBlocks);
      usedBlocks := Down(usedBlocks);
      count := count - 1;
    }

    method BitmapTest(b: nat) returns (set_: bool)
      requires b < 32 * bitmap.Length
      ensures set_ <==> b in Used()
    {
      AndShift(bitmap[b / 32], b % 32);
      set_ := And(bitmap[b / 32], Shift(b % 32)) != 0;
    }

    /** Boot: everything is used, except the available blocks that start at or above the end of the kernel,
      * the modules and the bitmap itself. The counter goes down once for every turn of the inner loop. */
    constructor Initialize(info: BootInfo, table: map<nat, MmapEntry>, kernelEnd: nat)
      requires MaxBlocks(info) % 32 == 0 && MapOk(info, table) && RegionsEnd(RegionsOf(info, table))
      ensures Valid() && fresh(bitmap) && maxBlocks == MaxBlocks(info)
      ensures var rs, safe := RegionsOf(info, table), SafeStart(info, kernelEnd);
        && Used() == Blocks(maxBlocks) - FreeAfterBoot(rs, safe, maxBlocks)
        && Off(Idle(rs, safe, maxBlocks))
    {
      var blocks, safeMemStart := Sizes(info, kernelEnd);
      maxBlocks := blocks;
      usedBlocks := blocks;
      count := blocks;
      bitmap := new nat[blocks / 32];
      new;
      FillOnes();
      FreeAvailable(info, table, safeMemStart);
      UsedInRange();
      CounterAfterBoot(Used(), usedBlocks, maxBlocks, count, RegionsOf(info, table), safeMemStart);
    }

    /** The outer loop: the entries of the boot memory map, when there is one. */
    method FreeAvailable(info: BootInfo, table: map<nat, MmapEntry>, safe: nat)
      requires MapOk(info, table) && RegionsEnd(RegionsOf(info, table))
      requires Valid() && Used() == Blocks(maxBlocks) && usedBlocks == maxBlocks
      modifies this`usedBlocks, this`count, bitmap
      ensures Valid() && Freed(Used(), usedBlocks, maxBlocks, RegionsOf(info, table), safe)
    {
      NothingFreed(maxBlocks, safe);
      if info.hasMmap {
        WalkMap(table, info.mmapAddr, MapEnd(info), safe, RegionsOf(info, table));
      }
    }

    method WalkMap(table: map<nat, MmapEntry>, start: nat, end: nat, safe: nat, ghost rs: seq<MmapEntry>)
      requires MapReadable(table, start, end) && rs == Entries(table, start, end) && RegionsEnd(rs)
      requires Valid() && Freed(Used(), usedBlocks, maxBlocks, [], safe)
      modifies this`usedBlocks, this`count, bitmap
      ensures Valid() && Freed(Used(), usedBlocks, maxBlocks, rs, safe)
    {
      var at := start;
      ghost var done := [];
      while at < end
        invariant Valid() && Walking(rs, done, table, at, end) && Freed(Used(), usedBlocks, maxBlocks, done, safe)
        decreases end - at
      {
        var next := (at + table[at].size + 4) % WRAP;
        NextEntry(rs, done, table, at, next, end);
        FreeEntry(table[at], safe, done);
        done := done + [table[at]];
        at := next;
      }
      WalkEnds(rs, done, table, at, end);
    }

    /** One entry of the map: only available regions are freed. */
    method FreeEntry(entry: MmapEntry, safe: nat, ghost done: seq<MmapEntry>)
      requires Valid() && RegionsEnd([entry]) && Freed(Used(), usedBlocks, maxBlocks, done, safe)
      modifies this`usedBlocks, this`count, bitmap
      ensures Valid() && Freed(Used(), usedBlocks, maxBlocks, done + [entry], safe)
    {
      FreedStart(Used(), usedBlocks, maxBlocks, done, entry, safe);
      if entry.available {
        assert entry == [entry][0];
        FreeRegion(entry.addr, entry.len, safe, done, entry);
      }
      FreedEnd(Used(), usedBlocks, maxBlocks, done, entry, safe);
    }

    /** memset(bitmap, 0xFF, max_blocks / 8), four bytes at a time. */
    method FillOnes()
      requires bitmap.Length * 32 == maxBlocks < 0x10_0000 && usedBlocks == maxBlocks == count
      modifies bitmap
      ensures Valid() && Used() == Blocks(maxBlocks)
    {
      for i := 0 to bitmap.Length
        invariant forall j :: 0 <= j < i ==> bitmap[j] == FULL_WORD
      {
        bitmap[i] := FULL_WORD;
      }
      AllSet(bitmap[..]);
    }

    /** The inner loop: one available region, block by block, with a 32-bit counter. */
    method FreeRegion(addr: nat, len: nat, safe: nat, ghost done: seq<MmapEntry>, ghost r: MmapEntry)
      requires Valid() && r.available && r.addr == addr && r.len == len
      requires addr + len <= WRAP && len <= 0xFFFF_F000
      requires FreedPart(Used(), usedBlocks, maxBlocks, done, r, 0, safe)
      modifies this`usedBlocks, this`count, bitmap
      ensures Valid() && FreedPart(Used(), usedBlocks, maxBlocks, done, r, len, safe)
    {
      var i := 0;
      while i < len
        invariant i % 4096 == 0 && i < len + 4096
        invariant Valid() && FreedPart(Used(), usedBlocks, maxBlocks, done, r, i, safe)
        decreases len + 4096 - i
      {
        var blockAddr := (addr + i) % WRAP;
        var next := (i + 4096) % WRAP;
        NextTurn(addr, i, len, blockAddr, next);
        FreeIfSafe(blockAddr, safe, done, r, i, next);
        i := next;
      }
      FreedPage(Used(), usedBlocks, maxBlocks, done, r, i, safe);
    }

    method FreeIfSafe(blockAddr: nat, safe: nat, ghost done: seq<MmapEntry>, ghost r: MmapEntry, ghost i: nat,
                      ghost next: nat)
      requires Valid() && blockAddr == r.addr + i && i % 4096 == 0 && next == i + 4096
      requires FreedPart(Used(), usedBlocks, maxBlocks, done, r, i, safe)
      modifies this`usedBlocks, this`count, bitmap
      ensures Valid() && FreedPart(Used(), usedBlocks, maxBlocks, done, r, next, safe)
    {
      var b := blockAddr / 4096;
      FreedTurn(Used(), usedBlocks, maxBlocks, done, r, i, next, b, safe);
      if blockAddr >= safe {
        FreeUnchecked(b);
      }
    }

    /** bitmap_clear and the decrement, whatever the bit was. A block beyond the bitmap has its bit in memory behind it,
      * which is not part of this model. */
    method FreeUnchecked(b: nat)
      requires Valid()
      modifies this`usedBlocks, this`count, bitmap
      ensures Valid() && Used() == old(Used()) - {b} && usedBlocks == Down(old(usedBlocks))
    {
      UsedInRange();
      if b < 32 * bitmap.Length {
        BitmapClear(b);
      }
      count := |Used()|;
      usedBlocks := Down(usedBlocks);
    }

    /** Sets the bit of a free block and counts it as used. */
    method Take(b: nat)
      requires Valid() && b < maxBlocks && b !in Used()
      modifies this`usedBlocks, this`count, bitmap
      ensures Valid() && Used() == old(Used()) + {b} && (forall d: nat :: old(Off(d)) ==> Off(d))
      ensures count == old(count) + 1
    {
      UsedInRange();
      BitmapSet(b);
      CounterShifts(count, usedBlocks);
      usedBlocks := Up(usedBlocks);
      count := count + 1;
    }

    /** First fit by linear scan; the answer is the block's address, or null. */
    method AllocBlock() returns (addr: nat)
      requires Valid()
      modifies this`usedBlocks, this`count, bitmap
      ensures Valid() && (forall d: nat :: old(Off(d)) ==> Off(d))
      ensures addr == AllocAddress(old(Used()), maxBlocks)
      ensures Used() == AllocUsed(old(Used()), maxBlocks)
      ensures count == old(count) + if FirstFree(old(Used()), maxBlocks) < maxBlocks then 1 else 0
    {
      ghost var used0 := Used();
      for i := 0 to maxBlocks
        invariant Valid() && Used() == used0 && usedBlocks == old(usedBlocks) && count == old(count)
        invariant FirstFree(used0, maxBlocks, i) == FirstFree(used0, maxBlocks)
      {
        var taken := BitmapTest(i);
        if !taken {
          Take(i);
          return i * 4096;
        }
      }
      return 0;
    }

    /** Gives a block back; a block that is free already is left alone. */
    method FreeBlock(addr: nat)
      requires Valid() && addr / 4096 < maxBlocks
      modifies this`usedBlocks, this`count, bitmap
      ensures Valid() && (forall d: nat :: old(Off(d)) ==> Off(d))
      ensures Used() == old(Used()) - {addr / 4096}
      ensures addr / 4096 !in old(Used()) ==> usedBlocks == old(usedBlocks) && bitmap[..] == old(bitmap[..])
    {
      var block := addr / 4096;
      var taken := BitmapTest(block);
      if taken {
        Release(block);
      }
    }

    /** The three counters, computed in 32 bits: total = used + free but for a wrap; with a counter that is right there
      * is none, and they are the sizes of the two sets. */
    method MemoryCounters() returns (total: nat, free: nat, used: nat)
      requires Valid()
      ensures total == (used + free) % WRAP
      ensures usedBlocks == count ==>
        && total == used + free
        && used == |Used()| * 4096 && free == |Blocks(maxBlocks) - Used()| * 4096
    {
      UsedInRange();
      CountFree(Used(), maxBlocks);
      var n, u := maxBlocks, usedBlocks;
      total := (n * 4096) % WRAP;
      free := (((n - u) % WRAP) * 4096) % WRAP;
      used := (u * 4096) % WRAP;
      CountersAdd(n, u, total, free, used);
    }
  }

  lemma CountersAdd(n: nat, u: nat, total: nat, free: nat, used: nat)
    requires n < 0x10_0000 && u < WRAP
    requires total == (n * 4096) % WRAP && free == (((n - u) % WRAP) * 4096) % WRAP && used == (u * 4096) % WRAP
    ensures total == (used + free) % WRAP
    ensures u <= n ==> total == n * 4096 && used == u * 4096 && free == (n - u) * 4096
  {
    if u <= n {
      NoWrap(n);
      NoWrap(u);
      NoWrap(n - u);
    } else {
      var d := n - u + WRAP;
      assert (n - u) % WRAP == d;
      var a, b := d * 4096, u * 4096;
      assert a + b == n * 4096 + WRAP * 4096;
      ModAdd(a, b, n * 4096, 4096);
      NoWrap(n);
    }
  }

  /** Sums of remainders, in 32 bits. */
  lemma ModAdd(a: nat, b: nat, c: nat, k: nat)
    requires a + b == c + WRAP * k && c < WRAP
    ensures (a % WRAP + b % WRAP) % WRAP == c
  {
    var qa, qb, ra, rb := a / WRAP, b / WRAP, a % WRAP, b % WRAP;
    assert a == WRAP * qa + ra && b == WRAP * qb + rb;
    var q := k - qa - qb;
    assert ra + rb == c + WRAP * q;
    assert q == 0 || q == 1;
  }

  // ---------------------------------------------------------------- steps of the boot loop

  /** The blocks the loop over r reaches in the first i bytes, one a turn, inside the bitmap or not. */
  ghost function Walked(r: MmapEntry, i: nat, safe: nat): set<nat> {
    set b: nat | b <= (r.addr + i) / 4096 && r.addr <= StepAddress(r, b) < r.addr + i && StepAddress(r, b) >= safe
  }

  lemma WalkedIs(r: MmapEntry, i: nat, safe: nat, b: nat)
    ensures b in Walked(r, i, safe) <==> r.addr <= StepAddress(r, b) < r.addr + i && StepAddress(r, b) >= safe
  {
    if r.addr <= StepAddress(r, b) < r.addr + i {
      var q, k := r.addr / 4096, b - r.addr / 4096;
      assert 4096 * q + 4096 * k <= r.addr + i;
      assert 4096 * b <= r.addr + i;
    }
  }

  ghost function Reach(r: MmapEntry, safe: nat): set<nat> {
    if r.available then Walked(r, r.len, safe) else {}
  }

  lemma ReachIs(r: MmapEntry, safe: nat, b: nat)
    ensures b in Reach(r, safe) <==> Covers(r, safe, b)
  {
    WalkedIs(r, r.len, safe, b);
  }

  ghost function ReachAll(rs: seq<MmapEntry>, safe: nat): set<nat>
    decreases |rs|
  {
    if rs == [] then {} else ReachAll(rs[..|rs| - 1], safe) + Reach(rs[|rs| - 1], safe)
  }

  lemma {:induction false} ReachAllIs(rs: seq<MmapEntry>, safe: nat, b: nat)
    ensures b in ReachAll(rs, safe) <==> Available(rs, safe, b)
    decreases |rs|
  {
    if rs != [] {
      var before, r := rs[..|rs| - 1], rs[|rs| - 1];
      ReachAllIs(before, safe, b);
      ReachIs(r, safe, b);
      AvailableLast(rs, before, r, safe, b);
    }
  }

  lemma AvailableLast(rs: seq<MmapEntry>, before: seq<MmapEntry>, r: MmapEntry, safe: nat, b: nat)
    requires rs == before + [r]
    ensures Available(rs, safe, b) <==> Available(before, safe, b) || Covers(r, safe, b)
  {
    if Available(before, safe, b) {
      var i :| 0 <= i < |before| && Covers(before[i], safe, b);
      assert Covers(rs[i], safe, b);
    }
    if Covers(r, safe, b) {
      assert Covers(rs[|before|], safe, b);
    }
  }

  /** u - 1, and u + 1, in 32 bits. */
  function Down(u: nat): (v: nat)
    ensures u < WRAP ==> v < WRAP
  {
    if u == 0 then 0xFFFF_FFFF else u - 1
  }

  function Up(u: nat): (v: nat)
    ensures u < WRAP ==> v < WRAP
  {
    if u == 0xFFFF_FFFF then 0 else u + 1
  }

  /** The counter, from n, after it went down some times. */
  function Counter(n: nat, turns: nat): (u: nat)
    ensures n < WRAP ==> u < WRAP
    decreases turns
  {
    if turns == 0 then n else Down(Counter(n, turns - 1))
  }

  lemma CounterShifts(count: nat, u: nat)
    requires count < 0xFFFF_FFFF && u < WRAP
    ensures forall d: nat :: u == Counter(count, d) ==> Up(u) == Counter(count + 1, d)
    ensures count > 0 ==> forall d: nat :: u == Counter(count, d) ==> Down(u) == Counter(count - 1, d)
  {
    forall d: nat
      ensures Up(Counter(count, d)) == Counter(count + 1, d)
      ensures count > 0 ==> Down(Counter(count, d)) == Counter(count - 1, d)
    {
      CounterUp(count, d);
      if count > 0 {
        CounterUp(count - 1, d);
      }
    }
  }

  lemma {:induction false} CounterUp(n: nat, d: nat)
    requires n < 0xFFFF_FFFF
    ensures Up(Counter(n, d)) == Counter(n + 1, d)
    decreases d
  {
    if d > 0 {
      CounterUp(n, d - 1);
    }
  }

  lemma {:induction false} CounterIs(n: nat, turns: nat)
    requires n < WRAP
    ensures Counter(n, turns) == (n - turns) % WRAP
    decreases turns
  {
    if turns > 0 {
      CounterIs(n, turns - 1);
      DownMod(n - turns);
    }
  }

  lemma DownMod(a: int)
    ensures Down((a + 1) % WRAP) == a % WRAP
  {
    var q, r := (a + 1) / WRAP, (a + 1) % WRAP;
    assert a == WRAP * q + (r - 1);
    if r == 0 {
      assert a == WRAP * (q - 1) + 0xFFFF_FFFF;
    }
  }

  /** How often the counter goes down. */
  ghost function Turns(rs: seq<MmapEntry>, safe: nat): nat
    decreases |rs|
  {
    if rs == [] then 0 else Turns(rs[..|rs| - 1], safe) + |Reach(rs[|rs| - 1], safe)|
  }

  /** The counter goes down at least once for every block freed; exactly once if and only if no block is reached by two
    * regions or lies beyond the bitmap. */
  lemma TurnsExact(rs: seq<MmapEntry>, safe: nat, n: nat)
    ensures Turns(rs, safe) >= |FreeAfterBoot(rs, safe, n)|
    ensures Turns(rs, safe) == |FreeAfterBoot(rs, safe, n)| <==> InsideOnce(rs, safe, n)
  {
    TurnsOnce(rs, safe);
    InsideExactly(rs, safe, n);
    SubsetSize(FreeAfterBoot(rs, safe, n), ReachAll(rs, safe));
  }

  lemma InsideExactly(rs: seq<MmapEntry>, safe: nat, n: nat)
    ensures FreeAfterBoot(rs, safe, n) <= ReachAll(rs, safe)
    ensures FreeAfterBoot(rs, safe, n) == ReachAll(rs, safe) <==> Inside(rs, safe, n)
  {
    var all, free := ReachAll(rs, safe), FreeAfterBoot(rs, safe, n);
    forall b: nat
      ensures b in all <==> Available(rs, safe, b)
    {
      ReachAllIs(rs, safe, b);
    }
    if Inside(rs, safe, n) {
      forall b | b in all
        ensures b in free
      {
        var i :| 0 <= i < |rs| && Covers(rs[i], safe, b);
      }
    }
    if free == all {
      forall i, b: nat | 0 <= i < |rs| && Covers(rs[i], safe, b)
        ensures b < n
      {
        assert Available(rs, safe, b);
        assert b in free;
      }
    }
  }

  lemma {:induction false} TurnsOnce(rs: seq<MmapEntry>, safe: nat)
    ensures Turns(rs, safe) >= |ReachAll(rs, safe)|
    ensures Turns(rs, safe) == |ReachAll(rs, safe)| <==> Once(rs, safe)
    decreases |rs|
  {
    if rs != [] {
      var before, r := rs[..|rs| - 1], rs[|rs| - 1];
      TurnsOnce(before, safe);
      UnionSize(ReachAll(before, safe), Reach(r, safe));
      OnceStep(rs, before, r, safe);
    }
  }

  lemma UnionSize(a: set<nat>, b: set<nat>)
    ensures |a + b| <= |a| + |b|
    ensures |a + b| == |a| + |b| <==> a !! b
  {
    assert a + b == a + (b - a);
    assert b == (b - a) + (b * a);
    assert a !! b <==> b * a == {};
  }

  lemma OnceStep(rs: seq<MmapEntry>, before: seq<MmapEntry>, r: MmapEntry, safe: nat)
    requires rs == before + [r]
    ensures Once(rs, safe) <==> Once(before, safe) && ReachAll(before, safe) !! Reach(r, safe)
  {
    var k := |before|;
    forall b: nat
      ensures b in ReachAll(before, safe) <==> Available(before, safe, b)
      ensures b in Reach(r, safe) <==> Covers(r, safe, b)
    {
      ReachAllIs(before, safe, b);
      ReachIs(r, safe, b);
    }
    OnceSplit(rs, before, r, safe);
  }

  lemma OnceSplit(rs: seq<MmapEntry>, before: seq<MmapEntry>, r: MmapEntry, safe: nat)
    requires rs == before + [r]
    ensures Once(rs, safe) <==>
      Once(before, safe) && forall b: nat :: Available(before, safe, b) ==> !Covers(r, safe, b)
  {
    var k := |before|;
    assert rs[k] == r && forall i :: 0 <= i < k ==> rs[i] == before[i];
    if Once(rs, safe) {
      forall i, j, b: nat | 0 <= i < j < k && Covers(before[i], safe, b)
        ensures !Covers(before[j], safe, b)
      {
        assert Covers(rs[i], safe, b);
      }
      forall b: nat | Available(before, safe, b)
        ensures !Covers(r, safe, b)
      {
        var i :| 0 <= i < k && Covers(before[i], safe, b);
        assert Covers(rs[i], safe, b);
      }
    }
    if Once(before, safe) && forall b: nat :: Available(before, safe, b) ==> !Covers(r, safe, b) {
      forall i, j, b: nat | 0 <= i < j < |rs| && Covers(rs[i], safe, b)
        ensures !Covers(rs[j], safe, b)
      {
        assert Covers(before[i], safe, b);
        assert Available(before, safe, b);
      }
    }
  }

  /** How many turns freed nothing: those at blocks that were free already, or beyond the bitmap. */
  ghost function Idle(rs: seq<MmapEntry>, safe: nat, n: nat): nat {
    TurnsExact(rs, safe, n);
    Turns(rs, safe) - |FreeAfterBoot(rs, safe, n)|
  }

  /** After boot the counter is lower than the number of used blocks by the turns that freed nothing. */
  lemma CounterAfterBoot(used: set<nat>, u: nat, n: nat, count: nat, rs: seq<MmapEntry>, safe: nat)
    requires n < 0x10_0000 && Freed(used, u, n, rs, safe) && count == |used|
    ensures u == Counter(count, Idle(rs, safe, n))
  {
    var t, f := Turns(rs, safe), |FreeAfterBoot(rs, safe, n)|;
    TurnsExact(rs, safe, n);
    FreeSize(rs, safe, n, used);
    CounterSkips(n, f, t - f, t);
  }

  lemma FreeSize(rs: seq<MmapEntry>, safe: nat, n: nat, used: set<nat>)
    requires used == Blocks(n) - FreeAfterBoot(rs, safe, n)
    ensures |used| == n - |FreeAfterBoot(rs, safe, n)|
  {
    CountFree(FreeAfterBoot(rs, safe, n), n);
  }

  lemma {:induction false} CounterSkips(n: nat, a: nat, b: nat, t: nat)
    requires a <= n < WRAP && t == a + b
    ensures Counter(n, t) == Counter(n - a, b)
    decreases t
  {
    if b > 0 {
      CounterSkips(n, a, b - 1, t - 1);
    } else if a > 0 {
      CounterSkips(n, a - 1, 0, t - 1);
    }
  }

  /** The counter is right after boot if no block is reached twice or beyond the bitmap; and, unless the map is so long
    * that the counter could have gone round, only then. */
  lemma CounterExact(rs: seq<MmapEntry>, safe: nat, n: nat, count: nat, counter: nat)
    requires RegionsEnd(rs) && count < WRAP && counter == Counter(count, Idle(rs, safe, n))
    ensures InsideOnce(rs, safe, n) ==> counter == count
    ensures |rs| < 4096 && counter == count ==> InsideOnce(rs, safe, n)
  {
    var d := Idle(rs, safe, n);
    TurnsExact(rs, safe, n);
    CounterIs(count, d);
    TurnsBound(rs, safe, 0x10_0000);
    if 0 < d < WRAP {
      ModShift(count, d);
    }
  }

  /** A PC with 64 MiB: 640 KiB are reported below 1 MiB and 63 MiB above, the hole between them is not, and the region
    * above 1 MiB reaches past the last block counted. The counter is wrong from boot on. */
  lemma HoleMiscounts(info: BootInfo, rs: seq<MmapEntry>, safe: nat, count: nat, counter: nat)
    requires info.memLower == 640 && info.memUpper == 64512
    requires rs == [MmapEntry(20, 0, 0xA_0000, true), MmapEntry(20, 0x10_0000, 0x3F0_0000, true)] && safe <= 0x100_0000
    requires count < WRAP && counter == Counter(count, Idle(rs, safe, MaxBlocks(info)))
    ensures counter != count
  {
    var b := BeyondHole(info, rs[1], safe);
    MiscountsBeyond(rs, safe, MaxBlocks(info), 1, b, count, counter);
  }

  lemma BeyondHole(info: BootInfo, r: MmapEntry, safe: nat) returns (b: nat)
    requires info.memLower == 640 && info.memUpper == 64512
    requires r == MmapEntry(20, 0x10_0000, 0x3F0_0000, true) && safe <= 0x100_0000
    ensures Covers(r, safe, b) && b >= MaxBlocks(info)
  {
    b := 16288;
  }

  /** One block beyond the bitmap is enough. */
  lemma MiscountsBeyond(rs: seq<MmapEntry>, safe: nat, n: nat, i: nat, b: nat, count: nat, counter: nat)
    requires RegionsEnd(rs) && |rs| < 4096 && i < |rs| && Covers(rs[i], safe, b) && b >= n
    requires count < WRAP && counter == Counter(count, Idle(rs, safe, n))
    ensures counter != count
  {
    CounterExact(rs, safe, n, count, counter);
  }

  lemma ModShift(n: nat, d: nat)
    requires n < WRAP && 0 < d < WRAP
    ensures (n - d) % WRAP != n
  {
    if n < d {
      assert (n - d) % WRAP == n - d + WRAP;
    }
  }

  lemma {:induction false} TurnsBound(rs: seq<MmapEntry>, safe: nat, m: nat)
    requires RegionsEnd(rs) && m == 0x10_0000
    ensures Turns(rs, safe) <= |rs| * m
    decreases |rs|
  {
    if rs != [] {
      TurnsBound(rs[..|rs| - 1], safe, m);
      ReachBound(rs[|rs| - 1], safe, m);
    }
  }

  lemma ReachBound(r: MmapEntry, safe: nat, m: nat)
    requires r.available ==> r.addr + r.len <= WRAP
    requires m == 0x10_0000
    ensures |Reach(r, safe)| <= m
  {
    forall b | b in Reach(r, safe)
      ensures b < m
    {
      ReachIs(r, safe, b);
    }
    SubsetSize(Reach(r, safe), Blocks(m));
  }

  /** After the entries rs: the blocks they reach are free, and the counter has gone down once a turn. */
  ghost predicate Freed(used: set<nat>, u: nat, n: nat, rs: seq<MmapEntry>, safe: nat) {
    used == Blocks(n) - FreeAfterBoot(rs, safe, n) && u == Counter(n, Turns(rs, safe))
  }

  /** The same with the first i bytes of region r walked as well. */
  ghost predicate FreedPart(used: set<nat>, u: nat, n: nat, rs: seq<MmapEntry>, r: MmapEntry, i: nat, safe: nat) {
    Without(used, u, n, FreeAfterBoot(rs, safe, n), Turns(rs, safe), Walked(r, i, safe))
  }

  /** All blocks are used but those in free and w; the counter went down for the first some times, for w once each. */
  ghost predicate Without(used: set<nat>, u: nat, n: nat, free: set<nat>, turns: nat, w: set<nat>) {
    used == Blocks(n) - free - w && u == Counter(n, turns + |w|)
  }

  lemma NothingFreed(n: nat, safe: nat)
    ensures Freed(Blocks(n), n, n, [], safe)
  {
    assert FreeAfterBoot([], safe, n) == {};
  }

  lemma FreedStart(used: set<nat>, u: nat, n: nat, rs: seq<MmapEntry>, r: MmapEntry, safe: nat)
    requires Freed(used, u, n, rs, safe)
    ensures FreedPart(used, u, n, rs, r, 0, safe)
  {
    assert Walked(r, 0, safe) == {};
  }

  lemma FreedTurn(used: set<nat>, u: nat, n: nat, rs: seq<MmapEntry>, r: MmapEntry, i: nat, next: nat, b: nat,
                  safe: nat)
    requires FreedPart(used, u, n, rs, r, i, safe)
    requires next == i + 4096 && i % 4096 == 0 && b == (r.addr + i) / 4096
    ensures if r.addr + i >= safe then FreedPart(used - {b}, Down(u), n, rs, r, next, safe)
            else FreedPart(used, u, n, rs, r, next, safe)
  {
    WalkedStep(r, i, next, b, safe);
    if r.addr + i >= safe {
      WithoutOne(used, u, n, FreeAfterBoot(rs, safe, n), Turns(rs, safe), Walked(r, i, safe), b,
                 Walked(r, next, safe), used - {b}, Down(u));
    }
  }

  lemma WithoutOne(used: set<nat>, u: nat, n: nat, free: set<nat>, turns: nat, w: set<nat>, b: nat,
                   w': set<nat>, used': set<nat>, u': nat)
    requires Without(used, u, n, free, turns, w) && used' == used - {b} && u' == Down(u)
    requires b !in w && w' == w + {b}
    ensures Without(used', u', n, free, turns, w')
  {
    MinusOne(used, Blocks(n) - free, w, b, w', used');
    CountedOne(u, n, turns, w, b, w', u');
  }

  lemma CountedOne(u: nat, n: nat, t: nat, w: set<nat>, b: nat, w': set<nat>, u': nat)
    requires u == Counter(n, t + |w|) && b !in w && w' == w + {b} && u' == Down(u)
    ensures u' == Counter(n, t + |w'|)
  {
    OneMore(w, b, w');
    CounterNext(n, t + |w|, t + |w'|);
  }

  lemma OneMore(w: set<nat>, b: nat, w': set<nat>)
    requires b !in w && w' == w + {b}
    ensures |w'| == |w| + 1
  {}

  lemma MinusOne(used: set<nat>, s: set<nat>, w: set<nat>, b: nat, w': set<nat>, used': set<nat>)
    requires used == s - w && w' == w + {b} && used' == used - {b}
    ensures used' == s - w'
  {}

  lemma FreedPage(used: set<nat>, u: nat, n: nat, rs: seq<MmapEntry>, r: MmapEntry, i: nat, safe: nat)
    requires FreedPart(used, u, n, rs, r, i, safe) && i % 4096 == 0 && r.len <= i < r.len + 4096
    ensures FreedPart(used, u, n, rs, r, r.len, safe)
  {
    EndOfRegion(r, i, safe);
  }

  lemma CounterNext(n: nat, t: nat, t': nat)
    requires t' == t + 1
    ensures Counter(n, t') == Down(Counter(n, t))
  {}

  lemma FreedEnd(used: set<nat>, u: nat, n: nat, rs: seq<MmapEntry>, r: MmapEntry, safe: nat)
    requires FreedPart(used, u, n, rs, r, if r.available then r.len else 0, safe)
    ensures Freed(used, u, n, rs + [r], safe)
  {
    var len := if r.available then r.len else 0;
    EntryDone(rs, r, safe, n);
    ReachIsWalked(r, len, safe);
    WithoutAll(used, u, n, FreeAfterBoot(rs, safe, n), Turns(rs, safe), Walked(r, len, safe),
               FreeAfterBoot(rs + [r], safe, n), Turns(rs + [r], safe));
  }

  lemma ReachIsWalked(r: MmapEntry, len: nat, safe: nat)
    requires len == if r.available then r.len else 0
    ensures Walked(r, len, safe) == Reach(r, safe)
  {
    if !r.available {
      assert Walked(r, 0, safe) == {};
    }
  }

  lemma WithoutAll(used: set<nat>, u: nat, n: nat, free: set<nat>, turns: nat, w: set<nat>,
                   free': set<nat>, turns': nat)
    requires Without(used, u, n, free, turns, w)
    requires Blocks(n) - free' == Blocks(n) - free - w && turns' == turns + |w|
    ensures used == Blocks(n) - free' && u == Counter(n, turns')
  {}

  /** Below 0xFFFFF000 the counter of the inner loop does not wrap. */
  lemma NextTurn(addr: nat, i: nat, len: nat, blockAddr: nat, next: nat)
    requires i < len <= 0xFFFF_F000 && i % 4096 == 0 && addr + len <= WRAP
    requires blockAddr == (addr + i) % WRAP && next == (i + 4096) % WRAP
    ensures blockAddr == addr + i && next == i + 4096 && next % 4096 == 0 && next < len + 4096
  {
    assert i <= 0xFFFF_E000;
  }

  /** One turn of the inner loop reaches one block more. */
  lemma WalkedStep(r: MmapEntry, i: nat, next: nat, b: nat, safe: nat)
    requires next == i + 4096 && i % 4096 == 0 && b == (r.addr + i) / 4096
    ensures b !in Walked(r, i, safe)
    ensures Walked(r, next, safe) == Walked(r, i, safe) + if r.addr + i >= safe then {b} else {}
  {
    StepIs(r, i, b);
    forall c: nat
      ensures c in Walked(r, next, safe) <==> c in Walked(r, i, safe) || (c == b && r.addr + i >= safe)
    {
      WalkedIs(r, next, safe, c);
      WalkedIs(r, i, safe, c);
    }
    WalkedIs(r, i, safe, b);
  }

  /** Block b is the only one whose address lies in this turn. */
  lemma StepIs(r: MmapEntry, i: nat, b: nat)
    requires i % 4096 == 0 && b == (r.addr + i) / 4096
    ensures StepAddress(r, b) == r.addr + i
    ensures forall c: nat :: r.addr + i <= StepAddress(r, c) < r.addr + i + 4096 <==> c == b
  {
    var q := i / 4096;
    assert i == 4096 * q;
    assert (r.addr + 4096 * q) / 4096 == r.addr / 4096 + q;
  }

  /** The last turn may reach past the end of a region that ends inside a page, and frees nothing there. */
  lemma EndOfRegion(r: MmapEntry, i: nat, safe: nat)
    requires i % 4096 == 0 && r.len <= i < r.len + 4096
    ensures Walked(r, i, safe) == Walked(r, r.len, safe)
  {
    forall b: nat
      ensures b in Walked(r, i, safe) <==> b in Walked(r, r.len, safe)
    {
      WalkedIs(r, i, safe, b);
      WalkedIs(r, r.len, safe, b);
      assert i == 4096 * (i / 4096);
    }
  }

  /** Walking a whole entry frees what it covers, and counts its turns. */
  lemma EntryDone(before: seq<MmapEntry>, r: MmapEntry, safe: nat, n: nat)
    ensures Walked(r, 0, safe) == {} && |Walked(r, 0, safe)| == 0
    ensures Turns(before + [r], safe) == Turns(before, safe) + |Reach(r, safe)|
    ensures FreeAfterBoot(before + [r], safe, n) <= FreeAfterBoot(before, safe, n) + Reach(r, safe)
    ensures Blocks(n) - FreeAfterBoot(before + [r], safe, n) ==
      Blocks(n) - FreeAfterBoot(before, safe, n) - Reach(r, safe)
  {
    var rs := before + [r];
    assert rs[..|rs| - 1] == before;
    forall b: nat
      ensures Available(rs, safe, b) <==> Available(before, safe, b) || b in Reach(r, safe)
    {
      AvailableLast(rs, before, r, safe, b);
      ReachIs(r, safe, b);
    }
  }

  /** Block b starts inside an available region. */
  ghost predicate Offered(rs: seq<MmapEntry>, b: nat) {
    exists i :: 0 <= i < |rs| && rs[i].available && rs[i].addr <= b * 4096 < rs[i].addr + rs[i].len
  }

  /** A memory map as boot loaders make them: laid out in memory, regions below 4 GiB that begin at a page. */
  ghost predicate MapLaidOut(info: BootInfo, table: map<nat, MmapEntry>, rs: seq<MmapEntry>) {
    && info.hasMmap && LaidOut(table, info.mmapAddr, rs)
    && info.mmapLength == Span(rs) && info.mmapAddr + Span(rs) < WRAP
    && forall i :: 0 <= i < |rs| && rs[i].available ==>
         rs[i].addr % 4096 == 0 && rs[i].addr + rs[i].len <= WRAP && rs[i].len <= 0xFFFF_F000
  }

  /** n whole blocks of memory, the KiB counted as far as 32 bits of bytes go, and a bitmap for them that ends below
    * 4 GiB, behind the kernel and behind the last module. */
  predicate MemoryOf(info: BootInfo, kernelEnd: nat, n: nat) {
    && 4 * n <= (info.memLower + info.memUpper) % 0x40_0000 < 4 * n + 4
    && kernelEnd + n / 8 < WRAP && (info.mods != [] ==> info.mods[|info.mods| - 1] + n / 8 < WRAP)
  }

  /** Block b starts at or above where a bitmap of n bits ends, behind the kernel and behind the last module. */
  predicate BehindBitmap(info: BootInfo, kernelEnd: nat, n: nat, b: nat) {
    && b * 4096 >= kernelEnd + n / 8
    && (info.mods != [] ==> b * 4096 >= info.mods[|info.mods| - 1] + n / 8)
  }

  /** Available regions that lie inside the n blocks and keep clear of each other. */
  ghost predicate Tidy(rs: seq<MmapEntry>, n: nat) {
    && (forall i :: 0 <= i < |rs| && rs[i].available ==> rs[i].addr + rs[i].len <= 4096 * n)
    && (forall i, j :: 0 <= i < j < |rs| && rs[i].available && rs[j].available ==>
          rs[i].addr + rs[i].len <= rs[j].addr || rs[j].addr + rs[j].len <= rs[i].addr)
  }

  /** pmm_initialize, told in the boot loader's terms: free are the blocks that start in an available region and behind
    * the bitmap, and no others; for a tidy map pmm_used_blocks is the number of the rest. */
  method InitializeFrom(info: BootInfo, table: map<nat, MmapEntry>, rs: seq<MmapEntry>, kernelEnd: nat, n: nat)
    returns (pmm: BlockAllocator)
    requires MapLaidOut(info, table, rs) && MemoryOf(info, kernelEnd, n) && n % 32 == 0
    ensures fresh(pmm) && fresh(pmm.bitmap) && pmm.Valid() && pmm.maxBlocks == n
    ensures forall b: nat :: b in pmm.Used() <==> b < n && !(Offered(rs, b) && BehindBitmap(info, kernelEnd, n, b))
    ensures Tidy(rs, n) ==> pmm.usedBlocks == |pmm.Used()|
  {
    MapIsRead(info, table, rs);
    SizeIs(info, kernelEnd, n);
    pmm := new BlockAllocator.Initialize(info, table, kernelEnd);
    ghost var safe := SafeStart(info, kernelEnd);
    forall b: nat
      ensures b in FreeAfterBoot(rs, safe, n) <==> b < n && Offered(rs, b) && BehindBitmap(info, kernelEnd, n, b)
    {
      FreeIs(info, rs, kernelEnd, n, safe, b);
    }
    if Tidy(rs, n) {
      TidyCounts(rs, safe, n);
      CounterExact(rs, safe, n, pmm.count, pmm.usedBlocks);
    }
  }

  lemma TidyCounts(rs: seq<MmapEntry>, safe: nat, n: nat)
    requires forall i :: 0 <= i < |rs| && rs[i].available ==> rs[i].addr % 4096 == 0
    requires Tidy(rs, n)
    ensures InsideOnce(rs, safe, n)
  {
    forall i, b: nat | 0 <= i < |rs| && Covers(rs[i], safe, b)
      ensures rs[i].available && rs[i].addr <= b * 4096 < rs[i].addr + rs[i].len && b < n
    {
      CoversAligned(rs[i], safe, b);
    }
  }

  lemma SizeIs(info: BootInfo, kernelEnd: nat, n: nat)
    requires MemoryOf(info, kernelEnd, n)
    ensures MaxBlocks(info) == n
    ensures forall b: nat :: BehindBitmap(info, kernelEnd, n, b) <==> b * 4096 >= SafeStart(info, kernelEnd)
  {
    Kibibytes(info.memLower + info.memUpper, n);
    var start := BitmapStart(info, kernelEnd);
    assert SafeStart(info, kernelEnd) == start + n / 8;
  }

  lemma Kibibytes(kb: nat, n: nat)
    requires 4 * n <= kb % 0x40_0000 < 4 * n + 4
    ensures ((kb % WRAP) * 1024) % WRAP / 4096 == n
  {
    var q, r := kb / 0x40_0000, kb % 0x40_0000;
    var t := q % 1024;
    assert kb == 0x40_0000 * q + r && q == 1024 * (q / 1024) + t;
    assert kb % WRAP == 0x40_0000 * t + r;
    assert (0x40_0000 * t + r) * 1024 == WRAP * t + r * 1024;
    assert (WRAP * t + r * 1024) % WRAP == r * 1024;
  }

  lemma FreeIs(info: BootInfo, rs: seq<MmapEntry>, kernelEnd: nat, n: nat, safe: nat, b: nat)
    requires forall i :: 0 <= i < |rs| && rs[i].available ==> rs[i].addr % 4096 == 0
    requires BehindBitmap(info, kernelEnd, n, b) <==> b * 4096 >= safe
    ensures b in FreeAfterBoot(rs, safe, n) <==> b < n && Offered(rs, b) && BehindBitmap(info, kernelEnd, n, b)
  {
    forall i | 0 <= i < |rs| && rs[i].available
      ensures Covers(rs[i], safe, b) <==> rs[i].addr <= b * 4096 < rs[i].addr + rs[i].len && b * 4096 >= safe
    {
      CoversAligned(rs[i], safe, b);
    }
    OfferedIs(rs, safe, b);
  }

  lemma OfferedIs(rs: seq<MmapEntry>, safe: nat, b: nat)
    requires forall i :: 0 <= i < |rs| && rs[i].available ==>
      (Covers(rs[i], safe, b) <==> rs[i].addr <= b * 4096 < rs[i].addr + rs[i].len && b * 4096 >= safe)
    ensures Available(rs, safe, b) <==> Offered(rs, b) && b * 4096 >= safe
  {
    if Available(rs, safe, b) {
      var i :| 0 <= i < |rs| && Covers(rs[i], safe, b);
      assert rs[i].available;
    }
    if Offered(rs, b) && b * 4096 >= safe {
      var i :| 0 <= i < |rs| && rs[i].available && rs[i].addr <= b * 4096 < rs[i].addr + rs[i].len;
      assert Covers(rs[i], safe, b);
    }
  }

  /** Nothing of the kernel, a module that ends no higher than the last one, or the bitmap is ever free. */
  lemma BootProtects(info: BootInfo, table: map<nat, MmapEntry>, kernelEnd: nat, b: nat)
    requires MapOk(info, table)
    requires forall i :: 0 <= i < |info.mods| ==> info.mods[i] <= info.mods[|info.mods| - 1]
    requires var rs, safe := RegionsOf(info, table), SafeStart(info, kernelEnd);
      (forall i :: 0 <= i < |rs| ==> !Exposes(rs[i], safe)) && b in FreeAfterBoot(rs, safe, MaxBlocks(info))
    requires BitmapStart(info, kernelEnd) + MaxBlocks(info) / 8 < WRAP
    ensures b * 4096 >= kernelEnd
    ensures forall i :: 0 <= i < |info.mods| ==> b * 4096 >= info.mods[i]
    ensures b * 4096 >= BitmapStart(info, kernelEnd) + MaxBlocks(info) / 8
  {
    NothingExposed(RegionsOf(info, table), SafeStart(info, kernelEnd), MaxBlocks(info), b);
  }
}
