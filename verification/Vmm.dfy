/** What two-level page tables in memory stand for, as in 32-bit paging with 4 KiB pages (Intel SDM volume 3A,
  * section 4.3): a partial map from pages; and what the boot mapping and the e1000 window make of it. */
module Vmm {
  import opened Bits
  import opened Pmm
  import opened Wrappers
  import Memory

  const WRITABLE: nat := 2
  const USER: nat := 4

  /** Memory whose words are taken unsigned, as table entries are. */
  type Words = map<int, nat>

  function Word(m: Words, a: int): nat {
    Memory.Read(m, a)
  }

  predicate IsPresent(entry: nat) {
    entry % 2 == 1
  }

  predicate IsWritable(entry: nat) {
    entry / 2 % 2 == 1
  }

  predicate IsUser(entry: nat) {
    entry / 4 % 2 == 1
  }

  // ---------------------------------------------------------------- the hardware's walk

  datatype Mapping = Mapping(frame: nat, writable: bool, user: bool)

  function Pde(m: Words, dir: nat, slot: nat): nat {
    Word(m, dir * 4096 + 4 * slot)
  }

  /** The block number of the table a directory entry points to. */
  function Table(m: Words, dir: nat, slot: nat): nat {
    Pde(m, dir, slot) / 4096
  }

  function Pte(m: Words, dir: nat, p: nat): nat {
    Word(m, Table(m, dir, p / 1024) * 4096 + 4 * (p % 1024))
  }

  /** What the processor finds for virtual page p: both entries must be present, and both must grant a right. */
  function Walk(m: Words, dir: nat, p: nat): Option<Mapping> {
    var pde := Pde(m, dir, p / 1024);
    var pte := Pte(m, dir, p);
    if IsPresent(pde) && IsPresent(pte) then
      Some(Mapping(pte / 4096, IsWritable(pde) && IsWritable(pte), IsUser(pde) && IsUser(pte)))
    else
      None
  }

  /** Bit 0 of an entry is presence, bit 1 the right to write, bit 2 user mode, the high 20 bits are the frame; a right
    * takes the bit in both entries. */
  lemma WalkBits(m: Words, dir: nat, p: nat)
    ensures var pde := Word(m, dir * 4096 + 4 * (p / 1024));
      var pte := Word(m, pde / 4096 * 4096 + 4 * (p % 1024));
      && (Walk(m, dir, p).Some? <==> And(pde, 1) != 0 && And(pte, 1) != 0)
      && (Walk(m, dir, p).Some? ==>
            && Walk(m, dir, p).value.frame == pte / 4096
            && (Walk(m, dir, p).value.writable <==> And(pde, 2) != 0 && And(pte, 2) != 0)
            && (Walk(m, dir, p).value.user <==> And(pde, 4) != 0 && And(pte, 4) != 0))
  {
    LowThree(Pde(m, dir, p / 1024));
    LowThree(Pte(m, dir, p));
  }

  lemma LowThree(e: nat)
    ensures And(e, 1) != 0 <==> IsPresent(e)
    ensures And(e, 2) != 0 <==> IsWritable(e)
    ensures And(e, 4) != 0 <==> IsUser(e)
  {
    assert Shift(0) == 1 && Shift(1) == 2 && Shift(2) == 4;
    AndShift(e, 0);
    AndShift(e, 1);
    AndShift(e, 2);
    assert e / 4 == e / 2 / 2;
    assert Bit(e, 2) == Bit(e / 2, 1) == Bit(e / 2 / 2, 0);
  }

  // ---------------------------------------------------------------- what the tables stand for

  /** A mapped page: its frame, and the flags of its own entry. */
  datatype Leaf = Leaf(frame: nat, flags: nat)

  /** `slots`: the flags each 4 MiB slot got when its table was made. `pages`: a partial map from pages. */
  datatype Space = Space(slots: map<nat, nat>, pages: map<nat, Leaf>)

  ghost function SpaceOf(m: Words, dir: nat): Space {
    Space(map s: nat | s < 1024 && IsPresent(Pde(m, dir, s)) :: Pde(m, dir, s) % 4096,
          map p: nat | p < 0x10_0000 && IsPresent(Pde(m, dir, p / 1024)) && IsPresent(Pte(m, dir, p))
            :: Leaf(Pte(m, dir, p) / 4096, Pte(m, dir, p) % 4096))
  }

  /** Mapping a page: the slot keeps the flags of the first mapping made in it, the page takes the latest. */
  function MapSpec(s: Space, frame: nat, p: nat, flags: nat): Space {
    Space(if p / 1024 in s.slots then s.slots else s.slots[p / 1024 := Or(flags, 1)],
          s.pages[p := Leaf(frame, Or(flags, 1))])
  }

  function Rights(s: Space, p: nat): Option<Mapping> {
    if p in s.pages && p / 1024 in s.slots then
      var f, g := s.pages[p].flags, s.slots[p / 1024];
      Some(Mapping(s.pages[p].frame, IsWritable(f) && IsWritable(g), IsUser(f) && IsUser(g)))
    else
      None
  }

  /** The walk reads off the partial map, the page's own rights cut down to those of its slot. */
  lemma WalkIsRights(m: Words, dir: nat, p: nat)
    requires p < 0x10_0000
    ensures Walk(m, dir, p) == Rights(SpaceOf(m, dir), p)
  {
    LowBits(Pte(m, dir, p));
    LowBits(Pde(m, dir, p / 1024));
  }

  /** Mapping page p changes the walk of p and of no other page. Its rights are those asked for, cut down to what
    * its slot was given when the slot's table was made. */
  lemma MapChangesOnePage(m: Words, m': Words, dir: nat, frame: nat, p: nat, flags: nat, q: nat)
    requires SpaceOf(m', dir) == MapSpec(SpaceOf(m, dir), frame, p, flags) && p < 0x10_0000 && q < 0x10_0000
    ensures q != p ==> Walk(m', dir, q) == Walk(m, dir, q)
    ensures var slot := Pde(m, dir, p / 1024);
      var first := if IsPresent(slot) then slot else flags;
      Walk(m', dir, p) ==
        Some(Mapping(frame, IsWritable(flags) && IsWritable(first), IsUser(flags) && IsUser(first)))
  {
    WalkIsRights(m, dir, q);
    WalkIsRights(m', dir, q);
    WalkIsRights(m', dir, p);
    var slot := p / 1024;
    LowBits(Pde(m, dir, slot));
    SpecRights(SpaceOf(m, dir), frame, p, slot, flags, q);
  }

  lemma SpecRights(s: Space, frame: nat, p: nat, slot: nat, flags: nat, q: nat)
    requires slot == p / 1024 && (q in s.pages ==> q / 1024 in s.slots)
    ensures var s' := MapSpec(s, frame, p, flags);
      var first := if slot in s.slots then s.slots[slot] else flags;
      && (q != p ==> Rights(s', q) == Rights(s, q))
      && Rights(s', p) ==
           Some(Mapping(frame, IsWritable(flags) && IsWritable(first), IsUser(flags) && IsUser(first)))
  {
    OrKeepsRights(flags);
  }

  lemma LowBits(e: nat)
    ensures IsWritable(e % 4096) == IsWritable(e) && IsUser(e % 4096) == IsUser(e)
  {
    SplitBits(e / 4096, e % 4096);
  }

  lemma SplitBits(q: nat, r: nat)
    ensures IsWritable(4096 * q + r) == IsWritable(r) && IsUser(4096 * q + r) == IsUser(r)
    ensures IsPresent(4096 * q + r) == IsPresent(r)
  {
    var x, h := 4096 * q + r, 2048 * q + r / 2;
    Halve(2048 * q, r, x);
    Halve(1024 * q, r / 2, h);
    Halve(512 * q, r / 4, h / 2);
    assert x / 4 == x / 2 / 2 && r / 4 == r / 2 / 2;
  }

  lemma Halve(k: nat, r: nat, x: nat)
    requires x == 2 * k + r
    ensures x / 2 == k + r / 2 && x % 2 == r % 2
  {}

  // ---------------------------------------------------------------- runs of mappings

  datatype Request = Request(frame: nat, page: nat, flags: nat)

  /** An address space and the number of blocks left to make tables of. */
  datatype Stock = Stock(space: Space, free: int)

  /** vmm_map_page: a request in a slot without a table takes a block, and is dropped when there is none. */
  function Try(st: Stock, r: Request): Stock {
    if r.page / 1024 in st.space.slots then Stock(MapSpec(st.space, r.frame, r.page, r.flags), st.free)
    else if st.free > 0 then Stock(MapSpec(st.space, r.frame, r.page, r.flags), st.free - 1)
    else st
  }

  lemma TryIs(st: Stock, r: Request, slot: nat, ok: bool, st': Stock)
    requires slot == r.page / 1024 && (ok <==> slot in st.space.slots || st.free > 0)
    requires st'.free == st.free - if !ok || slot in st.space.slots then 0 else 1
    requires st'.space.slots == if !ok || slot in st.space.slots then st.space.slots
                                else st.space.slots[slot := Or(r.flags, 1)]
    requires st'.space.pages == if ok then st.space.pages[r.page := Leaf(r.frame, Or(r.flags, 1))] else st.space.pages
    ensures st' == Try(st, r)
  {}

  function TryAll(st: Stock, rs: seq<Request>): Stock
    decreases |rs|
  {
    if rs == [] then st else Try(TryAll(st, rs[..|rs| - 1]), rs[|rs| - 1])
  }

  /** The latest request for page p. */
  function LastFor(rs: seq<Request>, p: nat): Option<Request>
    decreases |rs|
  {
    if rs == [] then None
    else if rs[|rs| - 1].page == p then Some(rs[|rs| - 1])
    else LastFor(rs[..|rs| - 1], p)
  }

  /** The earliest request in a slot. */
  function FirstIn(rs: seq<Request>, slot: nat): Option<Request>
    decreases |rs|
  {
    if rs == [] then None
    else if FirstIn(rs[..|rs| - 1], slot).Some? then FirstIn(rs[..|rs| - 1], slot)
    else if rs[|rs| - 1].page / 1024 == slot then Some(rs[|rs| - 1])
    else None
  }

  /** The slots asked for, in the order of their first requests. */
  function Opened(rs: seq<Request>): seq<nat>
    decreases |rs|
  {
    if rs == [] then [] else
      var before, slot := Opened(rs[..|rs| - 1]), rs[|rs| - 1].page / 1024;
      if slot in before then before else before + [slot]
  }

  /** Of these, the ones that get a table out of f blocks. */
  function Granted(rs: seq<Request>, f: nat): seq<nat> {
    if f < |Opened(rs)| then Opened(rs)[..f] else Opened(rs)
  }

  const EMPTY: Space := Space(map[], map[])

  /** Over any run from an empty address space with f blocks for tables: a page is mapped iff it was asked for and its
    * 4 MiB slot is among the first f slots asked for; its frame is the latest one; and it has a right iff both its
    * latest request and the very first one in its slot asked for it. */
  lemma {:induction false} RunRights(rs: seq<Request>, f: nat, p: nat)
    ensures Rights(TryAll(Stock(EMPTY, f), rs).space, p) ==
      if LastFor(rs, p).None? || p / 1024 !in Granted(rs, f) || FirstIn(rs, p / 1024).None? then None else
        var last, first := LastFor(rs, p).value, FirstIn(rs, p / 1024).value;
        Some(Mapping(last.frame, IsWritable(last.flags) && IsWritable(first.flags),
                     IsUser(last.flags) && IsUser(first.flags)))
    ensures LastFor(rs, p).Some? ==> FirstIn(rs, p / 1024).Some?
  {
    RunState(rs, f, p);
    if LastFor(rs, p).Some? {
      OrKeepsRights(LastFor(rs, p).value.flags);
      OrKeepsRights(FirstIn(rs, p / 1024).value.flags);
    }
  }

  /** The blocks taken by a run, and what it leaves of a slot and of a page. */
  lemma {:induction false} RunState(rs: seq<Request>, f: nat, p: nat)
    ensures var st, slot := TryAll(Stock(EMPTY, f), rs), p / 1024;
      && st.free == f - |Granted(rs, f)|
      && (slot in st.space.slots <==> slot in Granted(rs, f))
      && (slot in Granted(rs, f) ==> FirstIn(rs, slot).Some?)
      && (slot in Granted(rs, f) ==> st.space.slots[slot] == Or(FirstIn(rs, slot).value.flags, 1))
      && (p in st.space.pages <==> LastFor(rs, p).Some? && slot in Granted(rs, f))
      && (p in st.space.pages ==>
            st.space.pages[p] == Leaf(LastFor(rs, p).value.frame, Or(LastFor(rs, p).value.flags, 1)))
    ensures LastFor(rs, p).Some? ==> FirstIn(rs, p / 1024).Some?
    ensures FirstIn(rs, p / 1024).Some? <==> p / 1024 in Opened(rs)
    decreases |rs|
  {
    if rs != [] {
      var before, last := rs[..|rs| - 1], rs[|rs| - 1];
      RunState(before, f, p);
      RunState(before, f, last.page);
    }
  }

  lemma OrKeepsRights(f: nat)
    ensures IsWritable(Or(f, 1)) == IsWritable(f) && IsUser(Or(f, 1)) == IsUser(f)
  {
    OrOne(f);
    var h := f / 2;
    assert f % 2 == 0 ==> (f + 1) / 2 == h;
    assert f / 4 == h / 2 && (f + 1) / 4 == (f + 1) / 2 / 2;
  }

  /** Every page stands for itself. */
  ghost predicate IsIdentity(s: Space) {
    forall p :: p in s.pages ==> s.pages[p].frame == p
  }

  lemma {:induction false} IdentityKept(st: Stock, rs: seq<Request>)
    requires IsIdentity(st.space) && forall i :: 0 <= i < |rs| ==> rs[i].frame == rs[i].page
    ensures IsIdentity(TryAll(st, rs).space)
    decreases |rs|
  {
    if rs != [] {
      IdentityKept(st, rs[..|rs| - 1]);
    }
  }

  // ---------------------------------------------------------------- entries

  lemma OrPage(frame: nat, flags: nat)
    requires flags < 4096
    ensures Or(4096 * frame, flags) == 4096 * frame + flags
  {
    assert Shift(12) == 4096;
    PageLowClear(frame);
    OrIsSum(4096 * frame, flags, 12);
  }

  lemma EntryValue(frame: nat, flags: nat)
    requires flags < 4096
    ensures Or(Or(4096 * frame, flags), 1) == 4096 * frame + Or(flags, 1)
    ensures Or(flags, 1) < 4096 && IsPresent(Or(flags, 1))
  {
    var base := 4096 * frame;
    OrPage(frame, flags);
    PresentAdds(2048 * frame, base, flags, base + flags);
    SmallPresent(flags);
  }

  lemma PresentAdds(half: nat, base: nat, flags: nat, x: nat)
    requires base == 2 * half && x == base + flags
    ensures Or(x, 1) == base + Or(flags, 1)
  {
    OrOne(x);
    OrOne(flags);
    Halve(half, flags, x);
  }

  lemma SmallPresent(flags: nat)
    requires flags < 4096
    ensures Or(flags, 1) < 4096 && IsPresent(Or(flags, 1))
  {
    OrOne(flags);
    assert flags % 2 == 0 ==> flags != 4095;
  }

  /** address | flags | PRESENT, for a page-aligned address: nothing but the two parts, and masking gives them back. */
  lemma EntryParts(frame: nat, flags: nat, e: nat)
    requires flags < 4096 && e == Or(Or(4096 * frame, flags), 1)
    ensures e / 4096 == frame && e % 4096 == Or(flags, 1) && IsPresent(e)
    ensures AndNot(e, 0xFFF) == 4096 * frame
  {
    EntryValue(frame, flags);
    Quotient(frame, Or(flags, 1), e);
    SplitBits(frame, Or(flags, 1));
    PageMask(e);
  }

  lemma Quotient(q: nat, r: nat, e: nat)
    requires e == 4096 * q + r && r < 4096
    ensures e / 4096 == q && e % 4096 == r
  {}

  lemma OrOne(a: nat)
    ensures Or(a, 1) == if a % 2 == 1 then a else a + 1
  {
    OrZero(a / 2);
  }

  lemma OrTwoFour()
    ensures Or(WRITABLE, USER) == 6
  {}

  lemma AndOne(a: nat)
    ensures And(a, 1) != 0 <==> a % 2 == 1
  {
    AndZero(a / 2);
  }

  // ---------------------------------------------------------------- the tables in memory

  /** The directory and the tables are used blocks, and no two of them are the same block. */
  ghost predicate TablesOk(m: Words, dir: nat, used: set<nat>) {
    && dir in used
    && (forall s: nat :: s < 1024 && IsPresent(Pde(m, dir, s)) ==>
          Table(m, dir, s) in used && Table(m, dir, s) != dir)
    && (forall s: nat, t: nat :: s < t < 1024 && IsPresent(Pde(m, dir, s)) && IsPresent(Pde(m, dir, t)) ==>
          Table(m, dir, s) != Table(m, dir, t))
  }

  /** m with the words of one block cleared. */
  ghost predicate Cleared(m: Words, m': Words, block: nat) {
    Zeroed(m, m', block, 1024)
  }

  /** One of the first i words of a block is at address a. */
  predicate WordIn(a: int, block: nat, i: nat) {
    block * 4096 <= a < block * 4096 + 4 * i && a % 4 == 0
  }

  lemma WordInNext(a: int, block: nat, i: nat, at: int)
    requires at == block * 4096 + 4 * i
    ensures WordIn(a, block, i + 1) <==> WordIn(a, block, i) || a == at
  {
    var k := block * 1024 + i;
    assert at == 4 * k && at % 4 == 0;
    if at <= a < at + 4 && a % 4 == 0 {
      assert a / 4 == k;
    }
  }

  lemma WordInBlock(block: nat, i: nat)
    requires i < 1024
    ensures WordIn(block * 4096 + 4 * i, block, 1024)
  {
    assert block * 4096 + 4 * i == 4 * (block * 1024 + i);
  }

  /** m with the first i words of one block cleared. */
  ghost predicate Zeroed(m: Words, m': Words, block: nat, i: nat) {
    forall a: int :: Word(m', a) == if WordIn(a, block, i) then 0 else Word(m, a)
  }

  lemma ZeroNext(m: Words, m': Words, block: nat, i: nat, at: int)
    requires Zeroed(m, m', block, i) && at == block * 4096 + 4 * i
    ensures Zeroed(m, m'[at := 0], block, i + 1)
  {
    var m'' := m'[at := 0];
    forall a: int
      ensures Word(m'', a) == if WordIn(a, block, i + 1) then 0 else Word(m, a)
    {
      WordInNext(a, block, i, at);
    }
  }

  /** Words of different blocks have different addresses. */
  lemma Apart(b: nat, i: nat, c: nat, j: nat)
    requires i < 1024 && j < 1024
    ensures b * 4096 + 4 * i == c * 4096 + 4 * j <==> b == c && i == j
    ensures c * 4096 <= b * 4096 + 4 * i < c * 4096 + 4096 <==> b == c
  {}

  /** Making a table changes one directory entry, and the new table's entries read as absent. */
  lemma NewTableEntries(m: Words, m': Words, m'': Words, dir: nat, used: set<nat>, slot: nat, block: nat, e: nat)
    requires TablesOk(m, dir, used) && slot < 1024 && block !in used && e / 4096 == block
    requires Cleared(m, m', block) && m'' == m'[dir * 4096 + 4 * slot := e]
    ensures TableAdded(m, m'', dir, slot, e)
  {
    forall s: nat | s < 1024
      ensures Pde(m'', dir, s) == if s == slot then e else Pde(m, dir, s)
    {
      Apart(dir, s, dir, slot);
      Apart(dir, s, block, 0);
    }
    forall p: nat | p < 0x10_0000 && IsPresent(Pde(m'', dir, p / 1024))
      ensures Pte(m'', dir, p) == if p / 1024 == slot then 0 else Pte(m, dir, p)
    {
      var s := p / 1024;
      var t := Table(m'', dir, s);
      assert Pde(m'', dir, s) == if s == slot then e else Pde(m, dir, s);
      assert if s == slot then t == block else t == Table(m, dir, s) && t in used;
      Apart(t, p % 1024, dir, slot);
      Apart(t, p % 1024, block, 0);
      WordInBlock(block, p % 1024);
      var a := t * 4096 + 4 * (p % 1024);
      assert Word(m'', a) == Word(m', a);
    }
  }

  ghost predicate TableAdded(m: Words, m'': Words, dir: nat, slot: nat, e: nat) {
    && (forall s: nat :: s < 1024 ==> Pde(m'', dir, s) == if s == slot then e else Pde(m, dir, s))
    && (forall p: nat :: p < 0x10_0000 && IsPresent(Pde(m'', dir, p / 1024)) ==>
         Pte(m'', dir, p) == if p / 1024 == slot then 0 else Pte(m, dir, p))
  }

  lemma AddedSlots(m: Words, m'': Words, dir: nat, slot: nat, e: nat)
    requires TableAdded(m, m'', dir, slot, e) && slot < 1024 && IsPresent(e)
    ensures SpaceOf(m'', dir).slots == SpaceOf(m, dir).slots[slot := e % 4096]
  {
    MapSet(SpaceOf(m, dir).slots, SpaceOf(m'', dir).slots, slot, e % 4096);
  }

  lemma AddedPage(m: Words, m'': Words, dir: nat, slot: nat, e: nat, p: nat)
    requires TableAdded(m, m'', dir, slot, e) && !IsPresent(Pde(m, dir, slot)) && p < 0x10_0000
    ensures p in SpaceOf(m'', dir).pages <==> p in SpaceOf(m, dir).pages
    ensures p in SpaceOf(m, dir).pages ==> SpaceOf(m'', dir).pages[p] == SpaceOf(m, dir).pages[p]
  {
    var s := p / 1024;
    assert s < 1024;
    if s != slot {
      assert Pde(m'', dir, s) == Pde(m, dir, s);
      assert IsPresent(Pde(m, dir, s)) ==> Pte(m'', dir, p) == Pte(m, dir, p);
    }
  }

  lemma AddedPages(m: Words, m'': Words, dir: nat, slot: nat, e: nat)
    requires TableAdded(m, m'', dir, slot, e) && !IsPresent(Pde(m, dir, slot))
    ensures SpaceOf(m'', dir).pages == SpaceOf(m, dir).pages
  {
    var ps, ps'' := SpaceOf(m, dir).pages, SpaceOf(m'', dir).pages;
    forall p: nat | p < 0x10_0000
      ensures p in ps'' <==> p in ps
      ensures p in ps ==> ps''[p] == ps[p]
    {
      AddedPage(m, m'', dir, slot, e, p);
    }
  }

  lemma NewTable(m: Words, m': Words, m'': Words, dir: nat, used: set<nat>, slot: nat, block: nat, flags: nat, e: nat)
    requires TablesOk(m, dir, used) && slot < 1024 && !IsPresent(Pde(m, dir, slot)) && block !in used && flags < 4096
    requires Cleared(m, m', block) && m'' == m'[dir * 4096 + 4 * slot := e]
    requires e == Or(Or(4096 * block, flags), 1)
    ensures TablesOk(m'', dir, used + {block})
    ensures Table(m'', dir, slot) == block && IsPresent(e) && e % 4096 == Or(flags, 1)
    ensures TableAdded(m, m'', dir, slot, e)
    ensures SpaceOf(m'', dir).slots == SpaceOf(m, dir).slots[slot := Or(flags, 1)]
    ensures SpaceOf(m'', dir).pages == SpaceOf(m, dir).pages
  {
    EntryParts(block, flags, e);
    NewTableEntries(m, m', m'', dir, used, slot, block, e);
    AddedSlots(m, m'', dir, slot, e);
    AddedPages(m, m'', dir, slot, e);
  }

  ghost predicate PageSet(m: Words, m': Words, dir: nat, p: nat, e: nat) {
    && (forall s: nat :: s < 1024 ==> Pde(m', dir, s) == Pde(m, dir, s))
    && (forall q: nat :: q < 0x10_0000 && IsPresent(Pde(m, dir, q / 1024)) ==>
         Pte(m', dir, q) == if q == p then e else Pte(m, dir, q))
  }

  lemma SetPage(m: Words, m': Words, dir: nat, p: nat, e: nat, q: nat)
    requires PageSet(m, m', dir, p, e) && p < 0x10_0000
    requires IsPresent(Pde(m, dir, p / 1024)) && IsPresent(e)
    ensures q in SpaceOf(m', dir).pages <==> q == p || q in SpaceOf(m, dir).pages
    ensures q in SpaceOf(m', dir).pages ==>
      SpaceOf(m', dir).pages[q] == if q == p then Leaf(e / 4096, e % 4096) else SpaceOf(m, dir).pages[q]
  {
    assert q < 0x10_0000 ==> q / 1024 < 1024;
  }

  lemma MapSet<V>(ps: map<nat, V>, ps': map<nat, V>, p: nat, v: V)
    requires forall q: nat :: q in ps' <==> q == p || q in ps
    requires forall q: nat :: q in ps' ==> ps'[q] == if q == p then v else ps[q]
    ensures ps' == ps[p := v]
  {}

  lemma SetPages(m: Words, m': Words, dir: nat, p: nat, e: nat)
    requires PageSet(m, m', dir, p, e) && p < 0x10_0000 && IsPresent(Pde(m, dir, p / 1024)) && IsPresent(e)
    ensures SpaceOf(m', dir).pages == SpaceOf(m, dir).pages[p := Leaf(e / 4096, e % 4096)]
  {
    var ps, ps' := SpaceOf(m, dir).pages, SpaceOf(m', dir).pages;
    forall q: nat
      ensures q in ps' <==> q == p || q in ps
      ensures q in ps' ==> ps'[q] == if q == p then Leaf(e / 4096, e % 4096) else ps[q]
    {
      SetPage(m, m', dir, p, e, q);
    }
    MapSet(ps, ps', p, Leaf(e / 4096, e % 4096));
  }

  lemma SetSlots(m: Words, m': Words, dir: nat, p: nat, e: nat)
    requires PageSet(m, m', dir, p, e)
    ensures SpaceOf(m', dir).slots == SpaceOf(m, dir).slots
  {}

  /** Writing a page's entry changes no directory entry and no other page's entry. */
  lemma NewPageEntries(m: Words, m': Words, dir: nat, used: set<nat>, p: nat, e: nat)
    requires TablesOk(m, dir, used) && p < 0x10_0000 && IsPresent(Pde(m, dir, p / 1024))
    requires m' == m[Table(m, dir, p / 1024) * 4096 + 4 * (p % 1024) := e]
    ensures PageSet(m, m', dir, p, e)
  {
    var t := Table(m, dir, p / 1024);
    forall s: nat | s < 1024
      ensures Pde(m', dir, s) == Pde(m, dir, s)
    {
      Apart(t, p % 1024, dir, s);
    }
    forall q: nat | q < 0x10_0000 && IsPresent(Pde(m, dir, q / 1024))
      ensures Pte(m', dir, q) == if q == p then e else Pte(m, dir, q)
    {
      Apart(Table(m, dir, q / 1024), q % 1024, t, p % 1024);
      assert q / 1024 != p / 1024 ==> Table(m, dir, q / 1024) != t;
    }
  }

  lemma NewPage(m: Words, m': Words, dir: nat, used: set<nat>, p: nat, frame: nat, flags: nat, e: nat)
    requires TablesOk(m, dir, used) && p < 0x10_0000 && IsPresent(Pde(m, dir, p / 1024)) && flags < 4096
    requires m' == m[Table(m, dir, p / 1024) * 4096 + 4 * (p % 1024) := e]
    requires e == Or(Or(4096 * frame, flags), 1)
    ensures TablesOk(m', dir, used) && (TablesLow(m, dir) ==> TablesLow(m', dir))
    ensures forall b :: HoldsTables(m', dir, b) <==> HoldsTables(m, dir, b)
    ensures SpaceOf(m', dir).slots == SpaceOf(m, dir).slots
    ensures SpaceOf(m', dir).pages == SpaceOf(m, dir).pages[p := Leaf(frame, Or(flags, 1))]
  {
    EntryParts(frame, flags, e);
    NewPageEntries(m, m', dir, used, p, e);
    SetSlots(m, m', dir, p, e);
    SetPages(m, m', dir, p, e);
    SameHolders(m, m', dir);
  }

  lemma SameHolders(m: Words, m': Words, dir: nat)
    requires forall s: nat :: s < 1024 ==> Pde(m', dir, s) == Pde(m, dir, s)
    ensures forall b :: HoldsTables(m', dir, b) <==> HoldsTables(m, dir, b)
  {
    forall b: nat
      ensures HoldsTables(m', dir, b) <==> HoldsTables(m, dir, b)
    {
      if s: nat :| s < 1024 && IsPresent(Pde(m, dir, s)) && Table(m, dir, s) == b {
        assert IsPresent(Pde(m', dir, s)) && Table(m', dir, s) == b;
      }
      if s: nat :| s < 1024 && IsPresent(Pde(m', dir, s)) && Table(m', dir, s) == b {
        assert IsPresent(Pde(m, dir, s)) && Table(m, dir, s) == b;
      }
    }
  }

  // ---------------------------------------------------------------- reaching the tables once paging is on

  /** Pages below 16 MiB are mapped to themselves. */
  ghost predicate LowIdentity(s: Space) {
    forall p: nat :: p < 4096 ==> Rights(s, p).Some? && Rights(s, p).value.frame == p
  }

  /** Page b stands for itself. */
  predicate SelfMapped(s: Space, b: nat) {
    Rights(s, b).Some? && Rights(s, b).value.frame == b
  }

  /** Block b is the directory or a table. */
  ghost predicate HoldsTables(m: Words, dir: nat, b: nat) {
    b == dir || exists s: nat :: s < 1024 && IsPresent(Pde(m, dir, s)) && Table(m, dir, s) == b
  }

  /** With paging on, directory and tables are found at their physical addresses. */
  ghost predicate Reachable(m: Words, dir: nat) {
    forall b: nat :: HoldsTables(m, dir, b) ==> SelfMapped(SpaceOf(m, dir), b)
  }

  lemma LowReachable(m: Words, dir: nat)
    requires LowIdentity(SpaceOf(m, dir)) && TablesLow(m, dir)
    ensures Reachable(m, dir)
  {}

  ghost predicate TablesLow(m: Words, dir: nat) {
    dir < 4096 && forall s: nat :: s < 1024 && IsPresent(Pde(m, dir, s)) ==> Table(m, dir, s) < 4096
  }

  ghost predicate SameEntries(m: Words, m': Words, dir: nat) {
    && (forall s: nat :: s < 1024 ==> Pde(m', dir, s) == Pde(m, dir, s))
    && (forall p: nat :: p < 0x10_0000 && IsPresent(Pde(m, dir, p / 1024)) ==> Pte(m', dir, p) == Pte(m, dir, p))
  }

  lemma SameSpace(m: Words, m': Words, dir: nat)
    requires SameEntries(m, m', dir)
    ensures SpaceOf(m', dir) == SpaceOf(m, dir)
  {
    var s, s' := SpaceOf(m, dir), SpaceOf(m', dir);
    forall p: nat
      ensures p in s'.pages <==> p in s.pages
      ensures p in s'.pages ==> s'.pages[p] == s.pages[p]
    {
      assert p < 0x10_0000 ==> p / 1024 < 1024;
    }
    MapsEqual(s.pages, s'.pages);
    MapsEqual(s.slots, s'.slots);
  }

  lemma MapsEqual<V>(ps: map<nat, V>, ps': map<nat, V>)
    requires forall q: nat :: q in ps' <==> q in ps
    requires forall q: nat :: q in ps' ==> ps'[q] == ps[q]
    ensures ps' == ps
  {}

  /** The blocks of the directory and the tables. */
  ghost function TableBlocks(m: Words, dir: nat): set<nat> {
    {dir} + set s: nat | s < 1024 && IsPresent(Pde(m, dir, s)) :: Table(m, dir, s)
  }

  lemma TableBlocksUsed(m: Words, dir: nat, used: set<nat>)
    requires TablesOk(m, dir, used)
    ensures TableBlocks(m, dir) <= used
  {}

  /** The same words in directory and tables make the same address space. */
  lemma SameTables(m: Words, m': Words, dir: nat)
    requires forall a: nat :: a / 4096 in TableBlocks(m, dir) ==> Word(m', a) == Word(m, a)
    ensures SameEntries(m, m', dir) && SpaceOf(m', dir) == SpaceOf(m, dir)
  {
    forall s: nat | s < 1024
      ensures Pde(m', dir, s) == Pde(m, dir, s)
    {
      Offset(dir, 4 * s);
    }
    forall p: nat | p < 0x10_0000 && IsPresent(Pde(m, dir, p / 1024))
      ensures Pte(m', dir, p) == Pte(m, dir, p)
    {
      assert p / 1024 < 1024;
      Offset(Table(m, dir, p / 1024), 4 * (p % 1024));
    }
    SameSpace(m, m', dir);
  }

  /** Writing into a block that holds neither the directory nor a table changes nothing the tables say. */
  lemma ForeignBlock(m: Words, m': Words, dir: nat, used: set<nat>, block: nat)
    requires TablesOk(m, dir, used) && block !in used
    requires forall a: int :: !(block * 4096 <= a < block * 4096 + 4096) ==> Word(m', a) == Word(m, a)
    ensures SameEntries(m, m', dir)
  {
    forall s: nat | s < 1024
      ensures Pde(m', dir, s) == Pde(m, dir, s)
    {
      Apart(dir, s, block, 0);
    }
    forall p: nat | p < 0x10_0000 && IsPresent(Pde(m, dir, p / 1024))
      ensures Pte(m', dir, p) == Pte(m, dir, p)
    {
      Apart(Table(m, dir, p / 1024), p % 1024, block, 0);
    }
  }

  /** A table made below 16 MiB keeps all tables there. */
  lemma NewTableLow(m: Words, m'': Words, dir: nat, slot: nat, block: nat, e: nat)
    requires TableAdded(m, m'', dir, slot, e) && slot < 1024 && Table(m'', dir, slot) == block
    requires TablesLow(m, dir) && block < 4096
    ensures TablesLow(m'', dir)
  {}

  /** A table made in a page that stands for itself is reachable, and takes no mapping away. */
  lemma NewTableReachable(m: Words, m'': Words, dir: nat, slot: nat, block: nat, e: nat, flags: nat)
    requires TableAdded(m, m'', dir, slot, e) && slot < 1024 && Table(m'', dir, slot) == block
    requires SpaceOf(m'', dir) == Space(SpaceOf(m, dir).slots[slot := flags], SpaceOf(m, dir).pages)
    requires !IsPresent(Pde(m, dir, slot)) && Reachable(m, dir) && SelfMapped(SpaceOf(m, dir), block)
    ensures Reachable(m'', dir)
  {
    var s, s'' := SpaceOf(m, dir), SpaceOf(m'', dir);
    forall b: nat | HoldsTables(m'', dir, b)
      ensures SelfMapped(s'', b)
    {
      HoldersAdded(m, m'', dir, slot, block, e, b);
      assert SelfMapped(s, b);
      SlotAdded(s, slot, flags, b);
    }
  }

  lemma HoldersAdded(m: Words, m'': Words, dir: nat, slot: nat, block: nat, e: nat, b: nat)
    requires TableAdded(m, m'', dir, slot, e) && slot < 1024 && Table(m'', dir, slot) == block
    requires HoldsTables(m'', dir, b)
    ensures b == block || HoldsTables(m, dir, b)
  {
    if b != dir {
      var t: nat :| t < 1024 && IsPresent(Pde(m'', dir, t)) && Table(m'', dir, t) == b;
      if t != slot {
        assert Pde(m, dir, t) == Pde(m'', dir, t);
      }
    }
  }

  /** In the slot that gets the table no page holds one: the new table lies in a page that is mapped already. */
  lemma HoldersInSlot(m: Words, m'': Words, dir: nat, slot: nat, block: nat, e: nat)
    requires TableAdded(m, m'', dir, slot, e) && slot < 1024 && Table(m'', dir, slot) == block
    requires !IsPresent(Pde(m, dir, slot)) && SelfMapped(SpaceOf(m, dir), block)
    ensures forall b :: b / 1024 == slot ==> (HoldsTables(m'', dir, b) <==> HoldsTables(m, dir, b))
  {
    assert block / 1024 != slot;
    forall b: nat | b / 1024 == slot
      ensures HoldsTables(m'', dir, b) <==> HoldsTables(m, dir, b)
    {
      if HoldsTables(m'', dir, b) {
        HoldersAdded(m, m'', dir, slot, block, e, b);
      }
      if HoldsTables(m, dir, b) {
        HolderStays(m, m'', dir, slot, e, b);
      }
    }
  }

  lemma HolderStays(m: Words, m'': Words, dir: nat, slot: nat, e: nat, b: nat)
    requires TableAdded(m, m'', dir, slot, e) && !IsPresent(Pde(m, dir, slot)) && HoldsTables(m, dir, b)
    ensures HoldsTables(m'', dir, b)
  {
    if b != dir {
      var t: nat :| t < 1024 && IsPresent(Pde(m, dir, t)) && Table(m, dir, t) == b;
      assert Pde(m'', dir, t) == Pde(m, dir, t);
    }
  }

  /** A cleared block of nobody's, entered into an empty slot of the directory, is a table like the others. */
  lemma TableInstalled(m: Words, m': Words, m'': Words, dir: nat, used: set<nat>, slot: nat, block: nat, flags: nat,
                       e: nat)
    requires TablesOk(m, dir, used) && slot < 1024 && !IsPresent(Pde(m, dir, slot)) && block !in used && flags < 4096
    requires Cleared(m, m', block) && m'' == m'[dir * 4096 + 4 * slot := e] && e == Or(Or(4096 * block, flags), 1)
    ensures TablesOk(m'', dir, used + {block}) && IsPresent(Pde(m'', dir, slot))
    ensures SpaceOf(m'', dir) == Space(SpaceOf(m, dir).slots[slot := Or(flags, 1)], SpaceOf(m, dir).pages)
    ensures TablesLow(m, dir) && block < 4096 ==> TablesLow(m'', dir)
    ensures Reachable(m, dir) && SelfMapped(SpaceOf(m, dir), block) ==>
      && Reachable(m'', dir)
      && forall b :: b / 1024 == slot ==> (HoldsTables(m'', dir, b) <==> HoldsTables(m, dir, b))
  {
    NewTable(m, m', m'', dir, used, slot, block, flags, e);
    if TablesLow(m, dir) && block < 4096 {
      NewTableLow(m, m'', dir, slot, block, e);
    }
    if Reachable(m, dir) && SelfMapped(SpaceOf(m, dir), block) {
      NewTableReachable(m, m'', dir, slot, block, e, Or(flags, 1));
      HoldersInSlot(m, m'', dir, slot, block, e);
    }
  }

  lemma SpaceSlotted(m: Words, dir: nat)
    ensures Slotted(SpaceOf(m, dir))
  {
    forall p | p in SpaceOf(m, dir).pages
      ensures p / 1024 in SpaceOf(m, dir).slots
    {
      assert p / 1024 < 1024;
    }
  }

  lemma SlotAdded(s: Space, slot: nat, flags: nat, b: nat)
    requires slot !in s.slots && SelfMapped(s, b)
    ensures SelfMapped(Space(s.slots[slot := flags], s.pages), b)
  {}

  /** Mapping a page leaves the tables where they are found if and only if it holds none or is mapped to itself. */
  lemma EntryReachable(m: Words, m': Words, dir: nat, frame: nat, p: nat, flags: nat)
    requires forall b :: HoldsTables(m', dir, b) <==> HoldsTables(m, dir, b)
    requires SpaceOf(m', dir).slots == SpaceOf(m, dir).slots
    requires SpaceOf(m', dir).pages == SpaceOf(m, dir).pages[p := Leaf(frame, flags)]
    requires Reachable(m, dir)
    ensures Reachable(m', dir) <==> (HoldsTables(m, dir, p) ==> frame == p)
  {
    if HoldsTables(m, dir, p) && frame != p {
      assert !SelfMapped(SpaceOf(m', dir), p);
    } else {
      forall b: nat | HoldsTables(m', dir, b)
        ensures SelfMapped(SpaceOf(m', dir), b)
      {
        assert HoldsTables(m, dir, b);
      }
    }
  }

  lemma ForeignTables(m: Words, m': Words, dir: nat, used: set<nat>, block: nat)
    requires TablesOk(m, dir, used) && block !in used
    requires forall a: int :: !(block * 4096 <= a < block * 4096 + 4096) ==> Word(m', a) == Word(m, a)
    ensures SameEntries(m, m', dir) && SpaceOf(m', dir) == SpaceOf(m, dir) && TablesOk(m', dir, used)
    ensures Reachable(m, dir) ==> Reachable(m', dir)
  {
    ForeignBlock(m, m', dir, used, block);
    SameSpace(m, m', dir);
    SameHolders(m, m', dir);
  }

  lemma ZeroedForeign(m: Words, m': Words, dir: nat, used: set<nat>, block: nat, i: nat)
    requires TablesOk(m, dir, used) && block !in used && i <= 1024 && Zeroed(m, m', block, i)
    ensures SameEntries(m, m', dir) && SpaceOf(m', dir) == SpaceOf(m, dir) && TablesOk(m', dir, used)
    ensures Reachable(m, dir) ==> Reachable(m', dir)
  {
    ForeignTables(m, m', dir, used, block);
  }

  lemma Indices(virt: nat)
    requires virt < 0x1_0000_0000
    ensures virt / 4096 < 0x10_0000 && virt / 0x40_0000 == virt / 4096 / 1024 < 1024
  {}

  // ---------------------------------------------------------------- the two clients

  /** The tables k pages take, from page 0 on. */
  function Slots(k: nat): nat {
    (k + 1023) / 1024
  }

  ghost function IdentitySpace(slots: nat, k: nat): Space {
    Space(map s | s in Blocks(slots) :: 7, map p | p in Blocks(k) :: Leaf(p, 7))
  }

  /** The first k pages mapped to themselves, writable and open to user mode. */
  ghost function Prefix(k: nat): Space {
    IdentitySpace(Slots(k), k)
  }

  lemma SlotsGrow(k: nat)
    ensures Slots(k + 1) == if k % 1024 == 0 then Slots(k) + 1 else Slots(k)
    ensures if k % 1024 == 0 then k / 1024 == Slots(k) else k / 1024 < Slots(k)
  {
    var q, r := k / 1024, k % 1024;
    assert k == 1024 * q + r;
  }

  lemma IdentityGrows(slots: nat, k: nat)
    ensures IdentitySpace(slots, k).pages[k := Leaf(k, 7)] == IdentitySpace(slots, k + 1).pages
    ensures IdentitySpace(slots, k).slots[slots := 7] == IdentitySpace(slots + 1, k).slots
  {
    MapSet(IdentitySpace(slots, k).pages, IdentitySpace(slots, k + 1).pages, k, Leaf(k, 7));
    MapSet(IdentitySpace(slots, k).slots, IdentitySpace(slots + 1, k).slots, slots, 7);
  }

  lemma PrefixGrows(k: nat)
    ensures MapSpec(Prefix(k), k, k, 6) == Prefix(k + 1)
    ensures k / 1024 in Prefix(k).slots <==> k % 1024 != 0
  {
    OrOne(6);
    assert Or(6, 1) == 7;
    SlotsGrow(k);
    var slot, t := k / 1024, Slots(k);
    IdentityGrows(t, k);
    IdentityGrows(t, k + 1);
    assert slot in IdentitySpace(t, k).slots <==> slot < t;
  }

  /** How many of the first k blocks are free. */
  function FreeBelow(used: set<nat>, k: nat): (c: nat)
    ensures c <= k
  {
    if k == 0 then 0 else FreeBelow(used, k - 1) + if k - 1 in used then 0 else 1
  }

  /** How many blocks below 16 MiB are free. */
  function LowFree(used: set<nat>, n: nat): nat {
    FreeBelow(used, if n < 4096 then n else 4096)
  }

  lemma {:induction false} FreeBelowAdd(used: set<nat>, b: nat, k: nat)
    requires b !in used
    ensures FreeBelow(used + {b}, k) == if b < k then FreeBelow(used, k) - 1 else FreeBelow(used, k)
    decreases k
  {
    if k > 0 {
      FreeBelowAdd(used, b, k - 1);
    }
  }

  lemma {:induction false} FreeBelowNone(used: set<nat>, n: nat, k: nat)
    requires k <= n
    ensures FreeBelow(used, k) > 0 <==> FirstFree(used, n) < k
    decreases k
  {
    if k > 0 {
      FreeBelowNone(used, n, k - 1);
    }
  }

  lemma {:induction false} FreeBelowMonotone(used: set<nat>, k: nat, n: nat)
    requires k <= n
    ensures FreeBelow(used, k) <= FreeBelow(used, n)
    decreases n
  {
    if k < n {
      FreeBelowMonotone(used, k, n - 1);
    }
  }

  lemma {:induction false} FreeBelowCounts(used: set<nat>, n: nat)
    requires used <= Blocks(n)
    ensures FreeBelow(used, n) == n - |used|
    decreases n
  {
    if n == 0 {
      assert used == {};
    } else {
      var k, rest := n - 1, used - {n - 1};
      FreeBelowSame(used, k);
      WithoutLast(used, k, n);
      FreeBelowCounts(rest, k);
    }
  }

  lemma WithoutLast(used: set<nat>, k: nat, n: nat)
    requires used <= Blocks(n) && n == k + 1
    ensures used - {k} <= Blocks(k) && |used - {k}| == |used| - if k in used then 1 else 0
  {
    if k in used {
      assert used == (used - {k}) + {k};
    } else {
      assert used == used - {k};
    }
  }

  lemma {:induction false} FreeBelowSame(used: set<nat>, k: nat)
    ensures FreeBelow(used - {k}, k) == FreeBelow(used, k)
  {
    FreeBelowSkip(used, k, k);
  }

  lemma {:induction false} FreeBelowSkip(used: set<nat>, b: nat, k: nat)
    requires k <= b
    ensures FreeBelow(used - {b}, k) == FreeBelow(used, k)
    decreases k
  {
    if k > 0 {
      FreeBelowSkip(used, b, k - 1);
    }
  }

  /** What handing out one block does to the counts. */
  lemma Taking(used: set<nat>, n: nat)
    requires used <= Blocks(n)
    ensures FirstFree(used, n) < n <==> |used| < n
    ensures LowFree(used, n) <= n - |used|
    ensures LowFree(used, n) > 0 ==> FirstFree(used, n) < 4096
    ensures LowFree(AllocUsed(used, n), n) >= LowFree(used, n) - 1
    ensures FirstFree(used, n) < n ==> LowFree(used + {FirstFree(used, n)}, n) >= LowFree(used, n) - 1
  {
    var low := if n < 4096 then n else 4096;
    FreeBelowCounts(used, n);
    FreeBelowNone(used, n, n);
    FreeBelowNone(used, n, low);
    FreeBelowMonotone(used, low, n);
    if FirstFree(used, n) < n {
      FreeBelowAdd(used, FirstFree(used, n), low);
    }
  }

  /** Page i of a window that starts in page `first`, addresses wrapping at 4 GiB. */
  function WindowPage(first: nat, i: nat): nat {
    (first + i) % 0x10_0000
  }

  function Window(first: nat, k: nat): (rs: seq<Request>)
    ensures |rs| == k
    ensures forall i :: 0 <= i < k ==> rs[i] == WindowRequest(first, i)
  {
    if k == 0 then [] else Window(first, k - 1) + [WindowRequest(first, k - 1)]
  }

  function WindowRequest(first: nat, i: nat): Request {
    Request(WindowPage(first, i), WindowPage(first, i), WRITABLE)
  }

  lemma WindowStep(st: Stock, first: nat, k: nat)
    ensures TryAll(st, Window(first, k + 1)) == Try(TryAll(st, Window(first, k)), WindowRequest(first, k))
  {
    assert Window(first, k + 1)[..k] == Window(first, k);
  }

  lemma WindowAddress(phys: nat, i: nat)
    requires phys < 0x1_0000_0000 && i < 256
    ensures (phys + i * 4096) % 0x1_0000_0000 / 4096 == WindowPage(phys / 4096, i)
  {
    var q, r := phys / 4096, phys % 4096;
    assert phys + i * 4096 == 4096 * (q + i) + r;
    if q + i >= 0x10_0000 {
      assert (phys + i * 4096) % 0x1_0000_0000 == 4096 * (q + i - 0x10_0000) + r;
    }
  }

  /** 256 pages lie in at most two slots: that of the first page and that of the last. */
  lemma WindowSlots(first: nat, i: nat)
    requires first < 0x10_0000 && i < 256
    ensures WindowPage(first, i) / 1024 == WindowPage(first, 0) / 1024
         || WindowPage(first, i) / 1024 == WindowPage(first, 255) / 1024
    ensures WindowPage(first, i) / 1024 < 1024
  {}

  predicate InWindow(first: nat, k: nat, p: nat) {
    k > 0 && (WindowPage(first, k - 1) == p || InWindow(first, k - 1, p))
  }

  /** The window is the k pages from the first one on, the last page of the address space followed by page 0. */
  lemma {:induction false} InWindowIs(first: nat, k: nat, p: nat)
    requires first < 0x10_0000 && p < 0x10_0000 && k <= 256
    ensures InWindow(first, k, p) <==> (if p >= first then p - first else p - first + 0x10_0000) < k
    decreases k
  {
    if k > 0 {
      InWindowIs(first, k - 1, p);
    }
  }

  /** Byte d from the page of BAR 0 on, addresses wrapping at 4 GiB. */
  function WindowByte(bar0: nat, d: nat): nat {
    (bar0 - bar0 % 4096 + d) % WRAP
  }

  /** In addresses: the window is the mebibyte from the page BAR 0 lies in. */
  lemma WindowBytes(bar0: nat, first: nat, d: nat)
    requires bar0 < WRAP && first == AndNot(bar0, 0xF) / 4096 && d < 0x10_0000
    ensures InWindow(first, 256, WindowByte(bar0, d) / 4096)
  {
    NibbleMask(bar0);
    SamePage(bar0);
    WindowPageOf(bar0, bar0 / 4096, d / 4096, d % 4096, d);
    InWindowIs(first, 256, WindowByte(bar0, d) / 4096);
  }

  lemma SamePage(bar0: nat)
    ensures (bar0 - bar0 % 16) / 4096 == bar0 / 4096
  {
    var u, v := bar0 / 16, bar0 % 16;
    var q, w := u / 256, u % 256;
    Quotient(q, 16 * w, bar0 - v);
    Quotient(q, 16 * w + v, bar0);
  }

  lemma WindowPageOf(bar0: nat, q: nat, i: nat, r: nat, d: nat)
    requires bar0 < WRAP && q == bar0 / 4096 && d == 4096 * i + r && r < 4096 && i < 256
    ensures WindowByte(bar0, d) / 4096 == if q + i < 0x10_0000 then q + i else q + i - 0x10_0000
  {
    assert bar0 - bar0 % 4096 == 4096 * q;
    assert bar0 - bar0 % 4096 + d == 4096 * (q + i) + r;
    PageOfSum(q + i, r, WindowByte(bar0, d) / 4096);
  }

  lemma PageOfSum(k: nat, r: nat, p: nat)
    requires k < 0x20_0000 && r < 4096 && p == (4096 * k + r) % WRAP / 4096
    ensures p == if k < 0x10_0000 then k else k - 0x10_0000
  {
    if k >= 0x10_0000 {
      assert (4096 * k + r) % WRAP == 4096 * (k - 0x10_0000) + r;
    }
  }

  /** Pages are mapped in slots that have tables only. */
  ghost predicate Slotted(s: Space) {
    forall p :: p in s.pages ==> p / 1024 in s.slots
  }

  /** What the loop over a window makes of page p: in the window it stands for itself, closed to user mode, and
    * writable unless its slot was made for reading only; it is missing only where no table could be made. Outside the
    * window nothing changes. */
  lemma {:induction false} WindowRights(st: Stock, first: nat, k: nat, p: nat)
    requires Slotted(st.space)
    ensures var s, s' := st.space, TryAll(st, Window(first, k)).space;
      && Slotted(s')
      && Rights(s', p) ==
         (if !InWindow(first, k, p) then Rights(s, p)
          else if p / 1024 !in s'.slots then None
          else Some(Mapping(p, p / 1024 in s.slots ==> IsWritable(s.slots[p / 1024]), false)))
      && (p / 1024 in s.slots ==> p / 1024 in s'.slots && s'.slots[p / 1024] == s.slots[p / 1024])
      && (p / 1024 in s'.slots && p / 1024 !in s.slots ==> IsWritable(s'.slots[p / 1024]))
      && (InWindow(first, k, p) && p / 1024 !in s'.slots ==> TryAll(st, Window(first, k)).free <= 0)
    decreases k
  {
    if k > 0 {
      WindowRights(st, first, k - 1, p);
      WindowStep(st, first, k - 1);
      TryRights(TryAll(st, Window(first, k - 1)), WindowPage(first, k - 1), p);
    }
  }

  lemma TryRights(st: Stock, q: nat, p: nat)
    requires Slotted(st.space)
    ensures var s, s' := st.space, Try(st, Request(q, q, WRITABLE)).space;
      && Slotted(s')
      && (p / 1024 in s.slots ==> p / 1024 in s'.slots && s'.slots[p / 1024] == s.slots[p / 1024])
      && (p / 1024 in s'.slots && p / 1024 !in s.slots ==> IsWritable(s'.slots[p / 1024]))
      && (st.free <= 0 ==> s'.slots == s.slots && Try(st, Request(q, q, WRITABLE)).free == st.free)
      && (p == q && p / 1024 !in s'.slots ==> st.free <= 0)
      && (p != q ==> Rights(s', p) == Rights(s, p))
      && (p == q ==> Rights(s', p) == (if p / 1024 !in s'.slots then None
                                       else Some(Mapping(p, IsWritable(s'.slots[p / 1024]), false))))
  {
    OrOne(WRITABLE);
  }

  /** The next `tables` blocks to be handed out, those with fewer free blocks below them, stand for themselves. */
  ghost predicate Supplied(s: Space, used: set<nat>, n: nat, tables: nat) {
    forall b: nat :: b < n && b !in used && FreeBelow(used, b) < tables ==> SelfMapped(s, b)
  }

  lemma SuppliedFirst(s: Space, used: set<nat>, n: nat, tables: nat)
    requires Supplied(s, used, n, tables) && tables > 0
    ensures FirstFree(used, n) == n || SelfMapped(s, FirstFree(used, n))
  {
    var b := FirstFree(used, n);
    FreeBelowNone(used, n, b);
  }

  lemma SuppliedTaken(s: Space, used: set<nat>, n: nat, tables: nat, first: nat)
    requires Supplied(s, used, n, tables) && tables > 0 && first == FirstFree(used, n) < n
    ensures Supplied(s, used + {first}, n, tables - 1)
  {
    forall b: nat | b < n && b !in used + {first} && FreeBelow(used + {first}, b) < tables - 1
      ensures SelfMapped(s, b)
    {
      FreeBelowAdd(used, first, b);
    }
  }

  /** Mapping a page to itself uses up at most the first block supplied. */
  lemma SuppliedAfter(st: Stock, p: nat, used: set<nat>, n: nat, tables: nat)
    requires Slotted(st.space) && Supplied(st.space, used, n, tables) && (p / 1024 !in st.space.slots ==> tables > 0)
    requires st.free > 0 <==> FirstFree(used, n) < n
    ensures var s' := Try(st, Request(p, p, WRITABLE)).space;
      if p / 1024 in st.space.slots then Supplied(s', used, n, tables)
      else Supplied(s', AllocUsed(used, n), n, if st.free <= 0 then tables else tables - 1)
  {
    var s' := Try(st, Request(p, p, WRITABLE)).space;
    if p / 1024 !in st.space.slots && st.free > 0 {
      SuppliedTaken(st.space, used, n, tables, FirstFree(used, n));
    }
    forall b | SelfMapped(st.space, b)
      ensures SelfMapped(s', b)
    {
      TryRights(st, p, b);
    }
  }

  /** A page of the window whose slot has no table is one of the tables missing. */
  lemma MissingStep(st: Stock, first: nat, i: nat, p: nat)
    requires first < 0x10_0000 && i < 256 && p == WindowPage(first, i)
    ensures p / 1024 !in st.space.slots ==> Missing(st.space, first) > 0
    ensures var s' := Try(st, Request(p, p, WRITABLE)).space;
      Missing(s', first) == if p / 1024 in st.space.slots || st.free <= 0 then Missing(st.space, first)
                            else Missing(st.space, first) - 1
  {
    WindowSlots(first, i);
  }

  /** With as many blocks as tables are missing, the whole window is mapped. */
  lemma WindowComplete(st: Stock, first: nat, p: nat)
    requires Slotted(st.space) && first < 0x10_0000 && st.free >= Missing(st.space, first) && InWindow(first, 256, p)
    ensures Rights(TryAll(st, Window(first, 256)).space, p).Some?
  {
    MissingFree(st, first, 256);
    WindowRights(st, first, 256, p);
    var i := InWindowAt(first, 256, p);
    WindowSlots(first, i);
  }

  lemma {:induction false} InWindowAt(first: nat, k: nat, p: nat) returns (i: nat)
    requires InWindow(first, k, p)
    ensures i < k && p == WindowPage(first, i)
    decreases k
  {
    if WindowPage(first, k - 1) == p {
      i := k - 1;
    } else {
      i := InWindowAt(first, k - 1, p);
    }
  }

  lemma {:induction false} MissingFree(st: Stock, first: nat, k: nat)
    requires first < 0x10_0000 && st.free >= Missing(st.space, first) && k <= 256
    ensures var st' := TryAll(st, Window(first, k)); st'.free >= Missing(st'.space, first)
    ensures AllSlots(TryAll(st, Window(first, k)).space, first, k)
    decreases k
  {
    if k > 0 {
      MissingFree(st, first, k - 1);
      WindowStep(st, first, k - 1);
      var before := TryAll(st, Window(first, k - 1));
      MissingTurn(before, first, k - 1, WindowPage(first, k - 1));
      AllSlotsStep(before.space, TryAll(st, Window(first, k)).space, first, k);
    }
  }

  /** The first k pages of the window lie in slots with tables. */
  ghost predicate AllSlots(s: Space, first: nat, k: nat) {
    forall i: nat :: i < k ==> WindowPage(first, i) / 1024 in s.slots
  }

  lemma AllSlotsStep(s: Space, s': Space, first: nat, k: nat)
    requires k > 0 && AllSlots(s, first, k - 1) && s.slots.Keys <= s'.slots.Keys
    requires WindowPage(first, k - 1) / 1024 in s'.slots
    ensures AllSlots(s', first, k)
  {}

  lemma MissingTurn(st: Stock, first: nat, i: nat, p: nat)
    requires first < 0x10_0000 && i < 256 && p == WindowPage(first, i) && st.free >= Missing(st.space, first)
    ensures var st' := Try(st, Request(p, p, WRITABLE));
      && st'.free >= Missing(st'.space, first)
      && p / 1024 in st'.space.slots && st.space.slots.Keys <= st'.space.slots.Keys
  {
    MissingStep(st, first, i, p);
  }

  /** The loop over a window keeps what is used, and takes no more low blocks than tables are missing. */
  ghost predicate Spending(s: Space, used: set<nat>, n: nat, first: nat, base: set<nat>, spare: int) {
    base <= used && LowFree(used, n) - Missing(s, first) >= spare
  }

  lemma SpendingStep(st: Stock, first: nat, i: nat, p: nat, used: set<nat>, used': set<nat>, n: nat,
                     base: set<nat>, spare: int)
    requires first < 0x10_0000 && i < 256 && p == WindowPage(first, i) && used <= Blocks(n)
    requires Spending(st.space, used, n, first, base, spare) && (st.free > 0 <==> FirstFree(used, n) < n)
    requires used' == if p / 1024 in st.space.slots then used else AllocUsed(used, n)
    ensures Spending(Try(st, Request(p, p, WRITABLE)).space, used', n, first, base, spare)
  {
    MissingStep(st, first, i, p);
    Taking(used, n);
  }

  /** Enough free blocks below 16 MiB are a supply, while the pages there stand for themselves. */
  lemma LowSupplies(s: Space, used: set<nat>, n: nat, tables: nat)
    requires used <= Blocks(n) && LowFree(used, n) >= tables
    requires forall b: nat :: b < 4096 && b !in used ==> SelfMapped(s, b)
    ensures Supplied(s, used, n, tables)
  {
    forall b: nat | b < n && b !in used && FreeBelow(used, b) < tables
      ensures SelfMapped(s, b)
    {
      if b >= 4096 {
        FreeBelowMonotone(used, 4096, b);
      }
    }
  }

  lemma LowFirst(used: set<nat>, n: nat, b: nat, used': set<nat>)
    requires used <= Blocks(n) && LowFree(used, n) > 0 && b == FirstFree(used, n) && used' == used + {b}
    ensures b < n && b < 4096 && b !in used && used' <= Blocks(n) && LowFree(used', n) >= LowFree(used, n) - 1
  {
    Taking(used, n);
  }

  /** How many tables a window of 256 pages still needs. */
  function Missing(s: Space, first: nat): nat {
    var a, b := WindowPage(first, 0) / 1024, WindowPage(first, 255) / 1024;
    (if a in s.slots then 0 else 1) + if b in s.slots || b == a then 0 else 1
  }

  /** The two cases of a turn: the mapping grows, making a table when it enters a slot; or blocks have run out. */
  lemma Turn(i: nat, f: int)
    requires i < 4096 && f >= 1
    ensures var k := Reached(i, f);
      if i < 1024 * TablesMade(f) then
        k == i && Reached(i + 1, f) == i + 1 && (i % 1024 == 0 ==> Slots(k) < f - 1)
      else
        Reached(i + 1, f) == k && Slots(k) == f - 1 <= i / 1024 && f < 5
  {}

  /** How many tables there are after a turn. */
  lemma TurnCounts(i: nat, f: int, slot: nat, k: nat, made: bool, room: bool)
    requires i < 4096 && f >= 1 && k == Reached(i, f) && slot == i / 1024
    requires made <==> slot in Prefix(k).slots
    requires room <==> made || Slots(k) < f - 1
    ensures Slots(Reached(i + 1, f)) == Slots(k) + if made || !room then 0 else 1
    ensures f >= 5 ==> k == i && Reached(i + 1, f) == i + 1
  {
    Turn(i, f);
    PrefixGrows(k);
    SlotsGrow(k);
  }

  /** The tables before turn i of the boot loop, started with f blocks free, none of them in a block of base, which were
    * in use before. count: how many of the n blocks are in use. low: how many blocks below 16 MiB were free; with 5
    * there is one for the directory and for every table. */
  ghost predicate Booting(m: Words, dir: nat, used: set<nat>, count: int, n: nat,
                          i: nat, f: int, low: nat, base: set<nat>) {
    && 0 in used && base <= used && TablesOk(m, dir, used - base)
    && SpaceOf(m, dir) == Prefix(Reached(i, f)) && count == n - f + 1 + Slots(Reached(i, f))
    && (low >= 5 ==> f >= 5 && TablesLow(m, dir) && LowFree(used, n) >= low - 1 - Slots(i))
  }

  /** The processor finds every address in the first t slots at itself, writable, and faults everywhere else. */
  ghost predicate IdentityBelow(m: Words, dir: nat, t: nat) {
    forall virt: nat :: virt < 0x1_0000_0000 ==>
      Walk(m, dir, virt / 4096) == if virt < 0x40_0000 * t then Some(Mapping(virt / 4096, true, true)) else None
  }

  lemma PrefixIsIdentity(m: Words, dir: nat, t: nat)
    requires SpaceOf(m, dir) == Prefix(1024 * t)
    ensures IdentityBelow(m, dir, t)
  {
    forall virt: nat | virt < 0x1_0000_0000
      ensures Walk(m, dir, virt / 4096) == if virt < 0x40_0000 * t then Some(Mapping(virt / 4096, true, true)) else None
    {
      BootWalk(m, dir, t, virt);
    }
  }

  /** The tables at the end of the boot loop. With 5 low blocks free before they map all of it and can be reached. */
  ghost predicate Booted(m: Words, dir: nat, used: set<nat>, count: int, n: nat, f: int, low: nat, base: set<nat>) {
    && 0 in used && base <= used && TablesOk(m, dir, used - base)
    && SpaceOf(m, dir) == BootSpace(f) && count == n - f + 1 + TablesMade(f)
    && IdentityBelow(m, dir, TablesMade(f))
    && (low >= 5 ==> SpaceOf(m, dir) == Prefix(4096) && Reachable(m, dir) && LowFree(used, n) >= low - 5)
  }

  lemma BootEnds(m: Words, dir: nat, used: set<nat>, count: int, n: nat, k: nat, f: int, low: nat, base: set<nat>)
    requires Booting(m, dir, used, count, n, k, f, low, base) && k == 4096
    ensures Booted(m, dir, used, count, n, f, low, base)
  {
    Ends(f);
    PrefixIsIdentity(m, dir, TablesMade(f));
    if low >= 5 {
      PrefixReachable(m, dir);
    }
  }

  /** An empty directory in the first free block. */
  lemma BootStart(m: Words, dir: nat, used: set<nat>, used': set<nat>, count: int, n: nat, f: int, low: nat)
    requires used <= Blocks(n) && f == n - |used| && low == LowFree(used, n) && 0 in used
    requires dir == FirstFree(used, n) < n && used' == used + {dir} && count == n - f + 1
    requires TablesOk(m, dir, used' - used) && SpaceOf(m, dir) == Prefix(0) && TablesLow(m, dir) == (dir < 4096)
    ensures Booting(m, dir, used', count, n, 0, f, low, used)
  {
    Ends(f);
    if low >= 5 {
      LowFirst(used, n, dir, used');
      Taking(used, n);
    }
  }

  lemma BootTurn(m: Words, m': Words, dir: nat, used: set<nat>, used': set<nat>, count: int, count': int, n: nat,
                 i: nat, slot: nat, f: int, low: nat, base: set<nat>)
    requires i < 4096 && f >= 1 && slot == i / 1024 && used <= Blocks(n) && count == |used|
    requires Booting(m, dir, used, count, n, i, f, low, base)
    requires var s, room := SpaceOf(m, dir), slot in SpaceOf(m, dir).slots || FirstFree(used, n) < n;
      && SpaceOf(m', dir) == (if room then MapSpec(s, i, i, 6) else s)
      && used' == (if slot in s.slots then used else AllocUsed(used, n))
      && count' == count + (if slot in s.slots || !room then 0 else 1)
      && (TablesLow(m, dir) && (slot in s.slots || FirstFree(used, n) < 4096) ==> TablesLow(m', dir))
    requires TablesOk(m', dir, used' - base)
    ensures Booting(m', dir, used', count', n, i + 1, f, low, base)
  {
    var s, k := SpaceOf(m, dir), Reached(i, f);
    var made, room := slot in s.slots, slot in s.slots || FirstFree(used, n) < n;
    Taking(used, n);
    TurnCounts(i, f, slot, k, made, room);
    TurnSpace(s, SpaceOf(m', dir), i, f, room);
  }

  lemma TurnSpace(s: Space, s': Space, i: nat, f: int, room: bool)
    requires i < 4096 && f >= 1 && s == Prefix(Reached(i, f))
    requires room <==> i / 1024 in s.slots || Slots(Reached(i, f)) < f - 1
    requires s' == if room then MapSpec(s, i, i, 6) else s
    ensures s' == Prefix(Reached(i + 1, f))
  {
    Turn(i, f);
    SlotsGrow(i);
    PrefixGrows(i);
  }

  lemma Ends(f: int)
    ensures Reached(0, f) == 0 && Slots(0) == 0
    ensures Reached(4096, f) == 1024 * TablesMade(f) && Slots(1024 * TablesMade(f)) == TablesMade(f)
  {}

  /** The boot mapping as the processor sees it: the first t slots are the identity, the rest faults. */
  lemma PrefixRights(t: nat, k: nat, p: nat)
    requires k == 1024 * t
    ensures Rights(Prefix(k), p) == if p < k then Some(Mapping(p, true, true)) else None
  {
    assert Slots(k) == t;
    assert p < k ==> p / 1024 < t;
    assert IsWritable(7) && IsUser(7);
  }

  /** Once t tables have been made: every virtual address below t times 4 MiB stands for itself, every other faults. */
  lemma BootWalk(m: Words, dir: nat, t: nat, virt: nat)
    requires SpaceOf(m, dir) == Prefix(1024 * t) && virt < 0x1_0000_0000
    ensures Walk(m, dir, virt / 4096) ==
      if virt < 0x40_0000 * t then Some(Mapping(virt / 4096, true, true)) else None
  {
    var p := virt / 4096;
    WalkIsRights(m, dir, p);
    PrefixRights(t, 1024 * t, p);
  }

  /** The words of the boot mapping: present, writable, open to user mode, and the page's own frame. */
  lemma BootEntries(m: Words, dir: nat, t: nat, p: nat)
    requires SpaceOf(m, dir) == Prefix(1024 * t) && p < 1024 * t && p < 0x10_0000
    ensures Pte(m, dir, p) == 4096 * p + 7 && Pde(m, dir, p / 1024) % 4096 == 7
  {
    assert p in SpaceOf(m, dir).pages && SpaceOf(m, dir).pages[p] == Leaf(p, 7);
    SpaceSlotted(m, dir);
    assert p / 1024 in SpaceOf(m, dir).slots;
  }

  lemma PrefixIsLow(k: nat)
    requires k == 4096
    ensures LowIdentity(Prefix(k))
  {
    forall p: nat | p < 4096
      ensures Rights(Prefix(k), p).Some? && Rights(Prefix(k), p).value.frame == p
    {
      PrefixRights(4, k, p);
    }
  }

  /** The tables of the whole boot mapping, below 16 MiB, are found by its own means. */
  lemma PrefixReachable(m: Words, dir: nat)
    requires SpaceOf(m, dir) == Prefix(4096) && TablesLow(m, dir)
    ensures Reachable(m, dir)
  {
    PrefixIsLow(4096);
    LowReachable(m, dir);
  }

  function TablesMade(f: int): nat {
    if f <= 1 then 0 else if f >= 5 then 4 else f - 1
  }

  /** What vmm_initialize maps with f blocks free. */
  ghost function BootSpace(f: int): Space {
    Prefix(1024 * TablesMade(f))
  }

  /** How far the identity mapping has got after i pages, with f blocks to start with. */
  function Reached(i: nat, f: int): nat {
    if i <= 1024 * TablesMade(f) then i else 1024 * TablesMade(f)
  }

  lemma EmptyDirectory(before: Words, m: Words, dir: nat, used: set<nat>)
    requires dir in used && Cleared(before, m, dir)
    ensures TablesOk(m, dir, used) && TablesLow(m, dir) == (dir < 4096)
    ensures SpaceOf(m, dir) == Prefix(0)
  {
    forall s: nat | s < 1024
      ensures Pde(m, dir, s) == 0
    {
      WordInBlock(dir, s);
    }
    assert forall p: nat :: p < 0x10_0000 ==> !IsPresent(Pde(m, dir, p / 1024));
  }

  lemma Offset(b: nat, i: nat)
    requires i < 4096
    ensures (b * 4096 + i) / 4096 == b && (b * 4096 + i) % 4096 == i
  {}
}
