/** The page tables built in place: memory/vmm.c over blocks from the allocator, and the MMIO loop of the e1000. */
module Paging {
  import opened Bits
  import opened Pmm
  import opened Vmm

  method PageEntry(phys: nat, flags: nat) returns (e: nat)
    ensures e == Or(Or(4096 * (phys / 4096), flags), 1)
  {
    PageMask(phys);
    var frame := AndNot(phys, 0xFFF);
    assert frame == 4096 * (phys / 4096);
    e := Or(Or(frame, flags), 1);
  }

  class PageTables {
    var mem: Words
    var pageDirectory: nat
    var paging: bool
    const pmm: BlockAllocator
    /** What was in use before there were tables. */
    ghost const kept: set<nat>

    constructor (pmm: BlockAllocator, mem: Words)
      ensures this.pmm == pmm && this.mem == mem && pageDirectory == 0 && !paging && kept == pmm.Used()
    {
      this.pmm := pmm;
      this.kept := pmm.Used();
      this.mem := mem;
      pageDirectory := 0;
      paging := false;
    }

    ghost function Dir(): nat
      reads this
    {
      pageDirectory / 4096
    }

    ghost function Contents(): Space
      reads this
    {
      SpaceOf(mem, Dir())
    }

    /** Directory and tables are distinct blocks taken since. */
    ghost predicate Formed(used: set<nat>)
      reads this
    {
      pageDirectory == Dir() * 4096 && kept <= used && TablesOk(mem, Dir(), used - kept)
    }

    /** The tables are well formed; once paging is on they can still be reached at their physical addresses. */
    ghost predicate Tables(used: set<nat>)
      reads this
    {
      Formed(used) && (paging ==> Reachable(mem, Dir()))
    }

    ghost predicate Valid()
      reads this, pmm, pmm.bitmap
    {
      && pmm.Valid() && 0 in pmm.Used()
      && Tables(pmm.Used())
    }

    /** An access to virtual address a lands on physical address a, and does not fault. */
    ghost predicate Direct(a: nat)
      reads this
    {
      paging ==> a / 4096 < 0x10_0000 && Walk(mem, Dir(), a / 4096).Some?
                 && Walk(mem, Dir(), a / 4096).value.frame == a / 4096
    }

    lemma BlockIsDirect(b: nat, i: nat)
      requires paging ==> SelfMapped(Contents(), b)
      requires i < 4096
      ensures Direct(b * 4096 + i)
    {
      Offset(b, i);
      if paging {
        assert b < 0x10_0000;
        WalkIsRights(mem, Dir(), b);
      }
    }

    /** An access to a byte of a block lands there exactly when the block's page stands for itself. */
    lemma DirectExactly(b: nat, i: nat)
      requires i < 4096
      ensures Direct(b * 4096 + i) <==> !paging || SelfMapped(Contents(), b)
    {
      Offset(b, i);
      if b < 0x10_0000 {
        WalkIsRights(mem, Dir(), b);
      }
    }

    /** Where the processor sends an access. */
    function Physical(a: nat): nat
      reads this
      requires Direct(a)
    {
      if paging then Walk(mem, pageDirectory / 4096, a / 4096).value.frame * 4096 + a % 4096 else a
    }

    method Load(a: nat) returns (v: nat)
      requires Direct(a)
      ensures v == Word(mem, a)
    {
      v := Word(mem, Physical(a));
    }

    method Store(a: nat, v: nat)
      requires Direct(a)
      modifies this`mem
      ensures mem == old(mem)[a := v]
    {
      mem := mem[Physical(a) := v];
    }

    /** One block from the allocator: null only when none is left, because block 0 is in use. */
    method TakeBlock() returns (addr: nat)
      requires pmm.Valid() && 0 in pmm.Used()
      modifies pmm`usedBlocks, pmm`count, pmm.bitmap
      ensures pmm.Valid() && 0 in pmm.Used()
      ensures addr == 0 <==> old(pmm.count) == pmm.maxBlocks
      ensures pmm.Used() == AllocUsed(old(pmm.Used()), pmm.maxBlocks)
      ensures addr == 0 ==> pmm.Used() == old(pmm.Used())
      ensures addr == 0 <==> FirstFree(old(pmm.Used()), pmm.maxBlocks) == pmm.maxBlocks
      ensures addr != 0 ==> addr % 4096 == 0 && addr / 4096 !in old(pmm.Used())
                            && addr / 4096 == FirstFree(old(pmm.Used()), pmm.maxBlocks)
                            && pmm.Used() == old(pmm.Used()) + {addr / 4096}
                            && pmm.count == old(pmm.count) + 1
    {
      ghost var used, n := pmm.Used(), pmm.maxBlocks;
      pmm.UsedInRange();
      Taking(used, n);
      AnswerBlock(used, n);
      addr := pmm.AllocBlock();
    }

    method DirectoryEntry(slot: nat, ghost used: set<nat>) returns (pde: nat)
      requires Tables(used) && slot < 1024
      ensures pde == Pde(mem, Dir(), slot)
    {
      SlotIsDirect(slot, used);
      pde := Load(pageDirectory + 4 * slot);
    }

    lemma SlotIsDirect(slot: nat, used: set<nat>)
      requires Tables(used) && slot < 1024
      ensures pageDirectory + 4 * slot == Dir() * 4096 + 4 * slot && Direct(pageDirectory + 4 * slot)
    {
      assert HoldsTables(mem, Dir(), Dir());
      BlockIsDirect(Dir(), 4 * slot);
    }

    method TableAddress(slot: nat, ghost used: set<nat>) returns (pt: nat)
      requires Tables(used) && slot < 1024
      ensures pt == Table(mem, Dir(), slot) * 4096
    {
      var pde := DirectoryEntry(slot, used);
      PageMask(pde);
      pt := AndNot(pde, 0xFFF);
    }

    /** memset(block, 0, 4096), a word at a time. A block that is neither directory nor table changes no mapping. */
    method ClearBlock(block: nat, ghost used: set<nat>)
      requires paging ==> Tables(used) && block !in used && SelfMapped(Contents(), block)
      modifies this`mem
      ensures Cleared(old(mem), mem, block)
      ensures old(Tables(used)) && block !in used ==>
        Tables(used) && Contents() == old(Contents()) && SameEntries(old(mem), mem, Dir())
    {
      ghost var m := mem;
      for i := 0 to 1024
        invariant Zeroed(m, mem, block, i)
      {
        ClearWord(block, i, m, used);
      }
      if TablesOk(m, Dir(), used - kept) && block !in used {
        ZeroedForeign(m, mem, Dir(), used - kept, block, 1024);
      }
    }

    method ClearWord(block: nat, i: nat, ghost m: Words, ghost used: set<nat>)
      requires i < 1024 && Zeroed(m, mem, block, i)
      requires paging ==> TablesOk(m, Dir(), used - kept) && block !in used && SelfMapped(SpaceOf(m, Dir()), block)
      modifies this`mem
      ensures Zeroed(m, mem, block, i + 1)
    {
      if paging {
        ZeroedForeign(m, mem, Dir(), used - kept, block, i);
      }
      ghost var before, at := mem, block * 4096 + 4 * i;
      BlockIsDirect(block, 4 * i);
      Store(block * 4096 + 4 * i, 0);
      ZeroNext(m, before, block, i, at);
    }

    /** A fresh block becomes the cleared table of an empty slot. */
    method InstallTable(block: nat, slot: nat, flags: nat, ghost used: set<nat>)
      requires Tables(used) && block !in used && (paging ==> SelfMapped(Contents(), block))
      requires slot < 1024 && !IsPresent(Pde(mem, Dir(), slot)) && flags < 4096
      modifies this`mem
      ensures Tables(used + {block})
      ensures IsPresent(Pde(mem, Dir(), slot))
      ensures Contents() == Space(old(Contents()).slots[slot := Or(flags, 1)], old(Contents()).pages)
      ensures old(TablesLow(mem, Dir())) && block < 4096 ==> TablesLow(mem, Dir())
      ensures paging ==>
        forall b :: b / 1024 == slot ==> (HoldsTables(mem, Dir(), b) <==> old(HoldsTables(mem, Dir(), b)))
    {
      ghost var m := mem;
      ClearBlock(block, used);
      ghost var m', dir := mem, Dir();
      SlotIsDirect(slot, used);
      var e := Or(Or(4096 * block, flags), 1);
      Store(pageDirectory + 4 * slot, e);
      TableInstalled(m, m', mem, dir, used - kept, slot, block, flags, e);
      assert used + {block} - kept == used - kept + {block};
    }

    /** The slot has a table, or a block is left to make one of. */
    ghost predicate Room(slot: nat)
      reads this, pmm, pmm.bitmap
      requires pmm.Valid()
    {
      slot in Contents().slots || FirstFree(pmm.Used(), pmm.maxBlocks) < pmm.maxBlocks
    }

    /** The slot has a table, or the next block handed out lies below 16 MiB. */
    ghost predicate LowRoom(slot: nat)
      reads this, pmm, pmm.bitmap
      requires pmm.Valid()
    {
      slot in Contents().slots || FirstFree(pmm.Used(), pmm.maxBlocks) < 4096
    }

    /** Once paging is on, a table still to be made must get a block that stands for itself to be written at all. */
    ghost predicate Writable(slot: nat)
      reads this, pmm, pmm.bitmap
      requires pmm.Valid()
    {
      var b := FirstFree(pmm.Used(), pmm.maxBlocks);
      paging && slot !in Contents().slots ==> b == pmm.maxBlocks || SelfMapped(Contents(), b)
    }

    /** The first half of vmm_map_page: a cleared table for the slot, unless it has one or memory is out. */
    method EnsureTable(slot: nat, flags: nat) returns (ok: bool)
      requires Valid() && slot < 1024 && flags < 4096 && Writable(slot)
      modifies this`mem, pmm`usedBlocks, pmm`count, pmm.bitmap
      ensures Valid() && ok == old(Room(slot))
      ensures ok ==> IsPresent(Pde(mem, Dir(), slot))
      ensures Contents().pages == old(Contents()).pages
      ensures Contents().slots == if !ok || slot in old(Contents()).slots then old(Contents()).slots
                                  else old(Contents()).slots[slot := Or(flags, 1)]
      ensures pmm.Used() == if slot in old(Contents()).slots then old(pmm.Used())
                            else AllocUsed(old(pmm.Used()), pmm.maxBlocks)
      ensures pmm.count == old(pmm.count) + if !ok || slot in old(Contents()).slots then 0 else 1
      ensures !ok ==> mem == old(mem)
      ensures old(TablesLow(mem, Dir())) && old(LowRoom(slot)) ==> TablesLow(mem, Dir())
      ensures paging ==>
        forall b :: b / 1024 == slot ==> (HoldsTables(mem, Dir(), b) <==> old(HoldsTables(mem, Dir(), b)))
    {
      var pde := DirectoryEntry(slot, pmm.Used());
      AndOne(pde);
      if And(pde, 1) != 0 {
        return true;
      }
      ghost var used := pmm.Used();
      assert slot !in Contents().slots && Tables(used);
      var pt := TakeBlock();
      if pt == 0 {
        return false;
      }
      var block := pt / 4096;
      InstallTable(block, slot, flags, used);
      return true;
    }

    /** The second half: the entry of a page whose slot has a table. */
    method SetEntry(phys: nat, p: nat, flags: nat, ghost used: set<nat>)
      requires Tables(used) && p < 0x10_0000 && IsPresent(Pde(mem, Dir(), p / 1024)) && flags < 4096
      modifies this`mem
      ensures pageDirectory == old(pageDirectory) && Formed(used)
      ensures Tables(used) <==> old(Keeps(p, phys / 4096))
      ensures Contents().slots == old(Contents()).slots
      ensures Contents().pages == old(Contents()).pages[p := Leaf(phys / 4096, Or(flags, 1))]
      ensures old(TablesLow(mem, Dir())) ==> TablesLow(mem, Dir())
    {
      var pt := TableAddress(p / 1024, used);
      var at := pt + 4 * (p % 1024);
      EntryIsDirect(p, at, used);
      var e := PageEntry(phys, flags);
      PutEntry(at, e, p, phys / 4096, flags, used);
    }

    /** Mapping page p to frame takes no table out of reach. */
    ghost predicate Keeps(p: nat, frame: nat)
      reads this
    {
      paging && HoldsTables(mem, Dir(), p) ==> frame == p
    }

    lemma EntryIsDirect(p: nat, at: nat, used: set<nat>)
      requires Tables(used) && p < 0x10_0000 && IsPresent(Pde(mem, Dir(), p / 1024))
      requires at == Table(mem, Dir(), p / 1024) * 4096 + 4 * (p % 1024)
      ensures Direct(at)
    {
      var table := Table(mem, Dir(), p / 1024);
      assert HoldsTables(mem, Dir(), table);
      BlockIsDirect(table, 4 * (p % 1024));
    }

    method PutEntry(at: nat, e: nat, ghost p: nat, ghost frame: nat, ghost flags: nat, ghost used: set<nat>)
      requires Tables(used) && p < 0x10_0000 && IsPresent(Pde(mem, Dir(), p / 1024)) && flags < 4096
      requires at == Table(mem, Dir(), p / 1024) * 4096 + 4 * (p % 1024) && Direct(at)
      requires e == Or(Or(4096 * frame, flags), 1)
      modifies this`mem
      ensures pageDirectory == old(pageDirectory) && Formed(used)
      ensures Tables(used) <==> old(Keeps(p, frame))
      ensures Contents().slots == old(Contents()).slots
      ensures Contents().pages == old(Contents()).pages[p := Leaf(frame, Or(flags, 1))]
      ensures old(TablesLow(mem, Dir())) ==> TablesLow(mem, Dir())
    {
      ghost var m, s := mem, Contents();
      Store(at, e);
      NewPage(m, mem, Dir(), used - kept, p, frame, flags, e);
      if paging {
        EntryReachable(m, mem, Dir(), frame, p, Or(flags, 1));
      }
    }

    ghost function Supply(): Stock
      reads this, pmm
    {
      Stock(Contents(), pmm.maxBlocks - pmm.count)
    }

    /** vmm_map_page. With a table or a block to make one, the partial map changes at exactly this page;
      * without, nothing changes at all. The tables stay reachable if and only if paging is off, or the page holds
      * neither the directory nor a table, or it is mapped to itself. */
    method MapPage(phys: nat, virt: nat, flags: nat)
      requires Valid() && virt < 0x1_0000_0000 && flags < 4096
      requires Writable(virt / 4096 / 1024)
      modifies this`mem, pmm`usedBlocks, pmm`count, pmm.bitmap
      ensures pmm.Valid() && 0 in pmm.Used() && Formed(pmm.Used())
      ensures Supply() == Try(old(Supply()), Request(phys / 4096, virt / 4096, flags))
      ensures Valid() <==> !old(Room(virt / 4096 / 1024)) || old(Keeps(virt / 4096, phys / 4096))
      ensures !old(Room(virt / 4096 / 1024)) ==> mem == old(mem)
      ensures pmm.Used() == if virt / 4096 / 1024 in old(Contents()).slots then old(pmm.Used())
                            else AllocUsed(old(pmm.Used()), pmm.maxBlocks)
      ensures old(TablesLow(mem, Dir())) && old(LowRoom(virt / 4096 / 1024)) ==> TablesLow(mem, Dir())
    {
      Indices(virt);
      MapIn(phys, virt / 4096, virt / 0x40_0000, flags);
    }

    /** Its statements, with the indices of the page and of its slot. */
    method MapIn(phys: nat, p: nat, slot: nat, flags: nat)
      requires Valid() && p < 0x10_0000 && slot == p / 1024 && flags < 4096
      requires Writable(slot)
      modifies this`mem, pmm`usedBlocks, pmm`count, pmm.bitmap
      ensures pmm.Valid() && 0 in pmm.Used() && Formed(pmm.Used())
      ensures Supply() == Try(old(Supply()), Request(phys / 4096, p, flags))
      ensures Valid() <==> !old(Room(slot)) || old(Keeps(p, phys / 4096))
      ensures !old(Room(slot)) ==> mem == old(mem)
      ensures pmm.Used() == if slot in old(Contents()).slots then old(pmm.Used())
                            else AllocUsed(old(pmm.Used()), pmm.maxBlocks)
      ensures old(TablesLow(mem, Dir())) && old(LowRoom(slot)) ==> TablesLow(mem, Dir())
    {
      ghost var st, r := Supply(), Request(phys / 4096, p, flags);
      RoomIsFree(slot);
      var ok := EnsureTable(slot, flags);
      if ok {
        SetEntry(phys, p, flags, pmm.Used());
      }
      TryIs(st, r, slot, ok, Supply());
    }

    lemma RoomIsFree(slot: nat)
      requires Valid()
      ensures Room(slot) <==> slot in Contents().slots || Supply().free > 0
    {
      pmm.UsedInRange();
      Taking(pmm.Used(), pmm.maxBlocks);
    }

    method MapToItself(virt: nat, ghost p: nat, ghost tables: nat)
      requires Valid() && paging && virt < 0x1_0000_0000 && p == virt / 4096
      requires Supplied(Contents(), pmm.Used(), pmm.maxBlocks, tables) && (p / 1024 !in Contents().slots ==> tables > 0)
      modifies this`mem, pmm`usedBlocks, pmm`count, pmm.bitmap
      ensures Valid() && Supply() == Try(old(Supply()), Request(p, p, WRITABLE))
      ensures Supplied(Contents(), pmm.Used(), pmm.maxBlocks,
                       if p / 1024 in old(Contents()).slots || old(Supply()).free <= 0 then tables else tables - 1)
      ensures pmm.Used() == if p / 1024 in old(Contents()).slots then old(pmm.Used())
                            else AllocUsed(old(pmm.Used()), pmm.maxBlocks)
    {
      ghost var used, n, st, m := pmm.Used(), pmm.maxBlocks, Supply(), mem;
      pmm.UsedInRange();
      Taking(used, n);
      assert virt / 4096 / 1024 == p / 1024;
      if p / 1024 !in st.space.slots {
        SuppliedFirst(st.space, used, n, tables);
      }
      MapPage(virt, virt, WRITABLE);
      SpaceSlotted(m, Dir());
      SuppliedAfter(st, p, used, n, tables);
    }

    /** Before turn i of the MMIO loop. */
    ghost predicate Mmio(first: nat, i: nat, st: Stock, base: set<nat>, spare: int)
      reads this, pmm, pmm.bitmap
    {
      && paging && Valid() && Supply() == TryAll(st, Window(first, i)) && ForWindow(first)
      && Spending(Contents(), pmm.Used(), pmm.maxBlocks, first, base, spare)
    }

    ghost predicate ForWindow(first: nat)
      reads this, pmm, pmm.bitmap
    {
      Supplied(Contents(), pmm.Used(), pmm.maxBlocks, Missing(Contents(), first))
    }

    /** How many low blocks would be left with all tables made that a window needs. */
    ghost function Spare(first: nat): int
      reads this, pmm, pmm.bitmap
    {
      LowFree(pmm.Used(), pmm.maxBlocks) - Missing(Contents(), first)
    }

    /** The MMIO loop of e1000_initialize: 256 pages from the base in BAR 0, mapped to themselves as far as there are
      * tables and blocks for them. */
    method MapMmio(bar0: nat)
      requires Valid() && paging && bar0 < 0x1_0000_0000 && ForWindow(AndNot(bar0, 0xF) / 4096)
      modifies this`mem, pmm`usedBlocks, pmm`count, pmm.bitmap
      ensures Valid() && paging && old(pmm.Used()) <= pmm.Used()
      ensures Supply() == TryAll(old(Supply()), Window(AndNot(bar0, 0xF) / 4096, 256))
      ensures Spare(AndNot(bar0, 0xF) / 4096) >= old(Spare(AndNot(bar0, 0xF) / 4096))
    {
      var physAddr := AndNot(bar0, 0xF);
      AndNotShrinks(bar0, 0xF);
      ghost var first, st := physAddr / 4096, Supply();
      ghost var base, spare := pmm.Used(), Spare(first);
      for i := 0 to 256
        invariant Mmio(first, i, st, base, spare)
      {
        MmioTurn(physAddr, i, first, st, base, spare);
      }
    }

    method MmioTurn(physAddr: nat, i: nat, ghost first: nat, ghost st: Stock, ghost base: set<nat>, ghost spare: int)
      requires physAddr < 0x1_0000_0000 && i < 256 && first == physAddr / 4096 && Mmio(first, i, st, base, spare)
      modifies this`mem, pmm`usedBlocks, pmm`count, pmm.bitmap
      ensures Mmio(first, i + 1, st, base, spare)
    {
      WindowAddress(physAddr, i);
      WindowSlots(first, i);
      WindowStep(st, first, i);
      var virt := (physAddr + i * 4096) % 0x1_0000_0000;
      ghost var p, before, tables := WindowPage(first, i), Supply(), Missing(Contents(), first);
      ghost var used := pmm.Used();
      assert virt / 4096 == p;
      MissingStep(before, first, i, p);
      UsedFree(used);
      MapToItself(virt, p, tables);
      SpendingStep(before, first, i, p, used, pmm.Used(), pmm.maxBlocks, base, spare);
    }

    lemma UsedFree(used: set<nat>)
      requires Valid() && used == pmm.Used()
      ensures used <= Blocks(pmm.maxBlocks)
      ensures Supply().free > 0 <==> FirstFree(used, pmm.maxBlocks) < pmm.maxBlocks
    {
      pmm.UsedInRange();
      Taking(used, pmm.maxBlocks);
    }

    /** Before turn i of the boot loop. */
    ghost predicate Progress(i: nat, f: int, low: nat)
      reads this, pmm, pmm.bitmap
    {
      && pmm.Valid() && !paging && pageDirectory == Dir() * 4096
      && Booting(mem, Dir(), pmm.Used(), pmm.count, pmm.maxBlocks, i, f, low, kept)
    }

    /** One turn of the boot loop. */
    method MapLow(i: nat, ghost f: int, ghost low: nat)
      requires i < 4096 && 1 <= f && Progress(i, f, low)
      modifies this`mem, pmm`usedBlocks, pmm`count, pmm.bitmap
      ensures Progress(i + 1, f, low)
    {
      ghost var m, used, count, n := mem, pmm.Used(), pmm.count, pmm.maxBlocks;
      pmm.UsedInRange();
      MapLowPage(i, i / 1024);
      BootTurn(m, mem, Dir(), used, pmm.Used(), count, pmm.count, n, i, i / 1024, f, low, kept);
    }

    method MapLowPage(i: nat, ghost slot: nat)
      requires Valid() && !paging && i < 4096 && slot == i / 1024
      modifies this`mem, pmm`usedBlocks, pmm`count, pmm.bitmap
      ensures Valid()
      ensures Contents() == if old(Room(slot)) then MapSpec(old(Contents()), i, i, 6) else old(Contents())
      ensures old(pmm.Used()) <= pmm.Used()
      ensures pmm.Used() == if slot in old(Contents()).slots then old(pmm.Used())
                            else AllocUsed(old(pmm.Used()), pmm.maxBlocks)
      ensures pmm.count == old(pmm.count)
        + if slot in old(Contents()).slots || !old(Room(slot)) then 0 else 1
      ensures old(TablesLow(mem, Dir())) && old(LowRoom(slot)) ==> TablesLow(mem, Dir())
    {
      Offset(i, 0);
      OrTwoFour();
      var virt := i * 4096;
      assert virt / 4096 == i && virt / 4096 / 1024 == slot;
      var flags := Or(WRITABLE, USER);
      MapPage(virt, virt, flags);
    }

    /** vmm_initialize, for any number f of free blocks: one goes to the directory and each further one, up to four,
      * lets 4 MiB be mapped to themselves. Pages whose table cannot be made are skipped, and paging is switched on. */
    method Initialize()
      requires pmm.Valid() && 0 in pmm.Used() && !paging && pageDirectory == 0 && kept == pmm.Used()
      modifies this, pmm`usedBlocks, pmm`count, pmm.bitmap
      ensures pmm.Valid()
      ensures var f, low := old(pmm.maxBlocks - pmm.count), old(LowFree(pmm.Used(), pmm.maxBlocks));
        if f <= 0 then !paging && pageDirectory == 0 && mem == old(mem) && pmm.Used() == kept else
          && paging && (low >= 5 ==> Valid())
          && Booted(mem, Dir(), pmm.Used(), pmm.count, pmm.maxBlocks, f, low, kept)
    {
      ghost var f := pmm.maxBlocks - pmm.count;
      ghost var low := LowFree(pmm.Used(), pmm.maxBlocks);
      MakeDirectory(f, low);
      if pageDirectory == 0 {
        return;
      }
      MapAndEnable(f, low);
    }

    method MapAndEnable(ghost f: int, ghost low: nat)
      requires 1 <= f && Progress(0, f, low)
      modifies this`mem, this`paging, pmm`usedBlocks, pmm`count, pmm.bitmap
      ensures pmm.Valid() && paging && (low >= 5 ==> Valid())
      ensures Booted(mem, Dir(), pmm.Used(), pmm.count, pmm.maxBlocks, f, low, kept)
    {
      MapIdentity(4096, f, low);
      BootEnds(mem, Dir(), pmm.Used(), pmm.count, pmm.maxBlocks, 4096, f, low, kept);
      paging := true;
    }

    /** An empty page directory in a fresh block, or nothing when memory is out. */
    method MakeDirectory(ghost f: int, ghost low: nat)
      requires pmm.Valid() && 0 in pmm.Used() && !paging && pageDirectory == 0 && kept == pmm.Used()
      requires f == pmm.maxBlocks - pmm.count && low == LowFree(pmm.Used(), pmm.maxBlocks)
      modifies this`mem, this`pageDirectory, pmm`usedBlocks, pmm`count, pmm.bitmap
      ensures pmm.Valid() && low <= f
      ensures if f <= 0 then pageDirectory == 0 && mem == old(mem) && pmm.Used() == kept
              else pageDirectory != 0 && Progress(0, f, low)
    {
      ghost var used := pmm.Used();
      pmm.UsedInRange();
      Taking(used, pmm.maxBlocks);
      pageDirectory := TakeBlock();
      if pageDirectory != 0 {
        ClearDirectory(used);
        BootStart(mem, Dir(), used, pmm.Used(), pmm.count, pmm.maxBlocks, f, low);
      }
    }

    method ClearDirectory(ghost used: set<nat>)
      requires !paging && kept <= pmm.Used() && Dir() in pmm.Used() - kept && pageDirectory == Dir() * 4096
      modifies this`mem
      ensures Tables(pmm.Used()) && Contents() == Prefix(0)
      ensures TablesLow(mem, Dir()) == (Dir() < 4096)
    {
      ghost var before := mem;
      ClearBlock(pageDirectory / 4096, used);
      EmptyDirectory(before, mem, Dir(), pmm.Used() - kept);
    }

    /** The boot loop over the first n pages. */
    method MapIdentity(n: nat, ghost f: int, ghost low: nat)
      requires n <= 4096 && 1 <= f && Progress(0, f, low)
      modifies this`mem, pmm`usedBlocks, pmm`count, pmm.bitmap
      ensures Progress(n, f, low)
    {
      for i := 0 to n
        invariant Progress(i, f, low)
      {
        MapLow(i, f, low);
      }
    }
  }
}
