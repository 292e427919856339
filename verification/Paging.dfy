/** The page-table pool and the paging operations built on it. */
module Paging {
  import opened MachineWords
  import opened FrameAllocator
  import opened PageSpec

  class PageTables {
    var pages: Memory            // the kernel directory and every pool page
    var freeList: Frame          // page_table_free_list, 0 when empty
    var next: nat                // page_table_next: first untouched pool page
    ghost var free: seq<Frame>   // the free list
    ghost var dirs: set<Frame>   // the directories in use, the kernel's included
    ghost var home: map<Frame, (Frame, nat)>  // table in use -> directory and slot it was made for

    ghost predicate Valid()
      reads this
    {
      Consistent(pages, freeList, next, free, dirs, home)
    }

    ghost predicate ValidWithout(table: Frame)
      reads this
    {
      ConsistentWithout(pages, freeList, next, free, dirs, home, table)
    }

    ghost predicate Exhausted()
      reads this
    {
      free == [] && next >= POOL_END
    }

    constructor (kernel: Table, pool: Memory)
      requires forall i | 0 <= i < 1024 && Present(kernel[i]) :: Large(kernel[i])
      requires forall f: Frame :: f in pool <==> POOL_BASE <= f < POOL_END
      ensures Valid() && dirs == {KERNEL_DIR} && home == map[] && pages == pool[KERNEL_DIR := kernel]
    {
      pages := pool[KERNEL_DIR := kernel];
      freeList := 0;
      next := POOL_BASE;
      free := [];
      dirs := {KERNEL_DIR};
      home := map[];
    }

    /** alloc_page_table: pop the free list, or take the next untouched page; zero it. */
    method AllocTable() returns (table: Frame)
      requires Valid()
      modifies this`pages, this`freeList, this`next, this`free
      ensures table == 0 <==> old(Exhausted())
      ensures table == 0 ==> Valid() && pages == old(pages) && next == old(next) && free == old(free)
      ensures table != 0 ==> ValidWithout(table) && pages == old(pages)[table := EMPTY_TABLE]
      ensures SameWalks(old(pages), pages, dirs)
    {
      table := freeList;
      if table != 0 {
        PopAndClear(pages, freeList, next, free, dirs, home);
        freeList := pages[table][0].frame;
        free := free[1..];
      } else {
        if next >= POOL_END {
          return;
        }
        TakeAndClear(pages, freeList, next, free, dirs, home);
        table := next;
        next := next + 1;
      }
      pages := pages[table := EMPTY_TABLE];
    }

    /** free_page_table: anything that is not an aligned pool address is ignored; a pool page
        goes to the head of the free list, its first word holding the old head. */
    method FreeTable(page: u32)
      requires PoolFrame(page).Some? ==> PoolFrame(page).value in pages
      modifies this`pages, this`freeList, this`free
      ensures
        match PoolFrame(page)
        case None => freeList == old(freeList) && free == old(free) && pages == old(pages)
        case Some(table) => freeList == table && free == [table] + old(free) &&
                            pages == SetEntry(old(pages), table, 0, Entry(old(freeList), 0))
    {
      if page == 0 || page < POOL_BASE * 0x1000 || page >= POOL_END * 0x1000 || page % 0x1000 != 0 {
        return;
      }
      var table := page / 0x1000;
      pages := SetEntry(pages, table, 0, Entry(freeList, 0));
      freeList := table;
      free := [table] + free;
    }

    /** create_page_directory: supervisor entries of the kernel directory, except slot 0. */
    method CreateDirectory() returns (dir: Frame)
      requires Valid()
      modifies this
      ensures Valid() && home == old(home)
      ensures dir == 0 <==> old(Exhausted())
      ensures dir == 0 ==> pages == old(pages) && dirs == old(dirs) && next == old(next) && free == old(free)
      ensures dir != 0 ==> dir !in old(dirs) && dir != KERNEL_DIR && dirs == old(dirs) + {dir} && KERNEL_DIR in pages
      ensures dir != 0 ==> forall i | 0 <= i < 1024 :: pages[dir][i] == Inherited(pages[KERNEL_DIR], i)
      ensures dir != 0 ==> forall p: PageNumber ::
        Walk(pages, dir, p) ==
          if p < 1024 || User(pages[KERNEL_DIR][p / 1024]) then NoPage else Walk(pages, KERNEL_DIR, p)
      ensures SameWalks(old(pages), pages, old(dirs)) && DirsKept(old(pages), pages, old(dirs))
    {
      dir := AllocTable();
      if dir == 0 {
        return;
      }
      var index := 0;
      while index < 1024
        invariant 0 <= index <= 1024 && dirs == old(dirs) && home == old(home)
        invariant ValidWithout(dir)
        invariant SameWalks(old(pages), pages, dirs) && DirsKept(old(pages), pages, dirs)
        invariant forall i | 0 <= i < 1024 ::
          pages[dir][i] == if i < index then Inherited(pages[KERNEL_DIR], i) else ZERO
      {
        var pde := pages[KERNEL_DIR][index];
        if index != 0 && Present(pde) && !User(pde) {
          FillConsistent(pages, freeList, next, free, dirs, home, dir, index, pde);
          pages := SetEntry(pages, dir, index, pde);
        }
        index := index + 1;
      }
      AdoptConsistent(pages, freeList, next, free, dirs, home, dir);
      dirs := dirs + {dir};
    }

    /** get_physical_address; the option is the carry flag. */
    method GetPhysicalAddress(dir: Frame, virt: u32) returns (phys: Option<u32>)
      requires Valid() && (dir == 0 || dir in dirs)
      ensures phys == if dir == 0 then None else Translate(Walk(pages, dir, virt / 0x1000), virt)
    {
      if dir == 0 {
        return None;
      }
      var pde := pages[dir][virt / 0x40_0000];
      assert virt / 0x1000 / 1024 == virt / 0x40_0000;
      if !Present(pde) {
        return None;
      }
      if Large(pde) {
        return Some(pde.frame / 1024 * 0x40_0000 + virt % 0x40_0000);
      }
      assert pde.frame in home;
      var pte := pages[pde.frame][virt / 0x1000 % 1024];
      if !Present(pte) {
        return None;
      }
      return Some(pte.frame * 0x1000 + virt % 0x1000);
    }

    /** The table-creating half of map_page and map_user_page. */
    method HangNewTable(dir: Frame, slot: nat, flags: bv12) returns (table: Frame)
      requires Valid() && dir in dirs && slot < 1024 && !Present(pages[dir][slot])
      requires PointsToTable(Entry(0, flags)) && (dir == KERNEL_DIR || (User(Entry(0, flags)) && slot < 512))
      modifies this`pages, this`freeList, this`next, this`free, this`home
      ensures Valid() && SameWalks(old(pages), pages, dirs)
      ensures table == 0 <==> old(Exhausted())
      ensures table == 0 ==> pages == old(pages) && home == old(home) && next == old(next) && free == old(free)
      ensures table != 0 ==> table !in old(home) && table !in dirs && home == old(home)[table := (dir, slot)]
      ensures table != 0 ==> pages == SetEntry(old(pages)[table := EMPTY_TABLE], dir, slot, Entry(table, flags))
      ensures dir == KERNEL_DIR ==> UserPart(home) == UserPart(old(home))
    {
      table := AllocTable();
      if table == 0 {
        return;
      }
      HangConsistent(pages, freeList, next, free, dirs, home, dir, slot, table, flags);
      SameWalksTransitive(old(pages), pages, SetEntry(pages, dir, slot, Entry(table, flags)), dirs);
      pages := SetEntry(pages, dir, slot, Entry(table, flags));
      home := home[table := (dir, slot)];
    }

    /** The table behind a user slot, hung in if there is none; 0 when the slot is the kernel's or a
        large page, or the pool is exhausted. */
    method UserTable(dir: Frame, slot: nat) returns (table: Frame)
      requires Valid() && dir in dirs && slot < 512
      modifies this`pages, this`freeList, this`next, this`free, this`home
      ensures Valid() && SameWalks(old(pages), pages, dirs)
      ensures table != 0 <==> (var pde := old(pages)[dir][slot]; if Present(pde) then User(pde) && !Large(pde) else !old(Exhausted()))
      ensures table == 0 ==> pages == old(pages) && home == old(home) && next == old(next) && free == old(free)
      ensures table != 0 ==> PointsToTable(pages[dir][slot]) && User(pages[dir][slot]) && pages[dir][slot].frame == table && table !in dirs
      ensures HomeGained(old(home), home, dir, slot)
      ensures forall d | d in dirs && d != dir :: pages[d] == old(pages)[d]
      ensures forall i | 0 <= i < 1024 && i != slot :: pages[dir][i] == old(pages)[dir][i]
      ensures table != 0 ==> pages[dir][slot].flags == SlotFlags(old(pages)[dir][slot], PRESENT_RW_USER)
    {
      hide Walk, FreeChain;
      var pde := pages[dir][slot];
      if !Present(pde) {
        table := HangNewTable(dir, slot, PRESENT_RW_USER);
      } else if Large(pde) || !User(pde) {
        table := 0;
      } else {
        table := pde.frame;
        PrivateTableIsNoDirectory(pages, dirs, home, dir, slot);
      }
    }

    /** map_user_page(page_dir, virt, phys, flags). In a process directory nobody else sees the
        change. */
    method MapUserPage(dir: Frame, virt: u32, phys: u32, flags: bv12) returns (ok: bool)
      requires Valid() && (dir == 0 || dir in dirs)
      modifies this`pages, this`freeList, this`next, this`free, this`home
      ensures Valid()
      ensures ok <==>
        dir != 0 && virt < USER_LIMIT && virt % 0x1000 == 0 && phys % 0x1000 == 0 &&
        (var pde := old(pages)[dir][virt / 0x40_0000];
         if Present(pde) then User(pde) && !Large(pde) else !old(Exhausted()))
      ensures !ok ==> pages == old(pages) && home == old(home) && next == old(next) && free == old(free)
      ensures ok ==> PointsToTable(pages[dir][virt / 0x40_0000]) && User(pages[dir][virt / 0x40_0000])
      ensures ok ==> SharedWalkChanged(old(pages), pages, dirs, dir, virt / 0x1000, Entry(phys / 0x1000, flags | PRESENT_USER))
      ensures ok && dir != KERNEL_DIR ==> OneWalkChanged(old(pages), pages, dirs, dir, virt / 0x1000,
        SmallPage(Entry(phys / 0x1000, flags | PRESENT_USER), pages[dir][virt / 0x40_0000].flags))
      ensures HomeGained(old(home), home, dir, virt / 0x40_0000)
      ensures forall d | d in dirs && d != dir :: pages[d] == old(pages)[d]
      ensures ok ==> forall i | 0 <= i < 1024 && i != virt / 0x40_0000 :: pages[dir][i] == old(pages)[dir][i]
      ensures ok ==> pages[dir][virt / 0x40_0000].flags == SlotFlags(old(pages)[dir][virt / 0x40_0000], PRESENT_RW_USER)
    {
      hide Walk, Sharing, PoolAccounts, OneWalkChanged, SharedWalkChanged, SameWalks;
      if dir == 0 || virt >= USER_LIMIT || virt % 0x1000 != 0 || phys % 0x1000 != 0 {
        return false;
      }
      ghost var page: PageNumber := virt / 0x1000;
      assert page / 1024 == virt / 0x40_0000 && virt / 0x40_0000 < 512;
      SharingParts(pages, dirs, home);
      var table := UserTable(dir, virt / 0x40_0000);
      if table == 0 {
        return false;
      }
      var entry := Entry(phys / 0x1000, flags | PRESENT_USER);
      ghost var m := pages;
      WriteConsistent(pages, freeList, next, free, dirs, home, dir, page, entry);
      pages := SetEntry(pages, table, virt / 0x1000 % 1024, entry);
      ChangeAfterSame(old(pages), m, pages, dirs, dir, page, entry);
      if dir != KERNEL_DIR {
        PrivateChange(old(pages), pages, dirs, home, dir, page, entry);
      }
      return true;
    }

    /** map_page(virt, phys, flags) in the kernel directory. */
    method MapPage(virt: u32, phys: u32, flags: bv12) returns (ok: bool)
      requires Valid() && !(Present(pages[KERNEL_DIR][virt / 0x40_0000]) && Large(pages[KERNEL_DIR][virt / 0x40_0000]))
      modifies this`pages, this`freeList, this`next, this`free, this`home
      ensures Valid()
      ensures ok <==> Present(old(pages)[KERNEL_DIR][virt / 0x40_0000]) || !old(Exhausted())
      ensures !ok ==> pages == old(pages) && home == old(home) && next == old(next) && free == old(free)
      ensures ok ==> PointsToTable(pages[KERNEL_DIR][virt / 0x40_0000])
      ensures ok ==> SharedWalkChanged(old(pages), pages, dirs, KERNEL_DIR, virt / 0x1000,
                                       Entry(phys / 0x1000, flags | PRESENT_RW))
      ensures UserPart(home) == UserPart(old(home)) && KernelSlotOnly(old(pages), pages, dirs, virt / 0x40_0000)
      ensures ok ==> pages[KERNEL_DIR][virt / 0x40_0000].flags == SlotFlags(old(pages)[KERNEL_DIR][virt / 0x40_0000], PRESENT_RW)
    {
      var slot := virt / 0x40_0000;
      var entry := Entry(phys / 0x1000, flags | PRESENT_RW);
      ghost var page: PageNumber := virt / 0x1000;
      assert page / 1024 == slot;
      var pde := pages[KERNEL_DIR][slot];
      var table := pde.frame;
      if !Present(pde) {
        table := HangNewTable(KERNEL_DIR, slot, PRESENT_RW);
        if table == 0 {
          return false;
        }
      }
      ghost var m := pages;
      WriteConsistent(pages, freeList, next, free, dirs, home, KERNEL_DIR, page, entry);
      pages := SetEntry(pages, table, virt / 0x1000 % 1024, entry);
      ChangeAfterSame(old(pages), m, pages, dirs, KERNEL_DIR, page, entry);
      return true;
    }

    /** unmap_page(page_dir, virt); the option is the carry flag. */
    method UnmapPage(dir: Frame, virt: u32) returns (phys: Option<u32>)
      requires Valid() && (dir == 0 || dir in dirs)
      modifies this`pages
      ensures Valid()
      ensures phys.Some? <==> dir != 0 && Walk(old(pages), dir, virt / 0x1000).SmallPage?
      ensures phys.None? ==> pages == old(pages)
      ensures phys.Some? ==>
        phys.value == Walk(old(pages), dir, virt / 0x1000).pte.frame * 0x1000 &&
        SharedWalkChanged(old(pages), pages, dirs, dir, virt / 0x1000, ZERO)
      ensures forall d | d in dirs :: pages[d] == old(pages)[d]
    {
      if dir == 0 {
        return None;
      }
      ghost var page: PageNumber := virt / 0x1000;
      var pde := pages[dir][virt / 0x40_0000];
      assert page / 1024 == virt / 0x40_0000;
      if !Present(pde) || Large(pde) {
        return None;
      }
      assert pde.frame in home;
      var pte := pages[pde.frame][virt / 0x1000 % 1024];
      if !Present(pte) {
        return None;
      }
      WriteConsistent(pages, freeList, next, free, dirs, home, dir, page, ZERO);
      pages := SetEntry(pages, pde.frame, virt / 0x1000 % 1024, ZERO);
      return Some(pte.frame * 0x1000);
    }

    /** One entry of a dying user table: give an owned frame back, clear a user entry. */
    method ClearEntry(pmm: Pmm, table: Frame, index: nat, ghost dir: Frame, ghost slot: nat)
      requires Valid() && dir in dirs && dir != KERNEL_DIR && slot < 512 && index < 1024
      requires PointsToTable(pages[dir][slot]) && User(pages[dir][slot]) && table == pages[dir][slot].frame
      requires pmm.Valid() && HintSound(pmm.State()) && table in pages
      modifies this`pages, pmm`next, pmm.bitmap
      ensures Valid() && pmm.Valid() && HintSound(pmm.State())
      ensures table in old(pages) && table !in dirs && FramesFreed(old(pmm.bitmap[..]), pmm.bitmap[..], Released(old(pages)[table][index]))
      ensures table in pages && pages == old(pages)[table := pages[table]]
      ensures forall i | 0 <= i < 1024 && i != index :: pages[table][i] == old(pages)[table][i]
      ensures SameWalks(old(pages), pages, dirs - {dir})
    {
      ghost var page: PageNumber := slot * 1024 + index;
      var pte := pages[table][index];
      FreedOne(old(pmm.bitmap[..]), pmm.State(), {}, pte, Present(pte) && User(pte) && Owned(pte));
      assert table in home;
      if Present(pte) && User(pte) {
        if Owned(pte) {
          HintStaysSound(pmm.State(), Free(pte.frame * 0x1000));
          pmm.FreePage(pte.frame * 0x1000);
        }
        WriteConsistent(pages, freeList, next, free, dirs, home, dir, page, ZERO);
        pages := SetEntry(pages, table, index, ZERO);
        PrivateChange(old(pages), pages, dirs, home, dir, page, ZERO);
      }
    }

    /** The inner loop of destroy_page_directory. */
    method ClearTable(pmm: Pmm, table: Frame, ghost dir: Frame, ghost slot: nat)
      requires Valid() && dir in dirs && dir != KERNEL_DIR && slot < 512
      requires PointsToTable(pages[dir][slot]) && User(pages[dir][slot]) && table == pages[dir][slot].frame
      requires pmm.Valid() && HintSound(pmm.State()) && table in pages
      modifies this`pages, pmm`next, pmm.bitmap
      ensures Valid() && pmm.Valid() && HintSound(pmm.State())
      ensures FramesFreed(old(pmm.bitmap[..]), pmm.bitmap[..], ReleasedBelow(old(pages)[table], 1024))
      ensures table in pages && pages == old(pages)[table := pages[table]]
      ensures SameWalks(old(pages), pages, dirs - {dir})
    {
      hide Consistent, SameWalks, FramesFreed, HintSound, SlotFrames, Released, PointsToTable, User, SetEntry;
      SlotTable(pages, freeList, next, free, dirs, home, dir, slot);
      FreedNone(pmm.bitmap[..]);
      SameWalksReflexive(pages, dirs - {dir});
      var index := 0;
      ghost var before := pages;
      while index < 1024
        invariant 0 <= index <= 1024
        invariant Valid() && pmm.Valid() && HintSound(pmm.State())
        invariant table in pages && table !in dirs && pages == before[table := pages[table]]
        invariant forall i | index <= i < 1024 :: pages[table][i] == before[table][i]
        invariant FramesFreed(old(pmm.bitmap[..]), pmm.bitmap[..], ReleasedBelow(before[table], index))
        invariant SameWalks(before, pages, dirs - {dir})
      {
        ghost var m, bits := pages, pmm.bitmap[..];
        ClearEntry(pmm, table, index, dir, slot);
        FreedTwice(old(pmm.bitmap[..]), bits, pmm.bitmap[..], ReleasedBelow(before[table], index), Released(before[table][index]));
        SameWalksTransitive(before, m, pages, dirs - {dir});
        index := index + 1;
      }
    }

    /** A private table of a dying directory is emptied and goes back to the pool. */
    method DestroyTable(pmm: Pmm, dir: Frame, slot: nat, table: Frame)
      requires Valid() && dir in dirs && dir != KERNEL_DIR && slot < 512
      requires PointsToTable(pages[dir][slot]) && User(pages[dir][slot]) && table == pages[dir][slot].frame
      requires pmm.Valid() && HintSound(pmm.State())
      modifies this`pages, this`freeList, this`free, this`home, pmm`next, pmm.bitmap
      ensures Valid() && pmm.Valid() && HintSound(pmm.State())
      ensures FramesFreed(old(pmm.bitmap[..]), pmm.bitmap[..], SlotFrames(old(pages), dir, slot))
      ensures SameWalks(old(pages), pages, dirs - {dir})
      ensures home == HomeWithoutSlot(old(home), dir, slot)
      ensures OnlySlotChanged(old(pages), pages, dirs, home, dir, slot)
    {
      hide Consistent, SameWalks, FramesFreed, HintSound, HomeWithoutSlot, OnlySlotChanged, SlotFrames,
           PoolFrame, SetEntry, ReleasedBelow, PointsToTable, User;
      SlotTable(pages, freeList, next, free, dirs, home, dir, slot);
      ClearTable(pmm, table, dir, slot);
      SlotDestroyed(old(pages), pages, freeList, next, free, dirs, home, dir, slot);
      PoolFrameOf(table);
      home := HomeWithoutSlot(home, dir, slot);
      FreeTable(table as int * 0x1000);
      pages := SetEntry(pages, dir, slot, ZERO);
    }

    /** One slot of the outer loop of destroy_page_directory. */
    method DestroySlot(pmm: Pmm, dir: Frame, slot: nat)
      requires Valid() && dir in dirs && dir != KERNEL_DIR && slot < 512
      requires pmm.Valid() && HintSound(pmm.State())
      modifies this`pages, this`freeList, this`free, this`home, pmm`next, pmm.bitmap
      ensures Valid() && pmm.Valid() && HintSound(pmm.State())
      ensures FramesFreed(old(pmm.bitmap[..]), pmm.bitmap[..], SlotFrames(old(pages), dir, slot))
      ensures SameWalks(old(pages), pages, dirs - {dir})
      ensures home == HomeWithoutSlot(old(home), dir, slot)
      ensures OnlySlotChanged(old(pages), pages, dirs, home, dir, slot)
    {
      FreedNone(pmm.bitmap[..]);
      assert dir in pages;
      hide Consistent, SameWalks, FramesFreed, HintSound, HomeWithoutSlot, OnlySlotChanged, SlotFrames;
      var pde := pages[dir][slot];
      if !Present(pde) || !User(pde) || Large(pde) {
        SlotSkipped(pages, freeList, next, free, dirs, home, dir, slot);
      } else {
        DestroyTable(pmm, dir, slot, pde.frame);
      }
    }

    /** The slot loop of destroy_page_directory. */
    method DestroySlots(pmm: Pmm, dir: Frame)
      requires Valid() && dir in dirs && dir != KERNEL_DIR
      requires pmm.Valid() && HintSound(pmm.State())
      modifies this`pages, this`freeList, this`free, this`home, pmm`next, pmm.bitmap
      ensures Valid() && pmm.Valid() && HintSound(pmm.State())
      ensures SameWalks(old(pages), pages, dirs - {dir})
      ensures home == HomeWithoutBelow(old(home), dir, 512)
      ensures SlotsUntouched(old(pages), pages, dirs, home, dir, 512)
      ensures FramesFreed(old(pmm.bitmap[..]), pmm.bitmap[..], DirectoryFrames(old(pages), dir, 512))
    {
      var slot := 0;
      ghost var start := pages;
      NoSlotYet(pages, dirs, home, dir);
      FreedNone(pmm.bitmap[..]);
      hide Consistent, SameWalks, FramesFreed, HintSound, HomeWithoutSlot, HomeWithoutBelow, OnlySlotChanged,
           SlotsUntouched, SlotFrames;
      while slot < 512
        invariant 0 <= slot <= 512
        invariant Valid() && pmm.Valid() && HintSound(pmm.State())
        invariant SameWalks(start, pages, dirs - {dir})
        invariant home == HomeWithoutBelow(old(home), dir, slot)
        invariant SlotsUntouched(start, pages, dirs, home, dir, slot)
        invariant FramesFreed(old(pmm.bitmap[..]), pmm.bitmap[..], DirectoryFrames(start, dir, slot))
      {
        ghost var m, bits := pages, pmm.bitmap[..];
        SlotUntouched(start, pages, freeList, next, free, dirs, home, dir, slot);
        DestroySlot(pmm, dir, slot);
        NextSlot(start, m, pages, dirs, old(home), home, dir, slot);
        FreedTwice(old(pmm.bitmap[..]), bits, pmm.bitmap[..], DirectoryFrames(start, dir, slot), SlotFrames(start, dir, slot));
        SameWalksTransitive(start, m, pages, dirs - {dir});
        slot := slot + 1;
      }
    }

    /** destroy_page_directory: owned frames go back to the page manager, private tables and
        the directory itself to the pool; every other directory keeps all its walks. */
    method DestroyDirectory(pmm: Pmm, dir: Frame)
      requires Valid() && (dir == 0 || dir in dirs)
      requires pmm.Valid() && HintSound(pmm.State())
      modifies this`pages, this`freeList, this`free, this`home, this`dirs, pmm`next, pmm.bitmap
      ensures Valid() && pmm.Valid() && HintSound(pmm.State())
      ensures dir == 0 || dir == KERNEL_DIR ==>
        pages == old(pages) && free == old(free) && dirs == old(dirs) && home == old(home) && pmm.State() == old(pmm.State())
      ensures dir != 0 && dir != KERNEL_DIR ==>
        dirs == old(dirs) - {dir} && SameWalks(old(pages), pages, dirs) &&
        home == HomeWithout(old(home), dir) && TablesKept(old(pages), pages, home) && DirsKept(old(pages), pages, dirs) &&
        FreeListGained(old(free), free, dir, old(home)) &&
        FramesFreed(old(pmm.bitmap[..]), pmm.bitmap[..], DirectoryFrames(old(pages), dir, 512))
    {
      assert dir != 0 ==> dir in pages;
      hide Consistent, SameWalks, FramesFreed, HintSound, HomeWithoutBelow, HomeWithout, SlotsUntouched,
           TablesKept, DirsKept, FreeListGained, PoolFrame, SetEntry;
      if dir != 0 && dir != KERNEL_DIR {
        DestroySlots(pmm, dir);
        DirectoryDestroyed(old(pages), old(freeList), next, old(free), dirs, old(home), pages, freeList, free, home, dir);
        PoolFrameOf(dir);
        FreeTable(dir as int * 0x1000);
        dirs := dirs - {dir};
      }
    }
  }
}
