/** Protected-mode processes: construction with its unwind path for every failure, and
    destruction, over the heap, page manager, page tables, GDT, slots, process table and run
    table. */
module Processes {
  import opened MachineWords
  import opened FrameAllocator
  import opened PageSpec
  import opened Paging
  import opened HeapBlocks
  import opened HeapGrowth
  import opened KernelHeap
  import opened HeapRuns
  import opened ProcessMemory
  import opened AddressSpaces
  import opened Scheduler
  import opened IndexPools
  import opened ProcessBooks
  import opened ProcessLdt

  const PROC_MEM_SIZE: u32 := 72
  const LDT_SIZE: u32 := 4096
  const LDT_BITMAP_SIZE: u32 := 64
  const TSS_OBJECT_SIZE: u32 := 0x6C
  const USER_HEAP_BASE: u32 := 0x0040_0000
  const GATEWAY_PAGE: u32 := 0x7FFF_F000

  const OWNED_RW: bv12 := 0x207   // PAGE_PRESENT_RW_USER or PAGE_OWNED
  const OWNED_RO: bv12 := 0x205   // PAGE_PRESENT_USER or PAGE_OWNED

  /** A new address space has the first heap page... */
  function HeapLayout(): Layout {
    map[USER_HEAP_BASE / 0x1000 := OWNED_RW]
  }

  /** ...and later the read-only gateway page. */
  function WithGateway(layout: Layout): Layout {
    layout[GATEWAY_PAGE / 0x1000 := OWNED_RO]
  }

  /** A process object. */
  class Process {
    const address: u32         // of its heap payload
    var pageDir: Frame
    var tssBase: u32
    var kstackTop: u32
    var ldtBase: u32
    var ldtBitmap: u32
    var tssSelector: u16
    var ldtSelector: u16
    var userCs: u16
    var userDs: u16
    var userSs: u16
    var slotIndex: u32
    var slotBase: u32
    var tableIndex: u32
    var descriptors: seq<bv32>   // contents of the LDT

    constructor (address: u32)
      ensures this.address == address && pageDir == 0 && Held() == Pieces(address, 0, 0, 0, 0, 0, 0, NONE, NONE)
    {
      this.address := address;
      pageDir, tssBase, kstackTop, ldtBase, ldtBitmap := 0, 0, 0, 0, 0;
      tssSelector, ldtSelector, userCs, userDs, userSs := 0, 0, 0, 0, 0;
      slotIndex, slotBase, tableIndex, descriptors := NONE, 0, NONE, [];
    }

    ghost function Held(): Pieces
      reads this
    {
      Pieces(address, tssBase, kstackTop, ldtBase, ldtBitmap, tssSelector, ldtSelector, slotIndex, tableIndex)
    }

    /** Its LDT holds the three segments of its slot. */
    ghost predicate Segments()
      reads this
    {
      slotIndex < PROCESS_MAX && slotBase == SlotBase(slotIndex) && Segmented(descriptors, userCs, userDs, userSs, SlotWord(slotIndex))
    }
  }

  class Kernel {
    const heap: Heap
    const gdt: IndexPool
    const slots: IndexPool
    const table: array<u32>     // process_table
    var active: nat             // process_active_count
    const queue: RunQueue
    var owner: u16              // TSS selector owning the display, 0 also while it is not ready
    var reap: Process?          // scheduler_reap_process

    /** Boot: empty tables, and the kernel task on the first dynamic GDT entry. */
    constructor (heap: Heap)
      requires heap.pmm.bitmap.Length == FRAME_COUNT && heap.mem.Length == HEAP_WORDS
      ensures this.heap == heap && BooksInOrder() && Books() == BootBooks(Live(heap.blocks, 0)) && reap == null
      ensures fresh(gdt) && fresh(gdt.used) && fresh(slots) && fresh(slots.used) && fresh(table) && fresh(queue) && fresh(queue.table)
    {
      this.heap := heap;
      var g := new IndexPool(GDT_FIRST, GDT_COUNT);
      var index := g.Take();
      var q := new RunQueue(index * 8);
      gdt, queue := g, q;
      slots := new IndexPool(0, PROCESS_MAX);
      table := new u32[PROCESS_MAX](_ => 0);
      active, owner, reap := 0, 0, null;
      new;
      BootInOrder(Live(heap.blocks, 0));
      EmptyQueue();
      hide InOrder, Live, Sound, BootBooks, RunQueue.Valid, RunQueue.State;
      BootFields(Books());
    }

    lemma EmptyQueue()
      requires queue.Valid() && queue.current == KERNEL_INDEX && queue.count == 0 && queue.table[..] == seq(MAX_TASKS, _ => 0)
      ensures queue.State() == Sched(seq(MAX_TASKS, _ => 0), KERNEL_INDEX, 0, queue.kernel, queue.kernel)
    {
      hide NonZero, Occupied;
    }

    ghost predicate Shaped() {
      gdt.first == GDT_FIRST && gdt.used.Length == GDT_COUNT && slots.first == 0 && slots.used.Length == PROCESS_MAX &&
      table.Length == PROCESS_MAX && queue.table.Length == MAX_TASKS && heap.pmm.bitmap.Length == FRAME_COUNT && heap.mem.Length == HEAP_WORDS
    }

    ghost predicate BooksInOrder()
      reads this, heap`blocks, gdt.used, slots.used, table, queue, queue.table
    {
      Shaped() && InOrder(Books())
    }

    ghost function Books(): Books
      reads this, heap`blocks, gdt.used, slots.used, table, queue, queue.table
      requires queue.table.Length == MAX_TASKS
    {
      ProcessBooks.Books.Books(Live(heap.blocks, 0), gdt.used[..], slots.used[..], table[..], active, queue.State(), owner)
    }

    /** The books are `b0` plus the pieces `q`, and the memory account is `base` plus directory
        `dir` with the frames `mapped` in it. */
    ghost predicate Building(b0: Books, base: Supply, q: Pieces, dir: Frame, mapped: set<Frame>, layout: Layout, queued: bool)
      reads this, heap, heap.mem, heap.pmm, heap.pmm.bitmap, heap.tables, gdt.used, slots.used, table, queue, queue.table
    {
      Ready(heap) && Shaped() && InOrder(b0) && Billed(b0, Books(), q, queued) && Mapped(base, dir, mapped, layout)
    }

    ghost predicate Mapped(base: Supply, dir: Frame, mapped: set<Frame>, layout: Layout)
      reads heap`blocks, heap`backing, heap.pmm.bitmap, heap.tables
    {
      dir != 0 && dir != KERNEL_DIR && dir in heap.tables.dirs && Account(heap, base, dir, mapped, {}) &&
      UserPages(heap.tables.pages, dir, layout)
    }

    /** The bitmaps are different objects. */
    lemma PoolsApart(b0: Books, base: Supply, q: Pieces, dir: Frame, mapped: set<Frame>, layout: Layout, queued: bool)
      requires Building(b0, base, q, dir, mapped, layout, queued)
      ensures slots.used != gdt.used && heap.pmm.bitmap != gdt.used && heap.pmm.bitmap != slots.used && table != heap.mem
    {
    }

    /** `Building`, piece by piece. */
    lemma Parts(b0: Books, base: Supply, q: Pieces, dir: Frame, mapped: set<Frame>, layout: Layout, queued: bool)
      ensures Building(b0, base, q, dir, mapped, layout, queued) <==>
        Ready(heap) && Shaped() && InOrder(b0) && Billed(b0, Books(), q, queued) && Mapped(base, dir, mapped, layout)
      ensures Shaped() ==> gdt.first == GDT_FIRST && gdt.used.Length == GDT_COUNT && slots.used.Length == PROCESS_MAX
      ensures Shaped() ==> slots.first == 0 && table.Length == PROCESS_MAX && queue.table.Length == MAX_TASKS
      ensures Shaped() ==> slots.used != gdt.used && heap.pmm.bitmap != gdt.used && heap.pmm.bitmap != slots.used && table != heap.mem
      ensures Shaped() ==> gdt.Valid() && slots.Valid()
      ensures Shaped() ==> Books() == ProcessBooks.Books.Books(Live(heap.blocks, 0), gdt.used[..], slots.used[..], table[..], active, queue.State(), owner)
    {
    }

    lemma MappedParts(base: Supply, dir: Frame, mapped: set<Frame>, layout: Layout)
      ensures Mapped(base, dir, mapped, layout) <==>
        dir != 0 && dir != KERNEL_DIR && dir in heap.tables.dirs && Account(heap, base, dir, mapped, {}) &&
        UserPages(heap.tables.pages, dir, layout)
    {
    }

    // ---- process_memory_create ----

    /** The part of process_memory_create after the directory exists. */
    method MapHeapPage(dir: Frame, ghost base: Supply) returns (ok: bool, ghost mapped: set<Frame>)
      requires Ready(heap) && Account(heap, base, dir, {}, {}) && dir in heap.tables.dirs && dir != KERNEL_DIR && dir != 0
      requires UserPages(heap.tables.pages, dir, map[])
      modifies heap.pmm`next, heap.pmm.bitmap, heap.tables
      ensures Ready(heap) && Account(heap, base, dir, mapped, {}) && heap.tables.dirs == old(heap.tables.dirs)
      ensures ok ==> UserPages(heap.tables.pages, dir, HeapLayout())
      ensures !ok ==> mapped == {}
      ensures
        var had, has := old(Stock(heap)), Stock(heap);
        had.frames >= 1 && had.tables >= 1 && UseOf(old(heap.tables.pages), dir, 1).Vacant? ==>
          ok && has.frames >= had.frames - 1 && has.window == had.window && has.tables >= had.tables - 1
      ensures ok ==>
        !UseOf(old(heap.tables.pages), dir, 1).Blocked? && UseOf(heap.tables.pages, dir, 511) == UseOf(old(heap.tables.pages), dir, 511)
    {
      hide *;
      OwnedFlags();
      UserHeapAddress();
      ok, mapped := AddOwned(heap, dir, USER_HEAP_BASE, PRESENT_RW_USER | OWNED_BIT, 511, base, {}, map[]);
    }

    /** process_memory_create. */
    method MemoryCreate(ghost base: Supply) returns (p: Process?, ghost mapped: set<Frame>)
      requires Ready(heap) && Account(heap, base, 0, {}, {})
      modifies heap, heap.mem, heap.pmm, heap.pmm.bitmap, heap.tables
      ensures Ready(heap)
      ensures p == null ==> Account(heap, base, 0, {}, {}) && Live(heap.blocks, 0) == Live(old(heap.blocks), 0)
      ensures p != null ==>
        fresh(p) && p.address != 0 && Obtained(Live(old(heap.blocks), 0), Live(heap.blocks, 0), p.address, PROC_MEM_SIZE) &&
        p.Held() == Pieces(p.address, 0, 0, 0, 0, 0, 0, NONE, NONE) &&
        p.pageDir != 0 && p.pageDir != KERNEL_DIR && p.pageDir in heap.tables.dirs &&
        Account(heap, base, p.pageDir, mapped, {}) && UserPages(heap.tables.pages, p.pageDir, HeapLayout())
      ensures p != null ==>
        !Shared(old(heap.tables.pages), 1) && (Shared(old(heap.tables.pages), 511) ==> UseOf(heap.tables.pages, p.pageDir, 511).Blocked?)
      ensures
        var had, has, m := old(Stock(heap)), Stock(heap), old(heap.tables.pages);
        had.frames >= 2 && had.window >= 1 && had.tables >= 2 && !Shared(m, 1) && !Shared(m, 511) ==>
          p != null && has.frames >= had.frames - 2 && has.window >= had.window - 1 && has.tables >= had.tables - 2 &&
          UseOf(heap.tables.pages, p.pageDir, 511).Vacant?
    {
      hide *;
      PagesAsked();
      ghost var live, m := Live(heap.blocks, 0), heap.tables.pages;
      mapped := {};
      var ptr := Obtain(heap, PROC_MEM_SIZE, base, 0, {}, {});
      NoneObtained(live, Live(heap.blocks, 0), ptr, PROC_MEM_SIZE);
      if ptr == 0 {
        return null, {};
      }
      SharedKept(m, heap.tables.pages);
      m := heap.tables.pages;
      var dir := NewDirectory(heap, base);
      var ok := false;
      if dir != 0 {
        OpenAt(m, heap.tables.pages, dir);
        ok, mapped := MapHeapPage(dir, base);
        if !ok {
          Undirect(dir, base, {});
        }
      }
      if ok {
        p := new Process(ptr);
        Fields(p);
        p.pageDir := dir;
        Fields(p);
      } else {
        p := null;
        ReturnKeepsAccount(ptr, base, 0, {});
      }
    }

    /** destroy_page_directory, on the account. */
    method Undirect(dir: Frame, ghost base: Supply, ghost mapped: set<Frame>)
      requires Ready(heap) && Account(heap, base, dir, mapped, {}) && dir in heap.tables.dirs && dir != KERNEL_DIR && dir != 0
      modifies heap.tables, heap.pmm`next, heap.pmm.bitmap
      ensures Ready(heap) && Account(heap, base, 0, {}, {})
    {
      ghost var s := heap.Supplies();
      SupplyFacts(heap);
      hide Ready, Holding, Dropped;
      RetireDirectory(heap, dir);
      HoldDrop(base, s, heap.Supplies(), dir, mapped);
    }

    method ReturnKeepsAccount(ptr: u32, ghost base: Supply, ghost dir: Frame, ghost mapped: set<Frame>)
      requires Ready(heap) && Account(heap, base, dir, mapped, {}) && ptr in Live(heap.blocks, 0)
      modifies heap`blocks, heap.mem
      ensures Ready(heap) && Account(heap, base, dir, mapped, {})
      ensures Live(heap.blocks, 0) == Live(old(heap.blocks), 0) - {ptr}
    {
      hide Ready, Holding, Heap.Supplies, Live;
      Return(heap, ptr);
    }

    // ---- Pieces ----

    /** The GDT entries that are left. */
    ghost function Selectors(): nat
      reads gdt.used
    {
      |ClearEntries(gdt.used[..])|
    }

    lemma SelectorsAre()
      ensures Selectors() == |ClearEntries(gdt.used[..])| && (Shaped() ==> gdt.first == GDT_FIRST)
    {
    }

    /** A heap payload for the process under construction. */
    method ObtainPiece(size: u32, ghost b0: Books, ghost base: Supply, ghost q: Pieces, ghost dir: Frame, ghost mapped: set<Frame>, ghost layout: Layout)
      returns (ptr: u32)
      requires Building(b0, base, q, dir, mapped, layout, false) && 0 < size <= LARGEST_REQUEST
      modifies heap, heap.mem, heap.pmm, heap.pmm.bitmap, heap.tables
      ensures ptr == 0 ==> Building(b0, base, q, dir, mapped, layout, false)
      ensures ptr != 0 ==> ptr <= KHEAP_LIMIT && forall q' | PayloadAdded(q, q', ptr) :: Building(b0, base, q', dir, mapped, layout, false)
      ensures
        var had, has, pages := old(Stock(heap)), Stock(heap), PagesFor(Rounded(size));
        size <= 0x1000 && had.frames >= pages && had.window >= pages && had.tables >= 0 ==>
          ptr != 0 && has.frames >= had.frames - pages && has.window >= had.window - pages && has.tables == had.tables
      ensures UseOf(heap.tables.pages, dir, 511) == UseOf(old(heap.tables.pages), dir, 511)
    {
      hide *;
      Parts(b0, base, q, dir, mapped, layout, false);
      MappedParts(base, dir, mapped, layout);
      ghost var b, m, live := Books(), heap.tables.pages, Live(heap.blocks, 0);
      ptr := Obtain(heap, size, base, dir, mapped, {});
      SameUserPages(m, heap.tables.pages, dir, layout);
      SameUse(m, heap.tables.pages, dir, 511);
      NoneObtained(live, Live(heap.blocks, 0), ptr, size);
      MappedParts(base, dir, mapped, layout);
      Parts(b0, base, q, dir, mapped, layout, false);
      if ptr != 0 {
        LiveInWindow(heap, ptr);
        forall q' | PayloadAdded(q, q', ptr) ensures Building(b0, base, q', dir, mapped, layout, false) {
          AddPayload(b0, b, Books(), q, q', ptr, false);
          Parts(b0, base, q', dir, mapped, layout, false);
        }
      }
    }

    /** heap_free of one of its payloads. */
    method ReturnPiece(ptr: u32, ghost b0: Books, ghost base: Supply, ghost q': Pieces, ghost q: Pieces, ghost dir: Frame, ghost mapped: set<Frame>, ghost layout: Layout)
      requires Building(b0, base, q', dir, mapped, layout, false) && ptr != 0 && PayloadAdded(q, q', ptr)
      modifies heap`blocks, heap.mem
      ensures Building(b0, base, q, dir, mapped, layout, false)
    {
      hide *;
      Parts(b0, base, q', dir, mapped, layout, false);
      MappedParts(base, dir, mapped, layout);
      ghost var b := Books();
      DropPayload(b0, b, b.(live := b.live - {ptr}), q, q', ptr, false);
      ReturnKeepsAccount(ptr, base, dir, mapped);
      MappedParts(base, dir, mapped, layout);
      Parts(b0, base, q, dir, mapped, layout, false);
    }

    /** gdt_alloc_selector; 0 when every entry is taken. */
    method TakeSelector(ghost b0: Books, ghost base: Supply, ghost q: Pieces, ghost dir: Frame, ghost mapped: set<Frame>, ghost layout: Layout)
      returns (sel: u16)
      requires Building(b0, base, q, dir, mapped, layout, false)
      modifies gdt.used
      ensures sel == 0 ==> Building(b0, base, q, dir, mapped, layout, false)
      ensures sel != 0 ==> forall q' | SelectorAdded(q, q', sel) :: Building(b0, base, q', dir, mapped, layout, false)
      ensures sel != 0 <==> old(Selectors()) >= 1
      ensures Selectors() == old(Selectors()) - if sel != 0 then 1 else 0
    {
      hide *;
      Parts(b0, base, q, dir, mapped, layout, false);
      ghost var b, bits := Books(), gdt.used[..];
      OwnerAllocated(b0);
      FirstClearMeans(bits, gdt.first);
      SelectorsAre();
      var index := gdt.Take();
      SelectorsAre();
      if index >= gdt.used.Length {
        NoEntries(bits);
        Parts(b0, base, q, dir, mapped, layout, false);
        return 0;
      }
      EntryTaken(bits, index);
      SelectorOf(index);
      sel := index * 8;
      forall q' | SelectorAdded(q, q', sel) ensures Building(b0, base, q', dir, mapped, layout, false) {
        Parts(b0, base, q', dir, mapped, layout, false);
        AddSelector(b0, b, Books(), q, q', sel);
      }
    }

    // ---- The stages of process_create_protected32 ----

    /** process_create_random_ldt; `t0`, `t1`, `t2` are the time stamps its three calls to
        ldt_alloc_selector read. On failure everything taken here is back; the fields of the
        object keep their stale values. */
    method CreateLdt(p: Process, t0: u32, t1: u32, t2: u32, ghost b0: Books, ghost base: Supply, ghost q: Pieces, ghost mapped: set<Frame>, ghost layout: Layout)
      returns (ok: bool)
      requires Building(b0, base, q, p.pageDir, mapped, layout, false) && p.Held() == q
      requires q.ldtBase == 0 && q.ldtBitmap == 0 && q.ldtSelector == 0 && p.slotIndex < PROCESS_MAX && p.slotBase == SlotBase(p.slotIndex)
      modifies heap, heap.mem, heap.pmm, heap.pmm.bitmap, heap.tables, gdt.used,
               p`ldtBase, p`ldtBitmap, p`ldtSelector, p`userCs, p`userDs, p`userSs, p`descriptors
      ensures if ok then Building(b0, base, p.Held(), p.pageDir, mapped, layout, false) && p.Segments() && LdtHeld(p.Held())
          && p.Held() == q.(ldtBase := p.ldtBase, ldtBitmap := p.ldtBitmap, ldtSelector := p.ldtSelector)
        else Building(b0, base, q, p.pageDir, mapped, layout, false)
      ensures
        var had, has := old(Stock(heap)), Stock(heap);
        had.frames >= 3 && had.window >= 3 && had.tables >= 0 && old(Selectors()) >= 1 ==>
          ok && has.frames >= had.frames - 3 && has.window >= had.window - 3 && has.tables == had.tables && Selectors() == old(Selectors()) - 1
      ensures UseOf(heap.tables.pages, p.pageDir, 511) == UseOf(old(heap.tables.pages), p.pageDir, 511)
    {
      hide *;
      Sizes();
      PagesAsked();
      PoolsApart(b0, base, q, p.pageDir, mapped, layout, false);
      Fields(p);
      ghost var dir := p.pageDir;
      var ldt := ObtainPiece(LDT_SIZE, b0, base, q, dir, mapped, layout);
      if ldt == 0 {
        return false;
      }
      p.ldtBase := ldt;
      Fields(p);
      ghost var q1 := q.(ldtBase := ldt);
      AddedCases(q, ldt);
      ok := LdtBitmap(p, t0, t1, t2, b0, base, q1, mapped, layout);
      if !ok {
        ReturnPiece(ldt, b0, base, q1, q, dir, mapped, layout);
      }
      Fields(p);
      LdtHeldIs(p.Held());
    }

    /** The bitmap and the selectors of process_create_random_ldt. */
    method LdtBitmap(p: Process, t0: u32, t1: u32, t2: u32, ghost b0: Books, ghost base: Supply, ghost q: Pieces, ghost mapped: set<Frame>, ghost layout: Layout)
      returns (ok: bool)
      requires Building(b0, base, q, p.pageDir, mapped, layout, false) && q == p.Held().(ldtBitmap := 0, ldtSelector := 0)
      requires p.slotIndex < PROCESS_MAX && p.slotBase == SlotBase(p.slotIndex)
      modifies heap, heap.mem, heap.pmm, heap.pmm.bitmap, heap.tables, gdt.used,
               p`ldtBitmap, p`ldtSelector, p`userCs, p`userDs, p`userSs, p`descriptors
      ensures if ok
        then Building(b0, base, p.Held(), p.pageDir, mapped, layout, false) && p.Segments() && p.ldtBitmap != 0 && p.ldtSelector != 0
          && p.Held() == q.(ldtBitmap := p.ldtBitmap, ldtSelector := p.ldtSelector)
        else Building(b0, base, q, p.pageDir, mapped, layout, false)
      ensures
        var had, has := old(Stock(heap)), Stock(heap);
        had.frames >= 1 && had.window >= 1 && had.tables >= 0 && old(Selectors()) >= 1 ==>
          ok && has.frames >= had.frames - 1 && has.window >= had.window - 1 && has.tables == had.tables && Selectors() == old(Selectors()) - 1
      ensures UseOf(heap.tables.pages, p.pageDir, 511) == UseOf(old(heap.tables.pages), p.pageDir, 511)
    {
      hide *;
      Sizes();
      PagesAsked();
      PoolsApart(b0, base, q, p.pageDir, mapped, layout, false);
      Fields(p);
      ghost var dir := p.pageDir;
      var bitmap := ObtainPiece(LDT_BITMAP_SIZE, b0, base, q, dir, mapped, layout);
      if bitmap == 0 {
        return false;
      }
      p.ldtBitmap := bitmap;
      Fields(p);
      ghost var q1 := q.(ldtBitmap := bitmap);
      AddedCases(q, bitmap);
      ok := LdtSelectors(p, t0, t1, t2, b0, base, q1, mapped, layout);
      if !ok {
        ReturnPiece(bitmap, b0, base, q1, q, dir, mapped, layout);
      }
      Fields(p);
    }

    /** The selectors of process_create_random_ldt: its GDT entry, then the three segments. */
    method LdtSelectors(p: Process, t0: u32, t1: u32, t2: u32, ghost b0: Books, ghost base: Supply, ghost q: Pieces, ghost mapped: set<Frame>, ghost layout: Layout)
      returns (ok: bool)
      requires Building(b0, base, q, p.pageDir, mapped, layout, false) && p.Held().(ldtSelector := 0) == q
      requires p.slotIndex < PROCESS_MAX && p.slotBase == SlotBase(p.slotIndex)
      modifies gdt.used, p`ldtSelector, p`userCs, p`userDs, p`userSs, p`descriptors
      ensures if ok
        then Building(b0, base, p.Held(), p.pageDir, mapped, layout, false) && p.ldtSelector != 0 && p.Held().(ldtSelector := 0) == q && p.Segments()
        else Building(b0, base, q, p.pageDir, mapped, layout, false)
      ensures old(Selectors()) >= 1 ==> ok && Selectors() == old(Selectors()) - 1
    {
      hide *;
      Fields(p);
      var sel := TakeSelector(b0, base, q, p.pageDir, mapped, layout);
      if sel == 0 {
        return false;
      }
      p.ldtSelector := sel;
      AddedSelector(q, sel);
      FillLdt(p, t0, t1, t2);
      Fields(p);
      ok := true;
    }

    /** The segments of process_create_random_ldt, in a table of zeros: in a fresh bitmap the three
        allocations cannot fail, so the path that gives the GDT entry back is never taken. */
    method FillLdt(p: Process, t0: u32, t1: u32, t2: u32)
      requires p.slotIndex < PROCESS_MAX && p.slotBase == SlotBase(p.slotIndex)
      modifies p`userCs, p`userDs, p`userSs, p`descriptors
      ensures p.Segments()
    {
      hide SlotBase, SlotWord, Segmented, UserSelector, Different;
      var bitmap := FreshBitmap();
      var table := new bv32[2 * LDT_ENTRIES](_ => 0);
      var ok, cs, ds, ss := ChooseSelectors(bitmap, t0, t1, t2);
      p.userCs, p.userDs, p.userSs := cs, ds, ss;
      WriteSegments(table, cs, ds, ss, SlotWord(p.slotIndex));
      p.descriptors := table[..];
    }

    /** process_create_tss. On failure the fields are cleared again. */
    method CreateTss(p: Process, ghost b0: Books, ghost base: Supply, ghost q: Pieces, ghost mapped: set<Frame>, ghost layout: Layout)
      returns (ok: bool)
      requires Building(b0, base, q, p.pageDir, mapped, layout, false) && p.Held() == q
      requires q.tssBase == 0 && q.kstackTop == 0 && q.tssSelector == 0
      modifies heap, heap.mem, heap.pmm, heap.pmm.bitmap, heap.tables, gdt.used, p`tssBase, p`kstackTop, p`tssSelector
      ensures Building(b0, base, p.Held(), p.pageDir, mapped, layout, false)
      ensures p.Held() == q.(tssBase := p.tssBase, kstackTop := p.kstackTop, tssSelector := p.tssSelector)
      ensures if ok then p.tssBase != 0 && p.kstackTop != 0 && p.tssSelector != 0 else p.Held() == q
      ensures
        var had, has := old(Stock(heap)), Stock(heap);
        had.frames >= 3 && had.window >= 3 && had.tables >= 0 && old(Selectors()) >= 1 ==>
          ok && has.frames >= had.frames - 3 && has.window >= had.window - 3 && has.tables == had.tables
      ensures UseOf(heap.tables.pages, p.pageDir, 511) == UseOf(old(heap.tables.pages), p.pageDir, 511)
    {
      hide *;
      Sizes();
      PagesAsked();
      PoolsApart(b0, base, q, p.pageDir, mapped, layout, false);
      Fields(p);
      ghost var dir := p.pageDir;
      var tss := ObtainPiece(TSS_OBJECT_SIZE, b0, base, q, dir, mapped, layout);
      if tss == 0 {
        return false;
      }
      p.tssBase := tss;
      Fields(p);
      ghost var q1 := q.(tssBase := tss);
      AddedCases(q, tss);
      ok := CreateStack(p, b0, base, q1, mapped, layout);
      if !ok {
        ReturnPiece(p.tssBase, b0, base, q1, q, dir, mapped, layout);
        p.tssBase := 0;
      }
      Fields(p);
    }

    /** The kernel stack and the GDT entry of process_create_tss. */
    method CreateStack(p: Process, ghost b0: Books, ghost base: Supply, ghost q: Pieces, ghost mapped: set<Frame>, ghost layout: Layout)
      returns (ok: bool)
      requires Building(b0, base, q, p.pageDir, mapped, layout, false) && p.Held() == q && q.kstackTop == 0 && q.tssSelector == 0
      modifies heap, heap.mem, heap.pmm, heap.pmm.bitmap, heap.tables, gdt.used, p`kstackTop, p`tssSelector
      ensures Building(b0, base, p.Held(), p.pageDir, mapped, layout, false)
      ensures p.Held() == q.(kstackTop := p.kstackTop, tssSelector := p.tssSelector)
      ensures if ok then p.kstackTop != 0 && p.tssSelector != 0 else p.Held() == q
      ensures
        var had, has := old(Stock(heap)), Stock(heap);
        had.frames >= 2 && had.window >= 2 && had.tables >= 0 && old(Selectors()) >= 1 ==>
          ok && has.frames >= had.frames - 2 && has.window >= had.window - 2 && has.tables == had.tables
      ensures UseOf(heap.tables.pages, p.pageDir, 511) == UseOf(old(heap.tables.pages), p.pageDir, 511)
    {
      hide *;
      Sizes();
      PagesAsked();
      PoolsApart(b0, base, q, p.pageDir, mapped, layout, false);
      Fields(p);
      ghost var dir := p.pageDir;
      var stack := ObtainPiece(PAGE_BYTES, b0, base, q, dir, mapped, layout);
      if stack == 0 {
        return false;
      }
      BelowTop(stack);
      p.kstackTop := stack + PAGE_BYTES;
      Fields(p);
      ghost var q1 := q.(kstackTop := stack + PAGE_BYTES);
      AddedCases(q, stack);
      var sel := TakeSelector(b0, base, q1, dir, mapped, layout);
      ok := sel != 0;
      if ok {
        p.tssSelector := sel;
        AddedSelector(q1, sel);
      } else {
        ReturnPiece(p.kstackTop - PAGE_BYTES, b0, base, q1, q, dir, mapped, layout);
        p.kstackTop := 0;
      }
      Fields(p);
    }

    /** process_install_syscall_gateway. */
    method InstallGateway(p: Process, ghost b0: Books, ghost base: Supply, ghost q: Pieces, ghost mapped: set<Frame>, ghost layout: Layout)
      returns (ok: bool, ghost mapped': set<Frame>)
      requires Building(b0, base, q, p.pageDir, mapped, layout, false) && GATEWAY_PAGE / 0x1000 !in layout
      modifies heap.pmm, heap.pmm.bitmap, heap.tables
      ensures Building(b0, base, q, p.pageDir, mapped', if ok then WithGateway(layout) else layout, false)
      ensures old(Stock(heap)).frames >= 1 && old(Stock(heap)).tables >= 1 && UseOf(old(heap.tables.pages), p.pageDir, 511).Vacant? ==> ok
      ensures ok ==> !UseOf(old(heap.tables.pages), p.pageDir, 511).Blocked?
    {
      hide *;
      ghost var dir := p.pageDir;
      Parts(b0, base, q, dir, mapped, layout, false);
      MappedParts(base, dir, mapped, layout);
      GatewayAddress();
      OwnedFlags();
      ok, mapped' := AddOwned(heap, p.pageDir, GATEWAY_PAGE, PRESENT_USER | OWNED_BIT, 1, base, mapped, layout);
      MappedParts(base, dir, mapped', if ok then WithGateway(layout) else layout);
      Parts(b0, base, q, dir, mapped', if ok then WithGateway(layout) else layout, false);
    }

    /** process_register. */
    method Register(p: Process, ghost b0: Books, ghost base: Supply, ghost q: Pieces, ghost mapped: set<Frame>, ghost layout: Layout)
      returns (ok: bool)
      requires Building(b0, base, q, p.pageDir, mapped, layout, false) && p.Held() == q
      modifies table, this`active, p`tableIndex
      ensures Building(b0, base, p.Held(), p.pageDir, mapped, layout, false) && p.Held() == q.(entry := p.tableIndex)
      ensures ok ==> p.tableIndex != NONE && LowestZero(b0.table, p.tableIndex)
      ensures ok <==> q.entry == NONE && EntryLeft(b0)
    {
      hide *;
      Sizes();
      Fields(p);
      Parts(b0, base, q, p.pageDir, mapped, layout, false);
      OwedParts(b0, Books(), q);
      LowestIs(b0.table);
      EntryLeftIs(b0);
      if p.tableIndex != NONE {
        return false;
      }
      var ebx := 0;
      while ebx < PROCESS_MAX && table[ebx] != 0
        invariant 0 <= ebx <= PROCESS_MAX && forall i | 0 <= i < ebx :: table[i] != 0
      {
        ebx := ebx + 1;
      }
      if ebx >= PROCESS_MAX {
        return false;
      }
      ghost var b := Books();
      table[ebx] := p.address;
      p.tableIndex := ebx;
      active := active + 1;
      Fields(p);
      assert table[..] == b.table[ebx := q.address];
      Parts(b0, base, q, p.pageDir, mapped, layout, false);
      AddEntry(b0, b, Books(), q, ebx);
      Parts(b0, base, p.Held(), p.pageDir, mapped, layout, false);
      ok := true;
    }

    // ---- process_destroy ----

    /** Kernel state between operations, as far as destruction needs it. */
    ghost predicate Steady()
      reads this, heap, heap.mem, heap.pmm, heap.pmm.bitmap, heap.tables, gdt.used, slots.used, table, queue, queue.table
    {
      Ready(heap) && Shaped() && InOrder(Books())
    }

    lemma SteadyParts()
      ensures Steady() <==> Ready(heap) && Shaped() && InOrder(Books())
      ensures Shaped() ==> gdt.first == GDT_FIRST && gdt.used.Length == GDT_COUNT && slots.used.Length == PROCESS_MAX
      ensures Shaped() ==> slots.first == 0 && table.Length == PROCESS_MAX && queue.table.Length == MAX_TASKS
      ensures Shaped() ==> slots.used != gdt.used && heap.pmm.bitmap != gdt.used && heap.pmm.bitmap != slots.used && table != heap.mem
      ensures Shaped() ==> gdt.Valid() && slots.Valid()
      ensures Shaped() ==> Books() == ProcessBooks.Books.Books(Live(heap.blocks, 0), gdt.used[..], slots.used[..], table[..], active, queue.State(), owner)
    {
    }

    /** gdt_free_selector. */
    method FreeEntry(sel: u16)
      requires Shaped() && GoodSelector(sel)
      modifies gdt.used
      ensures Books() == old(Books()).(gdt := WithBits(old(Books()).gdt, Entry8(sel), false))
    {
      var bits := gdt.used[..];
      GoodEntry(sel);
      if sel != 0 {
        if sel / 4 % 2 == 0 {
          gdt.Give(sel / 8);
        }
      }
      assert gdt.used[..] == WithBits(bits, Entry8(sel), false);
    }

    /** heap_free of an optional payload. */
    method FreePayload(ptr: u32)
      requires Ready(heap) && Shaped() && (ptr == 0 || ptr in Live(heap.blocks, 0))
      modifies heap`blocks, heap.mem
      ensures Ready(heap) && heap.Supplies() == old(heap.Supplies())
      ensures Books() == old(Books()).(live := old(Books()).live - One(ptr))
    {
      hide *;
      SteadyParts();
      NoPayload(ptr, Live(heap.blocks, 0));
      if ptr != 0 {
        Return(heap, ptr);
      }
      SteadyParts();
    }

    /** process_unregister. */
    method Unregister(p: Process)
      requires Shaped()
      modifies table, this`active, p`tableIndex
      ensures Books() == Unregistered(old(Books()), old(p.Held()))
    {
      ghost var b, q := Books(), p.Held();
      if p.tableIndex < PROCESS_MAX && table[p.tableIndex] == p.address {
        table[p.tableIndex] := 0;
        assert table[..] == b.table[q.entry := 0];
        p.tableIndex := NONE;
        if active != 0 {
          active := active - 1;
        }
      }
    }

    /** graphics_release_process. */
    method ReleaseDisplay(p: Process)
      requires Shaped()
      modifies this`owner
      ensures Books() == old(Books()).(owner := if p.tssSelector != 0 && old(owner) == p.tssSelector then 0 else old(owner))
    {
      if p.tssSelector != 0 && p.tssSelector == owner {
        owner := 0;
      }
    }

    /** The TSS object and the kernel stack of process_destroy. */
    method FreeStacks(p: Process, ghost q: Pieces)
      requires Ready(heap) && Shaped() && p.tssBase == q.tssBase && p.kstackTop == q.kstackTop
      requires (q.tssBase == 0 || q.tssBase in Live(heap.blocks, 0))
      requires q.kstackTop != 0 ==> q.kstackTop > 0x1000 && Stack(q) in Live(heap.blocks, 0) - One(q.tssBase)
      modifies heap`blocks, heap.mem, p`tssBase, p`kstackTop
      ensures Ready(heap) && heap.Supplies() == old(heap.Supplies())
      ensures Books() == old(Books()).(live := old(Books()).live - One(q.tssBase) - One(Stack(q))) && p.tssBase == 0 && p.kstackTop == 0
    {
      hide *;
      SteadyParts();
      StackBase(q);
      FreePayload(p.tssBase);
      p.tssBase := 0;
      SteadyParts();
      NoPayload(0, Live(heap.blocks, 0));
      if p.kstackTop != 0 {
        FreePayload(p.kstackTop - PAGE_BYTES);
        p.kstackTop := 0;
      }
    }

    /** process_destroy from process_unregister to the kernel stack. */
    method DestroyTask(p: Process)
      requires Ready(heap) && Shaped() && Apart(p.Held()) && Payloads(p.Held()) <= Live(heap.blocks, 0).Keys && GoodSelector(p.tssSelector)
      modifies heap`blocks, heap.mem, gdt.used, table, this`active, this`owner, p`tableIndex, p`tssSelector, p`tssBase, p`kstackTop
      ensures Ready(heap) && heap.Supplies() == old(heap.Supplies())
      ensures Books() == TaskGone(old(Books()), old(p.Held())) && p.tssSelector == 0 && p.tssBase == 0 && p.kstackTop == 0
    {
      hide *;
      SteadyParts();
      Fields(p);
      ghost var b, q := Books(), p.Held();
      Separate(q, b.live);
      UnregisteredKeeps(b, q);
      Unregister(p);
      ReleaseDisplay(p);
      SteadyParts();
      FreeEntry(p.tssSelector);
      p.tssSelector := 0;
      SteadyParts();
      FreeStacks(p, q);
      TaskSteps(b, Books(), q);
    }

    /** The LDT of process_destroy: GDT entry, bitmap, table. */
    method FreeLdt(p: Process, ghost q: Pieces)
      requires Ready(heap) && Shaped() && GoodSelector(p.ldtSelector) && SpaceHeld(q, Live(heap.blocks, 0))
      requires p.ldtSelector == q.ldtSelector && p.ldtBitmap == q.ldtBitmap && p.ldtBase == q.ldtBase
      modifies heap`blocks, heap.mem, gdt.used, p`ldtSelector, p`ldtBitmap, p`ldtBase
      ensures Ready(heap) && heap.Supplies() == old(heap.Supplies())
      ensures var b := old(Books());
        Books() == b.(gdt := WithBits(b.gdt, Entry8(q.ldtSelector), false), live := b.live - One(q.ldtBitmap) - One(q.ldtBase))
    {
      hide *;
      SteadyParts();
      SpaceSeparate(q, Live(heap.blocks, 0));
      FreeEntry(p.ldtSelector);
      p.ldtSelector := 0;
      SteadyParts();
      FreePayload(p.ldtBitmap);
      p.ldtBitmap := 0;
      SteadyParts();
      FreePayload(p.ldtBase);
      p.ldtBase := 0;
    }

    /** process_destroy from the LDT selector to the object itself. */
    method DestroySpace(p: Process, ghost q: Pieces)
      requires Ready(heap) && Shaped() && GoodSelector(p.ldtSelector) && p.Held() == q.(tssSelector := 0, tssBase := 0, kstackTop := 0, entry := p.tableIndex)
      requires SpaceHeld(q, Live(heap.blocks, 0)) && p.pageDir != KERNEL_DIR && (p.pageDir != 0 ==> p.pageDir in heap.tables.dirs)
      modifies heap`blocks, heap.mem, heap.pmm`next, heap.pmm.bitmap, heap.tables, gdt.used, slots.used,
               p`ldtSelector, p`ldtBitmap, p`ldtBase, p`slotIndex, p`slotBase, p`pageDir
      ensures Ready(heap) && Books() == SpaceGone(old(Books()), q)
      ensures SpaceDropped(old(heap.Supplies()), heap.Supplies(), old(p.pageDir))
    {
      hide *;
      SteadyParts();
      Fields(p);
      ghost var b, s := Books(), heap.Supplies();
      SpaceSeparate(q, b.live);
      FreeLdt(p, q);
      assert heap.Supplies() == s;
      SteadyParts();
      if p.slotIndex != NONE {
        slots.Give(p.slotIndex);
        p.slotIndex, p.slotBase := NONE, 0;
      }
      SteadyParts();
      assert heap.Supplies() == s;
      ghost var dir := p.pageDir;
      if p.pageDir != 0 {
        RetireDirectory(heap, p.pageDir);
        p.pageDir := 0;
      }
      SpaceIsDropped(s, heap.Supplies(), dir);
      SteadyParts();
      FreePayload(p.address);
      Sizes();
      assert q.slot == NONE ==> !(q.slot < |b.slots|);
      SpaceSteps(b, Books(), q);
    }

    /** process_destroy: refused for the running task, otherwise everything goes back. */
    method Destroy(p: Process)
      requires Steady() && Destroyable(Books(), p.Held()) && p.pageDir != KERNEL_DIR && (p.pageDir != 0 ==> p.pageDir in heap.tables.dirs)
      modifies heap`blocks, heap.mem, heap.pmm`next, heap.pmm.bitmap, heap.tables, gdt.used, slots.used, table, this`active, this`owner,
               queue, queue.table, p
      ensures Steady()
      ensures if Refused(old(Books()), old(p.Held())) then Books() == old(Books()) && heap.Supplies() == old(heap.Supplies())
        else Books() == Settled(old(Books()), old(p.Held())) && SpaceDropped(old(heap.Supplies()), heap.Supplies(), old(p.pageDir))
    {
      hide *;
      SteadyParts();
      Fields(p);
      ghost var b, q, s := Books(), p.Held(), heap.Supplies();
      RefusedIffRunning(b, q);
      RefusedMeans(b, q);
      var ok := queue.Remove(p.tssSelector);
      SteadyParts();
      assert heap.Supplies() == s;
      if ok {
        ghost var b1 := Books();
        DestroyableParts(b, q);
        DestroyTask(p);
        Fields(p);
        SteadyParts();
        TaskGoneLive(b1, q);
        DestroySpace(p, q);
        HalvesSettle(b, b1, q);
        SettledInOrder(b, q);
      }
      SteadyParts();
    }

    // ---- Deferred destruction ----

    /** A terminated process: everything it holds can go, and its TSS is not the loaded one. */
    ghost predicate Doomed(p: Process)
      reads this, heap, heap.tables, gdt.used, slots.used, table, queue, queue.table, p
    {
      Shaped() && Destroyable(Books(), p.Held()) && !Refused(Books(), p.Held()) &&
      p.pageDir != KERNEL_DIR && (p.pageDir != 0 ==> p.pageDir in heap.tables.dirs)
    }

    lemma DoomedParts(p: Process)
      requires Doomed(p)
      ensures Shaped() && Destroyable(Books(), p.Held()) && !Refused(Books(), p.Held())
      ensures p.pageDir != KERNEL_DIR && (p.pageDir != 0 ==> p.pageDir in heap.tables.dirs)
    {
    }

    /** scheduler_reap_terminated: the pending process is destroyed once and forgotten. */
    method ReapTerminated()
      requires Steady() && (reap != null ==> Doomed(reap))
      modifies heap`blocks, heap.mem, heap.pmm`next, heap.pmm.bitmap, heap.tables, gdt.used, slots.used, table, this`active, this`owner,
               this`reap, queue, queue.table, reap
      ensures Steady() && reap == null
      ensures if old(reap) == null then Books() == old(Books()) && heap.Supplies() == old(heap.Supplies())
        else Books() == Settled(old(Books()), old(reap.Held())) && queue.State() == Removal(old(queue.State()), old(reap.tssSelector)).0 &&
             SpaceDropped(old(heap.Supplies()), heap.Supplies(), old(reap.pageDir))
    {
      hide *;
      SteadyParts();
      if reap != null {
        var p := reap;
        DoomedParts(p);
        Fields(p);
        ghost var b, q := Books(), p.Held();
        reap := null;
        SteadyParts();
        Destroy(p);
        SteadyParts();
        SettledQueue(b, q);
      }
    }

    lemma DirectoriesAre()
      ensures heap.Supplies().dirs == heap.tables.dirs
    {
    }

    lemma QueueFields()
      requires Shaped()
      ensures queue.State() == Sched(queue.table[..], queue.current, queue.count, queue.kernel, queue.loaded)
    {
    }

    lemma QueueIsValid()
      requires Shaped() && Sound(queue.State())
      ensures queue.Valid()
    {
    }

    /** int20_handler: reap first, then switch. */
    method Tick()
      requires Steady() && (reap != null ==> Doomed(reap))
      modifies heap`blocks, heap.mem, heap.pmm`next, heap.pmm.bitmap, heap.tables, gdt.used, slots.used, table, this`active, this`owner,
               this`reap, queue, queue.table, reap
      ensures Steady() && reap == null
      ensures
        var b := if old(reap) == null then old(Books()) else Settled(old(Books()), old(reap.Held()));
        Sound(b.queue) && Books() == b.(queue := Switch(b.queue))
      ensures if old(reap) == null then heap.Supplies() == old(heap.Supplies())
        else SpaceDropped(old(heap.Supplies()), heap.Supplies(), old(reap.pageDir))
    {
      hide *;
      ReapTerminated();
      SteadyParts();
      ghost var b := Books();
      QueueInOrder(b);
      SwitchSound(queue.State());
      SwitchInOrder(b);
      QueueIsValid();
      queue.SwitchNext();
      SteadyParts();
    }

    /** Nothing `p` holds is held by the process waiting for destruction. */
    ghost predicate Unrelated(p: Process)
      reads reap, p, this`reap
    {
      reap != null ==>
        reap != p && Payloads(reap.Held()) !! Payloads(p.Held()) && Entries(reap.Held()) !! Entries(p.Held()) &&
        (reap.pageDir == 0 || reap.pageDir != p.pageDir)
    }

    /** exception_terminate_current in process `p`, whose TSS is loaded: a process still waiting is
        destroyed, `p` leaves the run table and is doomed, and another task is loaded; false means
        the machine halted because there was none. */
    method Terminate(p: Process) returns (ok: bool)
      requires Steady() && (reap != null ==> Doomed(reap)) && Unrelated(p)
      requires Destroyable(Books(), p.Held()) && p.tssSelector == queue.loaded != 0
      requires p.pageDir != KERNEL_DIR && (p.pageDir != 0 ==> p.pageDir in heap.tables.dirs)
      modifies heap`blocks, heap.mem, heap.pmm`next, heap.pmm.bitmap, heap.tables, gdt.used, slots.used, table, this`active, this`owner,
               this`reap, queue, queue.table, reap
      ensures
        var b := if old(reap) == null then old(Books()) else Settled(old(Books()), old(reap.Held()));
        b.queue.current < MAX_TASKS && ok == Leave(b.queue).Some? && (ok ==> Books() == b.(queue := Leave(b.queue).value))
      ensures ok ==> Steady() && reap == p && p.Held() == old(p.Held()) && Doomed(p)
      ensures if old(reap) == null then heap.Supplies() == old(heap.Supplies())
        else SpaceDropped(old(heap.Supplies()), heap.Supplies(), old(reap.pageDir))
    {
      hide *;
      SteadyParts();
      ghost var b0, q, s := Books(), p.Held(), heap.Supplies();
      UnrelatedParts(p);
      DirectoriesAre();
      Fields(p);
      QueueFields();
      if reap != null {
        DoomedParts(reap);
        StillDestroyable(b0, reap.Held(), q);
        SettledQueue(b0, reap.Held());
      }
      RunningIndex(b0, q);
      ReapTerminated();
      SteadyParts();
      DirectoriesAre();
      if old(reap) != null { StillThere(s, heap.Supplies(), old(reap.pageDir), p.pageDir); }
      ghost var b := Books();
      LeavesDoomed(b, q);
      QueueInOrder(b);
      QueueFields();
      QueueIsValid();
      reap := p;
      ok := queue.TerminateCurrent();
      SteadyParts();
      if ok {
        DirectoriesAre();
        DoomedIs(p);
      }
    }

    lemma UnrelatedParts(p: Process)
      ensures Unrelated(p) <==>
        (reap != null ==>
          reap != p && Payloads(reap.Held()) !! Payloads(p.Held()) && Entries(reap.Held()) !! Entries(p.Held()) &&
          (reap.pageDir == 0 || reap.pageDir != p.pageDir))
    {
    }

    lemma DoomedIs(p: Process)
      ensures Doomed(p) <==>
        Shaped() && Destroyable(Books(), p.Held()) && !Refused(Books(), p.Held()) &&
        p.pageDir != KERNEL_DIR && (p.pageDir != 0 ==> p.pageDir in heap.tables.dirs)
    {
    }

    // ---- process_create_protected32 ----

    /** process_memory_destroy of a process that holds nothing else. */
    method MemoryDestroy(p: Process, ghost b0: Books, ghost base: Supply, ghost q: Pieces, ghost mapped: set<Frame>, ghost layout: Layout)
      requires Building(b0, base, q, p.pageDir, mapped, layout, false) && q == Pieces(p.address, 0, 0, 0, 0, 0, 0, NONE, NONE)
      modifies heap`blocks, heap.mem, heap.pmm`next, heap.pmm.bitmap, heap.tables
      ensures Steady() && Books() == b0 && Account(heap, base, 0, {}, {})
    {
      hide *;
      Parts(b0, base, q, p.pageDir, mapped, layout, false);
      MappedParts(base, p.pageDir, mapped, layout);
      ghost var b := Books();
      OnlyObject(b0, b, q);
      Undirect(p.pageDir, base, mapped);
      Parts(b0, base, q, p.pageDir, mapped, layout, false);
      ReturnKeepsAccount(p.address, base, 0, {});
      SteadyParts();
    }

    /** process_destroy as the unwind path: the task was never queued. */
    method Unwind(p: Process, ghost b0: Books, ghost base: Supply, ghost mapped: set<Frame>, ghost layout: Layout)
      requires Building(b0, base, p.Held(), p.pageDir, mapped, layout, false)
      modifies heap`blocks, heap.mem, heap.pmm`next, heap.pmm.bitmap, heap.tables, gdt.used, slots.used, table, this`active, this`owner,
               queue, queue.table, p
      ensures Steady() && Books() == b0 && Account(heap, base, 0, {}, {})
    {
      hide *;
      ghost var dir, q, s := p.pageDir, p.Held(), heap.Supplies();
      Parts(b0, base, q, dir, mapped, layout, false);
      ghost var b := Books();
      MappedParts(base, dir, mapped, layout);
      BilledIsDestroyable(b0, b, q, false);
      BilledInOrder(b0, b, q, false);
      SteadyParts();
      AccountIs(heap, base, dir, mapped);
      SupplyFacts(heap);
      Destroy(p);
      SettledIsRestored(b0, b, q, false);
      SpaceIsDropped(s, heap.Supplies(), dir);
      HoldDrop(base, s, heap.Supplies(), dir, mapped);
      AccountIs(heap, base, 0, {});
    }

    /** The stages after the LDT: TSS, gateway page, process table, run table. */
    method MakeRunnable(p: Process, ghost b0: Books, ghost base: Supply, ghost mapped: set<Frame>, ghost layout: Layout)
      returns (ok: bool, ghost mapped': set<Frame>, ghost layout': Layout)
      requires Building(b0, base, p.Held(), p.pageDir, mapped, layout, false) && GATEWAY_PAGE / 0x1000 !in layout
      requires p.tssBase == 0 && p.kstackTop == 0 && p.tssSelector == 0 && LdtHeld(p.Held()) && p.slotIndex != NONE
      modifies heap, heap.mem, heap.pmm, heap.pmm.bitmap, heap.tables, gdt.used, table, this`active, queue`count, queue.table,
               p`tssBase, p`kstackTop, p`tssSelector, p`tableIndex
      ensures Building(b0, base, p.Held(), p.pageDir, mapped', layout', ok)
      ensures ok ==> layout' == WithGateway(layout) && Whole(p.Held()) && LowestZero(b0.table, p.tableIndex)
      ensures ok ==> !UseOf(old(heap.tables.pages), p.pageDir, 511).Blocked?
      ensures
        var had := old(Stock(heap));
        var room := old(p.tableIndex) == NONE && EntryLeft(b0) && TaskLeft(b0) && old(Selectors()) >= 1;
        had.frames >= 4 && had.window >= 3 && had.tables >= 1 && UseOf(old(heap.tables.pages), p.pageDir, 511).Vacant? && room ==> ok
    {
      hide *;
      PoolsApart(b0, base, p.Held(), p.pageDir, mapped, layout, false);
      Fields(p);
      LdtHeldIs(p.Held());
      mapped', layout' := mapped, layout;
      ok := CreateTss(p, b0, base, p.Held(), mapped, layout);
      if !ok {
        return;
      }
      ok, mapped' := InstallGateway(p, b0, base, p.Held(), mapped, layout);
      if !ok {
        return;
      }
      layout' := WithGateway(layout);
      ok := Register(p, b0, base, p.Held(), mapped', layout');
      if !ok {
        return;
      }
      Fields(p);
      WholeIs(p.Held());
      ok := Enqueue(p, b0, base, p.Held(), mapped', layout');
    }

    /** scheduler_add_process for the process under construction. */
    method Enqueue(p: Process, ghost b0: Books, ghost base: Supply, ghost q: Pieces, ghost mapped: set<Frame>, ghost layout: Layout)
      returns (ok: bool)
      requires Building(b0, base, q, p.pageDir, mapped, layout, false) && p.Held() == q && p.tssSelector != 0
      modifies queue`count, queue.table
      ensures Building(b0, base, q, p.pageDir, mapped, layout, ok)
      ensures ok <==> TaskLeft(b0)
    {
      hide *;
      Fields(p);
      Parts(b0, base, q, p.pageDir, mapped, layout, false);
      ghost var b := Books();
      OwedParts(b0, b, q);
      TaskHadRoom(b0, b, q);
      ok := queue.Add(p.tssSelector);
      Parts(b0, base, q, p.pageDir, mapped, layout, ok);
      if ok {
        AddTask(b0, b, Books(), q);
      } else {
        RefusedAddition(b.queue, p.tssSelector);
      }
    }

    /** From the slot on: the LDT, then the rest; false when everything was unwound. */
    method AfterSlot(p: Process, t0: u32, t1: u32, t2: u32, ghost b0: Books, ghost base: Supply, ghost mapped: set<Frame>, ghost layout: Layout)
      returns (ok: bool, ghost mapped': set<Frame>)
      requires Building(b0, base, p.Held(), p.pageDir, mapped, layout, false) && GATEWAY_PAGE / 0x1000 !in layout
      requires p.Held() == Pieces(p.address, 0, 0, 0, 0, 0, 0, p.slotIndex, NONE) && p.slotIndex < PROCESS_MAX && p.slotBase == SlotBase(p.slotIndex)
      modifies this`active, this`owner, heap, heap.mem, heap.pmm, heap.pmm.bitmap, heap.tables, gdt.used, slots.used, table, queue, queue.table, p
      ensures if ok then Building(b0, base, p.Held(), p.pageDir, mapped', WithGateway(layout), true) && Whole(p.Held()) && p.Segments()
        else Unwound(b0, base)
      ensures ok ==> LowestZero(b0.table, p.tableIndex) && p.slotIndex == old(p.slotIndex)
      ensures ok ==> !UseOf(old(heap.tables.pages), old(p.pageDir), 511).Blocked?
      ensures
        var had := old(Stock(heap));
        var room := EntryLeft(b0) && TaskLeft(b0) && old(Selectors()) >= 2;
        had.frames >= 7 && had.window >= 6 && had.tables >= 1 && UseOf(old(heap.tables.pages), old(p.pageDir), 511).Vacant? && room ==> ok
    {
      hide *;
      PoolsApart(b0, base, p.Held(), p.pageDir, mapped, layout, false);
      Sizes();
      Fields(p);
      ghost var q := p.Held();
      mapped' := mapped;
      ok := CreateLdt(p, t0, t1, t2, b0, base, q, mapped, layout);
      if ok {
        Fields(p);
        SegmentsAre(p);
        ok, mapped' := AfterLdt(p, b0, base, mapped, layout);
      } else {
        GiveUp(p, b0, base, q, mapped, layout);
      }
    }

    /** From the LDT on. */
    method AfterLdt(p: Process, ghost b0: Books, ghost base: Supply, ghost mapped: set<Frame>, ghost layout: Layout)
      returns (ok: bool, ghost mapped': set<Frame>)
      requires Building(b0, base, p.Held(), p.pageDir, mapped, layout, false) && GATEWAY_PAGE / 0x1000 !in layout
      requires p.tssBase == 0 && p.kstackTop == 0 && p.tssSelector == 0 && LdtHeld(p.Held()) && p.slotIndex != NONE && p.Segments()
      modifies this`active, this`owner, heap, heap.mem, heap.pmm, heap.pmm.bitmap, heap.tables, gdt.used, slots.used, table, queue, queue.table, p
      ensures if ok then Building(b0, base, p.Held(), p.pageDir, mapped', WithGateway(layout), true) && Whole(p.Held()) && p.Segments()
        else Unwound(b0, base)
      ensures ok ==> LowestZero(b0.table, p.tableIndex) && p.slotIndex == old(p.slotIndex)
      ensures ok ==> !UseOf(old(heap.tables.pages), old(p.pageDir), 511).Blocked?
      ensures
        var had := old(Stock(heap));
        var room := old(p.tableIndex) == NONE && EntryLeft(b0) && TaskLeft(b0) && old(Selectors()) >= 1;
        had.frames >= 4 && had.window >= 3 && had.tables >= 1 && UseOf(old(heap.tables.pages), old(p.pageDir), 511).Vacant? && room ==> ok
    {
      hide *;
      SegmentsAre(p);
      ghost var layout';
      ok, mapped', layout' := MakeRunnable(p, b0, base, mapped, layout);
      SegmentsAre(p);
      if !ok {
        Unwind(p, b0, base, mapped', layout');
        UnwoundParts(b0, base);
      }
    }

    /** The unwind path of a process without an LDT: slot and memory. */
    method GiveUp(p: Process, ghost b0: Books, ghost base: Supply, ghost q: Pieces, ghost mapped: set<Frame>, ghost layout: Layout)
      requires Building(b0, base, q, p.pageDir, mapped, layout, false) && p.slotIndex == q.slot != NONE
      requires q == Pieces(p.address, 0, 0, 0, 0, 0, 0, p.slotIndex, NONE)
      modifies heap`blocks, heap.mem, heap.pmm`next, heap.pmm.bitmap, heap.tables, slots.used
      ensures Unwound(b0, base)
    {
      hide *;
      FreeSlot(p, b0, base, q, mapped, layout);
      MemoryDestroy(p, b0, base, q.(slot := NONE), mapped, layout);
      UnwoundParts(b0, base);
    }

    /** Nothing is held any more: only the kernel heap may have grown. */
    ghost predicate Unwound(b0: Books, base: Supply)
      reads this, heap, heap.mem, heap.pmm, heap.pmm.bitmap, heap.tables, gdt.used, slots.used, table, queue, queue.table
    {
      Steady() && Books() == b0 && Account(heap, base, 0, {}, {})
    }

    lemma UnwoundParts(b0: Books, base: Supply)
      ensures Unwound(b0, base) <==> Steady() && Books() == b0 && Account(heap, base, 0, {}, {})
    {
    }

    /** process_create_protected32, given the time stamps of its calls to ldt_alloc_selector: all
        or nothing. A new process holds every piece, its LDT the segments of its slot, and its
        user pages are the first heap page and the gateway. */
    method Create(t0: u32, t1: u32, t2: u32) returns (p: Process?, ghost mapped: set<Frame>)
      requires Steady()
      modifies this`active, this`owner, heap, heap.mem, heap.pmm, heap.pmm.bitmap, heap.tables, gdt.used, slots.used, table, queue, queue.table
      ensures p == null ==> Unwound(old(Books()), old(heap.Supplies()))
      ensures p != null ==>
        fresh(p) && Building(old(Books()), old(heap.Supplies()), p.Held(), p.pageDir, mapped, WithGateway(HeapLayout()), true) &&
        Whole(p.Held()) && p.Segments()
      ensures p != null ==> LowestClear(old(Books()).slots, p.slotIndex) && LowestZero(old(Books()).table, p.tableIndex)
      ensures p != null ==> Room(old(Books())) && !Shared(old(heap.tables.pages), 1) && !Shared(old(heap.tables.pages), 511)
      ensures
        var had, m := old(Stock(heap)), old(heap.tables.pages);
        had.frames >= 9 && had.window >= 7 && had.tables >= 3 && !Shared(m, 1) && !Shared(m, 511) && Room(old(Books())) ==> p != null
    {
      hide *;
      SteadyParts();
      SelectorsAre();
      RoomIs(Books());
      SupplyFacts(heap);
      ghost var b0, base := Books(), heap.Supplies();
      HoldNothing(base);
      AccountIs(heap, base, 0, {});
      ghost var layout := HeapLayout();
      OwnedFlags();
      p, mapped := Begin(b0, base);
      if p != null {
        Fields(p);
        var ok := TakeSlot(p, b0, base, p.Held(), mapped, layout);
        if ok {
          ok, mapped := AfterSlot(p, t0, t1, t2, b0, base, mapped, layout);
        } else {
          MemoryDestroy(p, b0, base, p.Held(), mapped, layout);
          UnwoundParts(b0, base);
        }
        if ok {
          Parts(b0, base, p.Held(), p.pageDir, mapped, WithGateway(layout), true);
          CreatedHadRoom(b0, Books(), p.Held());
        } else {
          p := null;
        }
      } else {
        SteadyParts();
        UnwoundParts(b0, base);
      }
    }

    /** The first stage: process_memory_create. */
    method Begin(ghost b0: Books, ghost base: Supply) returns (p: Process?, ghost mapped: set<Frame>)
      requires Steady() && Books() == b0 && Account(heap, base, 0, {}, {})
      modifies heap, heap.mem, heap.pmm, heap.pmm.bitmap, heap.tables
      ensures p == null ==> Ready(heap) && Books() == b0 && Account(heap, base, 0, {}, {})
      ensures p != null ==> fresh(p) && p.Held() == Pieces(p.address, 0, 0, 0, 0, 0, 0, NONE, NONE)
      ensures p != null ==> Building(b0, base, p.Held(), p.pageDir, mapped, HeapLayout(), false)
      ensures p != null ==>
        !Shared(old(heap.tables.pages), 1) && (Shared(old(heap.tables.pages), 511) ==> UseOf(heap.tables.pages, p.pageDir, 511).Blocked?)
      ensures
        var had, has, m := old(Stock(heap)), Stock(heap), old(heap.tables.pages);
        had.frames >= 2 && had.window >= 1 && had.tables >= 2 && !Shared(m, 1) && !Shared(m, 511) ==>
          p != null && has.frames >= had.frames - 2 && has.window >= had.window - 1 && has.tables >= had.tables - 2 &&
          UseOf(heap.tables.pages, p.pageDir, 511).Vacant?
    {
      hide *;
      SteadyParts();
      ghost var live := Live(heap.blocks, 0);
      p, mapped := MemoryCreate(base);
      SteadyParts();
      if p != null {
        NoneObtained(live, Live(heap.blocks, 0), p.address, PROC_MEM_SIZE);
        Parts(b0, base, p.Held(), p.pageDir, mapped, HeapLayout(), false);
        MappedParts(base, p.pageDir, mapped, HeapLayout());
        OrderParts(b0);
        FirstPiece(b0, Books(), p.address);
      }
    }

    /** process_slot_alloc for the process under construction. */
    method TakeSlot(p: Process, ghost b0: Books, ghost base: Supply, ghost q: Pieces, ghost mapped: set<Frame>, ghost layout: Layout)
      returns (ok: bool)
      requires Building(b0, base, q, p.pageDir, mapped, layout, false) && p.Held() == q && q.slot == NONE
      modifies slots.used, p`slotIndex, p`slotBase
      ensures Building(b0, base, p.Held(), p.pageDir, mapped, layout, false) && p.Held() == q.(slot := p.slotIndex)
      ensures if ok then p.slotIndex < PROCESS_MAX && p.slotBase == SlotBase(p.slotIndex) else p.Held() == q
      ensures (ok <==> SlotLeft(b0)) && (ok ==> LowestClear(b0.slots, p.slotIndex))
    {
      hide *;
      Sizes();
      Fields(p);
      Parts(b0, base, q, p.pageDir, mapped, layout, false);
      ghost var b := Books();
      OwedParts(b0, b, q);
      SlotLeftIs(b0);
      FirstClearMeans(b.slots, 0);
      LowestBit(b.slots);
      var index := slots.Take();
      ok := index < PROCESS_MAX;
      Parts(b0, base, q, p.pageDir, mapped, layout, false);
      if ok {
        p.slotIndex, p.slotBase := index, SlotBase(index);
        Fields(p);
        AddSlot(b0, b, Books(), q, index);
        Parts(b0, base, p.Held(), p.pageDir, mapped, layout, false);
      }
    }

    /** process_slot_free on the unwind path. */
    method FreeSlot(p: Process, ghost b0: Books, ghost base: Supply, ghost q: Pieces, ghost mapped: set<Frame>, ghost layout: Layout)
      requires Building(b0, base, q, p.pageDir, mapped, layout, false) && p.slotIndex == q.slot != NONE
      modifies slots.used
      ensures Building(b0, base, q.(slot := NONE), p.pageDir, mapped, layout, false)
    {
      hide *;
      Parts(b0, base, q, p.pageDir, mapped, layout, false);
      ghost var b := Books();
      DropSlot(b0, b, b.(slots := if q.slot < |b.slots| then b.slots[q.slot := false] else b.slots), q);
      slots.Give(p.slotIndex);
      Parts(b0, base, q.(slot := NONE), p.pageDir, mapped, layout, false);
    }

    lemma SegmentsAre(p: Process)
      ensures p.Segments() <==>
        p.slotIndex < PROCESS_MAX && p.slotBase == SlotBase(p.slotIndex) && Segmented(p.descriptors, p.userCs, p.userDs, p.userSs, SlotWord(p.slotIndex))
    {
    }

    lemma Fields(p: Process)
      ensures p.Held() == Pieces(p.address, p.tssBase, p.kstackTop, p.ldtBase, p.ldtBitmap, p.tssSelector, p.ldtSelector, p.slotIndex, p.tableIndex)
    {
    }
  }

  const PAGE_BYTES: u32 := 0x1000

  /** The user pages of a new process: its first heap page, which it may write, and the gateway, which it
      may only read; both present, reachable from user code, and owned. */
  lemma LayoutMeans()
    ensures
      var layout := WithGateway(HeapLayout());
      layout.Keys == {0x400, 0x7_FFFF} && (forall p | p in layout :: layout[p] & 0x205 == 0x205) &&
      layout[0x400] & 0x002 != 0 && layout[0x7_FFFF] & 0x002 == 0
  {
    assert USER_HEAP_BASE / 0x1000 == 0x400 && GATEWAY_PAGE / 0x1000 == 0x7_FFFF;
  }

  lemma AddedCases(q: Pieces, ptr: u32)
    ensures q.tssBase == 0 ==> PayloadAdded(q, q.(tssBase := ptr), ptr)
    ensures q.ldtBase == 0 ==> PayloadAdded(q, q.(ldtBase := ptr), ptr)
    ensures q.ldtBitmap == 0 ==> PayloadAdded(q, q.(ldtBitmap := ptr), ptr)
    ensures q.kstackTop == 0 && ptr <= KHEAP_LIMIT ==> PayloadAdded(q, q.(kstackTop := ptr + PAGE_BYTES), ptr)
  {
  }

  lemma AddedSelector(q: Pieces, sel: u16)
    ensures q.tssSelector == 0 ==> SelectorAdded(q, q.(tssSelector := sel), sel)
    ensures q.ldtSelector == 0 ==> SelectorAdded(q, q.(ldtSelector := sel), sel)
  {
  }

  lemma LdtHeldIs(q: Pieces)
    ensures LdtHeld(q) <==> q.ldtBase != 0 && q.ldtBitmap != 0 && q.ldtSelector != 0
  {
  }

  lemma WholeIs(q: Pieces)
    ensures Whole(q) <==>
      LdtHeld(q) && q.tssBase != 0 && q.kstackTop != 0 && q.tssSelector != 0 && q.slot != NONE && q.entry != NONE
    ensures LdtHeld(q) <==> q.ldtBase != 0 && q.ldtBitmap != 0 && q.ldtSelector != 0
  {
  }

  lemma StackBase(q: Pieces)
    ensures Stack(q) == if q.kstackTop == 0 then 0 else q.kstackTop - PAGE_BYTES
    ensures q.kstackTop > 0x1000 ==> q.kstackTop - PAGE_BYTES > 0
  {
  }

  lemma AccountIs(heap: Heap, base: Supply, dir: Frame, mapped: set<Frame>)
    ensures Account(heap, base, dir, mapped, {}) <==> Holding(base, heap.Supplies(), dir, mapped, {})
  {
  }

  lemma RefusedAddition(s: Sched, sel: u16)
    ensures !Addition(s, sel).1 ==> Addition(s, sel).0 == s
  {
  }

  lemma OrderParts(b: Books)
    requires InOrder(b)
    ensures |b.gdt| == GDT_COUNT && |b.slots| == PROCESS_MAX && Sound(b.queue) && Allocated(b.queue, b.gdt)
  {
  }

  /** Creating a process and destroying it before it runs leaves the books as they were and the
      memory account empty: only the kernel heap may have grown. */
  lemma DestroyUndoesCreate(b0: Books, b: Books, b': Books, base: Supply, s: Supply, t: Supply, q: Pieces, dir: Frame, mapped: set<Frame>)
    requires Billed(b0, b, q, true) && Holding(base, s, dir, mapped, {}) && dir != 0
    requires 0 !in s.dirs && forall u | u in s.user :: s.user[u].0 in s.dirs
    requires b' == Settled(b, q) && SpaceDropped(s, t, dir)
    ensures b' == b0 && Holding(base, t, 0, {}, {})
  {
    SettledIsRestored(b0, b, q, true);
    HoldDrop(base, s, t, dir, mapped);
  }

  /** Destroying one process leaves an unrelated one destroyable. */
  lemma StillDestroyable(b: Books, r: Pieces, q: Pieces)
    requires InOrder(b) && Destroyable(b, r) && !Refused(b, r) && Destroyable(b, q)
    requires Payloads(r) !! Payloads(q) && Entries(r) !! Entries(q)
    ensures Destroyable(Settled(b, r), q) && Settled(b, r).queue.loaded == b.queue.loaded && Settled(b, r).queue.current == b.queue.current
  {
    if r.tssSelector != 0 { RemovalSound(b.queue, r.tssSelector); }
    hide Sound, NonZero, Removal, Payloads, Entries;
  }

  /** A loaded process task has an index of its own. */
  lemma RunningIndex(b: Books, q: Pieces)
    requires InOrder(b) && Destroyable(b, q) && q.tssSelector == b.queue.loaded != 0
    ensures b.queue.current < MAX_TASKS
  {
    hide NonZero, Occupied;
  }

  /** After the running task left the run table it can be destroyed. */
  lemma LeavesDoomed(b: Books, q: Pieces)
    requires InOrder(b) && Destroyable(b, q) && q.tssSelector == b.queue.loaded != 0
    ensures b.queue.current < MAX_TASKS
    ensures
      match Leave(b.queue)
      case None => true
      case Some(s) => InOrder(b.(queue := s)) && Destroyable(b.(queue := s), q) && !Refused(b.(queue := s), q)
  {
    RunningIndex(b, q);
    LeaveSound(b.queue);
    if Leave(b.queue).Some? {
      var s := Leave(b.queue).value;
      QueueShrinks(b.queue, s);
      hide Sound, NonZero, Leave, Payloads, Apart;
      RefusedIffRunning(b.(queue := s), q);
    }
  }

  lemma QueueShrinks(s: Sched, t: Sched)
    requires s.current < MAX_TASKS && t.run == s.run[s.current := 0]
    ensures NonZero(t.run) <= NonZero(s.run)
  {
    forall x | x in NonZero(t.run) ensures x in NonZero(s.run) {
      var i :| 0 <= i < MAX_TASKS && t.run[i] != 0 && t.run[i] == x;
      assert s.run[i] == x;
    }
  }

  lemma StillThere(s: Supply, t: Supply, gone: Frame, dir: Frame)
    requires SpaceDropped(s, t, gone) && (gone == 0 || gone != dir) && (dir != 0 ==> dir in s.dirs)
    ensures dir != 0 ==> dir in t.dirs
  {
    hide SameWalks, DirsKept, FramesFreed;
  }

  lemma SettledQueue(b: Books, q: Pieces)
    ensures Settled(b, q).queue == Removal(b.queue, q.tssSelector).0
  {
  }

  lemma QueueInOrder(b: Books)
    requires InOrder(b)
    ensures Sound(b.queue) && TaskIndex(b.queue.current)
  {
  }

  /** Switching tasks keeps the books in order. */
  lemma SwitchInOrder(b: Books)
    requires InOrder(b)
    ensures TaskIndex(b.queue.current) && InOrder(b.(queue := Switch(b.queue)))
  {
    SwitchSound(b.queue);
    hide Sound;
  }

  lemma SpaceIsDropped(s: Supply, t: Supply, dir: Frame)
    ensures SpaceDropped(s, t, dir) <==> if dir == 0 then t == s else Dropped(s, t, dir)
  {
  }

  lemma RefusedMeans(b: Books, q: Pieces)
    ensures Refused(b, q) <==> !Removal(b.queue, q.tssSelector).1
  {
  }

  lemma DestroyableParts(b: Books, q: Pieces)
    requires Destroyable(b, q)
    ensures Apart(q) && Payloads(q) <= b.live.Keys && GoodSelector(q.tssSelector) && GoodSelector(q.ldtSelector) && q.address != 0
  {
  }

  lemma TaskGoneLive(b: Books, q: Pieces)
    requires Apart(q) && Payloads(q) <= b.live.Keys
    ensures SpaceHeld(q, TaskGone(b, q).live)
  {
    Separate(q, b.live);
  }

  lemma GoodEntry(sel: u16)
    requires GoodSelector(sel)
    ensures if sel == 0 then Entry8(sel) == {} else Entry8(sel) == {sel / 8} && sel / 4 % 2 == 0 && GDT_FIRST <= sel / 8 < GDT_COUNT
  {
  }

  lemma NoPayload(ptr: u32, live: map<int, int>)
    ensures One(ptr) == (if ptr == 0 then {} else {ptr as int}) && live - {} == live
  {
  }

  lemma Sizes()
    ensures 0 < LDT_SIZE <= LARGEST_REQUEST && 0 < LDT_BITMAP_SIZE <= LARGEST_REQUEST && 0 < TSS_OBJECT_SIZE <= LARGEST_REQUEST
    ensures 0 < PAGE_BYTES <= LARGEST_REQUEST && PROCESS_MAX == 100 && NONE > 100
  {
  }

  /** The pages that are asked for when a piece does not fit. */
  lemma PagesAsked()
    ensures 0 < PROC_MEM_SIZE <= LARGEST_REQUEST && PROC_MEM_SIZE <= 0x1000 && LDT_SIZE <= 0x1000 && LDT_BITMAP_SIZE <= 0x1000
    ensures TSS_OBJECT_SIZE <= 0x1000 && PAGE_BYTES <= 0x1000
    ensures PagesFor(Rounded(PROC_MEM_SIZE)) == 1 && PagesFor(Rounded(LDT_SIZE)) == 2 && PagesFor(Rounded(LDT_BITMAP_SIZE)) == 1
    ensures PagesFor(Rounded(TSS_OBJECT_SIZE)) == 1 && PagesFor(Rounded(PAGE_BYTES)) == 2
  {
  }

  lemma BelowTop(ptr: u32)
    requires ptr <= KHEAP_LIMIT
    ensures ptr + PAGE_BYTES < 0x1_0000_0000
  {
  }

  lemma UserHeapAddress()
    ensures USER_HEAP_BASE < USER_LIMIT && USER_HEAP_BASE % 0x1000 == 0 && USER_HEAP_BASE / 0x40_0000 == 1
  {
  }

  lemma GatewayAddress()
    ensures GATEWAY_PAGE < USER_LIMIT && GATEWAY_PAGE % 0x1000 == 0 && GATEWAY_PAGE / 0x40_0000 == 511
    ensures (PRESENT_USER | OWNED_BIT) & 0x200 != 0
  {
    OwnedFlags();
  }

  lemma SelectorOf(index: nat)
    requires GDT_FIRST <= index < GDT_COUNT
    ensures 0 < index * 8 < 0x1_0000 && index * 8 / 8 == index && GoodSelector(index * 8)
  {
  }

  lemma OwnerAllocated(b: Books)
    requires InOrder(b)
    ensures b.owner == 0 || TakenSelector(b.gdt, b.owner)
  {
  }

  lemma LiveInWindow(heap: Heap, ptr: u32)
    requires Ready(heap) && ptr in Live(heap.blocks, 0)
    ensures ptr <= KHEAP_LIMIT
  {
    LiveBounds(heap.blocks, 0);
  }

  lemma OwnedFlags()
    ensures (PRESENT_RW_USER | OWNED_BIT) & 0x200 != 0 && (PRESENT_USER | OWNED_BIT) & 0x200 != 0
    ensures (PRESENT_RW_USER | OWNED_BIT) | PRESENT_USER == OWNED_RW && (PRESENT_USER | OWNED_BIT) | PRESENT_USER == OWNED_RO
    ensures map[][USER_HEAP_BASE / 0x1000 := OWNED_RW] == HeapLayout() && GATEWAY_PAGE / 0x1000 !in HeapLayout()
    ensures forall layout :: WithGateway(layout) == layout[GATEWAY_PAGE / 0x1000 := OWNED_RO]
  {
  }

  lemma NoneObtained(live: map<int, int>, live': map<int, int>, ptr: u32, size: u32)
    requires Obtained(live, live', ptr, size)
    ensures if ptr == 0 then live' == live else ptr !in live && ptr in live' && live' - {ptr} == live && live' == live[ptr := live'[ptr]]
  {
  }
}
