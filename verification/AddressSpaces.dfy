/** The building blocks of process construction over the kernel heap, the page manager and the
    page tables: each step keeps the account of what the process under construction holds. */
module AddressSpaces {
  import opened MachineWords
  import opened FrameAllocator
  import opened PageSpec
  import opened PoolCounts
  import opened Paging
  import opened HeapBlocks
  import opened HeapGrowth
  import opened KernelHeap
  import opened HeapRuns
  import opened ProcessMemory
  import opened ProcessSpaces

  const TEMP_ADDRESS: u32 := 0x8080_0000

  ghost predicate TempReady(m: Memory) {
    KERNEL_DIR in m && !(Present(m[KERNEL_DIR][TEMP_SLOT]) && Large(m[KERNEL_DIR][TEMP_SLOT]))
  }

  ghost predicate Ready(heap: Heap)
    reads heap, heap.mem, heap.pmm, heap.pmm.bitmap, heap.tables
  {
    heap.Valid() && TempReady(heap.tables.pages)
  }

  /** The kernel directory's words for the heap window and the temporary page. */
  ghost predicate KernelReady(m: Memory, committed: bool) {
    TempReady(m) && !(Present(m[KERNEL_DIR][HEAP_SLOT]) && Large(m[KERNEL_DIR][HEAP_SLOT])) &&
    (committed ==> Present(m[KERNEL_DIR][HEAP_SLOT]))
  }

  /** What readiness asks of everything but the page tables. */
  ghost predicate RestReady(heap: Heap)
    reads heap, heap.mem, heap.pmm, heap.pmm.bitmap
  {
    heap.Shape() && Normal(heap.blocks) && heap.FramesReady()
  }

  /** Readiness, piece by piece. */
  lemma ReadyParts(heap: Heap)
    ensures Ready(heap) <==>
      RestReady(heap) && heap.tables.Valid() && KernelReady(heap.tables.pages, heap.blocks != [])
  {
  }

  /** The account of the process under construction. */
  ghost predicate Account(heap: Heap, base: Supply, dir: Frame, mapped: set<Frame>, loose: set<Frame>)
    reads heap`blocks, heap`backing, heap.pmm.bitmap, heap.tables
  {
    Holding(base, heap.Supplies(), dir, mapped, loose)
  }

  lemma SuppliesAre(heap: Heap)
    ensures heap.Supplies() == Supply(heap.tables.pages, heap.tables.dirs, UserPart(heap.tables.home), heap.pmm.bitmap[..],
                                      heap.backing, Span(heap.blocks) / PAGE_GRANULES)
  {
  }

  lemma AccountMeans(heap: Heap, base: Supply, dir: Frame, mapped: set<Frame>, loose: set<Frame>)
    ensures Account(heap, base, dir, mapped, loose) <==> Holding(base, heap.Supplies(), dir, mapped, loose)
  {
  }

  /** Supplies of a heap in order: what the accounting lemmas need to know. */
  lemma SupplyFacts(heap: Heap)
    requires Ready(heap)
    ensures
      var s := heap.Supplies();
      InShape(s) && KERNEL_DIR in s.dirs && 0 !in s.dirs && s.dirs <= s.memory.Keys && |s.bits| == FRAME_COUNT &&
      forall t | t in s.user :: s.user[t].0 in s.dirs
  {
  }

  // ---- What is left to take ----

  /** Frames, pages of the heap window, and pool pages, as `Frames`, `Window` and `Tables` count them. */
  datatype Reserve = Reserve(frames: int, window: int, tables: int)

  ghost function Stock(heap: Heap): Reserve
    reads heap`blocks, heap`backing, heap.pmm.bitmap, heap.tables
  {
    StockOf(heap.Supplies())
  }

  ghost function StockOf(s: Supply): Reserve {
    Reserve(Frames(s), Window(s), Tables(s))
  }

  lemma StockIs(heap: Heap)
    ensures Stock(heap) == StockOf(heap.Supplies())
  {
  }

  lemma StockParts(s: Supply)
    ensures StockOf(s) == Reserve(Frames(s), Window(s), Tables(s))
  {
  }

  /** What `map_user_page` finds in a slot of `dir`: no word, one it may not touch, or another. */
  datatype SlotUse = Vacant | Blocked | InUse

  ghost function UseOf(m: Memory, dir: Frame, slot: nat): SlotUse {
    if slot >= 1024 || dir !in m then InUse
    else if !Present(m[dir][slot]) then Vacant
    else if !User(m[dir][slot]) then Blocked else InUse
  }

  /** A directory has a table to be had as long as one is left beyond the kernel's two. */
  lemma PoolHasTable(heap: Heap)
    requires Ready(heap)
    ensures Stock(heap).tables >= 1 ==> !heap.tables.Exhausted()
    ensures Stock(heap).tables >= 0 ==> Present(heap.tables.pages[KERNEL_DIR][TEMP_SLOT]) || !heap.tables.Exhausted()
  {
    var t := heap.tables;
    PoolLeft(t.pages, t.freeList, t.next, t.free, t.dirs, t.home);
    hide TablesLeft, Sharing, PoolAccounts, UserPart, Normal, Heap.Shape, Frames, Window, HintSound;
  }

  /** Something is mapped at the temporary address. */
  ghost predicate TempInUse(m: Memory) {
    KERNEL_DIR in m && Walk(m, KERNEL_DIR, TEMP_PAGE).SmallPage?
  }

  /** map_page of a frame at the temporary address. */
  method MapTemp(heap: Heap, phys: u32, ghost base: Supply, ghost dir: Frame, ghost mapped: set<Frame>, ghost loose: set<Frame>)
    returns (ok: bool)
    requires Ready(heap) && Account(heap, base, dir, mapped, loose)
    modifies heap.tables
    ensures Ready(heap) && Account(heap, base, dir, mapped, loose) && heap.tables.dirs == old(heap.tables.dirs)
    ensures ok ==> TempInUse(heap.tables.pages)
    ensures SameDirectory(old(heap.tables.pages), heap.tables.pages, dir)
    ensures Stock(heap) == old(Stock(heap)) && (old(Stock(heap)).tables >= 0 ==> ok)
  {
    hide *;
    SuppliesAre(heap);
    ghost var s := heap.Supplies();
    PoolHasTable(heap);
    StockIs(heap);
    ReadyParts(heap);
    TempAddress(s.memory, heap.blocks != []);
    SupplyFacts(heap);
    AccountMeans(heap, base, dir, mapped, loose);
    ok := heap.tables.MapPage(TEMP_ADDRESS, phys, PRESENT_RW);
    SuppliesAre(heap);
    TempOutcome(base, s, heap.Supplies(), dir, mapped, loose, phys / 0x1000, heap.blocks != [], ok);
    AccountMeans(heap, base, dir, mapped, loose);
    ReadyParts(heap);
    StockIs(heap);
  }

  lemma TempAddress(m: Memory, committed: bool)
    requires KernelReady(m, committed)
    ensures KERNEL_DIR in m && TEMP_ADDRESS / 0x40_0000 == TEMP_SLOT && TEMP_ADDRESS / 0x1000 == TEMP_PAGE
    ensures !(Present(m[KERNEL_DIR][TEMP_SLOT]) && Large(m[KERNEL_DIR][TEMP_SLOT]))
  {
  }

  lemma HoldSame(base: Supply, s: Supply, dir: Frame, mapped: set<Frame>, loose: set<Frame>)
    requires Holding(base, s, dir, mapped, loose)
    ensures SameDirectory(s.memory, s.memory, dir)
  {
  }

  /** What map_page at the temporary address leaves, mapped or not. */
  lemma TempOutcome(base: Supply, s: Supply, t: Supply, dir: Frame, mapped: set<Frame>, loose: set<Frame>, f: Frame, committed: bool, ok: bool)
    requires Holding(base, s, dir, mapped, loose) && KernelReady(s.memory, committed)
    requires if ok then t == s.(memory := t.memory) else t == s
    requires ok ==> KERNEL_DIR in s.dirs && KernelSlotOnly(s.memory, t.memory, s.dirs, TEMP_SLOT)
    requires ok ==> SharedWalkChanged(s.memory, t.memory, s.dirs, KERNEL_DIR, TEMP_PAGE, Entry(f, PRESENT_RW | PRESENT_RW))
    requires ok ==> KERNEL_DIR in t.memory && PointsToTable(t.memory[KERNEL_DIR][TEMP_SLOT])
    ensures Holding(base, t, dir, mapped, loose) && SameDirectory(s.memory, t.memory, dir) && KernelReady(t.memory, committed)
    ensures (ok ==> TempInUse(t.memory)) && StockOf(t) == StockOf(s)
  {
    hide *;
    if ok {
      TempMapped(s, t, f, committed);
      HoldTemp(base, s, t, dir, mapped, loose);
      TempCostsNothing(s, t);
    } else {
      HoldSame(base, s, dir, mapped, loose);
    }
  }

  lemma TempCostsNothing(s: Supply, t: Supply)
    requires TempChanged(s, t)
    ensures StockOf(t) == StockOf(s)
  {
    SameKernelTables(s.memory[KERNEL_DIR], t.memory[KERNEL_DIR], 1024);
    hide KernelTables;
  }

  lemma TempMapped(s: Supply, t: Supply, f: Frame, committed: bool)
    requires t == s.(memory := t.memory) && KERNEL_DIR in s.dirs && KernelSlotOnly(s.memory, t.memory, s.dirs, TEMP_SLOT)
    requires SharedWalkChanged(s.memory, t.memory, s.dirs, KERNEL_DIR, TEMP_PAGE, Entry(f, PRESENT_RW | PRESENT_RW))
    requires KERNEL_DIR in t.memory && PointsToTable(t.memory[KERNEL_DIR][TEMP_SLOT]) && KernelReady(s.memory, committed)
    ensures TempChanged(s, t) && TempInUse(t.memory) && KernelReady(t.memory, committed)
  {
    assert TEMP_PAGE / 1024 == TEMP_SLOT && Present(Entry(f, PRESENT_RW | PRESENT_RW));
    assert Reaches(t.memory, KERNEL_DIR, KERNEL_DIR, TEMP_SLOT);
  }

  /** unmap_page of the temporary address: it was just mapped, so this cannot fail. */
  method UnmapTemp(heap: Heap, ghost base: Supply, ghost dir: Frame, ghost mapped: set<Frame>, ghost loose: set<Frame>)
    requires Ready(heap) && Account(heap, base, dir, mapped, loose)
    requires TempInUse(heap.tables.pages)
    modifies heap.tables
    ensures Ready(heap) && Account(heap, base, dir, mapped, loose) && heap.tables.dirs == old(heap.tables.dirs)
    ensures SameDirectory(old(heap.tables.pages), heap.tables.pages, dir) && Stock(heap) == old(Stock(heap))
  {
    hide *;
    SuppliesAre(heap);
    StockIs(heap);
    ghost var s := heap.Supplies();
    ReadyParts(heap);
    TempAddress(s.memory, heap.blocks != []);
    TempIsMapped(s.memory);
    SupplyFacts(heap);
    AccountMeans(heap, base, dir, mapped, loose);
    var phys := heap.tables.UnmapPage(KERNEL_DIR, TEMP_ADDRESS);
    SuppliesAre(heap);
    DirsSame(s.memory, heap.tables.pages, s.dirs);
    WordsKept(s.memory, heap.tables.pages, s.dirs, heap.blocks != []);
    TempUnmapped(s, heap.Supplies());
    TempCostsNothing(s, heap.Supplies());
    StockIs(heap);
    HoldTemp(base, s, heap.Supplies(), dir, mapped, loose);
    AccountMeans(heap, base, dir, mapped, loose);
    ReadyParts(heap);
  }

  lemma TempIsMapped(m: Memory)
    requires TempInUse(m)
    ensures KERNEL_DIR in m && Walk(m, KERNEL_DIR, TEMP_PAGE).SmallPage?
  {
  }

  lemma DirsSame(m: Memory, m': Memory, dirs: set<Frame>)
    requires dirs <= m.Keys && dirs <= m'.Keys && forall d | d in dirs :: m'[d] == m[d]
    ensures DirsKept(m, m', dirs)
  {
  }

  lemma TempUnmapped(s: Supply, t: Supply)
    requires t == s.(memory := t.memory) && KERNEL_DIR in s.dirs && DirsKept(s.memory, t.memory, s.dirs)
    requires SharedWalkChanged(s.memory, t.memory, s.dirs, KERNEL_DIR, TEMP_PAGE, ZERO)
    ensures TempChanged(s, t)
  {
  }

  lemma WordsKept(m: Memory, m': Memory, dirs: set<Frame>, committed: bool)
    requires KERNEL_DIR in dirs && DirsKept(m, m', dirs) && KernelReady(m, committed)
    ensures KernelReady(m', committed)
  {
  }

  /** A frame that no page reaches yet is written through the temporary page. */
  method FillFrame(heap: Heap, phys: u32, ghost base: Supply, ghost dir: Frame, ghost mapped: set<Frame>, ghost loose: set<Frame>)
    returns (ok: bool)
    requires Ready(heap) && Account(heap, base, dir, mapped, loose)
    modifies heap.tables
    ensures Ready(heap) && Account(heap, base, dir, mapped, loose) && heap.tables.dirs == old(heap.tables.dirs)
    ensures SameDirectory(old(heap.tables.pages), heap.tables.pages, dir)
    ensures Stock(heap) == old(Stock(heap)) && (Stock(heap).tables >= 0 ==> ok)
  {
    hide *;
    ghost var m := heap.tables.pages;
    ok := MapTemp(heap, phys, base, dir, mapped, loose);
    if ok {
      ghost var m' := heap.tables.pages;
      UnmapTemp(heap, base, dir, mapped, loose);
      SameTwice(m, m', heap.tables.pages, dir);
    }
  }

  lemma SameTwice(m: Memory, m': Memory, m'': Memory, dir: Frame)
    requires SameDirectory(m, m', dir) && SameDirectory(m', m'', dir)
    ensures SameDirectory(m, m'', dir)
  {
  }

  /** heap_alloc for process data. */
  method Obtain(heap: Heap, size: u32, ghost base: Supply, ghost dir: Frame, ghost mapped: set<Frame>, ghost loose: set<Frame>)
    returns (ptr: u32)
    requires Ready(heap) && Account(heap, base, dir, mapped, loose) && 0 < size <= LARGEST_REQUEST
    modifies heap, heap.mem, heap.pmm, heap.pmm.bitmap, heap.tables
    ensures Ready(heap) && Account(heap, base, dir, mapped, loose) && heap.tables.dirs == old(heap.tables.dirs)
    ensures SameDirectory(old(heap.tables.pages), heap.tables.pages, dir)
    ensures Obtained(Live(old(heap.blocks), 0), Live(heap.blocks, 0), ptr, size)
    ensures
      var had, pages := old(Stock(heap)), PagesFor(Rounded(size));
      size <= 0x1000 && had.frames >= pages && had.window >= pages && had.tables >= 0 ==>
        ptr != 0 && Stock(heap).frames >= had.frames - pages && Stock(heap).window >= had.window - pages && Stock(heap).tables == had.tables
    ensures KernelWordsKept(old(heap.tables.pages), heap.tables.pages)
  {
    hide *;
    SuppliesAre(heap);
    ghost var s, start := heap.Supplies(), heap.blocks;
    ghost var grown;
    StockIs(heap);
    StockParts(s);
    ReadyMeans(heap);
    SpanIsWhole(heap);
    EnoughSmall(size);
    AccountMeans(heap, base, dir, mapped, loose);
    ptr, grown := heap.Alloc(size);
    heap.ProgressParts(start, old(heap.mem[..]), s);
    TempStays(s, heap.Supplies());
    SuppliesAre(heap);
    ReadyMeans(heap);
    HoldGrew(base, s, heap.Supplies(), dir, mapped, loose);
    AccountMeans(heap, base, dir, mapped, loose);
    ObtainedOne(start, size, grown, heap.blocks, ptr);
    StockIs(heap);
    StockParts(heap.Supplies());
    SpanIsWhole(heap);
    ReadyMeans(heap);
    GrantCosts(start, size, grown, heap.blocks, ptr, s, heap.Supplies());
    WindowIs(s);
    WindowIs(heap.Supplies());
    if heap.Dry() { DryMeans(heap); }
  }

  lemma WindowIs(s: Supply)
    ensures Window(s) == 1024 - s.pages
  {
  }

  lemma ReadyMeans(heap: Heap)
    ensures Ready(heap) <==> heap.Valid() && TempReady(heap.tables.pages)
    ensures heap.Valid() ==> Normal(heap.blocks)
  {
  }

  lemma EnoughSmall(size: u32)
    ensures 0 < size <= 0x1000 ==> Enough(size)
  {
  }

  /** Directory words of the kernel that user space could share. */
  ghost predicate KernelWordsKept(m: Memory, m': Memory) {
    KERNEL_DIR in m && KERNEL_DIR in m' && forall i | 0 <= i < 512 :: m'[KERNEL_DIR][i] == m[KERNEL_DIR][i]
  }

  lemma SharedKept(m: Memory, m': Memory)
    requires KernelWordsKept(m, m')
    ensures forall i | 0 <= i < 512 :: Shared(m', i) == Shared(m, i)
    ensures Shared(m', 1) == Shared(m, 1) && Shared(m', 511) == Shared(m, 511)
  {
  }

  lemma OpenAt(m: Memory, m': Memory, dir: Frame)
    requires OpenDirectory(m, m', dir)
    ensures if Shared(m, 1) then UseOf(m', dir, 1).Blocked? else UseOf(m', dir, 1).Vacant?
    ensures if Shared(m, 511) then UseOf(m', dir, 511).Blocked? else UseOf(m', dir, 511).Vacant?
  {
    hide Shared, UseOf;
    assert SlotOpened(m, m', dir, 1) && SlotOpened(m, m', dir, 511);
  }

  lemma SpanIsWhole(heap: Heap)
    requires heap.Valid()
    ensures heap.Supplies().pages == Span(heap.blocks) / PAGE_GRANULES && Span(heap.blocks) % PAGE_GRANULES == 0
    ensures heap.committed == Addr(Span(heap.blocks)) && |heap.Supplies().bits| == FRAME_COUNT
  {
  }

  /** A dry supply has run out of something. */
  lemma DryMeans(heap: Heap)
    requires Ready(heap) && heap.Dry()
    ensures Stock(heap).frames == 0 || Stock(heap).window <= 0 || Stock(heap).tables < 0
  {
    StockIs(heap);
    StockParts(heap.Supplies());
    SpanIsWhole(heap);
    NoFrames(heap.Supplies());
    heap.NoTableMeans();
    hide NoneFree, Tables, Frames, Normal, UserPart, Consistent, HintSound;
  }

  /** What a request costs: at most the pages it asks for, and fewer when it fails. */
  lemma GrantCosts(start: seq<Block>, size: u32, grown: nat, now: seq<Block>, ptr: u32, s: Supply, t: Supply)
    requires AllocOutcome(start, size, grown, now, ptr) && 0 < size && Grew(s, t)
    requires s.pages == Span(start) / PAGE_GRANULES && t.pages == Span(now) / PAGE_GRANULES
    ensures Tables(t) == Tables(s) && t.pages == s.pages + grown && KernelWordsKept(s.memory, t.memory)
    ensures Enough(size) ==> if ptr == 0 then grown < PagesFor(Rounded(size)) else grown <= PagesFor(Rounded(size))
    ensures Tables(s) >= 0 ==> Frames(t) >= Frames(s) - grown
  {
    OutcomePages(start, size, grown, now, ptr);
    GrowthCosts(s, t);
    hide AllocOutcome, Frames, Tables, Span, PagesFor, Rounded, Enough;
  }

  lemma OutcomePages(start: seq<Block>, size: u32, grown: nat, now: seq<Block>, ptr: u32)
    requires AllocOutcome(start, size, grown, now, ptr) && 0 < size
    ensures Span(now) == Span(start) + grown * PAGE_GRANULES
    ensures Enough(size) ==> if ptr == 0 then grown < PagesFor(Rounded(size)) else grown <= PagesFor(Rounded(size))
  {
    GrowBySpan(start, grown);
    var g := GrowBy(start, grown);
    if ptr != 0 { FitOrNot(g, Rounded(size) / 8, now, ptr); }
    RoundingFacts(size);
    hide GrowBy, Span, FitTaken, PagesFor, Rounded;
  }

  lemma {:induction false} GrowBySpan(bs: seq<Block>, k: nat)
    ensures Span(GrowBy(bs, k)) == Span(bs) + k * PAGE_GRANULES
    decreases k
  {
    if k > 0 {
      GrowBySpan(bs, k - 1);
      var g := GrowBy(bs, k - 1);
      MergeKeepsSpan(g + [Block(PAGE_GRANULES - 2, false)]);
      SpanPages(g);
      hide Merge, Span;
    }
  }

  lemma TempStays(s: Supply, t: Supply)
    requires Grew(s, t) && TempReady(s.memory)
    ensures TempReady(t.memory) && t.dirs == s.dirs
  {
  }

  /** One more live payload of at least `size` bytes, or none. */
  ghost predicate Obtained(live: map<int, int>, live': map<int, int>, ptr: u32, size: u32) {
    if ptr == 0 then live' == live
    else ptr !in live && ptr in live' && live' == live[ptr := live'[ptr]] && size <= live'[ptr] < size + 32
  }

  lemma ObtainedOne(s: seq<Block>, size: u32, grown: nat, s': seq<Block>, ptr: u32)
    requires Normal(s) && AllocOutcome(s, size, grown, s', ptr) && size <= LARGEST_REQUEST
    ensures Obtained(Live(s, 0), Live(s', 0), ptr, size)
  {
    AllocAddsOne(s, size, grown, s', ptr);
  }

  /** heap_free of a live payload. */
  method Return(heap: Heap, ptr: u32)
    requires Ready(heap) && ptr in Live(heap.blocks, 0)
    modifies heap`blocks, heap.mem
    ensures Ready(heap) && heap.Supplies() == old(heap.Supplies())
    ensures Live(heap.blocks, 0) == Live(old(heap.blocks), 0) - {ptr}
  {
    LiveIsFreeable(heap, ptr);
    ghost var start := heap.blocks;
    hide Heap.Shape, Normal, Heap.Backed, Heap.Supplies, Consistent, HintSound, UserPart, Live, Freed, Heap.Freeable;
    heap.Free(ptr);
    FreeDropsOne(start, ptr, heap.blocks);
  }

  lemma LiveIsFreeable(heap: Heap, ptr: u32)
    requires heap.Valid() && ptr in Live(heap.blocks, 0)
    ensures heap.Freeable(ptr)
  {
    LiveBounds(heap.blocks, 0);
    hide Live, Span, Normal, Heap.Supplied;
  }

  /** pmm_alloc_page for the process. */
  method TakeFrame(heap: Heap, ghost base: Supply, ghost dir: Frame, ghost mapped: set<Frame>) returns (phys: u32)
    requires Ready(heap) && Account(heap, base, dir, mapped, {})
    modifies heap.pmm`next, heap.pmm.bitmap
    ensures Ready(heap) && phys % 0x1000 == 0
    ensures Account(heap, base, dir, mapped, if phys == 0 then {} else {phys / 0x1000})
    ensures phys != 0 <==> old(Stock(heap)).frames >= 1
    ensures Stock(heap) == if phys == 0 then old(Stock(heap)) else old(Stock(heap)).(frames := Stock(heap).frames)
    ensures Stock(heap).frames >= old(Stock(heap)).frames - 1
  {
    hide *;
    SuppliesAre(heap);
    ghost var s := heap.Supplies();
    StockIs(heap);
    StockParts(s);
    FramesApart(heap);
    NoFrames(s);
    AccountMeans(heap, base, dir, mapped, {});
    phys := heap.TakeFrame();
    SuppliesAre(heap);
    StockIs(heap);
    StockParts(heap.Supplies());
    WindowIs(s);
    WindowIs(heap.Supplies());
    FramesApart(heap);
    AccountMeans(heap, base, dir, mapped, {});
    if phys != 0 {
      FrameSpent(s, heap.Supplies(), phys / 0x1000);
      HoldTake(base, s, heap.Supplies(), dir, mapped, phys / 0x1000);
      AccountMeans(heap, base, dir, mapped, {phys / 0x1000});
    }
  }

  /** Readiness for the page manager alone. */
  lemma FramesApart(heap: Heap)
    ensures Ready(heap) <==> RestReady(heap) && heap.tables.Valid() && KernelReady(heap.tables.pages, heap.blocks != [])
    ensures RestReady(heap) <==> heap.Shape() && Normal(heap.blocks) && heap.FramesReady()
    ensures heap.FramesReady() ==> heap.pmm.Valid() && |heap.pmm.bitmap[..]| == FRAME_COUNT
  {
    ReadyParts(heap);
  }

  lemma FrameSpent(s: Supply, t: Supply, f: Frame)
    requires t == s.(bits := t.bits) && FramesTaken(s.bits, t.bits, {f})
    ensures Frames(t) >= Frames(s) - 1 && Tables(t) == Tables(s)
  {
    FramesUsed(s.bits, t.bits, {f});
    hide FramesTaken, TablesLeft;
  }

  /** pmm_free_page of a frame that never got mapped. */
  method ReleaseFrame(heap: Heap, phys: u32, ghost base: Supply, ghost dir: Frame, ghost mapped: set<Frame>)
    requires Ready(heap) && phys >= 0x1000 && Account(heap, base, dir, mapped, {phys / 0x1000})
    modifies heap.pmm`next, heap.pmm.bitmap
    ensures Ready(heap) && Account(heap, base, dir, mapped, {})
  {
    ghost var s := heap.Supplies();
    FreeFacts(heap.pmm.State(), phys);
    hide Holding, Heap.Shape, Normal, Consistent, HintSound, UserPart, FreeStep, FramesFreed;
    heap.pmm.FreePage(phys);
    HoldRelease(base, s, heap.Supplies(), dir, mapped, phys / 0x1000);
  }

  lemma FreeFacts(s: PmmState, phys: u32)
    requires HintSound(s) && s.used[0] && phys >= 0x1000
    ensures HintSound(FreeStep(s, phys)) && FreeStep(s, phys).used[0]
    ensures FramesFreed(s.used, FreeStep(s, phys).used, {phys / 0x1000})
  {
    HintStaysSound(s, Free(phys));
  }

  /** The kernel keeps this slot of its directory for itself, in every address space. */
  ghost predicate Shared(m: Memory, slot: nat) {
    slot < 1024 && KERNEL_DIR in m && Present(m[KERNEL_DIR][slot]) && !User(m[KERNEL_DIR][slot])
  }

  /** create_page_directory for the process. */
  method NewDirectory(heap: Heap, ghost base: Supply) returns (dir: Frame)
    requires Ready(heap) && Account(heap, base, 0, {}, {})
    modifies heap.tables
    ensures Ready(heap) && Account(heap, base, dir, {}, {})
    ensures dir != 0 ==> dir in heap.tables.dirs && dir != KERNEL_DIR && UserPages(heap.tables.pages, dir, map[])
    ensures old(Stock(heap)).tables >= 1 ==> dir != 0
    ensures Stock(heap) == old(Stock(heap)).(tables := old(Stock(heap)).tables - if dir == 0 then 0 else 1)
    ensures dir != 0 ==> OpenDirectory(old(heap.tables.pages), heap.tables.pages, dir)
  {
    hide *;
    SuppliesAre(heap);
    ghost var s := heap.Supplies();
    SupplyFacts(heap);
    ReadyParts(heap);
    PoolHasTable(heap);
    StockIs(heap);
    AccountMeans(heap, base, 0, {}, {});
    dir := heap.tables.CreateDirectory();
    SuppliesAre(heap);
    WordsKept(s.memory, heap.tables.pages, s.dirs, heap.blocks != []);
    if dir != 0 {
      DirectoryOf(heap, dir);
      HoldDirectory(base, s, heap.Supplies(), dir);
      DirectoryCosts(s, heap.Supplies(), dir);
    }
    StockIs(heap);
    StockParts(s);
    AccountMeans(heap, base, dir, {}, {});
    ReadyParts(heap);
  }

  /** A new directory has entries exactly where the kernel keeps one for itself. */
  ghost predicate OpenDirectory(m: Memory, m': Memory, dir: Frame) {
    forall i | 0 < i < 512 :: SlotOpened(m, m', dir, i)
  }

  ghost predicate SlotOpened(m: Memory, m': Memory, dir: Frame, slot: nat) {
    if Shared(m, slot) then UseOf(m', dir, slot).Blocked? else UseOf(m', dir, slot).Vacant?
  }

  lemma DirectoryOf(heap: Heap, dir: Frame)
    requires heap.tables.Valid() && dir in heap.tables.dirs
    ensures dir in heap.tables.pages && dir != 0
  {
  }

  lemma DirectoryCosts(s: Supply, t: Supply, dir: Frame)
    requires t == s.(memory := t.memory, dirs := s.dirs + {dir}) && dir !in s.dirs && DirsKept(s.memory, t.memory, s.dirs)
    requires KERNEL_DIR in s.dirs && KERNEL_DIR in t.memory && dir in t.memory
    requires forall i | 0 <= i < 1024 :: t.memory[dir][i] == Inherited(t.memory[KERNEL_DIR], i)
    ensures StockOf(t) == StockOf(s).(tables := StockOf(s).tables - 1) && OpenDirectory(s.memory, t.memory, dir)
  {
    hide KernelTables;
  }

  /** destroy_page_directory for a process: its frames, tables and directory go back. */
  method RetireDirectory(heap: Heap, dir: Frame)
    requires Ready(heap) && dir in heap.tables.dirs && dir != KERNEL_DIR
    modifies heap.tables, heap.pmm`next, heap.pmm.bitmap
    ensures Ready(heap) && Dropped(old(heap.Supplies()), heap.Supplies(), dir)
  {
    ghost var s, home := heap.Supplies(), heap.tables.home;
    SupplyFacts(heap);
    UserOfWithout(home, dir);
    ReadyParts(heap);
    hide Heap.Shape, Normal, Span, Ready, Consistent, HintSound, UserPart, SameWalks, FramesFreed, TablesKept, FreeListGained, HomeWithout,
         DirsKept, KernelReady, OwnedFrames;
    heap.tables.DestroyDirectory(heap.pmm, dir);
    KeptIsMember(s.memory, heap.tables.pages, s.dirs, dir);
    WordsKept(s.memory, heap.tables.pages, heap.tables.dirs, heap.blocks != []);
    FirstFrameStays(s.memory, dir, s.bits, heap.pmm.bitmap[..]);
    ReadyParts(heap);
  }

  lemma KeptIsMember(m: Memory, m': Memory, dirs: set<Frame>, dir: Frame)
    requires dir in dirs && dirs <= m.Keys
    ensures dir in m && OwnedFrames(m, dir) == DirectoryFrames(m, dir, 512)
  {
  }

  lemma UserOfWithout(home: map<Frame, (Frame, nat)>, dir: Frame)
    ensures UserPart(HomeWithout(home, dir)) == WithoutDir(UserPart(home), dir)
  {
  }

  lemma FirstFrameStays(m: Memory, dir: Frame, bits: seq<bool>, bits': seq<bool>)
    requires dir in m && FramesFreed(bits, bits', DirectoryFrames(m, dir, 512)) && bits[0]
    ensures bits'[0]
  {
    if 0 in OwnedFrames(m, dir) { OwnedMember(m, dir, 0); }
  }

  /** map_user_page of the loose frame with PAGE_OWNED, at a page not mapped before. */
  method MapOwned(heap: Heap, dir: Frame, virt: u32, phys: u32, flags: bv12,
                  ghost base: Supply, ghost mapped: set<Frame>, ghost layout: Layout) returns (ok: bool)
    requires Ready(heap) && dir in heap.tables.dirs && dir != KERNEL_DIR && virt < USER_LIMIT && virt % 0x1000 == 0
    requires phys % 0x1000 == 0 && phys >= 0x1000 && Account(heap, base, dir, mapped, {phys / 0x1000})
    requires UserPages(heap.tables.pages, dir, layout) && virt / 0x1000 !in layout && flags & 0x200 != 0
    modifies heap.tables
    ensures Ready(heap) && heap.tables.dirs == old(heap.tables.dirs)
    ensures if ok then Account(heap, base, dir, mapped + {phys / 0x1000}, {}) && UserPages(heap.tables.pages, dir, layout[virt / 0x1000 := flags | PRESENT_USER])
      else Account(heap, base, dir, mapped, {phys / 0x1000}) && heap.tables.pages == old(heap.tables.pages)
    ensures old(Stock(heap)).tables >= 1 && UseOf(old(heap.tables.pages), dir, virt / 0x40_0000).Vacant? ==> ok
    ensures Stock(heap).frames == old(Stock(heap)).frames && Stock(heap).window == old(Stock(heap)).window
    ensures Stock(heap).tables >= old(Stock(heap)).tables - 1
    ensures ok ==> !UseOf(old(heap.tables.pages), dir, virt / 0x40_0000).Blocked?
    ensures OtherSlotsKept(old(heap.tables.pages), heap.tables.pages, dir, virt / 0x40_0000)
  {
    hide *;
    SuppliesAre(heap);
    StockIs(heap);
    PoolHasTable(heap);
    UseIs(heap.tables.pages, dir, virt / 0x40_0000);
    ghost var s, home := heap.Supplies(), heap.tables.home;
    SupplyFacts(heap);
    ReadyParts(heap);
    AccountMeans(heap, base, dir, mapped, {phys / 0x1000});
    ok := heap.tables.MapUserPage(dir, virt, phys, flags);
    SuppliesAre(heap);
    TableFacts(heap);
    OtherWordsKept(s.memory, heap.tables.pages, s.dirs, dir, heap.blocks != []);
    TableCosts(s, heap.Supplies(), home, heap.tables.home, dir, virt / 0x40_0000);
    OtherSlots(s.memory, heap.tables.pages, dir, virt / 0x40_0000);
    StockIs(heap);
    StockParts(s);
    StockParts(heap.Supplies());
    ReadyParts(heap);
    AccountMeans(heap, base, dir, mapped, {phys / 0x1000});
    if ok {
      MappedOwned(base, s, heap.Supplies(), home, heap.tables.home, dir, mapped, virt, phys, flags, layout);
      AccountMeans(heap, base, dir, mapped + {phys / 0x1000}, {});
    }
  }

  /** The common part of process_memory_create and process_install_syscall_gateway: a frame filled
      through the temporary page and mapped as the process's own, or given back. `other` is a slot
      that is not concerned. */
  method AddOwned(heap: Heap, dir: Frame, virt: u32, flags: bv12, ghost other: nat, ghost base: Supply, ghost mapped: set<Frame>,
                  ghost layout: Layout) returns (ok: bool, ghost mapped': set<Frame>)
    requires Ready(heap) && dir in heap.tables.dirs && dir != KERNEL_DIR && dir != 0 && virt < USER_LIMIT && virt % 0x1000 == 0
    requires Account(heap, base, dir, mapped, {}) && other != virt / 0x40_0000
    requires UserPages(heap.tables.pages, dir, layout) && virt / 0x1000 !in layout && flags & 0x200 != 0
    modifies heap.pmm`next, heap.pmm.bitmap, heap.tables
    ensures Ready(heap) && Account(heap, base, dir, mapped', {}) && heap.tables.dirs == old(heap.tables.dirs) && (!ok ==> mapped' == mapped)
    ensures UserPages(heap.tables.pages, dir, if ok then layout[virt / 0x1000 := flags | PRESENT_USER] else layout)
    ensures old(Stock(heap)).frames >= 1 && old(Stock(heap)).tables >= 1 && UseOf(old(heap.tables.pages), dir, virt / 0x40_0000).Vacant? ==> ok
    ensures ok ==>
      Stock(heap).frames >= old(Stock(heap)).frames - 1 && Stock(heap).window == old(Stock(heap)).window &&
      Stock(heap).tables >= old(Stock(heap)).tables - 1
    ensures ok ==> !UseOf(old(heap.tables.pages), dir, virt / 0x40_0000).Blocked?
    ensures UseOf(heap.tables.pages, dir, other) == UseOf(old(heap.tables.pages), dir, other)
  {
    hide *;
    mapped', ok := mapped, false;
    var phys := TakeFrame(heap, base, dir, mapped);
    if phys != 0 {
      ok := MapFilled(heap, dir, virt, phys, flags, other, base, mapped, layout);
      if ok {
        mapped' := mapped + {phys / 0x1000};
      } else {
        ReleaseFrame(heap, phys, base, dir, mapped);
      }
    }
  }

  method MapFilled(heap: Heap, dir: Frame, virt: u32, phys: u32, flags: bv12, ghost other: nat, ghost base: Supply,
                   ghost mapped: set<Frame>, ghost layout: Layout) returns (ok: bool)
    requires Ready(heap) && dir in heap.tables.dirs && dir != KERNEL_DIR && dir != 0 && virt < USER_LIMIT && virt % 0x1000 == 0
    requires phys % 0x1000 == 0 && phys >= 0x1000 && Account(heap, base, dir, mapped, {phys / 0x1000}) && other != virt / 0x40_0000
    requires UserPages(heap.tables.pages, dir, layout) && virt / 0x1000 !in layout && flags & 0x200 != 0
    modifies heap.tables
    ensures Ready(heap) && heap.tables.dirs == old(heap.tables.dirs)
    ensures UserPages(heap.tables.pages, dir, if ok then layout[virt / 0x1000 := flags | PRESENT_USER] else layout)
    ensures if ok then Account(heap, base, dir, mapped + {phys / 0x1000}, {}) else Account(heap, base, dir, mapped, {phys / 0x1000})
    ensures old(Stock(heap)).tables >= 1 && UseOf(old(heap.tables.pages), dir, virt / 0x40_0000).Vacant? ==> ok
    ensures Stock(heap).frames == old(Stock(heap)).frames && Stock(heap).window == old(Stock(heap)).window
    ensures Stock(heap).tables >= old(Stock(heap)).tables - 1
    ensures ok ==> !UseOf(old(heap.tables.pages), dir, virt / 0x40_0000).Blocked?
    ensures UseOf(heap.tables.pages, dir, other) == UseOf(old(heap.tables.pages), dir, other)
  {
    hide *;
    ghost var m, slot := heap.tables.pages, virt / 0x40_0000;
    ok := FillFrame(heap, phys, base, dir, mapped, {phys / 0x1000});
    SameUserPages(m, heap.tables.pages, dir, layout);
    SameUse(m, heap.tables.pages, dir, slot);
    SameUse(m, heap.tables.pages, dir, other);
    if ok {
      m := heap.tables.pages;
      ok := MapOwned(heap, dir, virt, phys, flags, base, mapped, layout);
      OtherUse(m, heap.tables.pages, dir, slot, other);
    }
  }

  lemma UseIs(m: Memory, dir: Frame, slot: nat)
    ensures UseOf(m, dir, slot).Vacant? <==> slot < 1024 && dir in m && !Present(m[dir][slot])
    ensures UseOf(m, dir, slot).Blocked? <==> slot < 1024 && dir in m && Present(m[dir][slot]) && !User(m[dir][slot])
  {
  }

  /** `dir` has the same entries but for `slot`. */
  ghost predicate OtherSlotsKept(m: Memory, m': Memory, dir: Frame, slot: nat) {
    dir in m && dir in m' && forall i | 0 <= i < 1024 && i != slot :: m'[dir][i] == m[dir][i]
  }

  lemma OtherSlots(m: Memory, m': Memory, dir: Frame, slot: nat)
    ensures OtherSlotsKept(m, m', dir, slot) <==> dir in m && dir in m' && forall i | 0 <= i < 1024 && i != slot :: m'[dir][i] == m[dir][i]
    ensures dir in m ==> OtherSlotsKept(m, m, dir, slot)
  {
  }

  lemma OtherUse(m: Memory, m': Memory, dir: Frame, slot: nat, other: nat)
    requires OtherSlotsKept(m, m', dir, slot) && slot != other
    ensures UseOf(m', dir, other) == UseOf(m, dir, other)
  {
  }

  lemma SameUse(m: Memory, m': Memory, dir: Frame, slot: nat)
    requires SameDirectory(m, m', dir) && dir != 0
    ensures UseOf(m', dir, slot) == UseOf(m, dir, slot)
  {
  }

  /** A user mapping costs at most one table. */
  lemma TableCosts(s: Supply, t: Supply, home: map<Frame, (Frame, nat)>, home': map<Frame, (Frame, nat)>, dir: Frame, slot: nat)
    requires t == s.(memory := t.memory, user := t.user) && s.user == UserPart(home) && t.user == UserPart(home')
    requires HomeGained(home, home', dir, slot) && dir != KERNEL_DIR && KERNEL_DIR in s.dirs && s.dirs <= s.memory.Keys && s.dirs <= t.memory.Keys
    requires forall d | d in s.dirs && d != dir :: t.memory[d] == s.memory[d]
    ensures Frames(t) == Frames(s) && Window(t) == Window(s) && Tables(t) >= Tables(s) - 1
  {
    if home' != home {
      var u: Frame :| u !in home && home' == home[u := (dir, slot)];
      assert UserPart(home') == UserPart(home)[u := (dir, slot)];
      assert |UserPart(home')| == |UserPart(home)| + 1;
    }
    hide KernelTables, UserPart;
  }

  lemma OtherWordsKept(m: Memory, m': Memory, dirs: set<Frame>, dir: Frame, committed: bool)
    requires KERNEL_DIR in dirs && dir != KERNEL_DIR && dirs <= m.Keys && dirs <= m'.Keys && KernelReady(m, committed)
    requires forall d | d in dirs && d != dir :: m'[d] == m[d]
    ensures KernelReady(m', committed)
  {
    WordsKept(m, m', dirs - {dir}, committed);
  }

  /** A successful mapping, in the terms of the account. */
  lemma MappedOwned(base: Supply, s: Supply, t: Supply, home: map<Frame, (Frame, nat)>, home': map<Frame, (Frame, nat)>,
                    dir: Frame, mapped: set<Frame>, virt: u32, phys: u32, flags: bv12, layout: Layout)
    requires virt < USER_LIMIT && phys >= 0x1000 && flags & 0x200 != 0 && dir != 0 && dir in s.dirs && s.dirs <= s.memory.Keys && s.dirs <= t.memory.Keys
    requires Holding(base, s, dir, mapped, {phys / 0x1000}) && t == s.(memory := t.memory, user := t.user)
    requires s.user == UserPart(home) && t.user == UserPart(home')
    requires HomeGained(home, home', dir, virt / 0x40_0000)
    requires UserPages(s.memory, dir, layout) && virt / 0x1000 !in layout
    requires
      var pde := s.memory[dir][virt / 0x40_0000];
      Present(pde) ==> User(pde) && !Large(pde)
    requires t.memory[dir][virt / 0x40_0000].flags == SlotFlags(s.memory[dir][virt / 0x40_0000], PRESENT_RW_USER)
    requires OneWalkChanged(s.memory, t.memory, s.dirs, dir, virt / 0x1000,
      SmallPage(Entry(phys / 0x1000, flags | PRESENT_USER), t.memory[dir][virt / 0x40_0000].flags))
    requires forall d | d in s.dirs && d != dir :: t.memory[d] == s.memory[d]
    requires forall i | 0 <= i < 1024 && i != virt / 0x40_0000 :: t.memory[dir][i] == s.memory[dir][i]
    ensures Holding(base, t, dir, mapped + {phys / 0x1000}, {}) && UserPages(t.memory, dir, layout[virt / 0x1000 := flags | PRESENT_USER])
  {
    var slot, page, f := virt / 0x40_0000, virt / 0x1000, phys / 0x1000;
    assert page / 1024 == slot && page < USER_PAGES && slot < 512;
    NoUserPage(s.memory, dir, layout, page);
    MapFlags(flags, f);
    if home' != home {
      var u: Frame :| u !in home && home' == home[u := (dir, slot)];
      NewUserTable(home, u, dir, slot);
    }
    hide Holding, OneWalkChanged, UserPages, Walk, UserPart, Present, User, Owned;
    HoldMap(base, s, t, dir, mapped, f, page, Entry(f, flags | PRESENT_USER), t.memory[dir][slot].flags, layout);
  }

  lemma MapFlags(flags: bv12, f: Frame)
    requires flags & 0x200 != 0
    ensures Present(Entry(f, flags | PRESENT_USER)) && User(Entry(f, flags | PRESENT_USER)) && Owned(Entry(f, flags | PRESENT_USER))
  {
  }

  lemma NewUserTable(home: map<Frame, (Frame, nat)>, t: Frame, dir: Frame, slot: nat)
    requires t !in home
    ensures WithoutDir(UserPart(home[t := (dir, slot)]), dir) == WithoutDir(UserPart(home), dir)
  {
  }

  // ---- One page more ----

  /** Growth over `mid` to `t`: the kernel's part, then the page. */
  ghost predicate PageAdded(base: Supply, mid: Supply, t: Supply, dir: Frame, page: PageNumber) {
    Holding(base, mid, 0, {}, {}) && InShape(mid) && GainedUserPage(mid, t, dir, page)
  }

  lemma AddedIs(base: Supply, mid: Supply, t: Supply, dir: Frame, page: PageNumber)
    ensures PageAdded(base, mid, t, dir, page) <==> Holding(base, mid, 0, {}, {}) && InShape(mid) && GainedUserPage(mid, t, dir, page)
  {
    hide Holding, InShape, GainedUserPage;
  }

  /** One page of `dir` now means an owned, writable user page on frame `f`. */
  ghost predicate UserMapping(s: Supply, t: Supply, dir: Frame, page: PageNumber, f: Frame) {
    t == s.(memory := t.memory, user := t.user) && dir in s.dirs && dir in t.memory && page < USER_PAGES &&
    User(t.memory[dir][page / 1024]) && WithoutDir(t.user, dir) == WithoutDir(s.user, dir) &&
    OneWalkChanged(s.memory, t.memory, s.dirs, dir, page, SmallPage(Entry(f, OWNED_RW_FLAGS), t.memory[dir][page / 1024].flags)) &&
    forall d | d in s.dirs && d != dir :: d in s.memory && d in t.memory && t.memory[d] == s.memory[d]
  }

  lemma MappingIs(s: Supply, t: Supply, home: map<Frame, (Frame, nat)>, home': map<Frame, (Frame, nat)>, dir: Frame, current: u32,
                  phys: u32, flags: bv12)
    requires flags == OWNED_RW_FLAGS && t == s.(memory := t.memory, user := t.user) && dir in s.dirs && current < USER_LIMIT && s.dirs <= s.memory.Keys && s.dirs <= t.memory.Keys
    requires s.user == UserPart(home) && t.user == UserPart(home')
    requires HomeGained(home, home', dir, current / 0x40_0000)
    requires User(t.memory[dir][current / 0x40_0000])
    requires OneWalkChanged(s.memory, t.memory, s.dirs, dir, current / 0x1000,
      SmallPage(Entry(phys / 0x1000, flags | PRESENT_USER), t.memory[dir][current / 0x40_0000].flags))
    requires forall d | d in s.dirs && d != dir :: t.memory[d] == s.memory[d]
    ensures UserMapping(s, t, dir, current / 0x1000, phys / 0x1000)
  {
    assert OWNED_RW_FLAGS | PRESENT_USER == OWNED_RW_FLAGS && current / 0x1000 / 1024 == current / 0x40_0000;
    if home' != home {
      var u: Frame :| u !in home && home' == home[u := (dir, current / 0x40_0000)];
      NewUserTable(home, u, dir, current / 0x40_0000);
    }
  }

  /** `map_user_page` can use this slot of `dir`, given `tables` more pool pages. */
  ghost predicate Mappable(m: Memory, dir: Frame, slot: nat, tables: int) {
    slot < 1024 && dir in m && if Present(m[dir][slot]) then User(m[dir][slot]) && !Large(m[dir][slot]) && tables >= 0 else tables >= 1
  }

  lemma MappableIs(m: Memory, dir: Frame, slot: nat, tables: int)
    ensures Mappable(m, dir, slot, tables) <==>
      slot < 1024 && dir in m && if Present(m[dir][slot]) then User(m[dir][slot]) && !Large(m[dir][slot]) && tables >= 0 else tables >= 1
  {
  }

  /** map_user_page with PAGE_OWNED, for a page-aligned user address and a whole frame. */
  method MapAt(heap: Heap, dir: Frame, current: u32, phys: u32, flags: bv12) returns (ok: bool)
    requires Ready(heap) && dir in heap.tables.dirs && dir != KERNEL_DIR && current < USER_LIMIT && current % 0x1000 == 0 && phys % 0x1000 == 0
    requires flags == OWNED_RW_FLAGS
    modifies heap.tables
    ensures Ready(heap)
    ensures if ok then UserMapping(old(heap.Supplies()), heap.Supplies(), dir, current / 0x1000, phys / 0x1000)
      else heap.Supplies() == old(heap.Supplies())
    ensures Mappable(old(heap.tables.pages), dir, current / 0x40_0000, old(Stock(heap)).tables) ==> ok
    ensures ok ==> Mappable(old(heap.tables.pages), dir, current / 0x40_0000, 1)
  {
    hide *;
    SuppliesAre(heap);
    ghost var s, home := heap.Supplies(), heap.tables.home;
    MappableIs(s.memory, dir, current / 0x40_0000, 1);
    MappableIs(s.memory, dir, current / 0x40_0000, Stock(heap).tables);
    PoolHasTable(heap);
    ReadyParts(heap);
    TableFacts(heap);
    ok := heap.tables.MapUserPage(dir, current, phys, flags);
    SuppliesAre(heap);
    TableFacts(heap);
    OtherWordsKept(s.memory, heap.tables.pages, s.dirs, dir, heap.blocks != []);
    ReadyParts(heap);
    if ok {
      MappingIs(s, heap.Supplies(), home, heap.tables.home, dir, current, phys, flags);
    }
  }

  /** The page of a zeroed frame. */
  method MapZeroed(heap: Heap, dir: Frame, current: u32, phys: u32, ghost base: Supply, ghost page: PageNumber, ghost f: Frame)
    returns (ok: bool, ghost mid: Supply)
    requires Ready(heap) && Account(heap, base, 0, {}, {f}) && UserTarget(base, dir, current, phys)
    requires page == current / 0x1000 && f == phys / 0x1000
    modifies heap.tables
    ensures Ready(heap) && if ok then PageAdded(base, mid, heap.Supplies(), dir, page) else Account(heap, base, 0, {}, {f})
    ensures Mappable(base.memory, dir, current / 0x40_0000, old(Stock(heap)).tables) ==> ok
    ensures ok ==> Mappable(base.memory, dir, current / 0x40_0000, 1)
  {
    hide *;
    mid := heap.Supplies();
    MappableIs(base.memory, dir, current / 0x40_0000, 1);
    MappableIs(heap.tables.pages, dir, current / 0x40_0000, 1);
    MappableIs(base.memory, dir, current / 0x40_0000, Stock(heap).tables);
    MappableIs(heap.tables.pages, dir, current / 0x40_0000, Stock(heap).tables);
    ghost var s := mid;
    SupplyFacts(heap);
    SuppliesAre(heap);
    AccountMeans(heap, base, 0, {}, {f});
    StillNoPage(base, s, dir, current, phys);
    ok := MapAt(heap, dir, current, phys, OWNED_RW_FLAGS);
    SupplyFacts(heap);
    AccountMeans(heap, base, 0, {}, {f});
    if ok {
      mid := s.(bits := s.bits[f := false]);
      FrameStep(base, s, mid, f);
      UserPageGained(s, mid, heap.Supplies(), dir, page, f);
      AddedIs(base, mid, heap.Supplies(), dir, page);
    }
  }

  /** A page-aligned user address at which `dir` has no page yet, and a whole frame. */
  ghost predicate UserTarget(base: Supply, dir: Frame, current: u32, phys: u32) {
    dir in base.dirs && dir != KERNEL_DIR && dir in base.memory && phys % 0x1000 == 0 && phys >= 0x1000 &&
    current % 0x1000 == 0 && current < USER_LIMIT && Walk(base.memory, dir, current / 0x1000) == NoPage
  }

  lemma TableFacts(heap: Heap)
    requires heap.tables.Valid()
    ensures KERNEL_DIR in heap.tables.dirs && heap.tables.dirs <= heap.tables.pages.Keys && 0 !in heap.tables.dirs
  {
  }

  /** The mapping of a frame for a new user page, or its return. */
  method FillUserPage(heap: Heap, dir: Frame, current: u32, phys: u32, ghost base: Supply) returns (ok: bool, ghost mid: Supply)
    requires Ready(heap) && Account(heap, base, 0, {}, {phys / 0x1000}) && UserTarget(base, dir, current, phys) && phys >= 0x1000
    modifies heap.pmm`next, heap.pmm.bitmap, heap.tables
    ensures Ready(heap) && Holding(base, mid, 0, {}, {}) && InShape(mid) && InShape(heap.Supplies())
    ensures if ok then GainedUserPage(mid, heap.Supplies(), dir, current / 0x1000) else heap.Supplies() == mid
    ensures Mappable(base.memory, dir, current / 0x40_0000, old(Stock(heap)).tables) ==> ok
    ensures ok ==> Mappable(base.memory, dir, current / 0x40_0000, 1)
  {
    hide *;
    MappableIs(base.memory, dir, current / 0x40_0000, Stock(heap).tables);
    ok := FillFrame(heap, phys, base, 0, {}, {phys / 0x1000});
    if ok {
      ok, mid := MapZeroed(heap, dir, current, phys, base, current / 0x1000, phys / 0x1000);
      AddedIs(base, mid, heap.Supplies(), dir, current / 0x1000);
    }
    if !ok {
      ReleaseFrame(heap, phys, base, 0, {});
      mid := heap.Supplies();
      AccountMeans(heap, base, 0, {}, {});
    }
    SupplyFacts(heap);
  }

  lemma StillNoPage(base: Supply, s: Supply, dir: Frame, current: u32, phys: u32)
    requires Holding(base, s, 0, {}, {phys / 0x1000}) && UserTarget(base, dir, current, phys)
    ensures dir in s.dirs && dir in s.memory && Walk(s.memory, dir, current / 0x1000) == NoPage && phys / 0x1000 < |s.bits|
    ensures current % 0x1000 == 0 && current < USER_LIMIT && phys % 0x1000 == 0 && phys >= 0x1000 && dir != KERNEL_DIR && dir != 0
    ensures dir in base.memory && s.memory[dir] == base.memory[dir]
  {
    assert current / 0x1000 < USER_PAGES;
  }

  lemma FrameStep(base: Supply, s: Supply, mid: Supply, f: Frame)
    requires Holding(base, s, 0, {}, {f}) && InShape(s) && mid == s.(bits := s.bits[f := false])
    ensures Holding(base, mid, 0, {}, {}) && InShape(mid) && FramesTaken(mid.bits, s.bits, {f})
  {
    StillTaken(base, s, f);
    hide Holding;
    HoldRelease(base, s, mid, 0, {}, f);
  }

  lemma StillTaken(base: Supply, s: Supply, f: Frame)
    requires Holding(base, s, 0, {}, {f})
    ensures |s.bits| == FRAME_COUNT && s.bits[f]
  {
  }

  lemma UserPageGained(s: Supply, mid: Supply, t: Supply, dir: Frame, page: PageNumber, f: Frame)
    requires UserMapping(s, t, dir, page, f) && mid == s.(bits := mid.bits) && FramesTaken(mid.bits, s.bits, {f}) && f != 0
    requires dir in s.memory && Walk(s.memory, dir, page) == NoPage && InShape(s) && InShape(t)
    ensures GainedUserPage(mid, t, dir, page)
  {
    assert PageGained(mid, t, dir, page, Entry(f, OWNED_RW_FLAGS), t.memory[dir][page / 1024].flags);
  }

  lemma TargetIs(base: Supply, dir: Frame, current: u32, phys: u32)
    ensures UserTarget(base, dir, current, phys) <==>
      dir in base.dirs && dir != KERNEL_DIR && dir in base.memory && phys % 0x1000 == 0 && phys >= 0x1000 &&
      current % 0x1000 == 0 && current < USER_LIMIT && Walk(base.memory, dir, current / 0x1000) == NoPage
  {
    hide Walk;
  }

  /** process_heap_grow of an address space whose heap ends at `current`; `end` is where it ends
      afterwards. On success the new page is the process's own; the kernel's part on the way to
      `mid`, all there is on failure, is no more than the temporary page. */
  method GrowUserHeap(heap: Heap, dir: Frame, current: u32, limit: u32) returns (ok: bool, end: u32, ghost mid: Supply)
    requires Ready(heap) && dir in heap.tables.dirs && dir != KERNEL_DIR && dir in heap.tables.pages
    requires current % 0x1000 == 0 && limit <= USER_LIMIT && (current < limit ==> Walk(heap.tables.pages, dir, current / 0x1000) == NoPage)
    modifies heap.pmm`next, heap.pmm.bitmap, heap.tables
    ensures Ready(heap) && Holding(old(heap.Supplies()), mid, 0, {}, {}) && InShape(mid) && InShape(heap.Supplies())
    ensures if ok then current < limit && end == current + 0x1000 && GainedUserPage(mid, heap.Supplies(), dir, current / 0x1000)
      else end == current && heap.Supplies() == mid
    ensures
      var had := old(Stock(heap));
      current < limit && had.frames >= 1 && Mappable(old(heap.tables.pages), dir, current / 0x40_0000, had.tables) ==> ok
    ensures ok ==> old(Stock(heap)).frames >= 1 && Mappable(old(heap.tables.pages), dir, current / 0x40_0000, 1)
  {
    hide *;
    ghost var base := heap.Supplies();
    SupplyFacts(heap);
    SuppliesAre(heap);
    HoldNothing(base);
    AccountMeans(heap, base, 0, {}, {});
    LimitIs();
    ok, end := false, current;
    if current < limit {
      var phys := TakeFrame(heap, base, 0, {});
      if phys != 0 {
        TargetIs(base, dir, current, phys);
        ok, mid := FillUserPage(heap, dir, current, phys, base);
        if ok {
          end := current + 0x1000;
        }
        return;
      }
    }
    mid := heap.Supplies();
    SupplyFacts(heap);
    AccountMeans(heap, base, 0, {}, {});
  }

  lemma LimitIs()
    ensures USER_LIMIT <= 0xFFFF_0000
  {
  }
}
