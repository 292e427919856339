/** The kernel heap: an in-band, address-ordered block list grown a page at a time. */
module KernelHeap {
  import opened MachineWords
  import opened FrameAllocator
  import opened PageSpec
  import opened PoolCounts
  import opened Paging
  import opened HeapBlocks
  import opened HeapImage
  import opened HeapGrowth

  class Heap {
    const mem: array<u32>        // the dwords of the heap window
    var head: u32                // heap_head, 0 when empty
    var committed: u32           // heap_committed
    const pmm: Pmm
    const tables: PageTables
    ghost var blocks: seq<Block>
    ghost var backing: seq<Frame>  // frames taken from the page manager for the window, in order

    /** The list in memory is exactly `blocks`, tiling the committed part of the window. */
    ghost predicate Shape()
      reads this`blocks, this`head, this`committed, mem
    {
      mem.Length == HEAP_WORDS && Span(blocks) % PAGE_GRANULES == 0 &&
      committed == Addr(Span(blocks)) && committed <= KHEAP_LIMIT &&
      head == (if blocks == [] then 0 else KHEAP_BASE) && Linked(mem[..], 0, blocks, 0)
    }

    /** The window before heap_init: nothing committed, arbitrary contents. */
    constructor (pmm: Pmm, tables: PageTables)
      ensures this.pmm == pmm && this.tables == tables && fresh(mem) && Shape() && blocks == []
    {
      this.pmm, this.tables := pmm, tables;
      mem := new u32[HEAP_WORDS];
      head, committed := 0, KHEAP_BASE;
      blocks, backing := [], [];
    }

    static function Index(address: u32): int {
      (address - KHEAP_BASE) / 4
    }

    /** Where the front block of `rest` sits in memory and what its next word says. */
    lemma FrontWords(pre: seq<Block>, rest: seq<Block>)
      requires Shape() && blocks == pre + rest && rest != []
      ensures 2 * Span(pre) + 3 < mem.Length && KHEAP_BASE <= Addr(Span(pre)) < KHEAP_LIMIT && Index(Addr(Span(pre))) == 2 * Span(pre)
      ensures mem[2 * Span(pre) + 3] == if |rest| == 1 then 0 else Addr(Span(pre) + 2 + rest[0].size)
    {
      NextWord(mem[..], pre, rest);
    }

    /** The two stores of heap_coalesce: grow the first header over the second. */
    method JoinWithNext(esi: u32, ebx: u32, ghost a: seq<Block>, ghost x: Block, ghost y: Block, ghost c: seq<Block>)
      requires Shape() && blocks == a + [x, y] + c && !x.used && !y.used
      requires esi == Addr(Span(a)) && ebx == Addr(Span(a) + 2 + x.size)
      modifies mem, this`blocks
      ensures Shape() && blocks == a + [Block(x.size + 2 + y.size, false)] + c
      ensures SameLive(old(blocks), blocks) && LiveKept(old(blocks), old(mem[..]), mem[..])
    {
      hide Linked, Span, LiveKept, SameLive;
      ghost var before, z, at := mem[..], Block(x.size + 2 + y.size, false), Span(a);
      TwoBlocks(before, a, x, y, c);
      var i, j := Index(esi), Index(ebx);
      assert i == 2 * at && j == 2 * (at + 2 + x.size);
      var size := mem[i + 1] + 16 + mem[j + 1];
      assert size == 8 * z.size;
      mem[i + 1] := size;
      mem[i + 3] := mem[j + 3];
      assert Header(mem[..], at, z, if c == [] then 0 else Addr(at + 2 + z.size));
      assert SameOutside(before, mem[..], 2 * at, 2 * (at + 4 + x.size + y.size));
      hide Header, SameOutside;
      JoinStep(before, mem[..], a, x, y, c);
      JoinSameLive(a, x, y, c);
      blocks := a + [z] + c;
      assert blocks != [];
    }

    /** One step of heap_coalesce at a block that has a successor: join the two, or move on. */
    method CoalesceAt(esi: u32, ebx: u32, ghost pre: seq<Block>, ghost x: Block, ghost y: Block, ghost d: seq<Block>)
      returns (next: u32, ghost pre': seq<Block>, ghost rest': seq<Block>)
      requires Shape() && blocks == pre + [x, y] + d
      requires esi == Addr(Span(pre)) && ebx == Addr(Span(pre) + 2 + x.size)
      modifies mem, this`blocks
      ensures Shape() && blocks == pre' + rest' && rest' != [] && |rest'| < |d| + 2 && next == Addr(Span(pre'))
      ensures pre' + Merge(rest') == pre + Merge([x, y] + d)
      ensures SameLive(old(blocks), blocks) && LiveKept(old(blocks), old(mem[..]), mem[..])
    {
      NothingChanged(blocks, mem[..]);
      hide Linked, Span, LiveKept, SameLive, Merge;
      TwoBlocks(mem[..], pre, x, y, d);
      var i, j := Index(esi), Index(ebx);
      assert i == 2 * Span(pre) && j == 2 * (Span(pre) + 2 + x.size);
      var apart := mem[i + 2] != HEAP_FREE || mem[j + 2] != HEAP_FREE || esi + 16 + mem[i + 1] != ebx;
      next := mem[i + 3];
      assert apart == (x.used || y.used) && next == ebx;
      hide Header;
      if apart {
        MergeAdvance(pre, x, y, d);
        pre', rest' := pre + [x], [y] + d;
        SplitMiddle(pre, x, y, d);
      } else {
        MergeJoin(x, y, d);
        JoinWithNext(esi, ebx, pre, x, y, d);
        next := esi;
        pre', rest' := pre, [Block(x.size + 2 + y.size, false)] + d;
        SplitMiddle(pre, Block(x.size + 2 + y.size, false), y, d);
      }
    }

    /** The loop body of heap_coalesce, on the invariant `Coalescing`. */
    method CoalesceStep(esi: u32, ghost start: seq<Block>, ghost image: seq<u32>, ghost pre: seq<Block>, ghost rest: seq<Block>)
      returns (next: u32, ghost pre': seq<Block>, ghost rest': seq<Block>)
      requires Shape() && Coalescing(start, image, blocks, mem[..], pre, rest) && rest != [] && esi == Addr(Span(pre))
      modifies mem, this`blocks
      ensures Shape() && Coalescing(start, image, blocks, mem[..], pre', rest') && |rest'| < |rest|
      ensures next == if rest' == [] then 0 else Addr(Span(pre'))
    {
      ghost var was, before := blocks, mem[..];
      FrontWords(pre, rest);
      hide Shape, Span, LiveKept, SameLive, Merge;
      next := mem[Index(esi) + 3];
      if next == 0 {
        MergeShort(rest);
        pre', rest' := pre + rest, [];
        MergeShort(rest');
        assert pre' + rest' == pre + rest && pre' + rest' == pre';
      } else {
        SplitFront(pre, rest);
        next, pre', rest' := CoalesceAt(esi, next, pre, rest[0], rest[1], rest[2..]);
        KeepThrough(start, was, blocks, image, before, mem[..]);
      }
    }

    /** heap_coalesce: one pass joins every run of free neighbours. */
    method Coalesce()
      requires Shape()
      modifies mem, this`blocks
      ensures Shape() && blocks == Merge(old(blocks))
      ensures LiveKept(old(blocks), old(mem[..]), mem[..])
    {
      ghost var start, image := blocks, mem[..];
      ghost var pre: seq<Block>, rest := [], blocks;
      NothingChanged(blocks, mem[..]);
      assert [] + blocks == blocks;
      assert head == if blocks == [] then 0 else Addr(Span([]));
      hide Shape, Span, LiveKept, SameLive, Merge, Coalescing;
      var esi := head;
      while esi != 0
        invariant Shape() && Coalescing(start, image, blocks, mem[..], pre, rest)
        invariant esi == if rest == [] then 0 else Addr(Span(pre))
        decreases |rest|
      {
        esi, pre, rest := CoalesceStep(esi, start, image, pre, rest);
      }
      Coalesced(start, image, blocks, mem[..], pre);
    }

    /** The tail search of heap_grow_one_page. */
    method FindTail(ghost bs: seq<Block>) returns (edx: u32)
      requires mem.Length == HEAP_WORDS && bs != [] && Addr(Span(bs)) <= KHEAP_LIMIT
      requires head == KHEAP_BASE && Linked(mem[..], 0, bs, 0)
      ensures edx == Addr(Span(bs[..|bs| - 1]))
      ensures Index(edx) == 2 * Span(bs[..|bs| - 1]) && Index(edx) + 3 < mem.Length
    {
      ghost var pre: seq<Block>, rest := [], bs;
      assert pre + rest == bs;
      edx := head;
      NextWord(mem[..], pre, rest);
      hide Linked, Span;
      while mem[Index(edx) + 3] != 0
        invariant bs == pre + rest && rest != [] && edx == Addr(Span(pre)) && Addr(Span(pre)) <= KHEAP_LIMIT
        invariant 2 * Span(pre) + 3 < |mem[..]| && mem[2 * Span(pre) + 3] == if |rest| == 1 then 0 else Addr(Span(pre) + 2 + rest[0].size)
        decreases |rest|
      {
        edx := mem[Index(edx) + 3];
        AdvanceOne(pre, rest);
        pre, rest := pre + [rest[0]], rest[1..];
        NextWord(mem[..], pre, rest);
        SpanPrefix(pre, rest);
      }
      assert bs[..|bs| - 1] == pre;
    }

    /** The four stores that create a free block's header. */
    method WriteHeader(address: u32, bytes: u32, next: u32, ghost at: nat)
      requires mem.Length == HEAP_WORDS && address == Addr(at) && bytes % 8 == 0 && 2 * (at + 2 + bytes / 8) <= HEAP_WORDS
      modifies mem
      ensures SameOutside(old(mem[..]), mem[..], 2 * at, 2 * at + 4)
      ensures Header(mem[..], at, Block(bytes / 8, false), next)
    {
      var i := Index(address);
      assert i == 2 * at;
      mem[i] := HEAP_MAGIC;
      mem[i + 1] := bytes;
      mem[i + 2] := HEAP_FREE;
      mem[i + 3] := next;
    }

    /** The link store of heap_grow_one_page. */
    method LinkBehindTail(esi: u32, ghost before: seq<u32>, ghost page: Block)
      requires mem.Length == HEAP_WORDS && blocks != [] && head == KHEAP_BASE
      requires esi == Addr(Span(blocks)) <= KHEAP_LIMIT && Linked(before, 0, blocks, 0)
      requires SameOutside(before, mem[..], 2 * Span(blocks), 2 * Span(blocks) + 4) && Header(mem[..], Span(blocks), page, 0)
      modifies mem
      ensures Linked(mem[..], 0, blocks + [page], 0) && LiveKept(blocks, before, mem[..])
    {
      hide Linked, LiveKept;
      ghost var headed, a, x := mem[..], blocks[..|blocks| - 1], blocks[|blocks| - 1];
      LinkedFrame(before, headed, 0, blocks, 0);
      var edx := FindTail(blocks);
      mem[Index(edx) + 3] := esi;
      assert blocks == a + [x] && blocks + [page] == a + [x, page];
      hide Span;
      AtLast(before, a, x);
      LinkTail(before, headed, mem[..], a, x, page);
    }

    /** The list part of heap_grow_one_page: header of the new page, then the link to it. */
    method AppendPage()
      requires Shape() && Addr(Span(blocks) + PAGE_GRANULES) <= KHEAP_LIMIT
      modifies mem, this`blocks, this`head, this`committed
      ensures Shape() && blocks == old(blocks) + [Block(PAGE_GRANULES - 2, false)]
      ensures LiveKept(old(blocks), old(mem[..]), mem[..])
    {
      var esi := committed;
      ghost var before, page := mem[..], Block(PAGE_GRANULES - 2, false);
      SpanAppend(blocks, page);
      hide Linked, Span, LiveKept, Header, SameOutside;
      WriteHeader(esi, 0x1000 - 16, 0, Span(blocks));
      if head == 0 {
        head := esi;
        FirstPageHeader(before, mem[..], page);
        assert blocks + [page] == [page];
      } else {
        LinkBehindTail(esi, before, page);
      }
      blocks := blocks + [page];
      committed := committed + 0x1000;
    }

    /** All four words of the front block of `rest`. */
    lemma FrontHeader(pre: seq<Block>, rest: seq<Block>)
      requires Shape() && blocks == pre + rest && rest != []
      ensures 2 * Span(pre) + 3 < mem.Length && KHEAP_BASE <= Addr(Span(pre)) < KHEAP_LIMIT && Index(Addr(Span(pre))) == 2 * Span(pre)
      ensures mem[2 * Span(pre)] == HEAP_MAGIC && mem[2 * Span(pre) + 1] == 8 * rest[0].size
      ensures mem[2 * Span(pre) + 2] == if rest[0].used then HEAP_USED else HEAP_FREE
      ensures mem[2 * Span(pre) + 3] == if |rest| == 1 then 0 else Addr(Span(pre) + 2 + rest[0].size)
      ensures Addr(Span(pre) + 2 + rest[0].size) <= committed
    {
      hide Linked, Span;
      var x, c := rest[0], rest[1..];
      assert rest == [x] + c && blocks == pre + [x] + c;
      AtBlock(mem[..], pre, x, c);
      assert c == [] <==> |rest| == 1;
    }

    /** The scan of heap_alloc: address of the first free block of at least `wanted` bytes, or 0. */
    method FindFit(wanted: u32) returns (esi: u32)
      requires Shape() && wanted % 8 == 0
      ensures FirstFit(blocks, wanted / 8) == |blocks| ==> esi == 0
      ensures FirstFit(blocks, wanted / 8) < |blocks| ==> esi == Addr(Span(blocks[..FirstFit(blocks, wanted / 8)]))
    {
      NothingChanged(blocks, mem[..]);
      assert head == if blocks == [] then 0 else Addr(Span([]));
      hide Shape, Span, FirstFit, Addr;
      ghost var pre: seq<Block>, rest, n := [], blocks, wanted / 8;
      esi := head;
      while esi != 0
        invariant Shape() && blocks == pre + rest
        invariant esi == if rest == [] then 0 else Addr(Span(pre))
        invariant FirstFit(blocks, n) == |pre| + FirstFit(rest, n)
        decreases |rest|
      {
        FrontHeader(pre, rest);
        FitStep(pre, rest, n);
        var i := Index(esi);
        if mem[i] == HEAP_MAGIC && mem[i + 2] == HEAP_FREE && mem[i + 1] >= wanted {
          return;
        }
        esi := mem[i + 3];
        AdvanceOne(pre, rest);
        pre, rest := pre + [rest[0]], rest[1..];
      }
      FitEnd(n);
    }

    /** The claiming half of heap_alloc: split when 24 bytes or more remain, then mark used. */
    method ClaimAt(esi: u32, wanted: u32, ghost a: seq<Block>, ghost x: Block, ghost c: seq<Block>) returns (ptr: u32)
      requires Shape() && blocks == a + [x] + c && !x.used && esi == Addr(Span(a))
      requires wanted % 8 == 0 && 8 * x.size >= wanted
      modifies mem, this`blocks
      ensures Shape() && blocks == a + Carve(x, wanted / 8) + c && ptr == Addr(Span(a) + 2)
      ensures LiveKept(old(blocks), old(mem[..]), mem[..])
    {
      hide Linked, Span, LiveKept;
      ghost var before, at, n := mem[..], Span(a), wanted / 8;
      AtBlock(before, a, x, c);
      CarveSpan(a, x, c, n);
      var i := Index(esi);
      assert i == 2 * at;
      var rest := mem[i + 1] - wanted;
      if rest >= 24 {
        Split(esi, wanted, rest - 16, at, x, n);
        SplitStep(before, mem[..], a, x, c, n);
      } else {
        mem[i + 2] := HEAP_USED;
        FlagStep(before, mem[..], a, x, c, true);
      }
      blocks := a + Carve(x, n) + c;
      ptr := esi + 16;
    }

    /** The stores of heap_alloc that split one header in two. */
    method Split(esi: u32, wanted: u32, rest: u32, ghost at: nat, ghost x: Block, ghost n: nat)
      requires mem.Length == HEAP_WORDS && esi == Addr(at) && wanted == 8 * n && rest == 8 * (x.size - n - 2)
      requires x.size >= n + 3 && Addr(at + 2 + x.size) <= KHEAP_LIMIT && mem[2 * at] == HEAP_MAGIC
      modifies mem
      ensures SameOutside(old(mem[..]), mem[..], 2 * at, 2 * (at + 2 + x.size))
      ensures Header(mem[..], at, Block(n, true), Addr(at + 2 + n))
      ensures Header(mem[..], at + 2 + n, Block(x.size - n - 2, false), old(mem[2 * at + 3]))
    {
      var i, edi := Index(esi), esi + 16 + wanted;
      assert i == 2 * at && edi == Addr(at + 2 + n);
      WriteHeader(edi, rest, mem[i + 3], at + 2 + n);
      ghost var mid := mem[..];
      mem[i + 3] := edi;
      mem[i + 1] := wanted;
      mem[i + 2] := HEAP_USED;
      SplitHeaders(old(mem[..]), mid, mem[..], at, n, x.size, old(mem[2 * at + 3]));
    }

    ghost function Supplies(): Supply
      reads this`blocks, this`backing, pmm.bitmap, tables
    {
      Supply(tables.pages, tables.dirs, UserPart(tables.home), pmm.bitmap[..], backing, Span(blocks) / PAGE_GRANULES)
    }

    /** The page manager and page tables behind the heap are in order; frame 0 is never
        handed out. */
    ghost predicate Backed()
      reads pmm, pmm.bitmap, tables
    {
      FramesReady() && tables.Valid() &&
      KERNEL_DIR in tables.pages && !(Present(tables.pages[KERNEL_DIR][HEAP_SLOT]) && Large(tables.pages[KERNEL_DIR][HEAP_SLOT]))
    }

    ghost predicate FramesReady()
      reads pmm, pmm.bitmap
    {
      pmm.Valid() && HintSound(pmm.State()) && pmm.bitmap[0]
    }

    /** Once a page is committed the window has its table. */
    ghost predicate WindowReady()
      reads tables
    {
      KERNEL_DIR in tables.pages && Present(tables.pages[KERNEL_DIR][HEAP_SLOT])
    }

    ghost predicate Supplied()
      reads this`blocks, pmm, pmm.bitmap, tables
    {
      Backed() && (blocks != [] ==> WindowReady())
    }

    /** What holds between public operations. */
    ghost predicate Valid()
      reads this, mem, pmm, pmm.bitmap, tables
    {
      Shape() && Normal(blocks) && Supplied()
    }

    /** Exactly when the next page cannot be grown: window full, no frame left, or neither a
        table behind the window nor one to be had. */
    ghost predicate Dry()
      reads this`committed, pmm, pmm.bitmap, tables
    {
      committed >= KHEAP_LIMIT || (pmm.Valid() && NoneFree(pmm.bitmap[..])) || NoTable()
    }

    ghost predicate NoTable()
      reads tables
    {
      KERNEL_DIR in tables.pages && !Present(tables.pages[KERNEL_DIR][HEAP_SLOT]) && tables.Exhausted()
    }

    /** When growth fails only after a frame was taken; the frame stays taken. */
    ghost predicate Leaks()
      reads this`committed, pmm, pmm.bitmap, tables
    {
      committed < KHEAP_LIMIT && pmm.Valid() && !NoneFree(pmm.bitmap[..]) && NoTable()
    }

    /** map_page for the first uncommitted page of the window. */
    method MapWindow(phys: u32, ghost f: Frame, ghost pages: nat, ghost dirs: set<Frame>) returns (ok: bool)
      requires tables.Valid() && committed == Addr(Span(blocks)) < KHEAP_LIMIT && Span(blocks) % PAGE_GRANULES == 0
      requires KERNEL_DIR in tables.pages && !(Present(tables.pages[KERNEL_DIR][HEAP_SLOT]) && Large(tables.pages[KERNEL_DIR][HEAP_SLOT]))
      requires phys / 0x1000 == f && pages == Span(blocks) / PAGE_GRANULES && dirs == tables.dirs
      modifies tables
      ensures tables.Valid() && tables.dirs == dirs && UserPart(tables.home) == UserPart(old(tables.home))
      ensures ok <==> !old(NoTable())
      ensures !ok ==> NoTable()
      ensures PageMapped(old(tables.pages), tables.pages, dirs, pages, f, ok)
    {
      HeapAddress(Span(blocks));
      hide Consistent, UserPart, SharedWalkChanged, KernelSlotOnly, Span, Addr, Present, Large, PointsToTable;
      TablesAre();
      ok := tables.MapPage(committed, phys, PRESENT_RW);
    }

    /** Mapping a frame just taken behind the committed part. */
    method MapHeapPage(phys: u32, ghost before: Supply, ghost f: Frame) returns (ok: bool)
      requires tables.Valid() && committed == Addr(Span(blocks)) < KHEAP_LIMIT && Span(blocks) % PAGE_GRANULES == 0
      requires KERNEL_DIR in tables.pages && !(Present(tables.pages[KERNEL_DIR][HEAP_SLOT]) && Large(tables.pages[KERNEL_DIR][HEAP_SLOT]))
      requires phys / 0x1000 == f && FramesTaken(before.bits, pmm.bitmap[..], {f})
      requires before == Supplies().(bits := before.bits) && KERNEL_DIR in before.dirs && before.dirs <= before.memory.Keys
      modifies this`backing, tables
      ensures tables.Valid()
      ensures ok <==> !old(NoTable())
      ensures backing == old(backing) + [f]
      ensures ok ==> KERNEL_DIR in tables.pages && PointsToTable(tables.pages[KERNEL_DIR][HEAP_SLOT])
      ensures ok ==> Grew(before, Supplies().(pages := Supplies().pages + 1))
      ensures !ok ==> NoTable() && tables.pages == old(tables.pages) && Grew(before, Supplies())
    {
      hide *;
      SuppliesAre();
      SlotExists();
      ok := MapWindow(phys, f, before.pages, before.dirs);
      backing := backing + [f];
      SuppliesAre();
      DryIs();
      MappedIs(before.memory, tables.pages, before.dirs, before.pages, f, ok);
      NoTableMeans();
      TablesIs(before);
      PageOutcome(before, Supplies(), f, ok);
    }

    /** Without a table behind the window nor one to be had the pool has run out. */
    lemma NoTableMeans()
      requires tables.Valid()
      ensures NoTable() <==> !(KERNEL_DIR in tables.pages && Present(tables.pages[KERNEL_DIR][HEAP_SLOT])) && tables.Exhausted()
      ensures NoTable() ==> TablesLeft(tables.pages, tables.dirs, UserPart(tables.home)) < 0
    {
      PoolLeft(tables.pages, tables.freeList, tables.next, tables.free, tables.dirs, tables.home);
      hide TablesLeft, Sharing, PoolAccounts, UserPart;
    }

    lemma TablesAre()
      ensures tables.Valid() ==> KERNEL_DIR in tables.dirs && tables.dirs <= tables.pages.Keys
      ensures tables.Exhausted() <==> tables.free == [] && tables.next >= POOL_END
    {
    }

    lemma MappedIs(m: Memory, m': Memory, dirs: set<Frame>, pages: nat, f: Frame, ok: bool)
      requires PageMapped(m, m', dirs, pages, f, ok)
      ensures if ok then KERNEL_DIR in m' && PointsToTable(m'[KERNEL_DIR][HEAP_SLOT]) else m' == m
    {
      hide KernelSlotOnly, SharedWalkChanged;
    }

    /** pmm_alloc_page for the heap. */
    method TakeFrame() returns (phys: u32)
      requires FramesReady()
      modifies pmm`next, pmm.bitmap
      ensures FramesReady() && phys % 0x1000 == 0
      ensures phys == 0 <==> NoneFree(old(pmm.bitmap[..]))
      ensures phys == 0 ==> pmm.bitmap[..] == old(pmm.bitmap[..])
      ensures phys != 0 ==> FramesTaken(old(pmm.bitmap[..]), pmm.bitmap[..], {phys / 0x1000})
    {
      ghost var bits := pmm.bitmap[..];
      AllocFacts(pmm.State());
      hide FramesTaken, AllocStep, HintSound, NoneFree;
      phys := pmm.AllocPage();
      if phys != 0 {
        TakenOne(bits, phys / 0x1000);
      }
    }

    /** Taking and mapping one frame behind the committed part. */
    method TakePage() returns (ok: bool)
      requires Supplied() && committed == Addr(Span(blocks)) && Span(blocks) % PAGE_GRANULES == 0
      modifies this`backing, pmm`next, pmm.bitmap, tables
      ensures Supplied()
      ensures ok ==> committed < KHEAP_LIMIT && Present(tables.pages[KERNEL_DIR][HEAP_SLOT])
      ensures ok ==> Grew(old(Supplies()), Supplies().(pages := Supplies().pages + 1))
      ensures !ok ==> Dry() && Grew(old(Supplies()), Supplies())
      ensures ok <==> !old(Dry())
      ensures |backing| == |old(backing)| + (if ok || old(Leaks()) then 1 else 0)
    {
      hide *;
      SuppliedParts();
      SuppliesAre();
      DryIs();
      ghost var before := Supplies();
      GrewNothing(before);
      ok := false;
      if committed < KHEAP_LIMIT {
        var phys := TakeFrame();
        SuppliesAre();
        if phys != 0 {
          ok := MapHeapPage(phys, before, phys / 0x1000);
          SlotExists();
          if ok { TablePointer(tables.pages[KERNEL_DIR][HEAP_SLOT]); }
        }
      }
      DryIs();
      SuppliedParts();
    }

    /** `Supplied`, piece by piece. */
    lemma SuppliedParts()
      ensures Supplied() <==>
        FramesReady() && tables.Valid() && KERNEL_DIR in tables.pages && (blocks != [] ==> Present(tables.pages[KERNEL_DIR][HEAP_SLOT])) &&
        !(Present(tables.pages[KERNEL_DIR][HEAP_SLOT]) && Large(tables.pages[KERNEL_DIR][HEAP_SLOT]))
      ensures FramesReady() ==> pmm.Valid() && |pmm.bitmap[..]| == FRAME_COUNT
      ensures tables.Valid() ==> KERNEL_DIR in tables.dirs && tables.dirs <= tables.pages.Keys
    {
    }

    lemma SuppliesAre()
      ensures Supplies() == Supply(tables.pages, tables.dirs, UserPart(tables.home), pmm.bitmap[..], backing, Span(blocks) / PAGE_GRANULES)
    {
    }

    lemma SlotExists()
      ensures 0 <= HEAP_SLOT < 1024
    {
    }

    lemma DryIs()
      ensures Dry() <==> committed >= KHEAP_LIMIT || (pmm.Valid() && NoneFree(pmm.bitmap[..])) || NoTable()
      ensures Leaks() <==> committed < KHEAP_LIMIT && pmm.Valid() && !NoneFree(pmm.bitmap[..]) && NoTable()
      ensures NoTable() <==> KERNEL_DIR in tables.pages && !Present(tables.pages[KERNEL_DIR][HEAP_SLOT]) && tables.Exhausted()
    {
    }

    /** The list half of heap_grow_one_page. */
    method GrowList()
      requires Shape() && committed < KHEAP_LIMIT
      modifies mem, this`blocks, this`head, this`committed
      ensures Shape() && Normal(blocks) && blocks == Grow(old(blocks)) && blocks != []
      ensures Supplies() == old(Supplies()).(pages := old(Supplies()).pages + 1)
      ensures old(Supplied() && Present(tables.pages[KERNEL_DIR][HEAP_SLOT])) ==> Supplied()
      ensures LiveKept(old(blocks), old(mem[..]), mem[..])
    {
      ghost var start, image, page := blocks, mem[..], Block(PAGE_GRANULES - 2, false);
      assert Addr(Span(blocks) + PAGE_GRANULES) <= KHEAP_LIMIT;
      SpanPages(blocks);
      MergeIsNormal(blocks + [page]);
      MergeKeepsSpan(blocks + [page]);
      hide Shape, Span, LiveKept, Merge, Normal, Consistent, HintSound, UserPart;
      AppendPage();
      ghost var mid, appended := mem[..], blocks;
      Coalesce();
      GrowLiveKept(start, appended, image, mid, mem[..]);
    }

    /** heap_grow_one_page: append a free page and join it to a free tail. It fails exactly when
        the supply is dry, and then keeps one frame exactly when only the table was missing. */
    method GrowOnePage() returns (ok: bool)
      requires Valid()
      modifies this, mem, pmm, pmm.bitmap, tables
      ensures Valid() && Grew(old(Supplies()), Supplies())
      ensures blocks == if ok then Grow(old(blocks)) else old(blocks)
      ensures LiveKept(old(blocks), old(mem[..]), mem[..])
      ensures (ok <==> !old(Dry())) && (!ok ==> Dry())
      ensures |backing| == |old(backing)| + (if ok || old(Leaks()) then 1 else 0)
    {
      hide *;
      ValidParts();
      NothingChanged(blocks, mem[..]);
      ok := TakePage();
      ValidParts();
      if ok {
        GrowList();
        ValidParts();
      }
    }

    lemma ValidParts()
      ensures Valid() <==> Shape() && Normal(blocks) && Supplied()
      ensures Shape() ==> committed == Addr(Span(blocks)) && Span(blocks) % PAGE_GRANULES == 0
    {
    }

    /** `grown` pages appended to `start` so far; `dry` is what `Dry` said at the start. */
    ghost predicate Growing(start: seq<Block>, image: seq<u32>, supplies: Supply, grown: nat, dry: bool)
      reads this, mem, pmm, pmm.bitmap, tables
    {
      Progress(start, image, supplies) && blocks == GrowBy(start, grown) && SameLive(start, blocks) &&
      (if grown == 0 then Dry() == dry else !dry)
    }

    lemma GrowingParts(start: seq<Block>, image: seq<u32>, supplies: Supply, grown: nat, dry: bool)
      ensures Growing(start, image, supplies, grown, dry) <==>
        Progress(start, image, supplies) && blocks == GrowBy(start, grown) && SameLive(start, blocks) &&
        (if grown == 0 then Dry() == dry else !dry)
    {
    }

    /** The loop body of heap_grow_pages. */
    method GrowNext(ghost start: seq<Block>, ghost image: seq<u32>, ghost supplies: Supply, ghost grown: nat, ghost dry: bool)
      returns (ok: bool)
      requires Growing(start, image, supplies, grown, dry)
      modifies this, mem, pmm, pmm.bitmap, tables
      ensures if ok then Growing(start, image, supplies, grown + 1, dry)
        else Progress(start, image, supplies) && blocks == GrowBy(start, grown) && Dry() && (grown == 0 <==> dry)
    {
      hide *;
      GrowingParts(start, image, supplies, grown, dry);
      ProgressParts(start, image, supplies);
      ghost var s, m, b := Supplies(), mem[..], blocks;
      ok := GrowOnePage();
      GrewTransitive(supplies, s, Supplies());
      LiveKeptThrough(start, b, image, m, mem[..]);
      GrowSameLive(start, b);
      GrowByStep(start, grown);
      ProgressParts(start, image, supplies);
      GrowingParts(start, image, supplies, grown + 1, dry);
    }

    /** heap_grow_pages(count); `grown` pages were appended, all of them on success. */
    method GrowPages(count: nat) returns (ok: bool, ghost grown: nat)
      requires Valid()
      modifies this, mem, pmm, pmm.bitmap, tables
      ensures Valid() && Progress(old(blocks), old(mem[..]), old(Supplies()))
      ensures blocks == GrowBy(old(blocks), grown)
      ensures ok ==> grown == count > 0
      ensures !ok ==> grown == count == 0 || (grown < count && Dry())
      ensures count > 0 ==> (grown == 0 <==> old(Dry()))
    {
      hide *;
      ghost var start, image, supplies, dry := blocks, mem[..], Supplies(), Dry();
      grown := 0;
      NoProgressYet();
      SameLiveReflexive(blocks);
      GrowByStep(start, 0);
      GrowingParts(start, image, supplies, 0, dry);
      ProgressParts(start, image, supplies);
      if count == 0 {
        return false, 0;
      }
      var left := count;
      while left != 0
        invariant 0 <= left <= count && grown == count - left
        invariant Growing(start, image, supplies, grown, dry)
      {
        ok := GrowNext(start, image, supplies, grown, dry);
        if !ok {
          ProgressParts(start, image, supplies);
          return;
        }
        grown := grown + 1;
        left := left - 1;
      }
      GrowingParts(start, image, supplies, grown, dry);
      ProgressParts(start, image, supplies);
      ok := true;
    }

    /** heap_init: an empty window, then one page if the suppliers have it. */
    method Init()
      requires pmm.Valid() && HintSound(pmm.State()) && pmm.bitmap[0] && tables.Valid() && mem.Length == HEAP_WORDS
      requires KERNEL_DIR in tables.pages && !(Present(tables.pages[KERNEL_DIR][HEAP_SLOT]) && Large(tables.pages[KERNEL_DIR][HEAP_SLOT]))
      modifies this, mem, pmm, pmm.bitmap, tables
      ensures Valid() && blocks == (if committed == KHEAP_BASE then [] else [Block(PAGE_GRANULES - 2, false)])
    {
      head := 0;
      committed := KHEAP_BASE;
      blocks, backing := [], [];
      GrewOnce();
      hide Consistent, HintSound, Grow;
      var ok := GrowOnePage();
    }

    /** The claiming half of heap_alloc, at the first fit. */
    method ClaimFit(esi: u32, wanted: u32, ghost i: nat) returns (ptr: u32)
      requires Shape() && Normal(blocks) && wanted % 8 == 0 && i < |blocks|
      requires !blocks[i].used && blocks[i].size >= wanted / 8 && esi == Addr(Span(blocks[..i]))
      modifies this`blocks, mem
      ensures Shape() && Normal(blocks) && blocks != [] && Span(blocks) == Span(old(blocks))
      ensures ptr == Addr(Span(old(blocks)[..i]) + 2) && blocks == Take(old(blocks), i, wanted / 8)
      ensures LiveKept(old(blocks), old(mem[..]), mem[..])
    {
      ghost var start, n := blocks, wanted / 8;
      hide Shape, Span, LiveKept, Normal, Carve, Live;
      TakeIsNormal(start, i, n);
      TakeAddsLive(start, i, n);
      SplitAt(start, i);
      CarveSome(start[i], n);
      ptr := ClaimAt(esi, wanted, start[..i], start[i], start[i + 1..]);
    }

    /** The scan-then-claim half of heap_alloc. */
    method AllocFit(wanted: u32) returns (ptr: u32)
      requires Shape() && Normal(blocks) && wanted % 8 == 0
      modifies this`blocks, mem
      ensures Shape() && Normal(blocks) && Span(blocks) == Span(old(blocks)) && (old(blocks) == [] ==> blocks == [])
      ensures FitTaken(old(blocks), wanted / 8, blocks, ptr)
      ensures if ptr == 0 then mem[..] == old(mem[..]) else LiveKept(old(blocks), old(mem[..]), mem[..])
    {
      hide Shape, Span, LiveKept, Normal, FirstFit, Addr, Take;
      ptr := FindFit(wanted);
      ghost var i := FirstFit(blocks, wanted / 8);
      if i < |blocks| {
        AddrPositive(Span(blocks[..i]));
        AddrPositive(Span(blocks[..i]) + 2);
      }
      if ptr != 0 {
        ptr := ClaimFit(ptr, wanted, i);
      }
    }

    /** A scan leaves the suppliers alone. */
    method AllocScan(wanted: u32) returns (ptr: u32)
      requires Valid() && wanted % 8 == 0
      modifies this`blocks, mem
      ensures Valid() && Supplies() == old(Supplies())
      ensures FitTaken(old(blocks), wanted / 8, blocks, ptr)
      ensures if ptr == 0 then mem[..] == old(mem[..]) else LiveKept(old(blocks), old(mem[..]), mem[..])
    {
      hide Shape, Span, LiveKept, Normal, Backed, WindowReady, FitTaken;
      ptr := AllocFit(wanted);
    }

    /** One turn of heap_alloc: scan and claim, or grow and ask for another scan. */
    method AllocTurn(wanted: u32) returns (ptr: u32, again: bool, ghost more: nat)
      requires Valid() && wanted % 8 == 0
      modifies this, mem, pmm, pmm.bitmap, tables
      ensures Valid() && Grew(old(Supplies()), Supplies())
      ensures LiveKept(old(blocks), old(mem[..]), mem[..])
      ensures Turn(old(blocks), wanted, more, blocks, ptr, again)
      ensures FirstFit(old(blocks), wanted / 8) == |old(blocks)| && PagesFor(wanted) > 0 ==> (more == 0 <==> old(Dry()))
      ensures !again && ptr == 0 ==> PagesFor(wanted) == 0 || Dry()
    {
      hide *;
      ghost var start, image, supplies := blocks, mem[..], Supplies();
      GrewSelf();
      NothingChanged(start, image);
      more, again := 0, false;
      ptr := AllocScan(wanted);
      FitOrNot(start, wanted / 8, blocks, ptr);
      if ptr == 0 {
        assert mem[..] == image && blocks == start;
        again, more := GrowPages(PagesFor(wanted));
        ProgressParts(start, image, supplies);
      }
      TurnIs(start, wanted, more, blocks, ptr, again);
    }

    lemma GrewSelf()
      requires Valid()
      ensures Grew(Supplies(), Supplies())
    {
      hide Shape, Normal, HintSound, UserPart, Grew;
      KernelInUse(tables.pages, tables.dirs, tables.home);
      GrewNothing(Supplies());
    }

    lemma WithinWindow()
      requires Valid()
      ensures Span(blocks) <= WINDOW_GRANULES
    {
    }

    /** The state of a heap operation that began with `start`, `image` and `supplies`. */
    ghost predicate Progress(start: seq<Block>, image: seq<u32>, supplies: Supply)
      reads this, mem, pmm, pmm.bitmap, tables
    {
      Valid() && Grew(supplies, Supplies()) && LiveKept(start, image, mem[..])
    }

    /** The loop body of heap_alloc. */
    method AllocRetry(wanted: u32, ghost start: seq<Block>, ghost image: seq<u32>, ghost supplies: Supply, ghost size: u32, ghost grown: nat,
                      ghost dry: bool)
      returns (ptr: u32, again: bool, ghost grown': nat)
      requires Progress(start, image, supplies) && Waiting(start, size, grown, blocks) && wanted == Rounded(size)
      requires if grown == 0 then Dry() == dry else !dry
      modifies this, mem, pmm, pmm.bitmap, tables
      ensures Progress(start, image, supplies) && Valid()
      ensures again ==> Waiting(start, size, grown', blocks) && WINDOW_GRANULES >= Span(blocks) > Span(old(blocks))
      ensures !again ==> AllocOutcome(start, size, grown', blocks, ptr)
      ensures GrowsUnlessDry(start, size, grown', dry) && (again ==> grown' > 0 && !dry)
      ensures !again && ptr == 0 ==> PagesFor(wanted) == 0 || Dry()
    {
      hide *;
      ghost var before, s, m, more := blocks, Supplies(), mem[..], 0;
      ProgressParts(start, image, supplies);
      NoTurnYet(before, size);
      ptr, again, more := AllocTurn(wanted);
      GrewTransitive(supplies, s, Supplies());
      WaitingSameLive(start, size, grown, before);
      LiveKeptThrough(start, before, image, m, mem[..]);
      AfterTurn(start, size, grown, before, more, blocks, ptr, again);
      DryTurn(start, size, grown, before, more, blocks, ptr, again, dry);
      WithinWindow();
      grown' := grown + more;
      ProgressParts(start, image, supplies);
    }

    lemma ProgressParts(start: seq<Block>, image: seq<u32>, supplies: Supply)
      ensures Progress(start, image, supplies) <==> Valid() && Grew(supplies, Supplies()) && LiveKept(start, image, mem[..])
    {
    }

    lemma NoProgressYet()
      requires Valid()
      ensures Progress(blocks, mem[..], Supplies())
      ensures Span(blocks) <= WINDOW_GRANULES
    {
      GrewSelf();
      NothingChanged(blocks, mem[..]);
    }

    /** heap_alloc(size); `grown` pages were appended on the way. */
    method Alloc(size: u32) returns (ptr: u32, ghost grown: nat)
      requires Valid()
      modifies this, mem, pmm, pmm.bitmap, tables
      ensures Valid() && Progress(old(blocks), old(mem[..]), old(Supplies()))
      ensures AllocOutcome(old(blocks), size, grown, blocks, ptr)
      ensures GrowsUnlessDry(old(blocks), size, grown, old(Dry()))
      ensures ptr == 0 && size != 0 ==> PagesFor(Rounded(size)) == 0 || Dry()
    {
      ghost var start, image, supplies, dry := blocks, mem[..], Supplies(), Dry();
      NoProgressYet();
      NoTurnYet(start, size);
      hide *;
      ptr, grown := 0, 0;
      if size == 0 {
        return;
      }
      var wanted := Rounded(size);
      var again := true;
      while again
        invariant Valid() && Progress(start, image, supplies) && Span(blocks) <= WINDOW_GRANULES
        invariant again ==> Waiting(start, size, grown, blocks)
        invariant if again then (if grown == 0 then Dry() == dry else !dry)
          else AllocOutcome(start, size, grown, blocks, ptr) && GrowsUnlessDry(start, size, grown, dry)
        invariant !again && ptr == 0 ==> PagesFor(wanted) == 0 || Dry()
        decreases again, WINDOW_GRANULES - Span(blocks)
      {
        ptr, again, grown := AllocRetry(wanted, start, image, supplies, size, grown, dry);
        NoProgressYet();
      }
    }

    /** `ptr` names a header inside the window, and one that looks used belongs to a live block. */
    ghost predicate Freeable(ptr: u32)
      reads this`blocks, mem
    {
      ptr == 0 ||
      (mem.Length == HEAP_WORDS && ptr % 4 == 0 && KHEAP_BASE + 16 <= ptr <= KHEAP_LIMIT &&
       (mem[Index(ptr - 16)] == HEAP_MAGIC && mem[Index(ptr - 16) + 2] == HEAP_USED ==> ptr in Live(blocks, 0)))
    }

    /** The header in front of a live payload. */
    lemma LiveHeader(ptr: u32) returns (i: nat)
      requires Shape() && ptr in Live(blocks, 0)
      ensures i < |blocks| && blocks[i].used && ptr == Addr(Span(blocks[..i]) + 2) && blocks == blocks[..i] + [blocks[i]] + blocks[i + 1..]
      ensures Index(ptr - 16) == 2 * Span(blocks[..i]) && 2 * Span(blocks[..i]) + 3 < mem.Length
      ensures mem[Index(ptr - 16)] == HEAP_MAGIC && mem[Index(ptr - 16) + 2] == HEAP_USED
    {
      i := LiveIndex(blocks, 0, ptr);
      SplitAt(blocks, i);
      hide Linked, Span, Live;
      ghost var a, x, c := blocks[..i], blocks[i], blocks[i + 1..];
      AtBlock(mem[..], a, x, c);
    }

    /** The flag store of heap_free. */
    method FlagFree(esi: u32, ghost a: seq<Block>, ghost x: Block, ghost c: seq<Block>)
      requires Shape() && blocks == a + [x] + c && x.used && esi == Addr(Span(a))
      modifies mem, this`blocks
      ensures Shape() && blocks == a + [Block(x.size, false)] + c && LiveKept(blocks, old(mem[..]), mem[..])
    {
      hide Linked, Span, LiveKept;
      ghost var before := mem[..];
      AtBlock(before, a, x, c);
      UnflagSpan(a, x, c);
      var i := Index(esi);
      assert i == 2 * Span(a);
      mem[i + 2] := HEAP_FREE;
      FlagStep(before, mem[..], a, x, c, false);
      UnflagKept(before, mem[..], a, x, c);
      blocks := a + [Block(x.size, false)] + c;
    }

    /** The list half of heap_free. */
    method FreeAt(esi: u32, ghost i: nat)
      requires Shape() && Normal(blocks) && i < |blocks| && blocks[i].used && esi == Addr(Span(blocks[..i]))
      modifies mem, this`blocks
      ensures Shape() && Normal(blocks) && blocks == Release(old(blocks), i)
      ensures Span(blocks) == Span(old(blocks)) && (old(blocks) == [] ==> blocks == [])
      ensures LiveKept(blocks, old(mem[..]), mem[..])
    {
      ghost var start, x, image := blocks, blocks[i], mem[..];
      SplitAt(start, i);
      ReleaseDropsLive(start, i);
      hide Shape, Span, LiveKept, SameLive, Merge, Normal, Live;
      FlagFree(esi, start[..i], x, start[i + 1..]);
      ghost var flagged, mid := blocks, mem[..];
      assert flagged == start[i := Block(x.size, false)];
      Coalesce();
      MergeIsNormal(flagged);
      ReleaseKept(flagged, image, mid, mem[..]);
    }

    /** heap_free(ptr): releases the live block behind `ptr`; anything else is left alone. */
    method Free(ptr: u32)
      requires Valid() && Freeable(ptr)
      modifies this`blocks, mem
      ensures Valid() && Supplies() == old(Supplies())
      ensures if ptr in Live(old(blocks), 0) then Freed(old(blocks), ptr, blocks) && LiveKept(blocks, old(mem[..]), mem[..])
        else blocks == old(blocks) && mem[..] == old(mem[..])
    {
      LiveBounds(blocks, 0);
      hide Shape, Span, LiveKept, Normal, Backed, WindowReady, Live, Release;
      if ptr == 0 {
        return;
      }
      var esi := ptr - 16;
      if ptr in Live(blocks, 0) { ghost var j := LiveHeader(ptr); }
      if mem[Index(esi)] == HEAP_MAGIC && mem[Index(esi) + 2] == HEAP_USED {
        ghost var start := blocks;
        ghost var i := LiveHeader(ptr);
        FreeAt(esi, i);
        assert FreedAt(start, ptr, blocks, i);
      }
    }

    /** heap_validate: in every state between operations the only thing it can object to is an
        empty block. */
    method Validate() returns (ok: bool)
      requires Valid()
      ensures ok <==> NoEmptyBlock(blocks)
    {
      ghost var pre: seq<Block>, rest := [], blocks;
      NothingChanged(blocks, mem[..]);
      assert head == if blocks == [] then 0 else Addr(Span([]));
      hide Valid, Shape, Span, Normal;
      var esi := head;
      while esi != 0
        invariant Valid() && blocks == pre + rest && NoEmptyBlock(pre)
        invariant esi == if rest == [] then 0 else Addr(Span(pre))
        decreases |rest|
      {
        assert blocks[|pre|] == rest[0];
        ok, esi := ValidateAt(esi, pre, rest);
        if !ok {
          return;
        }
        AdvanceOne(pre, rest);
        pre, rest := pre + [rest[0]], rest[1..];
      }
      ok := true;
    }

    /** One block of heap_validate. */
    method ValidateAt(esi: u32, ghost pre: seq<Block>, ghost rest: seq<Block>) returns (ok: bool, next: u32)
      requires Valid() && blocks == pre + rest && rest != [] && esi == Addr(Span(pre))
      ensures ok <==> rest[0].size > 0
      ensures ok ==> next == if |rest| == 1 then 0 else Addr(Span(pre) + 2 + rest[0].size)
    {
      FrontHeader(pre, rest);
      NormalAt(pre, rest);
      if |rest| > 1 {
        AdvanceOne(pre, rest);
        FrontHeader(pre + [rest[0]], rest[1..]);
      }
      hide Valid, Shape, Span, Normal;
      var i := Index(esi);
      var size, flag, end := mem[i + 1], mem[i + 2], esi + 16 + mem[i + 1];
      next := mem[i + 3];
      ok := KHEAP_BASE <= esi < committed && mem[i] == HEAP_MAGIC && size != 0 &&
            (flag == HEAP_FREE || flag == HEAP_USED) && end <= committed;
      if ok && next != 0 {
        ok := esi < next <= committed && !(flag == HEAP_FREE && mem[Index(next) + 2] == HEAP_FREE && end == next);
      }
    }
  }

  /** heap_free's effect: one used block becomes free and is joined to its free neighbours. */
  ghost predicate Freed(start: seq<Block>, ptr: int, now: seq<Block>) {
    exists i :: FreedAt(start, ptr, now, i)
  }

  ghost predicate FreedAt(start: seq<Block>, ptr: int, now: seq<Block>, i: int) {
    0 <= i < |start| && start[i].used && ptr == Addr(Span(start[..i]) + 2) && now == Release(start, i)
  }

  lemma UnflagSpan(a: seq<Block>, x: Block, c: seq<Block>)
    ensures Span(a + [Block(x.size, false)] + c) == Span(a + [x] + c)
  {
    LiveSingle(x, 0);
    LiveSingle(Block(x.size, false), 0);
    LiveMiddle(a, [x], c);
    LiveMiddle(a, [Block(x.size, false)], c);
  }

  lemma UnflagKept(before: seq<u32>, after: seq<u32>, a: seq<Block>, x: Block, c: seq<Block>)
    requires LiveKept(a + [x] + c, before, after) && x.used
    ensures LiveKept(a + [Block(x.size, false)] + c, before, after)
  {
    var y := Block(x.size, false);
    LiveInOne(x, Span(a));
    LiveInOne(y, Span(a));
    LiveSingle(x, 0);
    LiveSingle(y, 0);
    hide InLive, Span;
    forall k | 0 <= k < |before| && InLive(a + [y] + c, 0, k) ensures after[k] == before[k] {
      LiveParts(a, [x], c, k);
      LiveParts(a, [y], c, k);
    }
  }

  lemma ReleaseKept(flagged: seq<Block>, m0: seq<u32>, m1: seq<u32>, m2: seq<u32>)
    requires LiveKept(flagged, m0, m1) && LiveKept(flagged, m1, m2)
    ensures LiveKept(Merge(flagged), m0, m2)
  {
    MergeSameLive(flagged);
  }

  lemma NormalAt(pre: seq<Block>, rest: seq<Block>)
    requires Normal(pre + rest) && rest != []
    ensures |rest| > 1 ==> rest[0].used || rest[1].used
  {
    NormalParts(pre, rest);
  }

  /** The outcome of one scan of heap_alloc. */
  ghost predicate FitTaken(start: seq<Block>, n: nat, now: seq<Block>, ptr: int) {
    var i := FirstFit(start, n);
    if i == |start| then ptr == 0 && now == start
    else now == Take(start, i, n) && ptr == Addr(Span(start[..i]) + 2)
  }

  /** The outcome of one turn of heap_alloc. */
  ghost predicate Turn(start: seq<Block>, wanted: u32, more: nat, now: seq<Block>, ptr: int, again: bool) {
    var n, pages := wanted / 8, PagesFor(wanted);
    if FirstFit(start, n) < |start|
    then FitTaken(start, n, now, ptr) && ptr != 0 && !again && more == 0
    else ptr == 0 && now == GrowBy(start, more) && (if again then more == pages > 0 else more == pages == 0 || more < pages)
  }

  lemma TurnIs(start: seq<Block>, wanted: u32, more: nat, now: seq<Block>, ptr: int, again: bool)
    ensures Turn(start, wanted, more, now, ptr, again) <==>
      var n, pages := wanted / 8, PagesFor(wanted);
      if FirstFit(start, n) < |start|
      then FitTaken(start, n, now, ptr) && ptr != 0 && !again && more == 0
      else ptr == 0 && now == GrowBy(start, more) && (if again then more == pages > 0 else more == pages == 0 || more < pages)
    ensures FirstFit(start, wanted / 8) <= |start|
  {
    hide FitTaken, GrowBy, PagesFor;
  }

  lemma FitOrNot(start: seq<Block>, n: nat, now: seq<Block>, ptr: int)
    requires FitTaken(start, n, now, ptr)
    ensures ptr == 0 <==> FirstFit(start, n) == |start|
    ensures ptr == 0 ==> now == start
    ensures Span(now) == Span(start)
  {
    if FirstFit(start, n) < |start| { TakeAddsLive(start, FirstFit(start, n), n); }
  }

  const WINDOW_GRANULES := 0x8_0000

  /** heap_alloc as a whole. A request that fits is served without growing; otherwise, when
      the pages asked for have room for it, one successful grow makes the second scan succeed. */
  ghost predicate AllocOutcome(start: seq<Block>, size: u32, grown: nat, now: seq<Block>, ptr: int) {
    var n, g := Rounded(size) / 8, GrowBy(start, grown);
    (ptr == 0 ==> now == g) &&
    (ptr != 0 ==> size != 0 && FirstFit(g, n) < |g| && FitTaken(g, n, now, ptr)) &&
    (size == 0 ==> ptr == 0 && grown == 0) &&
    (size != 0 && FirstFit(start, n) < |start| ==> ptr != 0 && grown == 0) &&
    (size != 0 && FirstFit(start, n) == |start| && Enough(size) ==>
      if ptr != 0 then grown == PagesFor(Rounded(size)) else grown < PagesFor(Rounded(size)))
  }

  /** Between two scans: `grown` pages so far, all needed. */
  ghost predicate Waiting(start: seq<Block>, size: u32, grown: nat, now: seq<Block>) {
    size != 0 && Normal(start) && now == GrowBy(start, grown) &&
    (grown > 0 ==> FirstFit(start, Rounded(size) / 8) == |start|) &&
    (grown > 0 && Enough(size) ==> grown == PagesFor(Rounded(size)))
  }

  /** A request nothing fits and that asks for pages gets some exactly when the supply was not
      dry before the call. */
  ghost predicate GrowsUnlessDry(start: seq<Block>, size: u32, grown: nat, dry: bool) {
    size != 0 && FirstFit(start, Rounded(size) / 8) == |start| && PagesFor(Rounded(size)) > 0 ==> (grown == 0 <==> dry)
  }

  /** What a turn says about the supply it met. */
  lemma DryTurn(start: seq<Block>, size: u32, grown: nat, before: seq<Block>, more: nat, now: seq<Block>, ptr: int, again: bool, dry: bool)
    requires Waiting(start, size, grown, before) && Turn(before, Rounded(size), more, now, ptr, again)
    requires grown > 0 ==> !dry
    requires grown == 0 && FirstFit(before, Rounded(size) / 8) == |before| && PagesFor(Rounded(size)) > 0 ==> (more == 0 <==> dry)
    ensures GrowsUnlessDry(start, size, grown + more, dry)
    ensures again ==> grown + more > 0 && !dry
  {
    hide FitTaken, FirstFit, PagesFor, Normal;
  }

  lemma NoTurnYet(start: seq<Block>, size: u32)
    ensures size == 0 ==> AllocOutcome(start, size, 0, start, 0) && forall dry :: GrowsUnlessDry(start, size, 0, dry)
    ensures size != 0 && Normal(start) ==> Waiting(start, size, 0, start)
    ensures Rounded(size) % 8 == 0
  {
  }

  lemma {:induction false} GrowByAgain(bs: seq<Block>, a: nat, b: nat)
    ensures GrowBy(GrowBy(bs, a), b) == GrowBy(bs, a + b)
    decreases b
  {
    if b > 0 { GrowByAgain(bs, a, b - 1); }
  }

  lemma {:induction false} GrowBySameLive(bs: seq<Block>, k: nat)
    ensures SameLive(bs, GrowBy(bs, k))
  {
    if k > 0 {
      GrowBySameLive(bs, k - 1);
      GrowSameLive(bs, GrowBy(bs, k - 1));
    }
  }

  lemma WaitingSameLive(start: seq<Block>, size: u32, grown: nat, now: seq<Block>)
    requires Waiting(start, size, grown, now)
    ensures SameLive(start, now)
  {
    GrowBySameLive(start, grown);
  }

  /** What a turn leads to: another turn on a strictly longer heap, or the final outcome. */
  lemma AfterTurn(start: seq<Block>, size: u32, grown: nat, before: seq<Block>, more: nat, now: seq<Block>, ptr: int, again: bool)
    requires Waiting(start, size, grown, before) && Turn(before, Rounded(size), more, now, ptr, again)
    ensures again ==> Waiting(start, size, grown + more, now) && Span(now) > Span(before)
    ensures !again ==> AllocOutcome(start, size, grown + more, now, ptr)
  {
    var n := Rounded(size) / 8;
    RoundingFacts(size);
    GrowByAgain(start, grown, more);
    hide Span, Normal, FirstFit, FitTaken;
    if grown > 0 && Enough(size) {
      GrowThenFit(start, n, grown);
    }
    if again {
      NormalGrown(start, grown);
      GrowByTail(before, more);
    }
  }

  lemma NormalGrown(bs: seq<Block>, k: nat)
    requires Normal(bs)
    ensures Normal(GrowBy(bs, k))
  {
    if k > 0 { GrowByTail(bs, k); }
  }

  lemma CarveSome(x: Block, n: nat)
    requires x.size >= n
    ensures Carve(x, n) != []
  {
  }

  lemma AddrPositive(g: nat)
    ensures Addr(g) > 0
  {
  }

  /** Headers of two neighbours in the middle of the list, and the total span. */
  lemma TwoBlocks(mem: seq<u32>, a: seq<Block>, x: Block, y: Block, c: seq<Block>)
    requires Linked(mem, 0, a + [x, y] + c, 0)
    ensures Header(mem, Span(a), x, Addr(Span(a) + 2 + x.size))
    ensures Header(mem, Span(a) + 2 + x.size, y, if c == [] then 0 else Addr(Span(a) + 4 + x.size + y.size))
    ensures Span(a + [x, y] + c) == Span(a) + 4 + x.size + y.size + Span(c)
    ensures Span(a + [Block(x.size + 2 + y.size, false)] + c) == Span(a + [x, y] + c)
  {
    hide Linked, Header, Span;
    var z := Block(x.size + 2 + y.size, false);
    Parts(mem, a, [x, y], c);
    LinkedTwo(mem, Span(a), x, y, TailOf(a, [x, y], c));
    LinkedOne(mem, Span(a), z, 0);
    SpanConcat(a + [x, y], c);
    SpanConcat(a, [x, y]);
    SpanConcat(a + [z], c);
    SpanConcat(a, [z]);
  }

  lemma NothingChanged(bs: seq<Block>, mem: seq<u32>)
    ensures LiveKept(bs, mem, mem) && SameLive(bs, bs) && [] + Merge(bs) == Merge(bs) && Span([]) == 0
  {
  }

  lemma KeepThrough(a: seq<Block>, b: seq<Block>, c: seq<Block>, m0: seq<u32>, m1: seq<u32>, m2: seq<u32>)
    requires SameLive(a, b) && SameLive(b, c) && LiveKept(a, m0, m1) && LiveKept(b, m1, m2)
    ensures SameLive(a, c) && LiveKept(a, m0, m2)
  {
  }

  lemma MergeShort(bs: seq<Block>)
    requires |bs| < 2
    ensures Merge(bs) == bs
  {
  }

  lemma MergeAdvance(pre: seq<Block>, x: Block, y: Block, d: seq<Block>)
    requires x.used || y.used
    ensures pre + Merge([x, y] + d) == (pre + [x]) + Merge([y] + d)
    ensures Span(pre + [x]) == Span(pre) + 2 + x.size
  {
    assert ([x, y] + d)[1..] == [y] + d;
    SpanConcat(pre, [x]);
    assert [x][1..] == [];
  }

  lemma MergeJoin(x: Block, y: Block, d: seq<Block>)
    requires !x.used && !y.used
    ensures Merge([x, y] + d) == Merge([Block(x.size + 2 + y.size, false)] + d)
  {
    assert ([x, y] + d)[2..] == d;
  }

  /** The next word of the block at the front of `rest`. */
  lemma NextWord(mem: seq<u32>, pre: seq<Block>, rest: seq<Block>)
    requires rest != [] && Linked(mem, 0, pre + rest, 0)
    ensures 2 * Span(pre) + 3 < |mem| && (Addr(Span(pre)) - KHEAP_BASE) / 4 == 2 * Span(pre)
    ensures mem[2 * Span(pre) + 3] == if |rest| == 1 then 0 else Addr(Span(pre) + 2 + rest[0].size)
  {
    hide Linked, Span;
    var x, c := rest[0], rest[1..];
    assert rest == [x] + c;
    assert pre + rest == pre + [x] + c;
    AtBlock(mem, pre, x, c);
    assert c == [] <==> |rest| == 1;
  }

  lemma SplitMiddle(pre: seq<Block>, x: Block, y: Block, d: seq<Block>)
    ensures (pre + [x]) + ([y] + d) == pre + [x, y] + d && pre + ([x] + d) == pre + [x] + d
  {
  }

  lemma SplitFront(pre: seq<Block>, rest: seq<Block>)
    requires |rest| >= 2
    ensures rest == [rest[0], rest[1]] + rest[2..] && pre + rest == pre + [rest[0], rest[1]] + rest[2..]
  {
  }

  lemma AdvanceOne(pre: seq<Block>, rest: seq<Block>)
    requires rest != []
    ensures (pre + [rest[0]]) + rest[1..] == pre + rest && Span(pre + [rest[0]]) == Span(pre) + 2 + rest[0].size
  {
    SpanConcat(pre, [rest[0]]);
    assert [rest[0]][1..] == [];
  }

  lemma SpanPrefix(pre: seq<Block>, rest: seq<Block>)
    ensures Span(pre) <= Span(pre + rest)
  {
    SpanConcat(pre, rest);
  }

  lemma AtLast(mem: seq<u32>, a: seq<Block>, x: Block)
    requires Linked(mem, 0, a + [x], 0)
    ensures Header(mem, Span(a), x, 0) && Span(a + [x]) == Span(a) + 2 + x.size
  {
    LinkedSplit(mem, 0, a, [x], 0);
    LinkedOne(mem, Span(a), x, 0);
    SpanConcat(a, [x]);
  }

  /** Linking the fresh page from the last block `x`. */
  lemma LinkTail(before: seq<u32>, headed: seq<u32>, after: seq<u32>, a: seq<Block>, x: Block, page: Block)
    requires Linked(before, 0, a + [x], 0)
    requires SameOutside(before, headed, 2 * (Span(a) + 2 + x.size), 2 * (Span(a) + 2 + x.size) + 4)
    requires Header(headed, Span(a) + 2 + x.size, page, 0)
    requires
      var p := 2 * Span(a) + 3;
      p < |headed| && SameOutside(headed, after, p, p + 1) && after[p] == Addr(Span(a) + 2 + x.size)
    ensures Linked(after, 0, a + [x, page], 0) && LiveKept(a + [x], before, after)
  {
    hide Linked, Span, LiveKept;
    AtLast(before, a, x);
    PatchTail(before, headed, after, Span(a), x, page);
    hide Header, SameOutside;
    AppendKeepsLive(before, after, a, x);
    AppendStep(before, after, a, x, page);
  }

  lemma PatchTail(before: seq<u32>, headed: seq<u32>, after: seq<u32>, at: nat, x: Block, page: Block)
    requires Header(before, at, x, 0) && Header(headed, at + 2 + x.size, page, 0)
    requires SameOutside(before, headed, 2 * (at + 2 + x.size), 2 * (at + 2 + x.size) + 4)
    requires SameOutside(headed, after, 2 * at + 3, 2 * at + 4) && 2 * at + 3 < |after| && after[2 * at + 3] == Addr(at + 2 + x.size)
    ensures SameOutside(before, after, 2 * at, |before|)
    ensures Header(after, at, x, Addr(at + 2 + x.size)) && Header(after, at + 2 + x.size, page, 0)
    ensures |after| == |before| && forall k | 0 <= k < |before| && (k < 2 * at || 2 * (at + 2) <= k < 2 * (at + 2 + x.size)) :: after[k] == before[k]
  {
  }

  lemma SpanAppend(bs: seq<Block>, page: Block)
    requires page.size == PAGE_GRANULES - 2
    ensures Span(bs + [page]) == Span(bs) + PAGE_GRANULES
    ensures bs == [] ==> Span(bs) == 0
  {
    SpanConcat(bs, [page]);
    assert [page][1..] == [];
  }

  lemma CarveSpan(a: seq<Block>, x: Block, c: seq<Block>, n: nat)
    requires x.size >= n
    ensures Span(a + Carve(x, n) + c) == Span(a + [x] + c) && a + Carve(x, n) + c != []
  {
    hide Span;
    LiveCarved(x, 0, n);
    LiveSingle(x, 0);
    SpanConcat(a + Carve(x, n), c);
    SpanConcat(a, Carve(x, n));
    SpanConcat(a + [x], c);
    SpanConcat(a, [x]);
  }

  lemma FitStep(pre: seq<Block>, rest: seq<Block>, n: nat)
    requires rest != []
    ensures FirstFit(rest, n) == if !rest[0].used && rest[0].size >= n then 0 else 1 + FirstFit(rest[1..], n)
    ensures (pre + rest)[..|pre|] == pre && |pre| < |pre + rest|
    ensures Addr(Span(pre) + 2 + rest[0].size) == Addr(Span(pre + [rest[0]])) > 0
  {
    hide *;
    FitUnfold(rest, n);
    AdvanceOne(pre, rest);
    FrontPart(pre, rest);
    AddrPositive(Span(pre + [rest[0]]));
  }

  lemma FrontPart(pre: seq<Block>, rest: seq<Block>)
    ensures (pre + rest)[..|pre|] == pre
  {
  }

  lemma FitUnfold(rest: seq<Block>, n: nat)
    requires rest != []
    ensures FirstFit(rest, n) == if !rest[0].used && rest[0].size >= n then 0 else 1 + FirstFit(rest[1..], n)
  {
  }

  lemma FitEnd(n: nat)
    ensures FirstFit([], n) == 0
  {
  }

  /** The two headers after a split, read off the stores. */
  lemma SplitHeaders(before: seq<u32>, mid: seq<u32>, after: seq<u32>, at: nat, n: nat, size: nat, next: u32)
    requires size >= n + 3 && 2 * (at + 2 + size) <= |before| && before[2 * at] == HEAP_MAGIC
    requires SameOutside(before, mid, 2 * (at + 2 + n), 2 * (at + 2 + n) + 4)
    requires Header(mid, at + 2 + n, Block(size - n - 2, false), next)
    requires SameOutside(mid, after, 2 * at + 1, 2 * at + 4)
    requires after[2 * at + 1] == 8 * n && after[2 * at + 2] == HEAP_USED && after[2 * at + 3] == Addr(at + 2 + n)
    ensures SameOutside(before, after, 2 * at, 2 * (at + 2 + size))
    ensures Header(after, at, Block(n, true), Addr(at + 2 + n))
    ensures Header(after, at + 2 + n, Block(size - n - 2, false), next)
  {
  }

  lemma SpanPages(bs: seq<Block>)
    ensures Span(bs + [Block(PAGE_GRANULES - 2, false)]) == Span(bs) + PAGE_GRANULES
  {
    SpanAppend(bs, Block(PAGE_GRANULES - 2, false));
  }

  lemma SameLiveReflexive(bs: seq<Block>)
    ensures SameLive(bs, bs)
  {
  }

  lemma GrowByStep(bs: seq<Block>, k: nat)
    ensures GrowBy(bs, 0) == bs && GrowBy(bs, k + 1) == Grow(GrowBy(bs, k))
  {
  }

  /** A free page at the end adds no live word. */
  lemma AppendSameLive(bs: seq<Block>)
    ensures SameLive(bs, bs + [Block(PAGE_GRANULES - 2, false)])
  {
    var page := Block(PAGE_GRANULES - 2, false);
    hide InLive;
    InLiveConcat(bs, [page], 0);
    LiveInOne(page, Span(bs));
  }

  lemma GrowLiveKept(bs: seq<Block>, appended: seq<Block>, m0: seq<u32>, m1: seq<u32>, m2: seq<u32>)
    requires appended == bs + [Block(PAGE_GRANULES - 2, false)]
    requires LiveKept(bs, m0, m1) && LiveKept(appended, m1, m2)
    ensures LiveKept(bs, m0, m2)
  {
    AppendSameLive(bs);
  }

  lemma LiveKeptThrough(a: seq<Block>, b: seq<Block>, m0: seq<u32>, m1: seq<u32>, m2: seq<u32>)
    requires SameLive(a, b) && LiveKept(a, m0, m1) && LiveKept(b, m1, m2)
    ensures LiveKept(a, m0, m2)
  {
  }

  /** Joining free blocks leaves the live words alone. */
  lemma {:induction false} MergeSameLive(bs: seq<Block>)
    ensures SameLive(bs, Merge(bs))
  {
    MergeSameLiveAt(bs, 0);
  }

  lemma {:induction false} MergeSameLiveAt(bs: seq<Block>, at: nat)
    ensures forall k: int :: InLive(Merge(bs), at, k) <==> InLive(bs, at, k)
    decreases |bs|
  {
    if |bs| >= 2 {
      if !bs[0].used && !bs[1].used {
        var joined := [Block(bs[0].size + 2 + bs[1].size, false)] + bs[2..];
        assert joined[1..] == bs[2..] && bs[1..][1..] == bs[2..];
        MergeSameLiveAt(joined, at);
      } else {
        MergeSameLiveAt(bs[1..], at + 2 + bs[0].size);
        assert Merge(bs)[1..] == Merge(bs[1..]);
      }
    }
  }

  lemma GrowSameLive(a: seq<Block>, b: seq<Block>)
    requires SameLive(a, b)
    ensures SameLive(a, Grow(b))
  {
    AppendSameLive(b);
    MergeSameLive(b + [Block(PAGE_GRANULES - 2, false)]);
  }

  /** Progress of heap_coalesce: `pre` is final, `rest` still to be joined. */
  ghost predicate Coalescing(start: seq<Block>, image: seq<u32>, now: seq<Block>, mem: seq<u32>, pre: seq<Block>, rest: seq<Block>) {
    now == pre + rest && pre + Merge(rest) == Merge(start) && SameLive(start, now) && LiveKept(start, image, mem)
  }

  lemma Coalesced(start: seq<Block>, image: seq<u32>, now: seq<Block>, mem: seq<u32>, pre: seq<Block>)
    requires Coalescing(start, image, now, mem, pre, [])
    ensures now == Merge(start) && LiveKept(start, image, mem)
  {
    assert pre + [] == pre;
  }

  /** Directory slot and page number of the first uncommitted heap page. */
  lemma HeapAddress(span: nat)
    requires Addr(span) < KHEAP_LIMIT && span % PAGE_GRANULES == 0
    ensures Addr(span) / 0x40_0000 == HEAP_SLOT && Addr(span) / 0x1000 == HEAP_PAGE + span / PAGE_GRANULES
    ensures span / PAGE_GRANULES < 1024 && PRESENT_RW | PRESENT_RW == PRESENT_RW && HEAP_SLOT < 1024
    ensures HEAP_PAGE + span / PAGE_GRANULES < HEAP_PAGE + 1024
  {
  }

  lemma GrewOnce()
    ensures Grow([]) == [Block(PAGE_GRANULES - 2, false)] && Span([]) == 0 && Normal([])
  {
    GrowNormal([]);
  }

  lemma SplitAt(bs: seq<Block>, i: nat)
    requires i < |bs|
    ensures bs == bs[..i] + [bs[i]] + bs[i + 1..]
  {
  }
}
