/** The storage service's check of a user buffer before the kernel writes to it. */
module StorageAccess {
  import opened MachineWords
  import opened PageSpec
  import opened Paging
  import L = ProcessLdt
  import D = SegmentDescriptors

  const DATA_OFFSET := 0x40_0000
  const DATA_SIZE := 0x50_0000

  /** The process-object words the check reads. */
  datatype ProcessWords = ProcessWords(pageDir: u32, slotBase: u32, kind: u32)

  /** storage_user_range: linear address of a buffer inside the 5 MiB data segment, or 0. */
  function UserRange(slot: u32, offset: u32, size: u32): (linear: u32)
    ensures linear != 0 <==> 0x10_0000 <= slot <= 0x3F60_0000 && size > 0 && offset + size <= 0x50_0000
    ensures linear != 0 ==> linear == slot + 0x40_0000 + offset && linear + size <= slot + 0x90_0000 <= WORD
  {
    if slot < 0x10_0000 || slot > 0x4000_0000 - 0xA0_0000 ||
       size == 0 || offset >= DATA_SIZE || size > DATA_SIZE - offset then 0
    else slot + DATA_OFFSET + offset
  }

  /** For a process as it is created, the check accepts exactly the buffers inside the limit of its
      data segment, and answers the linear address the processor itself forms: the base of the
      data descriptor plus the offset. */
  lemma RangeIsDataSegment(table: seq<bv32>, cs: u16, ds: u16, ss: u16, index: nat, offset: u32, size: u32)
    requires index < 100 && L.Segmented(table, cs, ds, ss, L.SlotWord(index))
    ensures
      var data := D.Entry(table, ds);
      var linear := UserRange(L.SlotBase(index), offset, size);
      (linear != 0 <==> size > 0 && offset + size - 1 <= D.EffectiveLimit(data) as int) &&
      (linear != 0 ==> linear == D.Base(data) as int + offset)
  {
    hide *;
    SlotsAreSlots(index);
    L.DataSegment(table, cs, ds, ss, L.SlotWord(index));
  }

  lemma SlotsAreSlots(index: nat)
    requires index < 100
    ensures 0x10_0000 <= L.SlotBase(index) <= 0x3F60_0000
  {
  }

  /** storage_user_page_writable on the two words of a walk. */
  predicate PageWritable(pde: Entry, pte: Entry) {
    pde.flags & 0x087 == 0x007 && pte.flags & 0x207 == 0x207
  }

  /** The page behind a walk is present, user, writable at both levels, 4 KiB and owned. */
  ghost predicate WritableLeaf(leaf: Leaf) {
    leaf.SmallPage? && PageWritable(Entry(0, leaf.dirFlags), leaf.pte)
  }

  predicate ValidTable(physical: u32) {
    POOL_BASE * 0x1000 <= physical < POOL_END * 0x1000 && physical % 0x1000 == 0
  }

  /** Every byte of the `size` bytes from `linear` is on a writable page. */
  ghost predicate Granted(m: Memory, dir: Frame, linear: u32, size: u32)
    requires dir in m && linear + size <= WORD
  {
    forall a | linear <= a < linear + size :: WritableByte(m, dir, a)
  }

  ghost predicate WritableByte(m: Memory, dir: Frame, address: u32)
    requires dir in m
  {
    WritableLeaf(Walk(m, dir, address / 0x1000))
  }

  lemma WritableMeans(m: Memory, dirs: set<Frame>, home: map<Frame, (Frame, nat)>, dir: Frame, page: PageNumber)
    requires Sharing(m, dirs, home) && dir in dirs
    ensures
      var pde := m[dir][page / 1024];
      WritableLeaf(Walk(m, dir, page)) <==>
        pde.flags & 0x087 == 0x007 && pde.frame in m && PageWritable(pde, m[pde.frame][page % 1024])
    ensures m[dir][page / 1024].flags & 0x087 == 0x007 ==> m[dir][page / 1024].frame in home
  {
    var pde := m[dir][page / 1024];
    var f := pde.flags;
    assert f & 0x087 == 0x007 ==> f & 0x001 != 0 && f & 0x080 == 0;
    if pde.frame in m {
      var g := m[pde.frame][page % 1024].flags;
      assert g & 0x207 == 0x207 ==> g & 0x001 != 0;
    }
  }

  lemma WritablePages(m: Memory, dir: Frame, linear: u32, size: u32)
    requires dir in m && size > 0 && linear + size <= WORD
    ensures Granted(m, dir, linear, size)
       <==> (forall p: PageNumber | linear / 0x1000 <= p <= (linear + size - 1) / 0x1000 :: WritableLeaf(Walk(m, dir, p)))
  {
    if Granted(m, dir, linear, size) {
      forall p: PageNumber | linear / 0x1000 <= p <= (linear + size - 1) / 0x1000 ensures WritableLeaf(Walk(m, dir, p)) {
        var a := if p * 0x1000 < linear then linear else p * 0x1000;
        assert a / 0x1000 == p;
        assert WritableByte(m, dir, a);
      }
    }
  }

  /** user_output: grants the buffer exactly when the request is in range, the process is a
      protected one whose directory is loaded, and every byte lies on a writable owned page. */
  method UserOutput(tables: PageTables, process: ProcessWords, cr3: u32, offset: u32, size: u32) returns (buffer: u32)
    requires tables.Valid()
    requires ValidTable(process.pageDir) ==> process.pageDir / 0x1000 in tables.dirs
    ensures buffer != 0 <==>
      0x10_0000 <= process.slotBase <= 0x3F60_0000 && size > 0 && offset + size <= 0x50_0000 && process.kind == 0 &&
      ValidTable(process.pageDir) && cr3 / 0x1000 * 0x1000 == process.pageDir &&
      Granted(tables.pages, process.pageDir / 0x1000, process.slotBase + 0x40_0000 + offset, size)
    ensures buffer != 0 ==> buffer == process.slotBase + 0x40_0000 + offset
  {
    var linear := UserRange(process.slotBase, offset, size);
    var pd := process.pageDir;
    if linear == 0 || process.kind != 0 || !ValidTable(pd) || cr3 / 0x1000 * 0x1000 != pd {
      return 0;
    }
    var dir: Frame := pd / 0x1000;
    WritablePages(tables.pages, dir, linear, size);
    var ok := PagesGranted(tables, dir, linear, linear + size - 1);
    return if ok then linear else 0;
  }

  /** The loop of user_output over the pages from `linear` to `end`. */
  method PagesGranted(tables: PageTables, dir: Frame, linear: u32, end: u32) returns (ok: bool)
    requires tables.Valid() && dir in tables.dirs && dir in tables.pages && linear <= end
    ensures ok <==> forall p: PageNumber | linear / 0x1000 <= p <= end / 0x1000 :: WritableLeaf(Walk(tables.pages, dir, p))
  {
    hide WritableLeaf, Walk, Consistent;
    var page := linear / 0x1000 * 0x1000;
    while page <= end / 0x1000 * 0x1000
      invariant page % 0x1000 == 0 && linear / 0x1000 <= page / 0x1000 <= end / 0x1000 + 1
      invariant forall p: PageNumber | linear / 0x1000 <= p < page / 0x1000 :: WritableLeaf(Walk(tables.pages, dir, p))
      decreases end - page
    {
      ok := PageGranted(tables, dir, page);
      if !ok {
        return;
      }
      page := page + 0x1000;
    }
    ok := true;
  }

  /** One page of the walk in user_output. */
  method PageGranted(tables: PageTables, dir: Frame, page: u32) returns (ok: bool)
    requires tables.Valid() && dir in tables.dirs && dir in tables.pages && page % 0x1000 == 0
    ensures ok <==> WritableLeaf(Walk(tables.pages, dir, page / 0x1000))
  {
    ghost var number: PageNumber := page / 0x1000;
    assert number / 1024 == page / 0x40_0000;
    WritableMeans(tables.pages, tables.dirs, tables.home, dir, number);
    hide Walk, WritableLeaf;
    var pde := tables.pages[dir][page / 0x40_0000];
    if pde.flags & 0x087 == 0x007 {
      InUseIsPool(tables.pages, tables.freeList, tables.next, tables.free, tables.dirs, tables.home, pde.frame);
    }
    if pde.flags & 0x087 != 0x007 || !ValidTable(pde.frame as int * 0x1000) {
      return false;
    }
    var pte := tables.pages[pde.frame][page / 0x1000 % 1024];
    return PageWritable(pde, pte);
  }

  lemma InUseIsPool(m: Memory, head: Frame, next: nat, free: seq<Frame>, dirs: set<Frame>,
                    home: map<Frame, (Frame, nat)>, t: Frame)
    requires Consistent(m, head, next, free, dirs, home) && t in home
    ensures ValidTable(t as int * 0x1000)
  {
    assert t in Taken(dirs, home);
  }
}
