/** The local descriptor table of a new process: three segments at random places. */
module ProcessLdt {
  import opened MachineWords
  import opened SegmentDescriptors

  const LDT_ENTRIES := 512
  const AREA_BASE: u32 := 0x10_0000     // PROCESS_AREA_BASE
  const SLOT_SIZE := 0xA0_0000          // PROCESS_SLOT_SIZE
  const CODE_ACCESS: bv32 := 0xFA
  const DATA_ACCESS: bv32 := 0xF2

  /** Linear base of a process slot. */
  function SlotBase(index: nat): u32
    requires index < 100
  {
    AREA_BASE + SLOT_SIZE * index
  }

  /** The same as a machine word. */
  function SlotWord(index: nat): (base: bv32)
    requires index < 100
    ensures base as int == SlotBase(index)
  {
    if index == 0 then 0x10_0000
    else
      var below := SlotWord(index - 1);
      SlotBelow(below);
      NextSlot(below);
      below + 0xA0_0000
  }

  lemma SlotBelow(base: bv32) ensures base <= 0x3F60_0000 <==> base as int <= 0x3F60_0000 {}

  lemma NextSlot(base: bv32)
    requires base <= 0x3F60_0000
    ensures (base + 0xA0_0000) as int == base as int + 0xA0_0000
  {
  }

  /** The descriptor behind `selector` covers `base..base+limit` with the given rights. */
  predicate Covers(table: seq<bv32>, selector: u16, base: bv32, limit: bv32, access: bv32)
    requires |table| == 2 * LDT_ENTRIES
  {
    8 <= selector < 8 * LDT_ENTRIES && selector % 8 == 7 &&
    Base(Entry(table, selector)) == base && EffectiveLimit(Entry(table, selector)) == limit && Access(Entry(table, selector)) == access
  }

  predicate Different(cs: u16, ds: u16, ss: u16) {
    cs / 8 != ds / 8 && cs / 8 != ss / 8 && ds / 8 != ss / 8
  }

  /** Code, data and stack of the slot at `base`: 4, 5 and 1 MiB, back to back. */
  predicate Segmented(table: seq<bv32>, cs: u16, ds: u16, ss: u16, base: bv32) {
    |table| == 2 * LDT_ENTRIES && Different(cs, ds, ss) &&
    Covers(table, cs, base, 0x3F_FFFF, CODE_ACCESS) && Covers(table, ds, base + 0x40_0000, 0x4F_FFFF, DATA_ACCESS) &&
    Covers(table, ss, base + 0x90_0000, 0xF_FFFF, DATA_ACCESS)
  }

  /** The data segment of a slot, as numbers. */
  lemma DataSegment(table: seq<bv32>, cs: u16, ds: u16, ss: u16, base: bv32)
    requires Segmented(table, cs, ds, ss, base) && base as int <= 0x3F60_0000
    ensures Slot(ds) + 1 < |table|
    ensures Base(Entry(table, ds)) as int == base as int + 0x40_0000 && EffectiveLimit(Entry(table, ds)) as int == 0x4F_FFFF
  {
    hide *;
    SlotBelow(base);
    DataBase(base);
    DataWords(table, cs, ds, ss, base);
  }

  lemma DataBase(base: bv32)
    requires base <= 0x3F60_0000
    ensures (base + 0x40_0000) as int == base as int + 0x40_0000
  {
  }

  lemma DataWords(table: seq<bv32>, cs: u16, ds: u16, ss: u16, base: bv32)
    requires Segmented(table, cs, ds, ss, base)
    ensures Slot(ds) + 1 < |table| && Base(Entry(table, ds)) == base + 0x40_0000 && EffectiveLimit(Entry(table, ds)) == 0x4F_FFFF
  {
    hide Base, EffectiveLimit, Access;
  }

  /** Nothing that one process can address through its segments can another: those of a slot lie, back
      to back, in the ten megabytes from its base, and slots do not overlap. */
  lemma SegmentsOfSlotsAreDisjoint(table: seq<bv32>, cs: u16, ds: u16, ss: u16, i: nat,
                                   table': seq<bv32>, cs': u16, ds': u16, ss': u16, j: nat, x: u16, y: u16)
    requires i < 100 && j < 100 && i != j
    requires Segmented(table, cs, ds, ss, SlotWord(i)) && Segmented(table', cs', ds', ss', SlotWord(j))
    requires x in {cs, ds, ss} && y in {cs', ds', ss'}
    ensures Slot(x) + 1 < |table| && Slot(y) + 1 < |table'|
    ensures !Overlap(Entry(table, x), Entry(table', y))
  {
    hide *;
    InSlot(table, cs, ds, ss, i, x);
    InSlot(table', cs', ds', ss', j, y);
    SlotsApart(i, j);
    OverlapIs(Entry(table, x), Entry(table', y));
  }

  /** The linear addresses of a segment. */
  ghost function First(d: Descriptor): int { Base(d) as int }
  ghost function Last(d: Descriptor): int { Base(d) as int + EffectiveLimit(d) as int }

  /** Some linear address lies in both segments. */
  ghost predicate Overlap(d: Descriptor, e: Descriptor) {
    exists a: int :: Inside(d, a) && Inside(e, a)
  }

  ghost predicate Inside(d: Descriptor, a: int) {
    First(d) <= a <= Last(d)
  }

  lemma OverlapIs(d: Descriptor, e: Descriptor)
    ensures Overlap(d, e) ==> First(d) <= Last(e) && First(e) <= Last(d)
  {
    hide First, Last;
  }

  lemma SlotsApart(i: nat, j: nat)
    requires i < 100 && j < 100 && i != j
    ensures SlotBase(i) + 0xA0_0000 <= SlotBase(j) || SlotBase(j) + 0xA0_0000 <= SlotBase(i)
  {
  }

  lemma InSlot(table: seq<bv32>, cs: u16, ds: u16, ss: u16, i: nat, x: u16)
    requires i < 100 && Segmented(table, cs, ds, ss, SlotWord(i)) && x in {cs, ds, ss}
    ensures Slot(x) + 1 < |table|
    ensures SlotBase(i) <= First(Entry(table, x)) && Last(Entry(table, x)) < SlotBase(i) + 0xA0_0000
  {
    hide *;
    CodeExtent(table, cs, ds, ss, i);
    DataExtent(table, cs, ds, ss, i);
    StackExtent(table, cs, ds, ss, i);
  }

  lemma CodeExtent(table: seq<bv32>, cs: u16, ds: u16, ss: u16, i: nat)
    requires i < 100 && Segmented(table, cs, ds, ss, SlotWord(i))
    ensures Slot(cs) + 1 < |table|
    ensures First(Entry(table, cs)) == SlotBase(i) && Last(Entry(table, cs)) == SlotBase(i) + 0x3F_FFFF
  {
    CodeSegment(table, cs, ds, ss, SlotWord(i));
    hide Segmented, SlotWord, SlotBase, Base, EffectiveLimit, Entry, Slot;
  }

  lemma DataExtent(table: seq<bv32>, cs: u16, ds: u16, ss: u16, i: nat)
    requires i < 100 && Segmented(table, cs, ds, ss, SlotWord(i))
    ensures Slot(ds) + 1 < |table|
    ensures First(Entry(table, ds)) == SlotBase(i) + 0x40_0000 && Last(Entry(table, ds)) == SlotBase(i) + 0x8F_FFFF
  {
    SlotIsLow(i);
    DataSegment(table, cs, ds, ss, SlotWord(i));
    hide Segmented, SlotWord, SlotBase, Base, EffectiveLimit, Entry, Slot;
  }

  lemma StackExtent(table: seq<bv32>, cs: u16, ds: u16, ss: u16, i: nat)
    requires i < 100 && Segmented(table, cs, ds, ss, SlotWord(i))
    ensures Slot(ss) + 1 < |table|
    ensures First(Entry(table, ss)) == SlotBase(i) + 0x90_0000 && Last(Entry(table, ss)) == SlotBase(i) + 0x9F_FFFF
  {
    SlotIsLow(i);
    StackSegment(table, cs, ds, ss, SlotWord(i));
    hide Segmented, SlotWord, SlotBase, Base, EffectiveLimit, Entry, Slot;
  }

  lemma SlotIsLow(i: nat)
    requires i < 100
    ensures SlotBase(i) <= 0x3F60_0000
  {
  }

  lemma CodeSegment(table: seq<bv32>, cs: u16, ds: u16, ss: u16, base: bv32)
    requires Segmented(table, cs, ds, ss, base)
    ensures Slot(cs) + 1 < |table|
    ensures Base(Entry(table, cs)) as int == base as int && EffectiveLimit(Entry(table, cs)) as int == 0x3F_FFFF
  {
    hide Base, EffectiveLimit, Access;
  }

  lemma StackSegment(table: seq<bv32>, cs: u16, ds: u16, ss: u16, base: bv32)
    requires Segmented(table, cs, ds, ss, base) && base as int <= 0x3F60_0000
    ensures Slot(ss) + 1 < |table|
    ensures Base(Entry(table, ss)) as int == base as int + 0x90_0000 && EffectiveLimit(Entry(table, ss)) as int == 0xF_FFFF
  {
    hide *;
    SlotBelow(base);
    StackOffset(base);
    StackWords(table, cs, ds, ss, base);
  }

  lemma StackOffset(base: bv32)
    requires base <= 0x3F60_0000
    ensures (base + 0x90_0000) as int == base as int + 0x90_0000
  {
  }

  lemma StackWords(table: seq<bv32>, cs: u16, ds: u16, ss: u16, base: bv32)
    requires Segmented(table, cs, ds, ss, base)
    ensures Slot(ss) + 1 < |table| && Base(Entry(table, ss)) == base + 0x90_0000 && EffectiveLimit(Entry(table, ss)) == 0xF_FFFF
  {
    hide Base, EffectiveLimit, Access;
  }

  /** The access bytes: present code and data segments of privilege 3, the code executable and readable,
      data and stack writable and not executable. */
  lemma UserRights()
    ensures CODE_ACCESS & 0x80 != 0 && CODE_ACCESS & 0x60 == 0x60 && CODE_ACCESS & 0x10 != 0 && CODE_ACCESS & 0x8 != 0 && CODE_ACCESS & 0x2 != 0
    ensures DATA_ACCESS & 0x80 != 0 && DATA_ACCESS & 0x60 == 0x60 && DATA_ACCESS & 0x10 != 0 && DATA_ACCESS & 0x8 == 0 && DATA_ACCESS & 0x2 != 0
  {
  }

  predicate UserSelector(selector: u16) {
    selector % 8 == 7 && 1 <= selector / 8 < LDT_ENTRIES
  }

  lemma WrittenCovers(table: seq<bv32>, selector: u16, base: bv32, limit: bv32, access: bv32)
    requires |table| == 2 * LDT_ENTRIES && UserSelector(selector) && access & 0xFF == access && (limit <= 0xF_FFFF || limit & 0xFFF == 0xFFF)
    ensures Slot(selector) + 1 < |table|
    ensures
      var d := Segment(base, limit, access);
      Covers(table[Slot(selector) := d.low][Slot(selector) + 1 := d.high], selector, base, limit, access)
  {
    SegmentRoundTrip(base, limit, access);
    WholePage(limit);
    OthersKeepTheirs(table, selector, Segment(base, limit, access), selector);
    hide Segment, Base, EffectiveLimit, Access;
  }

  lemma WholePage(limit: bv32)
    ensures limit & 0xFFF == 0xFFF ==> limit | 0xFFF == limit
  {
  }

  lemma OthersStayCovered(table: seq<bv32>, selector: u16, d: Descriptor, other: u16, base: bv32, limit: bv32, access: bv32)
    requires |table| == 2 * LDT_ENTRIES && UserSelector(selector) && other / 8 != selector / 8 && Covers(table, other, base, limit, access)
    ensures Slot(selector) + 1 < |table|
    ensures Covers(table[Slot(selector) := d.low][Slot(selector) + 1 := d.high], other, base, limit, access)
  {
    OthersKeepTheirs(table, selector, d, other);
    hide Base, EffectiveLimit, Access;
  }

  lemma Rights()
    ensures CODE_ACCESS & 0xFF == CODE_ACCESS && DATA_ACCESS & 0xFF == DATA_ACCESS
    ensures 0x3F_FFFF as bv32 & 0xFFF == 0xFFF && 0x4F_FFFF as bv32 & 0xFFF == 0xFFF
  {
  }

  /** The three calls of ldt_write_segment_descriptor. */
  method WriteSegments(table: array<bv32>, cs: u16, ds: u16, ss: u16, base: bv32)
    requires table.Length == 2 * LDT_ENTRIES && UserSelector(cs) && UserSelector(ds) && UserSelector(ss) && Different(cs, ds, ss)
    modifies table
    ensures Segmented(table[..], cs, ds, ss, base)
  {
    hide Segment, Covers, Slot;
    Rights();
    ghost var t0 := table[..];
    WrittenCovers(t0, cs, base, 0x3F_FFFF, CODE_ACCESS);
    WriteRaw(table, cs, Segment(base, 0x3F_FFFF, CODE_ACCESS));
    ghost var t1 := table[..];
    WrittenCovers(t1, ds, base + 0x40_0000, 0x4F_FFFF, DATA_ACCESS);
    OthersStayCovered(t1, ds, Segment(base + 0x40_0000, 0x4F_FFFF, DATA_ACCESS), cs, base, 0x3F_FFFF, CODE_ACCESS);
    WriteRaw(table, ds, Segment(base + 0x40_0000, 0x4F_FFFF, DATA_ACCESS));
    ghost var t2 := table[..];
    WrittenCovers(t2, ss, base + 0x90_0000, 0xF_FFFF, DATA_ACCESS);
    OthersStayCovered(t2, ss, Segment(base + 0x90_0000, 0xF_FFFF, DATA_ACCESS), cs, base, 0x3F_FFFF, CODE_ACCESS);
    OthersStayCovered(t2, ss, Segment(base + 0x90_0000, 0xF_FFFF, DATA_ACCESS), ds, base + 0x40_0000, 0x4F_FFFF, DATA_ACCESS);
    WriteRaw(table, ss, Segment(base + 0x90_0000, 0xF_FFFF, DATA_ACCESS));
  }

  /** A fresh bitmap with the null entry taken. */
  method FreshBitmap() returns (bitmap: array<bool>)
    ensures fresh(bitmap) && bitmap.Length == LDT_ENTRIES && forall i | 0 <= i < LDT_ENTRIES :: bitmap[i] == (i == 0)
  {
    bitmap := new bool[LDT_ENTRIES](_ => false);
    bitmap[0] := true;
  }

  /** The three calls of ldt_alloc_selector, whatever the time stamps: on a fresh bitmap they
      cannot fail, and the entries differ. */
  method ChooseSelectors(bitmap: array<bool>, t0: u32, t1: u32, t2: u32) returns (ok: bool, cs: u16, ds: u16, ss: u16)
    requires bitmap.Length == LDT_ENTRIES && forall i | 0 <= i < LDT_ENTRIES :: bitmap[i] == (i == 0)
    modifies bitmap
    ensures ok && UserSelector(cs) && UserSelector(ds) && UserSelector(ss) && Different(cs, ds, ss)
  {
    var a, b, c := 0, 0, 0;
    ghost var s0 := bitmap[..];
    assert !bitmap[1];
    a := LdtAlloc(bitmap, t0);
    ghost var s1 := bitmap[..];
    assert s1 == s0[a / 8 := true] && (!bitmap[1] || !bitmap[2]);
    if a != 0 {
      b := LdtAlloc(bitmap, t1);
    }
    ghost var s2 := bitmap[..];
    assert s2 == s1[b / 8 := true] && (!bitmap[1] || !bitmap[2] || !bitmap[3]);
    if b != 0 {
      c := LdtAlloc(bitmap, t2);
    }
    ok, cs, ds, ss := c != 0, a, b, c;
  }
}
