/** What a process holds besides memory pages, and what it means to hold exactly that. */
module ProcessBooks {
  import opened MachineWords
  import opened PageSpec
  import opened Scheduler
  import opened HeapGrowth
  import opened ProcessMemory

  const NONE: u32 := 0xFFFF_FFFF
  const GDT_FIRST := 9        // GDT_FIRST_DYNAMIC
  const GDT_COUNT := 8192
  const PROCESS_MAX := 100

  /** The fields of a process object that name resources; 0 (NONE for the two indices) means
      not held. */
  datatype Pieces = Pieces(address: u32, tssBase: u32, kstackTop: u32, ldtBase: u32, ldtBitmap: u32,
                           tssSelector: u16, ldtSelector: u16, slot: u32, entry: u32)

  /** The kernel's books: live heap payloads, GDT and slot bitmaps, process table, run table and
      display owner. */
  datatype Books = Books(live: map<int, int>, gdt: seq<bool>, slots: seq<bool>, table: seq<u32>, active: nat,
                         queue: Sched, owner: u16)

  predicate LdtHeld(q: Pieces) {
    q.ldtBase != 0 && q.ldtBitmap != 0 && q.ldtSelector != 0
  }

  /** A process with nothing missing. */
  predicate Whole(q: Pieces) {
    LdtHeld(q) && q.tssBase != 0 && q.kstackTop != 0 && q.tssSelector != 0 && q.slot != NONE && q.entry != NONE
  }

  function One(p: int): set<int> {
    if p == 0 then {} else {p}
  }

  /** The heap payloads of a process. */
  function Payloads(q: Pieces): set<int> {
    {q.address as int} + One(q.tssBase) + One(if q.kstackTop == 0 then 0 else q.kstackTop - 0x1000) + One(q.ldtBase) + One(q.ldtBitmap)
  }

  predicate Apart(q: Pieces) {
    var k := if q.kstackTop == 0 then 0 else q.kstackTop - 0x1000;
    q.address != 0 && (q.kstackTop != 0 ==> k > 0) && q.address !in One(q.tssBase) + One(k) + One(q.ldtBase) + One(q.ldtBitmap) &&
    q.tssBase !in One(k) + One(q.ldtBase) + One(q.ldtBitmap) && k !in One(q.ldtBase) + One(q.ldtBitmap) && q.ldtBase !in One(q.ldtBitmap)
  }

  function Entry8(sel: u16): set<int> {
    if sel == 0 then {} else {sel / 8}
  }

  /** The GDT entries of a process. */
  function Entries(q: Pieces): set<int> {
    Entry8(q.tssSelector) + Entry8(q.ldtSelector)
  }

  predicate GoodSelector(sel: u16) {
    sel == 0 || (sel % 8 == 0 && GDT_FIRST <= sel / 8 < GDT_COUNT)
  }

  function WithBits(bits: seq<bool>, which: set<int>, value: bool): (r: seq<bool>) {
    seq(|bits|, i requires 0 <= i < |bits| => if i in which then value else bits[i])
  }

  // ---- Holding exactly these pieces on top of a starting point ----

  ghost predicate LiveBilled(live0: map<int, int>, live: map<int, int>, q: Pieces) {
    Apart(q) && Payloads(q) !! live0.Keys && live.Keys == live0.Keys + Payloads(q) && live - Payloads(q) == live0
  }

  ghost predicate GdtBilled(gdt0: seq<bool>, gdt: seq<bool>, q: Pieces) {
    |gdt0| == GDT_COUNT && GoodSelector(q.tssSelector) && GoodSelector(q.ldtSelector) &&
    (forall i | i in Entries(q) :: 0 <= i < |gdt0| && !gdt0[i]) && gdt == WithBits(gdt0, Entries(q), true) &&
    (q.tssSelector != 0 ==> q.tssSelector != q.ldtSelector)
  }

  ghost predicate SlotBilled(slots0: seq<bool>, slots: seq<bool>, q: Pieces) {
    |slots0| == PROCESS_MAX &&
    if q.slot == NONE then slots == slots0
    else q.slot < |slots0| && !slots0[q.slot] && slots == slots0[q.slot := true]
  }

  ghost predicate TableBilled(b0: Books, b: Books, q: Pieces) {
    if q.entry == NONE then b.table == b0.table && b.active == b0.active
    else q.entry < |b0.table| == PROCESS_MAX && b0.table[q.entry] == 0 && b.table == b0.table[q.entry := q.address] && b.active == b0.active + 1
  }

  /** Everything but the run table. */
  ghost predicate Owed(b0: Books, b: Books, q: Pieces) {
    LiveBilled(b0.live, b.live, q) && GdtBilled(b0.gdt, b.gdt, q) && SlotBilled(b0.slots, b.slots, q) && TableBilled(b0, b, q) &&
    b.owner == b0.owner && Sound(b0.queue) && Allocated(b0.queue, b0.gdt) && (q.tssSelector == 0 || b0.owner != q.tssSelector)
  }

  /** `b` is `b0` plus exactly the pieces `q`; `queued` tells whether the task is runnable. */
  ghost predicate Billed(b0: Books, b: Books, q: Pieces, queued: bool) {
    Owed(b0, b, q) &&
    if queued then q.tssSelector != 0 && Addition(b0.queue, q.tssSelector) == (b.queue, true) else b.queue == b0.queue
  }

  /** Every selector the scheduler knows is an allocated GDT entry. */
  ghost predicate Allocated(s: Sched, gdt: seq<bool>) {
    forall sel | sel in NonZero(s.run) || sel == s.kernel :: TakenSelector(gdt, sel)
  }

  ghost predicate TakenSelector(gdt: seq<bool>, sel: u16) {
    sel == 0 || (sel % 8 == 0 && sel / 8 < |gdt| && gdt[sel / 8])
  }

  /** What holds of the books between operations. */
  ghost predicate InOrder(b: Books) {
    Sound(b.queue) && Allocated(b.queue, b.gdt) && (b.owner == 0 || TakenSelector(b.gdt, b.owner)) &&
    |b.gdt| == GDT_COUNT && |b.slots| == PROCESS_MAX && |b.table| == PROCESS_MAX
  }

  /** The books at boot: the kernel task holds the first dynamic GDT entry, and nobody else
      holds anything but heap payloads. */
  function BootBooks(live: map<int, int>): Books {
    var kernel: u16 := 8 * GDT_FIRST;
    Books(live, seq(GDT_COUNT, i => i <= GDT_FIRST), seq(PROCESS_MAX, _ => false), seq(PROCESS_MAX, _ => 0), 0,
          Sched(seq(MAX_TASKS, _ => 0), KERNEL_INDEX, 0, kernel, kernel), 0)
  }

  lemma BootFields(b: Books)
    requires |b.gdt| == GDT_COUNT && (forall i | 0 <= i < GDT_COUNT :: b.gdt[i] == (i <= GDT_FIRST))
    requires |b.slots| == PROCESS_MAX && (forall i | 0 <= i < PROCESS_MAX :: !b.slots[i])
    requires |b.table| == PROCESS_MAX && (forall i | 0 <= i < PROCESS_MAX :: b.table[i] == 0)
    requires b.active == 0 && b.owner == 0
    requires b.queue == Sched(seq(MAX_TASKS, _ => 0), KERNEL_INDEX, 0, 8 * GDT_FIRST, 8 * GDT_FIRST)
    ensures b == BootBooks(b.live)
  {
    assert b.gdt == BootBooks(b.live).gdt;
    assert b.slots == BootBooks(b.live).slots;
    assert b.table == BootBooks(b.live).table;
  }

  lemma BootInOrder(live: map<int, int>)
    ensures InOrder(BootBooks(live))
  {
    AllOccupied(seq(MAX_TASKS, _ => 0), MAX_TASKS);
  }

  /** Adding pieces keeps the books in order. */
  lemma BilledInOrder(b0: Books, b: Books, q: Pieces, queued: bool)
    requires InOrder(b0) && Billed(b0, b, q, queued)
    ensures InOrder(b)
  {
    forall sel | TakenSelector(b0.gdt, sel) ensures TakenSelector(b.gdt, sel) {}
    if queued {
      FreshSelector(b0.queue, b0.gdt, q.tssSelector);
      AdditionSound(b0.queue, q.tssSelector);
      var i :| TookSlot(b0.queue.run, b.queue.run, i, q.tssSelector);
      TookSlotQueues(b0.queue.run, b.queue.run, i, q.tssSelector);
      assert q.tssSelector / 8 in Entries(q);
    }
  }

  // ---- Room for one process more ----

  ghost function ClearEntries(gdt: seq<bool>): (r: set<int>)
    ensures forall i :: i in r <==> GDT_FIRST <= i < |gdt| && !gdt[i]
  {
    set i | GDT_FIRST <= i < |gdt| && !gdt[i]
  }

  /** A process slot is clear. */
  ghost predicate SlotLeft(b: Books) { exists i :: 0 <= i < |b.slots| && !b.slots[i] }

  /** An entry of the process table is empty. */
  ghost predicate EntryLeft(b: Books) { exists i :: 0 <= i < |b.table| && b.table[i] == 0 }

  /** The run table has a free slot. */
  ghost predicate TaskLeft(b: Books) { b.queue.count < MAX_TASKS }

  /** Every index a process needs can be had: a slot, a table entry, two GDT entries, a task slot. */
  ghost predicate Room(b: Books) {
    SlotLeft(b) && EntryLeft(b) && |ClearEntries(b.gdt)| >= 2 && TaskLeft(b)
  }

  /** The lowest clear bit, and the lowest empty entry. */
  ghost predicate LowestClear(bits: seq<bool>, i: int) {
    0 <= i < |bits| && !bits[i] && forall j | 0 <= j < i :: bits[j]
  }

  ghost predicate LowestZero(words: seq<u32>, i: int) {
    0 <= i < |words| && words[i] == 0 && forall j | 0 <= j < i :: words[j] != 0
  }

  lemma LowestBit(bits: seq<bool>)
    ensures forall i :: LowestClear(bits, i) <==> 0 <= i < |bits| && !bits[i] && forall j | 0 <= j < i :: bits[j]
  {
  }

  lemma LowestIs(words: seq<u32>)
    ensures forall i :: LowestZero(words, i) <==> 0 <= i < |words| && words[i] == 0 && forall j | 0 <= j < i :: words[j] != 0
  {
  }

  lemma SlotLeftIs(b: Books)
    ensures SlotLeft(b) <==> exists i :: 0 <= i < |b.slots| && !b.slots[i]
  {
  }

  lemma EntryLeftIs(b: Books)
    ensures EntryLeft(b) <==> exists i :: 0 <= i < |b.table| && b.table[i] == 0
  {
  }

  /** What is not held yet is as it was. */
  lemma OwedParts(b0: Books, b: Books, q: Pieces)
    requires Billed(b0, b, q, false)
    ensures Owed(b0, b, q) && b.queue == b0.queue && (q.slot == NONE ==> b.slots == b0.slots) && |b0.slots| == PROCESS_MAX
    ensures q.entry == NONE ==> b.table == b0.table
  {
  }

  lemma RoomIs(b: Books)
    ensures Room(b) <==> SlotLeft(b) && EntryLeft(b) && |ClearEntries(b.gdt)| >= 2 && TaskLeft(b)
  {
  }

  lemma EntryTaken(gdt: seq<bool>, i: nat)
    requires GDT_FIRST <= i < |gdt| && !gdt[i]
    ensures |ClearEntries(gdt[i := true])| == |ClearEntries(gdt)| - 1
  {
    assert ClearEntries(gdt[i := true]) == ClearEntries(gdt) - {i};
  }

  lemma NoEntries(gdt: seq<bool>)
    requires forall i | GDT_FIRST <= i < |gdt| :: gdt[i]
    ensures |ClearEntries(gdt)| == 0
  {
    assert ClearEntries(gdt) == {};
  }

  /** A created process took a slot, a table entry, two GDT entries and a task slot. */
  lemma CreatedHadRoom(b0: Books, b: Books, q: Pieces)
    requires Billed(b0, b, q, true) && Whole(q)
    ensures Room(b0)
  {
    var i, j := q.tssSelector / 8, q.ldtSelector / 8;
    assert i in Entries(q) && j in Entries(q);
    assert {i as int, j as int} <= ClearEntries(b0.gdt) && |{i as int, j as int}| == 2;
    Fewer({i as int, j as int}, ClearEntries(b0.gdt));
    TaskHadRoom(b0, b, q);
    hide LiveBilled, Sound, Addition, Allocated, NonZero;
  }

  lemma Fewer(a: set<int>, b: set<int>)
    requires a <= b
    ensures |a| <= |b|
  {
    assert b == a + (b - a);
  }

  lemma TaskHadRoom(b0: Books, b: Books, q: Pieces)
    requires Owed(b0, b, q) && q.tssSelector != 0
    ensures Addition(b0.queue, q.tssSelector).1 <==> TaskLeft(b0)
  {
    assert q.tssSelector / 8 in Entries(q);
    FreshSelector(b0.queue, b0.gdt, q.tssSelector);
    AdditionSound(b0.queue, q.tssSelector);
    hide LiveBilled, SlotBilled, TableBilled, Addition, NonZero;
  }

  /** At boot there is room. */
  lemma BootHasRoom(live: map<int, int>)
    ensures Room(BootBooks(live))
  {
    var b := BootBooks(live);
    assert !b.slots[0] && b.table[0] == 0;
    assert {10, 11} <= ClearEntries(b.gdt) && |{10, 11}| == 2;
    Fewer({10, 11}, ClearEntries(b.gdt));
  }

  // ---- Giving the pieces back ----

  /** process_unregister. */
  function Unregistered(b: Books, q: Pieces): Books {
    if q.entry < PROCESS_MAX && q.entry < |b.table| && b.table[q.entry] == q.address
    then b.(table := b.table[q.entry := 0], active := if b.active == 0 then 0 else b.active - 1) else b
  }

  /** process_destroy of a task that is not running. */
  function Settled(b: Books, q: Pieces): Books {
    var u := Unregistered(b, q);
    u.(live := b.live - Payloads(q), gdt := WithBits(b.gdt, Entries(q), false),
       slots := if q.slot < |b.slots| then b.slots[q.slot := false] else b.slots,
       queue := Removal(b.queue, q.tssSelector).0,
       owner := if q.tssSelector != 0 && b.owner == q.tssSelector then 0 else b.owner)
  }

  function Stack(q: Pieces): int {
    if q.kstackTop == 0 then 0 else q.kstackTop - 0x1000
  }

  /** The books after the task half of process_destroy. */
  function TaskGone(b: Books, q: Pieces): Books {
    var u := Unregistered(b, q);
    u.(owner := if q.tssSelector != 0 && b.owner == q.tssSelector then 0 else b.owner,
       gdt := WithBits(b.gdt, Entry8(q.tssSelector), false), live := b.live - One(q.tssBase) - One(Stack(q)))
  }

  /** The books after the address-space half. */
  function SpaceGone(b: Books, q: Pieces): Books {
    b.(gdt := WithBits(b.gdt, Entry8(q.ldtSelector), false),
       slots := if q.slot < |b.slots| then b.slots[q.slot := false] else b.slots,
       live := b.live - One(q.ldtBitmap) - One(q.ldtBase) - One(q.address))
  }

  /** The payloads the address-space half releases are live and distinct. */
  ghost predicate SpaceHeld(q: Pieces, live: map<int, int>) {
    (q.ldtBitmap == 0 || q.ldtBitmap in live) && (q.ldtBase == 0 || (q.ldtBase in live && q.ldtBase != q.ldtBitmap)) &&
    q.address != 0 && q.address in live && q.address != q.ldtBitmap && q.address != q.ldtBase
  }

  lemma Separate(q: Pieces, live: map<int, int>)
    requires Apart(q) && Payloads(q) <= live.Keys
    ensures (q.tssBase == 0 || q.tssBase in live) && (q.kstackTop != 0 ==> q.kstackTop > 0x1000 && Stack(q) in live - One(q.tssBase))
    ensures SpaceHeld(q, live - One(q.tssBase) - One(Stack(q)))
  {
  }

  lemma UnregisteredKeeps(b: Books, q: Pieces)
    ensures var u := Unregistered(b, q);
      u.live == b.live && u.gdt == b.gdt && u.owner == b.owner && u.slots == b.slots && u.queue == b.queue
  {
  }

  lemma TaskSteps(b: Books, b': Books, q: Pieces)
    requires var u := Unregistered(b, q);
      b' == u.(owner := if q.tssSelector != 0 && u.owner == q.tssSelector then 0 else u.owner,
               gdt := WithBits(u.gdt, Entry8(q.tssSelector), false), live := u.live - One(q.tssBase) - One(Stack(q)))
    ensures b' == TaskGone(b, q)
  {
  }

  lemma SpaceSteps(b: Books, b': Books, q: Pieces)
    requires b' == b.(gdt := WithBits(b.gdt, Entry8(q.ldtSelector), false),
      slots := if q.slot < |b.slots| then b.slots[q.slot := false] else b.slots,
      live := b.live - One(q.ldtBitmap) - One(q.ldtBase) - One(q.address))
    ensures b' == SpaceGone(b, q)
  {
  }

  lemma SpaceSeparate(q: Pieces, live: map<int, int>)
    requires SpaceHeld(q, live)
    ensures (q.ldtBitmap == 0 || q.ldtBitmap in live) && (q.ldtBase == 0 || q.ldtBase in live - One(q.ldtBitmap))
    ensures q.address in live - One(q.ldtBitmap) - One(q.ldtBase)
  {
  }

  /** The two halves make up process_destroy of a task that was not queued any more. */
  lemma HalvesSettle(b: Books, b': Books, q: Pieces)
    requires b' == b.(queue := Removal(b.queue, q.tssSelector).0) && q.address != 0
    ensures SpaceGone(TaskGone(b', q), q) == Settled(b, q)
  {
    assert SpaceGone(TaskGone(b', q), q).live == Settled(b, q).live;
    assert SpaceGone(TaskGone(b', q), q).gdt == Settled(b, q).gdt;
  }

  /** A selector from a clear GDT entry is unknown to the scheduler. */
  lemma FreshSelector(s: Sched, gdt: seq<bool>, sel: u16)
    requires Allocated(s, gdt) && sel != 0 && sel / 8 < |gdt| && !gdt[sel / 8]
    ensures sel !in NonZero(s.run) && sel != s.kernel
  {
    assert !TakenSelector(gdt, sel);
  }

  /** Adding a fresh task and removing it again restores the scheduler, unless it ran. */
  lemma AddThenRemove(s: Sched, sel: u16)
    requires Sound(s) && sel != 0 && sel !in NonZero(s.run) && sel != s.kernel && Addition(s, sel).1
    ensures Removal(Addition(s, sel).0, sel) == (s, true)
  {
    AdditionSound(s, sel);
    var t := Addition(s, sel).0;
    var i :| TookSlot(s.run, t.run, i, sel);
    forall j | 0 <= j < MAX_TASKS && j != i ensures t.run[j] != sel {
      assert s.run[j] != 0 ==> s.run[j] in NonZero(s.run);
      assert t.run[j] == s.run[j];
    }
    assert t.run[i] == sel;
    assert FirstOf(t.run, sel, 0) == i;
    assert t.run[i := 0] == s.run;
    AllOccupied(s.run, MAX_TASKS);
  }

  lemma RemoveAbsent(s: Sched, sel: u16)
    requires sel !in NonZero(s.run)
    ensures Removal(s, sel) == (s, true)
  {
    if sel != 0 { FoundIsQueued(s.run, sel); }
  }

  /** Giving everything back restores the books exactly: no leak and no double free, at every
      stage of the construction and after it. */
  lemma SettledIsRestored(b0: Books, b: Books, q: Pieces, queued: bool)
    requires Billed(b0, b, q, queued)
    ensures Settled(b, q) == b0
  {
    var s := Settled(b, q);
    assert s.live == b0.live;
    assert s.gdt == b0.gdt;
    assert s.slots == b0.slots;
    assert s.table == b0.table;
    if q.tssSelector != 0 {
      FreshSelector(b0.queue, b0.gdt, q.tssSelector);
    }
    if queued {
      AddThenRemove(b0.queue, q.tssSelector);
    } else {
      RemoveAbsent(b0.queue, q.tssSelector);
    }
  }

  // ---- One piece more, one piece less ----

  /** `q'` is `q` with one payload field, empty so far, naming `ptr`. */
  ghost predicate PayloadAdded(q: Pieces, q': Pieces, ptr: u32) {
    (q.tssBase == 0 && q' == q.(tssBase := ptr)) || (q.ldtBase == 0 && q' == q.(ldtBase := ptr)) ||
    (q.ldtBitmap == 0 && q' == q.(ldtBitmap := ptr)) ||
    (q.kstackTop == 0 && ptr < WORD - 0x1000 && q' == q.(kstackTop := ptr + 0x1000))
  }

  lemma PayloadsMore(q: Pieces, q': Pieces, ptr: u32)
    requires Apart(q) && PayloadAdded(q, q', ptr) && ptr != 0 && ptr !in Payloads(q)
    ensures Apart(q') && Payloads(q') == Payloads(q) + {ptr as int}
  {
  }

  lemma PayloadsLess(q: Pieces, q': Pieces, ptr: u32)
    requires Apart(q') && PayloadAdded(q, q', ptr) && ptr != 0
    ensures Apart(q) && ptr !in Payloads(q) && Payloads(q') == Payloads(q) + {ptr as int}
  {
  }

  lemma OtherFields(q: Pieces, q': Pieces, ptr: u32)
    requires PayloadAdded(q, q', ptr)
    ensures q'.tssSelector == q.tssSelector && q'.ldtSelector == q.ldtSelector && q'.slot == q.slot && q'.entry == q.entry && q'.address == q.address
  {
  }

  lemma AddPayload(b0: Books, b: Books, b': Books, q: Pieces, q': Pieces, ptr: u32, queued: bool)
    requires Billed(b0, b, q, queued) && b' == b.(live := b'.live) && ptr != 0 && PayloadAdded(q, q', ptr)
    requires ptr !in b.live && ptr in b'.live && b'.live == b.live[ptr := b'.live[ptr]]
    ensures Billed(b0, b', q', queued)
  {
    hide Payloads, Apart, PayloadAdded, WithBits, Sound, Allocated, Addition;
    OtherFields(q, q', ptr);
    assert ptr !in Payloads(q);
    PayloadsMore(q, q', ptr);
    assert b'.live - Payloads(q') == b.live - Payloads(q);
  }

  lemma DropPayload(b0: Books, b: Books, b': Books, q: Pieces, q': Pieces, ptr: u32, queued: bool)
    requires Billed(b0, b, q', queued) && b' == b.(live := b.live - {ptr}) && ptr != 0 && PayloadAdded(q, q', ptr)
    ensures Billed(b0, b', q, queued) && ptr in b.live
  {
    hide Payloads, Apart, PayloadAdded, WithBits, Sound, Allocated, Addition;
    OtherFields(q, q', ptr);
    PayloadsLess(q, q', ptr);
    assert b'.live - Payloads(q) == b.live - Payloads(q');
  }

  ghost predicate SelectorAdded(q: Pieces, q': Pieces, sel: u16) {
    (q.tssSelector == 0 && q' == q.(tssSelector := sel)) || (q.ldtSelector == 0 && q' == q.(ldtSelector := sel))
  }

  lemma AddSelector(b0: Books, b: Books, b': Books, q: Pieces, q': Pieces, sel: u16)
    requires Billed(b0, b, q, false) && SelectorAdded(q, q', sel) && GoodSelector(sel) && sel != 0
    requires |b.gdt| == GDT_COUNT && !b.gdt[sel / 8] && b' == b.(gdt := b.gdt[sel / 8 := true])
    requires b0.owner == 0 || TakenSelector(b0.gdt, b0.owner)
    ensures Billed(b0, b', q', false)
  {
    assert Entries(q') == Entries(q) + {sel / 8};
    assert sel / 8 !in Entries(q);
    assert b'.gdt == WithBits(b0.gdt, Entries(q'), true);
    assert Payloads(q') == Payloads(q);
    assert !TakenSelector(b0.gdt, sel);
  }

  lemma AddEntry(b0: Books, b: Books, b': Books, q: Pieces, entry: u32)
    requires Billed(b0, b, q, false) && q.entry == NONE && entry < |b.table| == PROCESS_MAX && b.table[entry] == 0
    requires b' == b.(table := b.table[entry := q.address], active := b.active + 1)
    ensures Billed(b0, b', q.(entry := entry), false)
  {
  }

  lemma AddTask(b0: Books, b: Books, b': Books, q: Pieces)
    requires Billed(b0, b, q, false) && q.tssSelector != 0
    requires b' == b.(queue := Addition(b.queue, q.tssSelector).0) && Addition(b.queue, q.tssSelector).1
    ensures Billed(b0, b', q, true)
  {
  }

  lemma AddSlot(b0: Books, b: Books, b': Books, q: Pieces, slot: u32)
    requires Billed(b0, b, q, false) && q.slot == NONE && slot < |b.slots| && !b.slots[slot]
    requires b' == b.(slots := b.slots[slot := true])
    ensures Billed(b0, b', q.(slot := slot), false)
  {
  }

  lemma DropSlot(b0: Books, b: Books, b': Books, q: Pieces)
    requires Billed(b0, b, q, false) && q.slot != NONE
    requires q.slot < |b.slots| ==> b' == b.(slots := b.slots[q.slot := false])
    ensures q.slot < |b.slots| && Billed(b0, b', q.(slot := NONE), false)
  {
  }

  /** A freshly allocated process object. */
  lemma FirstPiece(b0: Books, b: Books, address: u32)
    requires b == b0.(live := b.live) && address != 0 && address !in b0.live && address in b.live && b.live == b0.live[address := b.live[address]]
    requires |b0.gdt| == GDT_COUNT && |b0.slots| == PROCESS_MAX && Sound(b0.queue) && Allocated(b0.queue, b0.gdt)
    ensures Billed(b0, b, Pieces(address, 0, 0, 0, 0, 0, 0, NONE, NONE), false)
  {
    var q := Pieces(address, 0, 0, 0, 0, 0, 0, NONE, NONE);
    assert Payloads(q) == {address as int};
    assert Entries(q) == {};
    assert b.gdt == WithBits(b0.gdt, {}, true);
    assert b.live - {address as int} == b0.live;
  }

  // ---- Destruction as a whole ----

  /** What the fields of a process must satisfy for process_destroy: its payloads are live and
      distinct, its selectors well formed, and its LDT selector is no task's. */
  ghost predicate Destroyable(b: Books, q: Pieces) {
    Apart(q) && Payloads(q) <= b.live.Keys && GoodSelector(q.tssSelector) && GoodSelector(q.ldtSelector) &&
    (q.tssSelector != 0 ==> q.tssSelector != b.queue.kernel) &&
    (q.ldtSelector != 0 ==> q.ldtSelector != b.queue.kernel && q.ldtSelector !in NonZero(b.queue.run) && q.ldtSelector != b.owner)
  }

  /** process_destroy refuses exactly the running task. */
  predicate Refused(b: Books, q: Pieces) {
    !Removal(b.queue, q.tssSelector).1
  }

  /** The memory side: the directory, if there is one, is destroyed. */
  ghost predicate SpaceDropped(s: Supply, t: Supply, dir: Frame) {
    if dir == 0 then t == s else Dropped(s, t, dir)
  }

  lemma RefusedIffRunning(b: Books, q: Pieces)
    requires InOrder(b) && Destroyable(b, q)
    ensures Refused(b, q) <==> q.tssSelector != 0 && q.tssSelector == b.queue.loaded
    ensures Refused(b, q) ==> Removal(b.queue, q.tssSelector).0 == b.queue
  {
    if q.tssSelector != 0 { RemovalSound(b.queue, q.tssSelector); }
  }

  lemma SettledInOrder(b: Books, q: Pieces)
    requires InOrder(b) && Destroyable(b, q) && !Refused(b, q)
    ensures InOrder(Settled(b, q))
  {
    var s, t := b.queue, Removal(b.queue, q.tssSelector).0;
    if q.tssSelector != 0 {
      RemovalSound(s, q.tssSelector);
      hide Sound;
      assert NonZero(t.run) == NonZero(s.run) - {q.tssSelector};
    } else {
      hide Sound;
    }
    hide Removal;
    forall sel | sel in NonZero(t.run) || sel == t.kernel ensures TakenSelector(WithBits(b.gdt, Entries(q), false), sel) {
      StillTaken(b, q, sel);
    }
    if b.owner != 0 && b.owner != q.tssSelector { StillTaken(b, q, b.owner); }
  }

  lemma StillTaken(b: Books, q: Pieces, sel: u16)
    requires sel == 0 || (TakenSelector(b.gdt, sel) && sel != q.tssSelector)
    requires sel != q.ldtSelector || sel == 0
    requires GoodSelector(q.tssSelector) && GoodSelector(q.ldtSelector)
    ensures TakenSelector(WithBits(b.gdt, Entries(q), false), sel)
  {
  }

  /** Everything billed can be destroyed. */
  lemma BilledIsDestroyable(b0: Books, b: Books, q: Pieces, queued: bool)
    requires InOrder(b0) && Billed(b0, b, q, queued)
    ensures Destroyable(b, q)
    ensures !queued ==> !Refused(b, q)
  {
    if q.tssSelector != 0 {
      FreshSelector(b0.queue, b0.gdt, q.tssSelector);
      if queued { AdditionSound(b0.queue, q.tssSelector); }
    }
    if q.ldtSelector != 0 {
      FreshSelector(b0.queue, b0.gdt, q.ldtSelector);
      assert !TakenSelector(b0.gdt, q.ldtSelector);
      if queued {
        var i :| TookSlot(b0.queue.run, b.queue.run, i, q.tssSelector);
        TookSlotQueues(b0.queue.run, b.queue.run, i, q.tssSelector);
      }
    }
    if !queued { RemoveAbsent(b0.queue, q.tssSelector); }
  }

  /** Only the object and, perhaps, a slot: what process_memory_destroy deals with. */
  lemma OnlyObject(b0: Books, b: Books, q: Pieces)
    requires Billed(b0, b, q, false) && q == Pieces(q.address, 0, 0, 0, 0, 0, 0, NONE, NONE)
    ensures b.(live := b.live - {q.address as int}) == b0 && q.address != 0 && q.address in b.live
  {
    assert Payloads(q) == {q.address as int};
    assert b.gdt == b0.gdt;
  }
}
