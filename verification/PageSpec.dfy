/** Two-level 32-bit paging as a value: page-table words, the walk the processor
    performs, and the sharing invariant between directories. */
module PageSpec {
  import opened MachineWords
  import opened FrameAllocator

  type Frame = f: nat | f < 0x10_0000
  type PageNumber = p: nat | p < 0x10_0000

  /** A page-table word, split into its frame number and its twelve flag bits. */
  datatype Entry = Entry(frame: Frame, flags: bv12)

  const ZERO := Entry(0, 0)
  type Table = t: seq<Entry> | |t| == 1024 witness seq(1024, _ => ZERO)

  const EMPTY_TABLE: Table := seq(1024, _ => ZERO)
  const PRESENT_RW: bv12 := 0x003
  const PRESENT_USER: bv12 := 0x005
  const PRESENT_RW_USER: bv12 := 0x007
  const OWNED_BIT: bv12 := 0x200

  const KERNEL_DIR: Frame := 0x3_0030      // PAGE_DIR_BASE
  const POOL_BASE: Frame := 0x3_0500       // PAGE_TABLE_POOL_BASE
  const POOL_END: Frame := 0x3_0800        // PAGE_TABLE_POOL_END
  const USER_LIMIT: u32 := 0x8000_0000

  predicate Present(e: Entry) { e.flags & 0x001 != 0 }
  predicate User(e: Entry) { e.flags & 0x004 != 0 }
  predicate Large(e: Entry) { e.flags & 0x080 != 0 }
  predicate Owned(e: Entry) { e.flags & 0x200 != 0 }
  predicate PointsToTable(e: Entry) { Present(e) && !Large(e) }

  /** The flags of a directory slot after a mapping behind it: a slot that was present keeps its own. */
  function SlotFlags(pde: Entry, created: bv12): bv12 {
    if Present(pde) then pde.flags else created
  }

  type Memory = map<Frame, Table>

  /** What a page number means in one directory. */
  datatype Leaf = NoPage | SmallPage(pte: Entry, dirFlags: bv12) | LargePage(pde: Entry)

  ghost function Walk(m: Memory, dir: Frame, page: PageNumber): Leaf
    requires dir in m
  {
    var pde := m[dir][page / 1024];
    if !Present(pde) then NoPage
    else if Large(pde) then LargePage(pde)
    else if pde.frame !in m || !Present(m[pde.frame][page % 1024]) then NoPage
    else SmallPage(m[pde.frame][page % 1024], pde.flags)
  }

  ghost function Translate(leaf: Leaf, virt: u32): Option<u32> {
    match leaf
    case NoPage => None
    case LargePage(pde) => Some(pde.frame / 1024 * 0x40_0000 + virt % 0x40_0000)
    case SmallPage(pte, _) => Some(pte.frame * 0x1000 + virt % 0x1000)
  }

  /** The sharing invariant. `home` records, for every table in use, the directory slot it
      was created for. A table behind a user entry belongs to exactly that directory and
      slot; a table behind a supervisor entry is the kernel directory's table of that slot. */
  ghost predicate Sharing(m: Memory, dirs: set<Frame>, home: map<Frame, (Frame, nat)>) {
    KERNEL_DIR in dirs && 0 !in dirs && 0 !in home && dirs <= m.Keys && home.Keys <= m.Keys && dirs !! home.Keys &&
    (forall d, i | d in dirs && 0 <= i < 1024 && PointsToTable(m[d][i]) ::
      m[d][i].frame in home && home[m[d][i].frame] == (if User(m[d][i]) then d else KERNEL_DIR, i)) &&
    (forall t | t in home ::
      home[t].0 in dirs && home[t].1 < 1024 &&
      PointsToTable(m[home[t].0][home[t].1]) && m[home[t].0][home[t].1].frame == t) &&
    forall d, i | d in dirs && d != KERNEL_DIR && 512 <= i < 1024 :: !User(m[d][i])
  }

  lemma SharingParts(m: Memory, dirs: set<Frame>, home: map<Frame, (Frame, nat)>)
    requires Sharing(m, dirs, home)
    ensures KERNEL_DIR in dirs && 0 !in dirs && dirs <= m.Keys && home.Keys <= m.Keys && dirs !! home.Keys
  {
  }

  /** Every walk in every listed directory agrees. */
  ghost predicate SameWalks(m: Memory, m': Memory, dirs: set<Frame>) {
    dirs <= m.Keys && dirs <= m'.Keys &&
    forall d, p: PageNumber | d in dirs :: Walk(m', d, p) == Walk(m, d, p)
  }

  /** Every walk agrees except that `page` now means `leaf` in `dir`. */
  ghost predicate OneWalkChanged(m: Memory, m': Memory, dirs: set<Frame>, dir: Frame, page: PageNumber, leaf: Leaf) {
    dirs <= m.Keys && dirs <= m'.Keys &&
    forall d, p: PageNumber | d in dirs ::
      Walk(m', d, p) == if d == dir && p == page then leaf else Walk(m, d, p)
  }

  /** `page` now means `entry` in every directory that reaches the table behind slot
      `page / 1024` of `dir`; every other walk agrees. */
  ghost predicate SharedWalkChanged(m: Memory, m': Memory, dirs: set<Frame>, dir: Frame, page: PageNumber, entry: Entry) {
    dirs <= m.Keys && dirs <= m'.Keys && dir in dirs &&
    forall d, p: PageNumber | d in dirs ::
      Walk(m', d, p) ==
        if p == page && Reaches(m', d, dir, page / 1024)
        then (if Present(entry) then SmallPage(entry, m'[d][page / 1024].flags) else NoPage)
        else Walk(m, d, p)
  }

  ghost predicate Reaches(m: Memory, d: Frame, dir: Frame, slot: nat)
    requires d in m && dir in m && slot < 1024
  {
    PointsToTable(m[d][slot]) && PointsToTable(m[dir][slot]) && m[d][slot].frame == m[dir][slot].frame
  }

  /** Directory words change only in one slot of the kernel directory. */
  ghost predicate KernelSlotOnly(m: Memory, m': Memory, dirs: set<Frame>, slot: nat) {
    dirs <= m.Keys && dirs <= m'.Keys && KERNEL_DIR in m && KERNEL_DIR in m' &&
    (forall d | d in dirs && d != KERNEL_DIR :: m'[d] == m[d]) &&
    forall i | 0 <= i < 1024 && i != slot :: m'[KERNEL_DIR][i] == m[KERNEL_DIR][i]
  }

  function SetEntry(m: Memory, table: Frame, index: nat, e: Entry): (m': Memory)
    requires table in m && index < 1024
    ensures m'.Keys == m.Keys
  {
    m[table := m[table][index := e]]
  }

  /** Writing one page-table entry keeps the sharing invariant and changes exactly the walks
      of the table's own page number. */
  lemma SetPte(m: Memory, dirs: set<Frame>, home: map<Frame, (Frame, nat)>, dir: Frame, page: PageNumber, e: Entry)
    requires Sharing(m, dirs, home) && dir in dirs && PointsToTable(m[dir][page / 1024])
    ensures
      var m' := SetEntry(m, m[dir][page / 1024].frame, page % 1024, e);
      Sharing(m', dirs, home) && SharedWalkChanged(m, m', dirs, dir, page, e)
  {
    var t := m[dir][page / 1024].frame;
    var m' := SetEntry(m, t, page % 1024, e);
    assert forall d | d in dirs :: m'[d] == m[d];
    forall d, p: PageNumber | d in dirs
      ensures Walk(m', d, p) ==
        if p == page && Reaches(m', d, dir, page / 1024)
        then (if Present(e) then SmallPage(e, m'[d][page / 1024].flags) else NoPage)
        else Walk(m, d, p)
    {
      var pde := m[d][p / 1024];
      if PointsToTable(pde) && pde.frame == t {
        assert home[t].1 == p / 1024 == page / 1024;
      }
    }
  }

  /** Behind a user entry the change is confined to that one directory. */
  lemma UserTableIsPrivate(m: Memory, dirs: set<Frame>, home: map<Frame, (Frame, nat)>, dir: Frame, slot: nat, d: Frame)
    requires Sharing(m, dirs, home) && dir in dirs && d in dirs && slot < 1024
    requires dir != KERNEL_DIR && User(m[dir][slot])
    requires Reaches(m, d, dir, slot)
    ensures d == dir
  {
  }

  lemma ChangeAfterSame(a: Memory, b: Memory, c: Memory, dirs: set<Frame>, dir: Frame, page: PageNumber, e: Entry)
    requires SameWalks(a, b, dirs) && SharedWalkChanged(b, c, dirs, dir, page, e)
    ensures SharedWalkChanged(a, c, dirs, dir, page, e)
  {
  }

  /** A change behind a private table is invisible to every other directory. */
  lemma PrivateChange(m: Memory, m': Memory, dirs: set<Frame>, home: map<Frame, (Frame, nat)>,
                      dir: Frame, page: PageNumber, e: Entry)
    requires Sharing(m', dirs, home) && SharedWalkChanged(m, m', dirs, dir, page, e)
    requires dir != KERNEL_DIR && PointsToTable(m'[dir][page / 1024]) && User(m'[dir][page / 1024])
    ensures SameWalks(m, m', dirs - {dir})
    ensures OneWalkChanged(m, m', dirs, dir, page,
      if Present(e) then SmallPage(e, m'[dir][page / 1024].flags) else NoPage)
  {
    forall d | d in dirs && d != dir ensures !Reaches(m', d, dir, page / 1024) {
      if Reaches(m', d, dir, page / 1024) {
        UserTableIsPrivate(m', dirs, home, dir, page / 1024, d);
        assert false;
      }
    }
  }

  /** Unmapping a page that was just mapped in a process directory restores every translation
      in every directory exactly when the page was unmapped before. */
  lemma UnmapUndoesMap(before: Memory, mapped: Memory, after: Memory, dirs: set<Frame>, home: map<Frame, (Frame, nat)>,
                       dir: Frame, page: PageNumber, pte: Entry, dirFlags: bv12)
    requires dir in dirs && dir != KERNEL_DIR && User(Entry(0, dirFlags))
    requires Sharing(mapped, dirs, home) && OneWalkChanged(before, mapped, dirs, dir, page, SmallPage(pte, dirFlags))
    requires Sharing(after, dirs, home) && SharedWalkChanged(mapped, after, dirs, dir, page, ZERO)
    requires PointsToTable(mapped[dir][page / 1024]) && mapped[dir] == after[dir]
    ensures SameWalks(before, after, dirs) <==> Walk(before, dir, page) == NoPage
    ensures OneWalkChanged(before, after, dirs, dir, page, NoPage)
  {
    assert Walk(mapped, dir, page) == SmallPage(pte, dirFlags);
    PrivateChange(mapped, after, dirs, home, dir, page, ZERO);
  }

  /** Hanging an empty table into an absent slot changes no walk anywhere. */
  lemma HangTable(m: Memory, dirs: set<Frame>, home: map<Frame, (Frame, nat)>, dir: Frame, slot: nat, t: Frame, flags: bv12)
    requires Sharing(m, dirs, home) && dir in dirs && slot < 1024 && !Present(m[dir][slot])
    requires t in m && t !in dirs && t !in home && t != 0 && m[t] == EMPTY_TABLE
    requires PointsToTable(Entry(t, flags)) && (dir == KERNEL_DIR || (User(Entry(t, flags)) && slot < 512))
    ensures
      var m' := SetEntry(m, dir, slot, Entry(t, flags));
      Sharing(m', dirs, home[t := (dir, slot)]) && SameWalks(m, m', dirs)
  {
    var m' := SetEntry(m, dir, slot, Entry(t, flags));
    forall d, p: PageNumber | d in dirs ensures Walk(m', d, p) == Walk(m, d, p) {
      if d == dir && p / 1024 == slot {
        assert m'[t][p % 1024] == ZERO;
      } else {
        var pde := m[d][p / 1024];
        assert m'[d][p / 1024] == pde;
        if PointsToTable(pde) { assert pde.frame in home; }
      }
    }
  }

  /** Words outside directories and tables in use (free pool pages, for instance) are invisible. */
  lemma InvisiblePage(m: Memory, dirs: set<Frame>, home: map<Frame, (Frame, nat)>, f: Frame, content: Table)
    requires Sharing(m, dirs, home) && f in m && f !in dirs && f !in home
    ensures Sharing(m[f := content], dirs, home) && SameWalks(m, m[f := content], dirs)
  {
    var m' := m[f := content];
    forall d, p: PageNumber | d in dirs ensures Walk(m', d, p) == Walk(m, d, p) {
      var pde := m[d][p / 1024];
      if PointsToTable(pde) { assert pde.frame in home; }
    }
  }

  /** Retiring a private table: its slot is cleared and the table leaves the invariant. */
  lemma RetireTable(m: Memory, dirs: set<Frame>, home: map<Frame, (Frame, nat)>, dir: Frame, slot: nat)
    requires Sharing(m, dirs, home) && dir in dirs && dir != KERNEL_DIR && slot < 1024
    requires PointsToTable(m[dir][slot]) && User(m[dir][slot])
    ensures
      var t := m[dir][slot].frame;
      var m' := SetEntry(m, dir, slot, ZERO);
      t in home && Sharing(m', dirs, home - {t}) && SameWalks(m, m', dirs - {dir})
  {
    var t := m[dir][slot].frame;
    var m' := SetEntry(m, dir, slot, ZERO);
    var home' := home - {t};
    forall d, i | d in dirs && 0 <= i < 1024 && PointsToTable(m'[d][i])
      ensures m'[d][i].frame in home' && home'[m'[d][i].frame] == (if User(m'[d][i]) then d else KERNEL_DIR, i)
    {
      assert m'[d][i] == m[d][i];
    }
    forall u | u in home' ensures m'[home'[u].0][home'[u].1].frame == u && PointsToTable(m'[home'[u].0][home'[u].1]) {
      assert m[home[u].0][home[u].1].frame == u;
    }
    forall d, p: PageNumber | d in dirs - {dir} ensures Walk(m', d, p) == Walk(m, d, p) {
      var pde := m[d][p / 1024];
      assert m'[d] == m[d];
      if PointsToTable(pde) { assert pde.frame in home; }
    }
  }

  /** What a fresh process directory holds in one slot: supervisor entries only, never slot 0. */
  function Inherited(kernel: Table, i: nat): Entry
    requires i < 1024
  {
    if i != 0 && Present(kernel[i]) && !User(kernel[i]) then kernel[i] else ZERO
  }

  lemma AdoptDirectory(m: Memory, dirs: set<Frame>, home: map<Frame, (Frame, nat)>, d: Frame)
    requires Sharing(m, dirs, home) && d in m && d !in dirs && d !in home && d != 0
    requires forall i | 0 <= i < 1024 :: m[d][i] == Inherited(m[KERNEL_DIR], i)
    ensures Sharing(m, dirs + {d}, home)
    ensures forall p: PageNumber ::
      Walk(m, d, p) == if p < 1024 || User(m[KERNEL_DIR][p / 1024]) then NoPage else Walk(m, KERNEL_DIR, p)
  {
  }

  lemma DropDirectory(m: Memory, dirs: set<Frame>, home: map<Frame, (Frame, nat)>, d: Frame)
    requires Sharing(m, dirs, home) && d in dirs && d != KERNEL_DIR
    requires forall t | t in home :: home[t].0 != d
    ensures Sharing(m, dirs - {d}, home)
  {
  }

  lemma SameWalksReflexive(m: Memory, dirs: set<Frame>)
    requires dirs <= m.Keys
    ensures SameWalks(m, m, dirs)
  {
  }

  lemma PrivateTableIsNoDirectory(m: Memory, dirs: set<Frame>, home: map<Frame, (Frame, nat)>, dir: Frame, slot: nat)
    requires Sharing(m, dirs, home) && dir in dirs && slot < 1024 && PointsToTable(m[dir][slot])
    ensures m[dir][slot].frame !in dirs && m[dir][slot].frame in home
  {
  }

  lemma SameWalksTransitive(a: Memory, b: Memory, c: Memory, dirs: set<Frame>)
    requires SameWalks(a, b, dirs) && SameWalks(b, c, dirs)
    ensures SameWalks(a, c, dirs)
  {
  }

  /** At most one new table, hung into `slot` of `dir`. */
  ghost predicate HomeGained(home: map<Frame, (Frame, nat)>, home': map<Frame, (Frame, nat)>, dir: Frame, slot: nat) {
    home' == home || exists t: Frame | t !in home :: home' == home[t := (dir, slot)]
  }

  /** The tables created for directories other than the kernel's. */
  ghost function UserPart(home: map<Frame, (Frame, nat)>): map<Frame, (Frame, nat)> {
    map t | t in home && home[t].0 != KERNEL_DIR :: home[t]
  }

  lemma KernelTableNotInUserPart(home: map<Frame, (Frame, nat)>, t: Frame, slot: nat)
    requires t !in home
    ensures UserPart(home[t := (KERNEL_DIR, slot)]) == UserPart(home)
  {
  }

  // ---- Ownership of physical frames ----

  /** The frame released by one entry of a dying directory's table. */
  function Released(e: Entry): set<Frame> {
    if Present(e) && User(e) && Owned(e) && e.frame != 0 then {e.frame} else {}
  }

  function ReleasedBelow(t: Table, n: nat): set<Frame>
    requires n <= 1024
  {
    if n == 0 then {} else ReleasedBelow(t, n - 1) + Released(t[n - 1])
  }

  /** Frames released by the first `n` slots of a dying directory. */
  function DirectoryFrames(m: Memory, dir: Frame, n: nat): set<Frame>
    requires dir in m && n <= 512
  {
    if n == 0 then {} else DirectoryFrames(m, dir, n - 1) + SlotFrames(m, dir, n - 1)
  }

  function SlotFrames(m: Memory, dir: Frame, slot: nat): set<Frame>
    requires dir in m && slot < 1024
  {
    var pde := m[dir][slot];
    if PointsToTable(pde) && User(pde) && pde.frame in m then ReleasedBelow(m[pde.frame], 1024) else {}
  }

  // ---- The page pool ----

  /** The free list threaded through the first word of each free page. */
  ghost predicate FreeChain(m: Memory, head: Frame, free: seq<Frame>)
    decreases |free|
  {
    if free == [] then head == 0
    else head == free[0] && head != 0 && head in m && m[head][0].flags == 0 && FreeChain(m, m[head][0].frame, free[1..])
  }

  ghost predicate Distinct(s: seq<Frame>) {
    forall i, j | 0 <= i < j < |s| :: s[i] != s[j]
  }

  /** Every pool page below `next` is in use or on the free list, and not both. */
  ghost predicate PoolAccounts(m: Memory, head: Frame, next: nat, free: seq<Frame>, inUse: set<Frame>) {
    POOL_BASE <= next <= POOL_END &&
    (forall f: Frame | POOL_BASE <= f < POOL_END :: f in m) &&
    (forall f | f in inUse :: POOL_BASE <= f < next) &&
    (forall f | f in free :: POOL_BASE <= f < next && f !in inUse) &&
    (forall f: Frame | POOL_BASE <= f < next :: f in inUse || f in free) &&
    Distinct(free) && FreeChain(m, head, free)
  }

  /** The pool page an address names, if it names one exactly. */
  function PoolFrame(page: u32): Option<Frame> {
    if page % 0x1000 == 0 && POOL_BASE <= page / 0x1000 < POOL_END then Some(page / 0x1000) else None
  }

  lemma PoolFrameOf(t: Frame)
    requires POOL_BASE <= t < POOL_END
    ensures t as int * 0x1000 < 0x1_0000_0000 && PoolFrame(t as int * 0x1000) == Some(t)
  {
  }

  lemma {:induction false} FreeChainFrame(m: Memory, m': Memory, head: Frame, free: seq<Frame>)
    requires FreeChain(m, head, free)
    requires forall f | f in free && f in m :: f in m' && m'[f] == m[f]
    ensures FreeChain(m', head, free)
    decreases |free|
  {
    if free != [] {
      assert free[0] in free;
      FreeChainFrame(m, m', m[head][0].frame, free[1..]);
    }
  }

  /** Stores outside the free pages leave the accounts alone. */
  lemma AccountsFrame(m: Memory, m': Memory, head: Frame, next: nat, free: seq<Frame>, inUse: set<Frame>)
    requires PoolAccounts(m, head, next, free, inUse)
    requires m.Keys <= m'.Keys && forall f | f in free :: m'[f] == m[f]
    ensures PoolAccounts(m', head, next, free, inUse)
  {
    FreeChainFrame(m, m', head, free);
  }

  /** Popping the free list hands out a page nobody uses. */
  lemma PopFree(m: Memory, head: Frame, next: nat, free: seq<Frame>, inUse: set<Frame>)
    requires PoolAccounts(m, head, next, free, inUse) && head != 0
    ensures free != [] && head == free[0] && head in m && head !in inUse && head !in free[1..]
    ensures PoolAccounts(m, m[head][0].frame, next, free[1..], inUse + {head})
  {
    assert free[0] in free;
    var rest := free[1..];
    forall f | f in rest ensures POOL_BASE <= f < next && f !in inUse + {head} {
      assert f in free;
    }
    forall f: Frame | POOL_BASE <= f < next ensures f in inUse + {head} || f in rest {
      if f in free && f != head {
        var i :| 0 <= i < |free| && free[i] == f;
        assert rest[i - 1] == f;
      }
    }
  }

  /** So does taking the first untouched page. */
  lemma TakeUntouched(m: Memory, head: Frame, next: nat, free: seq<Frame>, inUse: set<Frame>)
    requires PoolAccounts(m, head, next, free, inUse) && next < POOL_END
    ensures next in m && next !in inUse && next !in free
    ensures PoolAccounts(m, head, next + 1, free, inUse + {next})
  {
  }

  ghost function RangeSet(lo: nat, hi: nat): (s: set<Frame>)
    requires lo <= hi <= 0x10_0000
    ensures forall f: Frame :: f in s <==> lo <= f < hi
    ensures |s| == hi - lo
    decreases hi - lo
  {
    if lo == hi then {} else RangeSet(lo, hi - 1) + {hi - 1}
  }

  function Elements(s: seq<Frame>): set<Frame> {
    set f | f in s
  }

  lemma {:induction false} DistinctCount(s: seq<Frame>)
    requires Distinct(s)
    ensures |Elements(s)| == |s|
    decreases |s|
  {
    if s != [] {
      var rest := s[1..];
      DistinctCount(rest);
      assert s[0] !in rest;
      assert Elements(s) == Elements(rest) + {s[0]};
    }
  }

  /** Conservation: free list, pages in use and untouched pages add up to the whole pool,
      and the free list has no cycle. */
  lemma PoolConservation(m: Memory, head: Frame, next: nat, free: seq<Frame>, inUse: set<Frame>)
    requires PoolAccounts(m, head, next, free, inUse)
    ensures |free| + |inUse| + (POOL_END - next) == POOL_END - POOL_BASE
    ensures Distinct(free)
  {
    DistinctCount(free);
    var listed := Elements(free);
    assert listed !! inUse;
    assert listed + inUse == RangeSet(POOL_BASE, next);
    assert |listed + inUse| == |listed| + |inUse|;
  }

  // ---- Frames given back to the page manager ----

  /** Exactly the frames of `freed` went from used to free. */
  ghost predicate FramesFreed(before: seq<bool>, after: seq<bool>, freed: set<Frame>) {
    |before| == |after| == FRAME_COUNT &&
    forall f: Frame :: after[f] == (before[f] && f !in freed)
  }

  lemma FreedOne(before: seq<bool>, mid: PmmState, freed: set<Frame>, e: Entry, release: bool)
    requires FramesFreed(before, mid.used, freed)
    requires release <==> Present(e) && User(e) && Owned(e)
    ensures FramesFreed(before, (if release then FreeStep(mid, e.frame * 0x1000) else mid).used, freed + Released(e))
  {
    var after := if release then FreeStep(mid, e.frame * 0x1000) else mid;
    assert e.frame * 0x1000 / PAGE_SIZE == e.frame;
    forall f: Frame ensures after.used[f] == (before[f] && f !in freed + Released(e)) {}
  }

  lemma FreedNone(before: seq<bool>)
    requires |before| == FRAME_COUNT
    ensures FramesFreed(before, before, {})
  {
  }

  lemma FreedTwice(a: seq<bool>, b: seq<bool>, c: seq<bool>, s: set<Frame>, t: set<Frame>)
    requires FramesFreed(a, b, s) && FramesFreed(b, c, t)
    ensures FramesFreed(a, c, s + t)
  {
    forall f: Frame ensures c[f] == (a[f] && f !in s + t) {}
  }

  // ---- The whole paging state ----

  /** Pool pages in use: process directories and tables. */
  ghost function Taken(dirs: set<Frame>, home: map<Frame, (Frame, nat)>): set<Frame> {
    dirs - {KERNEL_DIR} + home.Keys
  }

  ghost predicate Consistent(m: Memory, head: Frame, next: nat, free: seq<Frame>, dirs: set<Frame>, home: map<Frame, (Frame, nat)>) {
    Sharing(m, dirs, home) && PoolAccounts(m, head, next, free, Taken(dirs, home))
  }

  /** `t` has left the pool but belongs to no directory. */
  ghost predicate ConsistentWithout(m: Memory, head: Frame, next: nat, free: seq<Frame>, dirs: set<Frame>,
                                    home: map<Frame, (Frame, nat)>, t: Frame) {
    Sharing(m, dirs, home) && t in m && t != 0 && t !in dirs && t !in home &&
    PoolAccounts(m, head, next, free, Taken(dirs, home) + {t})
  }

  lemma PopAndClear(m: Memory, head: Frame, next: nat, free: seq<Frame>, dirs: set<Frame>, home: map<Frame, (Frame, nat)>)
    requires Consistent(m, head, next, free, dirs, home) && head != 0
    ensures free != [] && head in m
    ensures ConsistentWithout(m[head := EMPTY_TABLE], m[head][0].frame, next, free[1..], dirs, home, head)
    ensures SameWalks(m, m[head := EMPTY_TABLE], dirs)
  {
    PopFree(m, head, next, free, Taken(dirs, home));
    InvisiblePage(m, dirs, home, head, EMPTY_TABLE);
    AccountsFrame(m, m[head := EMPTY_TABLE], m[head][0].frame, next, free[1..], Taken(dirs, home) + {head});
  }

  lemma TakeAndClear(m: Memory, head: Frame, next: nat, free: seq<Frame>, dirs: set<Frame>, home: map<Frame, (Frame, nat)>)
    requires Consistent(m, head, next, free, dirs, home) && next < POOL_END
    ensures next in m
    ensures ConsistentWithout(m[next := EMPTY_TABLE], head, next + 1, free, dirs, home, next)
    ensures SameWalks(m, m[next := EMPTY_TABLE], dirs)
  {
    TakeUntouched(m, head, next, free, Taken(dirs, home));
    InvisiblePage(m, dirs, home, next, EMPTY_TABLE);
    AccountsFrame(m, m[next := EMPTY_TABLE], head, next + 1, free, Taken(dirs, home) + {next});
  }

  lemma HangConsistent(m: Memory, head: Frame, next: nat, free: seq<Frame>, dirs: set<Frame>, home: map<Frame, (Frame, nat)>,
                       dir: Frame, slot: nat, t: Frame, flags: bv12)
    requires ConsistentWithout(m, head, next, free, dirs, home, t) && m[t] == EMPTY_TABLE
    requires dir in dirs && slot < 1024 && !Present(m[dir][slot])
    requires PointsToTable(Entry(0, flags)) && (dir == KERNEL_DIR || (User(Entry(0, flags)) && slot < 512))
    ensures dir in m && Consistent(SetEntry(m, dir, slot, Entry(t, flags)), head, next, free, dirs, home[t := (dir, slot)])
    ensures SameWalks(m, SetEntry(m, dir, slot, Entry(t, flags)), dirs)
    ensures dir == KERNEL_DIR ==> UserPart(home[t := (dir, slot)]) == UserPart(home)
  {
    HangTable(m, dirs, home, dir, slot, t, flags);
    AccountsFrame(m, SetEntry(m, dir, slot, Entry(t, flags)), head, next, free, Taken(dirs, home) + {t});
    assert Taken(dirs, home[t := (dir, slot)]) == Taken(dirs, home) + {t};
    if dir == KERNEL_DIR { KernelTableNotInUserPart(home, t, slot); }
  }

  lemma WriteConsistent(m: Memory, head: Frame, next: nat, free: seq<Frame>, dirs: set<Frame>, home: map<Frame, (Frame, nat)>,
                        dir: Frame, page: PageNumber, e: Entry)
    requires Consistent(m, head, next, free, dirs, home)
    requires dir in dirs && PointsToTable(m[dir][page / 1024])
    ensures
      dir in m &&
      var t := m[dir][page / 1024].frame;
      t in m && t !in dirs &&
      var m' := SetEntry(m, t, page % 1024, e);
      Consistent(m', head, next, free, dirs, home) && SharedWalkChanged(m, m', dirs, dir, page, e)
  {
    var t := m[dir][page / 1024].frame;
    assert t in home;
    SetPte(m, dirs, home, dir, page, e);
    AccountsFrame(m, SetEntry(m, t, page % 1024, e), head, next, free, Taken(dirs, home));
  }

  /** free_page_table then clearing the slot: a private table goes back to the pool. */
  lemma RetireConsistent(m: Memory, head: Frame, next: nat, free: seq<Frame>, dirs: set<Frame>, home: map<Frame, (Frame, nat)>,
                         dir: Frame, slot: nat)
    requires Consistent(m, head, next, free, dirs, home) && dir in dirs && dir != KERNEL_DIR && slot < 1024
    requires PointsToTable(m[dir][slot]) && User(m[dir][slot])
    ensures
      var t := m[dir][slot].frame;
      t in home && t in m && POOL_BASE <= t < POOL_END &&
      var m' := SetEntry(SetEntry(m, t, 0, Entry(head, 0)), dir, slot, ZERO);
      Consistent(m', t, next, [t] + free, dirs, home - {t}) && SameWalks(m, m', dirs - {dir})
  {
    var t := m[dir][slot].frame;
    assert t in home;
    var cleared := SetEntry(m, dir, slot, ZERO);
    RetireTable(m, dirs, home, dir, slot);
    var linked := cleared[t := cleared[t][0 := Entry(head, 0)]];
    InvisiblePage(cleared, dirs, home - {t}, t, linked[t]);
    assert linked == SetEntry(SetEntry(m, t, 0, Entry(head, 0)), dir, slot, ZERO);
    PushFree(m, linked, head, next, free, Taken(dirs, home), t);
    assert Taken(dirs, home - {t}) == Taken(dirs, home) - {t};
  }

  /** Linking a page in front of the free list. */
  lemma PushFree(m: Memory, m': Memory, head: Frame, next: nat, free: seq<Frame>, inUse: set<Frame>, t: Frame)
    requires PoolAccounts(m, head, next, free, inUse) && t in inUse
    requires m.Keys <= m'.Keys && (forall f | f in free :: m'[f] == m[f]) && m'[t][0] == Entry(head, 0)
    ensures PoolAccounts(m', t, next, [t] + free, inUse - {t})
  {
    FreeChainFrame(m, m', head, free);
    var free' := [t] + free;
    assert free'[1..] == free;
    forall f: Frame | POOL_BASE <= f < next ensures f in inUse - {t} || f in free' {
      if f in free { assert f in free'; }
    }
  }

  /** The last step of destroy_page_directory. */
  lemma DropConsistent(m: Memory, head: Frame, next: nat, free: seq<Frame>, dirs: set<Frame>, home: map<Frame, (Frame, nat)>, d: Frame)
    requires Consistent(m, head, next, free, dirs, home) && d in dirs && d != KERNEL_DIR
    requires forall t | t in home :: home[t].0 != d
    ensures d in m && POOL_BASE <= d < POOL_END &&
      var m' := SetEntry(m, d, 0, Entry(head, 0));
      Consistent(m', d, next, [d] + free, dirs - {d}, home) && SameWalks(m, m', dirs - {d})
  {
    var m' := SetEntry(m, d, 0, Entry(head, 0));
    DropDirectory(m, dirs, home, d);
    assert d in Taken(dirs, home);
    InvisiblePage(m, dirs - {d}, home, d, m'[d]);
    PushFree(m, m', head, next, free, Taken(dirs, home), d);
    assert Taken(dirs - {d}, home) == Taken(dirs, home) - {d};
  }

  /** Filling one slot of a directory under construction. */
  lemma FillConsistent(m: Memory, head: Frame, next: nat, free: seq<Frame>, dirs: set<Frame>, home: map<Frame, (Frame, nat)>,
                       d: Frame, slot: nat, e: Entry)
    requires ConsistentWithout(m, head, next, free, dirs, home, d) && slot < 1024
    ensures
      var m' := SetEntry(m, d, slot, e);
      ConsistentWithout(m', head, next, free, dirs, home, d) && SameWalks(m, m', dirs)
  {
    var m' := SetEntry(m, d, slot, e);
    InvisiblePage(m, dirs, home, d, m'[d]);
    AccountsFrame(m, m', head, next, free, Taken(dirs, home) + {d});
  }

  lemma AdoptConsistent(m: Memory, head: Frame, next: nat, free: seq<Frame>, dirs: set<Frame>, home: map<Frame, (Frame, nat)>, d: Frame)
    requires ConsistentWithout(m, head, next, free, dirs, home, d)
    requires forall i | 0 <= i < 1024 :: m[d][i] == Inherited(m[KERNEL_DIR], i)
    ensures Consistent(m, head, next, free, dirs + {d}, home) && d != KERNEL_DIR
    ensures forall p: PageNumber ::
      Walk(m, d, p) == if p < 1024 || User(m[KERNEL_DIR][p / 1024]) then NoPage else Walk(m, KERNEL_DIR, p)
  {
    AdoptDirectory(m, dirs, home, d);
    assert Taken(dirs + {d}, home) == Taken(dirs, home) + {d};
  }

  // ---- The tables of one directory ----

  ghost function HomeWithoutSlot(home: map<Frame, (Frame, nat)>, dir: Frame, slot: nat): map<Frame, (Frame, nat)> {
    map t | t in home && home[t] != (dir, slot) :: home[t]
  }

  ghost function HomeWithoutBelow(home: map<Frame, (Frame, nat)>, dir: Frame, slot: nat): map<Frame, (Frame, nat)> {
    map t | t in home && !(home[t].0 == dir && home[t].1 < slot) :: home[t]
  }

  ghost function HomeWithout(home: map<Frame, (Frame, nat)>, dir: Frame): map<Frame, (Frame, nat)> {
    map t | t in home && home[t].0 != dir :: home[t]
  }

  lemma NoPrivateTable(m: Memory, dirs: set<Frame>, home: map<Frame, (Frame, nat)>, dir: Frame, slot: nat)
    requires Sharing(m, dirs, home) && dir in dirs && dir != KERNEL_DIR && slot < 1024
    requires !(PointsToTable(m[dir][slot]) && User(m[dir][slot]))
    ensures HomeWithoutSlot(home, dir, slot) == home
  {
    forall t | t in home ensures home[t] != (dir, slot) {
      if home[t] == (dir, slot) { assert false; }
    }
  }

  lemma OneTableLeaves(m: Memory, dirs: set<Frame>, home: map<Frame, (Frame, nat)>, dir: Frame, slot: nat)
    requires Sharing(m, dirs, home) && dir in dirs && slot < 1024
    requires PointsToTable(m[dir][slot]) && User(m[dir][slot])
    ensures HomeWithoutSlot(home, dir, slot) == home - {m[dir][slot].frame}
  {
    forall t | t in home && home[t] == (dir, slot) ensures t == m[dir][slot].frame {}
  }

  /** A slot without a private table is skipped. */
  lemma SlotSkipped(m: Memory, head: Frame, next: nat, free: seq<Frame>, dirs: set<Frame>,
                    home: map<Frame, (Frame, nat)>, dir: Frame, slot: nat)
    requires Consistent(m, head, next, free, dirs, home) && dir in dirs && dir != KERNEL_DIR && slot < 1024
    requires !(PointsToTable(m[dir][slot]) && User(m[dir][slot]))
    ensures HomeWithoutSlot(home, dir, slot) == home && SlotFrames(m, dir, slot) == {}
    ensures SameWalks(m, m, dirs - {dir}) && OnlySlotChanged(m, m, dirs, home, dir, slot)
  {
    NoPrivateTable(m, dirs, home, dir, slot);
  }

  lemma SlotTable(m: Memory, head: Frame, next: nat, free: seq<Frame>, dirs: set<Frame>,
                  home: map<Frame, (Frame, nat)>, dir: Frame, slot: nat)
    requires Consistent(m, head, next, free, dirs, home) && dir in dirs && dir != KERNEL_DIR && slot < 1024
    requires PointsToTable(m[dir][slot]) && User(m[dir][slot])
    ensures dirs <= m.Keys && m[dir][slot].frame in m && m[dir][slot].frame !in dirs
    ensures SlotFrames(m, dir, slot) == ReleasedBelow(m[m[dir][slot].frame], 1024)
  {
    PrivateTableIsNoDirectory(m, dirs, home, dir, slot);
  }

  /** One slot of a dying directory, start to finish: `mid` is memory after the table's entries
      were cleared, the result is memory after the page was freed and the slot cleared. */
  lemma SlotDestroyed(start: Memory, mid: Memory, head: Frame, next: nat, free: seq<Frame>, dirs: set<Frame>,
                      home: map<Frame, (Frame, nat)>, dir: Frame, slot: nat)
    requires Consistent(mid, head, next, free, dirs, home) && dir in dirs && dir != KERNEL_DIR && slot < 1024
    requires PointsToTable(mid[dir][slot]) && User(mid[dir][slot])
    requires mid[dir][slot].frame in start && mid[dir][slot].frame in mid
    requires mid == start[mid[dir][slot].frame := mid[mid[dir][slot].frame]] && SameWalks(start, mid, dirs - {dir})
    ensures
      var t := mid[dir][slot].frame;
      POOL_BASE <= t < POOL_END &&
      var m' := SetEntry(SetEntry(mid, t, 0, Entry(head, 0)), dir, slot, ZERO);
      var home' := HomeWithoutSlot(home, dir, slot);
      Consistent(m', t, next, [t] + free, dirs, home') && SameWalks(start, m', dirs - {dir}) &&
      OnlySlotChanged(start, m', dirs, home', dir, slot)
  {
    var t := mid[dir][slot].frame;
    PrivateTableIsNoDirectory(mid, dirs, home, dir, slot);
    RetireConsistent(mid, head, next, free, dirs, home, dir, slot);
    OneTableLeaves(mid, dirs, home, dir, slot);
    SameWalksTransitive(start, mid, SetEntry(SetEntry(mid, t, 0, Entry(head, 0)), dir, slot, ZERO), dirs - {dir});
  }

  /** Remaining tables and other directories keep their words; `dir` changes in one slot only. */
  ghost predicate OnlySlotChanged(m: Memory, m': Memory, dirs: set<Frame>, home: map<Frame, (Frame, nat)>, dir: Frame, slot: nat) {
    m'.Keys == m.Keys && dirs <= m.Keys && home.Keys <= m.Keys && dir in m &&
    (forall f | f in home :: m'[f] == m[f]) && (forall d | d in dirs && d != dir :: m'[d] == m[d]) &&
    forall i | 0 <= i < 1024 && i != slot :: m'[dir][i] == m[dir][i]
  }

  /** The state of a dying directory after its first `slot` slots. */
  ghost predicate SlotsUntouched(start: Memory, m: Memory, dirs: set<Frame>, home: map<Frame, (Frame, nat)>, dir: Frame, slot: nat) {
    m.Keys == start.Keys && dirs <= m.Keys && home.Keys <= m.Keys && dir in dirs &&
    (forall f | f in home :: m[f] == start[f]) && (forall d | d in dirs && d != dir :: m[d] == start[d]) &&
    forall i | slot <= i < 1024 :: m[dir][i] == start[dir][i]
  }

  lemma NoSlotYet(m: Memory, dirs: set<Frame>, home: map<Frame, (Frame, nat)>, dir: Frame)
    requires Sharing(m, dirs, home) && dir in dirs
    ensures dir in m && SlotsUntouched(m, m, dirs, home, dir, 0) && HomeWithoutBelow(home, dir, 0) == home
    ensures SameWalks(m, m, dirs - {dir})
  {
  }

  lemma SlotUntouched(start: Memory, m: Memory, head: Frame, next: nat, free: seq<Frame>, dirs: set<Frame>,
                      home: map<Frame, (Frame, nat)>, dir: Frame, slot: nat)
    requires Consistent(m, head, next, free, dirs, home) && slot < 1024 && SlotsUntouched(start, m, dirs, home, dir, slot)
    ensures SlotFrames(start, dir, slot) == SlotFrames(m, dir, slot)
  {
  }

  lemma NextSlot(start: Memory, m: Memory, m': Memory, dirs: set<Frame>, home0: map<Frame, (Frame, nat)>,
                 home': map<Frame, (Frame, nat)>, dir: Frame, slot: nat)
    requires SlotsUntouched(start, m, dirs, HomeWithoutBelow(home0, dir, slot), dir, slot)
    requires home' == HomeWithoutSlot(HomeWithoutBelow(home0, dir, slot), dir, slot)
    requires OnlySlotChanged(m, m', dirs, home', dir, slot)
    ensures home' == HomeWithoutBelow(home0, dir, slot + 1)
    ensures SlotsUntouched(start, m', dirs, home', dir, slot + 1)
  {
  }

  /** After 512 slots no table of the directory is left: user entries never sit higher. */
  lemma NoTableLeft(m: Memory, dirs: set<Frame>, before: map<Frame, (Frame, nat)>, home: map<Frame, (Frame, nat)>, dir: Frame)
    requires Sharing(m, dirs, home) && dir in dirs && dir != KERNEL_DIR
    requires home == HomeWithoutBelow(before, dir, 512)
    ensures forall t | t in home :: home[t].0 != dir
    ensures home == HomeWithout(before, dir)
  {
    forall t | t in home ensures home[t].0 != dir {
      if home[t].0 == dir { assert false; }
    }
  }

  /** The whole destruction: from `start` to the state after the directory page was freed. */
  lemma DirectoryDestroyed(start: Memory, head0: Frame, next: nat, free0: seq<Frame>, dirs: set<Frame>, home0: map<Frame, (Frame, nat)>,
                           m: Memory, head: Frame, free: seq<Frame>, home: map<Frame, (Frame, nat)>, dir: Frame)
    requires Consistent(start, head0, next, free0, dirs, home0)
    requires Consistent(m, head, next, free, dirs, home) && dir in dirs && dir != KERNEL_DIR
    requires home == HomeWithoutBelow(home0, dir, 512) && SlotsUntouched(start, m, dirs, home, dir, 512)
    requires SameWalks(start, m, dirs - {dir})
    ensures POOL_BASE <= dir < POOL_END
    ensures
      var m' := SetEntry(m, dir, 0, Entry(head, 0));
      Consistent(m', dir, next, [dir] + free, dirs - {dir}, home) && SameWalks(start, m', dirs - {dir}) &&
      home == HomeWithout(home0, dir) && TablesKept(start, m', home) && DirsKept(start, m', dirs - {dir}) &&
      FreeListGained(free0, [dir] + free, dir, home0)
  {
    NoTableLeft(m, dirs, home0, home, dir);
    DropConsistent(m, head, next, free, dirs, home, dir);
    var m' := SetEntry(m, dir, 0, Entry(head, 0));
    SameWalksTransitive(start, m, m', dirs - {dir});
    assert Taken(dirs - {dir}, home) <= Taken(dirs, home0);
    forall f: Frame
      ensures f in [dir] + free <==> f in free0 || f == dir || (f in home0 && home0[f].0 == dir)
    {
      ReturnedPages(start, m', head0, dir, next, free0, [dir] + free, Taken(dirs, home0), Taken(dirs - {dir}, home), f);
    }
  }

  /** The words of the listed directories are the same. */
  ghost predicate DirsKept(m: Memory, m': Memory, dirs: set<Frame>) {
    dirs <= m.Keys && dirs <= m'.Keys && forall d | d in dirs :: m'[d] == m[d]
  }

  ghost predicate TablesKept(m: Memory, m': Memory, home: map<Frame, (Frame, nat)>) {
    m'.Keys == m.Keys && home.Keys <= m.Keys && forall f | f in home :: m'[f] == m[f]
  }

  /** The free list gained the directory and its private tables, and nothing else. */
  ghost predicate FreeListGained(free: seq<Frame>, free': seq<Frame>, dir: Frame, home: map<Frame, (Frame, nat)>) {
    forall f: Frame :: f in free' <==> f in free || f == dir || (f in home && home[f].0 == dir)
  }

  /** What came back to the free list is what left use. */
  lemma ReturnedPages(m: Memory, m': Memory, head: Frame, head': Frame, next: nat, free: seq<Frame>, free': seq<Frame>,
                      inUse: set<Frame>, inUse': set<Frame>, f: Frame)
    requires PoolAccounts(m, head, next, free, inUse) && PoolAccounts(m', head', next, free', inUse') && inUse' <= inUse
    ensures f in free' <==> f in free || f in inUse - inUse'
  {
  }
}
