/** Memory a process holds: its directory, the frames mapped in it, and what building and
    destroying it may change for everybody else. */
module ProcessMemory {
  import opened MachineWords
  import opened FrameAllocator
  import opened PageSpec
  import opened HeapGrowth
  import opened PoolCounts

  const TEMP_PAGE := 0x8_0800   // KERNEL_TEMP_PAGE
  const USER_PAGES := 0x8_0000  // pages below USER_SPACE_LIMIT

  /** `page` of `dir` is a user page on frame `f` that destruction gives back. */
  ghost predicate Owns(m: Memory, dir: Frame, page: PageNumber, f: Frame)
    requires dir in m
  {
    match Walk(m, dir, page)
    case SmallPage(pte, dirFlags) => dirFlags & 0x004 != 0 && f in Released(pte)
    case _ => false
  }

  lemma {:induction false} ReleasedMember(t: Table, n: nat, f: Frame)
    requires n <= 1024
    ensures f in ReleasedBelow(t, n) <==> exists i :: 0 <= i < n && f in Released(t[i])
  {
    if n > 0 { ReleasedMember(t, n - 1, f); }
  }

  lemma SlotMember(m: Memory, dir: Frame, slot: nat, f: Frame)
    requires dir in m && slot < 512
    ensures f in SlotFrames(m, dir, slot) <==> exists p: PageNumber :: p / 1024 == slot && Owns(m, dir, p, f)
  {
    var pde := m[dir][slot];
    if PointsToTable(pde) && User(pde) && pde.frame in m {
      var t := m[pde.frame];
      ReleasedMember(t, 1024, f);
      if f in SlotFrames(m, dir, slot) {
        var i :| 0 <= i < 1024 && f in Released(t[i]);
        var p: PageNumber := slot * 1024 + i;
        assert p / 1024 == slot && p % 1024 == i && Owns(m, dir, p, f);
      }
      if p: PageNumber :| p / 1024 == slot && Owns(m, dir, p, f) {
        assert f in Released(t[p % 1024]);
      }
    }
  }

  /** The frames a directory's destruction releases are those its user pages own. */
  lemma {:induction false} DirectoryMember(m: Memory, dir: Frame, n: nat, f: Frame)
    requires dir in m && n <= 512
    ensures f in DirectoryFrames(m, dir, n) <==> exists p: PageNumber :: p / 1024 < n && Owns(m, dir, p, f)
  {
    if n > 0 {
      DirectoryMember(m, dir, n - 1, f);
      SlotMember(m, dir, n - 1, f);
    }
  }

  /** All frames `dir` would release. */
  ghost function OwnedFrames(m: Memory, dir: Frame): set<Frame>
    requires dir in m
  {
    DirectoryFrames(m, dir, 512)
  }

  lemma OwnedMember(m: Memory, dir: Frame, f: Frame)
    requires dir in m
    ensures f in OwnedFrames(m, dir) <==> exists p: PageNumber :: p < USER_PAGES && Owns(m, dir, p, f)
  {
    DirectoryMember(m, dir, 512, f);
    assert forall p: PageNumber :: p / 1024 < 512 <==> p < USER_PAGES;
  }

  /** No frame is owned through two pages of `dir`: destruction gives each back once. */
  ghost predicate OwnedOnce(m: Memory, dir: Frame)
    requires dir in m
  {
    forall p: PageNumber, r: PageNumber, f: Frame | p < USER_PAGES && r < USER_PAGES && Owns(m, dir, p, f) && Owns(m, dir, r, f) :: p == r
  }

  lemma SameUserWalks(m: Memory, m': Memory, dir: Frame)
    requires dir in m && dir in m' && forall p: PageNumber | p < USER_PAGES :: Walk(m', dir, p) == Walk(m, dir, p)
    ensures OwnedFrames(m', dir) == OwnedFrames(m, dir) && (OwnedOnce(m, dir) ==> OwnedOnce(m', dir))
  {
    assert forall p: PageNumber, f: Frame | p < USER_PAGES :: Owns(m', dir, p, f) == Owns(m, dir, p, f);
    forall f: Frame ensures f in OwnedFrames(m', dir) <==> f in OwnedFrames(m, dir) {
      OwnedMember(m, dir, f);
      OwnedMember(m', dir, f);
      assert forall p: PageNumber | p < USER_PAGES :: Owns(m', dir, p, f) == Owns(m, dir, p, f);
    }
  }

  lemma OneMorePage(m: Memory, m': Memory, dir: Frame, page: PageNumber, pte: Entry, dirFlags: bv12)
    requires dir in m && dir in m' && page < USER_PAGES && Walk(m, dir, page) == NoPage
    requires forall p: PageNumber :: Walk(m', dir, p) == if p == page then SmallPage(pte, dirFlags) else Walk(m, dir, p)
    requires dirFlags & 0x004 != 0 && Present(pte) && User(pte) && Owned(pte) && pte.frame != 0
    ensures OwnedFrames(m', dir) == OwnedFrames(m, dir) + {pte.frame}
    ensures OwnedOnce(m, dir) && pte.frame !in OwnedFrames(m, dir) ==> OwnedOnce(m', dir)
  {
    assert forall p: PageNumber, f: Frame | p < USER_PAGES :: Owns(m', dir, p, f) == if p == page then f == pte.frame else Owns(m, dir, p, f);
    if pte.frame !in OwnedFrames(m, dir) { OwnedMember(m, dir, pte.frame); }
    forall f: Frame ensures f in OwnedFrames(m', dir) <==> f in OwnedFrames(m, dir) + {pte.frame} {
      OwnedMember(m, dir, f);
      OwnedMember(m', dir, f);
      assert Owns(m', dir, page, f) <==> f == pte.frame;
      assert forall p: PageNumber | p < USER_PAGES && p != page :: Owns(m', dir, p, f) == Owns(m, dir, p, f);
    }
  }

  // ---- What others see ----

  /** For the listed directories nothing changed but kernel pages: fresh heap pages, the
      temporary page, and the kernel directory's slots for those two. */
  ghost predicate Kept(s: Supply, t: Supply, dirs: set<Frame>) {
    KERNEL_DIR in dirs && dirs <= s.memory.Keys && dirs <= t.memory.Keys && s.pages <= t.pages &&
    (forall d, p: PageNumber | d in dirs && p != TEMP_PAGE && !(HEAP_PAGE + s.pages <= p < HEAP_PAGE + t.pages) ::
      Walk(t.memory, d, p) == Walk(s.memory, d, p)) &&
    (forall d | d in dirs && d != KERNEL_DIR :: t.memory[d] == s.memory[d]) &&
    forall i | 0 <= i < 1024 && i != HEAP_SLOT && i != TEMP_SLOT :: t.memory[KERNEL_DIR][i] == s.memory[KERNEL_DIR][i]
  }

  lemma KeptTransitive(r: Supply, s: Supply, t: Supply, dirs: set<Frame>, more: set<Frame>)
    requires Kept(r, s, dirs) && Kept(s, t, more) && dirs <= more
    ensures Kept(r, t, dirs)
  {
  }

  /** What the page tables and the page manager themselves guarantee between operations. */
  ghost predicate InShape(s: Supply) {
    KERNEL_DIR in s.dirs && 0 !in s.dirs && s.dirs <= s.memory.Keys && |s.bits| == FRAME_COUNT && forall t | t in s.user :: s.user[t].0 in s.dirs
  }

  ghost function Of(dir: Frame): set<Frame> {
    if dir == 0 then {} else {dir}
  }

  /** The user tables that are not `dir`'s. */
  ghost function WithoutDir(user: map<Frame, (Frame, nat)>, dir: Frame): map<Frame, (Frame, nat)> {
    map t | t in user && user[t].0 != dir :: user[t]
  }

  /** From `base` to `now` one process came to hold directory `dir` (0: none yet) with the
      frames `mapped` in it and the frames `loose` not mapped yet; apart from that the kernel
      heap may have grown and everybody else is as before. */
  ghost predicate Holding(base: Supply, now: Supply, dir: Frame, mapped: set<Frame>, loose: set<Frame>) {
    Kept(base, now, base.dirs) && dir !in base.dirs && now.dirs == base.dirs + Of(dir) && now.dirs <= now.memory.Keys &&
    WithoutDir(now.user, dir) == base.user && base.backing <= now.backing && mapped !! loose &&
    NewFrames(base, now) !! mapped + loose &&
    FramesTaken(base.bits, now.bits, NewFrames(base, now) + mapped + loose) &&
    (if dir == 0 then mapped == {} else dir in now.memory && OwnedFrames(now.memory, dir) == mapped && OwnedOnce(now.memory, dir))
  }

  /** The user pages of an address space: page number -> flags of its entry. */
  type Layout = map<PageNumber, bv12>

  /** The processor lets user code through both levels of the walk. */
  ghost predicate UserLeaf(leaf: Leaf) {
    match leaf
    case NoPage => false
    case SmallPage(_, dirFlags) => dirFlags & 0x004 != 0
    case LargePage(pde) => User(pde)
  }

  /** A small page with these flags behind a writable user directory entry. */
  ghost predicate UserPage(leaf: Leaf, flags: bv12) {
    leaf.SmallPage? && leaf.dirFlags == PRESENT_RW_USER && leaf.pte.flags == flags
  }

  /** The user pages of `dir` are exactly those of the layout. */
  ghost predicate UserPages(m: Memory, dir: Frame, layout: Layout) {
    dir in m && (forall i | 0 <= i < 512 && Present(m[dir][i]) && User(m[dir][i]) :: m[dir][i].flags == PRESENT_RW_USER) &&
    (forall p | p in layout :: p < USER_PAGES && UserPage(Walk(m, dir, p), layout[p])) &&
    forall p: PageNumber | p < USER_PAGES && p !in layout :: !UserLeaf(Walk(m, dir, p))
  }

  /** A slot `map_user_page` accepts, at a page outside the layout: nothing is mapped there yet. */
  lemma NoUserPage(m: Memory, dir: Frame, layout: Layout, page: PageNumber)
    requires UserPages(m, dir, layout) && page < USER_PAGES && page !in layout
    requires Present(m[dir][page / 1024]) ==> User(m[dir][page / 1024]) && !Large(m[dir][page / 1024])
    ensures Walk(m, dir, page) == NoPage
    ensures SlotFlags(m[dir][page / 1024], PRESENT_RW_USER) == PRESENT_RW_USER
  {
    var pde := m[dir][page / 1024];
    assert page / 1024 < 512;
    assert User(pde) ==> pde.flags & 0x004 != 0;
    assert !UserLeaf(Walk(m, dir, page));
  }

  /** The words of `dir`, if there is one, and its user walks are the same. */
  ghost predicate SameDirectory(m: Memory, m': Memory, dir: Frame) {
    dir != 0 ==> dir in m && dir in m' && m'[dir] == m[dir] && forall p: PageNumber | p < USER_PAGES :: Walk(m', dir, p) == Walk(m, dir, p)
  }

  lemma SameUserPages(m: Memory, m': Memory, dir: Frame, layout: Layout)
    requires SameDirectory(m, m', dir) && dir != 0 && UserPages(m, dir, layout)
    ensures UserPages(m', dir, layout)
  {
  }

  lemma HoldNothing(s: Supply)
    requires KERNEL_DIR in s.dirs && 0 !in s.dirs && s.dirs <= s.memory.Keys && |s.bits| == FRAME_COUNT
    requires forall t | t in s.user :: s.user[t].0 in s.dirs
    ensures Holding(s, s, 0, {}, {})
  {
    assert NewFrames(s, s) == {};
    assert WithoutDir(s.user, 0) == s.user;
  }

  /** Kernel heap growth in the middle of the construction. */
  lemma HoldGrew(base: Supply, s: Supply, t: Supply, dir: Frame, mapped: set<Frame>, loose: set<Frame>)
    requires Holding(base, s, dir, mapped, loose) && Grew(s, t)
    ensures Holding(base, t, dir, mapped, loose) && SameDirectory(s.memory, t.memory, dir)
  {
    assert Kept(s, t, s.dirs) by { GrewKeeps(s, t); }
    KeptTransitive(base, s, t, base.dirs, s.dirs);
    hide Kept;
    TakenThenMore(base, s, t, mapped, loose);
    hide FramesTaken;
    if dir != 0 {
      SameUserWalks(s.memory, t.memory, dir);
    }
  }

  lemma GrewKeeps(s: Supply, t: Supply)
    requires Grew(s, t)
    ensures Kept(s, t, s.dirs)
  {
  }

  lemma TakenThenMore(base: Supply, s: Supply, t: Supply, mapped: set<Frame>, loose: set<Frame>)
    requires base.backing <= s.backing <= t.backing && NewFrames(base, s) !! mapped + loose
    requires FramesTaken(base.bits, s.bits, NewFrames(base, s) + mapped + loose) && FramesTaken(s.bits, t.bits, NewFrames(s, t))
    ensures NewFrames(base, t) !! mapped + loose
    ensures FramesTaken(base.bits, t.bits, NewFrames(base, t) + mapped + loose)
  {
    assert t.backing[|base.backing|..] == s.backing[|base.backing|..] + t.backing[|s.backing|..];
    assert NewFrames(base, t) == NewFrames(base, s) + NewFrames(s, t);
  }

  /** A kernel page mapped or unmapped at the temporary address. */
  ghost predicate TempChanged(s: Supply, t: Supply) {
    t == s.(memory := t.memory) && KERNEL_DIR in s.dirs && KernelSlotOnly(s.memory, t.memory, s.dirs, TEMP_SLOT) &&
    forall d, p: PageNumber | d in s.dirs && p != TEMP_PAGE :: Walk(t.memory, d, p) == Walk(s.memory, d, p)
  }

  lemma TempIsKept(s: Supply, t: Supply)
    requires TempChanged(s, t)
    ensures Kept(s, t, s.dirs)
  {
  }

  lemma HoldTemp(base: Supply, s: Supply, t: Supply, dir: Frame, mapped: set<Frame>, loose: set<Frame>)
    requires Holding(base, s, dir, mapped, loose) && TempChanged(s, t)
    ensures Holding(base, t, dir, mapped, loose) && SameDirectory(s.memory, t.memory, dir)
  {
    TempIsKept(s, t);
    KeptTransitive(base, s, t, base.dirs, s.dirs);
    hide Kept, FramesTaken;
    if dir != 0 {
      SameUserWalks(s.memory, t.memory, dir);
    }
  }

  lemma HoldTake(base: Supply, s: Supply, t: Supply, dir: Frame, mapped: set<Frame>, f: Frame)
    requires Holding(base, s, dir, mapped, {}) && t == s.(bits := t.bits) && FramesTaken(s.bits, t.bits, {f})
    ensures Holding(base, t, dir, mapped, {f})
  {
    KeptMemory(base, s, t);
    hide Kept;
    assert NewFrames(base, t) == NewFrames(base, s);
    assert NewFrames(base, s) + mapped + {} == NewFrames(base, s) + mapped;
  }

  lemma HoldRelease(base: Supply, s: Supply, t: Supply, dir: Frame, mapped: set<Frame>, f: Frame)
    requires Holding(base, s, dir, mapped, {f}) && t == s.(bits := t.bits) && FramesFreed(s.bits, t.bits, {f})
    ensures Holding(base, t, dir, mapped, {})
  {
    KeptMemory(base, s, t);
    hide Kept;
    assert NewFrames(base, t) == NewFrames(base, s);
    forall g: Frame ensures t.bits[g] == (base.bits[g] || g in NewFrames(base, t) + mapped + {}) {}
  }

  lemma KeptMemory(base: Supply, s: Supply, t: Supply)
    requires Kept(base, s, base.dirs) && t == s.(bits := t.bits)
    ensures Kept(base, t, base.dirs)
  {
  }

  /** create_page_directory. */
  lemma HoldDirectory(base: Supply, s: Supply, t: Supply, dir: Frame)
    requires Holding(base, s, 0, {}, {}) && t == s.(memory := t.memory, dirs := s.dirs + {dir})
    requires dir !in s.dirs && dir != 0 && dir in t.memory && SameWalks(s.memory, t.memory, s.dirs) && DirsKept(s.memory, t.memory, s.dirs)
    requires forall i | 0 <= i < 1024 :: t.memory[dir][i] == Inherited(t.memory[KERNEL_DIR], i)
    requires forall u | u in s.user :: s.user[u].0 in s.dirs
    ensures Holding(base, t, dir, {}, {}) && UserPages(t.memory, dir, map[])
  {
    assert Kept(s, t, s.dirs);
    KeptTransitive(base, s, t, base.dirs, s.dirs);
    assert UserPages(t.memory, dir, map[]);
    assert OwnedFrames(t.memory, dir) == {} by {
      forall f: Frame ensures f !in OwnedFrames(t.memory, dir) { OwnedMember(t.memory, dir, f); }
    }
    hide Kept, FramesTaken, SameWalks, DirsKept;
    assert WithoutDir(t.user, dir) == s.user == WithoutDir(s.user, 0);
  }

  /** map_user_page of a loose frame at a page outside the layout. */
  lemma HoldMap(base: Supply, s: Supply, t: Supply, dir: Frame, mapped: set<Frame>, f: Frame, page: PageNumber,
                pte: Entry, dirFlags: bv12, layout: Layout)
    requires Holding(base, s, dir, mapped, {f}) && dir != 0 && page < USER_PAGES && t == s.(memory := t.memory, user := t.user)
    requires OneWalkChanged(s.memory, t.memory, s.dirs, dir, page, SmallPage(pte, dirFlags))
    requires forall d | d in s.dirs && d != dir :: t.memory[d] == s.memory[d]
    requires dir in s.memory && dir in t.memory && forall i | 0 <= i < 1024 && i != page / 1024 :: t.memory[dir][i] == s.memory[dir][i]
    requires WithoutDir(t.user, dir) == WithoutDir(s.user, dir)
    requires UserPages(s.memory, dir, layout) && page !in layout && Walk(s.memory, dir, page) == NoPage
    requires dirFlags == PRESENT_RW_USER == t.memory[dir][page / 1024].flags && Present(pte) && User(pte) && Owned(pte) && pte.frame == f != 0
    ensures Holding(base, t, dir, mapped + {f}, {}) && UserPages(t.memory, dir, layout[page := pte.flags])
  {
    OneMorePage(s.memory, t.memory, dir, page, pte, dirFlags);
    assert Kept(s, t, s.dirs - {dir});
    KeptTransitive(base, s, t, base.dirs, s.dirs - {dir});
    hide Kept, FramesTaken, OneWalkChanged;
    assert NewFrames(base, t) == NewFrames(base, s);
    assert NewFrames(base, s) + mapped + {f} == NewFrames(base, s) + (mapped + {f}) + {};
  }

  /** What destroying directory `dir` does. */
  ghost predicate Dropped(s: Supply, t: Supply, dir: Frame) {
    dir in s.memory && t == s.(memory := t.memory, dirs := s.dirs - {dir}, user := WithoutDir(s.user, dir), bits := t.bits) &&
    SameWalks(s.memory, t.memory, t.dirs) && DirsKept(s.memory, t.memory, t.dirs) &&
    FramesFreed(s.bits, t.bits, OwnedFrames(s.memory, dir))
  }

  /** Destroying the directory undoes everything but the heap's growth. */
  lemma HoldDrop(base: Supply, s: Supply, t: Supply, dir: Frame, mapped: set<Frame>)
    requires Holding(base, s, dir, mapped, {}) && dir != 0 && Dropped(s, t, dir)
    requires 0 !in s.dirs && forall u | u in s.user :: s.user[u].0 in s.dirs
    ensures Holding(base, t, 0, {}, {})
  {
    assert KERNEL_DIR in base.dirs && base.dirs == t.dirs;
    assert Kept(s, t, t.dirs);
    KeptTransitive(base, s, t, base.dirs, t.dirs);
    hide Kept;
    assert NewFrames(base, t) == NewFrames(base, s);
    forall g: Frame ensures t.bits[g] == (base.bits[g] || g in NewFrames(base, t) + {} + {}) {}
    hide FramesTaken, FramesFreed, SameWalks, DirsKept;
    assert WithoutDir(WithoutDir(s.user, dir), 0) == WithoutDir(s.user, dir);
  }
}
