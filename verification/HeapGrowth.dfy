/** What growing the kernel heap may do to the page manager and the page tables. */
module HeapGrowth {
  import opened FrameAllocator
  import opened PageSpec
  import opened PoolCounts

  const HEAP_PAGE := 0x8_0400 // first page number of the window

  /** Everything heap growth draws on. `pages` counts committed heap pages, `backing` lists the
      frames taken for them, in order. */
  datatype Supply = Supply(memory: Memory, dirs: set<Frame>, user: map<Frame, (Frame, nat)>,
                           bits: seq<bool>, backing: seq<Frame>, pages: nat)

  /** Exactly the frames of `taken` went from free to used. */
  ghost predicate FramesTaken(before: seq<bool>, after: seq<bool>, taken: set<Frame>) {
    |before| == |after| == FRAME_COUNT &&
    forall f: Frame :: after[f] == (before[f] || f in taken) && (f in taken ==> !before[f])
  }

  ghost predicate WindowTabled(s: Supply) {
    KERNEL_DIR in s.memory && PointsToTable(s.memory[KERNEL_DIR][HEAP_SLOT])
  }

  /** The frames taken between two supplies. */
  ghost function NewFrames(s: Supply, t: Supply): set<Frame>
    requires s.backing <= t.backing
  {
    Elements(t.backing[|s.backing|..])
  }

  /** Growth from `s` to `t`: only heap pages change meaning, and each new one is a kernel
      read-write page on a frame that was free; directories other than the kernel's keep
      every word; once the window has its table, frames are taken one per page. */
  ghost predicate Grew(s: Supply, t: Supply) {
    t.dirs == s.dirs && t.user == s.user && s.pages <= t.pages && s.backing <= t.backing &&
    FramesTaken(s.bits, t.bits, NewFrames(s, t)) &&
    KERNEL_DIR in s.dirs && s.dirs <= s.memory.Keys && s.dirs <= t.memory.Keys &&
    KernelSlotOnly(s.memory, t.memory, s.dirs, HEAP_SLOT) &&
    (forall d, p: PageNumber | d in s.dirs && !(HEAP_PAGE + s.pages <= p < HEAP_PAGE + t.pages) ::
      Walk(t.memory, d, p) == Walk(s.memory, d, p)) &&
    (forall p: PageNumber | HEAP_PAGE + s.pages <= p < HEAP_PAGE + t.pages ::
      HeapLeaf(Walk(t.memory, KERNEL_DIR, p), NewFrames(s, t))) &&
    (WindowTabled(s) ==> WindowTabled(t)) && (WindowTabled(s) || Tables(s) >= 0 ==> |t.backing| == |s.backing| + (t.pages - s.pages))
  }

  /** The frames of main memory that are not in use. */
  ghost function FreeSet(bits: seq<bool>): (r: set<Frame>)
    ensures forall f: Frame :: f in r <==> f < RAM_END && f < |bits| && !bits[f]
  {
    set f: Frame | f < RAM_END && f < |bits| && !bits[f]
  }

  /** What is left to take: frames, pages of the heap window, and pool pages beyond the two tables
      the kernel may still need for itself. */
  ghost function Frames(s: Supply): nat { |FreeSet(s.bits)| }
  ghost function Window(s: Supply): int { 1024 - s.pages }
  ghost function Tables(s: Supply): int { TablesLeft(s.memory, s.dirs, s.user) }

  lemma TablesIs(s: Supply)
    ensures Tables(s) == TablesLeft(s.memory, s.dirs, s.user)
  {
  }

  lemma FramesUsed(before: seq<bool>, after: seq<bool>, taken: set<Frame>)
    requires FramesTaken(before, after, taken)
    ensures |FreeSet(after)| >= |FreeSet(before)| - |taken|
  {
    FewerThan(FreeSet(before), FreeSet(after) + taken);
  }

  lemma {:induction false} FewerThan(a: set<Frame>, b: set<Frame>)
    requires a <= b
    ensures |a| <= |b|
  {
    assert b == a + (b - a);
  }

  lemma NoFrames(s: Supply)
    requires |s.bits| == FRAME_COUNT
    ensures NoneFree(s.bits) <==> Frames(s) == 0
  {
    if NoneFree(s.bits) {
      assert FreeSet(s.bits) == {};
    } else {
      var f: Frame :| f < RAM_END && !s.bits[f];
      assert f in FreeSet(s.bits);
    }
  }

  lemma {:induction false} FewElements(s: seq<Frame>)
    ensures |Elements(s)| <= |s|
  {
    if s != [] {
      FewElements(s[1..]);
      assert Elements(s) == {s[0]} + Elements(s[1..]);
    }
  }

  /** Growth costs no table and at most one frame a page, as long as a table is to be had. */
  lemma GrowthCosts(s: Supply, t: Supply)
    requires Grew(s, t)
    ensures Tables(t) == Tables(s) && Window(t) == Window(s) - (t.pages - s.pages)
    ensures WindowTabled(s) || Tables(s) >= 0 ==> Frames(t) >= Frames(s) - (t.pages - s.pages)
  {
    SameKernelTables(s.memory[KERNEL_DIR], t.memory[KERNEL_DIR], 1024);
    FramesUsed(s.bits, t.bits, NewFrames(s, t));
    FewElements(t.backing[|s.backing|..]);
    hide FramesTaken, KernelTables;
  }

  ghost predicate HeapLeaf(leaf: Leaf, frames: set<Frame>) {
    leaf.SmallPage? && leaf.pte.flags == PRESENT_RW && leaf.pte.frame in frames
  }

  lemma GrewNothing(s: Supply)
    requires KERNEL_DIR in s.dirs && s.dirs <= s.memory.Keys && |s.bits| == FRAME_COUNT
    ensures Grew(s, s)
  {
    assert NewFrames(s, s) == {};
  }

  lemma GrewTransitive(r: Supply, s: Supply, t: Supply)
    requires Grew(r, s) && Grew(s, t)
    ensures Grew(r, t)
  {
    SameKernelTables(r.memory[KERNEL_DIR], s.memory[KERNEL_DIR], 1024);
    hide KernelTables;
    assert t.backing[|r.backing|..] == s.backing[|r.backing|..] + t.backing[|s.backing|..];
    assert NewFrames(r, t) == NewFrames(r, s) + NewFrames(s, t);
    forall p: PageNumber | HEAP_PAGE + r.pages <= p < HEAP_PAGE + t.pages
      ensures HeapLeaf(Walk(t.memory, KERNEL_DIR, p), NewFrames(r, t))
    {
      if p < HEAP_PAGE + s.pages {
        assert HeapLeaf(Walk(s.memory, KERNEL_DIR, p), NewFrames(r, s));
      } else {
        assert HeapLeaf(Walk(t.memory, KERNEL_DIR, p), NewFrames(s, t));
      }
    }
  }

  /** One page mapped: heap_grow_one_page's effect on its suppliers. */
  lemma GrewOnePage(s: Supply, t: Supply, f: Frame)
    requires t.dirs == s.dirs && t.user == s.user && t.pages == s.pages + 1 && HEAP_PAGE + s.pages < HEAP_PAGE + 1024
    requires t.backing == s.backing + [f] && FramesTaken(s.bits, t.bits, {f})
    requires KERNEL_DIR in s.dirs && s.dirs <= s.memory.Keys
    requires KernelSlotOnly(s.memory, t.memory, s.dirs, HEAP_SLOT)
    requires SharedWalkChanged(s.memory, t.memory, s.dirs, KERNEL_DIR, HEAP_PAGE + s.pages, Entry(f, PRESENT_RW))
    requires PointsToTable(t.memory[KERNEL_DIR][HEAP_SLOT])
    ensures Grew(s, t)
  {
    assert t.backing[|s.backing|..] == [f] && NewFrames(s, t) == {f};
    assert Present(Entry(f, PRESENT_RW));
    assert Reaches(t.memory, KERNEL_DIR, KERNEL_DIR, HEAP_SLOT);
    assert (HEAP_PAGE + s.pages) / 1024 == HEAP_SLOT;
  }

  /** A frame taken but never mapped: the failure path keeps it marked used. */
  lemma GrewLeak(s: Supply, t: Supply, f: Frame)
    requires t.dirs == s.dirs && t.user == s.user && t.pages == s.pages && t.memory == s.memory
    requires t.backing == s.backing + [f] && FramesTaken(s.bits, t.bits, {f})
    requires KERNEL_DIR in s.dirs && s.dirs <= s.memory.Keys && !Present(s.memory[KERNEL_DIR][HEAP_SLOT]) && Tables(s) < 0
    ensures Grew(s, t)
  {
    assert t.backing[|s.backing|..] == [f] && NewFrames(s, t) == {f};
  }

  /** What mapping frame `f` behind the committed part does to the page tables. */
  ghost predicate PageMapped(m: Memory, m': Memory, dirs: set<Frame>, pages: nat, f: Frame, ok: bool) {
    dirs <= m.Keys && KERNEL_DIR in dirs && pages < 1024 &&
    if ok then KernelSlotOnly(m, m', dirs, HEAP_SLOT) && SharedWalkChanged(m, m', dirs, KERNEL_DIR, HEAP_PAGE + pages, Entry(f, PRESENT_RW)) &&
      KERNEL_DIR in m' && PointsToTable(m'[KERNEL_DIR][HEAP_SLOT])
    else m' == m && !Present(m[KERNEL_DIR][HEAP_SLOT])
  }

  /** The outcome of mapping a frame behind the committed part. */
  lemma PageOutcome(s: Supply, t: Supply, f: Frame, ok: bool)
    requires t.dirs == s.dirs && t.user == s.user && t.pages == s.pages && t.backing == s.backing + [f] && FramesTaken(s.bits, t.bits, {f})
    requires PageMapped(s.memory, t.memory, s.dirs, s.pages, f, ok) && (!ok ==> Tables(s) < 0)
    ensures Grew(s, if ok then t.(pages := s.pages + 1) else t)
  {
    hide Grew, KernelSlotOnly, SharedWalkChanged, FramesTaken;
    if ok {
      GrewOnePage(s, t.(pages := s.pages + 1), f);
    } else {
      GrewLeak(s, t, f);
    }
  }

  lemma TakenOne(bits: seq<bool>, f: Frame)
    requires |bits| == FRAME_COUNT && !bits[f]
    ensures FramesTaken(bits, bits[f := true], {f})
  {
  }

  lemma KernelInUse(m: Memory, dirs: set<Frame>, home: map<Frame, (Frame, nat)>)
    requires Sharing(m, dirs, home)
    ensures KERNEL_DIR in dirs && dirs <= m.Keys
  {
  }

  lemma TablePointer(e: Entry)
    requires PointsToTable(e)
    ensures Present(e) && !Large(e)
  {
  }
}
