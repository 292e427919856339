/** How many pages of the table pool are left, read off the directories alone. */
module PoolCounts {
  import opened FrameAllocator
  import opened PageSpec

  const HEAP_SLOT := 513      // directory slot of the heap window
  const TEMP_SLOT := 514      // and of the temporary page
  const POOL_PAGES := 0x300

  /** The kernel's tables below slot `n`, apart from those for the heap window and the temporary page. */
  ghost function KernelTables(kernel: Table, n: nat): (k: nat)
    requires n <= 1024
  {
    if n == 0 then 0
    else KernelTables(kernel, n - 1) + if PointsToTable(kernel[n - 1]) && n - 1 != HEAP_SLOT && n - 1 != TEMP_SLOT then 1 else 0
  }

  /** The pool pages left once the heap window and the temporary page have a table each. */
  ghost function TablesLeft(m: Memory, dirs: set<Frame>, user: map<Frame, (Frame, nat)>): int {
    if KERNEL_DIR in m then POOL_PAGES - 2 - (|dirs| - 1) - |user| - KernelTables(m[KERNEL_DIR], 1024) else 0
  }

  ghost function Missing(m: Memory, slot: nat): nat
    requires slot < 1024
  {
    if KERNEL_DIR in m && PointsToTable(m[KERNEL_DIR][slot]) then 0 else 1
  }

  /** The kernel's part of `home`, below slot `n`. */
  ghost function KernelHome(home: map<Frame, (Frame, nat)>, n: nat): set<Frame> {
    set t | t in home && home[t].0 == KERNEL_DIR && home[t].1 < n
  }

  lemma {:induction false} KernelHomeCount(m: Memory, dirs: set<Frame>, home: map<Frame, (Frame, nat)>, n: nat)
    requires Sharing(m, dirs, home) && n <= 1024
    ensures |KernelHome(home, n)| == KernelTables(m[KERNEL_DIR], n) +
      (if n > HEAP_SLOT then 1 - Missing(m, HEAP_SLOT) else 0) + if n > TEMP_SLOT then 1 - Missing(m, TEMP_SLOT) else 0
    decreases n
  {
    if n == 0 {
      assert KernelHome(home, 0) == {};
    } else {
      KernelHomeCount(m, dirs, home, n - 1);
      var pde := m[KERNEL_DIR][n - 1];
      if PointsToTable(pde) {
        assert KernelHome(home, n) == KernelHome(home, n - 1) + {pde.frame};
        assert pde.frame !in KernelHome(home, n - 1);
      } else {
        assert KernelHome(home, n) == KernelHome(home, n - 1);
      }
    }
  }

  lemma HomeSplit(m: Memory, dirs: set<Frame>, home: map<Frame, (Frame, nat)>)
    requires Sharing(m, dirs, home)
    ensures |home| == |UserPart(home)| + |KernelHome(home, 1024)|
  {
    assert home.Keys == UserPart(home).Keys + KernelHome(home, 1024);
    assert UserPart(home).Keys !! KernelHome(home, 1024);
    assert |home| == |home.Keys| && |UserPart(home)| == |UserPart(home).Keys|;
  }

  /** The free list and the untouched pages are exactly what is left. */
  lemma PoolLeft(m: Memory, head: Frame, next: nat, free: seq<Frame>, dirs: set<Frame>, home: map<Frame, (Frame, nat)>)
    requires Consistent(m, head, next, free, dirs, home)
    ensures next <= POOL_END && KERNEL_DIR in m
    ensures |free| + (POOL_END - next) == TablesLeft(m, dirs, UserPart(home)) + Missing(m, HEAP_SLOT) + Missing(m, TEMP_SLOT)
  {
    PoolConservation(m, head, next, free, Taken(dirs, home));
    KernelHomeCount(m, dirs, home, 1024);
    HomeSplit(m, dirs, home);
    TakenCount(dirs, home);
    hide PoolAccounts, KernelTables;
  }

  lemma TakenCount(dirs: set<Frame>, home: map<Frame, (Frame, nat)>)
    requires KERNEL_DIR in dirs && dirs !! home.Keys
    ensures |Taken(dirs, home)| == |dirs| - 1 + |home|
  {
    assert (dirs - {KERNEL_DIR}) !! home.Keys;
    assert |dirs - {KERNEL_DIR}| == |dirs| - 1;
    assert |home| == |home.Keys|;
  }

  /** Only the words of other kernel slots count. */
  lemma {:induction false} SameKernelTables(k: Table, k': Table, n: nat)
    requires n <= 1024 && forall i | 0 <= i < n && i != HEAP_SLOT && i != TEMP_SLOT :: k'[i] == k[i]
    ensures KernelTables(k', n) == KernelTables(k, n)
    decreases n
  {
    if n > 0 { SameKernelTables(k, k', n - 1); }
  }
}
