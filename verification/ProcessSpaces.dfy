/** The address spaces of all processes at once: every process has a directory of its own, every
    physical frame has at most one owner, and what is marked used is what somebody holds. */
module ProcessSpaces {
  import opened MachineWords
  import opened FrameAllocator
  import opened PageSpec
  import opened PoolCounts
  import opened HeapGrowth
  import opened ProcessMemory

  /** Process -> page directory. */
  type Homes = map<u32, Frame>

  /** `f` is owned by a page of process `p`. */
  ghost predicate Has(m: Memory, homes: Homes, p: u32, f: Frame) {
    p in homes && homes[p] in m && f in OwnedFrames(m, homes[p])
  }

  ghost predicate Belongs(m: Memory, homes: Homes, f: Frame) {
    exists p :: Has(m, homes, p, f)
  }

  /** Every process has its own directory, and besides these only the kernel's are in use. */
  ghost predicate DirectoryAccount(start: Supply, s: Supply, homes: Homes) {
    (forall p | p in homes :: homes[p] != 0 && homes[p] !in start.dirs) &&
    (forall p, r | p in homes && r in homes && p != r :: homes[p] != homes[r]) &&
    (forall d | d in s.dirs :: d in start.dirs || d in homes.Values) && start.dirs <= s.dirs && homes.Values <= s.dirs &&
    s.dirs <= s.memory.Keys
  }

  ghost function WithoutDirs(user: map<Frame, (Frame, nat)>, dirs: set<Frame>): map<Frame, (Frame, nat)> {
    map t | t in user && user[t].0 !in dirs :: user[t]
  }

  /** Every user table belongs to a process directory or was there at the start. */
  ghost predicate TableAccount(start: Supply, s: Supply, homes: Homes) {
    (forall t | t in start.user :: start.user[t].0 in start.dirs) && (forall t | t in s.user :: s.user[t].0 in s.dirs) &&
    WithoutDirs(s.user, homes.Values) == start.user
  }

  /** A frame is marked used exactly if it was at the start, backs the kernel heap's growth, or
      belongs to a process, and it is only one of these. */
  ghost predicate FrameAccount(start: Supply, s: Supply, homes: Homes) {
    start.backing <= s.backing && |start.bits| == |s.bits| == FRAME_COUNT &&
    forall f: Frame ::
      s.bits[f] == (start.bits[f] || f in NewFrames(start, s) || Belongs(s.memory, homes, f)) &&
      !(start.bits[f] && f in NewFrames(start, s)) && !(start.bits[f] && Belongs(s.memory, homes, f)) &&
      !(f in NewFrames(start, s) && Belongs(s.memory, homes, f))
  }

  /** No frame belongs to two processes, nor to two pages of one. */
  ghost predicate OneOwner(m: Memory, homes: Homes) {
    (forall p, r, f | Has(m, homes, p, f) && Has(m, homes, r, f) :: p == r) &&
    forall p | p in homes && homes[p] in m :: OwnedOnce(m, homes[p])
  }

  /** `start` is what the kernel itself holds, `s` the state with the processes `homes`. */
  ghost predicate SpaceAccount(start: Supply, s: Supply, homes: Homes) {
    Kept(start, s, start.dirs) && 0 !in start.dirs && DirectoryAccount(start, s, homes) && TableAccount(start, s, homes) &&
    FrameAccount(start, s, homes) && OneOwner(s.memory, homes)
  }

  lemma SpaceParts(start: Supply, s: Supply, homes: Homes)
    ensures SpaceAccount(start, s, homes) <==>
      Kept(start, s, start.dirs) && 0 !in start.dirs && DirectoryAccount(start, s, homes) && TableAccount(start, s, homes) &&
      FrameAccount(start, s, homes) && OneOwner(s.memory, homes)
  {
  }

  /** Without processes only the kernel's own things and its heap's growth are in use. */
  lemma EmptySpaces(start: Supply, s: Supply)
    requires SpaceAccount(start, s, map[])
    ensures s.dirs == start.dirs && s.user == start.user && start.backing <= s.backing && FramesTaken(start.bits, s.bits, NewFrames(start, s))
    ensures Kept(start, s, start.dirs)
  {
    hide Kept, OneOwner;
    assert s.user == WithoutDirs(s.user, {});
    forall f: Frame ensures !Belongs(s.memory, map[], f) {}
  }

  /** ...and of the pool of page tables at most two tables more than at the start: those behind the
      kernel's slots for the heap window and the temporary page. */
  lemma PoolAfter(start: Supply, s: Supply, home0: map<Frame, (Frame, nat)>, home: map<Frame, (Frame, nat)>)
    requires SpaceAccount(start, s, map[]) && start.user == UserPart(home0) && s.user == UserPart(home)
    requires Sharing(start.memory, start.dirs, home0) && Sharing(s.memory, s.dirs, home)
    ensures KERNEL_DIR in s.memory
    ensures Taken(s.dirs, home) <= Taken(start.dirs, home0) + {s.memory[KERNEL_DIR][HEAP_SLOT].frame, s.memory[KERNEL_DIR][TEMP_SLOT].frame}
  {
    EmptySpaces(start, s);
    var kernel, kernel0 := s.memory[KERNEL_DIR], start.memory[KERNEL_DIR];
    forall t | t in home
      ensures t in home0 || t in {kernel[HEAP_SLOT].frame, kernel[TEMP_SLOT].frame}
    {
      var (d, i) := home[t];
      if d != KERNEL_DIR {
        assert UserPart(home)[t] == home[t] && t in UserPart(home0);
      } else if i != HEAP_SLOT && i != TEMP_SLOT {
        assert kernel0[i] == kernel[i];
      }
    }
  }

  lemma StartSpaces(s: Supply)
    requires InShape(s)
    ensures SpaceAccount(s, s, map[])
  {
    assert WithoutDirs(s.user, {}) == s.user;
    assert NewFrames(s, s) == {};
    forall f: Frame ensures !Belongs(s.memory, map[], f) {}
  }

  /** What process_destroy needs of memory holds for every process: its directory is in use, is
      nobody else's and not the kernel's; each frame its pages own is marked used, owned by one
      page only and by no other process, so nothing is given back twice. */
  lemma SpaceIsOwn(start: Supply, s: Supply, homes: Homes, p: u32)
    requires SpaceAccount(start, s, homes) && p in homes
    ensures start.backing <= s.backing && homes[p] in s.dirs && homes[p] != KERNEL_DIR && homes[p] != 0 && homes[p] in s.memory
    ensures forall r | r in homes && r != p :: homes[r] != homes[p] && homes[r] in s.memory && OwnedFrames(s.memory, homes[r]) !! OwnedFrames(s.memory, homes[p])
    ensures OwnedOnce(s.memory, homes[p])
    ensures |s.bits| == |start.bits| == FRAME_COUNT
    ensures forall f | f in OwnedFrames(s.memory, homes[p]) :: s.bits[f] && !start.bits[f] && f !in NewFrames(start, s)
  {
    hide TableAccount, OwnedOnce;
    assert homes[p] in homes.Values;
    forall f | f in OwnedFrames(s.memory, homes[p]) ensures Belongs(s.memory, homes, f) { assert Has(s.memory, homes, p, f); }
    forall r | r in homes && r != p
      ensures homes[r] in s.memory && OwnedFrames(s.memory, homes[r]) !! OwnedFrames(s.memory, homes[p])
    {
      assert homes[r] in homes.Values;
      forall f | f in OwnedFrames(s.memory, homes[r]) ensures f !in OwnedFrames(s.memory, homes[p]) {
        OnlyOwner(s.memory, homes, r, p, f);
      }
    }
  }

  lemma OnlyOwner(m: Memory, homes: Homes, r: u32, p: u32, f: Frame)
    requires OneOwner(m, homes) && Has(m, homes, r, f) && p != r
    ensures !Has(m, homes, p, f)
  {
  }

  // ---- What others do leaves a process its own ----

  /** The directories of all processes and what they own are the same in both memories. */
  ghost predicate SameOwners(m: Memory, m': Memory, homes: Homes) {
    forall p | p in homes :: homes[p] in m && homes[p] in m' && OwnedFrames(m', homes[p]) == OwnedFrames(m, homes[p]) &&
      (OwnedOnce(m, homes[p]) ==> OwnedOnce(m', homes[p]))
  }

  lemma OwnersStay(m: Memory, m': Memory, homes: Homes)
    requires SameOwners(m, m', homes) && OneOwner(m, homes)
    ensures OneOwner(m', homes) && forall p, f :: Has(m', homes, p, f) == Has(m, homes, p, f)
    ensures forall f :: Belongs(m', homes, f) == Belongs(m, homes, f)
  {
    hide OwnedOnce;
    forall p, f ensures Has(m', homes, p, f) == Has(m, homes, p, f) {}
    forall f ensures Belongs(m', homes, f) == Belongs(m, homes, f) {
      if Belongs(m', homes, f) { var p :| Has(m', homes, p, f); assert Has(m, homes, p, f); }
      if Belongs(m, homes, f) { var p :| Has(m, homes, p, f); assert Has(m', homes, p, f); }
    }
  }

  lemma KeptOwners(s: Supply, t: Supply, homes: Homes)
    requires Kept(s, t, s.dirs) && homes.Values <= s.dirs
    ensures SameOwners(s.memory, t.memory, homes)
  {
    forall p | p in homes
      ensures homes[p] in s.memory && homes[p] in t.memory && OwnedFrames(t.memory, homes[p]) == OwnedFrames(s.memory, homes[p])
      ensures OwnedOnce(s.memory, homes[p]) ==> OwnedOnce(t.memory, homes[p])
    {
      assert homes[p] in homes.Values;
      KeptUserWalks(s, t, homes[p]);
      SameUserWalks(s.memory, t.memory, homes[p]);
    }
  }

  lemma KeptUserWalks(s: Supply, t: Supply, d: Frame)
    requires Kept(s, t, s.dirs) && d in s.dirs
    ensures d in s.memory && d in t.memory && forall p: PageNumber | p < USER_PAGES :: Walk(t.memory, d, p) == Walk(s.memory, d, p)
  {
  }

  lemma SameWalksOwners(m: Memory, m': Memory, dirs: set<Frame>, homes: Homes)
    requires SameWalks(m, m', dirs) && homes.Values <= dirs
    ensures SameOwners(m, m', homes)
  {
    forall p | p in homes
      ensures homes[p] in m && homes[p] in m' && OwnedFrames(m', homes[p]) == OwnedFrames(m, homes[p])
      ensures OwnedOnce(m, homes[p]) ==> OwnedOnce(m', homes[p])
    {
      assert homes[p] in homes.Values;
      SameUserWalks(m, m', homes[p]);
    }
  }

  lemma NewFramesAdd(r: Supply, s: Supply, t: Supply)
    requires r.backing <= s.backing <= t.backing
    ensures NewFrames(r, t) == NewFrames(r, s) + NewFrames(s, t)
  {
    assert t.backing[|r.backing|..] == s.backing[|r.backing|..] + t.backing[|s.backing|..];
  }

  lemma KeptOn(start: Supply, s: Supply, t: Supply)
    requires Kept(start, s, start.dirs) && Kept(s, t, s.dirs) && start.dirs <= s.dirs
    ensures Kept(start, t, start.dirs)
  {
    KeptTransitive(start, s, t, start.dirs, s.dirs);
  }

  lemma Shapes(s: Supply)
    ensures InShape(s) <==>
      KERNEL_DIR in s.dirs && 0 !in s.dirs && s.dirs <= s.memory.Keys && |s.bits| == FRAME_COUNT && forall t | t in s.user :: s.user[t].0 in s.dirs
  {
  }

  // ---- A process comes, the kernel heap grows ----

  lemma HoldingParts(s: Supply, t: Supply, dir: Frame, mapped: set<Frame>)
    requires Holding(s, t, dir, mapped, {})
    ensures Kept(s, t, s.dirs) && dir !in s.dirs && t.dirs == s.dirs + Of(dir) && t.dirs <= t.memory.Keys
    ensures WithoutDir(t.user, dir) == s.user && s.backing <= t.backing && NewFrames(s, t) !! mapped
    ensures FramesTaken(s.bits, t.bits, NewFrames(s, t) + mapped)
    ensures if dir == 0 then mapped == {} else dir in t.memory && OwnedFrames(t.memory, dir) == mapped && OwnedOnce(t.memory, dir)
  {
    hide Kept, FramesTaken, OwnedOnce;
    assert NewFrames(s, t) + mapped + {} == NewFrames(s, t) + mapped;
  }

  /** The kernel heap's growth, and a creation that failed, touch no process. */
  lemma GrowthKeepsSpaces(start: Supply, s: Supply, t: Supply, homes: Homes)
    requires SpaceAccount(start, s, homes) && Holding(s, t, 0, {}, {}) && InShape(s) && InShape(t)
    ensures SpaceAccount(start, t, homes)
  {
    hide *;
    Shapes(s);
    Shapes(t);
    SpaceParts(start, s, homes);
    HoldingParts(s, t, 0, {});
    DirectoriesSame(start, s, t, homes);
    KeptOn(start, s, t);
    KeptOwners(s, t, homes);
    OwnersStay(s.memory, t.memory, homes);
    TablesSame(start, s, t, homes);
    FramesGrow(start, s, t, homes);
    SpaceParts(start, t, homes);
  }

  lemma DirectoriesSame(start: Supply, s: Supply, t: Supply, homes: Homes)
    requires DirectoryAccount(start, s, homes) && t.dirs == s.dirs + Of(0) && t.dirs <= t.memory.Keys
    ensures DirectoryAccount(start, t, homes) && homes.Values <= s.dirs && start.dirs <= s.dirs
  {
  }

  lemma TablesSame(start: Supply, s: Supply, t: Supply, homes: Homes)
    requires TableAccount(start, s, homes) && WithoutDir(t.user, 0) == s.user && 0 !in s.dirs && t.dirs == s.dirs + Of(0)
    requires forall u | u in t.user :: t.user[u].0 in t.dirs
    ensures TableAccount(start, t, homes)
  {
    assert t.dirs == s.dirs;
    assert WithoutDir(t.user, 0) == t.user;
  }

  lemma FramesGrow(start: Supply, s: Supply, t: Supply, homes: Homes)
    requires FrameAccount(start, s, homes) && s.backing <= t.backing && FramesTaken(s.bits, t.bits, NewFrames(s, t) + {})
    requires forall f :: Belongs(t.memory, homes, f) == Belongs(s.memory, homes, f)
    ensures FrameAccount(start, t, homes)
  {
    hide Belongs, NewFrames;
    NewFramesAdd(start, s, t);
    forall f: Frame ensures f in NewFrames(start, t) <==> f in NewFrames(start, s) || f in NewFrames(s, t) {}
  }

  /** process_create_protected32 succeeded with directory `dir` and the frames `mapped`. */
  lemma CreationKeepsSpaces(start: Supply, s: Supply, t: Supply, homes: Homes, p: u32, dir: Frame, mapped: set<Frame>)
    requires SpaceAccount(start, s, homes) && Holding(s, t, dir, mapped, {}) && dir != 0 && p !in homes && InShape(t)
    ensures SpaceAccount(start, t, homes[p := dir]) && dir !in homes.Values
  {
    hide *;
    Shapes(t);
    SpaceParts(start, s, homes);
    HoldingParts(s, t, dir, mapped);
    NewDirectory(start, s, t, homes, p, dir);
    KeptOn(start, s, t);
    KeptOwners(s, t, homes);
    OwnersStay(s.memory, t.memory, homes);
    NewTables(start, s, t, homes, p, dir);
    MappedAreFree(start, s, t, homes, mapped);
    NewOwner(t.memory, homes, p, dir, mapped);
    FramesMapped(start, s, t, homes, homes[p := dir], mapped);
    SpaceParts(start, t, homes[p := dir]);
  }

  lemma NewDirectory(start: Supply, s: Supply, t: Supply, homes: Homes, p: u32, dir: Frame)
    requires DirectoryAccount(start, s, homes) && t.dirs == s.dirs + Of(dir) && t.dirs <= t.memory.Keys && dir != 0 && dir !in s.dirs && p !in homes
    ensures DirectoryAccount(start, t, homes[p := dir]) && homes.Values <= s.dirs && start.dirs <= s.dirs && dir !in homes.Values
    ensures homes[p := dir].Values == homes.Values + {dir}
  {
    var h := homes[p := dir];
    forall r | r in homes ensures homes[r] in homes.Values {}
    forall d ensures d in h.Values <==> d in homes.Values + {dir} {
      if d == dir { assert h[p] == d && p in h; }
      if d in homes.Values { var r :| r in homes && homes[r] == d; assert r in h && h[r] == d; }
    }
  }

  lemma NewTables(start: Supply, s: Supply, t: Supply, homes: Homes, p: u32, dir: Frame)
    requires TableAccount(start, s, homes) && WithoutDir(t.user, dir) == s.user && t.dirs == s.dirs + Of(dir)
    requires homes[p := dir].Values == homes.Values + {dir} && forall u | u in t.user :: t.user[u].0 in t.dirs
    ensures TableAccount(start, t, homes[p := dir])
  {
    assert WithoutDirs(t.user, homes[p := dir].Values) == WithoutDirs(WithoutDir(t.user, dir), homes.Values);
  }

  /** Frames just taken belong to nobody. */
  lemma MappedAreFree(start: Supply, s: Supply, t: Supply, homes: Homes, mapped: set<Frame>)
    requires FrameAccount(start, s, homes) && s.backing <= t.backing && FramesTaken(s.bits, t.bits, NewFrames(s, t) + mapped)
    requires forall f :: Belongs(t.memory, homes, f) == Belongs(s.memory, homes, f)
    ensures forall f | f in mapped :: !Belongs(t.memory, homes, f)
  {
    hide Belongs, NewFrames;
  }

  lemma NewOwner(m: Memory, homes: Homes, p: u32, dir: Frame, mapped: set<Frame>)
    requires OneOwner(m, homes) && p !in homes && dir in m && OwnedFrames(m, dir) == mapped && OwnedOnce(m, dir)
    requires forall f | f in mapped :: !Belongs(m, homes, f)
    ensures OneOwner(m, homes[p := dir])
    ensures forall f :: Belongs(m, homes[p := dir], f) <==> Belongs(m, homes, f) || f in mapped
  {
    hide OwnedOnce;
    var h := homes[p := dir];
    forall r, f ensures Has(m, h, r, f) <==> if r == p then f in mapped else Has(m, homes, r, f) {}
    forall f ensures Belongs(m, h, f) <==> Belongs(m, homes, f) || f in mapped {
      if f in mapped { assert Has(m, h, p, f); }
      if Belongs(m, homes, f) { var r :| Has(m, homes, r, f); assert Has(m, h, r, f); }
    }
  }

  lemma FramesMapped(start: Supply, s: Supply, t: Supply, homes: Homes, homes': Homes, mapped: set<Frame>)
    requires FrameAccount(start, s, homes) && s.backing <= t.backing && NewFrames(s, t) !! mapped
    requires FramesTaken(s.bits, t.bits, NewFrames(s, t) + mapped)
    requires forall f :: Belongs(t.memory, homes, f) == Belongs(s.memory, homes, f)
    requires forall f :: Belongs(t.memory, homes', f) <==> Belongs(t.memory, homes, f) || f in mapped
    ensures FrameAccount(start, t, homes')
  {
    hide Belongs, NewFrames;
    NewFramesAdd(start, s, t);
    forall f: Frame ensures f in NewFrames(start, t) <==> f in NewFrames(start, s) || f in NewFrames(s, t) {}
  }

  /** The kernel's own frames come and go without touching anybody's. */
  lemma KernelFrames(start: Supply, s: Supply, homes: Homes, f: Frame)
    requires SpaceAccount(start, s, homes) && |start.bits| == |s.bits| == FRAME_COUNT
    ensures !s.bits[f] ==> SpaceAccount(start.(bits := start.bits[f := true]), s.(bits := s.bits[f := true]), homes)
    ensures start.bits[f] ==> SpaceAccount(start.(bits := start.bits[f := false]), s.(bits := s.bits[f := false]), homes)
  {
    OtherBits(start, s, homes, start.bits[f := true], s.bits[f := true]);
    OtherBits(start, s, homes, start.bits[f := false], s.bits[f := false]);
    hide Belongs, NewFrames, Kept, DirectoryAccount, TableAccount, OneOwner;
  }

  lemma OtherBits(start: Supply, s: Supply, homes: Homes, bits0: seq<bool>, bits: seq<bool>)
    requires SpaceAccount(start, s, homes) && start.backing <= s.backing
    ensures FrameAccount(start.(bits := bits0), s.(bits := bits), homes) ==> SpaceAccount(start.(bits := bits0), s.(bits := bits), homes)
    ensures NewFrames(start.(bits := bits0), s.(bits := bits)) == NewFrames(start, s)
  {
    hide Belongs, FrameAccount, OneOwner;
  }

  // ---- A process gets one page more ----

  /** A free frame was taken and mapped as an owned user page of `dir` where nothing was mapped. */
  ghost predicate PageGained(s: Supply, t: Supply, dir: Frame, page: PageNumber, pte: Entry, dirFlags: bv12) {
    t == s.(memory := t.memory, user := t.user, bits := t.bits) && dir in s.dirs && dir in s.memory && page < USER_PAGES &&
    Walk(s.memory, dir, page) == NoPage && OneWalkChanged(s.memory, t.memory, s.dirs, dir, page, SmallPage(pte, dirFlags)) &&
    dirFlags & 0x004 != 0 && Present(pte) && User(pte) && Owned(pte) && pte.frame != 0 && FramesTaken(s.bits, t.bits, {pte.frame}) &&
    (forall d | d in s.dirs && d != dir :: d in s.memory && d in t.memory && t.memory[d] == s.memory[d]) &&
    WithoutDir(t.user, dir) == WithoutDir(s.user, dir) && forall u | u in t.user :: t.user[u].0 in t.dirs
  }

  const OWNED_RW_FLAGS: bv12 := 0x207   // PAGE_PRESENT_RW_USER or PAGE_OWNED

  /** A frame freshly taken became an owned, writable user page of `dir`. */
  ghost predicate GainedUserPage(s: Supply, t: Supply, dir: Frame, page: PageNumber) {
    exists f, dirFlags :: PageGained(s, t, dir, page, Entry(f, OWNED_RW_FLAGS), dirFlags)
  }

  /** process_heap_grow and its like keep the account: the page's frame is the process's own. */
  lemma PageKeepsSpaces(start: Supply, s: Supply, t: Supply, homes: Homes, p: u32, page: PageNumber, pte: Entry, dirFlags: bv12)
    requires SpaceAccount(start, s, homes) && p in homes && PageGained(s, t, homes[p], page, pte, dirFlags)
    ensures SpaceAccount(start, t, homes)
  {
    hide *;
    SpaceParts(start, s, homes);
    SpaceIsOwn(start, s, homes, p);
    KernelKept(start, s);
    SubsetDirs(start, s, homes);
    GainedParts(start, s, t, homes, p, page, pte, dirFlags);
    KeptTransitive(start, s, t, start.dirs, s.dirs - {homes[p]});
    FrameWasFree(start, s, t, homes, pte.frame);
    OneMorePage(s.memory, t.memory, homes[p], page, pte, dirFlags);
    NotYetOwned(s.memory, homes, p, pte.frame);
    OwnersGain(s.memory, t.memory, homes, p, pte.frame);
    FramesGain(start, s, t, homes, pte.frame);
    SpaceParts(start, t, homes);
  }

  lemma GainedParts(start: Supply, s: Supply, t: Supply, homes: Homes, p: u32, page: PageNumber, pte: Entry, dirFlags: bv12)
    requires p in homes && PageGained(s, t, homes[p], page, pte, dirFlags) && DirectoryAccount(start, s, homes) && TableAccount(start, s, homes)
    requires KERNEL_DIR in start.dirs
    ensures DirectoryAccount(start, t, homes) && TableAccount(start, t, homes) && Kept(s, t, s.dirs - {homes[p]})
    ensures t.backing == s.backing && homes[p] in s.memory && homes[p] in t.memory && page < USER_PAGES && Walk(s.memory, homes[p], page) == NoPage
    ensures forall x: PageNumber ::
      Walk(t.memory, homes[p], x) == if x == page then SmallPage(pte, dirFlags) else Walk(s.memory, homes[p], x)
    ensures dirFlags & 0x004 != 0 && Present(pte) && User(pte) && Owned(pte) && pte.frame != 0 && FramesTaken(s.bits, t.bits, {pte.frame})
    ensures SameOwners(s.memory, t.memory, homes - {p}) && start.dirs <= s.dirs - {homes[p]}
  {
    assert homes[p] in homes.Values && KERNEL_DIR != homes[p];
    assert WithoutDirs(t.user, homes.Values) == WithoutDirs(WithoutDir(t.user, homes[p]), homes.Values);
    assert WithoutDirs(s.user, homes.Values) == WithoutDirs(WithoutDir(s.user, homes[p]), homes.Values);
    forall r | r in homes - {p}
      ensures homes[r] in s.memory && homes[r] in t.memory && OwnedFrames(t.memory, homes[r]) == OwnedFrames(s.memory, homes[r])
      ensures OwnedOnce(s.memory, homes[r]) ==> OwnedOnce(t.memory, homes[r])
    {
      assert homes[r] in homes.Values && homes[r] != homes[p];
      SameUserWalks(s.memory, t.memory, homes[r]);
    }
  }

  lemma FrameWasFree(start: Supply, s: Supply, t: Supply, homes: Homes, f: Frame)
    requires FrameAccount(start, s, homes) && FramesTaken(s.bits, t.bits, {f})
    ensures !Belongs(s.memory, homes, f)
  {
    hide Belongs, NewFrames;
  }

  lemma NotYetOwned(m: Memory, homes: Homes, p: u32, f: Frame)
    requires !Belongs(m, homes, f) && p in homes && homes[p] in m
    ensures f !in OwnedFrames(m, homes[p])
  {
    assert !Has(m, homes, p, f);
  }

  lemma OwnersGain(m: Memory, m': Memory, homes: Homes, p: u32, f: Frame)
    requires OneOwner(m, homes) && p in homes && homes[p] in m && homes[p] in m' && !Belongs(m, homes, f) && SameOwners(m, m', homes - {p})
    requires OwnedFrames(m', homes[p]) == OwnedFrames(m, homes[p]) + {f} && (OwnedOnce(m, homes[p]) ==> OwnedOnce(m', homes[p]))
    ensures OneOwner(m', homes) && forall g :: Belongs(m', homes, g) <==> Belongs(m, homes, g) || g == f
  {
    hide OwnedOnce;
    forall r, g ensures Has(m', homes, r, g) <==> Has(m, homes, r, g) || (r == p && g == f) {
      if r in homes && r != p { assert r in homes - {p}; }
    }
    forall g ensures Belongs(m', homes, g) <==> Belongs(m, homes, g) || g == f {
      if Belongs(m, homes, g) { var r :| Has(m, homes, r, g); assert Has(m', homes, r, g); }
      if g == f { assert Has(m', homes, p, g); }
    }
    forall r | r in homes && homes[r] in m' ensures OwnedOnce(m', homes[r]) {
      if r != p { assert r in homes - {p}; }
    }
  }

  lemma FramesGain(start: Supply, s: Supply, t: Supply, homes: Homes, f: Frame)
    requires FrameAccount(start, s, homes) && t.backing == s.backing && FramesTaken(s.bits, t.bits, {f})
    requires forall g :: Belongs(t.memory, homes, g) <==> Belongs(s.memory, homes, g) || g == f
    ensures FrameAccount(start, t, homes)
  {
    assert NewFrames(start, t) == NewFrames(start, s);
    hide Belongs, NewFrames;
  }

  // ---- A process goes ----

  lemma DroppedParts(s: Supply, t: Supply, dir: Frame)
    requires Dropped(s, t, dir) && KERNEL_DIR in s.dirs && dir != KERNEL_DIR
    ensures t == s.(memory := t.memory, dirs := s.dirs - {dir}, user := WithoutDir(s.user, dir), bits := t.bits) && dir in s.memory
    ensures SameWalks(s.memory, t.memory, t.dirs) && FramesFreed(s.bits, t.bits, OwnedFrames(s.memory, dir))
    ensures Kept(s, t, t.dirs) && t.dirs <= t.memory.Keys
  {
  }

  /** Destroying a process gives back its directory, tables and frames, and nobody else's. */
  lemma DestructionKeepsSpaces(start: Supply, s: Supply, t: Supply, homes: Homes, p: u32)
    requires SpaceAccount(start, s, homes) && p in homes && Dropped(s, t, homes[p])
    ensures SpaceAccount(start, t, homes - {p})
  {
    hide *;
    SpaceParts(start, s, homes);
    SpaceIsOwn(start, s, homes, p);
    KernelKept(start, s);
    SubsetDirs(start, s, homes);
    DroppedParts(s, t, homes[p]);
    GoneDirectory(start, s, t, homes, p);
    KeptTransitive(start, s, t, start.dirs, t.dirs);
    SameWalksOwners(s.memory, t.memory, t.dirs, homes - {p});
    FewerOwners(s.memory, homes, p);
    OwnersStay(s.memory, t.memory, homes - {p});
    GoneTables(start, s, t, homes, p);
    FramesGone(start, s, t, homes, p);
    SpaceParts(start, t, homes - {p});
  }

  lemma KernelKept(start: Supply, s: Supply)
    requires Kept(start, s, start.dirs)
    ensures KERNEL_DIR in start.dirs
  {
  }

  lemma SubsetDirs(start: Supply, s: Supply, homes: Homes)
    requires DirectoryAccount(start, s, homes)
    ensures start.dirs <= s.dirs && forall p | p in homes :: homes[p] !in start.dirs
  {
  }

  lemma GoneDirectory(start: Supply, s: Supply, t: Supply, homes: Homes, p: u32)
    requires DirectoryAccount(start, s, homes) && p in homes && t.dirs == s.dirs - {homes[p]} && t.dirs <= t.memory.Keys
    ensures DirectoryAccount(start, t, homes - {p}) && (homes - {p}).Values == homes.Values - {homes[p]}
    ensures (homes - {p}).Values <= t.dirs && start.dirs <= t.dirs
  {
    var h := homes - {p};
    forall r | r in homes ensures homes[r] in homes.Values {}
    forall d ensures d in h.Values <==> d in homes.Values - {homes[p]} {
      if d in h.Values { var r :| r in h && h[r] == d; assert r in homes && homes[r] == d; }
      if d in homes.Values && d != homes[p] { var r :| r in homes && homes[r] == d; assert r in h && h[r] == d; }
    }
  }

  lemma FewerOwners(m: Memory, homes: Homes, p: u32)
    requires OneOwner(m, homes) && p in homes && homes[p] in m
    ensures OneOwner(m, homes - {p})
    ensures forall f :: Belongs(m, homes - {p}, f) <==> Belongs(m, homes, f) && f !in OwnedFrames(m, homes[p])
  {
    hide OwnedOnce;
    var h := homes - {p};
    forall r, f ensures Has(m, h, r, f) <==> r != p && Has(m, homes, r, f) {}
    forall f ensures Belongs(m, h, f) <==> Belongs(m, homes, f) && f !in OwnedFrames(m, homes[p]) {
      if Belongs(m, h, f) {
        var r :| Has(m, h, r, f);
        assert Has(m, homes, r, f);
        OnlyOwner(m, homes, r, p, f);
      }
      if Belongs(m, homes, f) && f !in OwnedFrames(m, homes[p]) {
        var r :| Has(m, homes, r, f);
        assert Has(m, h, r, f);
      }
    }
  }

  lemma GoneTables(start: Supply, s: Supply, t: Supply, homes: Homes, p: u32)
    requires TableAccount(start, s, homes) && p in homes && t.user == WithoutDir(s.user, homes[p]) && t.dirs == s.dirs - {homes[p]}
    requires (homes - {p}).Values == homes.Values - {homes[p]}
    ensures TableAccount(start, t, homes - {p})
  {
    assert homes[p] in homes.Values;
    assert WithoutDirs(t.user, (homes - {p}).Values) == WithoutDirs(s.user, homes.Values);
  }

  lemma FramesGone(start: Supply, s: Supply, t: Supply, homes: Homes, p: u32)
    requires FrameAccount(start, s, homes) && p in homes && homes[p] in s.memory && t.backing == s.backing
    requires FramesFreed(s.bits, t.bits, OwnedFrames(s.memory, homes[p]))
    requires forall f :: Belongs(s.memory, homes - {p}, f) <==> Belongs(s.memory, homes, f) && f !in OwnedFrames(s.memory, homes[p])
    requires forall f :: Belongs(t.memory, homes - {p}, f) == Belongs(s.memory, homes - {p}, f)
    ensures FrameAccount(start, t, homes - {p})
  {
    assert NewFrames(start, t) == NewFrames(start, s);
    forall f | f in OwnedFrames(s.memory, homes[p]) ensures Belongs(s.memory, homes, f) { assert Has(s.memory, homes, p, f); }
    hide Belongs, NewFrames;
  }
}
