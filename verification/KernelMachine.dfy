/** The whole kernel: books, page directories and frames together, over whole runs. Nothing a
    process needs for its destruction is ever missing, nothing is given back twice, and when the
    last process is gone memory is as before but for the growth of the kernel heap. */
module KernelMachine {
  import opened MachineWords
  import opened FrameAllocator
  import opened PageSpec
  import opened HeapGrowth
  import opened Scheduler
  import opened ProcessMemory
  import opened ProcessBooks
  import opened ProcessAccounts
  import opened ProcessPopulation
  import opened ProcessSpaces
  import K = KernelRuns

  /** The books with their processes, the state of memory, and the directory of each process. */
  datatype Machine = Machine(w: World, s: Supply, homes: Homes)

  /** A step of the processes, the kernel heap's growth (with or without a failed creation), or one
      page more for a process. */
  datatype Event = Step(step: ProcessPopulation.Step) | Growth | Page(p: u32)

  ghost predicate Good(start: Supply, m: Machine) {
    Accounted(m.w) && SpaceAccount(start, m.s, m.homes) && m.homes.Keys == m.w.ps.Keys && InShape(m.s)
  }

  /** The memory of process `p` is given back. */
  ghost predicate Vacated(m: Machine, n: Machine, p: u32) {
    p in m.homes && Dropped(m.s, n.s, m.homes[p]) && n.homes == m.homes - {p}
  }

  ghost predicate Untouched(m: Machine, n: Machine) {
    n.s == m.s && n.homes == m.homes
  }

  ghost predicate Housed(m: Machine, n: Machine, p: u32, dir: Frame, mapped: set<Frame>) {
    dir != 0 && Holding(m.s, n.s, dir, mapped, {}) && n.homes == m.homes[p := dir]
  }

  ghost predicate MemoryStep(m: Machine, step: ProcessPopulation.Step, n: Machine) {
    match step
    case Tick => if m.w.doomed == 0 then Untouched(m, n) else Vacated(m, n, m.w.doomed)
    case Terminate(_) => if m.w.doomed == 0 then Untouched(m, n) else Vacated(m, n, m.w.doomed)
    case Create(_, q) => exists dir, mapped :: Housed(m, n, q.address, dir, mapped)
    case Destroy(p) => if p in m.w.ps && !Refused(m.w.books, m.w.ps[p]) then Vacated(m, n, p) else Untouched(m, n)
    case Claim(_) => Untouched(m, n)
  }

  ghost predicate Gains(m: Machine, n: Machine, p: u32, page: PageNumber, pte: Entry, dirFlags: bv12) {
    p in m.homes && PageGained(m.s, n.s, m.homes[p], page, pte, dirFlags)
  }

  /** What kernel operations do to the machine, by their contracts. */
  ghost predicate Follows(m: Machine, e: Event, n: Machine) {
    InShape(n.s) &&
    match e
    case Step(step) => Enabled(m.w, step) && Next(m.w, step) == Some(n.w) && MemoryStep(m, step, n)
    case Growth => n.w == m.w && n.homes == m.homes && Holding(m.s, n.s, 0, {}, {})
    case Page(p) => n.w == m.w && n.homes == m.homes && exists page, pte, dirFlags :: Gains(m, n, p, page, pte, dirFlags)
  }

  // ---- One step ----

  lemma GoodParts(start: Supply, m: Machine)
    ensures Good(start, m) <==>
      Accounted(m.w) && SpaceAccount(start, m.s, m.homes) && m.homes.Keys == m.w.ps.Keys && InShape(m.s)
  {
  }

  lemma VacatedKeeps(start: Supply, m: Machine, n: Machine, p: u32)
    requires SpaceAccount(start, m.s, m.homes) && Vacated(m, n, p)
    ensures SpaceAccount(start, n.s, n.homes) && n.homes.Keys == m.homes.Keys - {p}
  {
    DestructionKeepsSpaces(start, m.s, n.s, m.homes, p);
  }

  lemma ReapKeepsGood(start: Supply, m: Machine, n: Machine)
    requires Good(start, m) && Accounted(n.w) && n.w.ps == m.w.ps - {m.w.doomed} && InShape(n.s)
    requires if m.w.doomed == 0 then Untouched(m, n) else Vacated(m, n, m.w.doomed)
    ensures Good(start, n)
  {
    hide *;
    GoodParts(start, m);
    GoodParts(start, n);
    NobodyAtZero(m.w);
    if m.w.doomed == 0 {
      UntouchedIs(m, n);
      assert n.w.ps.Keys == m.w.ps.Keys;
    } else {
      VacatedKeeps(start, m, n, m.w.doomed);
      assert n.w.ps.Keys == m.w.ps.Keys - {m.w.doomed};
    }
  }

  lemma UntouchedIs(m: Machine, n: Machine)
    ensures Untouched(m, n) <==> n.s == m.s && n.homes == m.homes
  {
  }

  /** process_create_protected32, as its contract has it. */
  lemma CreationKeepsGood(start: Supply, m: Machine, n: Machine, b: Books, q: Pieces)
    requires Good(start, m) && Billed(m.w.books, b, q, true) && Member(q.address, q) && n.w == Created(m.w, b, q) && InShape(n.s)
    requires exists dir, mapped :: Housed(m, n, q.address, dir, mapped)
    ensures Good(start, n)
  {
    hide *;
    GoodParts(start, m);
    GoodParts(start, n);
    CreationKeepsAccounts(m.w, b, q);
    CreatedIs(m.w, b, q);
    var dir, mapped :| Housed(m, n, q.address, dir, mapped);
    HousedIs(m, n, q.address, dir, mapped);
    CreationKeepsSpaces(start, m.s, n.s, m.homes, q.address, dir, mapped);
    assert n.homes.Keys == m.homes.Keys + {q.address};
    assert n.w.ps.Keys == m.w.ps.Keys + {q.address};
  }

  lemma HousedIs(m: Machine, n: Machine, p: u32, dir: Frame, mapped: set<Frame>)
    ensures Housed(m, n, p, dir, mapped) <==> dir != 0 && Holding(m.s, n.s, dir, mapped, {}) && n.homes == m.homes[p := dir]
  {
    hide Holding;
  }

  lemma DestructionKeepsGood(start: Supply, m: Machine, n: Machine, p: u32)
    requires Good(start, m) && p in m.w.ps && n.w == DestroyTried(m.w, p) && InShape(n.s)
    requires if Refused(m.w.books, m.w.ps[p]) then Untouched(m, n) else Vacated(m, n, p)
    ensures Good(start, n)
  {
    hide *;
    GoodParts(start, m);
    GoodParts(start, n);
    DestroyTriedIs(m.w, p);
    UntouchedIs(m, n);
    if !Refused(m.w.books, m.w.ps[p]) {
      DestructionKeepsAccounts(m.w, p);
      SelectorsDiffer(m.w, p, p);
      GoneIs(m.w, p);
      VacatedKeeps(start, m, n, p);
      assert n.w.ps.Keys == m.w.ps.Keys - {p};
    }
  }

  lemma PageKeepsGood(start: Supply, m: Machine, n: Machine, p: u32)
    requires Good(start, m) && n.w == m.w && n.homes == m.homes && InShape(n.s)
    requires exists page, pte, dirFlags :: Gains(m, n, p, page, pte, dirFlags)
    ensures Good(start, n)
  {
    hide *;
    GoodParts(start, m);
    GoodParts(start, n);
    var page, pte, dirFlags :| Gains(m, n, p, page, pte, dirFlags);
    GainsIs(m, n, p, page, pte, dirFlags);
    PageKeepsSpaces(start, m.s, n.s, m.homes, p, page, pte, dirFlags);
  }

  lemma GainsIs(m: Machine, n: Machine, p: u32, page: PageNumber, pte: Entry, dirFlags: bv12)
    ensures Gains(m, n, p, page, pte, dirFlags) <==> p in m.homes && PageGained(m.s, n.s, m.homes[p], page, pte, dirFlags)
  {
    hide PageGained;
  }

  lemma GrowthKeepsGood(start: Supply, m: Machine, n: Machine)
    requires Good(start, m) && n.w == m.w && n.homes == m.homes && Holding(m.s, n.s, 0, {}, {}) && InShape(n.s)
    ensures Good(start, n)
  {
    hide *;
    GoodParts(start, m);
    GoodParts(start, n);
    GrowthKeepsSpaces(start, m.s, n.s, m.homes);
  }

  lemma FollowsIs(m: Machine, e: Event, n: Machine)
    requires Follows(m, e, n)
    ensures InShape(n.s)
    ensures e.Step? ==> Enabled(m.w, e.step) && Next(m.w, e.step) == Some(n.w) && MemoryStep(m, e.step, n)
    ensures !e.Step? ==> n.w == m.w && n.homes == m.homes
    ensures e.Growth? ==> Holding(m.s, n.s, 0, {}, {})
    ensures e.Page? ==> exists page, pte, dirFlags :: Gains(m, n, e.p, page, pte, dirFlags)
  {
    hide Enabled, Next, MemoryStep, Holding, Gains, InShape;
  }

  lemma MemoryStepIs(m: Machine, step: ProcessPopulation.Step, n: Machine)
    requires MemoryStep(m, step, n)
    ensures step.Tick? || step.Terminate? ==> if m.w.doomed == 0 then Untouched(m, n) else Vacated(m, n, m.w.doomed)
    ensures step.Create? ==> exists dir, mapped :: Housed(m, n, step.q.address, dir, mapped)
    ensures step.Destroy? ==> if step.p in m.w.ps && !Refused(m.w.books, m.w.ps[step.p]) then Vacated(m, n, step.p) else Untouched(m, n)
    ensures step.Claim? ==> Untouched(m, n)
  {
    hide Untouched, Vacated, Housed, Refused;
  }

  lemma NextIs(w: World, step: ProcessPopulation.Step)
    requires Enabled(w, step)
    ensures
      Next(w, step) == match step
        case Tick => Some(Ticked(w))
        case Terminate(p) => Terminated(w, p)
        case Create(b, q) => Some(Created(w, b, q))
        case Destroy(p) => Some(DestroyTried(w, p))
        case Claim(p) => Some(Claimed(w, p))
    ensures step.Terminate? ==> step.p in w.ps && step.p != w.doomed && w.ps[step.p].tssSelector == w.books.queue.loaded
    ensures step.Destroy? ==> step.p in w.ps && step.p != w.doomed
    ensures step.Claim? ==> step.p in w.ps
    ensures step.Create? ==> Billed(w.books, step.books, step.q, true) && Member(step.q.address, step.q)
  {
    hide Ticked, Terminated, Created, DestroyTried, Claimed, Billed, Member;
  }

  lemma TerminatedPeople(w: World, p: u32, v: World)
    requires Accounted(w) && p in w.ps && p != w.doomed && w.ps[p].tssSelector == w.books.queue.loaded && Terminated(w, p) == Some(v)
    ensures Accounted(v) && v.ps == w.ps - {w.doomed}
  {
    hide *;
    TerminationKeepsAccounts(w, p);
    ReapKeepsAccounts(w);
    SelectorsDiffer(w, p, p);
    LoadedIsTask(w, p);
    TerminatedIs(w, p);
  }

  /** Every event keeps the accounts of books and memory. */
  lemma EventKeepsGood(start: Supply, m: Machine, e: Event, n: Machine)
    requires Good(start, m) && Follows(m, e, n)
    ensures Good(start, n)
  {
    hide *;
    GoodParts(start, m);
    FollowsIs(m, e, n);
    match e {
      case Growth => GrowthKeepsGood(start, m, n);
      case Page(p) => PageKeepsGood(start, m, n, p);
      case Step(step) =>
        NextIs(m.w, step);
        MemoryStepIs(m, step, n);
        match step {
          case Tick =>
            TickKeepsAccounts(m.w);
            ReapKeepsGood(start, m, n);
          case Terminate(p) =>
            TerminatedPeople(m.w, p, n.w);
            ReapKeepsGood(start, m, n);
          case Create(b, q) => CreationKeepsGood(start, m, n, b, q);
          case Destroy(p) => DestructionKeepsGood(start, m, n, p);
          case Claim(p) =>
            ClaimKeepsAccounts(m.w, p);
            ClaimedIs(m.w, p);
            UntouchedIs(m, n);
            GoodParts(start, n);
        }
    }
  }

  // ---- Runs ----

  ghost predicate Run(start: Supply, ms: seq<Machine>, es: seq<Event>) {
    |ms| == |es| + 1 && Good(start, ms[0]) && forall k | 0 <= k < |es| :: Follows(ms[k], es[k], ms[k + 1])
  }

  lemma RunParts(start: Supply, ms: seq<Machine>, es: seq<Event>)
    requires Run(start, ms, es)
    ensures |ms| == |es| + 1 && Good(start, ms[0]) && forall k | 0 <= k < |es| :: Follows(ms[k], es[k], ms[k + 1])
  {
    hide Good, Follows;
  }

  lemma {:induction false} RunsStayGood(start: Supply, ms: seq<Machine>, es: seq<Event>, k: nat)
    requires Run(start, ms, es) && k <= |es|
    ensures |ms| == |es| + 1 && Good(start, ms[k])
    decreases k
  {
    hide *;
    RunParts(start, ms, es);
    if k > 0 {
      RunsStayGood(start, ms, es, k - 1);
      EventKeepsGood(start, ms[k - 1], es[k - 1], ms[k]);
    }
  }

  /** At boot there is no process, and what is in use is the kernel's. */
  lemma BootIsGood(live: map<int, int>, s: Supply)
    requires InShape(s)
    ensures Good(s, Machine(Boot(live), s, map[]))
  {
    hide *;
    BootIsAccounted(live);
    StartSpaces(s);
    BootIs(live);
    GoodParts(s, Machine(Boot(live), s, map[]));
  }

  lemma BootIs(live: map<int, int>)
    ensures Boot(live).ps == map[]
  {
  }

  /** In every state of every run each process can be destroyed and terminated as the contracts
      demand: its pieces are its own and still held, its directory is in use and no other
      process's, and none of its frames is somebody else's, free, or to be given back twice. */
  lemma AlwaysDestroyable(start: Supply, ms: seq<Machine>, es: seq<Event>, k: nat, p: u32)
    requires Run(start, ms, es) && k <= |es| && |ms| == |es| + 1 && p in ms[k].w.ps
    ensures
      var m := ms[k];
      Destroyable(m.w.books, m.w.ps[p]) && InOrder(m.w.books) && p in m.homes &&
      m.homes[p] in m.s.dirs && m.homes[p] != KERNEL_DIR && m.homes[p] != 0 && m.homes[p] in m.s.memory && OwnedOnce(m.s.memory, m.homes[p]) &&
      |m.s.bits| == FRAME_COUNT && forall f | f in OwnedFrames(m.s.memory, m.homes[p]) :: m.s.bits[f]
    ensures forall r | r in ms[k].w.ps && r != p :: Strangers(ms[k], p, r)
  {
    hide *;
    var m := ms[k];
    RunsStayGood(start, ms, es, k);
    GoodParts(start, m);
    ProcessPopulation.AlwaysDestroyable(m.w, p);
    SpaceIsOwn(start, m.s, m.homes, p);
    forall r | r in m.w.ps && r != p ensures Strangers(m, p, r) {
      MembersForeign(m.w, p, r);
      ForeignIs(m.w.ps[p], m.w.ps[r]);
      StrangersIs(m, p, r);
    }
  }

  /** Two processes share neither payloads nor GDT entries, directory or frames. */
  ghost predicate Strangers(m: Machine, p: u32, r: u32) {
    p in m.w.ps && r in m.w.ps && p in m.homes && r in m.homes && m.homes[p] in m.s.memory && m.homes[r] in m.s.memory &&
    Payloads(m.w.ps[p]) !! Payloads(m.w.ps[r]) && Entries(m.w.ps[p]) !! Entries(m.w.ps[r]) && m.homes[p] != m.homes[r] &&
    OwnedFrames(m.s.memory, m.homes[p]) !! OwnedFrames(m.s.memory, m.homes[r])
  }

  lemma StrangersIs(m: Machine, p: u32, r: u32)
    ensures Strangers(m, p, r) <==>
      p in m.w.ps && r in m.w.ps && p in m.homes && r in m.homes && m.homes[p] in m.s.memory && m.homes[r] in m.s.memory &&
      Payloads(m.w.ps[p]) !! Payloads(m.w.ps[r]) && Entries(m.w.ps[p]) !! Entries(m.w.ps[r]) && m.homes[p] != m.homes[r] &&
      OwnedFrames(m.s.memory, m.homes[p]) !! OwnedFrames(m.s.memory, m.homes[r])
  {
    hide Payloads, Entries, OwnedFrames;
  }

  // ---- The books alone ----

  function StepsOf(es: seq<Event>): seq<ProcessPopulation.Step> {
    if es == [] then []
    else
      var front, last := StepsOf(es[..|es| - 1]), es[|es| - 1];
      if last.Step? then front + [last.step] else front
  }

  /** The books before and after each of `StepsOf`. */
  function WorldsOf(ms: seq<Machine>, es: seq<Event>): seq<World>
    requires |ms| == |es| + 1
  {
    if es == [] then [ms[0].w]
    else
      var front, last := WorldsOf(ms[..|es|], es[..|es| - 1]), es[|es| - 1];
      if last.Step? then front + [ms[|es|].w] else front
  }

  lemma ShorterRun(start: Supply, ms: seq<Machine>, es: seq<Event>)
    requires Run(start, ms, es) && |ms| == |es| + 1 && es != []
    ensures Run(start, ms[..|es|], es[..|es| - 1]) && Follows(ms[|es| - 1], es[|es| - 1], ms[|es|])
  {
    hide *;
    RunParts(start, ms, es);
    var ms', es' := ms[..|es|], es[..|es| - 1];
    forall k | 0 <= k < |es'| ensures Follows(ms'[k], es'[k], ms'[k + 1]) {
      assert Follows(ms[k], es[k], ms[k + 1]);
    }
    RunIs(start, ms', es');
  }

  /** On its books alone every run of the whole kernel is a run of `KernelRuns`: what is proved there,
      bounded waiting included, holds here. */
  lemma {:induction false} BooksRun(start: Supply, ms: seq<Machine>, es: seq<Event>)
    requires Run(start, ms, es) && |ms| == |es| + 1
    ensures K.Run(WorldsOf(ms, es), StepsOf(es))
    ensures |WorldsOf(ms, es)| == |StepsOf(es)| + 1 && WorldsOf(ms, es)[|StepsOf(es)|] == ms[|es|].w
    decreases |es|
  {
    hide *;
    BooksOf(ms, es);
    if es == [] {
      RunParts(start, ms, es);
      GoodParts(start, ms[0]);
      NoStepYet(ms[0].w);
    } else {
      var k := |es| - 1;
      ShorterRun(start, ms, es);
      BooksRun(start, ms[..|es|], es[..k]);
      FollowsIs(ms[k], es[k], ms[k + 1]);
      if es[k].Step? {
        OneMoreStep(WorldsOf(ms[..|es|], es[..k]), StepsOf(es[..k]), es[k].step, ms[k + 1].w);
      }
    }
  }

  lemma BooksOf(ms: seq<Machine>, es: seq<Event>)
    requires |ms| == |es| + 1
    ensures es == [] ==> StepsOf(es) == [] && WorldsOf(ms, es) == [ms[0].w]
    ensures es != [] ==>
      var k := |es| - 1;
      StepsOf(es) == (if es[k].Step? then StepsOf(es[..k]) + [es[k].step] else StepsOf(es[..k])) &&
      WorldsOf(ms, es) == if es[k].Step? then WorldsOf(ms[..|es|], es[..k]) + [ms[|es|].w] else WorldsOf(ms[..|es|], es[..k])
  {
  }

  lemma NoStepYet(w: World)
    requires Accounted(w)
    ensures K.Run([w], [])
  {
    hide Accounted;
  }

  lemma OneMoreStep(ws: seq<World>, steps: seq<ProcessPopulation.Step>, step: ProcessPopulation.Step, v: World)
    requires K.Run(ws, steps) && |ws| == |steps| + 1 && Enabled(ws[|steps|], step) && Next(ws[|steps|], step) == Some(v)
    ensures K.Run(ws + [v], steps + [step])
  {
    hide Accounted, Enabled, Next;
    var ws', steps' := ws + [v], steps + [step];
    forall k | 0 <= k < |steps'| ensures K.Steps(ws'[k], steps'[k], ws'[k + 1]) {
      if k < |steps| { assert K.Steps(ws[k], steps[k], ws[k + 1]); }
    }
  }

  // ---- Nothing leaks ----

  lemma RestKept(m: Machine, e: Event, n: Machine)
    requires Follows(m, e, n)
    ensures n.w.rest == m.w.rest && n.w.gdt0 == m.w.gdt0
  {
    hide *;
    FollowsIs(m, e, n);
    if e.Step? { K.StepKeepsRest(m.w, e.step); }
  }

  lemma {:induction false} RestStays(start: Supply, ms: seq<Machine>, es: seq<Event>, k: nat)
    requires Run(start, ms, es) && k <= |es|
    ensures |ms| == |es| + 1 && ms[k].w.rest == ms[0].w.rest && ms[k].w.gdt0 == ms[0].w.gdt0
    decreases k
  {
    hide *;
    RunParts(start, ms, es);
    if k > 0 {
      RestStays(start, ms, es, k - 1);
      RestKept(ms[k - 1], es[k - 1], ms[k]);
    }
  }

  /** A run that begins without processes can be counted from its own first state. */
  lemma FromTheStart(start: Supply, ms: seq<Machine>, es: seq<Event>)
    requires Run(start, ms, es) && |ms| == |es| + 1 && ms[0].w.ps == map[]
    ensures Run(ms[0].s, ms, es)
  {
    hide *;
    RunParts(start, ms, es);
    GoodParts(start, ms[0]);
    assert ms[0].homes == map[];
    StartSpaces(ms[0].s);
    GoodParts(ms[0].s, ms[0]);
    RunIs(ms[0].s, ms, es);
  }

  lemma RunIs(start: Supply, ms: seq<Machine>, es: seq<Event>)
    requires |ms| == |es| + 1 && Good(start, ms[0]) && forall k | 0 <= k < |es| :: Follows(ms[k], es[k], ms[k + 1])
    ensures Run(start, ms, es)
  {
    hide Good, Follows;
  }

  /** The same frames, directories and tables of processes are in use, but for the frames that back
      the kernel heap's growth; the kernel's own words are as before. */
  ghost predicate MemoryRestored(s0: Supply, s: Supply) {
    s.dirs == s0.dirs && s.user == s0.user && Kept(s0, s, s0.dirs) && s0.backing <= s.backing &&
    FramesTaken(s0.bits, s.bits, NewFrames(s0, s))
  }

  /** Whatever was created, terminated and destroyed in between, in whatever order: once no process
      is left, books and memory are as if there had never been any. */
  lemma NothingLeaks(start: Supply, ms: seq<Machine>, es: seq<Event>)
    requires Run(start, ms, es) && |ms| == |es| + 1 && ms[0].w.ps == map[] && ms[|es|].w.ps == map[]
    ensures
      var b0, b := ms[0].w.books, ms[|es|].w.books;
      b.live == b0.live && b.gdt == b0.gdt && b.slots == b0.slots && b.table == b0.table && b.active == b0.active == 0 &&
      b.owner == b0.owner == 0 && NonZero(b.queue.run) == {} && b.queue.count == 0
    ensures SpaceAccount(ms[0].s, ms[|es|].s, map[]) && MemoryRestored(ms[0].s, ms[|es|].s)
  {
    hide *;
    var m0, m := ms[0], ms[|es|];
    FromTheStart(start, ms, es);
    RunsStayGood(m0.s, ms, es, 0);
    RunsStayGood(m0.s, ms, es, |es|);
    RestStays(start, ms, es, |es|);
    GoodParts(m0.s, m0);
    GoodParts(m0.s, m);
    EmptyIsClean(m0.w);
    EmptyIsClean(m.w);
    K.SlotSizes(m0.w);
    K.SlotSizes(m.w);
    assert m.w.books.slots == m0.w.books.slots;
    assert m.w.books.table == m0.w.books.table;
    assert m.homes == map[];
    EmptySpaces(m0.s, m.s);
    RestoredIs(m0.s, m.s);
  }

  lemma RestoredIs(s0: Supply, s: Supply)
    ensures MemoryRestored(s0, s) <==>
      s.dirs == s0.dirs && s.user == s0.user && Kept(s0, s, s0.dirs) && s0.backing <= s.backing && FramesTaken(s0.bits, s.bits, NewFrames(s0, s))
  {
    hide Kept, FramesTaken, NewFrames;
  }

  // ---- The contracts of the kernel's methods are such steps ----

  lemma StepFollows(m: Machine, step: ProcessPopulation.Step, n: Machine)
    requires InShape(n.s) && Enabled(m.w, step) && Next(m.w, step) == Some(n.w) && MemoryStep(m, step, n)
    ensures Follows(m, Step(step), n)
  {
    hide InShape, Enabled, Next, MemoryStep;
  }

  lemma CreateEnabled(m: Machine, n: Machine, b: Books, q: Pieces, dir: Frame, mapped: set<Frame>)
    requires Billed(m.w.books, b, q, true) && Member(q.address, q) && Housed(m, n, q.address, dir, mapped)
    ensures Enabled(m.w, Create(b, q)) && Next(m.w, Create(b, q)) == Some(Created(m.w, b, q)) && MemoryStep(m, Create(b, q), n)
  {
    hide Billed, Member, Housed, Created;
  }

  /** What Kernel.Create promises on success. */
  lemma CreationFollows(m: Machine, b: Books, q: Pieces, t: Supply, dir: Frame, mapped: set<Frame>)
    requires Billed(m.w.books, b, q, true) && Whole(q) && Holding(m.s, t, dir, mapped, {}) && dir != 0 && InShape(t)
    ensures Follows(m, Step(Create(b, q)), Machine(Created(m.w, b, q), t, m.homes[q.address := dir]))
  {
    hide *;
    var n := Machine(Created(m.w, b, q), t, m.homes[q.address := dir]);
    WholeIsMember(m.w.books, b, q);
    HousedIs(m, n, q.address, dir, mapped);
    CreateEnabled(m, n, b, q, dir, mapped);
    StepFollows(m, Create(b, q), n);
  }

  /** ...and on failure. */
  lemma FailureFollows(m: Machine, t: Supply)
    requires Holding(m.s, t, 0, {}, {}) && InShape(t)
    ensures Follows(m, Growth, m.(s := t))
  {
    hide Holding, InShape;
  }

  lemma DestroyEnabled(m: Machine, n: Machine, p: u32)
    requires p in m.w.ps && p != m.w.doomed && if Refused(m.w.books, m.w.ps[p]) then Untouched(m, n) else Vacated(m, n, p)
    ensures Enabled(m.w, Destroy(p)) && Next(m.w, Destroy(p)) == Some(DestroyTried(m.w, p)) && MemoryStep(m, Destroy(p), n)
  {
    hide Refused, Untouched, Vacated, DestroyTried;
  }

  lemma VacatedIs(m: Machine, n: Machine, p: u32)
    ensures Vacated(m, n, p) <==> p in m.homes && Dropped(m.s, n.s, m.homes[p]) && n.homes == m.homes - {p}
  {
    hide Dropped;
  }

  lemma SpaceDroppedIs(s: Supply, t: Supply, dir: Frame)
    requires dir != 0 && SpaceDropped(s, t, dir)
    ensures Dropped(s, t, dir)
  {
    hide Dropped;
  }

  lemma TriedBooks(w: World, p: u32)
    requires p in w.ps
    ensures DestroyTried(w, p).books == if Refused(w.books, w.ps[p]) then w.books else Settled(w.books, w.ps[p])
  {
    hide Refused, Settled;
  }

  /** What Kernel.Destroy promises. */
  lemma DestructionFollows(start: Supply, m: Machine, p: u32, b: Books, t: Supply) returns (n: Machine)
    requires Good(start, m) && p in m.w.ps && p != m.w.doomed && p in m.homes && InShape(t)
    requires if Refused(m.w.books, m.w.ps[p]) then b == m.w.books && t == m.s
      else b == Settled(m.w.books, m.w.ps[p]) && SpaceDropped(m.s, t, m.homes[p])
    ensures Follows(m, Step(Destroy(p)), n) && n.w.books == b && n.s == t
  {
    hide *;
    GoodParts(start, m);
    SpaceIsOwn(start, m.s, m.homes, p);
    TriedBooks(m.w, p);
    n := Machine(DestroyTried(m.w, p), t, if Refused(m.w.books, m.w.ps[p]) then m.homes else m.homes - {p});
    if Refused(m.w.books, m.w.ps[p]) {
      UntouchedIs(m, n);
    } else {
      SpaceDroppedIs(m.s, t, m.homes[p]);
      VacatedIs(m, n, p);
    }
    DestroyEnabled(m, n, p);
    StepFollows(m, Destroy(p), n);
  }

  /** What process_heap_grow promises: the kernel's part over `mid`, then the page. */
  lemma HeapGrowthFollows(m: Machine, mid: Supply, t: Supply, p: u32, page: PageNumber)
    requires p in m.homes && Holding(m.s, mid, 0, {}, {}) && InShape(mid) && InShape(t) && GainedUserPage(mid, t, m.homes[p], page)
    ensures Follows(m, Growth, m.(s := mid)) && Follows(m.(s := mid), Page(p), m.(s := t))
  {
    hide Holding, InShape, PageGained;
    var f, dirFlags :| PageGained(mid, t, m.homes[p], page, Entry(f, OWNED_RW_FLAGS), dirFlags);
    assert Gains(m.(s := mid), m.(s := t), p, page, Entry(f, OWNED_RW_FLAGS), dirFlags);
  }
}
