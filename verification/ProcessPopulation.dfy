/** All processes at once. Whatever the order of creations, terminations, timer ticks and
    destructions, every process keeps its own pieces, so each destruction gives back exactly
    those, and the kernel's books always add up; and what the scheduler does to the real books
    is what the lifecycle transition system says. */
module ProcessPopulation {
  import opened MachineWords
  import opened Scheduler
  import opened ProcessBooks
  import opened ProcessAccounts

  /** `rest` are the heap payloads and `gdt0` the GDT entries of the kernel itself; `doomed` is the
      terminated process waiting for destruction (0: none). */
  datatype World = World(books: Books, ps: People, rest: map<int, int>, gdt0: seq<bool>, doomed: u32)

  ghost predicate Accounted(w: World) {
    Members(w.ps) && HeapAccount(w.books.live, w.ps, w.rest) && GdtAccount(w.books.gdt, w.ps, w.gdt0) &&
    SlotAccount(w.books.slots, w.ps) && TableAccount(w.books.table, w.books.active, w.ps) &&
    QueueAccount(w.books.queue, w.books.owner, w.ps, w.gdt0, w.doomed)
  }

  /** What Kernel's constructor leaves: no process, and everything taken is the kernel's own. */
  function Boot(live: map<int, int>): World {
    World(BootBooks(live), map[], live, BootBooks(live).gdt, 0)
  }

  lemma BootIsAccounted(live: map<int, int>)
    ensures Accounted(Boot(live))
  {
    var b := BootBooks(live);
    BootInOrder(live);
    hide Sound, NonZero, Accounted;
    assert HeapAccount(live, map[], live);
    assert GdtAccount(b.gdt, map[], b.gdt);
    assert SlotAccount(b.slots, map[]) && TableAccount(b.table, 0, map[]);
    NobodyQueued(b.queue);
    Accounts(Boot(live));
  }

  lemma NobodyQueued(s: Sched)
    requires s.run == seq(MAX_TASKS, _ => 0)
    ensures NonZero(s.run) == {}
  {
  }

  // ---- What the accounts give ----

  /** A kernel without processes owns everything that is taken. */
  lemma EmptyIsClean(w: World)
    requires Accounted(w) && w.ps == map[]
    ensures w.books.live == w.rest && w.books.gdt == w.gdt0 && w.books.active == 0 && w.books.owner == 0 && w.doomed == 0
    ensures forall i | 0 <= i < PROCESS_MAX :: !w.books.slots[i] && w.books.table[i] == 0
    ensures NonZero(w.books.queue.run) == {} && w.books.queue.count == 0
  {
    hide *;
    Accounts(w);
    EmptyHeap(w.books.live, w.rest);
    EmptyGdt(w.books.gdt, w.gdt0);
    EmptySlots(w.books.slots, w.books.table, w.books.active);
    EmptyRun(w.books.queue, w.books.owner, w.gdt0, w.doomed);
  }

  lemma Accounts(w: World)
    ensures Accounted(w) <==>
      Members(w.ps) && HeapAccount(w.books.live, w.ps, w.rest) && GdtAccount(w.books.gdt, w.ps, w.gdt0) &&
      SlotAccount(w.books.slots, w.ps) && TableAccount(w.books.table, w.books.active, w.ps) &&
      QueueAccount(w.books.queue, w.books.owner, w.ps, w.gdt0, w.doomed)
  {
  }

  lemma MemberHolds(w: World, p: u32)
    requires Accounted(w) && p in w.ps
    ensures Member(p, w.ps[p]) && Payloads(w.ps[p]) <= w.books.live.Keys
  {
    hide Payloads, Member, GdtAccount, SlotAccount, TableAccount, QueueAccount, Holds, Foreign;
  }

  /** The selectors of processes are pairwise different, and none is the kernel task's. */
  lemma SelectorsDiffer(w: World, p: u32, r: u32)
    requires Accounted(w) && p in w.ps && r in w.ps
    ensures w.ps[p].tssSelector != w.books.queue.kernel && w.ps[p].ldtSelector != w.books.queue.kernel
    ensures w.ps[p].ldtSelector != w.ps[r].tssSelector && w.ps[p].tssSelector != 0
    ensures p != r ==> w.ps[p].tssSelector != w.ps[r].tssSelector
  {
    hide *;
    MemberHolds(w, p);
    MemberHolds(w, r);
    MemberSelectors(p, w.ps[p]);
    KernelSelector(w);
    OwnEntries(w.books.gdt, w.ps, w.gdt0, p);
    NotTheKernels(w.gdt0, w.books.queue.kernel, w.ps[p].tssSelector);
    NotTheKernels(w.gdt0, w.books.queue.kernel, w.ps[p].ldtSelector);
    if p != r {
      MembersForeign(w, p, r);
      ForeignSelectors(p, w.ps[p], r, w.ps[r]);
    }
  }

  lemma KernelSelector(w: World)
    requires Accounted(w)
    ensures TakenSelector(w.gdt0, w.books.queue.kernel) && GdtAccount(w.books.gdt, w.ps, w.gdt0) && |w.gdt0| == GDT_COUNT
  {
  }

  lemma MembersForeign(w: World, p: u32, r: u32)
    requires Accounted(w) && p in w.ps && r in w.ps && p != r
    ensures Foreign(w.ps[p], w.ps[r])
  {
    hide Foreign, Member, HeapAccount, GdtAccount, SlotAccount, TableAccount, QueueAccount;
  }

  lemma TaskTaken(w: World, sel: u16)
    requires Accounted(w) && HasTask(w.ps, sel)
    ensures TakenSelector(w.books.gdt, sel)
  {
    hide Sound, NonZero, Entries, HeapAccount, SlotAccount, TableAccount, QueueAccount, Payloads, Apart;
    var r :| r in w.ps && w.ps[r].tssSelector == sel;
    TaskEntry(w.ps[r]);
    assert HasEntry(w.ps, sel / 8) && Member(r, w.ps[r]);
  }

  lemma AccountedInOrder(w: World)
    requires Accounted(w)
    ensures InOrder(w.books)
  {
    var s, gdt := w.books.queue, w.books.gdt;
    KernelTaken(gdt, w.ps, w.gdt0, s.kernel);
    hide Sound, NonZero, HasTask, HasEntry, Entries, TakenSelector;
    forall sel | sel in NonZero(s.run) ensures TakenSelector(gdt, sel) { TaskTaken(w, sel); }
    if w.books.owner != 0 { TaskTaken(w, w.books.owner); }
  }

  /** Every process can be destroyed at any time, unless it is running: nothing it names has been
      given back before. */
  lemma AlwaysDestroyable(w: World, p: u32)
    requires Accounted(w) && p in w.ps
    ensures Destroyable(w.books, w.ps[p]) && InOrder(w.books)
    ensures p == w.doomed ==> !Refused(w.books, w.ps[p])
  {
    hide *;
    AccountedInOrder(w);
    MemberHolds(w, p);
    LdtIsNoTask(w, p);
    SelectorsDiffer(w, p, p);
    Destroys(w.books, p, w.ps[p]);
    if p == w.doomed { RemoveAbsentTask(w, p); }
  }

  lemma LdtIsNoTask(w: World, p: u32)
    requires Accounted(w) && p in w.ps
    ensures w.ps[p].ldtSelector !in NonZero(w.books.queue.run) && w.ps[p].ldtSelector != w.books.owner
  {
    hide *;
    var sel := w.ps[p].ldtSelector;
    Accounts(w);
    MemberHolds(w, p);
    MemberSelectors(p, w.ps[p]);
    if sel in NonZero(w.books.queue.run) || sel == w.books.owner {
      QueuedHasTask(w.books.queue, w.books.owner, w.ps, w.gdt0, w.doomed, sel);
      var r := TaskOwner(w.ps, sel);
      SelectorsDiffer(w, p, r);
    }
  }

  lemma RemoveAbsentTask(w: World, p: u32)
    requires Accounted(w) && p in w.ps && p == w.doomed
    ensures !Refused(w.books, w.ps[p]) && Removal(w.books.queue, w.ps[p].tssSelector).0 == w.books.queue
  {
    hide *;
    Accounts(w);
    DoomedNotQueued(w.books.queue, w.books.owner, w.ps, w.gdt0, p);
    RemoveAbsent(w.books.queue, w.ps[p].tssSelector);
    RefusedIs(w.books, w.ps[p]);
  }

  // ---- A new process ----

  /** process_create_protected32 succeeded. */
  function Created(w: World, b: Books, q: Pieces): World {
    World(b, w.ps[q.address := q], w.rest, w.gdt0, w.doomed)
  }

  /** What a new process was billed is nobody else's. */
  lemma NewIsForeign(w: World, b: Books, q: Pieces, p: u32)
    requires Accounted(w) && Billed(w.books, b, q, true) && Member(q.address, q) && p in w.ps
    ensures p != q.address && Foreign(q, w.ps[p]) && Foreign(w.ps[p], q)
  {
    hide *;
    Accounts(w);
    BilledParts(w.books, b, q);
    MemberHolds(w, p);
    ForeignPayloads(w.books.live, b.live, q, p, w.ps[p]);
    ForeignEntries(w.books.gdt, b.gdt, w.ps, w.gdt0, q, p);
    ForeignPlaces(w.books, b, w.ps, q, p);
    ForeignIs(q, w.ps[p]);
    ForeignIs(w.ps[p], q);
  }

  /** A successful creation keeps the accounts, with one process more. */
  lemma CreationKeepsAccounts(w: World, b: Books, q: Pieces)
    requires Accounted(w) && Billed(w.books, b, q, true) && Member(q.address, q)
    ensures q.address !in w.ps && Accounted(Created(w, b, q))
  {
    hide *;
    Accounts(w);
    AccountedInOrder(w);
    NewMember(w, b, q);
    BilledParts(w.books, b, q);
    NobodyAtZero(w);
    HeapGains(w.books.live, b.live, w.ps, w.rest, q);
    GdtGains(w.books.gdt, b.gdt, w.ps, w.gdt0, q);
    SlotsGain(w.books.slots, b.slots, w.ps, q);
    TableGains(w.books, b, w.ps, q);
    NewSelector(w, b, q);
    QueueGains(w.books.queue, b.queue, w.books.owner, w.ps, w.books.gdt, w.gdt0, w.doomed, q);
    Accounts(Created(w, b, q));
    CreatedIs(w, b, q);
  }

  lemma CreatedIs(w: World, b: Books, q: Pieces)
    ensures Created(w, b, q) == World(b, w.ps[q.address := q], w.rest, w.gdt0, w.doomed)
  {
  }

  lemma NobodyAtZero(w: World)
    requires Accounted(w)
    ensures 0 !in w.ps
  {
  }

  lemma NewMember(w: World, b: Books, q: Pieces)
    requires Accounted(w) && Billed(w.books, b, q, true) && Member(q.address, q)
    ensures q.address !in w.ps && Members(w.ps[q.address := q]) && q.address != 0 && q.slot < PROCESS_MAX && q.entry < PROCESS_MAX
    ensures w.doomed != q.address
  {
    hide *;
    Accounts(w);
    DoomedIsMember(w);
    MemberFields(q.address, q);
    forall p | p in w.ps ensures p != q.address && Foreign(q, w.ps[p]) && Foreign(w.ps[p], q) { NewIsForeign(w, b, q, p); }
    MembersGain(w.ps, q);
  }

  lemma NewSelector(w: World, b: Books, q: Pieces)
    requires Accounted(w) && InOrder(w.books) && Billed(w.books, b, q, true) && Member(q.address, q)
    ensures q.tssSelector !in NonZero(w.books.queue.run) && q.tssSelector != w.books.queue.kernel
    ensures forall p | p in w.ps :: w.ps[p].tssSelector != q.tssSelector
  {
    hide *;
    BilledSelector(w.books, b, q);
    FreshSelector(w.books.queue, w.books.gdt, q.tssSelector);
    forall p | p in w.ps ensures w.ps[p].tssSelector != q.tssSelector {
      NewIsForeign(w, b, q, p);
      MemberHolds(w, p);
      ForeignSelectors(p, w.ps[p], q.address, q);
    }
  }

  // ---- A process less ----

  /** process_destroy went through. */
  function Gone(w: World, p: u32): World
    requires p in w.ps
  {
    World(Settled(w.books, w.ps[p]), w.ps - {p}, w.rest, w.gdt0, if p == w.doomed then 0 else w.doomed)
  }

  /** Destroying any process that is not running keeps the accounts of all the others. */
  lemma DestructionKeepsAccounts(w: World, p: u32)
    requires Accounted(w) && p in w.ps && !Refused(w.books, w.ps[p])
    ensures Accounted(Gone(w, p))
  {
    hide *;
    Accounts(w);
    NobodyAtZero(w);
    AlwaysDestroyable(w, p);
    RefusedIffRunning(w.books, w.ps[p]);
    SelectorsDiffer(w, p, p);
    forall r | r in w.ps && r != p ensures w.ps[r].tssSelector != w.ps[p].tssSelector { SelectorsDiffer(w, p, r); }
    FewerMembers(w.ps, p);
    Strangers(w.ps, p);
    HeapLoses(w.books.live, w.ps, w.rest, p);
    GdtLoses(w.books.gdt, w.ps, w.gdt0, p);
    SlotsLose(w.books.slots, w.ps, p);
    TableLoses(w.books, w.ps, p);
    QueueLoses(w.books.queue, w.books.owner, w.ps, w.gdt0, w.doomed, p);
    GoneIs(w, p);
    Accounts(Gone(w, p));
  }

  lemma GoneIs(w: World, p: u32)
    requires p in w.ps && w.ps[p].tssSelector != 0
    ensures
      var q, b, g := w.ps[p], w.books, Gone(w, p);
      g.ps == w.ps - {p} && g.rest == w.rest && g.gdt0 == w.gdt0 && g.doomed == (if p == w.doomed then 0 else w.doomed) &&
      g.books.live == b.live - Payloads(q) && g.books.gdt == WithBits(b.gdt, Entries(q), false) &&
      g.books.slots == (if q.slot < |b.slots| then b.slots[q.slot := false] else b.slots) &&
      g.books.table == Unregistered(b, q).table && g.books.active == Unregistered(b, q).active &&
      g.books.queue == Removal(b.queue, q.tssSelector).0 && g.books.owner == if b.owner == q.tssSelector then 0 else b.owner
  {
  }

  // ---- Scheduling ----

  /** scheduler_reap_terminated. */
  function Reaped(w: World): World {
    if w.doomed in w.ps then Gone(w, w.doomed) else w
  }

  /** int20_handler. */
  function Ticked(w: World): World {
    var r := Reaped(w);
    if TaskIndex(r.books.queue.current) then r.(books := r.books.(queue := Switch(r.books.queue))) else r
  }

  /** exception_terminate_current in process `p`; None halts the machine. */
  function Terminated(w: World, p: u32): Option<World> {
    var r := Reaped(w);
    if r.books.queue.current >= MAX_TASKS then None
    else match Leave(r.books.queue)
      case None => None
      case Some(s) => Some(r.(books := r.books.(queue := s), doomed := p))
  }

  lemma ReapKeepsAccounts(w: World)
    requires Accounted(w)
    ensures Accounted(Reaped(w)) && Reaped(w).doomed == 0 && Reaped(w).books.queue == w.books.queue
    ensures Reaped(w).ps == w.ps - {w.doomed}
  {
    hide *;
    DoomedIsMember(w);
    ReapedIs(w);
    if w.doomed != 0 {
      AlwaysDestroyable(w, w.doomed);
      RemoveAbsentTask(w, w.doomed);
      SelectorsDiffer(w, w.doomed, w.doomed);
      DestructionKeepsAccounts(w, w.doomed);
      GoneIs(w, w.doomed);
    }
  }

  lemma DoomedIsMember(w: World)
    requires Accounted(w)
    ensures w.doomed in w.ps <==> w.doomed != 0
    ensures Sound(w.books.queue) && TaskIndex(w.books.queue.current)
  {
    hide *;
    Accounts(w);
    NobodyAtZero(w);
    QueueFacts(w.books.queue, w.books.owner, w.ps, w.gdt0, w.doomed);
  }

  lemma ReapedIs(w: World)
    ensures Reaped(w) == if w.doomed in w.ps then Gone(w, w.doomed) else w
  {
  }

  /** A timer tick keeps the accounts; the doomed process is gone afterwards. */
  lemma TickKeepsAccounts(w: World)
    requires Accounted(w)
    ensures Accounted(Ticked(w)) && Ticked(w).doomed == 0 && Ticked(w).ps == w.ps - {w.doomed}
  {
    hide *;
    ReapKeepsAccounts(w);
    var r := Reaped(w);
    Accounts(r);
    QueueSwitches(r.books.queue, r.books.owner, r.ps, r.gdt0, r.doomed);
    Accounts(r.(books := r.books.(queue := Switch(r.books.queue))));
    TickedIs(w);
  }

  lemma TickedIs(w: World)
    ensures var r := Reaped(w);
      TaskIndex(r.books.queue.current) ==> Ticked(w) == r.(books := r.books.(queue := Switch(r.books.queue)))
  {
    hide Reaped, Switch;
  }

  /** A termination keeps the accounts: the task is out of the run table, everything else it
      holds stays its own until it is reaped. The machine halts exactly when it was the last
      task and there is no kernel task. */
  lemma TerminationKeepsAccounts(w: World, p: u32)
    requires Accounted(w) && p in w.ps && p != w.doomed && w.ps[p].tssSelector == w.books.queue.loaded
    ensures
      match Terminated(w, p)
      case None => w.books.queue.kernel == 0 && w.books.queue.count == 1
      case Some(v) => !(w.books.queue.kernel == 0 && w.books.queue.count == 1) && Accounted(v) && v.doomed == p
  {
    hide *;
    ReapKeepsAccounts(w);
    DoomedIsMember(w);
    SelectorsDiffer(w, p, p);
    LoadedIsTask(w, p);
    LeaveSound(w.books.queue);
    TerminatedIs(w, p);
    var r := Reaped(w);
    if Leave(w.books.queue).Some? {
      Accounts(r);
      NobodyAtZero(r);
      forall x | x in r.ps && x != p ensures r.ps[x].tssSelector != r.ps[p].tssSelector { SelectorsDiffer(r, p, x); }
      QueueLeft(r.books.queue, r.books.owner, r.ps, r.gdt0, p);
      Accounts(r.(books := r.books.(queue := Leave(r.books.queue).value), doomed := p));
    }
  }

  lemma LoadedIsTask(w: World, p: u32)
    requires Accounted(w) && p in w.ps && w.ps[p].tssSelector == w.books.queue.loaded && w.ps[p].tssSelector != w.books.queue.kernel
    ensures w.books.queue.current < MAX_TASKS
  {
  }

  lemma TerminatedIs(w: World, p: u32)
    ensures
      var r := Reaped(w);
      r.books.queue.current < MAX_TASKS ==>
        (Terminated(w, p).None? <==> Leave(r.books.queue).None?) &&
        (Terminated(w, p).Some? ==> Terminated(w, p).value == r.(books := r.books.(queue := Leave(r.books.queue).value), doomed := p))
  {
    hide Reaped, Leave;
  }

  // ---- Every step ----

  /** `Create` carries the outcome of process_create_protected32. */
  datatype Step = Tick | Terminate(p: u32) | Create(books: Books, q: Pieces) | Destroy(p: u32) | Claim(p: u32)

  /** What the callers guarantee: a terminating task is the running one, a creation leaves what
      process_create_protected32 promises, and nobody destroys a process already doomed. */
  ghost predicate Enabled(w: World, step: Step) {
    match step
    case Tick => true
    case Terminate(p) => p in w.ps && p != w.doomed && w.ps[p].tssSelector == w.books.queue.loaded
    case Create(b, q) => Billed(w.books, b, q, true) && Member(q.address, q)
    case Destroy(p) => p in w.ps && p != w.doomed
    case Claim(p) => p in w.ps
  }

  /** process_destroy, which refuses the running task. */
  function DestroyTried(w: World, p: u32): World {
    if p in w.ps && !Refused(w.books, w.ps[p]) then Gone(w, p) else w
  }

  /** The first process to claim the display owns it. */
  function Claimed(w: World, p: u32): World {
    if w.books.owner == 0 && p in w.ps then w.(books := w.books.(owner := w.ps[p].tssSelector)) else w
  }

  /** None: the machine halts. */
  function Next(w: World, step: Step): Option<World> {
    match step
    case Tick => Some(Ticked(w))
    case Terminate(p) => Terminated(w, p)
    case Create(b, q) => Some(Created(w, b, q))
    case Destroy(p) => Some(DestroyTried(w, p))
    case Claim(p) => Some(Claimed(w, p))
  }

  lemma DestroyTriedIs(w: World, p: u32)
    requires p in w.ps
    ensures DestroyTried(w, p) == if Refused(w.books, w.ps[p]) then w else Gone(w, p)
  {
  }

  lemma ClaimedIs(w: World, p: u32)
    requires p in w.ps
    ensures Claimed(w, p) == if w.books.owner == 0 then w.(books := w.books.(owner := w.ps[p].tssSelector)) else w
  {
  }

  lemma ClaimKeepsAccounts(w: World, p: u32)
    requires Accounted(w) && p in w.ps
    ensures Accounted(w.(books := w.books.(owner := w.ps[p].tssSelector)))
  {
    hide *;
    Accounts(w);
    OwnerIsTask(w.books.queue, w.books.owner, w.ps, w.gdt0, w.doomed, p);
    Accounts(w.(books := w.books.(owner := w.ps[p].tssSelector)));
  }

  /** Every step of the kernel keeps the accounts of all processes. */
  lemma StepKeepsAccounts(w: World, step: Step)
    requires Accounted(w) && Enabled(w, step)
    ensures
      match Next(w, step)
      case None => step.Terminate? && w.books.queue.kernel == 0 && w.books.queue.count == 1
      case Some(v) => !(step.Terminate? && w.books.queue.kernel == 0 && w.books.queue.count == 1) && Accounted(v)
  {
    hide Accounted, Billed, Member, Ticked, Terminated, Created, Gone, Refused;
    match step {
      case Tick => TickKeepsAccounts(w);
      case Terminate(p) => TerminationKeepsAccounts(w, p);
      case Create(b, q) => CreationKeepsAccounts(w, b, q);
      case Destroy(p) => if !Refused(w.books, w.ps[p]) { DestructionKeepsAccounts(w, p); }
      case Claim(p) => ClaimKeepsAccounts(w, p);
    }
  }

  /** The kernel's own allocations come and go without touching anybody's. */
  lemma KernelPayloads(w: World, ptr: int, bytes: int)
    requires Accounted(w)
    ensures ptr !in w.books.live ==>
      Accounted(w.(books := w.books.(live := w.books.live[ptr := bytes]), rest := w.rest[ptr := bytes]))
    ensures ptr in w.rest ==> Accounted(w.(books := w.books.(live := w.books.live - {ptr}), rest := w.rest - {ptr}))
  {
    hide *;
    Accounts(w);
    HeapParts(w.books.live, w.ps, w.rest);
    if ptr !in w.books.live {
      KernelTakes(w.books.live, w.ps, w.rest, ptr, bytes);
      Accounts(w.(books := w.books.(live := w.books.live[ptr := bytes]), rest := w.rest[ptr := bytes]));
    }
    if ptr in w.rest {
      KernelGives(w.books.live, w.ps, w.rest, ptr);
      Accounts(w.(books := w.books.(live := w.books.live - {ptr}), rest := w.rest - {ptr}));
    }
  }
}
