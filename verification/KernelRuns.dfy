/** Runs of the kernel on its real books: they follow the lifecycle transition system, so every
    live process gets its turn within 101 scheduling decisions and the accounts add up throughout. */
module KernelRuns {
  import opened MachineWords
  import opened Scheduler
  import opened ProcessBooks
  import opened ProcessAccounts
  import opened ProcessPopulation
  import L = Lifecycle

  function Selectors(ps: People): map<u32, u16> {
    map p | p in ps :: ps[p].tssSelector
  }

  /** The processes terminated so far, given those already destroyed. */
  function Log(w: World, reaped: seq<u32>): seq<u32> {
    reaped + if w.doomed == 0 then [] else [w.doomed]
  }

  /** The kernel's books as the lifecycle sees them. */
  function View(w: World, reaped: seq<u32>): L.World {
    L.World(w.books.queue, Selectors(w.ps), w.doomed, w.books.owner, Log(w, reaped), reaped)
  }

  function Abstract(step: Step): L.Step {
    match step
    case Tick => L.Tick
    case Terminate(p) => L.Terminate(p)
    case Create(_, q) => L.Create(q.address, q.tssSelector)
    case Destroy(p) => L.Destroy(p)
    case Claim(p) => L.Claim(p)
  }

  function ReapedAfter(w: World, step: Step, reaped: seq<u32>): seq<u32> {
    if step.Tick? || step.Terminate? then Log(w, reaped) else reaped
  }

  // ---- One step ----

  lemma SelectorsValues(ps: People, sel: u16)
    ensures sel in Selectors(ps).Values <==> HasTask(ps, sel)
  {
    if HasTask(ps, sel) {
      var r := TaskOwner(ps, sel);
      assert r in Selectors(ps) && Selectors(ps)[r] == sel;
    }
  }

  lemma ViewIsGood(w: World, reaped: seq<u32>)
    requires Accounted(w)
    ensures L.Good(View(w, reaped)) && L.Runnable(View(w, reaped))
  {
    hide *;
    Accounts(w);
    NobodyAtZero(w);
    DoomedIsMember(w);
    forall p, r | p in w.ps && r in w.ps
      ensures w.ps[p].tssSelector != 0 && w.ps[p].tssSelector != w.books.queue.kernel && (p != r ==> w.ps[p].tssSelector != w.ps[r].tssSelector)
    {
      SelectorsDiffer(w, p, r);
    }
    forall sel: u16 ensures sel in Selectors(w.ps).Values <==> HasTask(w.ps, sel) { SelectorsValues(w.ps, sel); }
    QueueIsGood(w.books.queue, w.books.owner, w.ps, w.gdt0, w.doomed, reaped);
    ViewIs(w, reaped);
  }

  lemma ViewIs(w: World, reaped: seq<u32>)
    ensures View(w, reaped) == L.World(w.books.queue, Selectors(w.ps), w.doomed, w.books.owner, Log(w, reaped), reaped)
    ensures Log(w, reaped) == if w.doomed == 0 then reaped else reaped + [w.doomed]
    ensures Log(w, reaped) == reaped + if w.doomed == 0 then [] else [w.doomed]
  {
  }

  lemma QueueIsGood(s: Sched, owner: u16, ps: People, gdt0: seq<bool>, doomed: u32, reaped: seq<u32>)
    requires QueueAccount(s, owner, ps, gdt0, doomed) && 0 !in ps
    requires forall p | p in ps :: ps[p].tssSelector != 0 && ps[p].tssSelector != s.kernel
    requires forall p, r | p in ps && r in ps && p != r :: ps[p].tssSelector != ps[r].tssSelector
    requires forall sel: u16 :: sel in Selectors(ps).Values <==> HasTask(ps, sel)
    ensures
      var v := L.World(s, Selectors(ps), doomed, owner, reaped + (if doomed == 0 then [] else [doomed]), reaped);
      L.Good(v) && L.Runnable(v)
  {
    hide Sound, NonZero, HasTask;
    QueueFacts(s, owner, ps, gdt0, doomed);
  }

  lemma SelectorsGone(ps: People, p: u32)
    ensures Selectors(ps - {p}) == Selectors(ps) - {p}
  {
  }

  lemma SelectorsMore(ps: People, q: Pieces)
    ensures Selectors(ps[q.address := q]) == Selectors(ps)[q.address := q.tssSelector]
  {
  }

  /** Destruction on the books is destruction in the lifecycle. */
  lemma DestroyRefines(w: World, p: u32, reaped: seq<u32>)
    requires Accounted(w) && p in w.ps && p != w.doomed
    ensures L.Steps(View(w, reaped), L.Destroy(p), View(DestroyTried(w, p), reaped))
  {
    hide *;
    ViewIsGood(w, reaped);
    AlwaysDestroyable(w, p);
    RefusedIffRunning(w.books, w.ps[p]);
    RefusedIs(w.books, w.ps[p]);
    SelectorsDiffer(w, p, p);
    GoneIs(w, p);
    DestroyTriedIs(w, p);
    SelectorsGone(w.ps, p);
    ViewIs(w, reaped);
    ViewIs(DestroyTried(w, p), reaped);
    SelectorOf(w.ps, p);
    DestroyedIs(View(w, reaped), p);
    LDestroy(View(w, reaped), p);
    StepsIs(View(w, reaped), L.Destroy(p), View(DestroyTried(w, p), reaped));
  }

  lemma LDestroy(v: L.World, p: u32)
    requires L.Runnable(v) && p in v.tss && p != v.reap
    ensures L.Enabled(v, L.Destroy(p)) && L.Next(v, L.Destroy(p)) == Some(L.Destroyed(v, p))
  {
    hide L.Destroyed;
  }

  lemma ClaimRefines(w: World, p: u32, reaped: seq<u32>)
    requires Accounted(w) && p in w.ps
    ensures L.Steps(View(w, reaped), L.Claim(p), View(Claimed(w, p), reaped))
  {
    hide *;
    ViewIsGood(w, reaped);
    SelectorOf(w.ps, p);
    ViewIs(w, reaped);
    ClaimedIs(w, p);
    ViewIs(Claimed(w, p), reaped);
    LClaim(View(w, reaped), p);
    StepsIs(View(w, reaped), L.Claim(p), View(Claimed(w, p), reaped));
  }

  lemma LClaim(v: L.World, p: u32)
    requires L.Runnable(v) && p in v.tss
    ensures L.Enabled(v, L.Claim(p)) && L.Next(v, L.Claim(p)) == Some(if v.owner == 0 then v.(owner := v.tss[p]) else v)
  {
  }

  lemma DestroyedIs(v: L.World, p: u32)
    requires p in v.tss
    ensures
      var sel := v.tss[p];
      var (s, ok) := Removal(v.sched, sel);
      L.Destroyed(v, p) == if ok then v.(sched := s, tss := v.tss - {p}, owner := if v.owner == sel then 0 else v.owner) else v
  {
  }

  lemma SelectorOf(ps: People, p: u32)
    requires p in ps
    ensures p in Selectors(ps) && Selectors(ps)[p] == ps[p].tssSelector
  {
  }

  /** Reaping on the books is reaping in the lifecycle. */
  lemma ReapedIsReap(w: World, reaped: seq<u32>)
    requires Accounted(w)
    ensures L.Runnable(View(w, reaped)) && View(Reaped(w), Log(w, reaped)) == L.Reap(View(w, reaped))
  {
    hide *;
    ViewIsGood(w, reaped);
    ViewIs(w, reaped);
    DoomedIsMember(w);
    ReapKeepsAccounts(w);
    ReapedIs(w);
    ViewIs(Reaped(w), Log(w, reaped));
    SameKeys(w.ps);
    ReapIs(View(w, reaped));
    if w.doomed != 0 {
      RemoveAbsentTask(w, w.doomed);
      RefusedIs(w.books, w.ps[w.doomed]);
      SelectorsDiffer(w, w.doomed, w.doomed);
      GoneIs(w, w.doomed);
      SelectorsGone(w.ps, w.doomed);
      SelectorOf(w.ps, w.doomed);
      DestroyedIs(View(w, reaped).(reap := 0), w.doomed);
    }
  }

  lemma ReapIs(v: L.World)
    requires v.reap != 0 ==> v.reap in v.tss
    ensures L.Reap(v) == if v.reap == 0 then v else L.Destroyed(v.(reap := 0), v.reap).(reaped := v.reaped + [v.reap])
  {
  }

  lemma TickRefines(w: World, reaped: seq<u32>)
    requires Accounted(w)
    ensures L.Steps(View(w, reaped), L.Tick, View(Ticked(w), Log(w, reaped)))
  {
    hide *;
    ViewIsGood(w, reaped);
    ReapedIsReap(w, reaped);
    ReapKeepsAccounts(w);
    DoomedIsMember(w);
    TickedIs(w);
    var r := Reaped(w);
    ViewIs(r, Log(w, reaped));
    ViewIs(Ticked(w), Log(w, reaped));
    LTick(View(w, reaped));
    StepsIs(View(w, reaped), L.Tick, View(Ticked(w), Log(w, reaped)));
  }

  lemma LTick(v: L.World)
    requires L.Runnable(v)
    ensures L.Enabled(v, L.Tick) && TaskIndex(L.Reap(v).sched.current)
    ensures L.Next(v, L.Tick) == Some(L.Reap(v).(sched := Switch(L.Reap(v).sched)))
  {
    hide Switch, Removal;
  }

  lemma StepsIs(v: L.World, step: L.Step, u: L.World)
    requires L.Runnable(v) && L.Enabled(v, step)
    ensures L.Steps(v, step, u) <==> L.Next(v, step) == Some(u)
  {
  }

  lemma TerminateRefines(w: World, p: u32, v: World, reaped: seq<u32>)
    requires Accounted(w) && p in w.ps && p != w.doomed && w.ps[p].tssSelector == w.books.queue.loaded && Terminated(w, p) == Some(v)
    ensures L.Steps(View(w, reaped), L.Terminate(p), View(v, Log(w, reaped)))
  {
    hide *;
    ViewIsGood(w, reaped);
    ReapedIsReap(w, reaped);
    ReapKeepsAccounts(w);
    NobodyAtZero(w);
    DoomedIsMember(w);
    SelectorsDiffer(w, p, p);
    LoadedIsTask(w, p);
    TerminatedIs(w, p);
    SelectorOf(w.ps, p);
    ViewIs(w, reaped);
    ViewIs(Reaped(w), Log(w, reaped));
    ViewIs(v, Log(w, reaped));
    LTerminate(View(w, reaped), p);
    StepsIs(View(w, reaped), L.Terminate(p), View(v, Log(w, reaped)));
  }

  lemma LTerminate(v: L.World, p: u32)
    requires L.Runnable(v) && v.sched.current < MAX_TASKS && p in v.tss && v.tss[p] == v.sched.loaded && L.Reap(v).sched == v.sched
    ensures L.Enabled(v, L.Terminate(p))
    ensures L.Next(v, L.Terminate(p)) ==
      match Leave(v.sched) case None => None case Some(s) => Some(L.Reap(v).(sched := s, reap := p, terminated := v.terminated + [p]))
  {
    hide Leave, L.Reap;
  }

  lemma CreateRefines(w: World, b: Books, q: Pieces, reaped: seq<u32>)
    requires Accounted(w) && Billed(w.books, b, q, true) && Member(q.address, q)
    ensures L.Steps(View(w, reaped), L.Create(q.address, q.tssSelector), View(Created(w, b, q), reaped))
  {
    hide *;
    ViewIsGood(w, reaped);
    AccountedInOrder(w);
    NewMember(w, b, q);
    NewSelector(w, b, q);
    BilledParts(w.books, b, q);
    CreatedIs(w, b, q);
    SelectorsMore(w.ps, q);
    if q.tssSelector in Selectors(w.ps).Values {
      SelectorsValues(w.ps, q.tssSelector);
      var r := TaskOwner(w.ps, q.tssSelector);
    }
    SameKeys(w.ps);
    ViewIs(w, reaped);
    ViewIs(Created(w, b, q), reaped);
    LCreate(View(w, reaped), q.address, q.tssSelector);
    StepsIs(View(w, reaped), L.Create(q.address, q.tssSelector), View(Created(w, b, q), reaped));
  }

  lemma SameKeys(ps: People)
    ensures Selectors(ps).Keys == ps.Keys
  {
  }

  lemma LCreate(v: L.World, p: u32, sel: u16)
    requires L.Runnable(v) && p != 0 && p !in v.tss && sel != 0 && sel != v.sched.kernel && sel !in v.tss.Values && Addition(v.sched, sel).1
    ensures L.Enabled(v, L.Create(p, sel))
    ensures L.Next(v, L.Create(p, sel)) == Some(v.(sched := Addition(v.sched, sel).0, tss := v.tss[p := sel]))
  {
    hide Addition;
  }

  /** Refinement: what a step does to the real books, the lifecycle does to its view of them. */
  lemma StepRefines(w: World, step: Step, v: World, reaped: seq<u32>)
    requires Accounted(w) && Enabled(w, step) && Next(w, step) == Some(v)
    ensures L.Steps(View(w, reaped), Abstract(step), View(v, ReapedAfter(w, step, reaped)))
  {
    hide Accounted, L.Steps, View, Log, Billed, Member, Ticked, Terminated, Created, DestroyTried, Claimed;
    match step {
      case Tick => TickRefines(w, reaped);
      case Terminate(p) => TerminateRefines(w, p, v, reaped);
      case Create(b, q) => CreateRefines(w, b, q, reaped);
      case Destroy(p) => DestroyRefines(w, p, reaped);
      case Claim(p) => ClaimRefines(w, p, reaped);
    }
  }

  // ---- Runs ----

  ghost predicate Steps(w: World, step: Step, v: World) {
    Enabled(w, step) && Next(w, step) == Some(v)
  }

  ghost predicate Run(ws: seq<World>, steps: seq<Step>) {
    |ws| == |steps| + 1 && Accounted(ws[0]) && forall k | 0 <= k < |steps| :: Steps(ws[k], steps[k], ws[k + 1])
  }

  /** In every state of every run the books are those of the living processes and the kernel. */
  lemma {:induction false} RunsStayAccounted(ws: seq<World>, steps: seq<Step>, k: nat)
    requires Run(ws, steps) && k <= |steps|
    ensures Accounted(ws[k]) && ws[k].rest == ws[0].rest && ws[k].gdt0 == ws[0].gdt0
    decreases k
  {
    hide Accounted, Enabled, Next;
    if k > 0 {
      RunsStayAccounted(ws, steps, k - 1);
      assert Steps(ws[k - 1], steps[k - 1], ws[k]);
      StepKeepsAccounts(ws[k - 1], steps[k - 1]);
      StepKeepsRest(ws[k - 1], steps[k - 1]);
    }
  }

  lemma StepKeepsRest(w: World, step: Step)
    ensures Next(w, step).Some? ==> Next(w, step).value.rest == w.rest && Next(w, step).value.gdt0 == w.gdt0
  {
    hide Settled, Switch, Leave, Refused;
  }

  /** Whatever was created and destroyed in between, and in whatever order: once no process is
      left, heap, GDT, slots, process table and run table are as if there had never been any. */
  lemma NothingLeaks(ws: seq<World>, steps: seq<Step>)
    requires Run(ws, steps) && ws[0].ps == map[] && ws[|steps|].ps == map[]
    ensures
      var b0, b := ws[0].books, ws[|steps|].books;
      b.live == b0.live && b.gdt == b0.gdt && b.slots == b0.slots && b.table == b0.table && b.active == b0.active == 0 &&
      b.owner == b0.owner == 0 && NonZero(b.queue.run) == {} && b.queue.count == 0
  {
    hide *;
    RunStart(ws, steps);
    RunsStayAccounted(ws, steps, |steps|);
    EmptyIsClean(ws[0]);
    EmptyIsClean(ws[|steps|]);
    SlotSizes(ws[0]);
    SlotSizes(ws[|steps|]);
    assert ws[|steps|].books.slots == ws[0].books.slots;
    assert ws[|steps|].books.table == ws[0].books.table;
  }

  lemma RunStart(ws: seq<World>, steps: seq<Step>)
    requires Run(ws, steps)
    ensures |ws| == |steps| + 1 && Accounted(ws[0])
  {
  }

  lemma SlotSizes(w: World)
    requires Accounted(w)
    ensures |w.books.slots| == |w.books.table| == PROCESS_MAX
  {
    hide Members, HeapAccount, GdtAccount, QueueAccount;
  }

  /** The destructions up to step `k`. */
  function ReapedBy(ws: seq<World>, steps: seq<Step>, k: nat): seq<u32>
    requires |ws| == |steps| + 1 && k <= |steps|
  {
    if k == 0 then [] else ReapedAfter(ws[k - 1], steps[k - 1], ReapedBy(ws, steps, k - 1))
  }

  function Views(ws: seq<World>, steps: seq<Step>): (vs: seq<L.World>)
    requires |ws| == |steps| + 1
    ensures |vs| == |ws|
  {
    seq(|ws|, k requires 0 <= k < |ws| => View(ws[k], ReapedBy(ws, steps, k)))
  }

  function Abstracts(steps: seq<Step>): (ls: seq<L.Step>)
    ensures |ls| == |steps|
  {
    seq(|steps|, k requires 0 <= k < |steps| => Abstract(steps[k]))
  }

  lemma RunStep(ws: seq<World>, steps: seq<Step>, k: nat)
    requires Run(ws, steps) && k < |steps|
    ensures |ws| == |steps| + 1 && Enabled(ws[k], steps[k]) && Next(ws[k], steps[k]) == Some(ws[k + 1])
  {
    hide Accounted, Enabled, Next;
    assert Steps(ws[k], steps[k], ws[k + 1]);
  }

  lemma ReapedNext(ws: seq<World>, steps: seq<Step>, k: nat)
    requires |ws| == |steps| + 1 && k < |steps|
    ensures ReapedBy(ws, steps, k + 1) == ReapedAfter(ws[k], steps[k], ReapedBy(ws, steps, k))
  {
    hide ReapedAfter;
  }

  lemma ViewAt(ws: seq<World>, steps: seq<Step>, k: nat)
    requires |ws| == |steps| + 1 && k <= |steps|
    ensures |Views(ws, steps)| == |ws| && Views(ws, steps)[k] == View(ws[k], ReapedBy(ws, steps, k))
    ensures |Abstracts(steps)| == |steps| && (k < |steps| ==> Abstracts(steps)[k] == Abstract(steps[k]))
  {
    hide View, ReapedBy, Abstract;
  }

  lemma StepViewed(ws: seq<World>, steps: seq<Step>, k: nat)
    requires Run(ws, steps) && k < |steps|
    ensures |Views(ws, steps)| == |Abstracts(steps)| + 1 == |steps| + 1
    ensures L.Steps(Views(ws, steps)[k], Abstracts(steps)[k], Views(ws, steps)[k + 1])
  {
    hide *;
    RunStep(ws, steps, k);
    RunsStayAccounted(ws, steps, k);
    StepRefines(ws[k], steps[k], ws[k + 1], ReapedBy(ws, steps, k));
    ReapedNext(ws, steps, k);
    ViewAt(ws, steps, k);
    ViewAt(ws, steps, k + 1);
  }

  /** Every run of the kernel is a run of the lifecycle transition system. */
  lemma RunsRefine(ws: seq<World>, steps: seq<Step>)
    requires Run(ws, steps)
    ensures L.Run(Views(ws, steps), Abstracts(steps))
  {
    hide *;
    RunStart(ws, steps);
    ViewAt(ws, steps, 0);
    ViewIsGood(ws[0], ReapedBy(ws, steps, 0));
    forall k | 0 <= k < |steps| ensures L.Steps(Views(ws, steps)[k], Abstracts(steps)[k], Views(ws, steps)[k + 1]) {
      StepViewed(ws, steps, k);
    }
    LRunIs(Views(ws, steps), Abstracts(steps));
  }

  lemma LRunIs(vs: seq<L.World>, ls: seq<L.Step>)
    requires |vs| == |ls| + 1 && L.Good(vs[0]) && forall k | 0 <= k < |ls| :: L.Steps(vs[k], ls[k], vs[k + 1])
    ensures L.Run(vs, ls)
  {
    hide L.Good, L.Steps;
  }

  function Terminations(steps: seq<Step>): seq<u32> {
    if steps == [] then []
    else
      var front, last := Terminations(steps[..|steps| - 1]), steps[|steps| - 1];
      if last.Terminate? then front + [last.p] else front
  }

  /** Each terminated process is destroyed exactly once and in order, the last one perhaps still
      waiting for the next decision. */
  lemma {:induction false} TerminatedOnce(ws: seq<World>, steps: seq<Step>, k: nat)
    requires Run(ws, steps) && ws[0].doomed == 0 && k <= |steps|
    ensures |ws| == |steps| + 1 && Terminations(steps[..k]) == Log(ws[k], ReapedBy(ws, steps, k))
    decreases k
  {
    hide *;
    RunStart(ws, steps);
    if k == 0 {
      NoTerminationYet(ws, steps);
    } else {
      TerminatedOnce(ws, steps, k - 1);
      RunStep(ws, steps, k - 1);
      RunsStayAccounted(ws, steps, k - 1);
      TerminationsStep(steps, k - 1);
      ReapedNext(ws, steps, k - 1);
      LogGrows(ws[k - 1], steps[k - 1], ws[k], ReapedBy(ws, steps, k - 1));
    }
  }

  lemma NoTerminationYet(ws: seq<World>, steps: seq<Step>)
    requires |ws| == |steps| + 1 && ws[0].doomed == 0
    ensures Terminations(steps[..0]) == Log(ws[0], ReapedBy(ws, steps, 0))
  {
  }

  lemma TerminationsStep(steps: seq<Step>, k: nat)
    requires k < |steps|
    ensures Terminations(steps[..k + 1]) == if steps[k].Terminate? then Terminations(steps[..k]) + [steps[k].p] else Terminations(steps[..k])
  {
    assert steps[..k + 1][..k] == steps[..k];
  }

  lemma LogGrows(w: World, step: Step, v: World, reaped: seq<u32>)
    requires Accounted(w) && Enabled(w, step) && Next(w, step) == Some(v)
    ensures Log(v, ReapedAfter(w, step, reaped)) == if step.Terminate? then Log(w, reaped) + [step.p] else Log(w, reaped)
  {
    hide *;
    NobodyAtZero(w);
    EnabledIs(w, step);
    NextIs(w, step);
    var after := ReapedAfter(w, step, reaped);
    ViewIs(v, after);
    ViewIs(w, reaped);
    match step {
      case Tick => TickKeepsAccounts(w);
      case Terminate(p) => TerminationKeepsAccounts(w, p);
      case Create(b, q) => CreatedIs(w, b, q);
      case Destroy(p) =>
        DestroyTriedIs(w, p);
        DoomedAfter(w, p);
      case Claim(p) => ClaimedIs(w, p);
    }
    ReapedAfterIs(w, step, reaped);
  }

  lemma DoomedAfter(w: World, p: u32)
    requires p in w.ps && p != w.doomed
    ensures Gone(w, p).doomed == w.doomed
  {
    hide Settled;
  }

  lemma ReapedAfterIs(w: World, step: Step, reaped: seq<u32>)
    ensures ReapedAfter(w, step, reaped) == if step.Tick? || step.Terminate? then Log(w, reaped) else reaped
  {
  }

  lemma EnabledIs(w: World, step: Step)
    requires Enabled(w, step)
    ensures step.Terminate? ==> step.p in w.ps && step.p != w.doomed && w.ps[step.p].tssSelector == w.books.queue.loaded
    ensures step.Destroy? ==> step.p in w.ps && step.p != w.doomed
    ensures step.Claim? ==> step.p in w.ps
  {
    hide Billed, Member;
  }

  lemma NextIs(w: World, step: Step)
    ensures
      Next(w, step) == match step
        case Tick => Some(Ticked(w))
        case Terminate(p) => Terminated(w, p)
        case Create(b, q) => Some(Created(w, b, q))
        case Destroy(p) => Some(DestroyTried(w, p))
        case Claim(p) => Some(Claimed(w, p))
  {
    hide Ticked, Terminated, Created, DestroyTried, Claimed;
  }

  ghost predicate Alive(w: World, p: u32, q: Pieces) {
    p in w.ps && w.ps[p] == q && p != w.doomed
  }

  /** The task with selector `sel` is loaded by the scheduling decision at step `k`. */
  ghost predicate Selected(ws: seq<World>, steps: seq<Step>, k: int, sel: u16) {
    0 <= k < |steps| && |ws| == |steps| + 1 && (steps[k].Tick? || steps[k].Terminate?) && ws[k + 1].books.queue.loaded == sel
  }

  lemma AliveIsQueued(w: World, p: u32, q: Pieces)
    requires Accounted(w) && Alive(w, p, q)
    ensures q.tssSelector in NonZero(w.books.queue.run)
  {
    hide *;
    Accounts(w);
    AliveIs(w, p, q);
    LiveIsQueued(w.books.queue, w.books.owner, w.ps, w.gdt0, w.doomed, p);
  }

  lemma AliveIs(w: World, p: u32, q: Pieces)
    requires Alive(w, p, q)
    ensures p in w.ps && w.ps[p] == q && p != w.doomed
  {
  }

  lemma LiveIsQueued(s: Sched, owner: u16, ps: People, gdt0: seq<bool>, doomed: u32, p: u32)
    requires QueueAccount(s, owner, ps, gdt0, doomed) && p in ps && p != doomed
    ensures ps[p].tssSelector in NonZero(s.run)
  {
    hide Sound, NonZero, HasTask;
  }

  ghost predicate AlwaysAlive(ws: seq<World>, p: u32, q: Pieces) {
    forall k | 0 <= k < |ws| :: Alive(ws[k], p, q)
  }

  lemma AliveAt(ws: seq<World>, p: u32, q: Pieces, k: nat)
    requires AlwaysAlive(ws, p, q) && k < |ws|
    ensures Alive(ws[k], p, q)
  {
  }

  lemma {:induction false} SlotStays(ws: seq<World>, steps: seq<Step>, p: u32, q: Pieces, i: nat, k: nat)
    requires Run(ws, steps) && k <= |steps| && i < MAX_TASKS && ws[0].books.queue.run[i] == q.tssSelector != 0 && AlwaysAlive(ws, p, q)
    ensures ws[k].books.queue.run[i] == q.tssSelector
    decreases k
  {
    hide *;
    RunStart(ws, steps);
    if k > 0 {
      SlotStays(ws, steps, p, q, i, k - 1);
      RunsStayAccounted(ws, steps, k - 1);
      RunsStayAccounted(ws, steps, k);
      RunStep(ws, steps, k - 1);
      AliveAt(ws, p, q, k);
      AliveIsQueued(ws[k], p, q);
      SlotKept(ws[k - 1], steps[k - 1], ws[k], ReapedBy(ws, steps, k - 1), i);
    }
  }

  lemma SlotKept(w: World, step: Step, v: World, reaped: seq<u32>, i: nat)
    requires Accounted(w) && Enabled(w, step) && Next(w, step) == Some(v)
    requires i < MAX_TASKS && w.books.queue.run[i] != 0 && w.books.queue.run[i] in NonZero(v.books.queue.run)
    ensures v.books.queue.run[i] == w.books.queue.run[i]
  {
    hide *;
    var after := ReapedAfter(w, step, reaped);
    ViewIsGood(w, reaped);
    StepRefines(w, step, v, reaped);
    LStepIs(View(w, reaped), Abstract(step), View(v, after));
    ViewIs(w, reaped);
    ViewIs(v, after);
    L.TasksKeepTheirSlots(View(w, reaped), Abstract(step), i);
  }

  lemma LStepIs(v: L.World, step: L.Step, u: L.World)
    requires L.Steps(v, step, u)
    ensures L.Runnable(v) && L.Enabled(v, step) && L.Next(v, step) == Some(u)
  {
  }

  /** Bounded waiting on the kernel itself: a process that is alive all along is selected within
      101 scheduling decisions, whatever is created, terminated and destroyed meanwhile. */
  lemma LiveProcessRuns(ws: seq<World>, steps: seq<Step>, p: u32, q: Pieces)
    requires Run(ws, steps) && AlwaysAlive(ws, p, q) && L.Decisions(Abstracts(steps)) >= 101
    ensures exists k :: Selected(ws, steps, k, q.tssSelector)
  {
    hide *;
    RunStart(ws, steps);
    AliveAt(ws, p, q, 0);
    AliveIsQueued(ws[0], p, q);
    var i := SlotOf(ws[0].books.queue.run, q.tssSelector);
    var vs, ls := Views(ws, steps), Abstracts(steps);
    ViewAt(ws, steps, 0);
    forall k | 0 <= k <= |steps| ensures vs[k].sched.run[i] == q.tssSelector {
      SlotStays(ws, steps, p, q, i, k);
      ViewAt(ws, steps, k);
      ViewIs(ws[k], ReapedBy(ws, steps, k));
    }
    RunsRefine(ws, steps);
    L.QueuedTaskIsSelected(vs, ls, i);
    var k :| L.Selects(vs, ls, k, i);
    SelectsIs(vs, ls, k, i);
    ViewAt(ws, steps, k);
    ViewAt(ws, steps, k + 1);
    ViewIs(ws[k + 1], ReapedBy(ws, steps, k + 1));
    RunsStayAccounted(ws, steps, k + 1);
    LoadedAt(ws[k + 1], i);
    SelectedIs(ws, steps, k, q.tssSelector);
  }

  lemma SlotOf(run: RunTable, sel: u16) returns (i: u32)
    requires sel in NonZero(run)
    ensures i < MAX_TASKS && run[i] == sel != 0
  {
    i :| 0 <= i < MAX_TASKS && run[i] != 0 && run[i] == sel;
  }

  lemma SelectsIs(vs: seq<L.World>, ls: seq<L.Step>, k: int, index: u32)
    requires L.Selects(vs, ls, k, index)
    ensures 0 <= k < |ls| && |vs| == |ls| + 1 && L.Decides(ls[k]) && vs[k + 1].sched.current == index
  {
  }

  lemma SelectedIs(ws: seq<World>, steps: seq<Step>, k: nat, sel: u16)
    requires k < |steps| && |ws| == |steps| + 1 && L.Decides(Abstract(steps[k])) && ws[k + 1].books.queue.loaded == sel
    ensures Selected(ws, steps, k, sel)
  {
  }

  lemma LoadedAt(w: World, i: nat)
    requires Accounted(w) && i < MAX_TASKS && w.books.queue.current == i
    ensures w.books.queue.loaded == w.books.queue.run[i]
  {
    hide Members, HeapAccount, GdtAccount, SlotAccount, TableAccount;
  }
}
