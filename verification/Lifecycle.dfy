/** Processes as the scheduler sees them: creation, timer ticks, termination with deferred
    destruction, explicit destruction, and graphics ownership, as a transition system. */
module Lifecycle {
  import opened MachineWords
  import opened Scheduler

  /** `tss` maps every live process object to its TSS selector; `reap` is the terminated
      process waiting for destruction (0: none); `owner` is the selector owning the display.
      The two logs record terminations and the destructions they led to. */
  datatype World = World(sched: Sched, tss: map<u32, u16>, reap: u32, owner: u16,
                         terminated: seq<u32>, reaped: seq<u32>)

  datatype Step = Tick | Terminate(task: u32) | Create(process: u32, sel: u16) | Destroy(process: u32) | Claim(process: u32)

  ghost predicate Good(w: World) {
    Sound(w.sched) && 0 !in w.tss &&
    (forall p | p in w.tss :: w.tss[p] != 0 && w.tss[p] != w.sched.kernel) &&
    (forall p, q | p in w.tss && q in w.tss && p != q :: w.tss[p] != w.tss[q]) &&
    NonZero(w.sched.run) <= w.tss.Values &&
    (w.reap != 0 ==> w.reap in w.tss && w.tss[w.reap] !in NonZero(w.sched.run)) &&
    (w.owner != 0 ==> w.owner in w.tss.Values) &&
    w.terminated == w.reaped + (if w.reap == 0 then [] else [w.reap])
  }

  /** process_destroy of a live process: refused for the running task; otherwise the task
      leaves the run table, display ownership is revoked and the selector is free again. */
  function Destroyed(w: World, p: u32): World
    requires p in w.tss
  {
    var sel := w.tss[p];
    var (s, ok) := Removal(w.sched, sel);
    if ok then w.(sched := s, tss := w.tss - {p}, owner := if w.owner == sel then 0 else w.owner) else w
  }

  /** scheduler_reap_terminated. */
  function Reap(w: World): World
    requires w.reap != 0 ==> w.reap in w.tss
  {
    if w.reap == 0 then w
    else Destroyed(w.(reap := 0), w.reap).(reaped := w.reaped + [w.reap])
  }

  /** Who may do what: a terminating task is the one whose TSS is loaded, a new process has a
      fresh object and a fresh selector, and nobody destroys a process already doomed. */
  ghost predicate Enabled(w: World, step: Step) {
    match step
    case Tick => true
    case Terminate(task) => w.sched.current < MAX_TASKS && task in w.tss && w.tss[task] == w.sched.loaded
    case Create(p, sel) => p != 0 && p !in w.tss && sel != 0 && sel != w.sched.kernel && sel !in w.tss.Values
    case Destroy(p) => p in w.tss && p != w.reap
    case Claim(p) => p in w.tss
  }

  /** What the step functions need of a state; the invariant implies it. */
  ghost predicate Runnable(w: World) {
    TaskIndex(w.sched.current) && (w.reap != 0 ==> w.reap in w.tss)
  }

  /** None: the machine halts, having terminated its last task without a kernel task to resume. */
  function Next(w: World, step: Step): Option<World>
    requires Runnable(w) && Enabled(w, step)
  {
    match step
    case Tick =>
      var r := Reap(w);
      Some(r.(sched := Switch(r.sched)))
    case Terminate(task) =>
      var r := Reap(w);
      if r.sched.current >= MAX_TASKS then None
      else (match Leave(r.sched)
            case None => None
            case Some(s) => Some(r.(sched := s, reap := task, terminated := w.terminated + [task])))
    case Create(p, sel) =>
      var (s, ok) := Addition(w.sched, sel);
      Some(if ok then w.(sched := s, tss := w.tss[p := sel]) else w)
    case Destroy(p) => Some(Destroyed(w, p))
    case Claim(p) => Some(if w.owner == 0 then w.(owner := w.tss[p]) else w)
  }

  predicate Decides(step: Step) {
    step.Tick? || step.Terminate?
  }

  // ---- The invariant ----

  lemma SelectorGone(tss: map<u32, u16>, p: u32)
    requires p in tss && forall q, r | q in tss && r in tss && q != r :: tss[q] != tss[r]
    ensures (tss - {p}).Values == tss.Values - {tss[p]}
  {
    var left := tss - {p};
    forall sel: u16 ensures sel in left.Values <==> sel in tss.Values && sel != tss[p] {
      if sel in tss.Values && sel != tss[p] {
        var q :| q in tss && tss[q] == sel;
        assert q in left && left[q] == sel;
      }
    }
  }

  lemma DestroyedGood(w: World, p: u32)
    requires Good(w) && p in w.tss && p != w.reap
    ensures
      var d, sel := Destroyed(w, p), w.tss[p];
      Good(d) && d.sched.current == w.sched.current && d.sched.loaded == w.sched.loaded && d.sched.kernel == w.sched.kernel &&
      (sel == w.sched.loaded ==> d == w) &&
      (sel != w.sched.loaded ==> d.tss == w.tss - {p} && sel !in d.tss.Values && sel !in NonZero(d.sched.run)) &&
      (sel !in NonZero(w.sched.run) ==> d.sched == w.sched && sel != w.sched.loaded) &&
      forall i | 0 <= i < MAX_TASKS && w.sched.run[i] != 0 && w.sched.run[i] != sel :: d.sched.run[i] == w.sched.run[i]
  {
    RemovalSound(w.sched, w.tss[p]);
    SelectorGone(w.tss, p);
    LoadedQueued(w.sched);
    hide Sound;
    FoundIsQueued(w.sched.run, w.tss[p]);
  }

  lemma LoadedQueued(s: Sched)
    requires Sound(s)
    ensures s.current < MAX_TASKS ==> s.loaded in NonZero(s.run) && s.loaded != 0 && s.loaded == s.run[s.current]
    ensures s.current >= MAX_TASKS ==> s.loaded == s.kernel
  {
  }

  /** Reaping leaves the scheduler itself alone: the doomed task is queued nowhere and its TSS
      is not loaded. */
  lemma ReapGood(w: World)
    requires Good(w)
    ensures
      var r := Reap(w);
      Good(r) && r.sched == w.sched && r.reap == 0 && r.reaped == w.terminated && r.terminated == w.terminated &&
      (w.reap == 0 ==> r == w) &&
      (w.reap != 0 ==> w.tss[w.reap] != w.sched.loaded && r.tss == w.tss - {w.reap})
  {
    if w.reap != 0 {
      var v := w.(reap := 0, reaped := w.reaped + [w.reap]);
      assert Good(v);
      DestroyedGood(v, w.reap);
    }
  }

  /** Every step keeps the invariant: the count equals the occupied slots, the loaded selector
      is the running index's, a doomed process is not queued, and the display owner is the
      selector of a process that still exists. */
  lemma StepKeepsGood(w: World, step: Step)
    requires Good(w) && Enabled(w, step)
    ensures Next(w, step).Some? ==> Good(Next(w, step).value) && Next(w, step).value.sched.kernel == w.sched.kernel
    ensures Next(w, step).None? ==> step.Terminate? && w.sched.kernel == 0 && w.sched.count == 1
  {
    match step {
      case Tick =>
        ReapGood(w);
        SwitchSound(w.sched);
      case Terminate(task) =>
        TerminateKeepsGood(w, task);
      case Create(p, sel) =>
        CreateKeepsGood(w, p, sel);
      case Destroy(p) =>
        DestroyedGood(w, p);
      case Claim(p) =>
    }
  }

  lemma TerminateKeepsGood(w: World, task: u32)
    requires Good(w) && Enabled(w, Terminate(task))
    ensures
      var n := Next(w, Terminate(task));
      if n.None? then w.sched.kernel == 0 && w.sched.count == 1
      else Good(n.value) && n.value.sched.kernel == w.sched.kernel
  {
    var r := Reap(w);
    ReapGood(w);
    LeaveSound(w.sched);
    LoadedQueued(w.sched);
    hide Sound, Occupied;
    if Leave(w.sched).Some? {
      var t := Leave(w.sched).value;
      assert NonZero(t.run) <= NonZero(w.sched.run) by {
        forall x | x in NonZero(t.run) ensures x in NonZero(w.sched.run) {
          var i :| 0 <= i < MAX_TASKS && t.run[i] != 0 && t.run[i] == x;
          assert w.sched.run[i] == x;
        }
      }
    }
  }

  lemma CreateKeepsGood(w: World, p: u32, sel: u16)
    requires Good(w) && Enabled(w, Create(p, sel))
    ensures
      var n := Next(w, Create(p, sel)).value;
      Good(n) && n.sched.kernel == w.sched.kernel && n.sched.current == w.sched.current &&
      forall i | 0 <= i < MAX_TASKS && w.sched.run[i] != 0 :: n.sched.run[i] == w.sched.run[i]
  {
    assert sel !in NonZero(w.sched.run);
    AdditionSound(w.sched, sel);
    hide Sound;
    var (s, ok) := Addition(w.sched, sel);
    if ok {
      var tss' := w.tss[p := sel];
      assert tss'.Values == w.tss.Values + {sel} by {
        forall x | x in w.tss.Values ensures x in tss'.Values {
          var q :| q in w.tss && w.tss[q] == x;
          assert tss'[q] == x;
        }
        assert tss'[p] == sel;
      }
      var i :| TookSlot(w.sched.run, s.run, i, sel);
      TookSlotQueues(w.sched.run, s.run, i, sel);
    }
  }

  // ---- Deferred destruction ----

  /** A terminated process is destroyed by the very next tick or termination, while its TSS is
      not the loaded one; no other step touches it. */
  lemma DestroyedAtNextDecision(w: World, step: Step)
    requires Good(w) && Enabled(w, step) && w.reap != 0 && Next(w, step).Some?
    ensures
      var n := Next(w, step).value;
      if Decides(step) then n.reaped == w.reaped + [w.reap] && w.tss[w.reap] != w.sched.loaded &&
        w.reap !in n.tss && w.tss[w.reap] !in n.tss.Values && n.owner != w.tss[w.reap]
      else n.reap == w.reap && n.reaped == w.reaped && w.reap in n.tss && n.tss[w.reap] == w.tss[w.reap]
  {
    match step {
      case Tick =>
        ReapGood(w);
        SelectorGone(w.tss, w.reap);
      case Terminate(task) =>
        ReapGood(w);
        SelectorGone(w.tss, w.reap);
      case Create(p, sel) =>
      case Destroy(p) => DestroyedGood(w, p);
      case Claim(p) =>
    }
  }

  // ---- Runs ----

  ghost predicate Steps(w: World, step: Step, v: World) {
    Runnable(w) && Enabled(w, step) && Next(w, step) == Some(v)
  }

  /** A finite run from any state satisfying the invariant. */
  ghost predicate Run(ws: seq<World>, steps: seq<Step>) {
    |ws| == |steps| + 1 && Good(ws[0]) && forall k | 0 <= k < |steps| :: Steps(ws[k], steps[k], ws[k + 1])
  }

  /** The machine at boot: the kernel task runs, nothing else exists. */
  lemma BootIsGood(kernel: u16)
    ensures Good(World(Sched(seq(MAX_TASKS, _ => 0), KERNEL_INDEX, 0, kernel, kernel), map[], 0, 0, [], []))
  {
    AllOccupied(seq(MAX_TASKS, _ => 0), MAX_TASKS);
  }

  function Decisions(steps: seq<Step>): nat {
    if steps == [] then 0 else (if Decides(steps[0]) then 1 else 0) + Decisions(steps[1..])
  }

  lemma TailRun(ws: seq<World>, steps: seq<Step>)
    requires Run(ws, steps) && steps != []
    ensures Run(ws[1..], steps[1..]) && Good(ws[1])
  {
    hide Good, Enabled, Next, Runnable;
    assert Steps(ws[0], steps[0], ws[1]);
    StepKeepsGood(ws[0], steps[0]);
    forall k | 0 <= k < |steps[1..]| ensures Steps(ws[1..][k], steps[1..][k], ws[1..][k + 1]) {
      assert Steps(ws[k + 1], steps[k + 1], ws[k + 2]);
    }
  }

  /** Every state of every run satisfies the invariant; in particular each terminated process
      has been destroyed exactly once, in order, except possibly the last one. */
  lemma {:induction false} RunsStayGood(ws: seq<World>, steps: seq<Step>)
    requires Run(ws, steps)
    ensures Good(ws[|steps|]) && ws[|steps|].sched.kernel == ws[0].sched.kernel
    ensures
      var last := ws[|steps|];
      last.terminated == last.reaped || exists p :: last.terminated == last.reaped + [p]
    decreases |steps|
  {
    if steps == [] {
      LastPending(ws[0]);
    } else {
      TailRun(ws, steps);
      assert Steps(ws[0], steps[0], ws[1]);
      StepKeepsGood(ws[0], steps[0]);
      RunsStayGood(ws[1..], steps[1..]);
    }
  }

  lemma LastPending(w: World)
    requires Good(w)
    ensures w.terminated == w.reaped || exists p :: w.terminated == w.reaped + [p]
  {
    if w.reap != 0 { assert w.terminated == w.reaped + [w.reap]; }
  }

  /** What one step does to the turn of the task queued in slot `i`. */
  lemma StepComesCloser(w: World, step: Step, i: nat)
    requires Good(w) && Enabled(w, step) && Next(w, step).Some? && i < MAX_TASKS && w.sched.run[i] != 0
    requires Next(w, step).value.sched.run[i] == w.sched.run[i]
    ensures
      var c, c' := w.sched.current, Next(w, step).value.sched.current;
      TaskIndex(c') &&
      if Decides(step) then c' == i || Wait(c', i + 1) < Wait(c, i + 1) else c' == c
  {
    match step {
      case Tick =>
        ReapGood(w);
        SwitchComesCloser(w.sched, i);
      case Terminate(task) =>
        ReapGood(w);
        LoadedQueued(w.sched);
        LeaveSound(w.sched);
        LeaveComesCloser(w.sched, i);
      case Create(p, sel) => CreateKeepsGood(w, p, sel);
      case Destroy(p) => DestroyedGood(w, p);
      case Claim(p) =>
    }
  }

  /** A task that is still queued after a step is queued in the same slot. */
  lemma TasksKeepTheirSlots(w: World, step: Step, i: nat)
    requires Good(w) && Enabled(w, step) && Next(w, step).Some? && i < MAX_TASKS && w.sched.run[i] != 0
    requires w.sched.run[i] in NonZero(Next(w, step).value.sched.run)
    ensures Next(w, step).value.sched.run[i] == w.sched.run[i]
  {
    match step {
      case Tick =>
        ReapGood(w);
        SwitchSound(w.sched);
      case Terminate(task) =>
        ReapGood(w);
        LoadedQueued(w.sched);
        LeaveSound(w.sched);
      case Create(p, sel) => CreateKeepsGood(w, p, sel);
      case Destroy(p) => DestroyedGood(w, p);
      case Claim(p) =>
    }
  }

  ghost predicate Selects(ws: seq<World>, steps: seq<Step>, k: int, index: u32) {
    0 <= k < |steps| && |ws| == |steps| + 1 && Decides(steps[k]) && ws[k + 1].sched.current == index
  }

  /** Bounded waiting, over every run of ticks, terminations, creations and destructions: a task
      that stays queued in slot `i` is selected within as many scheduling decisions as its
      cyclic distance, which is at most 101. */
  lemma {:induction false} QueuedTaskIsSelected(ws: seq<World>, steps: seq<Step>, i: nat)
    requires Run(ws, steps) && i < MAX_TASKS && ws[0].sched.run[i] != 0
    requires forall k | 0 <= k <= |steps| :: ws[k].sched.run[i] == ws[0].sched.run[i]
    requires Decisions(steps) >= Wait(ws[0].sched.current, i + 1) || Decisions(steps) >= 101
    ensures exists k :: Selects(ws, steps, k, i)
    decreases |steps|
  {
    var w, step := ws[0], steps[0];
    assert Steps(w, step, ws[1]);
    StepComesCloser(w, step, i);
    TailRun(ws, steps);
    if Decides(step) && ws[1].sched.current == i {
      assert Selects(ws, steps, 0, i);
    } else {
      QueuedTaskIsSelected(ws[1..], steps[1..], i);
      var k :| Selects(ws[1..], steps[1..], k, i);
      assert Selects(ws, steps, k + 1, i);
    }
  }

  /** With no termination in between, the kernel idle task runs within 101 ticks as well. */
  lemma {:induction false} KernelIsSelected(ws: seq<World>, steps: seq<Step>)
    requires Run(ws, steps) && ws[0].sched.kernel != 0
    requires forall k | 0 <= k < |steps| :: !steps[k].Terminate?
    requires Decisions(steps) >= Wait(ws[0].sched.current, 0) || Decisions(steps) >= 101
    ensures exists k :: Selects(ws, steps, k, KERNEL_INDEX)
    decreases |steps|
  {
    var w, step := ws[0], steps[0];
    assert Steps(w, step, ws[1]);
    KernelComesCloser(w, step);
    TailRun(ws, steps);
    if Decides(step) && ws[1].sched.current == KERNEL_INDEX {
      assert Selects(ws, steps, 0, KERNEL_INDEX);
    } else {
      KernelIsSelected(ws[1..], steps[1..]);
      var k :| Selects(ws[1..], steps[1..], k, KERNEL_INDEX);
      assert Selects(ws, steps, k + 1, KERNEL_INDEX);
    }
  }

  lemma KernelComesCloser(w: World, step: Step)
    requires Good(w) && Enabled(w, step) && !step.Terminate? && w.sched.kernel != 0 && Next(w, step).Some?
    ensures
      var c, n := w.sched.current, Next(w, step).value.sched;
      TaskIndex(n.current) && n.kernel == w.sched.kernel &&
      if Decides(step) then n.current == KERNEL_INDEX || Wait(n.current, 0) < Wait(c, 0) else n.current == c
  {
    match step {
      case Tick =>
        ReapGood(w);
        SwitchComesCloserToKernel(w.sched);
      case Create(p, sel) => CreateKeepsGood(w, p, sel);
      case Destroy(p) => DestroyedGood(w, p);
      case Claim(p) =>
    }
  }

  /** A termination passes the kernel over: the promise to the kernel does need the absence of
      terminations. */
  lemma TerminationPassesKernelOver(s: Sched)
    requires Sound(s) && s.current < MAX_TASKS && s.kernel != 0
    ensures Leave(s).value.current == KERNEL_INDEX <==> s.count == 1
  {
    OccupiedUpdate(s.run, s.current, 0, MAX_TASKS);
    AllOccupied(s.run[s.current := 0], MAX_TASKS);
    LeaveSound(s);
  }
}
