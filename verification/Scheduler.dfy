/** The round-robin scheduler: a run table of TSS selectors, the running index, and the
    selector the processor has loaded. */
module Scheduler {
  import opened MachineWords

  const MAX_TASKS := 100
  const KERNEL_INDEX: u32 := 0xFFFF_FFFF   // scheduler_current_index of the kernel idle task

  type RunTable = r: seq<u16> | |r| == MAX_TASKS witness seq(MAX_TASKS, _ => 0)

  /** `loaded` is the selector in the task register. */
  datatype Sched = Sched(run: RunTable, current: u32, count: nat, kernel: u16, loaded: u16)

  /** Number of occupied slots below `n`. */
  function Occupied(run: RunTable, n: nat): (k: nat)
    requires n <= MAX_TASKS
    ensures k <= n
  {
    if n == 0 then 0 else Occupied(run, n - 1) + if run[n - 1] == 0 then 0 else 1
  }

  /** The first occupied slot at or after `from`, or MAX_TASKS. */
  function FirstTask(run: RunTable, from: nat): (i: nat)
    requires from <= MAX_TASKS
    ensures from <= i <= MAX_TASKS && (i < MAX_TASKS ==> run[i] != 0)
    ensures forall j | from <= j < i :: run[j] == 0
    decreases MAX_TASKS - from
  {
    if from == MAX_TASKS || run[from] != 0 then from else FirstTask(run, from + 1)
  }

  /** The first slot at or after `from` holding `sel` or nothing, or MAX_TASKS. */
  function FirstHoleOr(run: RunTable, sel: u16, from: nat): (i: nat)
    requires from <= MAX_TASKS
    ensures from <= i <= MAX_TASKS && (i < MAX_TASKS ==> run[i] == sel || run[i] == 0)
    ensures forall j | from <= j < i :: run[j] != 0 && run[j] != sel
    decreases MAX_TASKS - from
  {
    if from == MAX_TASKS || run[from] == sel || run[from] == 0 then from else FirstHoleOr(run, sel, from + 1)
  }

  function FirstOf(run: RunTable, sel: u16, from: nat): (i: nat)
    requires from <= MAX_TASKS
    ensures from <= i <= MAX_TASKS && (i < MAX_TASKS ==> run[i] == sel)
    ensures forall j | from <= j < i :: run[j] != sel
    decreases MAX_TASKS - from
  {
    if from == MAX_TASKS || run[from] == sel then from else FirstOf(run, sel, from + 1)
  }

  /** What holds between scheduler operations: the count is the number of occupied slots, no
      task is queued twice, and the loaded selector is the running slot's (the kernel's
      selector for the kernel index). */
  ghost predicate Sound(s: Sched) {
    s.count == Occupied(s.run, MAX_TASKS) && s.kernel !in NonZero(s.run) &&
    (forall i, j | 0 <= i < j < MAX_TASKS && s.run[i] != 0 :: s.run[i] != s.run[j]) &&
    TaskIndex(s.current) &&
    (s.current < MAX_TASKS ==> s.run[s.current] != 0) &&
    s.loaded == (if s.current < MAX_TASKS then s.run[s.current] else s.kernel)
  }

  function NonZero(run: RunTable): set<u16> {
    set i | 0 <= i < MAX_TASKS && run[i] != 0 :: run[i]
  }

  // ---- The operations as functions ----

  predicate TaskIndex(index: u32) {
    index < MAX_TASKS || index == KERNEL_INDEX
  }

  /** The kernel idle task is position 0, slot i position i + 1. */
  function Position(index: u32): (p: nat)
    requires TaskIndex(index)
    ensures p <= MAX_TASKS
  {
    if index == KERNEL_INDEX then 0 else index + 1
  }

  /** inc eax on a task index. */
  lemma IncIsPosition(index: u32)
    requires TaskIndex(index)
    ensures (index + 1) % WORD == Position(index)
  {
  }

  function Resume(s: Sched, index: u32): Sched
    requires TaskIndex(index)
  {
    s.(current := index, loaded := if index < MAX_TASKS then s.run[index] else s.kernel)
  }

  /** scheduler_switch_next: the next occupied slot above the running one; at the end of the
      table the kernel idle task, or the first occupied slot if there is no kernel task. */
  function Switch(s: Sched): Sched
    requires TaskIndex(s.current)
  {
    var above := FirstTask(s.run, Position(s.current));
    if s.count == 0 then s
    else if above < MAX_TASKS then Resume(s, above)
    else if s.kernel != 0 then Resume(s, KERNEL_INDEX)
    else if FirstTask(s.run, 0) < MAX_TASKS then Resume(s, FirstTask(s.run, 0))
    else s
  }

  /** exception_terminate_current after it vacated the running slot: the next occupied slot
      cyclically, the kernel only when none is left; None when there is no kernel either. */
  function Leave(s: Sched): Option<Sched>
    requires s.current < MAX_TASKS
  {
    var vacated := s.(run := s.run[s.current := 0], count := if s.count == 0 then 0 else s.count - 1);
    var above, low := FirstTask(vacated.run, s.current + 1), FirstTask(vacated.run, 0);
    if above < MAX_TASKS then Some(Resume(vacated, above))
    else if low < MAX_TASKS then Some(Resume(vacated, low))
    else if s.kernel != 0 then Some(Resume(vacated, KERNEL_INDEX))
    else None
  }

  function Addition(s: Sched, sel: u16): (Sched, bool) {
    var i := FirstHoleOr(s.run, sel, 0);
    if sel == 0 || s.count >= MAX_TASKS || i == MAX_TASKS || s.run[i] == sel then (s, false)
    else (s.(run := s.run[i := sel], count := s.count + 1), true)
  }

  function Removal(s: Sched, sel: u16): (r: (Sched, bool))
    ensures TaskIndex(s.current) ==> TaskIndex(r.0.current)
  {
    var i := FirstOf(s.run, sel, 0);
    if sel == 0 || i == MAX_TASKS then (s, true)
    else if i == s.current then (s, false)
    else
      var t := s.(run := s.run[i := 0]);
      if s.count == 0 then (t, true)
      else (t.(count := s.count - 1, current := if s.count == 1 then KERNEL_INDEX else s.current), true)
  }

  // ---- The invariant along every operation ----

  lemma {:induction false} OccupiedUpdate(run: RunTable, i: nat, sel: u16, n: nat)
    requires i < MAX_TASKS && n <= MAX_TASKS
    ensures Occupied(run[i := sel], n) == Occupied(run, n) +
      if i >= n then 0 else (if sel == 0 then 0 else 1) - (if run[i] == 0 then 0 else 1)
  {
    if n > 0 { OccupiedUpdate(run, i, sel, n - 1); }
  }

  lemma {:induction false} SomeOccupied(run: RunTable, i: nat, n: nat)
    requires i < n <= MAX_TASKS && run[i] != 0
    ensures Occupied(run, n) > 0
  {
    if i < n - 1 { SomeOccupied(run, i, n - 1); }
  }

  lemma {:induction false} AllOccupied(run: RunTable, n: nat)
    requires n <= MAX_TASKS
    ensures Occupied(run, n) == n <==> forall i | 0 <= i < n :: run[i] != 0
    ensures Occupied(run, n) == 0 <==> forall i | 0 <= i < n :: run[i] == 0
  {
    if n > 0 { AllOccupied(run, n - 1); }
  }

  lemma SwitchSound(s: Sched)
    requires Sound(s)
    ensures Sound(Switch(s)) && Switch(s).run == s.run && Switch(s).kernel == s.kernel
    ensures s.count > 0 && s.kernel != 0 ==>
      Switch(s).current == (if FirstTask(s.run, Position(s.current)) < MAX_TASKS
                            then FirstTask(s.run, Position(s.current)) else KERNEL_INDEX)
  {
  }

  /** A terminating task leaves the table for good and something else is loaded. */
  lemma LeaveSound(s: Sched)
    requires Sound(s) && s.current < MAX_TASKS
    ensures Leave(s).None? <==> s.kernel == 0 && s.count == 1
    ensures Leave(s).Some? ==>
      var t := Leave(s).value;
      Sound(t) && t.run == s.run[s.current := 0] && t.kernel == s.kernel && t.loaded != s.loaded && s.loaded !in NonZero(t.run)
  {
    OccupiedUpdate(s.run, s.current, 0, MAX_TASKS);
    AllOccupied(s.run[s.current := 0], MAX_TASKS);
    SomeOccupied(s.run, s.current, MAX_TASKS);
    var low := FirstTask(s.run[s.current := 0], 0);
    assert low < MAX_TASKS ==> s.run[low] in NonZero(s.run);
    assert s.run[s.current] in NonZero(s.run);
  }

  /** The slot the cyclic scan from `from` stops at, and the task there. */
  ghost predicate NextAfter(run: RunTable, from: u32, eax: u32, edx: u16) {
    from < MAX_TASKS && eax < MAX_TASKS && edx == run[eax] &&
    eax == if FirstTask(run, from + 1) < MAX_TASKS then FirstTask(run, from + 1) else FirstTask(run, 0)
  }

  lemma Running(s: Sched)
    requires Sound(s) && s.current < MAX_TASKS
    ensures s.count > 0
  {
    SomeOccupied(s.run, s.current, MAX_TASKS);
  }

  /** `Leave`, in terms of what the scan over the vacated table found. */
  lemma Left(s: Sched, run: RunTable, next: u32, sel: u16)
    requires Sound(s) && s.current < MAX_TASKS && s.count > 0 && run == s.run[s.current := 0]
    requires sel == 0 <==> forall i | 0 <= i < MAX_TASKS :: run[i] == 0
    requires sel != 0 ==> NextAfter(run, s.current, next, sel)
    ensures
      Leave(s) == if sel != 0 then Some(Sched(run, next, s.count - 1, s.kernel, sel))
                  else if s.kernel == 0 then None else Some(Sched(run, KERNEL_INDEX, s.count - 1, s.kernel, s.kernel))
  {
    hide Sound;
  }

  /** A task that is queued already is queued a second time, against the invariant, exactly when
      there is room and an empty slot before its own: the search for a duplicate stops there. */
  lemma AddedTwiceIff(s: Sched, sel: u16)
    requires Sound(s) && sel in NonZero(s.run)
    ensures
      var (t, ok) := Addition(s, sel);
      (ok <==> s.count < MAX_TASKS && exists i :: 0 <= i < MAX_TASKS && s.run[i] == 0 && sel !in s.run[..i]) &&
      (ok <==> !Sound(t)) && (!ok ==> t == s)
  {
    var (t, ok) := Addition(s, sel);
    var i, k := FirstHoleOr(s.run, sel, 0), FirstOf(s.run, sel, 0);
    AllOccupied(s.run, MAX_TASKS);
    assert k < MAX_TASKS by {
      var j :| 0 <= j < MAX_TASKS && s.run[j] != 0 && s.run[j] == sel;
    }
    assert i <= k;
    if ok {
      assert sel !in s.run[..i] && t.run[i] == sel == t.run[k] && i != k;
    } else if s.count < MAX_TASKS {
      assert s.run[i] == sel;
      forall j | 0 <= j < MAX_TASKS && s.run[j] == 0 ensures sel in s.run[..j] {
        assert j > i;
        assert s.run[..j][i] == sel;
      }
    }
  }

  /** A selector that is not queued yet is accepted exactly when a slot is free; it goes to
      the first free slot. */
  lemma AdditionSound(s: Sched, sel: u16)
    requires Sound(s) && sel !in NonZero(s.run) && sel != s.kernel
    ensures
      var (t, ok) := Addition(s, sel);
      Sound(t) && t.current == s.current && t.loaded == s.loaded && t.kernel == s.kernel &&
      (ok <==> sel != 0 && s.count < MAX_TASKS) &&
      (!ok ==> t == s) &&
      (ok ==> exists i :: TookSlot(s.run, t.run, i, sel))
  {
    var (t, ok) := Addition(s, sel);
    var i := FirstHoleOr(s.run, sel, 0);
    AllOccupied(s.run, MAX_TASKS);
    forall j | 0 <= j < MAX_TASKS && s.run[j] != 0 ensures s.run[j] != sel {
      assert s.run[j] in NonZero(s.run);
    }
    if ok {
      OccupiedUpdate(s.run, i, sel, MAX_TASKS);
      assert TookSlot(s.run, t.run, i, sel);
    }
  }

  /** `sel` went into slot `i`, the lowest free one. */
  ghost predicate TookSlot(run: RunTable, run': RunTable, i: int, sel: u16) {
    0 <= i < MAX_TASKS && run[i] == 0 && run' == run[i := sel] && forall j | 0 <= j < i :: run[j] != 0
  }

  lemma TookSlotQueues(run: RunTable, run': RunTable, i: int, sel: u16)
    requires TookSlot(run, run', i, sel) && sel != 0
    ensures NonZero(run') == NonZero(run) + {sel}
  {
    forall x: u16 ensures x in NonZero(run') <==> x in NonZero(run) || x == sel {
      if x in NonZero(run) {
        var j :| 0 <= j < MAX_TASKS && run[j] != 0 && run[j] == x;
        assert run'[j] == x;
      }
      assert run'[i] == sel;
    }
  }

  /** Removal succeeds unless the task is the running one; afterwards it is not queued. */
  lemma RemovalSound(s: Sched, sel: u16)
    requires Sound(s) && sel != 0 && sel != s.kernel
    ensures
      var (t, ok) := Removal(s, sel);
      Sound(t) && t.current == s.current && t.loaded == s.loaded && t.kernel == s.kernel && (ok <==> sel != s.loaded) &&
      (!ok ==> t == s) && (ok ==> NonZero(t.run) == NonZero(s.run) - {sel}) &&
      forall j | 0 <= j < MAX_TASKS :: t.run[j] == (if ok && s.run[j] == sel then 0 else s.run[j])
  {
    var i := FirstOf(s.run, sel, 0);
    if i < MAX_TASKS {
      OccupiedUpdate(s.run, i, 0, MAX_TASKS);
      SomeOccupied(s.run, i, MAX_TASKS);
      if s.current < MAX_TASKS && i != s.current {
        SomeOccupied(s.run[i := 0], s.current, MAX_TASKS);
      }
      if i != s.current { ClearedNonZero(s.run, i); }
    } else {
      assert sel !in NonZero(s.run);
    }
  }

  lemma ClearedNonZero(run: RunTable, i: nat)
    requires i < MAX_TASKS && forall j, k | 0 <= j < k < MAX_TASKS && run[j] != 0 :: run[j] != run[k]
    ensures NonZero(run[i := 0]) == NonZero(run) - {run[i]}
  {
    var run' := run[i := 0];
    forall x: u16 ensures x in NonZero(run') <==> x in NonZero(run) && x != run[i] {
      if x in NonZero(run) && x != run[i] {
        var j :| 0 <= j < MAX_TASKS && run[j] != 0 && run[j] == x;
        assert run'[j] == x;
      }
    }
  }

  lemma FoundIsQueued(run: RunTable, sel: u16)
    requires sel != 0
    ensures FirstOf(run, sel, 0) < MAX_TASKS ==> sel in NonZero(run)
  {
  }

  // ---- Bounded waiting ----

  /** Scheduling decisions until the turn of position `target`, at most: between 1 and 101. */
  function Wait(current: u32, target: nat): (w: nat)
    requires TaskIndex(current) && target <= MAX_TASKS
    ensures 1 <= w <= MAX_TASKS + 1
  {
    if target > Position(current) then target - Position(current) else MAX_TASKS + 1 + target - Position(current)
  }

  /** Each switch either selects a waiting task or brings its turn strictly closer. */
  lemma SwitchComesCloser(s: Sched, i: nat)
    requires Sound(s) && i < MAX_TASKS && s.run[i] != 0
    ensures Switch(s).current == i || Wait(Switch(s).current, i + 1) < Wait(s.current, i + 1)
  {
    SomeOccupied(s.run, i, MAX_TASKS);
  }

  lemma LeaveComesCloser(s: Sched, i: nat)
    requires Sound(s) && s.current < MAX_TASKS && i < MAX_TASKS && s.run[i] != 0 && i != s.current
    ensures Leave(s).Some?
    ensures Leave(s).value.current == i || Wait(Leave(s).value.current, i + 1) < Wait(s.current, i + 1)
  {
    var run' := s.run[s.current := 0];
    assert run'[i] == s.run[i];
  }

  /** Without terminations the kernel's turn comes closer with every switch too. */
  lemma SwitchComesCloserToKernel(s: Sched)
    requires Sound(s) && s.kernel != 0
    ensures Switch(s).current == KERNEL_INDEX || Wait(Switch(s).current, 0) < Wait(s.current, 0)
  {
    AllOccupied(s.run, MAX_TASKS);
  }

  /** What a scan from position `from` settles on. */
  ghost predicate Chosen(run: RunTable, kernel: u16, from: nat, index: u32, sel: u16)
    requires from <= MAX_TASKS
  {
    var first, low := FirstTask(run, from), FirstTask(run, 0);
    if first < MAX_TASKS then index == first && sel == run[first]
    else if kernel != 0 then index == KERNEL_INDEX && sel == kernel
    else index == low < MAX_TASKS && sel == run[low]
  }

  // ---- The scheduler itself ----

  class RunQueue {
    const table: array<u16>
    var current: u32
    var count: nat
    var kernel: u16
    var loaded: u16      // selector in the task register

    ghost predicate Valid()
      reads this, table
    {
      table.Length == MAX_TASKS && Sound(State())
    }

    ghost function State(): Sched
      reads this, table
      requires table.Length == MAX_TASKS
    {
      Sched(table[..], current, count, kernel, loaded)
    }

    /** scheduler_init, then create_kernel_tss loading `kernel`. */
    constructor (kernel: u16)
      ensures Valid() && fresh(table) && this.kernel == kernel && current == KERNEL_INDEX && count == 0
      ensures table[..] == seq(MAX_TASKS, _ => 0)
    {
      table := new u16[MAX_TASKS](_ => 0);
      current, count, loaded := KERNEL_INDEX, 0, kernel;
      this.kernel := kernel;
      new;
      AllOccupied(table[..], MAX_TASKS);
    }

    /** scheduler_switch_next. */
    method SwitchNext()
      requires Valid()
      modifies this`current, this`loaded
      ensures Valid() && State() == Switch(old(State()))
    {
      SwitchSound(State());
      if count == 0 {
        return;
      }
      var eax: u32, ecx, edx: u16 := current, MAX_TASKS, 0;
      ghost var run, first, low, wrapped := table[..], FirstTask(table[..], Position(current)), FirstTask(table[..], 0), false;
      AllOccupied(run, MAX_TASKS);
      ghost var from := Position(current);
      assert low < MAX_TASKS;
      hide Sound, Occupied, NonZero;
      while ecx != 0 && edx == 0
        invariant 0 <= ecx <= MAX_TASKS && TaskIndex(eax)
        invariant if edx != 0 then Chosen(run, kernel, from, eax, edx)
          else if wrapped then kernel == 0 && first == MAX_TASKS && eax < MAX_TASKS && low == FirstTask(run, eax + 1) && ecx == from - 1 - eax
          else first == FirstTask(run, Position(eax)) && ecx == MAX_TASKS + from - Position(eax)
        decreases ecx, edx == 0
      {
        IncIsPosition(eax);
        eax := (eax + 1) % WORD;
        if eax >= MAX_TASKS {
          eax, edx := KERNEL_INDEX, kernel;
          if edx == 0 {
            eax := 0;
            wrapped := true;
          }
        }
        if edx == 0 {
          edx := table[eax];
          ecx := if edx == 0 then ecx - 1 else ecx;
        }
      }
      if edx != 0 {
        current, loaded := eax, edx;
      }
    }

    /** The cyclic scan of exception_terminate_current: every slot once, the given one last. */
    method NextTask(from: u32) returns (eax: u32, edx: u16)
      requires table.Length == MAX_TASKS && from < MAX_TASKS && table[from] == 0
      ensures edx == 0 <==> forall i | 0 <= i < MAX_TASKS :: table[i] == 0
      ensures edx != 0 ==> NextAfter(table[..], from, eax, edx)
    {
      var ecx;
      eax, ecx, edx := from, MAX_TASKS, 0;
      ghost var run, wrapped := table[..], false;
      ghost var above, low := FirstTask(run, from + 1), FirstTask(run, 0);
      while ecx != 0 && edx == 0
        invariant 0 <= ecx <= MAX_TASKS && eax < MAX_TASKS
        invariant if edx != 0 then edx == run[eax] && eax == (if above < MAX_TASKS then above else low)
          else if wrapped then above == MAX_TASKS && low == FirstTask(run, eax + 1) && ecx == from - eax
          else above == FirstTask(run, eax + 1) && ecx == MAX_TASKS - (eax - from) && eax >= from
        decreases ecx, edx == 0
      {
        eax := eax + 1;
        if eax >= MAX_TASKS {
          eax := 0;
          wrapped := true;
        }
        edx := table[eax];
        ecx := if edx == 0 then ecx - 1 else ecx;
      }
    }

    /** exception_terminate_current from the vacating of the slot on: false means the machine
        halted because there was nothing to resume. */
    method TerminateCurrent() returns (ok: bool)
      requires Valid() && current < MAX_TASKS
      modifies this`current, this`count, this`loaded, table
      ensures ok == Leave(old(State())).Some?
      ensures ok ==> Valid() && State() == Leave(old(State())).value
    {
      hide *;
      StateIs();
      ghost var s := State();
      LeaveSound(s);
      Running(s);
      table[current] := 0;
      if count != 0 {
        count := count - 1;
      }
      StateIs();
      assert table[..] == s.run[s.current := 0];
      var next, sel := NextTask(current);
      Left(s, table[..], next, sel);
      StateIs();
      if sel != 0 {
        current, loaded := next, sel;
        StateIs();
        return true;
      }
      current := KERNEL_INDEX;
      if kernel == 0 {
        return false;
      }
      loaded := kernel;
      StateIs();
      return true;
    }

    lemma StateIs()
      ensures Valid() <==> table.Length == MAX_TASKS && Sound(State())
      ensures table.Length == MAX_TASKS ==> State() == Sched(table[..], current, count, kernel, loaded) && |table[..]| == MAX_TASKS
    {
    }

    /** scheduler_add_process, given the process's TSS selector. */
    method Add(sel: u16) returns (ok: bool)
      requires table.Length == MAX_TASKS
      modifies this`count, table
      ensures (State(), ok) == Addition(old(State()), sel)
    {
      if sel == 0 || count >= MAX_TASKS {
        return false;
      }
      var ecx := 0;
      while ecx < MAX_TASKS
        invariant 0 <= ecx <= MAX_TASKS
        invariant FirstHoleOr(table[..], sel, 0) == FirstHoleOr(table[..], sel, ecx)
      {
        if table[ecx] == sel {
          return false;
        }
        if table[ecx] == 0 {
          table[ecx] := sel;
          assert table[..] == old(table[..])[ecx := sel];
          count := count + 1;
          return true;
        }
        ecx := ecx + 1;
      }
      return false;
    }

    /** scheduler_remove_process, given the process's TSS selector. */
    method Remove(sel: u16) returns (ok: bool)
      requires table.Length == MAX_TASKS
      modifies this`count, this`current, table
      ensures (State(), ok) == Removal(old(State()), sel)
    {
      if sel == 0 {
        return true;
      }
      var ecx := 0;
      while ecx < MAX_TASKS && table[ecx] != sel
        invariant 0 <= ecx <= MAX_TASKS
        invariant FirstOf(table[..], sel, 0) == FirstOf(table[..], sel, ecx)
      {
        ecx := ecx + 1;
      }
      if ecx >= MAX_TASKS {
        return true;
      }
      if ecx == current {
        return false;
      }
      table[ecx] := 0;
      assert table[..] == old(table[..])[ecx := 0];
      if count != 0 {
        count := count - 1;
        if count == 0 {
          current := KERNEL_INDEX;
        }
      }
      return true;
    }
  }
}
