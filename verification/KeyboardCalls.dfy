/** Interrupts and undisturbed calls of the keyboard service: the single shared accesses add up to
    the uninterrupted specification. */
module KeyboardCalls {
  import opened MachineWords
  import opened Keyboard
  import I = KeyboardInterleaving

  /** The shared page as the uninterrupted service sees it. */
  function View(w: I.World): (q: Queue)
    ensures QueueShape(q)
  {
    Queue(w.bytes, w.head, w.tail, w.dropped, w.observed, w.keys)
  }

  /** An interrupt between two accesses is the specified reception. */
  lemma InterruptIsReceive(w: I.World, byte: u8, error: bool)
    ensures View(I.Next(w, I.Irq(byte, error))) == Receive(View(w), byte, error)
  {
  }

  /** `n` accesses of caller `i` with nobody in between. */
  function Runs(w: I.World, i: nat, n: nat): (v: I.World)
    requires i in w.callers
    ensures i in v.callers
    decreases n
  {
    if n == 0 then w else Runs(I.Next(w, I.Run(i)), i, n - 1)
  }

  lemma {:induction false} RunsAdd(w: I.World, i: nat, m: nat, n: nat)
    requires i in w.callers
    ensures Runs(w, i, m + n) == Runs(Runs(w, i, m), i, n)
    decreases m
  {
    hide I.Next;
    if m > 0 {
      StillThere(w, i);
      RunsAdd(I.Next(w, I.Run(i)), i, m - 1, n);
    }
  }

  lemma StillThere(w: I.World, i: nat)
    requires i in w.callers
    ensures i in I.Next(w, I.Run(i)).callers
  {
  }

  lemma RunsFirst(w: I.World, i: nat, n: nat)
    requires i in w.callers
    ensures i in I.Next(w, I.Run(i)).callers && Runs(w, i, 0) == w && Runs(w, i, n + 1) == Runs(I.Next(w, I.Run(i)), i, n)
  {
    hide I.Next;
    StillThere(w, i);
  }

  /** The first half of a turn reads the byte at the tail. */
  lemma FetchRuns(w: I.World, i: nat, entry: nat, mark: nat, remaining: nat)
    requires i in w.callers && w.callers[i] == I.Check(entry, mark, remaining) && remaining > 0 && w.tail != w.head
    ensures
      var v := Runs(w, i, 2);
      w.tail < |w.bytes| && v.callers[i] == I.Advance(entry, mark, remaining, w.bytes[w.tail]) && View(v) == View(w)
  {
    hide *;
    var w1 := I.Next(w, I.Run(i));
    ViewIs(w);
    CheckIs(w, i, entry, mark, remaining);
    RunsFirst(w, i, 1);
    RunsFirst(w1, i, 0);
    RunsFirst(I.Next(w1, I.Run(i)), i, 0);
  }

  /** Checking for work and reading a byte, or releasing the lock. */
  lemma CheckIs(w: I.World, i: nat, entry: nat, mark: nat, remaining: nat)
    requires i in w.callers && w.callers[i] == I.Check(entry, mark, remaining)
    ensures
      var v := I.Next(w, I.Run(i));
      i in v.callers &&
      var u := I.Next(v, I.Run(i));
      i in u.callers && View(u) == View(w) &&
      if remaining != 0 && w.tail != w.head then u.callers[i] == I.Advance(entry, mark, remaining, w.bytes[w.tail])
      else u.callers[i] == I.Idle && !u.lock
  {
  }

  /** The second moves the tail and decodes it. */
  lemma DigestRuns(w: I.World, i: nat, entry: nat, mark: nat, remaining: nat, byte: u8)
    requires i in w.callers && w.callers[i] == I.Advance(entry, mark, remaining, byte) && remaining > 0
    ensures
      var q, v := View(w), Runs(w, i, 2);
      v.callers[i] == I.Check(entry, mark, remaining - 1) &&
      View(v) == q.(tail := (q.tail + 1) % QUEUE_SIZE, keys := Decode(q.keys, byte))
  {
    hide *;
    var w1 := I.Next(w, I.Run(i));
    RunsFirst(w, i, 1);
    AdvanceIs(w, i, entry, mark, remaining, byte);
    RunsFirst(w1, i, 0);
    DigestIs(w1, i, entry, mark, remaining, byte);
    RunsFirst(I.Next(w1, I.Run(i)), i, 0);
  }

  lemma AdvanceIs(w: I.World, i: nat, entry: nat, mark: nat, remaining: nat, byte: u8)
    requires i in w.callers && w.callers[i] == I.Advance(entry, mark, remaining, byte)
    ensures
      var q, v := View(w), I.Next(w, I.Run(i));
      i in v.callers && v.callers[i] == I.Digest(entry, mark, remaining, byte) && View(v) == q.(tail := (q.tail + 1) % QUEUE_SIZE)
  {
  }

  lemma DigestIs(w: I.World, i: nat, entry: nat, mark: nat, remaining: nat, byte: u8)
    requires i in w.callers && w.callers[i] == I.Digest(entry, mark, remaining, byte) && remaining > 0
    ensures
      var q, v := View(w), I.Next(w, I.Run(i));
      i in v.callers && v.callers[i] == I.Check(entry, mark, remaining - 1) && View(v) == q.(keys := Decode(q.keys, byte))
  {
    hide Decode;
  }

  /** One turn of the loop. */
  lemma TurnRuns(w: I.World, i: nat, entry: nat, mark: nat, remaining: nat)
    requires i in w.callers && w.callers[i] == I.Check(entry, mark, remaining) && remaining > 0 && w.tail != w.head
    ensures
      var q, v := View(w), Runs(w, i, 4);
      q.tail < |q.bytes| && v.callers[i] == I.Check(entry, mark, remaining - 1) &&
      View(v) == q.(tail := (q.tail + 1) % QUEUE_SIZE, keys := Decode(q.keys, q.bytes[q.tail]))
  {
    hide *;
    ViewIs(w);
    FetchRuns(w, i, entry, mark, remaining);
    DigestRuns(Runs(w, i, 2), i, entry, mark, remaining, w.bytes[w.tail]);
    RunsAdd(w, i, 2, 2);
  }

  /** The loop, then the release of the lock. */
  lemma {:induction false} LoopRuns(w: I.World, i: nat, entry: nat, mark: nat, remaining: nat) returns (n: nat)
    requires i in w.callers && w.callers[i] == I.Check(entry, mark, remaining)
    requires w.observed == w.dropped && |Waiting(View(w))| <= remaining
    ensures var v := Runs(w, i, n); v.callers[i] == I.Idle && !v.lock && View(v) == Processed(View(w))
    decreases remaining
  {
    hide *;
    ViewIs(w);
    LoopEnds(w, i, entry, mark, remaining);
    if remaining == 0 || w.tail == w.head {
      n := 2;
      NothingWaits(View(w));
    } else {
      OneProcessed(View(w));
      TurnRuns(w, i, entry, mark, remaining);
      var v := Runs(w, i, 4);
      ViewIs(v);
      var k := LoopRuns(v, i, entry, mark, remaining - 1);
      RunsAdd(w, i, 4, k);
      n := 4 + k;
    }
  }

  lemma ViewIs(w: I.World)
    ensures
      var q := View(w);
      q == Queue(w.bytes, w.head, w.tail, w.dropped, w.observed, w.keys) && QueueShape(q) && q.tail < |q.bytes| &&
      (Waiting(q) == [] <==> q.tail == q.head)
  {
  }

  lemma LoopEnds(w: I.World, i: nat, entry: nat, mark: nat, remaining: nat)
    requires i in w.callers && w.callers[i] == I.Check(entry, mark, remaining)
    ensures remaining == 0 || w.tail == w.head ==>
      var v := Runs(w, i, 2);
      v.callers[i] == I.Idle && !v.lock && View(v) == View(w)
  {
    hide *;
    var w1 := I.Next(w, I.Run(i));
    CheckIs(w, i, entry, mark, remaining);
    RunsFirst(w, i, 1);
    RunsFirst(w1, i, 0);
    RunsFirst(I.Next(w1, I.Run(i)), i, 0);
  }

  /** What no step of a call changes. */
  ghost predicate SameRing(w: I.World, v: I.World) {
    v.bytes == w.bytes && v.head == w.head && v.dropped == w.dropped
  }

  lemma SameRings(w: I.World, v: I.World)
    ensures SameRing(w, v) <==> v.bytes == w.bytes && v.head == w.head && v.dropped == w.dropped
  {
  }

  lemma ObserveIs(w: I.World, i: nat, entry: nat)
    requires i in w.callers && w.callers[i] == I.Observe(entry)
    ensures
      var v := I.Next(w, I.Run(i));
      i in v.callers && v.callers[i] == I.Clear(entry) && v.accepted == w.accepted && SameRing(w, v) && v.observed == w.dropped
  {
  }

  lemma ClearIs(w: I.World, i: nat, entry: nat)
    requires i in w.callers && w.callers[i] == I.Clear(entry)
    ensures
      var v := I.Next(w, I.Run(i));
      i in v.callers && v.callers[i] == I.ReadHead(entry) && v.accepted == w.accepted && SameRing(w, v) && v.observed == w.observed && v.keys == Fresh()
  {
    hide Fresh;
  }

  /** Reading the head and storing it in the tail. */
  lemma JumpIs(w: I.World, i: nat, entry: nat)
    requires i in w.callers && w.callers[i] == I.ReadHead(entry)
    ensures
      var v := I.Next(w, I.Run(i));
      i in v.callers &&
      var u := I.Next(v, I.Run(i));
      i in u.callers && u.callers[i] == I.Check(entry, |w.accepted|, QUEUE_SIZE) &&
      SameRing(w, u) && u.tail == w.head && u.observed == w.observed && u.keys == w.keys
  {
  }

  /** The four accesses of a call that found a loss. */
  lemma ForgetRuns(w: I.World, i: nat, entry: nat)
    requires i in w.callers && w.callers[i] == I.Observe(entry)
    ensures
      var q, v := View(w), Runs(w, i, 4);
      v.callers[i] == I.Check(entry, |w.accepted|, QUEUE_SIZE) &&
      View(v) == Queue(q.bytes, q.head, q.head, q.dropped, q.dropped, Fresh())
  {
    hide *;
    var w1 := I.Next(w, I.Run(i));
    ObserveIs(w, i, entry);
    RunsFirst(w, i, 3);
    var w2 := I.Next(w1, I.Run(i));
    ClearIs(w1, i, entry);
    RunsFirst(w1, i, 2);
    var w3 := I.Next(w2, I.Run(i));
    JumpIs(w2, i, entry);
    RunsFirst(w2, i, 1);
    RunsFirst(w3, i, 0);
    var w4 := I.Next(w3, I.Run(i));
    RunsFirst(w4, i, 0);
    SameRings(w, w1);
    SameRings(w1, w2);
    SameRings(w2, w4);
    ViewIs(w);
    ViewIs(w4);
  }

  /** A call that nobody disturbs, from entry to return, leaves the page as `Processed` says and the
      lock free: the single accesses refine the whole service. */
  lemma UndisturbedIsProcessed(w: I.World, i: nat) returns (n: nat)
    requires i in w.callers && w.callers[i] == I.Idle && !w.lock
    ensures var v := Runs(w, i, n); v.callers[i] == I.Idle && !v.lock && View(v) == Processed(View(w))
  {
    hide *;
    var w1 := I.Next(w, I.Run(i));
    RunsFirst(w, i, 1);
    var w2 := I.Next(w1, I.Run(i));
    RunsFirst(w1, i, 0);
    var w3 := I.Next(w2, I.Run(i));
    Entry(w, i);
    RunsFirst(w2, i, 0);
    RunsFirst(w3, i, 0);
    RunsAdd(w, i, 2, 1);
    ViewIs(w);
    ViewIs(w3);
    if w.observed == w.dropped {
      WaitingFits(View(w3));
      var k := LoopRuns(w3, i, w.lost, |w2.accepted|, QUEUE_SIZE);
      RunsAdd(w, i, 3, k);
      n := 3 + k;
    } else {
      ForgettingLeads(w, i, w3);
      var v := Runs(w3, i, 4);
      ViewIs(v);
      WaitingFits(View(v));
      var k := LoopRuns(v, i, w.lost, |w3.accepted|, QUEUE_SIZE);
      RunsAdd(w3, i, 4, k);
      RunsAdd(w, i, 3, 4 + k);
      n := 7 + k;
    }
  }

  lemma ForgettingLeads(w: I.World, i: nat, w3: I.World)
    requires w.observed != w.dropped && View(w3) == View(w) && i in w3.callers && w3.callers[i] == I.Observe(w.lost)
    ensures
      var v := Runs(w3, i, 4);
      v.callers[i] == I.Check(w.lost, |w3.accepted|, QUEUE_SIZE) && v.observed == v.dropped && Processed(View(v)) == Processed(View(w))
  {
    hide I.Next, Runs, Decode, Fresh, Waiting;
    ForgetRuns(w3, i, w.lost);
    ForgottenIsProcessed(View(w));
  }

  /** Idle, spinning, comparing. */
  lemma Entry(w: I.World, i: nat)
    requires i in w.callers && w.callers[i] == I.Idle && !w.lock
    ensures
      var w1 := I.Next(w, I.Run(i));
      i in w1.callers &&
      var w2 := I.Next(w1, I.Run(i));
      i in w2.callers &&
      var w3 := I.Next(w2, I.Run(i));
      i in w3.callers && View(w3) == View(w) &&
      w3.callers[i] == if w.observed != w.dropped then I.Observe(w.lost) else I.Check(w.lost, |w2.accepted|, QUEUE_SIZE)
  {
  }
}
