/** The keyboard queue under preemption: interrupts interleave with single shared accesses of
    service calls, any number of callers competing for the lock. */
module KeyboardInterleaving {
  import opened MachineWords
  import opened Keyboard

  /** Where a caller is. `entry` is the number of bytes lost when it got the lock, `mark` the number
      accepted when it compared the counters, or read the head after a loss; the steps from Compare
      on hold the lock. */
  datatype Place =
    | Idle
    | Spin
    | Compare(entry: nat)
    | Observe(entry: nat)
    | Clear(entry: nat)
    | ReadHead(entry: nat)
    | Jump(entry: nat, head: Index, at: nat)
    | Check(entry: nat, mark: nat, remaining: nat)
    | Fetch(entry: nat, mark: nat, remaining: nat)
    | Advance(entry: nat, mark: nat, remaining: nat, byte: u8)
    | Digest(entry: nat, mark: nat, remaining: nat, byte: u8)
    | Unlock(entry: nat, mark: nat)

  /** Ring buffers of 256 bytes and indices into them. */
  type Ring = s: seq<u8> | |s| == QUEUE_SIZE witness seq(QUEUE_SIZE, _ => 0)
  type Index = i: nat | i < QUEUE_SIZE

  /** Shared memory, the callers, and the history: every byte ever accepted, how many of them the
      consumer has passed (`taken`), where the current decoding run began (`base`), the bytes
      decoded since, and the losses so far, last observed, and last followed by a reset. */
  datatype World = World(bytes: Ring, head: Index, tail: Index, dropped: u32, observed: u32, lock: bool, keys: Decoder,
                         callers: map<nat, Place>,
                         accepted: seq<u8>, taken: nat, base: nat, decoded: seq<u8>, lost: nat, seen: nat, covered: nat)

  datatype Step = Irq(byte: u8, error: bool) | Run(caller: nat)

  predicate Inside(p: Place) {
    !p.Idle? && !p.Spin?
  }

  // ---- Steps ----

  /** ps2_keyboard_interrupt; interrupts are not interrupted. */
  function Interrupted(w: World, byte: u8, error: bool): World
  {
    if error || (w.head + 1) % QUEUE_SIZE == w.tail
    then w.(dropped := (w.dropped + 1) % WORD, lost := w.lost + 1)
    else w.(bytes := w.bytes[w.head := byte], head := (w.head + 1) % QUEUE_SIZE, accepted := w.accepted + [byte])
  }

  /** One shared access of keyboard_driver_service by a caller at `p`. */
  function Shared(w: World, p: Place): World
  {
    match p
    case Spin => w.(lock := true)
    case Observe(_) => w.(observed := w.dropped, seen := w.lost)
    case Clear(_) => w.(keys := Fresh(), decoded := [], base := w.taken, covered := w.seen)
    case Jump(_, head, at) => w.(tail := head, taken := at, base := at)
    case Advance(_, _, _, _) => w.(tail := (w.tail + 1) % QUEUE_SIZE, taken := w.taken + 1)
    case Digest(_, _, _, byte) => w.(keys := Decode(w.keys, byte), decoded := w.decoded + [byte])
    case Unlock(_, _) => w.(lock := false)
    case _ => w
  }

  /** Where it is afterwards. */
  function Moved(w: World, p: Place): Place
  {
    match p
    case Idle => Spin
    case Spin => if w.lock then Spin else Compare(w.lost)
    case Compare(entry) => if w.observed != w.dropped then Observe(entry) else Check(entry, |w.accepted|, QUEUE_SIZE)
    case Observe(entry) => Clear(entry)
    case Clear(entry) => ReadHead(entry)
    case ReadHead(entry) => Jump(entry, w.head, |w.accepted|)
    case Jump(entry, _, at) => Check(entry, at, QUEUE_SIZE)
    case Check(entry, mark, remaining) =>
      if remaining != 0 && w.tail != w.head then Fetch(entry, mark, remaining) else Unlock(entry, mark)
    case Fetch(entry, mark, remaining) => Advance(entry, mark, remaining, w.bytes[w.tail])
    case Advance(entry, mark, remaining, byte) => Digest(entry, mark, remaining, byte)
    case Digest(entry, mark, remaining, byte) => Check(entry, mark, if remaining == 0 then 0 else remaining - 1)
    case Unlock(_, _) => Idle
  }

  function Next(w: World, step: Step): World
    requires step.Run? ==> step.caller in w.callers
  {
    match step
    case Irq(byte, error) => Interrupted(w, byte, error)
    case Run(i) =>
      var s := Shared(w, w.callers[i]);
      s.(callers := w.callers[i := Moved(w, w.callers[i])])
  }

  // ---- The invariant ----

  /** The ring holds exactly the accepted bytes not yet taken, never more than 255. */
  ghost predicate RingGood(w: World) {
    w.taken <= |w.accepted| < w.taken + QUEUE_SIZE &&
    w.head == |w.accepted| % QUEUE_SIZE && w.tail == w.taken % QUEUE_SIZE &&
    forall k | w.taken <= k < |w.accepted| :: w.bytes[k % QUEUE_SIZE] == w.accepted[k]
  }

  /** At most one caller is inside, and exactly when the lock is held. */
  ghost predicate LockGood(w: World) {
    (forall i, j | i in w.callers && j in w.callers && Inside(w.callers[i]) && Inside(w.callers[j]) :: i == j) &&
    (w.lock <==> exists i :: i in w.callers && Inside(w.callers[i]))
  }

  /** The bytes decoded since the last reset are a contiguous run of the accepted ones, and the
      key state is their decoding; a byte in flight is the next one. */
  ghost predicate DecodedGood(w: World, p: Place) {
    w.base <= w.taken <= |w.accepted| && w.keys == DecodeAll(Fresh(), w.decoded) &&
    match p
    case Digest(_, _, _, byte) => w.base < w.taken && w.decoded == w.accepted[w.base..w.taken - 1] && byte == w.accepted[w.taken - 1]
    case Advance(_, _, _, byte) => w.taken < |w.accepted| && w.decoded == w.accepted[w.base..w.taken] && byte == w.accepted[w.taken]
    case Fetch(_, _, _) => w.taken < |w.accepted| && w.decoded == w.accepted[w.base..w.taken]
    case ReadHead(_) => w.decoded == [] && w.base == w.taken
    case Jump(_, head, at) => w.decoded == [] && w.base == w.taken <= at <= |w.accepted| && head == at % QUEUE_SIZE
    case _ => w.decoded == w.accepted[w.base..w.taken]
  }

  /** Loss accounting for the lock holder at `p` (Idle when the lock is free). */
  ghost predicate LossGood(w: World, p: Place) {
    w.dropped == w.lost % WORD && w.observed == w.seen % WORD && w.covered <= w.seen <= w.lost &&
    match p
    case Idle => w.covered == w.seen
    case Spin => w.covered == w.seen
    case Compare(entry) => w.covered == w.seen && entry <= w.lost
    case Observe(entry) => entry <= w.lost
    case Clear(entry) => entry <= w.seen
    case _ => w.covered == w.seen && p.entry <= w.covered
  }

  /** The loop does not stop early: what is still to take of the bytes up to `mark` fits into the
      turns that are left. */
  ghost predicate ScanGood(w: World, p: Place) {
    match p
    case Check(_, mark, remaining) => mark <= |w.accepted| && mark <= w.taken + remaining
    case Fetch(_, mark, remaining) => mark <= |w.accepted| && mark <= w.taken + remaining && remaining > 0
    case Advance(_, mark, remaining, _) => mark <= |w.accepted| && mark <= w.taken + remaining && remaining > 0
    case Digest(_, mark, remaining, _) => mark <= |w.accepted| && mark < w.taken + remaining && remaining > 0
    case Unlock(_, mark) => mark <= w.taken
    case _ => true
  }

  ghost predicate Good(w: World) {
    RingGood(w) && LockGood(w) &&
    (forall i | i in w.callers && Inside(w.callers[i]) ::
      DecodedGood(w, w.callers[i]) && LossGood(w, w.callers[i]) && ScanGood(w, w.callers[i])) &&
    (!w.lock ==> DecodedGood(w, Idle) && LossGood(w, Idle))
  }

  /** At the comparison the loss counter has not wrapped all the way round since last time. */
  ghost predicate NoWrap(w: World) {
    w.lost - w.seen < WORD
  }

  // ---- Preservation ----

  lemma RingIrq(w: World, byte: u8, error: bool)
    requires RingGood(w)
    ensures RingGood(Interrupted(w, byte, error))
    ensures Interrupted(w, byte, error).accepted == w.accepted || Interrupted(w, byte, error).accepted == w.accepted + [byte]
    ensures |w.accepted| == w.taken + QUEUE_SIZE - 1 ==> Interrupted(w, byte, error).accepted == w.accepted
  {
    var n, v := |w.accepted|, Interrupted(w, byte, error);
    RingArithmetic(n, w.taken);
    if !error && n + 1 < w.taken + QUEUE_SIZE {
      forall k | w.taken <= k < n + 1 ensures v.bytes[k % QUEUE_SIZE] == v.accepted[k] {
        if k < n { Apart(k, n); }
      }
    }
  }

  lemma RingArithmetic(n: nat, t: nat)
    requires t <= n < t + QUEUE_SIZE
    ensures (n % QUEUE_SIZE + 1) % QUEUE_SIZE == (n + 1) % QUEUE_SIZE
    ensures (n + 1) % QUEUE_SIZE == t % QUEUE_SIZE <==> n + 1 == t + QUEUE_SIZE
  {
  }

  lemma Apart(k: nat, n: nat)
    requires k < n < k + QUEUE_SIZE
    ensures k % QUEUE_SIZE != n % QUEUE_SIZE
  {
  }

  lemma DecodedIrq(w: World, byte: u8, error: bool, p: Place)
    requires RingGood(w) && DecodedGood(w, p)
    ensures DecodedGood(Interrupted(w, byte, error), p)
  {
    var v := Interrupted(w, byte, error);
    assert w.accepted <= v.accepted && v == w.(bytes := v.bytes, head := v.head, accepted := v.accepted, dropped := v.dropped, lost := v.lost);
    hide RingGood, Interrupted, DecodeAll, Fresh;
    SliceKept(w.accepted, v.accepted, w.base, w.taken);
    if w.base < w.taken { SliceKept(w.accepted, v.accepted, w.base, w.taken - 1); }
  }

  lemma SliceKept(a: seq<u8>, b: seq<u8>, i: nat, j: nat)
    requires a <= b && i <= j <= |a|
    ensures b[i..j] == a[i..j]
  {
  }

  lemma LossIrq(w: World, byte: u8, error: bool, p: Place)
    requires RingGood(w) && LossGood(w, p)
    ensures LossGood(Interrupted(w, byte, error), p)
  {
    LossCounted(w.lost);
    var v := Interrupted(w, byte, error);
    assert v.observed == w.observed && v.seen == w.seen && v.covered == w.covered;
    assert (v.lost == w.lost && v.dropped == w.dropped) || (v.lost == w.lost + 1 && v.dropped == (w.dropped + 1) % WORD);
    hide RingGood, Interrupted;
  }

  lemma LossCounted(n: nat)
    ensures (n % WORD + 1) % WORD == (n + 1) % WORD
  {
  }

  lemma ScanIrq(w: World, byte: u8, error: bool, p: Place)
    requires ScanGood(w, p)
    ensures ScanGood(Interrupted(w, byte, error), p)
  {
  }

  lemma IrqKeepsGood(w: World, byte: u8, error: bool)
    requires Good(w)
    ensures Good(Interrupted(w, byte, error))
  {
    RingIrq(w, byte, error);
    var v := Interrupted(w, byte, error);
    assert v.callers == w.callers && v.lock == w.lock;
    hide RingGood, DecodedGood, LossGood, ScanGood;
    forall i | i in w.callers && Inside(w.callers[i])
      ensures DecodedGood(v, v.callers[i]) && LossGood(v, v.callers[i]) && ScanGood(v, v.callers[i])
    {
      DecodedIrq(w, byte, error, w.callers[i]);
      LossIrq(w, byte, error, w.callers[i]);
      ScanIrq(w, byte, error, w.callers[i]);
    }
    if !w.lock {
      DecodedIrq(w, byte, error, Idle);
      LossIrq(w, byte, error, Idle);
    }
  }

  lemma RingStep(w: World, p: Place)
    requires RingGood(w) && DecodedGood(w, p)
    ensures RingGood(Shared(w, p))
  {
    hide Decode, DecodeAll, Fresh;
    match p {
      case Advance(_, _, _, _) => RingArithmetic(w.taken, w.taken);
      case _ =>
    }
  }

  lemma DigestStep(w: World, p: Place)
    requires DecodedGood(w, p) && p.Digest?
    ensures DecodedGood(Shared(w, p), Moved(w, p))
  {
    DecodeConcat(Fresh(), w.decoded, [p.byte]);
    DecodeOne(DecodeAll(Fresh(), w.decoded), p.byte);
    assert w.accepted[w.base..w.taken] == w.accepted[w.base..w.taken - 1] + [p.byte];
    hide Decode, DecodeAll;
  }

  lemma DecodedStep(w: World, p: Place)
    requires RingGood(w) && DecodedGood(w, p) && Inside(p)
    ensures DecodedGood(Shared(w, p), Moved(w, p))
  {
    match p {
      case Check(_, _, _) =>
        assert w.tail != w.head ==> w.taken != |w.accepted|;
      case Digest(_, _, _, _) => DigestStep(w, p);
      case _ =>
    }
  }

  lemma LossStep(w: World, p: Place)
    requires RingGood(w) && LossGood(w, p) && Inside(p) && (p.Compare? ==> NoWrap(w))
    ensures LossGood(Shared(w, p), Moved(w, p))
  {
    if p.Compare? && w.observed == w.dropped { SameResidue(w.seen, w.lost); }
  }

  lemma ScanStep(w: World, p: Place)
    requires RingGood(w) && DecodedGood(w, p) && ScanGood(w, p) && Inside(p)
    ensures ScanGood(Shared(w, p), Moved(w, p))
  {
    if p.Check? { TailMeetsHead(w); }
    hide DecodeAll, Decode, Fresh;
  }

  lemma TailMeetsHead(w: World)
    requires RingGood(w)
    ensures w.tail == w.head <==> w.taken == |w.accepted|
  {
  }

  lemma SameResidue(a: nat, b: nat)
    requires a <= b < a + WORD && a % WORD == b % WORD
    ensures a == b
  {
  }

  /** A caller inside the lock moves; nobody else is inside. */
  lemma InsideKeepsGood(w: World, i: nat)
    requires Good(w) && i in w.callers && Inside(w.callers[i]) && (w.callers[i].Compare? ==> NoWrap(w))
    ensures Good(Next(w, Run(i)))
  {
    var p := w.callers[i];
    var v := Next(w, Run(i));
    var s, q := Shared(w, p), Moved(w, p);
    RingStep(w, p);
    DecodedStep(w, p);
    LossStep(w, p);
    ScanStep(w, p);
    assert v.lock == !p.Unlock? && (Inside(q) <==> !p.Unlock?) && v.callers[i] == q;
    SameButCallers(s, v, q);
    if p.Unlock? { assert q == Idle; }
    hide RingGood, DecodedGood, LossGood, ScanGood, Shared, Moved;
    forall j | j in v.callers && Inside(v.callers[j]) ensures j == i {}
  }

  lemma SameButCallers(s: World, v: World, q: Place)
    requires v == s.(callers := v.callers)
    ensures RingGood(v) == RingGood(s) && DecodedGood(v, q) == DecodedGood(s, q) && LossGood(v, q) == LossGood(s, q) && ScanGood(v, q) == ScanGood(s, q)
  {
  }

  /** A caller outside starts spinning, spins, or gets the lock. */
  lemma OutsideKeepsGood(w: World, i: nat)
    requires Good(w) && i in w.callers && !Inside(w.callers[i])
    ensures Good(Next(w, Run(i)))
  {
    var p := w.callers[i];
    var v := Next(w, Run(i));
    var q := Moved(w, p);
    assert v == w.(lock := v.lock, callers := w.callers[i := q]) && v.lock == (w.lock || p.Spin?);
    if p.Spin? && !w.lock {
      assert q == Compare(w.lost) && LossGood(w, q) && DecodedGood(w, q) && ScanGood(w, q);
    }
    OnlyLock(w, v);
    hide RingGood, DecodedGood, LossGood, ScanGood, Shared, Moved;
    forall j | j in v.callers && Inside(v.callers[j]) && j != i ensures j in w.callers && Inside(w.callers[j]) && w.lock {}
  }

  lemma OnlyLock(w: World, v: World)
    requires v == w.(lock := v.lock, callers := v.callers)
    ensures RingGood(v) == RingGood(w)
    ensures forall q :: DecodedGood(v, q) == DecodedGood(w, q) && LossGood(v, q) == LossGood(w, q) && ScanGood(v, q) == ScanGood(w, q)
  {
  }

  /** A caller exists, and does not compare after a full wrap of the loss counter. */
  ghost predicate Allowed(w: World, step: Step) {
    step.Run? ==> step.caller in w.callers && (w.callers[step.caller].Compare? ==> NoWrap(w))
  }

  /** Every interleaved step keeps the invariant. */
  lemma StepKeepsGood(w: World, step: Step)
    requires Good(w) && Allowed(w, step)
    ensures Good(Next(w, step))
  {
    match step {
      case Irq(byte, error) => IrqKeepsGood(w, byte, error);
      case Run(i) => if Inside(w.callers[i]) { InsideKeepsGood(w, i); } else { OutsideKeepsGood(w, i); }
    }
  }

  // ---- Runs ----

  ghost predicate Started(w: World) {
    w.head == w.tail == 0 && w.dropped == w.observed == 0 && !w.lock && w.keys == Fresh() &&
    (forall i | i in w.callers :: w.callers[i] == Idle) && w.accepted == [] && w.taken == w.base == 0 && w.decoded == [] &&
    w.lost == w.seen == w.covered == 0
  }

  ghost predicate IsRun(ws: seq<World>, steps: seq<Step>) {
    |ws| == |steps| + 1 && Good(ws[0]) && forall k | 0 <= k < |steps| :: Steps(ws[k], steps[k], ws[k + 1])
  }

  ghost predicate Steps(w: World, step: Step, v: World) {
    Allowed(w, step) && v == Next(w, step)
  }

  lemma {:induction false} AlwaysGood(ws: seq<World>, steps: seq<Step>, k: nat)
    requires IsRun(ws, steps) && k <= |steps|
    ensures Good(ws[k])
  {
    hide Good, Allowed, Next;
    if k > 0 {
      AlwaysGood(ws, steps, k - 1);
      assert Steps(ws[k - 1], steps[k - 1], ws[k]);
      StepKeepsGood(ws[k - 1], steps[k - 1]);
    }
  }

  lemma StartedIsGood(w: World)
    requires Started(w)
    ensures Good(w)
  {
  }

  /** In every state of every run: at most one caller is inside the lock, at most 255 bytes wait,
      and the key state is the decoding of a contiguous, in-order run of accepted bytes. */
  lemma RunsStayGood(ws: seq<World>, steps: seq<Step>)
    requires IsRun(ws, steps)
    ensures Good(ws[|steps|])
    ensures var w := ws[|steps|];
      |w.accepted| - w.taken <= 255 && w.keys == DecodeAll(Fresh(), w.decoded) &&
      exists n :: w.base <= n <= w.taken && w.taken - n <= 1 && n <= |w.accepted| && w.decoded == w.accepted[w.base..n]
  {
    AlwaysGood(ws, steps, |steps|);
    DecodedIsRun(ws[|steps|]);
  }

  lemma DecodedIsRun(w: World)
    requires Good(w)
    ensures |w.accepted| - w.taken <= 255 && w.keys == DecodeAll(Fresh(), w.decoded)
    ensures exists n :: w.base <= n <= w.taken && w.taken - n <= 1 && n <= |w.accepted| && w.decoded == w.accepted[w.base..n]
  {
    var n := w.base + |w.decoded|;
    if w.lock {
      var i :| i in w.callers && Inside(w.callers[i]);
      assert DecodedGood(w, w.callers[i]);
    }
    assert w.decoded == w.accepted[w.base..n];
  }

  /** No byte is decoded twice: the consumer's position never goes back, a reset moves the base
      past everything decoded before, and a byte is decoded only right after being taken. */
  lemma NothingTwice(w: World, step: Step)
    requires Good(w) && Allowed(w, step)
    ensures
      var v := Next(w, step);
      w.taken <= v.taken && w.base <= v.base && (v.base != w.base ==> v.base >= w.taken && v.decoded == []) &&
      (v.decoded != w.decoded && v.decoded != [] ==> exists b :: v.decoded == w.decoded + [b] && v.taken == w.taken)
  {
    if step.Run? {
      var p := w.callers[step.caller];
      if Inside(p) {
        assert DecodedGood(w, p);
        if p.Digest? { assert Next(w, step).decoded == w.decoded + [p.byte]; }
      }
    }
  }

  /** A service call from taking the lock to releasing it. */
  ghost predicate WholeCall(ws: seq<World>, steps: seq<Step>, i: nat) {
    IsRun(ws, steps) && |steps| >= 2 && (forall k | 0 <= k <= |steps| :: i in ws[k].callers) &&
    steps[0] == Run(i) && ws[0].callers[i] == Spin && !ws[0].lock &&
    (forall k | 1 <= k < |steps| :: Inside(ws[k].callers[i])) &&
    steps[|steps| - 1] == Run(i) && ws[|steps| - 1].callers[i].Unlock?
  }

  lemma EntryStep(w: World, step: Step, i: nat)
    requires Good(w) && Allowed(w, step) && i in w.callers && Inside(w.callers[i])
    ensures
      var v := Next(w, step);
      i in v.callers && (Inside(v.callers[i]) ==> v.callers[i].entry == w.callers[i].entry)
  {
  }

  lemma {:induction false} EntryKept(ws: seq<World>, steps: seq<Step>, i: nat, k: nat)
    requires WholeCall(ws, steps, i) && 1 <= k < |steps|
    ensures ws[k].callers[i].entry == ws[0].lost
    decreases k
  {
    assert Steps(ws[0], steps[0], ws[1]);
    if k > 1 {
      EntryKept(ws, steps, i, k - 1);
      AlwaysGood(ws, steps, k - 1);
      assert Steps(ws[k - 1], steps[k - 1], ws[k]);
      EntryStep(ws[k - 1], steps[k - 1], i);
    }
  }

  /** Any byte lost before a service call takes the lock has, by the end of that call, been
      followed by a reset of the whole key state. */
  lemma LossesAreCovered(ws: seq<World>, steps: seq<Step>, i: nat)
    requires WholeCall(ws, steps, i)
    ensures ws[|steps|].covered >= ws[0].lost
  {
    var k := |steps| - 1;
    EntryKept(ws, steps, i, k);
    AlwaysGood(ws, steps, k);
    assert Steps(ws[k], steps[k], ws[k + 1]);
    assert LossGood(ws[k], ws[k].callers[i]);
  }

  /** What a caller at `p` still owes of the first `n` accepted bytes is covered by its mark. */
  ghost predicate Owes(w: World, p: Place, n: nat) {
    match p
    case Idle => n <= w.taken
    case Spin => false
    case Compare(_) => n <= |w.accepted|
    case Observe(_) => n <= |w.accepted|
    case Clear(_) => n <= |w.accepted|
    case ReadHead(_) => n <= |w.accepted|
    case Jump(_, _, at) => n <= at
    case _ => n <= p.mark
  }

  lemma OwesStep(w: World, step: Step, i: nat, n: nat)
    requires Good(w) && Allowed(w, step) && i in w.callers && Inside(w.callers[i]) && Owes(w, w.callers[i], n)
    ensures
      var v := Next(w, step);
      i in v.callers && Owes(v, v.callers[i], n)
  {
    match step {
      case Irq(byte, error) =>
      case Run(j) =>
        if j == i {
          assert ScanGood(w, w.callers[i]);
        } else {
          assert !Inside(w.callers[j]);
        }
        hide RingGood, LockGood, DecodedGood, LossGood;
    }
  }

  lemma {:induction false} OwesKept(ws: seq<World>, steps: seq<Step>, i: nat, k: nat, j: nat)
    requires WholeCall(ws, steps, i) && 1 <= k <= j <= |steps| && k < |steps|
    requires ws[k].callers[i].Compare? || ws[k].callers[i].ReadHead?
    ensures Owes(ws[j], ws[j].callers[i], |ws[k].accepted|)
    decreases j
  {
    hide Good, Allowed, Next, Owes;
    if j > k {
      OwesKept(ws, steps, i, k, j - 1);
      AlwaysGood(ws, steps, j - 1);
      assert Steps(ws[j - 1], steps[j - 1], ws[j]);
      OwesStep(ws[j - 1], steps[j - 1], i, |ws[k].accepted|);
    } else {
      OwesFirst(ws[k], ws[k].callers[i]);
    }
  }

  lemma OwesFirst(w: World, p: Place)
    requires p.Compare? || p.ReadHead?
    ensures Owes(w, p, |w.accepted|)
  {
  }

  /** A service call does its work, whatever interrupts it: when it returns, every byte accepted
      before it took the lock, when it compared the counters, or when it read the head after a loss,
      has been taken. */
  lemma WaitingBytesAreTaken(ws: seq<World>, steps: seq<Step>, i: nat)
    requires WholeCall(ws, steps, i)
    ensures ws[1].callers[i].Compare? && |ws[0].accepted| <= ws[|steps|].taken <= |ws[|steps|].accepted|
    ensures forall k | 1 <= k < |steps| && (ws[k].callers[i].Compare? || ws[k].callers[i].ReadHead?) ::
      |ws[k].accepted| <= ws[|steps|].taken
  {
    hide Good, Allowed, Owes, RingGood, DecodedGood;
    assert Steps(ws[0], steps[0], ws[1]);
    var n := |steps|;
    forall k | 1 <= k < n && (ws[k].callers[i].Compare? || ws[k].callers[i].ReadHead?) ensures |ws[k].accepted| <= ws[n].taken {
      OwedIsTaken(ws, steps, i, k);
    }
    AcceptedExtends(ws, steps, 0, 1);
    AlwaysGood(ws, steps, n);
    TakenIsAccepted(ws[n]);
  }

  lemma TakenIsAccepted(w: World)
    requires Good(w)
    ensures w.taken <= |w.accepted|
  {
  }

  lemma OwedIsTaken(ws: seq<World>, steps: seq<Step>, i: nat, k: nat)
    requires WholeCall(ws, steps, i) && 1 <= k < |steps| && (ws[k].callers[i].Compare? || ws[k].callers[i].ReadHead?)
    ensures |ws[k].accepted| <= ws[|steps|].taken
  {
    var n := |steps|;
    OwesKept(ws, steps, i, k, n);
    assert Steps(ws[n - 1], steps[n - 1], ws[n]);
  }

  /** Behind the comparison: without a loss the base stays at `b`, after one it passes the `n` bytes
      that had been accepted. */
  ghost predicate Keeps(w: World, p: Place, lossy: bool, n: nat, b: nat) {
    match p
    case Observe(_) => lossy && n <= |w.accepted|
    case Clear(_) => lossy && n <= |w.accepted|
    case ReadHead(_) => lossy && n <= |w.accepted|
    case Jump(_, _, at) => lossy && n <= at
    case _ => if lossy then n <= w.base else w.base == b
  }

  lemma KeepsStep(w: World, step: Step, i: nat, lossy: bool, n: nat, b: nat)
    requires Good(w) && Allowed(w, step) && i in w.callers && Inside(w.callers[i]) && !w.callers[i].Compare?
    requires Keeps(w, w.callers[i], lossy, n, b)
    ensures
      var v := Next(w, step);
      i in v.callers && Keeps(v, v.callers[i], lossy, n, b) && !v.callers[i].Compare?
  {
    match step {
      case Irq(byte, error) =>
      case Run(j) =>
        if j != i { assert !Inside(w.callers[j]); }
        hide RingGood, LockGood, DecodedGood, LossGood, ScanGood;
    }
  }

  /** A call compares once, as its second access. */
  lemma {:induction false} KeepsKept(ws: seq<World>, steps: seq<Step>, i: nat, k: nat, j: nat)
    requires WholeCall(ws, steps, i) && 1 <= k < j <= |steps| && steps[k] == Run(i) && ws[k].callers[i].Compare?
    ensures Keeps(ws[j], ws[j].callers[i], ws[k].lost != ws[k].seen, |ws[k].accepted|, ws[k].base) && !ws[j].callers[i].Compare?
    decreases j
  {
    hide Good, Allowed, Next, Keeps;
    AlwaysGood(ws, steps, j - 1);
    assert Steps(ws[j - 1], steps[j - 1], ws[j]);
    if j > k + 1 {
      KeepsKept(ws, steps, i, k, j - 1);
      KeepsStep(ws[j - 1], steps[j - 1], i, ws[k].lost != ws[k].seen, |ws[k].accepted|, ws[k].base);
    } else {
      KeepsFirst(ws[k], i);
    }
  }

  lemma KeepsFirst(w: World, i: nat)
    requires Good(w) && Allowed(w, Run(i)) && w.callers[i].Compare?
    ensures
      var v := Next(w, Run(i));
      Keeps(v, v.callers[i], w.lost != w.seen, |w.accepted|, w.base) && !v.callers[i].Compare?
  {
    assert LossGood(w, w.callers[i]);
    if w.observed == w.dropped { SameResidue(w.seen, w.lost); }
    hide RingGood, LockGood, DecodedGood, ScanGood;
  }

  /** What a whole call does to the keys, in any interleaving: with no loss at its comparison it
      decodes exactly the bytes it takes, in order, on top of the key state it found; after a loss it
      throws away everything accepted by then and starts from released keys. */
  lemma CallDecodes(ws: seq<World>, steps: seq<Step>, i: nat, k: nat)
    requires WholeCall(ws, steps, i) && 1 <= k < |steps| && steps[k] == Run(i) && ws[k].callers[i].Compare?
    ensures
      var w, v := ws[k], ws[|steps|];
      |w.accepted| <= v.taken <= |v.accepted| && w.accepted <= v.accepted && w.taken <= v.taken &&
      if w.lost == w.seen then v.keys == DecodeAll(w.keys, v.accepted[w.taken..v.taken])
      else |w.accepted| <= v.base <= v.taken && v.keys == DecodeAll(Fresh(), v.accepted[v.base..v.taken])
  {
    hide *;
    var n := |steps|;
    CallEnds(ws, steps, i);
    OwedIsTaken(ws, steps, i, k);
    KeepsKept(ws, steps, i, k, n);
    AcceptedExtends(ws, steps, k, n);
    AlwaysGood(ws, steps, k);
    AtComparison(ws[k], i);
    KeepsAtEnd(ws[n], ws[k].lost != ws[k].seen, |ws[k].accepted|, ws[k].base);
    if ws[k].lost == ws[k].seen { DecodedOnTop(ws[k], ws[n]); }
  }

  lemma KeepsAtEnd(w: World, lossy: bool, n: nat, b: nat)
    ensures Keeps(w, Idle, lossy, n, b) ==> if lossy then n <= w.base else w.base == b
  {
  }

  lemma AtComparison(w: World, i: nat)
    requires Good(w) && i in w.callers && w.callers[i].Compare?
    ensures w.base <= w.taken <= |w.accepted| && w.keys == DecodeAll(Fresh(), w.accepted[w.base..w.taken])
  {
    assert DecodedGood(w, w.callers[i]);
  }

  lemma CallEnds(ws: seq<World>, steps: seq<Step>, i: nat)
    requires WholeCall(ws, steps, i)
    ensures
      var v := ws[|steps|];
      i in v.callers && v.callers[i] == Idle && v.base <= v.taken <= |v.accepted| &&
      v.keys == DecodeAll(Fresh(), v.accepted[v.base..v.taken])
    ensures |ws| == |steps| + 1 && IsRun(ws, steps) && forall k | 0 <= k <= |steps| :: i in ws[k].callers
  {
    var n := |steps|;
    AlwaysGood(ws, steps, n);
    AlwaysGood(ws, steps, n - 1);
    assert Steps(ws[n - 1], steps[n - 1], ws[n]);
    hide Good;
    Released(ws[n - 1], i);
  }

  lemma DecodedOnTop(w: World, v: World)
    requires w.base == v.base && w.base <= w.taken <= |w.accepted| <= v.taken <= |v.accepted| && w.accepted <= v.accepted
    requires w.keys == DecodeAll(Fresh(), w.accepted[w.base..w.taken]) && v.keys == DecodeAll(Fresh(), v.accepted[v.base..v.taken])
    ensures v.keys == DecodeAll(w.keys, v.accepted[w.taken..v.taken])
  {
    assert v.accepted[v.base..v.taken] == w.accepted[w.base..w.taken] + v.accepted[w.taken..v.taken];
    DecodeConcat(Fresh(), w.accepted[w.base..w.taken], v.accepted[w.taken..v.taken]);
    hide DecodeAll, Fresh;
  }

  lemma {:induction false} AcceptedExtends(ws: seq<World>, steps: seq<Step>, k: nat, j: nat)
    requires IsRun(ws, steps) && k <= j <= |steps|
    ensures ws[k].accepted <= ws[j].accepted
    decreases j
  {
    if j > k {
      AcceptedExtends(ws, steps, k, j - 1);
      assert Steps(ws[j - 1], steps[j - 1], ws[j]);
    }
  }

  lemma Released(w: World, i: nat)
    requires Good(w) && i in w.callers && w.callers[i].Unlock? && Good(Next(w, Run(i)))
    ensures
      var v := Next(w, Run(i));
      v.callers[i] == Idle && v.base <= v.taken <= |v.accepted| && v.keys == DecodeAll(Fresh(), v.accepted[v.base..v.taken])
  {
    assert DecodedGood(Next(w, Run(i)), Idle);
  }

  /** `covered` advances only when the key state is cleared. */
  lemma CoveringClears(w: World, step: Step)
    requires Good(w) && Allowed(w, step) && Next(w, step).covered != w.covered
    ensures Next(w, step).keys == Fresh() && Next(w, step).covered <= w.lost
  {
  }
}
