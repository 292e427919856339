/** The mouse service under preemption: USB interrupts (reports, connections, disconnections) fall
    between any two shared accesses of a request, and other callers find the lock taken. */
module MouseInterleaving {
  import opened MachineWords
  import opened MouseEvents

  /** A request: its operation, the losses when it got the lock, and how many reports had been
      passed and queued when it compared the loss counters (after a loss: when it read the head). */
  datatype Call = Call(op: u32, entry: nat, from: nat, mark: nat)

  /** Where the request is, by its next shared access; `got` are the packet words read so far. */
  datatype Place =
    | Idle
    | Forget(call: Call, id: nat)
    | Zero(call: Call, id: nat)
    | Compare(call: Call)
    | Observe(call: Call)
    | ReadHead(call: Call)
    | Jump(call: Call, head: Index)
    | Release(call: Call)
    | Answer(call: Call)
    | Check(call: Call, remaining: nat)
    | Read(call: Call, remaining: nat, got: seq<u32>)
    | Advance(call: Call, remaining: nat, got: seq<u32>)
    | Test(call: Call, remaining: nat, got: seq<u32>)
    | Store(call: Call, got: seq<u32>)
    | Unlock(call: Call, reply: Reply)

  /** What became of a report that left the ring. */
  datatype Fate = Delivered | Malformed | Unplugged | Flushed

  type Index = i: nat | i < QUEUE_SIZE
  type Buffer = s: seq<u8> | |s| == REPORT_BYTES witness seq(REPORT_BYTES, _ => 0)
  type Ring = s: seq<Slot> | |s| == QUEUE_SIZE witness seq(QUEUE_SIZE, _ => Slot(0, 0, seq(REPORT_BYTES, _ => 0)))

  /** A ring slot; bytes behind `length` are left over from earlier packets. */
  datatype Slot = Slot(controller: u32, length: u32, data: Buffer)

  /** The shared page and the request inside, with the history: every report ever queued, how many
      have left the ring and their fates, per mouse how many were queued at its last disconnection
      and whether it went away since a request last found it gone, and the losses so far, last
      observed, and last announced. */
  datatype World = World(slots: Ring, head: Index, tail: Index, dropped: u32, observed: u32, lock: bool,
                         connected: seq<bool>, buttons: seq<ButtonMask>, place: Place,
                         accepted: seq<Report>, taken: nat, fates: seq<Fate>, fence: seq<nat>, gone: seq<bool>,
                         lost: nat, seen: nat, told: nat)

  datatype Step = Arrives(report: Report) | Plug(id: u32) | Unplug(id: u32) | Enter(op: u32) | Move

  predicate Sized(w: World) {
    |w.connected| == |w.buttons| == |w.fence| == |w.gone| == CONTROLLERS
  }

  // ---- Interrupts ----

  function Filled(slot: Slot, r: Report): Slot
    requires Storable(r)
  {
    Slot(r.controller, |r.data|, r.data + slot.data[|r.data|..])
  }

  /** mouse_queue_report. */
  function Arrived(w: World, r: Report): World {
    if !Storable(r) then w
    else if (w.head + 1) % QUEUE_SIZE == w.tail then w.(dropped := (w.dropped + 1) % WORD, lost := w.lost + 1)
    else w.(slots := w.slots[w.head := Filled(w.slots[w.head], r)], head := (w.head + 1) % QUEUE_SIZE, accepted := w.accepted + [r])
  }

  /** mouse_receive on a connection event. */
  function PluggedIn(w: World, id: u32): World
    requires Sized(w)
  {
    if id >= CONTROLLERS then w else w.(connected := w.connected[id := true], gone := w.gone[id := false])
  }

  /** mouse_receive on a disconnection event. */
  function PulledOut(w: World, id: u32): World
    requires Sized(w)
  {
    if id >= CONTROLLERS then w
    else w.(connected := w.connected[id := false], dropped := (w.dropped + 1) % WORD,
            fence := w.fence[id := |w.accepted|], gone := w.gone[id := true], lost := w.lost + 1)
  }

  // ---- The request ----

  /** The exchange on the lock: a caller that finds it taken is told so and changes nothing. */
  function Entered(w: World, op: u32): World {
    if w.lock then w
    else
      var call := Call(op, w.lost, 0, 0);
      w.(lock := true, place := if op > 2 then Unlock(call, BadRequest) else Forget(call, 0))
  }

  /** The words of a packet the scan reads, in its order: controller, length, three data bytes. */
  function Part(slot: Slot, j: nat): u32
    requires j < 5
  {
    if j == 0 then slot.controller else if j == 1 then slot.length else slot.data[j - 2]
  }

  predicate Usable(got: seq<u32>) {
    |got| == 5 && got[0] < CONTROLLERS && 3 <= got[1] <= REPORT_BYTES
  }

  /** What one access does to the shared page. */
  function Shared(w: World, p: Place): World
    requires Sized(w)
  {
    match p
    case Forget(_, id) => if id < CONTROLLERS && !w.connected[id] then w.(gone := w.gone[id := false]) else w
    case Zero(_, id) => if id < CONTROLLERS then w.(buttons := w.buttons[id := 0]) else w
    case Observe(_) => w.(observed := w.dropped, seen := w.lost)
    case Jump(call, head) =>
      w.(tail := head, taken := call.mark, fates := w.fates + seq(if call.mark < w.taken then 0 else call.mark - w.taken, _ => Flushed))
    case Release(_) => w.(buttons := Released())
    case Advance(_, _, _) => w.(tail := (w.tail + 1) % QUEUE_SIZE, taken := w.taken + 1)
    case Test(_, _, got) =>
      if !Usable(got) then w.(fates := w.fates + [Malformed])
      else if !w.connected[got[0]] then w.(fates := w.fates + [Unplugged]) else w
    case Store(_, got) =>
      if Usable(got) then w.(buttons := w.buttons[got[0] := got[2] % 8], fates := w.fates + [Delivered]) else w
    case Unlock(_, reply) => w.(lock := false, told := if reply.Lost? then w.seen else w.told)
    case _ => w
  }

  /** Where the request is afterwards. */
  function Moved(w: World, p: Place): Place
    requires Sized(w)
  {
    match p
    case Idle => Idle
    case Forget(call, id) =>
      if id >= CONTROLLERS then Compare(call) else if w.connected[id] then Forget(call, id + 1) else Zero(call, id)
    case Zero(call, id) => Forget(call, id + 1)
    case Compare(call) =>
      if w.observed != w.dropped then Observe(call)
      else
        var c := call.(from := w.taken, mark := |w.accepted|);
        if call.op == 0 then Check(c, QUEUE_SIZE) else Answer(c)
    case Observe(call) => ReadHead(call)
    case ReadHead(call) => Jump(call.(from := w.taken, mark := |w.accepted|), w.head)
    case Jump(call, _) => Release(call)
    case Release(call) => Unlock(call, Lost)
    case Answer(call) => Unlock(call, if call.op == 2 then Devices(w.connected) else Buttons(AnyButton(w.buttons)))
    case Check(call, remaining) =>
      if remaining != 0 && w.tail != w.head then Read(call, remaining, []) else Unlock(call, Nothing)
    case Read(call, remaining, got) =>
      if |got| >= 5 then Advance(call, remaining, got) else Read(call, remaining, got + [Part(w.slots[w.tail], |got|)])
    case Advance(call, remaining, got) => Test(call, remaining, got)
    case Test(call, remaining, got) =>
      if Usable(got) && w.connected[got[0]] then Store(call, got) else Check(call, if remaining == 0 then 0 else remaining - 1)
    case Store(call, got) =>
      Unlock(call, if Usable(got) then Event(got[0], got[3] % 256, got[4] % 256, got[2] % 8) else Nothing)
    case Unlock(_, _) => Idle
  }

  function Next(w: World, step: Step): World
    requires Sized(w)
  {
    match step
    case Arrives(r) => Arrived(w, r)
    case Plug(id) => PluggedIn(w, id)
    case Unplug(id) => PulledOut(w, id)
    case Enter(op) => Entered(w, op)
    case Move => Shared(w, w.place).(place := Moved(w, w.place))
  }

  // ---- The invariant ----

  ghost predicate Carries(slot: Slot, r: Report) {
    Storable(r) && slot.controller == r.controller && slot.length == |r.data| && slot.data[..|r.data|] == r.data
  }

  /** The ring holds exactly the accepted reports not yet taken, never more than 31. */
  ghost predicate RingGood(w: World) {
    w.taken <= |w.accepted| < w.taken + QUEUE_SIZE &&
    w.head == |w.accepted| % QUEUE_SIZE && w.tail == w.taken % QUEUE_SIZE &&
    (forall k | 0 <= k < |w.accepted| :: Storable(w.accepted[k])) &&
    forall k | w.taken <= k < |w.accepted| :: Carries(w.slots[k % QUEUE_SIZE], w.accepted[k])
  }

  /** The words `got` are those of report `r`. */
  ghost predicate Copied(r: Report, got: seq<u32>) {
    |got| == 5 && got[0] == r.controller && got[1] == |r.data| && (3 <= |r.data| ==> got[2] == r.data[0] && got[3] == r.data[1] && got[4] == r.data[2])
  }

  predicate Whole(r: Report) {
    3 <= |r.data|
  }

  /** A packet is taken but its fate not yet decided. */
  predicate Pending(p: Place) {
    p.Test? || p.Store?
  }

  /** What waited when the head was read has been thrown away. */
  ghost predicate Emptied(w: World, call: Call) {
    call.from <= call.mark == w.taken == |w.fates| && forall k | call.from <= k < call.mark :: w.fates[k] == Flushed
  }

  /** Every report that left the ring has one fate; the one in hand was copied unharmed. */
  ghost predicate FateGood(w: World, p: Place) {
    |w.fates| == (if Pending(p) then w.taken - 1 else w.taken) && |w.fates| <= |w.accepted| &&
    (forall k | 0 <= k < |w.fates| && w.fates[k] != Flushed :: w.fates[k] == Malformed <==> !Whole(w.accepted[k])) &&
    match p
    case Jump(call, head) => call.from == w.taken <= call.mark <= |w.accepted| && head == call.mark % QUEUE_SIZE
    case Release(call) => Emptied(w, call)
    case Unlock(call, Lost) => Emptied(w, call)
    case Read(_, _, got) => w.taken < |w.accepted| && |got| <= 5 && forall j | 0 <= j < |got| :: got[j] == Part(w.slots[w.tail], j)
    case Advance(_, _, got) => w.taken < |w.accepted| && |got| == 5 && forall j | 0 <= j < |got| :: got[j] == Part(w.slots[w.tail], j)
    case Test(_, _, got) => 0 < w.taken <= |w.accepted| && Copied(w.accepted[w.taken - 1], got)
    case Store(_, got) => 0 < w.taken <= |w.accepted| && Copied(w.accepted[w.taken - 1], got) && Usable(got)
    case _ => true
  }

  /** The scan of an event request: nothing it passed was delivered or flushed, and its turns are
      enough for everything that waited at the comparison. */
  ghost predicate ScanGood(w: World, p: Place) {
    var scanning := p.Check? || p.Read? || p.Advance? || p.Test? || p.Store? || (p.Unlock? && p.reply.Nothing?);
    scanning ==>
      p.call.from <= |w.fates| && p.call.mark <= |w.accepted| && (Pending(p) ==> p.call.from < w.taken) &&
      (forall k | p.call.from <= k < |w.fates| :: w.fates[k] == Malformed || w.fates[k] == Unplugged) &&
      match p
      case Check(call, remaining) => call.mark < w.taken + remaining
      case Read(call, remaining, _) => remaining > 0 && call.mark < w.taken + remaining
      case Advance(call, remaining, _) => remaining > 0 && call.mark < w.taken + remaining
      case Test(call, remaining, _) => remaining > 0 && call.mark < w.taken + remaining - 1
      case Unlock(call, _) => call.mark <= w.taken
      case _ => true
  }

  /** Loss accounting: `told` catches up with `seen` when the loss is announced. */
  ghost predicate LossGood(w: World, p: Place) {
    w.dropped == w.lost % WORD && w.observed == w.seen % WORD && w.told <= w.seen <= w.lost &&
    match p
    case Idle => w.told == w.seen
    case Forget(call, _) => w.told == w.seen && call.entry <= w.lost
    case Zero(call, _) => w.told == w.seen && call.entry <= w.lost
    case Compare(call) => w.told == w.seen && call.entry <= w.lost
    case Observe(call) => w.told == w.seen < w.lost && call.entry <= w.lost
    case ReadHead(call) => w.told < w.seen && call.entry <= w.seen
    case Jump(call, _) => w.told < w.seen && call.entry <= w.seen
    case Release(call) => w.told < w.seen && call.entry <= w.seen
    case Unlock(call, reply) =>
      (if reply.Lost? then w.told < w.seen else w.told == w.seen) && (!reply.BadRequest? ==> call.entry <= w.seen)
    case _ => w.told == w.seen && p.call.entry <= w.seen
  }

  /** While no loss is outstanding, what waits was queued after every disconnection. */
  ghost predicate FenceGood(w: World, p: Place)
    requires Sized(w)
  {
    (forall id | 0 <= id < CONTROLLERS :: w.fence[id] <= |w.accepted|) &&
    (w.seen == w.lost && !p.ReadHead? ==>
      forall id | 0 <= id < CONTROLLERS :: w.fence[id] <= if p.Jump? then p.call.mark else w.taken)
  }

  /** A mouse that holds buttons is connected unless it went away since. */
  ghost predicate ButtonsGood(w: World, p: Place)
    requires Sized(w)
  {
    (forall id | 0 <= id < CONTROLLERS && w.connected[id] :: !w.gone[id]) &&
    (forall id | 0 <= id < CONTROLLERS && w.buttons[id] != 0 && !(p.Zero? && p.id == id) :: w.connected[id] || w.gone[id]) &&
    (p.Store? && Usable(p.got) ==> w.connected[p.got[0]] || w.gone[p.got[0]])
  }

  /** The answer says what the history says. */
  ghost predicate ReplyGood(w: World, p: Place) {
    match p
    case Answer(call) => call.op == 1 || call.op == 2
    case Forget(call, _) => call.op <= 2
    case Zero(call, _) => call.op <= 2
    case Compare(call) => call.op <= 2
    case Unlock(call, BadRequest) => call.op > 2
    case Unlock(_, Lost) => w.buttons == Released()
    case Unlock(_, Buttons(down)) => |w.buttons| == CONTROLLERS && down == AnyButton(w.buttons)
    case Unlock(call, Event(controller, dx, dy, buttons)) =>
      call.from < w.taken <= |w.accepted| && 0 < w.taken <= |w.accepted| && |w.fates| == w.taken && w.fates[w.taken - 1] == Delivered &&
      var r := w.accepted[w.taken - 1];
      Whole(r) && controller == r.controller && buttons == r.data[0] % 8 && dx == r.data[1] && dy == r.data[2]
    case _ => true
  }

  ghost predicate Good(w: World) {
    Sized(w) && RingGood(w) && (w.lock <==> !w.place.Idle?) && FateGood(w, w.place) && ScanGood(w, w.place) &&
    LossGood(w, w.place) && FenceGood(w, w.place) && ButtonsGood(w, w.place) && ReplyGood(w, w.place)
  }

  /** At the comparison the loss counter has not wrapped all the way round since last time. */
  ghost predicate Allowed(w: World, step: Step) {
    step.Move? && w.place.Compare? ==> w.lost - w.seen < WORD
  }

  // ---- Preservation: interrupts ----

  lemma RingArithmetic(n: nat, t: nat)
    requires t <= n < t + QUEUE_SIZE
    ensures (n % QUEUE_SIZE + 1) % QUEUE_SIZE == (n + 1) % QUEUE_SIZE
    ensures (n + 1) % QUEUE_SIZE == t % QUEUE_SIZE <==> n + 1 == t + QUEUE_SIZE
  {
    Following(n);
    if n + 1 == t + QUEUE_SIZE { WholeTurn(t); } else { SlotsDiffer(n + 1, t); }
  }

  lemma Following(n: nat)
    ensures (n % QUEUE_SIZE + 1) % QUEUE_SIZE == (n + 1) % QUEUE_SIZE
  {
  }

  lemma WholeTurn(t: nat)
    ensures (t + QUEUE_SIZE) % QUEUE_SIZE == t % QUEUE_SIZE
  {
  }

  lemma SlotsDiffer(n: nat, t: nat)
    requires t <= n < t + QUEUE_SIZE
    ensures n % QUEUE_SIZE == t % QUEUE_SIZE <==> n == t
  {
  }

  lemma NextResidue(a: nat)
    ensures (a % WORD + 1) % WORD == (a + 1) % WORD
  {
  }

  lemma SameResidue(a: nat, b: nat)
    requires a <= b < a + WORD
    ensures a % WORD == b % WORD <==> a == b
  {
  }

  /** A report goes into a slot nobody reads: the packet at the tail is not touched. */
  lemma ArrivalIsApart(w: World, r: Report)
    requires RingGood(w)
    ensures RingGood(Arrived(w, r))
    ensures
      var v := Arrived(w, r);
      (v.accepted == w.accepted || v.accepted == w.accepted + [r]) && (w.taken < |w.accepted| ==> v.slots[w.tail] == w.slots[w.tail])
  {
    var n, v := |w.accepted|, Arrived(w, r);
    RingArithmetic(n, w.taken);
    SlotsDiffer(n, w.taken);
    if v.accepted != w.accepted {
      forall k | w.taken <= k < n + 1 ensures Carries(v.slots[k % QUEUE_SIZE], v.accepted[k]) {
        SlotsDiffer(n, k);
      }
    }
  }

  lemma ArrivesKeepsGood(w: World, r: Report)
    requires Good(w)
    ensures Good(Arrived(w, r))
  {
    ArrivalIsApart(w, r);
    NextResidue(w.lost);
    var v, p := Arrived(w, r), w.place;
    assert v == w.(slots := v.slots, head := v.head, accepted := v.accepted, dropped := v.dropped, lost := v.lost);
    hide RingGood, Filled, Carries, Storable, FateGood, AnyButton, Emptied;
    FateGrows(w, v, r);
    assert LossGood(v, p);
  }

  lemma FateGrows(w: World, v: World, r: Report)
    requires v == w.(slots := v.slots, head := v.head, accepted := v.accepted, dropped := v.dropped, lost := v.lost)
    requires (v.accepted == w.accepted || v.accepted == w.accepted + [r]) && (w.taken < |w.accepted| ==> v.slots[w.tail] == w.slots[w.tail])
    requires FateGood(w, w.place)
    ensures FateGood(v, w.place)
  {
    hide Copied, Whole, Usable, Part;
  }

  lemma PlugKeepsGood(w: World, id: u32)
    requires Good(w)
    ensures Good(PluggedIn(w, id))
  {
    hide Carries, Storable, Copied;
  }

  lemma UnplugKeepsGood(w: World, id: u32)
    requires Good(w)
    ensures Good(PulledOut(w, id))
  {
    NextResidue(w.lost);
    hide Carries, Storable, Copied;
  }

  lemma EnterKeepsGood(w: World, op: u32)
    requires Good(w)
    ensures Good(Entered(w, op))
  {
    hide Carries, Storable, Copied;
  }

  // ---- Preservation: the request ----

  lemma RingMove(w: World)
    requires Good(w)
    ensures RingGood(Next(w, Move))
  {
    RingArithmetic(|w.accepted|, w.taken);
    hide Carries, Storable, Copied;
    match w.place {
      case Advance(_, _, _) => RingArithmetic(w.taken, w.taken);
      case _ =>
    }
  }

  /** At the last word read the copy is the report's. */
  lemma CopyIsReport(slot: Slot, r: Report, got: seq<u32>)
    requires Carries(slot, r) && |got| == 5 && forall j | 0 <= j < 5 :: got[j] == Part(slot, j)
    ensures Copied(r, got)
  {
    assert |r.data| >= 3 ==> slot.data[..|r.data|][0] == slot.data[0] && slot.data[..|r.data|][1] == slot.data[1] && slot.data[..|r.data|][2] == slot.data[2];
  }

  lemma UsableIsWhole(r: Report, got: seq<u32>)
    requires Storable(r) && Copied(r, got)
    ensures Usable(got) <==> Whole(r)
  {
  }

  lemma FateMove(w: World)
    requires Sized(w) && RingGood(w) && FateGood(w, w.place)
    ensures FateGood(Next(w, Move), Next(w, Move).place)
  {
    if Pending(w.place) {
      FateDecided(w, w.place.got);
    } else if w.place.Check? || w.place.Read? || w.place.Advance? {
      FateCopied(w);
    } else {
      hide Carries, Storable, Copied, Whole, Usable, AnyButton, Released, Part;
    }
  }

  lemma FateCopied(w: World)
    requires Sized(w) && RingGood(w) && FateGood(w, w.place) && (w.place.Check? || w.place.Read? || w.place.Advance?)
    ensures FateGood(Next(w, Move), Next(w, Move).place)
  {
    hide Carries, Storable, Copied, Whole, Usable, AnyButton, Released, Emptied;
    match w.place {
      case Check(_, _) => SlotsDiffer(|w.accepted|, w.taken);
      case Advance(_, _, got) => CopyIsReport(w.slots[w.tail], w.accepted[w.taken], got);
      case _ => hide RingGood;
    }
  }

  lemma FateDecided(w: World, got: seq<u32>)
    requires Sized(w) && RingGood(w) && FateGood(w, w.place) && Pending(w.place) && got == w.place.got
    ensures FateGood(Next(w, Move), Next(w, Move).place)
  {
    UsableIsWhole(w.accepted[w.taken - 1], got);
    hide Carries, Storable, Copied, Whole, Usable, AnyButton, Released, Part;
  }

  lemma ScanMove(w: World)
    requires Good(w)
    ensures ScanGood(Next(w, Move), Next(w, Move).place)
  {
    SlotsDiffer(|w.accepted|, w.taken);
    hide Carries, Storable, Copied, Whole, Usable, Part, LossGood, FenceGood, ButtonsGood, ReplyGood, AnyButton, Released;
  }

  lemma LossMove(w: World)
    requires Sized(w) && LossGood(w, w.place) && ReplyGood(w, w.place) && Allowed(w, Move)
    ensures LossGood(Next(w, Move), Next(w, Move).place)
  {
    if w.place.Compare? { SameResidue(w.seen, w.lost); }
    hide Usable, Part, AnyButton, Released, Whole;
  }

  lemma FenceMove(w: World)
    requires Good(w) && Allowed(w, Move)
    ensures FenceGood(Next(w, Move), Next(w, Move).place)
  {
    hide Carries, Storable, Copied, Whole, Usable, Part, AnyButton;
  }

  lemma ButtonsMove(w: World)
    requires Good(w)
    ensures ButtonsGood(Next(w, Move), Next(w, Move).place)
  {
    hide RingGood, Copied, Whole, Part, AnyButton;
  }

  lemma ReplyMove(w: World)
    requires Good(w)
    ensures ReplyGood(Next(w, Move), Next(w, Move).place)
  {
    hide RingGood, AnyButton, Part;
  }

  lemma MoveKeepsGood(w: World)
    requires Good(w) && Allowed(w, Move)
    ensures Good(Next(w, Move))
  {
    RingMove(w);
    FateMove(w);
    ScanMove(w);
    LossMove(w);
    FenceMove(w);
    ButtonsMove(w);
    ReplyMove(w);
    hide RingGood, FateGood, ScanGood, LossGood, FenceGood, ButtonsGood, ReplyGood, AnyButton, Part;
  }

  /** Every interrupt and every single access of a request keeps ring, lock, fates, losses, fences
      and buttons in order. */
  lemma StepKeepsGood(w: World, step: Step)
    requires Good(w) && Allowed(w, step)
    ensures Good(Next(w, step))
  {
    match step {
      case Arrives(r) => ArrivesKeepsGood(w, r);
      case Plug(id) => PlugKeepsGood(w, id);
      case Unplug(id) => UnplugKeepsGood(w, id);
      case Enter(op) => EnterKeepsGood(w, op);
      case Move => MoveKeepsGood(w);
    }
  }

  // ---- Single calls ----

  /** What an answer tells the caller. Lost: a loss not announced before, everything that waited is
      thrown away, and no button counts as held. Any other answer: no loss from before the call is
      left unannounced. An event is the report just taken, unharmed. Nothing: everything that waited
      at the comparison has left the ring, too short or from a mouse found disconnected. */
  lemma RepliesMean(w: World)
    requires Good(w) && w.place.Unlock?
    ensures
      var call, reply := w.place.call, w.place.reply;
      match reply
      case Lost => w.told < w.seen && Emptied(w, call) && AnyButton(w.buttons) == 0
      case BadRequest => call.op > 2
      case Event(controller, dx, dy, down) =>
        call.entry <= w.seen == w.told && call.from < w.taken <= |w.accepted| && w.fates[w.taken - 1] == Delivered &&
        var r := w.accepted[w.taken - 1];
        Whole(r) && controller == r.controller && down == r.data[0] % 8 && dx == r.data[1] && dy == r.data[2]
      case Nothing =>
        call.entry <= w.seen == w.told && call.mark <= w.taken == |w.fates| &&
        forall k | call.from <= k < w.taken :: w.fates[k] == if Whole(w.accepted[k]) then Unplugged else Malformed
      case Devices(_) => call.entry <= w.seen == w.told
      case Buttons(down) => call.entry <= w.seen == w.told && |w.buttons| == CONTROLLERS && down == AnyButton(w.buttons)
  {
    hide RingGood;
  }

  // ---- Runs ----

  ghost predicate Steps(w: World, step: Step, v: World) {
    Sized(w) && Allowed(w, step) && v == Next(w, step)
  }

  ghost predicate IsRun(ws: seq<World>, steps: seq<Step>) {
    |ws| == |steps| + 1 && Good(ws[0]) && forall k | 0 <= k < |steps| :: Steps(ws[k], steps[k], ws[k + 1])
  }

  ghost predicate Started(w: World) {
    w.head == w.tail == 0 && w.dropped == w.observed == 0 && !w.lock && w.place == Idle &&
    w.connected == w.gone == [false, false, false, false] && w.buttons == Released() && w.fence == [0, 0, 0, 0] &&
    w.accepted == [] && w.taken == 0 && w.fates == [] && w.lost == w.seen == w.told == 0
  }

  lemma StartedIsGood(w: World)
    requires Started(w)
    ensures Good(w)
  {
  }

  lemma RunStep(ws: seq<World>, steps: seq<Step>, k: nat)
    requires IsRun(ws, steps) && k < |steps|
    ensures Sized(ws[k]) && Allowed(ws[k], steps[k]) && ws[k + 1] == Next(ws[k], steps[k])
  {
    hide Good, Allowed, Next, Sized;
    assert Steps(ws[k], steps[k], ws[k + 1]);
  }

  lemma {:induction false} RunsStayGood(ws: seq<World>, steps: seq<Step>, k: nat)
    requires IsRun(ws, steps) && k <= |steps|
    ensures Good(ws[k])
  {
    hide *;
    RunStart(ws, steps);
    if k > 0 {
      RunsStayGood(ws, steps, k - 1);
      RunStep(ws, steps, k - 1);
      StepKeepsGood(ws[k - 1], steps[k - 1]);
    }
  }

  lemma RunStart(ws: seq<World>, steps: seq<Step>)
    requires IsRun(ws, steps)
    ensures |ws| == |steps| + 1 && Good(ws[0])
  {
  }

  // ---- Order ----

  /** A request answers with an event at step `k`. */
  ghost predicate Yields(ws: seq<World>, steps: seq<Step>, k: int) {
    0 <= k < |steps| && |ws| == |steps| + 1 && steps[k] == Move && ws[k].place.Unlock? && ws[k].place.reply.Event?
  }

  /** Fates are final, and what was queued stays in the record. */
  lemma StepKeepsFates(w: World, step: Step)
    requires Good(w)
    ensures w.fates <= Next(w, step).fates && w.accepted <= Next(w, step).accepted
    ensures
      var v := Next(w, step);
      v.place.Unlock? && v.place.reply.Event? && !(w.place.Unlock? && w.place.reply.Event?) ==> |v.fates| > |w.fates|
    ensures step == Move && w.place.Unlock? ==> Next(w, step).place == Idle
  {
    hide RingGood, LossGood, FenceGood, ButtonsGood, AnyButton, Emptied, Copied;
  }

  lemma {:induction false} FatesAreFinal(ws: seq<World>, steps: seq<Step>, j: nat, k: nat)
    requires IsRun(ws, steps) && j <= k <= |steps|
    ensures ws[j].fates <= ws[k].fates && ws[j].accepted <= ws[k].accepted
    decreases k - j
  {
    hide *;
    RunStart(ws, steps);
    if j < k {
      FatesAreFinal(ws, steps, j, k - 1);
      RunsStayGood(ws, steps, k - 1);
      RunStep(ws, steps, k - 1);
      StepKeepsFates(ws[k - 1], steps[k - 1]);
    }
  }

  /** Between two events at least one more report is settled. */
  lemma {:induction false} EventSettles(ws: seq<World>, steps: seq<Step>, j: nat, k: nat)
    requires IsRun(ws, steps) && j < k <= |steps| && Yields(ws, steps, j)
    ensures ws[k].place.Unlock? && ws[k].place.reply.Event? ==> |ws[k].fates| > |ws[j].fates|
    decreases k
  {
    hide IsRun, Good, Allowed, Next;
    RunsStayGood(ws, steps, k - 1);
    RunStep(ws, steps, k - 1);
    StepKeepsFates(ws[k - 1], steps[k - 1]);
    FatesAreFinal(ws, steps, j, k - 1);
    if j < k - 1 { EventSettles(ws, steps, j, k - 1); }
  }

  /** Over every run and every interleaving: two events are two different reports, the later event
      is the later report, and both are recorded as delivered for good. */
  lemma EventsKeepTheirOrder(ws: seq<World>, steps: seq<Step>, j: nat, k: nat) returns (a: nat, b: nat)
    requires IsRun(ws, steps) && j < k && Yields(ws, steps, j) && Yields(ws, steps, k)
    ensures a < b < |ws[k].fates| && a + 1 == ws[j].taken && b + 1 == ws[k].taken
    ensures ws[k].fates[a] == Delivered == ws[k].fates[b]
  {
    hide IsRun, Good, Allowed, Next, AnyButton, Emptied;
    RunsStayGood(ws, steps, j);
    RunsStayGood(ws, steps, k);
    RepliesMean(ws[j]);
    RepliesMean(ws[k]);
    Settled(ws[j]);
    Settled(ws[k]);
    FatesAreFinal(ws, steps, j, k);
    EventSettles(ws, steps, j, k);
    a, b := ws[j].taken - 1, ws[k].taken - 1;
  }

  lemma Settled(w: World)
    requires Good(w) && w.place.Unlock?
    ensures |w.fates| == w.taken <= |w.accepted|
  {
  }

  // ---- Whole calls ----

  /** A service call from taking the lock to releasing it. */
  ghost predicate WholeCall(ws: seq<World>, steps: seq<Step>) {
    IsRun(ws, steps) && |steps| >= 2 && steps[0].Enter? && steps[0].op <= 2 && !ws[0].lock &&
    (forall k | 1 <= k < |steps| :: ws[k].lock) && steps[|steps| - 1] == Move && !ws[|steps|].lock
  }

  /** Behind the comparison of an event request. */
  predicate Compared(p: Place) {
    p.Check? || p.Read? || p.Advance? || p.Test? || p.Store? || (p.Unlock? && (p.reply.Event? || p.reply.Nothing?))
  }

  lemma StaysInside(w: World, step: Step)
    requires Good(w) && w.lock && Next(w, step).lock
    ensures
      var p, q := w.place, Next(w, step).place;
      !p.Idle? && !q.Idle? && q.call.op == p.call.op && q.call.entry == p.call.entry &&
      (Compared(p) ==> Compared(q) && q.call.from == p.call.from) && (Compared(q) && !Compared(p) ==> p.Compare? && step == Move)
  {
    hide RingGood, FateGood, LossGood, FenceGood, ButtonsGood, AnyButton;
  }

  lemma CallStart(ws: seq<World>, steps: seq<Step>)
    requires WholeCall(ws, steps)
    ensures IsRun(ws, steps) && |ws| == |steps| + 1 && |steps| >= 2 && steps[|steps| - 1] == Move && Good(ws[0]) && Good(ws[|steps| - 1])
    ensures ws[1].place == Forget(Call(steps[0].op, ws[0].lost, 0, 0), 0) && steps[0].Enter? && steps[0].op <= 2
    ensures forall k | 1 <= k < |steps| :: ws[k].lock
    ensures ws[|steps| - 1].place.Unlock? && ws[|steps|] == Next(ws[|steps| - 1], Move)
  {
    var u := |steps| - 1;
    RunsStayGood(ws, steps, u);
    RunStep(ws, steps, u);
    RunStep(ws, steps, 0);
    hide Good, Allowed;
    assert ws[u].lock;
    LeavesFromUnlock(ws[u]);
  }

  lemma LeavesFromUnlock(w: World)
    requires Good(w) && w.lock && !Next(w, Move).lock
    ensures w.place.Unlock?
  {
    hide RingGood, FateGood, LossGood, FenceGood, ButtonsGood, AnyButton;
  }

  lemma {:induction false} EntryKept(ws: seq<World>, steps: seq<Step>, k: nat)
    requires WholeCall(ws, steps) && 1 <= k < |steps|
    ensures Good(ws[k]) && ws[k].lock && !ws[k].place.Idle?
    ensures ws[k].place.call.entry == ws[0].lost && ws[k].place.call.op == steps[0].op
    decreases k
  {
    hide *;
    CallStart(ws, steps);
    RunsStayGood(ws, steps, k);
    if k > 1 {
      EntryKept(ws, steps, k - 1);
      RunStep(ws, steps, k - 1);
      StaysInside(ws[k - 1], steps[k - 1]);
    }
  }

  // ---- Losses ----

  lemma ToldKept(w: World, step: Step)
    requires Good(w) && Allowed(w, step) && Next(w, step).lock && w.lock
    ensures Next(w, step).told == w.told
  {
    hide Good, Allowed, AnyButton;
  }

  lemma {:induction false} ToldInside(ws: seq<World>, steps: seq<Step>, k: nat)
    requires WholeCall(ws, steps) && 1 <= k < |steps|
    ensures ws[k].told == ws[0].told
    decreases k
  {
    hide *;
    CallStart(ws, steps);
    RunStep(ws, steps, k - 1);
    if k > 1 {
      ToldInside(ws, steps, k - 1);
      EntryKept(ws, steps, k - 1);
      ToldKept(ws[k - 1], steps[k - 1]);
    } else {
      EnterTells(ws[0], steps[0]);
    }
  }

  lemma EnterTells(w: World, step: Step)
    requires Sized(w)
    ensures step.Enter? ==> Next(w, step).told == w.told
  {
  }

  /** Every loss from before a call took the lock, disconnections included, has been announced when
      the call returns, and the answer is Lost exactly when the call announces something new. */
  lemma LossesAreAnnounced(ws: seq<World>, steps: seq<Step>)
    requires WholeCall(ws, steps)
    ensures |ws| == |steps| + 1 && ws[|steps|].told >= ws[0].lost
    ensures ws[|steps| - 1].place.Unlock? && (ws[|steps| - 1].place.reply.Lost? <==> ws[|steps|].told > ws[0].told)
  {
    hide *;
    var u := |steps| - 1;
    CallStart(ws, steps);
    ToldInside(ws, steps, u);
    EntryKept(ws, steps, u);
    Told(ws[u], ws[|steps|]);
  }

  lemma Told(w: World, v: World)
    requires Good(w) && w.place.Unlock? && w.place.call.op <= 2 && v == Next(w, Move)
    ensures v.told >= w.place.call.entry && (w.place.reply.Lost? <==> v.told > w.told)
  {
    hide RingGood, FateGood, FenceGood, ButtonsGood, AnyButton;
  }

  // ---- Freshness ----

  lemma FenceStep(w: World, step: Step, id: u32)
    requires Sized(w) && id < CONTROLLERS
    ensures Next(w, step).fence[id] == if step.Unplug? && step.id == id then |w.accepted| else w.fence[id]
  {
    hide AnyButton, Filled;
  }

  lemma SizedGood(w: World)
    requires Good(w)
    ensures Sized(w) && forall id | 0 <= id < CONTROLLERS :: w.fence[id] <= |w.accepted|
  {
  }

  lemma NotBefore(w: World, step: Step, id: u32)
    requires Good(w) && Allowed(w, step) && step == Move && w.place.Compare? && Compared(Next(w, step).place) && id < CONTROLLERS
    ensures w.fence[id] <= w.taken == Next(w, step).place.call.from
  {
    SameResidue(w.seen, w.lost);
  }

  /** Disconnections of mouse `id` behind the comparison, while report `n` was already queued. */
  ghost predicate PulledLate(ws: seq<World>, steps: seq<Step>, d: int, id: u32, n: nat) {
    0 <= d < |steps| && |ws| == |steps| + 1 && steps[d] == Unplug(id) && Compared(ws[d].place) && n < |ws[d].accepted|
  }

  lemma {:induction false} FenceSince(ws: seq<World>, steps: seq<Step>, id: u32, n: nat, k: nat)
    requires WholeCall(ws, steps) && |ws| == |steps| + 1 && 1 <= k < |steps| && id < CONTROLLERS && Good(ws[k]) && ws[k].lock
    requires Compared(ws[k].place) && ws[k].place.call.from <= n
    ensures n < ws[k].fence[id] <==> exists d :: 1 <= d < k && PulledLate(ws, steps, d, id, n)
    decreases k
  {
    hide IsRun, Good, Allowed, Next;
    CallStart(ws, steps);
    if k > 1 {
      EntryKept(ws, steps, k - 1);
      RunStep(ws, steps, k - 1);
      StaysInside(ws[k - 1], steps[k - 1]);
      FenceStep(ws[k - 1], steps[k - 1], id);
      if Compared(ws[k - 1].place) {
        FenceSince(ws, steps, id, n, k - 1);
        SizedGood(ws[k]);
        SizedGood(ws[k - 1]);
        if n < ws[k].fence[id] && steps[k - 1] == Unplug(id) {
          assert PulledLate(ws, steps, k - 1, id, n);
        }
      } else {
        NotBefore(ws[k - 1], steps[k - 1], id);
        forall d | 1 <= d < k ensures !Compared(ws[d].place) { ComparedLater(ws, steps, d, k - 1); }
      }
    }
  }

  /** Once behind the comparison, a call stays there. */
  lemma {:induction false} ComparedLater(ws: seq<World>, steps: seq<Step>, d: nat, k: nat)
    requires WholeCall(ws, steps) && 1 <= d <= k < |steps| && !Compared(ws[k].place)
    ensures !Compared(ws[d].place)
    decreases k
  {
    hide *;
    CallStart(ws, steps);
    if d < k {
      EntryKept(ws, steps, k - 1);
      EntryKept(ws, steps, k);
      RunStep(ws, steps, k - 1);
      StaysInside(ws[k - 1], steps[k - 1]);
      ComparedLater(ws, steps, d, k - 1);
    }
  }

  /** An event is stale, that is, of a report queued before the last disconnection of mouse `id`, if
      and only if an interrupt told of a disconnection of `id` after this very call compared the
      loss counters and while the report was queued. Earlier disconnections never let one through. */
  lemma EventIsFreshIff(ws: seq<World>, steps: seq<Step>, id: u32) returns (n: nat)
    requires WholeCall(ws, steps) && Yields(ws, steps, |steps| - 1) && id < CONTROLLERS
    ensures n + 1 == ws[|steps| - 1].taken && Good(ws[|steps| - 1])
    ensures n < ws[|steps| - 1].fence[id] <==> exists d :: 1 <= d < |steps| - 1 && PulledLate(ws, steps, d, id, n)
  {
    var u := |steps| - 1;
    hide IsRun, Good, Allowed, Next, AnyButton, Emptied;
    CallStart(ws, steps);
    EntryKept(ws, steps, u);
    RepliesMean(ws[u]);
    n := ws[u].taken - 1;
    FenceSince(ws, steps, id, n, u);
  }

  // ---- Buttons ----

  /** The call has looked at the connection bit of mouse `id`. */
  predicate Looked(p: Place, id: nat) {
    match p
    case Idle => false
    case Forget(_, next) => id < next
    case Zero(_, next) => id <= next
    case _ => true
  }

  /** Mouse `id` went away at step `d` of the call and did not come back before step `k`. */
  ghost predicate AwaySince(ws: seq<World>, steps: seq<Step>, d: int, k: int, id: u32) {
    1 <= d < k <= |steps| && steps[d] == Unplug(id) && forall x | d < x < k :: steps[x] != Plug(id)
  }

  lemma GoneStep(w: World, step: Step, id: u32)
    requires Good(w) && id < CONTROLLERS && w.lock && Next(w, step).lock
    ensures
      var v := Next(w, step);
      v.gone[id] ==> step == Unplug(id) || (w.gone[id] && step != Plug(id) && (Looked(v.place, id) ==> Looked(w.place, id)))
    ensures
      var v := Next(w, step);
      v.connected[id] == if step == Unplug(id) then false else if step == Plug(id) then true else w.connected[id]
  {
    hide RingGood, FateGood, ScanGood, LossGood, FenceGood, AnyButton, Filled;
  }

  lemma {:induction false} GoneMeans(ws: seq<World>, steps: seq<Step>, id: u32, k: nat)
    requires WholeCall(ws, steps) && |ws| == |steps| + 1 && 1 <= k < |steps| && id < CONTROLLERS && Sized(ws[k])
    requires Looked(ws[k].place, id) && ws[k].gone[id]
    ensures exists d :: AwaySince(ws, steps, d, k, id)
    decreases k
  {
    hide IsRun, Good, Allowed, Next;
    CallStart(ws, steps);
    if k > 1 {
      EntryKept(ws, steps, k - 1);
      RunStep(ws, steps, k - 1);
      GoneStep(ws[k - 1], steps[k - 1], id);
      if steps[k - 1] == Unplug(id) {
        assert AwaySince(ws, steps, k - 1, k, id);
      } else {
        GoneMeans(ws, steps, id, k - 1);
        var d :| AwaySince(ws, steps, d, k - 1, id);
        assert AwaySince(ws, steps, d, k, id);
      }
    }
  }

  lemma {:induction false} AwayStays(ws: seq<World>, steps: seq<Step>, id: u32, d: nat, k: nat)
    requires WholeCall(ws, steps) && |ws| == |steps| + 1 && k < |steps| && id < CONTROLLERS && Sized(ws[k])
    requires AwaySince(ws, steps, d, k, id)
    ensures !ws[k].connected[id]
    decreases k
  {
    hide IsRun, Good, Allowed, Next;
    CallStart(ws, steps);
    EntryKept(ws, steps, k - 1);
    RunStep(ws, steps, k - 1);
    GoneStep(ws[k - 1], steps[k - 1], id);
    if d < k - 1 {
      assert AwaySince(ws, steps, d, k - 1, id);
      AwayStays(ws, steps, id, d, k - 1);
    }
  }

  /** When a call returns, a mouse that counts as holding buttons is disconnected if and only if it
      was unplugged during this very call and not plugged in again. */
  lemma OnlyConnectedButtonsIff(ws: seq<World>, steps: seq<Step>, id: u32)
    requires WholeCall(ws, steps) && id < CONTROLLERS
    ensures
      var u := |steps| - 1;
      |ws| == |steps| + 1 && Sized(ws[u]) &&
      (ws[u].buttons[id] != 0 ==> (!ws[u].connected[id] <==> exists d :: AwaySince(ws, steps, d, u, id)))
  {
    var u := |steps| - 1;
    hide IsRun, Good, Allowed, Next;
    CallStart(ws, steps);
    SizedGood(ws[u]);
    HeldIsConnected(ws[u], id);
    if ws[u].buttons[id] != 0 {
      if !ws[u].connected[id] {
        GoneMeans(ws, steps, id, u);
      }
      if exists d :: AwaySince(ws, steps, d, u, id) {
        var d :| AwaySince(ws, steps, d, u, id);
        AwayStays(ws, steps, id, d, u);
      }
    }
  }

  lemma HeldIsConnected(w: World, id: u32)
    requires Good(w) && w.place.Unlock? && id < CONTROLLERS
    ensures w.buttons[id] != 0 && !w.connected[id] ==> w.gone[id]
  {
  }
}
