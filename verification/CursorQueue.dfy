/** Mouse packets on their way to the hardware cursor: a 64-slot queue drained in batches that
    the graphics driver may refuse. */
module CursorQueue {
  import opened MachineWords
  import opened Rings

  const QUEUE_SIZE := 64
  const BATCH := 64           // I915_CURSOR_BATCH
  const CONTROLLERS := 4      // MOUSE_CONTROLLER_COUNT
  const REPORT_BYTES := 64
  const CANCELLED: u8 := 255

  type i8 = x: int | -0x80 <= x < 0x80

  datatype Packet = Packet(dx: i8, dy: i8, controller: u8)
  datatype Motion = Motion(dx: i32, dy: i32)
  datatype Point = Point(x: u32, y: u32)

  function Signed(b: u8): i8 {
    if b < 0x80 then b else b - 0x100
  }

  /** A bit of the connection mask. */
  predicate Connected(mask: u32, controller: u8) {
    (controller == 0 && mask % 2 == 1) || (controller == 1 && mask / 2 % 2 == 1) ||
    (controller == 2 && mask / 4 % 2 == 1) || (controller == 3 && mask / 8 % 2 == 1)
  }

  function Power(n: nat): (r: nat)
    ensures r > 0
  {
    if n == 0 then 1 else 2 * Power(n - 1)
  }

  /** Mouse `controller` is connected if and only if that bit of the mask is set. */
  lemma ConnectedIsBit(mask: u32, controller: u8)
    ensures Connected(mask, controller) <==> controller < 4 && mask / Power(controller) % 2 == 1
  {
    assert Power(1) == 2 && Power(2) == 4 && Power(3) == 8;
  }

  lemma ConnectedController(mask: u32, controller: u8)
    ensures Connected(mask, controller) ==> controller < CONTROLLERS
  {
  }

  // ---- Cursor movement ----

  /** Stay within 0..limit-1. */
  function Clamp(p: int, limit: u32): (r: u32)
    requires limit > 0
    ensures r < limit
  {
    if p < 0 then 0 else if p >= limit then limit - 1 else p
  }

  /** Where an axis ends up: an off-screen position first snaps to the edge. */
  function MovedAxis(position: u32, delta: i32, limit: u32): (r: u32)
    requires limit > 0
    ensures r < limit
  {
    Clamp(Clamp(position, limit) + delta, limit)
  }

  predicate ScreenSize(n: u32) {
    0 < n <= 2048
  }

  /** intel915_move_axis, for every delta including the most negative one. */
  method MoveAxis(position: u32, delta: i32, limit: u32) returns (r: u32)
    ensures ScreenSize(limit) ==> r == MovedAxis(position, delta, limit)
    ensures !ScreenSize(limit) ==> r == 0
    ensures 0 < limit <= 2048 ==>
      var to := (if position < limit then position else limit - 1) + delta;
      (0 <= to < limit ==> r == to) && (to < 0 ==> r == 0) && (to >= limit ==> r == limit - 1)
  {
    if limit == 0 || limit > 2048 {
      return 0;
    }
    var at := position;
    if at >= limit {
      at := limit - 1;
    }
    if delta < 0 {
      var distance := (0 - (delta + WORD)) % WORD;
      return if distance > at then 0 else at - distance;
    }
    return if delta >= limit - at then limit - 1 else at + delta;
  }

  function Moved(p: Point, m: Motion, width: u32, height: u32): Point
    requires width > 0 && height > 0
  {
    Point(MovedAxis(p.x, m.dx, width), MovedAxis(p.y, m.dy, height))
  }

  /** One motion at a time, in order. */
  function Path(p: Point, ms: seq<Motion>, width: u32, height: u32): Point
    requires width > 0 && height > 0
  {
    if ms == [] then p else Moved(Path(p, ms[..|ms| - 1], width, height), ms[|ms| - 1], width, height)
  }

  lemma {:induction false} PathConcat(p: Point, a: seq<Motion>, b: seq<Motion>, width: u32, height: u32)
    requires width > 0 && height > 0
    ensures Path(p, a + b, width, height) == Path(Path(p, a, width, height), b, width, height)
    decreases |b|
  {
    if b == [] {
      assert a + b == a;
    } else {
      assert (a + b)[..|a + b| - 1] == a + b[..|b| - 1];
      PathConcat(p, a, b[..|b| - 1], width, height);
    }
  }

  function SumX(ms: seq<Motion>): int {
    if ms == [] then 0 else SumX(ms[..|ms| - 1]) + ms[|ms| - 1].dx
  }

  function SumY(ms: seq<Motion>): int {
    if ms == [] then 0 else SumY(ms[..|ms| - 1]) + ms[|ms| - 1].dy
  }

  /** As long as no edge is hit the displacements add up, each axis with its own. */
  lemma {:induction false} PathAddsUp(p: Point, ms: seq<Motion>, width: u32, height: u32)
    requires width > 0 && height > 0
    requires forall k | 0 <= k <= |ms| :: 0 <= p.x + SumX(ms[..k]) < width && 0 <= p.y + SumY(ms[..k]) < height
    ensures Path(p, ms, width, height).x == p.x + SumX(ms) && Path(p, ms, width, height).y == p.y + SumY(ms)
    decreases |ms|
  {
    assert ms[..|ms|] == ms && (ms == [] ==> ms[..0] == []);
    if ms != [] {
      var front := ms[..|ms| - 1];
      forall k | 0 <= k <= |front| ensures 0 <= p.x + SumX(front[..k]) < width && 0 <= p.y + SumY(front[..k]) < height {
        assert front[..k] == ms[..k];
      }
      PathAddsUp(p, front, width, height);
    }
  }

  // ---- Queue contents ----

  predicate Acceptable(controller: u32, data: seq<u8>) {
    controller < CONTROLLERS && 3 <= |data| <= REPORT_BYTES && (data[1] != 0 || data[2] != 0)
  }

  function PacketOf(controller: u32, data: seq<u8>): Packet
    requires Acceptable(controller, data)
  {
    Packet(Signed(data[1]), Signed(data[2]), controller)
  }

  function Enqueued(c: seq<Packet>, controller: u32, data: seq<u8>): seq<Packet> {
    if Acceptable(controller, data) && |c| < QUEUE_SIZE - 1 then c + [PacketOf(controller, data)] else c
  }

  function CancelOne(p: Packet, controller: u32): Packet {
    if p.controller == controller then Packet(p.dx, p.dy, CANCELLED) else p
  }

  function Cancelled(c: seq<Packet>, controller: u32): (r: seq<Packet>)
    ensures |r| == |c|
  {
    seq(|c|, i requires 0 <= i < |c| => CancelOne(c[i], controller))
  }

  /** The motions a drain submits: those of connected controllers, in order. */
  function Live(c: seq<Packet>, mask: u32): (r: seq<Motion>)
    ensures |r| <= |c|
  {
    if c == [] then []
    else
      var front, p := Live(c[..|c| - 1], mask), c[|c| - 1];
      if Connected(mask, p.controller) then front + [Motion(p.dx, p.dy)] else front
  }

  lemma LiveAppend(c: seq<Packet>, p: Packet, mask: u32)
    ensures Live(c + [p], mask) == if Connected(mask, p.controller) then Live(c, mask) + [Motion(p.dx, p.dy)] else Live(c, mask)
  {
    assert (c + [p])[..|c|] == c;
  }

  // ---- The graphics side ----

  class Cursor {
    var width: u32
    var height: u32
    var x: u32
    var y: u32
    var busy: bool       // submission lock
    var drawable: bool   // drawn, enabled, pipe and cursor page valid

    constructor (width: u32, height: u32, x: u32, y: u32)
      ensures this.width == width && this.height == height && Position() == Point(x, y) && !busy && !drawable
    {
      this.width, this.height, this.x, this.y := width, height, x, y;
      busy, drawable := false, false;
    }

    function Position(): Point
      reads this
    {
      Point(x, y)
    }

    predicate Accepts()
      reads this
    {
      !busy && drawable && ScreenSize(width) && ScreenSize(height)
    }

    /** intel915_cursor_flush: all motions or none. */
    method Flush(motions: seq<Motion>) returns (ok: bool)
      modifies this`x, this`y
      ensures ok <==> Accepts() && 0 < |motions| <= BATCH
      ensures Position() == if ok then Path(old(Position()), motions, width, height) else old(Position())
    {
      if |motions| == 0 || |motions| > BATCH || busy {
        return false;
      }
      if !(drawable && width != 0 && width <= 2048 && height != 0 && height <= 2048) {
        return false;
      }
      var nx, ny := x, y;
      var i := 0;
      ghost var start := Position();
      while i < |motions|
        invariant 0 <= i <= |motions| && Point(nx, ny) == Path(start, motions[..i], width, height)
      {
        assert motions[..i + 1][..i] == motions[..i];
        nx := MoveAxis(nx, motions[i].dx, width);
        ny := MoveAxis(ny, motions[i].dy, height);
        i := i + 1;
      }
      assert motions[..i] == motions;
      if nx != x || ny != y {
        x, y := nx, ny;
      }
      return true;
    }
  }

  // ---- The queue ----

  function Larger(a: nat, b: nat): nat {
    if a < b then b else a
  }

  /** 1 for a report with a displacement at either end of its range. */
  function Extreme(data: seq<u8>): nat
    requires |data| >= 3
  {
    if Signed(data[1]) in {127, -128} || Signed(data[2]) in {127, -128} then 1 else 0
  }

  /** The packet holds the two displacement bytes as signed numbers. */
  ghost predicate Carries(p: Packet, controller: u32, data: seq<u8>) {
    |data| >= 3 && p.controller == controller && (p.dx - data[1]) % 256 == 0 && (p.dy - data[2]) % 256 == 0
  }

  class PacketQueue {
    const packets: array<Packet>
    var head: nat
    var tail: nat
    var dropped: nat
    var peak: nat          // most packets ever pending
    var saturated: nat     // accepted reports at the end of the displacement range
    var flushes: nat
    var retries: nat

    ghost predicate Valid()
      reads this
    {
      packets.Length == QUEUE_SIZE && head < QUEUE_SIZE && tail < QUEUE_SIZE
    }

    ghost function Contents(): (c: seq<Packet>)
      reads this, packets
      requires Valid()
      ensures |c| < QUEUE_SIZE
    {
      Segment(packets[..], tail, head)
    }

    constructor ()
      ensures Valid() && fresh(packets) && Contents() == []
    {
      packets := new Packet[QUEUE_SIZE](_ => Packet(0, 0, 0));
      head, tail, dropped, peak, saturated, flushes, retries := 0, 0, 0, 0, 0, 0, 0;
    }

    /** The statistics of an accepted report. */
    method Tally(data: seq<u8>)
      requires Valid() && |data| >= 3
      modifies this`peak, this`saturated
      ensures peak == Larger(old(peak), |Contents()|) && saturated == old(saturated) + Extreme(data)
    {
      var pending := Distance(tail, head, QUEUE_SIZE);
      if pending > peak {
        peak := pending;
      }
      if data[1] == 0x7F || data[1] == 0x80 || data[2] == 0x7F || data[2] == 0x80 {
        saturated := saturated + 1;
      }
    }

    /** mouse_cursor_enqueue. */
    method Enqueue(controller: u32, data: seq<u8>)
      requires Valid()
      modifies this`head, this`dropped, this`peak, this`saturated, packets
      ensures Valid() && Contents() == Enqueued(old(Contents()), controller, data)
      ensures dropped == old(dropped) + if Acceptable(controller, data) && |old(Contents())| == QUEUE_SIZE - 1 then 1 else 0
      ensures
        if controller < 4 && 3 <= |data| <= 64 && (data[1] != 0 || data[2] != 0) && |old(Contents())| < 63
        then |Contents()| == |old(Contents())| + 1 && Contents()[..|old(Contents())|] == old(Contents()) && Carries(Contents()[|old(Contents())|], controller, data)
        else Contents() == old(Contents())
      ensures
        if |Contents()| > |old(Contents())|
        then peak == Larger(old(peak), |Contents()|) && saturated == old(saturated) + Extreme(data)
        else peak == old(peak) && saturated == old(saturated)
    {
      EnqueuedMeans(Contents(), controller, data);
      hide Segment, Enqueued, Acceptable, Carries, Extreme;
      Put(controller, data);
    }

    method Put(controller: u32, data: seq<u8>)
      requires Valid()
      modifies this`head, this`dropped, this`peak, this`saturated, packets
      ensures Valid() && Contents() == Enqueued(old(Contents()), controller, data)
      ensures dropped == old(dropped) + if Acceptable(controller, data) && |old(Contents())| == QUEUE_SIZE - 1 then 1 else 0
      ensures
        if |Contents()| > |old(Contents())|
        then peak == Larger(old(peak), |Contents()|) && saturated == old(saturated) + Extreme(data)
        else peak == old(peak) && saturated == old(saturated)
    {
      if controller >= CONTROLLERS || |data| < 3 || |data| > REPORT_BYTES || (data[1] == 0 && data[2] == 0) {
        return;
      }
      var next := (head + 1) % QUEUE_SIZE;
      assert next == Next(head, QUEUE_SIZE);
      if next == tail {
        dropped := dropped + 1;
        return;
      }
      var packet := Packet(Signed(data[1]), Signed(data[2]), controller);
      SegmentExtended(packets[..], tail, head, packet);
      packets[head] := packet;
      assert packets[..] == old(packets[..])[head := packet];
      head := next;
      Tally(data);
    }

    /** mouse_cursor_cancel. */
    method Cancel(controller: u32)
      requires Valid()
      modifies packets
      ensures Valid() && Contents() == Cancelled(old(Contents()), controller)
      ensures |Contents()| == |old(Contents())| && forall k | 0 <= k < |Contents()| ::
        var p, q := old(Contents())[k], Contents()[k];
        q.dx == p.dx && q.dy == p.dy && q.controller == if p.controller == controller then 255 else p.controller
    {
      var i := tail;
      ghost var done, n := 0, Distance(tail, head, QUEUE_SIZE);
      while i != head
        invariant done <= n && i == (if done == n then head else At(tail, done, QUEUE_SIZE))
        invariant forall k | 0 <= k < done :: packets[At(tail, k, QUEUE_SIZE)] == CancelOne(old(packets[At(tail, k, QUEUE_SIZE)]), controller)
        invariant forall k | done <= k < n :: packets[At(tail, k, QUEUE_SIZE)] == old(packets[At(tail, k, QUEUE_SIZE)])
        decreases n - done
      {
        if packets[i].controller == controller {
          packets[i] := packets[i].(controller := CANCELLED);
        }
        i := (i + 1) % QUEUE_SIZE;
        done := done + 1;
      }
      forall k | 0 <= k < n ensures Contents()[k] == Cancelled(old(Contents()), controller)[k] {
        SegmentAt(packets[..], tail, head, k);
        SegmentAt(old(packets[..]), tail, head, k);
      }
    }

    /** The collecting loop of mouse_cursor_drain: every pending packet is looked at. */
    method Collect(connected: u32) returns (motions: seq<Motion>, at: nat)
      requires Valid()
      ensures motions == Live(Contents(), connected) && at == head
    {
      NothingSeen(packets[..], tail, head);
      hide Connected, Segment, Next, Distance, Live;
      motions, at := [], tail;
      var scanned := 0;
      ghost var seen: seq<Packet>, image := [], packets[..];
      while scanned < BATCH && at != head
        invariant 0 <= scanned <= BATCH && at < QUEUE_SIZE && |seen| == scanned
        invariant Segment(image, tail, head) == seen + Segment(image, at, head) && motions == Live(seen, connected)
        decreases BATCH - scanned
      {
        var packet := packets[at];
        LiveAppend(seen, packet, connected);
        ConnectedController(connected, packet.controller);
        if packet.controller < CONTROLLERS && Connected(connected, packet.controller) {
          motions := motions + [Motion(packet.dx, packet.dy)];
        }
        OneSeen(image, at, head, seen);
        seen := seen + [packet];
        at := (at + 1) % QUEUE_SIZE;
        scanned := scanned + 1;
      }
      NothingSeen(image, at, at);
      assert seen + [] == seen;
    }

    /** mouse_cursor_drain; no cursor stands for a missing submit callback. A refused drain changes
        no packet, index or position; an accepted one empties the queue and moves the cursor as if
        its packets had been applied one by one. */
    method Drain(connected: u32, cursor: Cursor?) returns (count: nat)
      requires Valid()
      modifies this`tail, this`flushes, this`retries, (if cursor == null then {} else {cursor})`x, (if cursor == null then {} else {cursor})`y
      ensures Valid()
      ensures
        var live, refused := Live(old(Contents()), connected), cursor == null || !cursor.Accepts();
        if live != [] && refused then count == 0 && tail == old(tail) && Contents() == old(Contents())
        else count == |live| && tail == head && Contents() == []
      ensures flushes == old(flushes) + if count != 0 then 1 else 0
      ensures retries == old(retries) + if Live(old(Contents()), connected) != [] && count == 0 then 1 else 0
      ensures cursor != null ==>
        var live, start := Live(old(Contents()), connected), old(cursor.Position());
        cursor.Position() == if live != [] && cursor.Accepts() then Path(start, live, cursor.width, cursor.height) else start
    {
      var motions, at := Collect(connected);
      count := |motions|;
      if count != 0 {
        var ok := false;
        if cursor != null {
          ok := cursor.Flush(motions);
        }
        if !ok {
          retries := retries + 1;
          return 0;
        }
        flushes := flushes + 1;
      }
      tail := at;
    }
  }

  lemma EnqueuedMeans(c: seq<Packet>, controller: u32, data: seq<u8>)
    requires |c| < QUEUE_SIZE
    ensures
      var e := Enqueued(c, controller, data);
      if controller < 4 && 3 <= |data| <= 64 && (data[1] != 0 || data[2] != 0) && |c| < 63
      then |e| == |c| + 1 && e[..|c|] == c && Carries(e[|c|], controller, data)
      else e == c
  {
  }

  lemma NothingSeen(packets: seq<Packet>, tail: nat, head: nat)
    requires |packets| == QUEUE_SIZE && tail < QUEUE_SIZE && head < QUEUE_SIZE
    ensures Live([], 0) == [] && (forall mask: u32 :: Live([], mask) == []) && [] + Segment(packets, tail, head) == Segment(packets, tail, head)
    ensures tail == head ==> Segment(packets, tail, head) == []
    ensures |Segment(packets, tail, head)| < QUEUE_SIZE
  {
  }

  lemma OneSeen(packets: seq<Packet>, at: nat, head: nat, seen: seq<Packet>)
    requires |packets| == QUEUE_SIZE && at < QUEUE_SIZE && head < QUEUE_SIZE && at != head
    ensures (at + 1) % QUEUE_SIZE < QUEUE_SIZE
    ensures seen + Segment(packets, at, head) == (seen + [packets[at]]) + Segment(packets, (at + 1) % QUEUE_SIZE, head)
  {
    assert (at + 1) % QUEUE_SIZE == Next(at, QUEUE_SIZE);
  }

  // ---- Whole runs ----

  datatype Op = Report(controller: u32, data: seq<u8>) | Cancel(controller: u32) | Drain(connected: u32, ready: bool)

  /** `accepted` is every packet ever queued, `kept` the fate of those that left the queue, and
      `applied` the motions the cursor received. */
  datatype World = World(contents: seq<Packet>, position: Point, accepted: seq<Packet>, kept: seq<bool>, applied: seq<Motion>)

  function KeptOf(c: seq<Packet>, mask: u32): (r: seq<bool>)
    ensures |r| == |c|
  {
    seq(|c|, i requires 0 <= i < |c| => Connected(mask, c[i].controller))
  }

  function Stepped(w: World, op: Op, width: u32, height: u32): World
    requires width > 0 && height > 0
  {
    match op
    case Report(controller, data) =>
      World(Enqueued(w.contents, controller, data), w.position,
            if Acceptable(controller, data) && |w.contents| < QUEUE_SIZE - 1 then w.accepted + [PacketOf(controller, data)] else w.accepted,
            w.kept, w.applied)
    case Cancel(controller) => World(Cancelled(w.contents, controller), w.position, w.accepted, w.kept, w.applied)
    case Drain(connected, ready) =>
      if Live(w.contents, connected) != [] && !ready then w
      else World([], Path(w.position, Live(w.contents, connected), width, height), w.accepted,
                 w.kept + KeptOf(w.contents, connected), w.applied + Live(w.contents, connected))
  }

  function After(w: World, ops: seq<Op>, width: u32, height: u32): World
    requires width > 0 && height > 0
    decreases |ops|
  {
    if ops == [] then w else Stepped(After(w, ops[..|ops| - 1], width, height), ops[|ops| - 1], width, height)
  }

  /** The motions of the packets whose flag is set, in order. */
  function Survivors(ps: seq<Packet>, kept: seq<bool>): seq<Motion>
    requires |ps| == |kept|
  {
    if ps == [] then []
    else
      var front := Survivors(ps[..|ps| - 1], kept[..|ps| - 1]);
      if kept[|ps| - 1] then front + [Motion(ps[|ps| - 1].dx, ps[|ps| - 1].dy)] else front
  }

  /** What is queued are the packets accepted last, in order, some marked cancelled; what moved
      the cursor are the surviving earlier ones, applied one at a time from `start`. */
  ghost predicate Batched(w: World, start: Point, width: u32, height: u32)
    requires width > 0 && height > 0
  {
    var first := |w.kept|;
    first + |w.contents| == |w.accepted| && |w.contents| < QUEUE_SIZE && (forall i | 0 <= i < |w.accepted| :: w.accepted[i].controller < CONTROLLERS) &&
    (forall i | 0 <= i < |w.contents| ::
      w.contents[i] == w.accepted[first + i] || w.contents[i] == w.accepted[first + i].(controller := CANCELLED)) &&
    w.applied == Survivors(w.accepted[..first], w.kept) && w.position == Path(start, w.applied, width, height)
  }

  lemma {:induction false} SurvivorsConcat(a: seq<Packet>, ka: seq<bool>, b: seq<Packet>, kb: seq<bool>)
    requires |a| == |ka| && |b| == |kb|
    ensures Survivors(a + b, ka + kb) == Survivors(a, ka) + Survivors(b, kb)
    decreases |b|
  {
    if b == [] {
      assert a + b == a && ka + kb == ka;
    } else {
      assert (a + b)[..|a + b| - 1] == a + b[..|b| - 1] && (ka + kb)[..|a + b| - 1] == ka + kb[..|b| - 1];
      SurvivorsConcat(a, ka, b[..|b| - 1], kb[..|b| - 1]);
    }
  }

  /** Cancelling changes no displacement. */
  lemma {:induction false} LiveIsSurvivors(c: seq<Packet>, original: seq<Packet>, mask: u32)
    requires |c| == |original| && forall i | 0 <= i < |c| :: c[i].dx == original[i].dx && c[i].dy == original[i].dy
    ensures Live(c, mask) == Survivors(original, KeptOf(c, mask))
    decreases |c|
  {
    if c != [] {
      assert KeptOf(c, mask)[..|c| - 1] == KeptOf(c[..|c| - 1], mask);
      LiveIsSurvivors(c[..|c| - 1], original[..|c| - 1], mask);
    }
  }

  lemma DrainKeepsBatched(w: World, connected: u32, start: Point, width: u32, height: u32)
    requires width > 0 && height > 0 && Batched(w, start, width, height)
    ensures Batched(Stepped(w, Drain(connected, true), width, height), start, width, height)
  {
    hide Live, KeptOf, Survivors, Path;
    var first := |w.kept|;
    var gone, waiting, flags := w.accepted[..first], w.accepted[first..], KeptOf(w.contents, connected);
    LiveIsSurvivors(w.contents, waiting, connected);
    SurvivorsConcat(gone, w.kept, waiting, flags);
    assert gone + waiting == w.accepted == w.accepted[..|w.accepted|];
    PathConcat(start, w.applied, Live(w.contents, connected), width, height);
  }

  /** Every operation keeps the account. */
  lemma StepKeepsBatched(w: World, op: Op, start: Point, width: u32, height: u32)
    requires width > 0 && height > 0 && Batched(w, start, width, height)
    ensures Batched(Stepped(w, op, width, height), start, width, height)
  {
    match op {
      case Report(controller, data) =>
        var v := Stepped(w, op, width, height);
        assert v.accepted[..|w.kept|] == w.accepted[..|w.kept|];
      case Cancel(controller) =>
      case Drain(connected, ready) => DrainKeepsBatched(w, connected, start, width, height);
    }
  }

  /** Batching is invisible: after any mix of reports, cancellations, refused and accepted drains
      the cursor is where applying the surviving packets one at a time, in arrival order, puts it. */
  lemma {:induction false} BatchingIsInvisible(w: World, ops: seq<Op>, start: Point, width: u32, height: u32)
    requires width > 0 && height > 0 && Batched(w, start, width, height)
    ensures Batched(After(w, ops, width, height), start, width, height)
    ensures
      var v := After(w, ops, width, height);
      v.position == Path(start, Survivors(v.accepted[..|v.kept|], v.kept), width, height)
    decreases |ops|
  {
    if ops != [] {
      BatchingIsInvisible(w, ops[..|ops| - 1], start, width, height);
      StepKeepsBatched(After(w, ops[..|ops| - 1], width, height), ops[|ops| - 1], start, width, height);
    }
  }

  /** Once on screen the cursor stays there, for all 32-bit displacements; any motion at all
      brings it there. */
  lemma {:induction false} StaysOnScreen(p: Point, ms: seq<Motion>, width: u32, height: u32)
    requires width > 0 && height > 0
    ensures (p.x < width && p.y < height) || ms != [] ==>
      Path(p, ms, width, height).x < width && Path(p, ms, width, height).y < height
  {
    if ms != [] { StaysOnScreen(p, ms[..|ms| - 1], width, height); }
  }

  /** Packet number `n` was cancelled while it waited: it still waits with its mark, or it has
      left the queue without moving the cursor. */
  ghost predicate Void(w: World, n: nat) {
    if n < |w.kept| then !w.kept[n]
    else n - |w.kept| < |w.contents| && w.contents[n - |w.kept|].controller == CANCELLED
  }

  lemma StepKeepsVoid(w: World, op: Op, n: nat, width: u32, height: u32)
    requires width > 0 && height > 0 && Void(w, n)
    ensures Void(Stepped(w, op, width, height), n)
  {
    hide Live, Path;
  }

  /** A packet cancelled while it waits never moves the cursor, in whatever run follows: mice may
      come back, and drains may be refused and repeated. */
  lemma {:induction false} CancelledNeverMoves(w: World, controller: u32, ops: seq<Op>, n: nat, width: u32, height: u32)
    requires width > 0 && height > 0 && |w.kept| <= n < |w.kept| + |w.contents| && w.contents[n - |w.kept|].controller == controller
    ensures
      var v := After(Stepped(w, Cancel(controller), width, height), ops, width, height);
      Void(v, n) && (n < |v.kept| ==> !v.kept[n])
    decreases |ops|
  {
    var c := Stepped(w, Cancel(controller), width, height);
    if ops != [] {
      CancelledNeverMoves(w, controller, ops[..|ops| - 1], n, width, height);
      StepKeepsVoid(After(c, ops[..|ops| - 1], width, height), ops[|ops| - 1], n, width, height);
    }
  }

  /** Waiting packet `n` of `w` carries its own mark or none. */
  predicate Marked(w: World, n: nat) {
    |w.kept| <= n < |w.kept| + |w.contents| && w.contents[n - |w.kept|].controller == 255
  }

  /** What one operation does to a waiting packet: a cancellation marks exactly the packets of its
      mouse; a drain that goes through takes it, and it moves the cursor exactly if it carries no mark
      and its mouse is connected; nothing else touches it. */
  lemma FateOfPacket(w: World, op: Op, n: nat, start: Point, width: u32, height: u32)
    requires width > 0 && height > 0 && Batched(w, start, width, height) && |w.kept| <= n < |w.accepted|
    ensures
      var v := Stepped(w, op, width, height);
      match op
      case Report(_, _) => n >= |v.kept| && (Marked(v, n) <==> Marked(w, n))
      case Cancel(controller) => n >= |v.kept| && (Marked(v, n) <==> Marked(w, n) || w.accepted[n].controller == controller)
      case Drain(connected, ready) =>
        if n < |v.kept| then v.kept[n] <==> !Marked(w, n) && Connected(connected, w.accepted[n].controller)
        else v == w && !ready
  {
    hide Live, Path, Survivors;
    var p := w.contents[n - |w.kept|];
    assert p == w.accepted[n] || p == w.accepted[n].(controller := CANCELLED);
  }
}
