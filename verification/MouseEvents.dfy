/** The mouse event queue between the USB report callback and the user-side service: reports are
    handed out as events in order, and movement queued before a disconnection never comes out. */
module MouseEvents {
  import opened MachineWords
  import opened Rings

  const QUEUE_SIZE := 32
  const CONTROLLERS := 4
  const REPORT_BYTES := 64

  /** Three button bits. */
  type ButtonMask = b: nat | b < 8

  datatype Report = Report(controller: u32, data: seq<u8>)

  datatype Reply = BadRequest | Lost | Devices(connected: seq<bool>) | Buttons(down: ButtonMask)
                 | Event(controller: u32, dx: u8, dy: u8, buttons: ButtonMask) | Nothing

  /** The shared page, the ring as the sequence of waiting reports. */
  datatype Mouse = Mouse(waiting: seq<Report>, dropped: u32, observed: u32, connected: seq<bool>, buttons: seq<ButtonMask>)

  predicate Shape(m: Mouse) {
    |m.connected| == CONTROLLERS && |m.buttons| == CONTROLLERS && |m.waiting| < QUEUE_SIZE
  }

  // ---- The operations as functions ----

  predicate Storable(r: Report) {
    r.controller < CONTROLLERS && |r.data| <= REPORT_BYTES
  }

  /** mouse_queue_report. */
  function Queued(m: Mouse, r: Report): Mouse {
    if !Storable(r) then m
    else if |m.waiting| >= QUEUE_SIZE - 1 then m.(dropped := (m.dropped + 1) % WORD)
    else m.(waiting := m.waiting + [r])
  }

  /** mouse_receive on a connection event. */
  function Plugged(m: Mouse, id: u32): Mouse {
    if id < |m.connected| then m.(connected := m.connected[id := true]) else m
  }

  /** mouse_receive on a disconnection event: the counter makes the service drop what is queued. */
  function Unplugged(m: Mouse, id: u32): Mouse {
    if id < |m.connected| then m.(connected := m.connected[id := false], dropped := (m.dropped + 1) % WORD) else m
  }

  /** A report that becomes an event: whole, and its controller still connected. */
  predicate Deliverable(r: Report, connected: seq<bool>) {
    r.controller < |connected| && 3 <= |r.data| <= REPORT_BYTES && connected[r.controller]
  }

  function FirstDeliverable(rs: seq<Report>, connected: seq<bool>): (i: nat)
    ensures i <= |rs| && (i < |rs| ==> Deliverable(rs[i], connected))
    ensures forall j | 0 <= j < i :: !Deliverable(rs[j], connected)
  {
    if rs == [] || Deliverable(rs[0], connected) then 0 else 1 + FirstDeliverable(rs[1..], connected)
  }

  function Forgotten(buttons: seq<ButtonMask>, connected: seq<bool>): (r: seq<ButtonMask>)
    requires |buttons| == |connected|
    ensures |r| == |buttons|
  {
    seq(|buttons|, i requires 0 <= i < |buttons| => if connected[i] then buttons[i] else 0)
  }

  function Released(): seq<ButtonMask> {
    [0, 0, 0, 0]
  }

  /** Bitwise or of two button masks. */
  function Or(a: ButtonMask, b: ButtonMask): ButtonMask {
    (if a % 2 + b % 2 > 0 then 1 else 0) + (if a / 2 % 2 + b / 2 % 2 > 0 then 2 else 0) + (if a / 4 + b / 4 > 0 then 4 else 0)
  }

  function AnyButton(buttons: seq<ButtonMask>): ButtonMask
    requires |buttons| == CONTROLLERS
  {
    Or(Or(Or(buttons[0], buttons[1]), buttons[2]), buttons[3])
  }

  predicate Bit(mask: ButtonMask, bit: nat)
    requires bit < 3
  {
    if bit == 0 then mask % 2 == 1 else if bit == 1 then mask / 2 % 2 == 1 else mask / 4 == 1
  }

  /** A button is down if and only if some mouse holds it. */
  lemma AnyButtonMeans(buttons: seq<ButtonMask>, bit: nat)
    requires |buttons| == CONTROLLERS && bit < 3
    ensures Bit(AnyButton(buttons), bit) <==> exists i :: 0 <= i < CONTROLLERS && Bit(buttons[i], bit)
  {
    OrMeans(buttons[0], buttons[1], bit);
    OrMeans(Or(buttons[0], buttons[1]), buttons[2], bit);
    OrMeans(Or(Or(buttons[0], buttons[1]), buttons[2]), buttons[3], bit);
    hide Or, Bit;
    assert Bit(AnyButton(buttons), bit) <==> Bit(buttons[0], bit) || Bit(buttons[1], bit) || Bit(buttons[2], bit) || Bit(buttons[3], bit);
  }

  lemma OrMeans(a: ButtonMask, b: ButtonMask, bit: nat)
    requires bit < 3
    ensures Bit(Or(a, b), bit) <==> Bit(a, bit) || Bit(b, bit)
  {
  }

  /** Reading an event: the first deliverable report and everything before it leave the ring. */
  function EventRead(m: Mouse): (Mouse, Reply)
    requires Shape(m)
  {
    var i := FirstDeliverable(m.waiting, m.connected);
    if i == |m.waiting| then (m.(waiting := []), Nothing)
    else
      var r := m.waiting[i];
      (m.(waiting := m.waiting[i + 1..], buttons := m.buttons[r.controller := r.data[0] % 8]),
       Event(r.controller, r.data[1], r.data[2], r.data[0] % 8))
  }

  /** mouse_process_request: 0 reads an event, 1 the buttons, 2 the connected devices. */
  function Requested(m: Mouse, operation: u32): (Mouse, Reply)
    requires Shape(m)
  {
    var held := Forgotten(m.buttons, m.connected);
    if operation > 2 then (m, BadRequest)
    else if m.observed != m.dropped then (m.(waiting := [], observed := m.dropped, buttons := Released()), Lost)
    else if operation == 2 then (m.(buttons := held), Devices(m.connected))
    else if operation == 1 then (m.(buttons := held), Buttons(AnyButton(held)))
    else EventRead(m.(buttons := held))
  }

  /** What each request answers: after a loss only that there was one, once; otherwise the connection
      mask, the buttons some connected mouse holds, or the first whole report of a connected mouse. */
  lemma RequestedMeans(m: Mouse, operation: u32)
    requires Shape(m)
    ensures operation > 2 ==> Requested(m, operation) == (m, BadRequest)
    ensures operation <= 2 && m.observed != m.dropped ==>
      var (n, reply) := Requested(m, operation);
      reply == Lost && n == Mouse([], m.dropped, m.dropped, m.connected, [0, 0, 0, 0])
    ensures operation == 2 && m.observed == m.dropped ==>
      var (n, reply) := Requested(m, operation);
      reply == Devices(m.connected) && n.waiting == m.waiting
    ensures operation == 1 && m.observed == m.dropped ==>
      var (n, reply) := Requested(m, operation);
      n.waiting == m.waiting && reply.Buttons? &&
      forall bit | 0 <= bit < 3 :: Bit(reply.down, bit) <==> SomeHolds(m, bit)
    ensures operation == 0 && m.observed == m.dropped ==>
      var (n, reply) := Requested(m, operation);
      if forall i | 0 <= i < |m.waiting| :: !Deliverable(m.waiting[i], m.connected) then reply == Nothing && n.waiting == []
      else exists i :: FirstWhole(m, i) && n.waiting == m.waiting[i + 1..] && reply == EventOf(m.waiting[i])
  {
    var held := Forgotten(m.buttons, m.connected);
    hide AnyButton, Deliverable, Bit;
    if operation == 1 && m.observed == m.dropped {
      forall bit | 0 <= bit < 3 ensures Bit(AnyButton(held), bit) <==> SomeHolds(m, bit) {
        AnyButtonMeans(held, bit);
        HeldMeans(m, held, bit);
      }
    }
    if operation == 0 && m.observed == m.dropped {
      var i := FirstDeliverable(m.waiting, m.connected);
      if i < |m.waiting| { assert FirstWhole(m, i); }
    }
  }

  predicate SomeHolds(m: Mouse, bit: nat)
    requires bit < 3 && Shape(m)
  {
    exists i :: 0 <= i < CONTROLLERS && m.connected[i] && Bit(m.buttons[i], bit)
  }

  ghost predicate FirstWhole(m: Mouse, i: int) {
    0 <= i < |m.waiting| && Deliverable(m.waiting[i], m.connected) && forall j | 0 <= j < i :: !Deliverable(m.waiting[j], m.connected)
  }

  /** Displacements and the three buttons of a whole report. */
  function EventOf(r: Report): Reply {
    if |r.data| >= 3 then Event(r.controller, r.data[1], r.data[2], r.data[0] % 8) else Nothing
  }

  lemma HeldMeans(m: Mouse, held: seq<ButtonMask>, bit: nat)
    requires Shape(m) && bit < 3 && held == Forgotten(m.buttons, m.connected)
    ensures (exists i :: 0 <= i < CONTROLLERS && Bit(held[i], bit)) <==> SomeHolds(m, bit)
  {
    assert !Bit(0, bit);
    hide Bit;
    if i :| 0 <= i < CONTROLLERS && Bit(held[i], bit) { assert held[i] == m.buttons[i]; }
    if i :| 0 <= i < CONTROLLERS && m.connected[i] && Bit(m.buttons[i], bit) { assert held[i] == m.buttons[i]; }
  }

  // ---- The shared page ----

  class MouseShared {
    const packets: array<Report>
    const buttons: array<ButtonMask>
    const connected: array<bool>
    var head: nat
    var tail: nat
    var dropped: u32
    var observed: u32
    var decoded: nat
    var malformed: nat

    ghost predicate Valid()
      reads this
    {
      packets.Length == QUEUE_SIZE && buttons.Length == CONTROLLERS && connected.Length == CONTROLLERS &&
      head < QUEUE_SIZE && tail < QUEUE_SIZE
    }

    ghost function State(): (m: Mouse)
      reads this, packets, buttons, connected
      requires Valid()
      ensures Shape(m)
    {
      Mouse(Segment(packets[..], tail, head), dropped, observed, connected[..], buttons[..])
    }

    constructor ()
      ensures Valid() && fresh(packets) && fresh(buttons) && fresh(connected)
      ensures State() == Mouse([], 0, 0, [false, false, false, false], Released())
    {
      packets := new Report[QUEUE_SIZE](_ => Report(0, []));
      buttons := new ButtonMask[CONTROLLERS](_ => 0);
      connected := new bool[CONTROLLERS](_ => false);
      head, tail, dropped, observed, decoded, malformed := 0, 0, 0, 0, 0, 0;
    }

    /** mouse_queue_report. */
    method QueueReport(r: Report)
      requires Valid()
      modifies this`head, this`dropped, packets
      ensures Valid() && State() == Queued(old(State()), r)
      ensures
        var waiting, stored := old(State()).waiting, r.controller < 4 && |r.data| <= 64;
        State().waiting == (if stored && |waiting| < 31 then waiting + [r] else waiting) &&
        dropped == (old(dropped) + if stored && |waiting| >= 31 then 1 else 0) % WORD
    {
      if r.controller >= CONTROLLERS || |r.data| > REPORT_BYTES {
        return;
      }
      var next := (head + 1) % QUEUE_SIZE;
      assert next == Next(head, QUEUE_SIZE);
      FullRing(tail, head);
      if next == tail {
        dropped := (dropped + 1) % WORD;
        return;
      }
      SegmentExtended(packets[..], tail, head, r);
      packets[head] := r;
      assert packets[..] == old(packets[..])[head := r];
      head := next;
    }

    /** mouse_receive: connection, disconnection. */
    method SetConnected(id: u32, up: bool)
      requires Valid()
      modifies this`dropped, connected
      ensures Valid() && State() == if up then Plugged(old(State()), id) else Unplugged(old(State()), id)
      ensures forall k | 0 <= k < 4 :: connected[k] == if k == id then up else old(connected[k])
      ensures dropped == (old(dropped) + if id < 4 && !up then 1 else 0) % WORD
    {
      if id >= CONTROLLERS {
        return;
      }
      connected[id] := up;
      assert connected[..] == old(connected[..])[id := up];
      if !up {
        dropped := (dropped + 1) % WORD;
      }
    }

    /** The first loop of mouse_process_request. */
    method ForgetDisconnected()
      requires Valid()
      modifies buttons
      ensures buttons[..] == Forgotten(old(buttons[..]), connected[..])
    {
      var id := 0;
      while id < CONTROLLERS
        invariant 0 <= id <= CONTROLLERS
        invariant forall k | 0 <= k < CONTROLLERS :: buttons[k] == if k < id && !connected[k] then 0 else old(buttons[k])
      {
        if !connected[id] {
          buttons[id] := 0;
        }
        id := id + 1;
      }
      assert buttons[..] == Forgotten(old(buttons[..]), connected[..]);
    }

    /** The reset after a loss. */
    method ReleaseAll()
      requires Valid()
      modifies buttons
      ensures buttons[..] == Released()
    {
      var id := 0;
      while id < CONTROLLERS
        invariant 0 <= id <= CONTROLLERS && forall k | 0 <= k < id :: buttons[k] == 0
      {
        buttons[id] := 0;
        id := id + 1;
      }
      assert buttons[..] == Released();
    }

    /** mouse_process_request. */
    method ProcessRequest(operation: u32) returns (reply: Reply)
      requires Valid()
      modifies this`tail, this`observed, this`decoded, this`malformed, buttons
      ensures Valid() && (State(), reply) == Requested(old(State()), operation)
    {
      if operation > 2 {
        return BadRequest;
      }
      ForgetDisconnected();
      if observed != dropped {
        observed := dropped;
        tail := head;
        ReleaseAll();
        return Lost;
      }
      if operation == 2 {
        return Devices(connected[..]);
      }
      if operation == 1 {
        return Buttons(Or(Or(Or(buttons[0], buttons[1]), buttons[2]), buttons[3]));
      }
      reply := ReadEvent();
    }

    lemma StateIs()
      requires Valid()
      ensures packets.Length == QUEUE_SIZE && connected.Length == CONTROLLERS && head < QUEUE_SIZE && tail < QUEUE_SIZE
      ensures State() == Mouse(Segment(packets[..], tail, head), dropped, observed, connected[..], buttons[..]) && |State().waiting| < QUEUE_SIZE
    {
    }

    /** One packet of the scan: taken out of the ring, and the answer if it is deliverable. */
    method TakePacket() returns (found: Option<Report>)
      requires Valid() && tail != head
      modifies this`tail, this`malformed
      ensures Valid() && tail == (old(tail) + 1) % QUEUE_SIZE
      ensures
        var r := packets[old(tail)];
        found == if r.controller < CONTROLLERS && 3 <= |r.data| <= REPORT_BYTES && connected[r.controller] then Some(r) else None
    {
      var packet := packets[tail];
      tail := (tail + 1) % QUEUE_SIZE;
      if packet.controller >= CONTROLLERS || |packet.data| < 3 || |packet.data| > REPORT_BYTES {
        malformed := malformed + 1;
        return None;
      }
      return if connected[packet.controller] then Some(packet) else None;
    }

    /** The scanning loop of mouse_process_request: the first deliverable packet, if any. */
    method FindPacket() returns (found: Option<Report>)
      requires Valid()
      modifies this`tail, this`malformed
      ensures Valid() && Scanned(old(State()), State(), found)
    {
      hide *;
      StateIs();
      ghost var m, image, passed := State(), packets[..], 0;
      var remaining := QUEUE_SIZE;
      NothingPassed(m, image, tail, head);
      found := None;
      while remaining != 0 && tail != head && found.None?
        invariant 0 <= remaining == QUEUE_SIZE - passed && Valid() && head < QUEUE_SIZE && tail < QUEUE_SIZE
        invariant if found.Some? then Found(m, image, tail, head, found.value) else Scanning(m, image, tail, head, passed)
        decreases remaining
      {
        OnePassed(m, image, tail, head, passed);
        found := TakePacket();
        StateIs();
        passed := passed + 1;
        remaining := remaining - 1;
      }
      StateIs();
      AllPassed(m, image, tail, head, passed, found);
    }

    /** The event part of mouse_process_request. */
    method ReadEvent() returns (reply: Reply)
      requires Valid()
      modifies this`tail, this`decoded, this`malformed, buttons
      ensures Valid() && (State(), reply) == EventRead(old(State()))
    {
      ghost var m := State();
      var found := FindPacket();
      hide Segment, FirstDeliverable;
      if found.None? {
        return Nothing;
      }
      var packet := found.value;
      buttons[packet.controller] := packet.data[0] % 8;
      assert buttons[..] == m.buttons[packet.controller := packet.data[0] % 8];
      decoded := decoded + 1;
      reply := Event(packet.controller, packet.data[1], packet.data[2], packet.data[0] % 8);
    }
  }

  /** What the scan leaves: everything up to and including the packet found is gone. */
  ghost predicate Scanned(m: Mouse, n: Mouse, found: Option<Report>) {
    var i := FirstDeliverable(m.waiting, m.connected);
    if i == |m.waiting| then found == None && n == m.(waiting := [])
    else found == Some(m.waiting[i]) && n == m.(waiting := m.waiting[i + 1..])
  }

  /** The first `passed` waiting packets were looked at, none of them deliverable. */
  ghost predicate Scanning(m: Mouse, image: seq<Report>, tail: nat, head: nat, passed: nat)
    requires |image| == QUEUE_SIZE && tail < QUEUE_SIZE && head < QUEUE_SIZE
  {
    passed <= |m.waiting| && Segment(image, tail, head) == m.waiting[passed..] &&
    FirstDeliverable(m.waiting, m.connected) == passed + FirstDeliverable(m.waiting[passed..], m.connected)
  }

  ghost predicate Found(m: Mouse, image: seq<Report>, tail: nat, head: nat, r: Report)
    requires |image| == QUEUE_SIZE && tail < QUEUE_SIZE && head < QUEUE_SIZE
  {
    var i := FirstDeliverable(m.waiting, m.connected);
    i < |m.waiting| && r == m.waiting[i] && Segment(image, tail, head) == m.waiting[i + 1..]
  }

  lemma NothingPassed(m: Mouse, image: seq<Report>, tail: nat, head: nat)
    requires |image| == QUEUE_SIZE && tail < QUEUE_SIZE && head < QUEUE_SIZE && m.waiting == Segment(image, tail, head)
    ensures Scanning(m, image, tail, head, 0)
  {
    assert m.waiting[0..] == m.waiting;
  }

  lemma OnePassed(m: Mouse, image: seq<Report>, tail: nat, head: nat, passed: nat)
    requires |image| == QUEUE_SIZE && tail < QUEUE_SIZE && head < QUEUE_SIZE && tail != head && |m.connected| == CONTROLLERS
    requires Scanning(m, image, tail, head, passed)
    ensures (tail + 1) % QUEUE_SIZE < QUEUE_SIZE
    ensures
      var r, next := image[tail], (tail + 1) % QUEUE_SIZE;
      if r.controller < CONTROLLERS && 3 <= |r.data| <= REPORT_BYTES && m.connected[r.controller] then Found(m, image, next, head, r)
      else Scanning(m, image, next, head, passed + 1)
  {
    assert m.waiting[passed..][1..] == m.waiting[passed + 1..];
    assert (tail + 1) % QUEUE_SIZE == Next(tail, QUEUE_SIZE);
  }

  lemma AllPassed(m: Mouse, image: seq<Report>, tail: nat, head: nat, passed: nat, found: Option<Report>)
    requires |image| == QUEUE_SIZE && tail < QUEUE_SIZE && head < QUEUE_SIZE && |m.waiting| < QUEUE_SIZE
    requires if found.Some? then Found(m, image, tail, head, found.value) else Scanning(m, image, tail, head, passed)
    requires found.None? ==> tail == head || passed == QUEUE_SIZE
    ensures Scanned(m, m.(waiting := Segment(image, tail, head)), found)
  {
  }

  lemma FullRing(tail: nat, head: nat)
    requires tail < QUEUE_SIZE && head < QUEUE_SIZE
    ensures (head + 1) % QUEUE_SIZE == tail <==> Distance(tail, head, QUEUE_SIZE) == QUEUE_SIZE - 1
  {
  }
}
