/** One interrupt-IN stream: a transfer descriptor shared with hardware, a data toggle, and a
    16-entry report queue indexed by wrapping 32-bit counters. */
module UhciStream {
  import opened MachineWords
  import opened UhciWords

  const REPORT_COUNT := 16

  type Payload = seq<u8>

  // ---- The report queue ----

  /** The entries from `consumer` on, `n` of them; counters are used modulo 16. */
  function Entries(slots: seq<Payload>, consumer: nat, n: nat): (r: seq<Payload>)
    requires |slots| == REPORT_COUNT
    ensures |r| == n
  {
    seq(n, k requires 0 <= k < n => slots[(consumer + k) % REPORT_COUNT])
  }

  class ReportQueue {
    const slots: array<Payload>
    var producer: u32
    var consumer: u32

    ghost function Pending(): nat
      reads this
    {
      (producer - consumer + WORD) % WORD
    }

    ghost predicate Valid()
      reads this
    {
      slots.Length == REPORT_COUNT && Pending() <= REPORT_COUNT
    }

    /** First in, first out. */
    ghost function Contents(): (r: seq<Payload>)
      reads this, slots
      requires Valid()
      ensures |r| == Pending()
    {
      Entries(slots[..], consumer, Pending())
    }

    constructor ()
      ensures Valid() && fresh(slots) && Contents() == []
    {
      slots := new Payload[REPORT_COUNT](_ => []);
      producer, consumer := 0, 0;
    }

    method Clear()
      requires Valid()
      modifies this
      ensures Valid() && Contents() == []
    {
      producer, consumer := 0, 0;
    }

    /** The queueing part of service_controller: a full queue drops the report. */
    method Push(report: Payload) returns (ok: bool)
      requires Valid()
      modifies this`producer, slots
      ensures Valid() && ok == (|old(Contents())| < REPORT_COUNT)
      ensures Contents() == if ok then old(Contents()) + [report] else old(Contents())
    {
      if (producer - consumer + WORD) % WORD >= REPORT_COUNT {
        return false;
      }
      ghost var before, n := slots[..], Pending();
      WrapFacts(producer, consumer, n);
      slots[producer % REPORT_COUNT] := report;
      producer := (producer + 1) % WORD;
      PushedEntries(before, consumer, n, report);
      assert slots[..] == before[(consumer + n) % REPORT_COUNT := report];
      return true;
    }

    /** usb_uhci_read_report. */
    method Pop() returns (report: Option<Payload>)
      requires Valid()
      modifies this`consumer
      ensures Valid()
      ensures if old(Contents()) == [] then report == None && Contents() == []
        else report == Some(old(Contents())[0]) && Contents() == old(Contents())[1..]
    {
      if consumer == producer {
        return None;
      }
      ghost var n := Pending();
      PopFacts(producer, consumer);
      report := Some(slots[consumer % REPORT_COUNT]);
      PoppedEntries(slots[..], consumer, n);
      consumer := (consumer + 1) % WORD;
    }
  }

  lemma WrapFacts(producer: u32, consumer: u32, n: nat)
    requires n == (producer - consumer + WORD) % WORD < REPORT_COUNT
    ensures ((producer + 1) % WORD - consumer + WORD) % WORD == n + 1 && producer % REPORT_COUNT == (consumer + n) % REPORT_COUNT
  {
  }

  lemma PopFacts(producer: u32, consumer: u32)
    requires producer != consumer
    ensures
      var n := (producer - consumer + WORD) % WORD;
      n > 0 && (producer - (consumer + 1) % WORD + WORD) % WORD == n - 1
  {
  }

  lemma PushedEntries(slots: seq<Payload>, consumer: nat, n: nat, x: Payload)
    requires |slots| == REPORT_COUNT && n < REPORT_COUNT
    ensures Entries(slots[(consumer + n) % REPORT_COUNT := x], consumer, n + 1) == Entries(slots, consumer, n) + [x]
  {
    var more := Entries(slots[(consumer + n) % REPORT_COUNT := x], consumer, n + 1);
    forall k | 0 <= k < n ensures more[k] == Entries(slots, consumer, n)[k] {
      DistinctCells(consumer + k, consumer + n);
    }
  }

  lemma DistinctCells(a: nat, b: nat)
    requires a < b < a + REPORT_COUNT
    ensures a % REPORT_COUNT != b % REPORT_COUNT
  {
  }

  lemma PoppedEntries(slots: seq<Payload>, consumer: u32, n: nat)
    requires |slots| == REPORT_COUNT && 0 < n <= REPORT_COUNT
    ensures Entries(slots, consumer, n)[0] == slots[consumer % REPORT_COUNT]
    ensures Entries(slots, (consumer + 1) % WORD, n - 1) == Entries(slots, consumer, n)[1..]
  {
    var rest := Entries(slots, (consumer + 1) % WORD, n - 1);
    forall k | 0 <= k < n - 1 ensures rest[k] == Entries(slots, consumer, n)[k + 1] {
      WrapCell(consumer, k);
    }
  }

  lemma WrapCell(consumer: u32, k: nat)
    ensures ((consumer + 1) % WORD + k) % REPORT_COUNT == (consumer + 1 + k) % REPORT_COUNT
  {
  }

  // ---- The driver ----

  datatype Status = Ready | TransferError | Disconnected | ControllerError
  datatype Event = Connect | Data(payload: Payload) | Disconnect

  /** The driver's view of one controller. `running`: the schedule executes; `linked`: the queue
      head points at the transfer descriptor; `delivered`: the reports of this stream so far;
      `contested`: how often the descriptor was rewritten while hardware could act on it. */
  datatype Driver = Driver(status: Status, active: bool, packet: nat, toggle: nat, td: Transfer, tdToggle: nat, buffer: Payload,
                           linked: bool, running: bool, queue: seq<Payload>, events: seq<Event>, delivered: seq<Payload>,
                           contested: nat)

  /** Whether the controller may read or write the descriptor right now. */
  predicate HardwareMayAct(d: Driver) {
    d.running && d.linked && d.td.Pending?
  }

  function Queued(q: seq<Payload>, report: Payload): seq<Payload> {
    if |q| < REPORT_COUNT then q + [report] else q
  }

  /** The bytes the descriptor brought in, at the front of the DMA buffer. */
  function Content(d: Driver): Payload {
    if d.td.Done? && d.td.length <= |d.buffer| then d.buffer[..d.td.length] else d.buffer
  }

  /** arm_interrupt. */
  function Armed(d: Driver): Driver {
    d.(td := Pending, tdToggle := d.toggle, linked := true, contested := d.contested + if HardwareMayAct(d) then 1 else 0)
  }

  /** Ending a stream. */
  function Ended(d: Driver, status: Status): Driver {
    d.(status := status, active := false, events := d.events + [Disconnect])
  }

  /** A report handed to the callback and the queue, then the descriptor rearmed. */
  function Delivered(d: Driver): Driver {
    Armed(d.(events := d.events + [Data(Content(d))], delivered := d.delivered + [Content(d)], queue := Queued(d.queue, Content(d)),
             toggle := 1 - d.toggle % 2))
  }

  /** service_controller; `fatal` are the host error bits, `up` is "connected, enabled, unchanged". */
  function Serviced(d: Driver, fatal: bool, up: bool): Driver {
    if d.status == ControllerError then d
    else if fatal then Ended(d.(running := false), ControllerError)
    else if !d.active then d
    else if !up then Ended(d.(linked := false), Disconnected)
    else if d.td.Pending? then d
    else if d.td.Failed? then Ended(d.(linked := false), TransferError)
    else Delivered(d.(linked := false))
  }

  /** The first half of usb_host_poll's loop body: a finished descriptor halts the schedule. */
  function Paused(d: Driver): bool {
    d.active && !d.td.Pending?
  }

  function Looked(d: Driver): Driver {
    if Paused(d) then d.(running := false) else d
  }

  /** The second half: service, restart, and recover from an ended stream. */
  function Polled(d: Driver, paused: bool, fatal: bool, up: bool): Driver {
    var s := Serviced(d, fatal, up);
    if d.status == ControllerError || s.status == ControllerError then s
    else Recovered(if paused && s.active then s.(running := true) else s)
  }

  function Recovered(s: Driver): Driver {
    if s.status == Disconnected || s.status == TransferError
    then s.(status := Ready, td := Done(1), linked := false, queue := [], running := true)
    else s
  }

  /** usb_uhci_start_interrupt with valid arguments; `up` is "connected, enabled, right speed". */
  function Started(d: Driver, packet: nat, up: bool): Driver {
    if d.status != Ready || d.active || !up then d
    else Armed(d.(running := false, packet := packet, toggle := 0, queue := [], active := true,
                  events := d.events + [Connect], delivered := [])).(running := true)
  }

  // ---- What a service call owes its caller, by what it finds ----

  /** The stream was closed with `status`: one Disconnect, nothing delivered, nothing thrown away. */
  predicate Closed(d: Driver, e: Driver, status: Status) {
    e == d.(status := status, active := false, events := d.events + [Disconnect], linked := e.linked, running := e.running)
  }

  /** The finished transfer reached the callback and, if there was room, the queue; the next one is
      armed with the other toggle. */
  predicate HandedOver(d: Driver, e: Driver, report: Payload) {
    e.status == d.status && e.active && e.events == d.events + [Data(report)] && e.delivered == d.delivered + [report] &&
    e.queue == (if |d.queue| < 16 then d.queue + [report] else d.queue) &&
    e.toggle == e.tdToggle == 1 - d.toggle % 2 && e.td == Pending && e.linked && e.running == d.running && e.packet == d.packet
  }

  /** After a poll that closed a stream, or found one closed, everything is ready for the next. */
  predicate Reopened(e: Driver) {
    e.status == Ready && !e.active && !e.linked && e.running && e.queue == [] && !e.td.Pending?
  }

  /** A controller error is final; a fatal bit always raises it; a port that is not up ends an active
      stream whatever its descriptor says, and only then the descriptor matters. */
  lemma ServiceMeans(d: Driver, fatal: bool, up: bool)
    ensures d.status == ControllerError || (!fatal && !d.active) ==> Serviced(d, fatal, up) == d
    ensures d.status != ControllerError && fatal ==>
      Closed(d, Serviced(d, true, up), ControllerError) && !Serviced(d, true, up).running
    ensures d.status != ControllerError && !fatal && d.active && !up ==>
      Closed(d, Serviced(d, false, false), Disconnected) && !Serviced(d, false, false).linked && Serviced(d, false, false).running == d.running
    ensures d.status != ControllerError && !fatal && d.active && up ==>
      match d.td
      case Pending => Serviced(d, false, true) == d
      case Failed =>
        Closed(d, Serviced(d, false, true), TransferError) && !Serviced(d, false, true).linked && Serviced(d, false, true).running == d.running
      case Done(n) => HandedOver(d, Serviced(d, false, true), if n <= |d.buffer| then d.buffer[..n] else d.buffer)
  {
  }

  /** A whole poll: a lost device or a failed transfer closes the stream and leaves the controller
      ready for the next; a finished transfer is handed over and the schedule runs again. */
  lemma PollMeans(d: Driver, fatal: bool, up: bool)
    requires d.status != ControllerError
    ensures
      var e := Polled(Looked(d), Paused(d), fatal, up);
      (fatal ==> Closed(d, e, ControllerError) && !e.running) &&
      (!fatal && !d.active ==> if d.status == Ready then e == d else Reopened(e) && e.events == d.events && e.delivered == d.delivered) &&
      (!fatal && d.active && !up ==> Reopened(e) && e.events == d.events + [Disconnect] && e.delivered == d.delivered)
    ensures !fatal && d.active && up && d.status == Ready ==>
      var e := Polled(Looked(d), Paused(d), fatal, up);
      match d.td
      case Pending => e == d
      case Failed => Reopened(e) && e.events == d.events + [Disconnect] && e.delivered == d.delivered
      case Done(n) => HandedOver(d.(running := true), e, if n <= |d.buffer| then d.buffer[..n] else d.buffer)
  {
    ServiceMeans(Looked(d), fatal, up);
    hide Serviced;
  }

  lemma PollWords(d: Driver, sts: bv32, port: bv32)
    requires d.status != ControllerError && sts & 0x18 == 0 && d.active && port & 7 != 5
    ensures
      var e := Polled(Looked(d), Paused(d), sts & 0x18 != 0, PortUp(port));
      Reopened(e) && e.events == d.events + [Disconnect] && e.delivered == d.delivered
  {
    PollMeans(d, false, false);
    PortMeans(port);
    hide Polled, Reopened;
  }

  /** A stream starts empty, with toggle 0 and its first transfer armed; refused, nothing changes. */
  lemma StartMeans(d: Driver, packet: nat, up: bool)
    ensures
      var e := Started(d, packet, up);
      if d.status == Ready && !d.active && up
      then
        e.active && e.status == Ready && e.packet == packet && e.toggle == e.tdToggle == 0 && e.td == Pending && e.linked && e.running &&
        e.queue == [] && e.delivered == [] && e.events == d.events + [Connect]
      else e == d
  {
  }

  lemma ServicedIs(d: Driver, fatal: bool, up: bool)
    ensures Serviced(d, fatal, up) ==
      if d.status == ControllerError then d
      else if fatal then Ended(d.(running := false), ControllerError)
      else if !d.active then d
      else if !up then Ended(d.(linked := false), Disconnected)
      else if d.td.Pending? then d
      else if d.td.Failed? then Ended(d.(linked := false), TransferError)
      else Delivered(d.(linked := false))
  {
    hide Delivered, Ended;
  }

  /** The same on the words the driver reads. */
  lemma ServiceWords(d: Driver, sts: bv32, port: bv32, status: bv32, packet: nat)
    requires d.td == Outcome(status, packet) && packet <= 64 <= |d.buffer|
    ensures
      var s := Serviced(d, sts & 0x18 != 0, PortUp(port));
      (d.status == ControllerError || (sts & 0x18 == 0 && !d.active) ==> s == d) &&
      (d.status != ControllerError && sts & 0x18 != 0 ==> Closed(d, s, ControllerError) && !s.running) &&
      (d.status != ControllerError && sts & 0x18 == 0 && d.active && port & 7 != 5 ==>
        Closed(d, s, Disconnected) && !s.linked && s.running == d.running)
    ensures d.status != ControllerError && sts & 0x18 == 0 && d.active && port & 7 == 5 ==>
      var s, n := Serviced(d, sts & 0x18 != 0, PortUp(port)), CompletedLength(status, packet);
      if status & 0x80_0000 != 0 then s == d
      else if n < 0 then Closed(d, s, TransferError) && !s.linked && s.running == d.running
      else n <= 64 && HandedOver(d, s, d.buffer[..n])
  {
    ServiceMeans(d, sts & 0x18 != 0, PortUp(port));
    PortMeans(port);
    StatusFacts(status, packet);
    LengthFits(status, packet);
    hide Serviced, Outcome, CompletedLength, PortUp, Closed, HandedOver;
  }

  /** The arguments usb_uhci_start_interrupt takes. */
  predicate Startable(port: u32, address: u32, endpoint: u32, low: u32, packet: u32, ms: u32) {
    port <= 1 && 1 <= address <= 127 && 1 <= endpoint <= 15 && low <= 1 && 0 < packet <= 64 && !(low == 1 && packet > 8) &&
    0 < ms <= 255
  }

  /** "connected and enabled, no connection change". */
  predicate PortUp(port: bv32) {
    port & 5 == 5 && port & 2 == 0
  }

  lemma PortMeans(port: bv32)
    ensures PortUp(port) <==> port & 7 == 5
  {
  }

  /** The status word arm_interrupt writes. */
  function ArmedStatus(low: bv32): bv32 {
    ((((0x7FF | ACTIVE) | 0x0100_0000) | (3 << 27)) | (1 << 29)) | (low << 26)
  }

  /** It makes the descriptor active, with an interrupt on completion, three retries, short packet
      detection, no error bit, and the speed of the device. */
  lemma ArmedStatusMeans(low: bv32)
    requires low <= 1
    ensures
      var status := ArmedStatus(low);
      BitSet(status, 23) && BitSet(status, 24) && BitSet(status, 27) && BitSet(status, 28) && BitSet(status, 29) &&
      (BitSet(status, 26) <==> low == 1) && status & ERRORS == 0 && status & 0xC008_0000 == 0 && ActualLength(status) == 0
  {
  }

  lemma ArmedIsPending(low: bv32, packet: nat)
    ensures Outcome(ArmedStatus(low), packet) == Pending
  {
  }

  lemma ClearedIsDone(packet: nat)
    ensures packet > 0 ==> Outcome(0, packet) == Done(1)
  {
  }

  class UhciController {
    var status: Status
    var active: bool
    var packet: nat
    var toggle: nat
    var low: bv32
    var tdStatus: bv32        // status word of the interrupt descriptor
    var tdToggle: nat         // toggle in its token
    var buffer: Payload       // interrupt_data
    var linked: bool
    var running: bool
    const queue: ReportQueue
    ghost var events: seq<Event>
    ghost var delivered: seq<Payload>
    ghost var contested: nat

    ghost predicate Valid()
      reads this, queue, queue.slots
    {
      queue.Valid() && toggle < 2 && packet > 0 && |buffer| >= 64 && packet <= 64
    }

    ghost function State(): Driver
      reads this, queue, queue.slots
      requires queue.Valid()
    {
      Driver(status, active, packet, toggle, Outcome(tdStatus, packet), tdToggle, buffer, linked, running, queue.Contents(), events, delivered, contested)
    }

    constructor (buffer: Payload)
      requires |buffer| >= 64
      ensures Valid() && fresh(queue) && fresh(queue.slots) && status == Ready && !active && State().queue == [] && events == []
    {
      this.buffer := buffer;
      status, active, packet, toggle, low, tdStatus, tdToggle, linked, running := Ready, false, 8, 0, 0, 0, 0, false, true;
      queue := new ReportQueue();
      events, delivered, contested := [], [], 0;
    }

    /** arm_interrupt. */
    method Arm()
      requires Valid()
      modifies this`tdStatus, this`tdToggle, this`linked, this`contested
      ensures Valid() && State() == Armed(old(State())) && tdStatus == ArmedStatus(low)
    {
      contested := contested + if HardwareMayAct(State()) then 1 else 0;
      ArmedIsPending(low, packet);
      tdToggle := toggle;
      tdStatus := ArmedStatus(low);
      linked := true;
    }

    /** The delivering tail of service_controller. */
    method Deliver(length: nat)
      requires Valid() && Outcome(tdStatus, packet) == Done(length) && !linked
      modifies this, queue`producer, queue.slots
      ensures Valid() && State() == Delivered(old(State())) && status == old(status)
    {
      ghost var d := State();
      LengthFits(tdStatus, packet);
      var report := buffer[..length];
      assert report == Content(d);
      events := events + [Data(report)];
      delivered := delivered + [report];
      var ok := queue.Push(report);
      toggle := 1 - toggle;
      Arm();
    }

    /** service_controller with the controller status and port words it reads. */
    method Service(sts: bv32, port: bv32)
      requires Valid()
      modifies this, queue`producer, queue.slots
      ensures Valid() && State() == Serviced(old(State()), sts & 0x18 != 0, PortUp(port))
      ensures old(status) == ControllerError || (sts & 0x18 == 0 && !old(active)) ==> State() == old(State())
      ensures old(status) != ControllerError && sts & 0x18 != 0 ==> Closed(old(State()), State(), ControllerError) && !running
      ensures old(status) != ControllerError && sts & 0x18 == 0 && old(active) && port & 7 != 5 ==>
        Closed(old(State()), State(), Disconnected) && !linked && running == old(running)
      ensures old(status) != ControllerError && sts & 0x18 == 0 && old(active) && port & 7 == 5 ==>
        var n := CompletedLength(old(tdStatus), old(packet));
        if old(tdStatus) & 0x80_0000 != 0 then State() == old(State())
        else if n < 0 then Closed(old(State()), State(), TransferError) && !linked && running == old(running)
        else n <= 64 && HandedOver(old(State()), State(), old(buffer)[..n])
    {
      ServiceWords(State(), sts, port, tdStatus, packet);
      StatusFacts(tdStatus, packet);
      hide Serviced, Outcome, CompletedLength, Closed, HandedOver, Entries;
      Act(sts & 0x18 != 0, PortUp(port), tdStatus & ACTIVE != 0, CompletedLength(tdStatus, packet));
    }

    /** service_controller once the words are read. */
    method Act(fatal: bool, up: bool, pending: bool, length: int)
      requires Valid() && Outcome(tdStatus, packet) == if pending then Pending else if length < 0 then Failed else Done(length)
      modifies this, queue`producer, queue.slots
      ensures Valid() && State() == Serviced(old(State()), fatal, up)
    {
      hide *;
      StateIs();
      ServicedIs(State(), fatal, up);
      if status == ControllerError {
        return;
      }
      if fatal {
        Close(ControllerError, false, linked);
        return;
      }
      if !active {
        return;
      }
      if !up {
        Close(Disconnected, running, false);
      } else if pending {
        return;
      } else if length < 0 {
        Close(TransferError, running, false);
      } else {
        linked := false;
        StateIs();
        Deliver(length);
      }
    }

    method Close(status: Status, running: bool, linked: bool)
      requires Valid()
      modifies this`status, this`active, this`running, this`linked, this`events
      ensures Valid() && State() == Ended(old(State()).(running := running, linked := linked), status)
    {
      this.running, this.linked, active, this.status := running, linked, false, status;
      events := events + [Disconnect];
    }

    /** The recovery of usb_host_poll. */
    method Recover()
      requires Valid()
      modifies this, queue
      ensures Valid() && State() == Recovered(old(State()))
    {
      ClearedIsDone(packet);
      hide Outcome, Entries;
      if status == Disconnected || status == TransferError {
        linked, tdStatus, running, status := false, 0, true, Ready;
        queue.Clear();
      }
    }

    /** A finished descriptor halts the schedule before the poll looks closer. */
    method Pause() returns (paused: bool)
      requires Valid()
      modifies this`running
      ensures Valid() && paused == Paused(old(State())) && State() == Looked(old(State()))
    {
      StatusFacts(tdStatus, packet);
      paused := active && tdStatus & ACTIVE == 0;
      if paused {
        running := false;
      }
    }

    /** usb_host_poll for this controller, uninterrupted. */
    method Poll(sts: bv32, port: bv32)
      requires Valid()
      modifies this, queue, queue.slots
      ensures Valid()
      ensures
        var d := old(State());
        State() == if d.status == ControllerError then d else Polled(Looked(d), Paused(d), sts & 0x18 != 0, PortUp(port))
      ensures old(status) != ControllerError && sts & 0x18 == 0 && old(active) && port & 7 != 5 ==>
        Reopened(State()) && events == old(events) + [Disconnect] && delivered == old(delivered)
    {
      if status == ControllerError {
        return;
      }
      if sts & 0x18 == 0 && active && port & 7 != 5 {
        PollWords(State(), sts, port);
      }
      hide Polled, Looked, Paused, Outcome, Entries, Reopened, PortUp;
      Turn(sts, port);
    }

    method Turn(sts: bv32, port: bv32)
      requires Valid() && status != ControllerError
      modifies this, queue, queue.slots
      ensures Valid() && State() == Polled(Looked(old(State())), Paused(old(State())), sts & 0x18 != 0, PortUp(port))
    {
      hide *;
      StateIs();
      ghost var d := State();
      var paused := Pause();
      StateIs();
      ghost var halted, fatal, up := State(), sts & 0x18 != 0, PortUp(port);
      Service(sts, port);
      StateIs();
      ghost var s := State();
      PolledIs(halted, paused, fatal, up);
      if status == ControllerError {
        return;
      }
      if paused && active {
        running := true;
      }
      StateIs();
      Recover();
    }

    /** What usb_uhci_start_interrupt resets before arming, with the schedule stopped. */
    method Prepare(packet: nat, low: bv32)
      requires Valid() && 0 < packet <= 64
      modifies this, queue
      ensures Valid() && Prepared(old(State()), State(), packet) && this.low == low
    {
      hide *;
      StateIs();
      ghost var d := State();
      running := false;
      this.packet, this.low, toggle := packet, low, 0;
      queue.Clear();
      active, delivered, events := true, [], events + [Connect];
      StateIs();
      PreparedIs(d, State(), packet);
    }

    /** usb_uhci_start_interrupt; `up` is the port check. */
    method Start(port: u32, address: u32, endpoint: u32, low: u32, packet: u32, ms: u32, up: bool) returns (ok: bool)
      requires Valid()
      modifies this, queue
      ensures Valid() && State() == Started(old(State()), packet, Startable(port, address, endpoint, low, packet, ms) && up)
      ensures ok == (Startable(port, address, endpoint, low, packet, ms) && old(status) == Ready && !old(active) && up)
      ensures !ok ==> State() == old(State())
      ensures ok ==>
        active && this.packet == packet && toggle == tdToggle == 0 && State().td == Pending && linked && running &&
        queue.Contents() == [] && events == old(events) + [Connect] && delivered == []
      ensures ok ==> tdStatus == ArmedStatus(if low == 1 then 1 else 0)
    {
      hide *;
      StateIs();
      ghost var d := State();
      StartMeans(d, packet, Startable(port, address, endpoint, low, packet, ms) && up);
      var fit := CheckStart(port, address, endpoint, low, packet, ms);
      NotStarted(d, packet, fit && up);
      if !fit || status != Ready || active || !up {
        return false;
      }
      Prepare(packet, if low == 1 then 1 else 0);
      StateIs();
      StartedIs(d, State(), packet);
      Arm();
      StateIs();
      running := true;
      StateIs();
      return true;
    }

    lemma StateIs()
      ensures Valid() <==> queue.Valid() && toggle < 2 && packet > 0 && |buffer| >= 64 && packet <= 64
      ensures queue.Valid() ==>
        State() == Driver(status, active, packet, toggle, Outcome(tdStatus, packet), tdToggle, buffer, linked, running, queue.Contents(),
                          events, delivered, contested)
    {
    }
  }

  /** The argument checks of usb_uhci_start_interrupt. */
  method CheckStart(port: u32, address: u32, endpoint: u32, low: u32, packet: u32, ms: u32) returns (fit: bool)
    ensures fit == Startable(port, address, endpoint, low, packet, ms) && (fit ==> 0 < packet <= 64)
  {
    var interval := Interval(ms);
    fit := port <= 1 && 1 <= address <= 127 && 1 <= endpoint <= 15 && low <= 1 && packet != 0 && packet <= 64 &&
           !(low != 0 && packet > 8) && interval != 0;
  }

  lemma NotStarted(d: Driver, packet: nat, up: bool)
    ensures d.status != Ready || d.active || !up ==> Started(d, packet, up) == d
  {
  }

  /** A fresh stream, its descriptor still as it was. */
  ghost predicate Prepared(d: Driver, e: Driver, packet: nat) {
    e == d.(running := false, packet := packet, toggle := 0, queue := [], active := true,
            events := d.events + [Connect], delivered := [], td := e.td)
  }

  lemma PreparedIs(d: Driver, e: Driver, packet: nat)
    ensures Prepared(d, e, packet) <==>
      e == d.(running := false, packet := packet, toggle := 0, queue := [], active := true, events := d.events + [Connect], delivered := [], td := e.td)
  {
  }

  lemma StartedIs(d: Driver, e: Driver, packet: nat)
    requires d.status == Ready && !d.active && Prepared(d, e, packet)
    ensures Started(d, packet, true) == Armed(e).(running := true)
  {
  }

  lemma PolledIs(d: Driver, paused: bool, fatal: bool, up: bool)
    requires d.status != ControllerError
    ensures
      var s := Serviced(d, fatal, up);
      Polled(d, paused, fatal, up) ==
        if s.status == ControllerError then s else Recovered(if paused && s.active then s.(running := true) else s)
  {
    hide Serviced, Recovered;
  }

  lemma StatusFacts(status: bv32, packet: nat)
    ensures Outcome(status, packet).Pending? <==> status & ACTIVE != 0
    ensures status & ACTIVE == 0 ==>
      Outcome(status, packet) == if CompletedLength(status, packet) < 0 then Failed else Done(CompletedLength(status, packet))
  {
  }

  lemma LengthFits(status: bv32, packet: nat)
    ensures CompletedLength(status, packet) <= packet && (Outcome(status, packet).Done? ==> Outcome(status, packet).length <= packet)
  {
  }
}
