/** One interrupt-IN stream as a whole: driver, controller hardware and device. The device repeats a
    packet until it sees it acknowledged, acknowledgements may get lost, and the controller writes
    the queue head some time after the descriptor. */
module UhciSystem {
  import opened MachineWords
  import opened UhciWords
  import opened UhciStream

  /** `offered` are the packets the device has sent at least once, the first `acked` of which it saw
      acknowledged; `transferred` are those the controller accepted; `owed` says that the controller
      still has to unlink a finished descriptor, `raced` that the descriptor of this stream was armed
      again before that; `looked` is the poll in progress and whether it halted the schedule. */
  datatype World = World(d: Driver, offered: seq<Payload>, acked: nat, transferred: seq<Payload>, owed: bool, raced: bool,
                         looked: Option<bool>)

  datatype Step =
    | Answer(payload: Payload, heard: bool)  // the device answers an IN; `heard`: it gets the acknowledgement
    | HardwareError                          // the descriptor retires with an error
    | WriteBack                              // the controller unlinks the finished descriptor
    | Irq(fatal: bool, up: bool)
    | Look                                   // usb_host_poll, up to the decision to halt
    | Serve(fatal: bool, up: bool)           // usb_host_poll, the rest
    | Start(packet: nat, up: bool)
    | Read                                   // usb_uhci_read_report

  /** The controller can take up the descriptor. */
  predicate Working(w: World) {
    HardwareMayAct(w.d) && !w.owed
  }

  /** Hardware acts only on an armed, linked descriptor of a running schedule, and the device repeats
      what was not acknowledged; driver code does not interrupt itself. */
  predicate Enabled(w: World, step: Step) {
    match step
    case Answer(payload, _) => Working(w) && (w.acked < |w.offered| ==> payload == w.offered[w.acked])
    case HardwareError => Working(w)
    case WriteBack => w.owed && w.d.running
    case Serve(_, _) => w.looked.Some?
    case Start(packet, up) => w.looked.None? && (up ==> 0 < packet <= 64)
    case _ => w.looked.None?
  }

  function Overlaid(buffer: Payload, payload: Payload): Payload {
    if |payload| <= |buffer| then payload + buffer[|payload|..] else payload
  }

  /** A packet with the expected toggle completes the descriptor; another one is acknowledged and
      discarded; an oversized one is an error. The device's toggle is the parity of `acked`. */
  function Answered(w: World, payload: Payload, heard: bool): World {
    var offered := if w.acked < |w.offered| then w.offered else w.offered + [payload];
    var acked := if heard then w.acked + 1 else w.acked;
    if w.acked % 2 != w.d.tdToggle then w.(offered := offered, acked := acked)
    else if |payload| > w.d.packet then w.(d := w.d.(td := Failed), offered := offered, owed := true)
    else w.(d := w.d.(td := Done(|payload|), buffer := Overlaid(w.d.buffer, payload)),
            offered := offered, acked := acked, transferred := w.transferred + [payload], owed := true)
  }

  function Unlinked(w: World): World {
    if w.owed then w.(d := w.d.(linked := false), owed := false) else w
  }

  /** The descriptor armed again while the controller still has to unlink it. */
  predicate Races(w: World, d: Driver) {
    w.owed && !w.d.td.Pending? && d.td.Pending?
  }

  /** Halting the schedule waits for the controller, which unlinks what it finished. */
  function Halted(w: World): World {
    var u := Unlinked(w);
    u.(d := u.d.(running := false))
  }

  function Next(w: World, step: Step): World {
    match step
    case Answer(payload, heard) => Answered(w, payload, heard)
    case HardwareError => w.(d := w.d.(td := Failed), owed := true)
    case WriteBack => Unlinked(w)
    case Irq(fatal, up) =>
      var d := Serviced(w.d, fatal, up);
      w.(d := d, raced := w.raced || Races(w, d))
    case Look =>
      var halt := w.d.status != ControllerError && Paused(w.d);
      (if halt then Halted(w) else w).(looked := Some(halt))
    case Serve(fatal, up) =>
      var d := Polled(w.d, w.looked.Some? && w.looked.value, fatal, up);
      var s := Serviced(w.d, fatal, up);
      w.(looked := None, d := d, raced := w.raced || Races(w, s), owed := w.owed && d.status == s.status)
    case Start(packet, up) =>
      var d := Started(w.d, packet, up);
      if d.active && !w.d.active then World(d, [], 0, [], false, false, w.looked) else w.(d := d)
    case Read => w.(d := w.d.(queue := if w.d.queue == [] then [] else w.d.queue[1..]))
  }

  // ---- The event log ----

  /** Whether a stream is open after the events. */
  function Open(es: seq<Event>): bool {
    if es == [] then false
    else match es[|es| - 1]
      case Connect => true
      case Disconnect => false
      case Data(_) => Open(es[..|es| - 1])
  }

  /** Data events only while a stream is open. */
  ghost predicate DataWhileOpen(es: seq<Event>) {
    forall k | 0 <= k < |es| && es[k].Data? :: Open(es[..k])
  }

  // ---- The invariant ----

  /** Toggles are parities of counts, and what was accepted are the device's packets in order, at most
      one ahead of what it knows to be acknowledged. */
  ghost predicate Synchronized(w: World) {
    var d, h := w.d, |w.transferred|;
    d.toggle == |d.delivered| % 2 && d.tdToggle == d.toggle &&
    w.acked <= h <= |w.offered| <= w.acked + 1 && w.transferred == w.offered[..h] &&
    match d.td
    case Done(n) => w.transferred == d.delivered + [Content(d)] && n == |Content(d)| <= d.packet
    case _ => w.transferred == d.delivered
  }

  /** An active stream's descriptor is linked while pending unless it raced, and the schedule is
      halted only in the middle of a poll that halted it. */
  ghost predicate Serviceable(w: World) {
    (if w.raced then w.d.td.Pending? && (w.owed || !w.d.linked) else w.d.td.Pending? ==> w.d.linked && !w.owed) &&
    (w.d.running <==> w.looked != Some(true)) && (w.looked == Some(true) ==> !w.owed)
  }

  ghost predicate Good(w: World) {
    (w.d.active ==> w.d.status == Ready && Synchronized(w) && Serviceable(w)) &&
    w.d.contested == 0 && |w.d.queue| <= REPORT_COUNT && Open(w.d.events) == w.d.active && DataWhileOpen(w.d.events)
  }

  lemma LogGrows(es: seq<Event>, e: Event)
    requires DataWhileOpen(es) && (e.Data? ==> Open(es))
    ensures DataWhileOpen(es + [e])
    ensures Open(es + [e]) == (e.Connect? || (e.Data? && Open(es)))
  {
    assert (es + [e])[..|es|] == es;
    forall k | 0 <= k < |es + [e]| && (es + [e])[k].Data? ensures Open((es + [e])[..k]) {
      assert (es + [e])[..k] == es[..k];
    }
  }

  /** A service call keeps the invariant; with the port up, no fatal error and a finished
      transfer it delivers exactly that transfer. */
  lemma ServiceKeepsGood(w: World, fatal: bool, up: bool)
    requires Good(w)
    ensures var d := Serviced(w.d, fatal, up); Good(w.(d := d, raced := w.raced || Races(w, d)))
    ensures w.d.active && !fatal && up && w.d.td.Done? ==>
      Serviced(w.d, fatal, up).delivered == w.transferred == w.d.delivered + [Content(w.d)] && Serviced(w.d, fatal, up).active
  {
    LogGrows(w.d.events, Disconnect);
    if w.d.active && !fatal && up && w.d.td.Done? {
      LogGrows(w.d.events, Data(Content(w.d)));
      ServiceDelivers(w);
    } else {
      hide DataWhileOpen, Open, Content, Delivered;
    }
  }

  lemma ServiceDelivers(w: World)
    requires Good(w) && w.d.active && w.d.td.Done?
    requires DataWhileOpen(w.d.events + [Data(Content(w.d))]) && Open(w.d.events + [Data(Content(w.d))])
    ensures var d := Serviced(w.d, false, true); Good(w.(d := d, raced := w.raced || Races(w, d))) && d.active
    ensures Serviced(w.d, false, true).delivered == w.transferred == w.d.delivered + [Content(w.d)]
  {
    hide DataWhileOpen, Open;
  }

  lemma AnswerKeepsGood(w: World, payload: Payload, heard: bool)
    requires Good(w) && Enabled(w, Answer(payload, heard))
    ensures Good(Answered(w, payload, heard))
  {
    if w.acked % 2 == w.d.tdToggle && |payload| <= w.d.packet {
      AcceptKeepsGood(w, payload, heard);
    } else {
      hide DataWhileOpen, Open, Overlaid, Content;
    }
  }

  /** The packet has the expected toggle. */
  lemma AcceptKeepsGood(w: World, payload: Payload, heard: bool)
    requires Good(w) && Enabled(w, Answer(payload, heard)) && w.acked % 2 == w.d.tdToggle && |payload| <= w.d.packet
    ensures Good(Answered(w, payload, heard))
  {
    assert |Overlaid(w.d.buffer, payload)| >= |payload| && Overlaid(w.d.buffer, payload)[..|payload|] == payload;
    hide DataWhileOpen, Open, Overlaid;
  }

  lemma PollKeepsGood(w: World, fatal: bool, up: bool)
    requires Good(w) && w.looked.Some?
    ensures Good(Next(w, Serve(fatal, up)))
  {
    ServiceKeepsGood(w, fatal, up);
    hide DataWhileOpen, Open, Serviced;
  }

  lemma StartKeepsGood(w: World, packet: nat, up: bool)
    requires Good(w) && Enabled(w, Start(packet, up))
    ensures Good(Next(w, Start(packet, up)))
  {
    LogGrows(w.d.events, Connect);
    hide DataWhileOpen, Open;
  }

  /** Every step of device, hardware and driver keeps the invariant. */
  lemma StepKeepsGood(w: World, step: Step)
    requires Good(w) && Enabled(w, step)
    ensures Good(Next(w, step))
  {
    match step {
      case Answer(payload, heard) => AnswerKeepsGood(w, payload, heard);
      case HardwareError =>
        hide DataWhileOpen, Open;
      case WriteBack =>
        hide DataWhileOpen, Open;
      case Irq(fatal, up) =>
        ServiceKeepsGood(w, fatal, up);
        hide DataWhileOpen, Open, Serviced;
      case Look =>
        hide DataWhileOpen, Open;
      case Serve(fatal, up) => PollKeepsGood(w, fatal, up);
      case Start(packet, up) => StartKeepsGood(w, packet, up);
      case Read =>
        hide DataWhileOpen, Open;
    }
  }

  /** No delivery without a finished descriptor, and none twice: what a step delivers is what
      the descriptor held, and the descriptor is armed again for the next one. */
  lemma DeliveryConsumes(w: World, step: Step)
    requires Good(w) && Enabled(w, step) && w.d.active && Next(w, step).d.active && Next(w, step).d.delivered != w.d.delivered
    ensures w.d.td == Done(|Content(w.d)|) && Next(w, step).d.delivered == w.d.delivered + [Content(w.d)]
    ensures Next(w, step).d.td == Pending && Next(w, step).d.tdToggle == 1 - w.d.tdToggle
  {
    hide DataWhileOpen, Open, Overlaid, Recovered;
    match step {
      case Irq(fatal, up) =>
      case Serve(fatal, up) => RecoveredKeeps(w, fatal, up);
      case _ =>
    }
  }

  lemma RecoveredKeeps(w: World, fatal: bool, up: bool)
    ensures
      var s, d := Serviced(w.d, fatal, up), Polled(w.d, w.looked.Some? && w.looked.value, fatal, up);
      d.delivered == s.delivered && d.active == s.active && d.tdToggle == s.tdToggle && (s.active && s.status == Ready ==> d.td == s.td)
  {
    hide Serviced;
  }

  /** A repeated packet is thrown away: once the controller has accepted a packet whose
      acknowledgement got lost, the device's next answers change nothing but what it knows. */
  lemma RepetitionIsDiscarded(w: World, payload: Payload, heard: bool)
    requires Good(w) && w.d.active && Enabled(w, Answer(payload, heard)) && w.acked < |w.transferred|
    ensures Next(w, Answer(payload, heard)) == w.(acked := if heard then w.acked + 1 else w.acked)
    ensures payload == w.transferred[w.acked]
  {
  }

  // ---- Progress ----

  /** Nobody will touch the stream again: the controller sees no descriptor, and the driver waits
      for one that is pending. */
  ghost predicate Stuck(w: World) {
    w.d.active && w.d.td.Pending? && !w.owed && !HardwareMayAct(w.d)
  }

  /** Between polls an active stream is stuck exactly when its descriptor was armed again before the
      controller had unlinked it, once the late write has come. */
  lemma StuckIffRaced(w: World)
    requires Good(w) && w.d.active && w.looked.None?
    ensures Stuck(w) <==> w.raced && !w.owed
    ensures !w.raced ==> Working(w) || !w.d.td.Pending?
  {
  }

  /** A race begins exactly with a delivery made while the controller still has to unlink the
      descriptor: by an interrupt, or by a poll that saw the descriptor still pending. */
  lemma RaceIff(w: World, step: Step)
    requires Good(w) && Enabled(w, step) && w.d.active && !w.raced && Next(w, step).d.active
    ensures Next(w, step).raced <==> w.owed && Next(w, step).d.delivered != w.d.delivered
    ensures Next(w, step).raced ==> step.Irq? || (step.Serve? && w.looked == Some(false))
  {
    hide DataWhileOpen, Open;
  }

  /** That is what the halt in the poll is for: behind it nothing is left to write, so the delivery
      cannot race. */
  lemma HaltedPollNeverRaces(w: World, fatal: bool, up: bool)
    requires Good(w) && w.d.active && w.looked == Some(true) && !w.raced
    ensures !w.owed && !Next(w, Serve(fatal, up)).raced
  {
  }

  /** An interrupt between the two writes of the controller loses the descriptor. */
  lemma EarlyInterruptSticks(w: World)
    requires Good(w) && w.d.active && w.looked.None? && w.d.td.Done? && w.owed
    ensures
      var v := Next(w, Irq(false, true));
      Enabled(v, WriteBack) && Good(Next(v, WriteBack)) && Stuck(Next(v, WriteBack))
  {
    StepKeepsGood(w, Irq(false, true));
    hide DataWhileOpen, Open;
  }

  /** A stuck stream stays stuck and delivers nothing until the device goes or the controller fails. */
  lemma StuckStays(w: World, step: Step)
    requires Good(w) && Stuck(w) && w.raced && Enabled(w, step)
    requires (step.Irq? || step.Serve?) ==> step.up && !step.fatal
    ensures Next(w, step).d.delivered == w.d.delivered && Next(w, step).raced && Stuck(Next(w, step))
  {
  }

  /** A poll with the port up hands over a finished transfer and leaves the stream ready for the
      next one, whether or not the controller was through. */
  lemma PollDelivers(w: World)
    requires Good(w) && w.d.active && w.looked.None? && w.d.td.Done?
    ensures
      var v := Next(Next(w, Look), Serve(false, true));
      v.d.active && v.d.delivered == w.transferred && v.d.queue == Queued(w.d.queue, Content(w.d)) && Working(v) && !v.raced
  {
    hide DataWhileOpen, Open;
  }

  /** Whatever ended the stream short of a controller error, the next poll makes a new one possible. */
  lemma PollRecovers(w: World, fatal: bool, up: bool, packet: nat)
    requires Good(w) && w.looked.Some?
    ensures
      var d := Next(w, Serve(fatal, up)).d;
      d.status == Ready || d.status == ControllerError
    ensures
      var d := Next(w, Serve(fatal, up)).d;
      d.status == Ready && !d.active && (w.d.active || w.d.status != Ready) ==>
        d.queue == [] && d.running && Started(d, packet, true).active && HardwareMayAct(Started(d, packet, true))
  {
    hide DataWhileOpen, Open;
  }

  /** An interrupt or a poll that finds the port down. */
  predicate SeesPortDown(step: Step) {
    (step.Irq? || step.Serve?) && !step.up
  }

  /** It ends the stream, idle descriptor or not, delivers nothing and tells the application once; a
      poll makes the controller ready for the next stream as well. */
  lemma LossIsNoticed(w: World, step: Step)
    requires Good(w) && Enabled(w, step) && SeesPortDown(step)
    ensures !Next(w, step).d.active && Next(w, step).d.delivered == w.d.delivered
    ensures w.d.active ==> Next(w, step).d.events == w.d.events + [Disconnect]
    ensures w.d.active && !step.fatal ==>
      if step.Irq? then Next(w, step).d.status == Disconnected && !Next(w, step).d.linked && Next(w, step).d.queue == w.d.queue
      else Reopened(Next(w, step).d)
  {
    ServiceMeans(w.d, step.fatal, step.up);
    hide Serviced, DataWhileOpen, Open, Synchronized, Serviceable;
  }

  /** Until a start finds the port up again, no stream is active and nothing is delivered. */
  lemma InactiveStays(w: World, step: Step)
    requires Enabled(w, step) && !w.d.active && !(step.Start? && step.up)
    ensures !Next(w, step).d.active && Next(w, step).d.delivered == w.d.delivered
  {
    hide Overlaid;
  }

  // ---- Runs ----

  ghost predicate Steps(w: World, step: Step, v: World) {
    Enabled(w, step) && v == Next(w, step)
  }

  ghost predicate IsRun(ws: seq<World>, steps: seq<Step>) {
    |ws| == |steps| + 1 && Good(ws[0]) && forall k | 0 <= k < |steps| :: Steps(ws[k], steps[k], ws[k + 1])
  }

  /** Exactly once, in order: what was delivered are the device's first packets, with at most one
      accepted packet not delivered yet; every acknowledged packet was accepted. */
  ghost predicate InStep(w: World) {
    w.d.delivered <= w.offered && |w.transferred| <= |w.d.delivered| + 1 && w.d.delivered <= w.transferred <= w.offered &&
    w.acked <= |w.transferred| <= w.acked + 1 && |w.offered| <= w.acked + 1 && w.d.toggle == |w.d.delivered| % 2
  }

  /** In every state of every interleaving, with acknowledgements lost and packets repeated: while a
      stream is active each packet of the device is delivered at most once and in order, and none
      that the device saw acknowledged is missing but for at most the one in the descriptor; data
      events occur only inside a stream. */
  lemma {:induction false} RunsStayGood(ws: seq<World>, steps: seq<Step>)
    requires IsRun(ws, steps)
    ensures Good(ws[|steps|]) && (ws[|steps|].d.active ==> InStep(ws[|steps|]))
    decreases |steps|
  {
    if steps != [] {
      var k := |steps| - 1;
      hide Good, Enabled, Next;
      var ws', steps' := ws[..k + 1], steps[..k];
      forall i | 0 <= i < k ensures Steps(ws'[i], steps'[i], ws'[i + 1]) {
        assert Steps(ws[i], steps[i], ws[i + 1]);
      }
      RunsStayGood(ws', steps');
      assert Steps(ws[k], steps[k], ws[k + 1]);
      StepKeepsGood(ws[k], steps[k]);
    }
    AtMostOneInFlight(ws[|steps|]);
  }

  /** Over whole runs: once an interrupt or a poll has seen the port down, no stream is active and no
      report is delivered until a start finds the port up. */
  lemma {:induction false} NoStreamOnADeadPort(ws: seq<World>, steps: seq<Step>, k: nat, n: nat)
    requires IsRun(ws, steps) && k < n <= |steps| && SeesPortDown(steps[k])
    requires forall i | k < i < n :: !(steps[i].Start? && steps[i].up)
    ensures !ws[n].d.active && ws[n].d.delivered == ws[k].d.delivered
    decreases n
  {
    assert Steps(ws[n - 1], steps[n - 1], ws[n]);
    if n == k + 1 {
      ReachedIsGood(ws, steps, k);
      LossIsNoticed(ws[k], steps[k]);
    } else {
      NoStreamOnADeadPort(ws, steps, k, n - 1);
      InactiveStays(ws[n - 1], steps[n - 1]);
    }
  }

  lemma ReachedIsGood(ws: seq<World>, steps: seq<Step>, k: nat)
    requires IsRun(ws, steps) && k <= |steps|
    ensures Good(ws[k])
  {
    hide Good, Enabled, Next;
    var ws', steps' := ws[..k + 1], steps[..k];
    forall i | 0 <= i < k ensures Steps(ws'[i], steps'[i], ws'[i + 1]) {
      assert Steps(ws[i], steps[i], ws[i + 1]);
    }
    RunsStayGood(ws', steps');
  }

  lemma AtMostOneInFlight(w: World)
    requires Good(w)
    ensures w.d.active ==> InStep(w)
  {
  }

  lemma IdleIsGood(d: Driver)
    requires d.status == Ready && !d.active && d.queue == [] && d.events == [] && d.contested == 0
    ensures Good(World(d, [], 0, [], false, false, None))
  {
  }
}
