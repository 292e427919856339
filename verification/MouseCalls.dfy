/** Calls of the mouse service that are not disturbed, and what a disturbance at the wrong moment
    does: undisturbed accesses add up to the service's specification. */
module MouseCalls {
  import opened MachineWords
  import opened MouseEvents
  import opened MouseInterleaving

  // ---- Inputs on which a call answers with what is out of date ----

  function Moves(w: World, n: nat): (v: World)
    requires Sized(w)
    ensures Sized(v)
  {
    if n == 0 then w else Next(Moves(w, n - 1), Move)
  }

  function Words(slot: Slot, n: nat): (r: seq<u32>)
    requires n <= 5
    ensures |r| == n
  {
    if n == 0 then [] else Words(slot, n - 1) + [Part(slot, n - 1)]
  }

  lemma {:induction false} ReadsWords(w: World, call: Call, remaining: nat, n: nat)
    requires Sized(w) && w.place == Check(call, remaining) && remaining > 0 && w.tail != w.head && n <= 5
    ensures Moves(w, n + 1) == w.(place := Read(call, remaining, Words(w.slots[w.tail], n)))
  {
    MovesMore(w, n);
    if n > 0 {
      ReadsWords(w, call, remaining, n - 1);
    } else {
      assert Moves(w, 0) == w;
    }
  }

  /** From the head of the scan, ten undisturbed accesses answer with the report at the tail. */
  lemma TakesReport(w: World, call: Call, remaining: nat)
    requires Sized(w) && RingGood(w) && w.place == Check(call, remaining) && remaining > 0 && w.taken < |w.accepted|
    requires Deliverable(w.accepted[w.taken], w.connected)
    ensures
      var r, v := w.accepted[w.taken], Moves(w, 10);
      v == w.(tail := v.tail, taken := w.taken + 1, fates := v.fates, buttons := w.buttons[r.controller := r.data[0] % 8],
              place := Unlock(call, Event(r.controller, r.data[1], r.data[2], r.data[0] % 8)))
  {
    hide *;
    TailReport(w);
    ReadsWords(w, call, remaining, 5);
    MovesMore(w, 6);
    MovesMore(w, 7);
    MovesMore(w, 8);
    MovesMore(w, 9);
    Hands(Moves(w, 6), call, remaining, Words(w.slots[w.tail], 5));
  }

  /** Nine take a report that cannot be delivered out of the way. */
  lemma SkipsReport(w: World, call: Call, remaining: nat)
    requires Sized(w) && RingGood(w) && w.place == Check(call, remaining) && remaining > 0 && w.taken < |w.accepted|
    requires !Deliverable(w.accepted[w.taken], w.connected)
    ensures
      var v := Moves(w, 9);
      RingGood(v) && v == w.(tail := v.tail, taken := w.taken + 1, fates := v.fates, place := Check(call, remaining - 1))
  {
    hide *;
    TailReport(w);
    ReadsWords(w, call, remaining, 5);
    MovesMore(w, 6);
    MovesMore(w, 7);
    MovesMore(w, 8);
    SameRing(w, Moves(w, 6));
    Skips(Moves(w, 6), call, remaining, Words(w.slots[w.tail], 5));
  }

  lemma SameRing(w: World, v: World)
    requires v == w.(place := v.place)
    ensures RingGood(v) == RingGood(w)
  {
  }

  lemma TailReport(w: World)
    requires Sized(w) && RingGood(w) && w.taken < |w.accepted|
    ensures
      var r, got := w.accepted[w.taken], Words(w.slots[w.tail], 5);
      w.tail != w.head && (Deliverable(r, w.connected) <==> Usable(got) && w.connected[got[0]]) && got[0] == r.controller &&
      (Deliverable(r, w.connected) ==> |r.data| >= 3 && got[2] == r.data[0] && got[3] == r.data[1] && got[4] == r.data[2] && r.controller < CONTROLLERS)
  {
    var r, got := w.accepted[w.taken], Words(w.slots[w.tail], 5);
    SlotsDiffer(|w.accepted|, w.taken);
    WordsAre(w.slots[w.tail]);
    hide Part, Words;
    CopyIsReport(w.slots[w.tail], r, got);
    UsableIsWhole(r, got);
  }

  lemma WordsAre(slot: Slot)
    ensures forall j | 0 <= j < 5 :: Words(slot, 5)[j] == Part(slot, j)
  {
    var one, two := Words(slot, 1), Words(slot, 2);
    assert one == [Part(slot, 0)];
    assert two == [Part(slot, 0), Part(slot, 1)];
    assert Words(slot, 4) == two + [Part(slot, 2), Part(slot, 3)];
    assert Words(slot, 5) == [Part(slot, 0), Part(slot, 1), Part(slot, 2), Part(slot, 3), Part(slot, 4)];
  }

  /** The last four accesses: the packet leaves the ring, the bit is tested, the buttons stored. */
  lemma Hands(w: World, call: Call, remaining: nat, got: seq<u32>)
    requires Sized(w) && w.place == Read(call, remaining, got) && Usable(got) && w.connected[got[0]]
    ensures
      var v := Next(Next(Next(Next(w, Move), Move), Move), Move);
      v == w.(tail := v.tail, taken := w.taken + 1, fates := v.fates, buttons := w.buttons[got[0] := got[2] % 8],
              place := Unlock(call, Event(got[0], got[3] % 256, got[4] % 256, got[2] % 8)))
  {
    var a := w.(place := Advance(call, remaining, got));
    var b := a.(tail := (w.tail + 1) % QUEUE_SIZE, taken := w.taken + 1, place := Test(call, remaining, got));
    assert Next(w, Move) == a;
    assert Next(a, Move) == b;
    assert Next(b, Move) == b.(place := Store(call, got));
  }

  lemma Skips(w: World, call: Call, remaining: nat, got: seq<u32>)
    requires Sized(w) && RingGood(w) && w.taken < |w.accepted| && remaining > 0
    requires w.place == Read(call, remaining, got) && |got| == 5 && !(Usable(got) && w.connected[got[0]])
    ensures
      var v := Next(Next(Next(w, Move), Move), Move);
      RingGood(v) && v == w.(tail := v.tail, taken := w.taken + 1, fates := v.fates, place := Check(call, remaining - 1))
  {
    var a := w.(place := Advance(call, remaining, got));
    var b := a.(tail := (w.tail + 1) % QUEUE_SIZE, taken := w.taken + 1, place := Test(call, remaining, got));
    assert Next(w, Move) == a;
    assert Next(a, Move) == b;
    RingArithmetic(w.taken, w.taken);
    hide Carries, Storable;
  }

  lemma MovesMore(w: World, n: nat)
    requires Sized(w)
    ensures Moves(w, n + 1) == Next(Moves(w, n), Move)
  {
  }

  /** Any disconnection between the comparison and the scan lets the waiting report through: of
      another mouse, or of the mouse itself when it comes straight back. */
  lemma StaleEventComesOut(w: World, call: Call, remaining: nat, id: u32)
    requires Good(w) && w.place == Check(call, remaining) && remaining > 0 && w.taken < |w.accepted| && id < CONTROLLERS
    requires Whole(w.accepted[w.taken]) && w.connected[w.accepted[w.taken].controller]
    ensures
      var r := w.accepted[w.taken];
      var pulled := Next(Next(w, Unplug(id)), Plug(r.controller));
      Sized(pulled) &&
      var v := Moves(pulled, 10);
      v.place == Unlock(call, Event(r.controller, r.data[1], r.data[2], r.data[0] % 8)) && v.taken - 1 < v.fence[id]
  {
    var r := w.accepted[w.taken];
    var pulled := Next(Next(w, Unplug(id)), Plug(r.controller));
    StepKeepsGood(w, Unplug(id));
    StepKeepsGood(Next(w, Unplug(id)), Plug(r.controller));
    TakesReport(pulled, call, remaining);
  }

  /** Such a moment exists: mice 0 and 1 are connected, one report of mouse 0 waits, and an event
      request has just compared the counters. */
  lemma StaleStart() returns (w: World)
    ensures Good(w) && w.place == Check(Call(0, 0, 0, 1), QUEUE_SIZE) && w.taken == 0 && w.accepted == [Report(0, [1, 5, 0])]
    ensures w.connected == [true, true, false, false]
  {
    var empty: Slot := Slot(0, 0, seq(REPORT_BYTES, _ => 0));
    var first := Filled(empty, Report(0, [1, 5, 0]));
    w := World(seq(QUEUE_SIZE, i => if i == 0 then first else empty), 1, 0, 0, 0, true, [true, true, false, false], Released(),
               Check(Call(0, 0, 0, 1), QUEUE_SIZE), [Report(0, [1, 5, 0])], 0, [], [0, 0, 0, 0], [false, false, false, false], 0, 0, 0);
    assert Carries(first, Report(0, [1, 5, 0]));
  }

  /** A disconnection between the test of the connection bit and the store leaves the buttons of a
      mouse that is gone. */
  lemma UnpluggedHoldsButtons(w: World, call: Call, got: seq<u32>)
    requires Good(w) && w.place == Store(call, got) && got[2] % 8 != 0
    ensures
      var v := Next(Next(w, Unplug(got[0])), Move);
      Good(v) && v.place.Unlock? && !v.connected[got[0]] && v.buttons[got[0]] != 0
  {
    StepKeepsGood(w, Unplug(got[0]));
    StepKeepsGood(Next(w, Unplug(got[0])), Move);
    hide RingGood, ScanGood, LossGood, FenceGood, AnyButton, Good;
    UsableAtStore(w);
  }

  lemma UsableAtStore(w: World)
    requires Good(w) && w.place.Store?
    ensures Sized(w) && Usable(w.place.got)
  {
  }

  // ---- Undisturbed calls ----

  /** The page as the uninterrupted service sees it. */
  function View(w: World): Mouse
    requires w.taken <= |w.accepted|
  {
    Mouse(w.accepted[w.taken..], w.dropped, w.observed, w.connected, w.buttons)
  }

  lemma {:induction false} MovesAdd(w: World, m: nat, n: nat)
    requires Sized(w)
    ensures Moves(w, m + n) == Moves(Moves(w, m), n)
    decreases n
  {
    hide *;
    if n > 0 {
      MovesAdd(w, m, n - 1);
      MovesMore(w, m + n - 1);
      MovesMore(Moves(w, m), n - 1);
    } else {
      MovesNone(Moves(w, m));
    }
  }

  lemma MovesNone(w: World)
    requires Sized(w)
    ensures Moves(w, 0) == w && Moves(w, 1) == Next(w, Move)
  {
    assert Moves(w, 1) == Next(Moves(w, 0), Move);
  }

  /** `n` undisturbed accesses from `w` on the request answers as `Requested` does from `m`. */
  ghost predicate Answers(w: World, n: nat, result: (Mouse, Reply))
    requires Sized(w)
  {
    var v := Moves(w, n);
    v.place.Unlock? && v.taken <= |v.accepted| && (View(v), v.place.reply) == result
  }

  lemma AnswersLater(w: World, m: nat, n: nat, result: (Mouse, Reply))
    requires Sized(w) && Answers(Moves(w, m), n, result)
    ensures Answers(w, m + n, result)
  {
    MovesAdd(w, m, n);
    hide Moves;
  }

  /** The forgetting loop, from mouse `id` on. */
  function ForgottenFrom(buttons: seq<ButtonMask>, connected: seq<bool>, id: nat): (r: seq<ButtonMask>)
    requires |buttons| == |connected|
    ensures |r| == |buttons|
  {
    seq(|buttons|, i requires 0 <= i < |buttons| => if i >= id && !connected[i] then 0 else buttons[i])
  }

  lemma {:induction false} ForgetRuns(w: World, call: Call, id: nat) returns (n: nat, v: World)
    requires Sized(w) && w.place == Forget(call, id) && id <= CONTROLLERS
    ensures Sized(v) && v == Moves(w, n) && v == w.(gone := v.gone, buttons := ForgottenFrom(w.buttons, w.connected, id), place := Compare(call))
    decreases CONTROLLERS - id
  {
    hide *;
    MovesNone(w);
    ForgetStep(w, call, id);
    ForgottenStep(w.buttons, w.connected, id);
    var a := Next(w, Move);
    if id == CONTROLLERS {
      n, v := 1, a;
    } else {
      var m;
      if w.connected[id] {
        m, v := ForgetRuns(a, call, id + 1);
        n := 1 + m;
        MovesAdd(w, 1, m);
      } else {
        MovesNone(a);
        m, v := ForgetRuns(Next(a, Move), call, id + 1);
        n := 2 + m;
        MovesAdd(w, 1, 1);
        MovesAdd(w, 2, m);
      }
    }
  }

  lemma ForgetStep(w: World, call: Call, id: nat)
    requires Sized(w) && w.place == Forget(call, id) && id <= CONTROLLERS
    ensures |w.connected| == |w.buttons| == CONTROLLERS && Sized(Next(w, Move))
    ensures
      var a := Next(w, Move);
      if id == CONTROLLERS then a == w.(place := Compare(call))
      else if w.connected[id] then a == w.(place := Forget(call, id + 1))
      else a == w.(gone := a.gone, place := a.place) &&
           Next(a, Move) == w.(gone := a.gone, buttons := w.buttons[id := 0], place := Forget(call, id + 1)) && Sized(Next(a, Move))
  {
  }

  lemma ForgottenStep(buttons: seq<ButtonMask>, connected: seq<bool>, id: nat)
    requires |buttons| == |connected| == CONTROLLERS
    ensures id >= CONTROLLERS ==> ForgottenFrom(buttons, connected, id) == buttons
    ensures id < CONTROLLERS && connected[id] ==> ForgottenFrom(buttons, connected, id) == ForgottenFrom(buttons, connected, id + 1)
    ensures id < CONTROLLERS && !connected[id] ==>
      ForgottenFrom(buttons, connected, id) == ForgottenFrom(buttons[id := 0], connected, id + 1)
  {
  }

  // ---- The scan ----

  lemma EventReadSkip(m: Mouse)
    requires MouseEvents.Shape(m) && m.waiting != [] && !Deliverable(m.waiting[0], m.connected)
    ensures EventRead(m) == EventRead(m.(waiting := m.waiting[1..]))
  {
    var i := FirstDeliverable(m.waiting[1..], m.connected);
    assert FirstDeliverable(m.waiting, m.connected) == 1 + i;
    assert m.waiting[1 + i..] == m.waiting[1..][i..];
    if i < |m.waiting| - 1 { assert m.waiting[1 + i + 1..] == m.waiting[1..][i + 1..]; }
  }

  lemma {:induction false} ScanRuns(w: World, call: Call, remaining: nat) returns (n: nat)
    requires Sized(w) && RingGood(w) && w.place == Check(call, remaining) && |w.accepted| - w.taken < remaining
    ensures w.taken <= |w.accepted| && MouseEvents.Shape(View(w)) && Answers(w, n, EventRead(View(w)))
    decreases remaining
  {
    hide *;
    ViewShape(w);
    if w.taken == |w.accepted| {
      n := 1;
      EmptyRing(w);
    } else if Deliverable(w.accepted[w.taken], w.connected) {
      n := 10;
      TakesReport(w, call, remaining);
      TailReport(w);
      EventTaken(w, Moves(w, 10), call);
      AnswersIs(w, 10, EventRead(View(w)));
    } else {
      SkipsReport(w, call, remaining);
      var v := Moves(w, 9);
      var k := ScanRuns(v, call, remaining - 1);
      EventSkipped(w, v);
      n := 9 + k;
      AnswersLater(w, 9, k, EventRead(View(v)));
    }
  }

  lemma AnswersIs(w: World, n: nat, result: (Mouse, Reply))
    requires Sized(w)
    ensures
      var v := Moves(w, n);
      Answers(w, n, result) <==> v.place.Unlock? && v.taken <= |v.accepted| && (View(v), v.place.reply) == result
  {
  }

  lemma ViewShape(w: World)
    requires Sized(w) && RingGood(w)
    ensures w.taken <= |w.accepted| < w.taken + QUEUE_SIZE && MouseEvents.Shape(View(w)) && |w.connected| == |w.buttons| == CONTROLLERS
  {
  }

  lemma EmptyRing(w: World)
    requires Sized(w) && RingGood(w) && w.taken == |w.accepted| && w.place.Check? && MouseEvents.Shape(View(w))
    ensures Answers(w, 1, EventRead(View(w)))
  {
    MovesNone(w);
    assert View(w).waiting == [];
  }

  lemma EventTaken(w: World, v: World, call: Call)
    requires Sized(w) && w.taken < |w.accepted| && MouseEvents.Shape(View(w)) && Deliverable(w.accepted[w.taken], w.connected)
    requires
      var r := w.accepted[w.taken];
      |r.data| >= 3 && r.controller < CONTROLLERS &&
      v == w.(tail := v.tail, taken := w.taken + 1, fates := v.fates, buttons := w.buttons[r.controller := r.data[0] % 8],
              place := Unlock(call, Event(r.controller, r.data[1], r.data[2], r.data[0] % 8)))
    ensures v.taken <= |v.accepted| && (View(v), v.place.reply) == EventRead(View(w))
  {
    var m := View(w);
    assert m.waiting[0] == w.accepted[w.taken] && FirstDeliverable(m.waiting, m.connected) == 0;
    assert View(v).waiting == m.waiting[1..];
  }

  lemma EventSkipped(w: World, v: World)
    requires w.taken < |w.accepted| && MouseEvents.Shape(View(w)) && !Deliverable(w.accepted[w.taken], w.connected)
    requires v == w.(tail := v.tail, taken := w.taken + 1, fates := v.fates, place := v.place)
    ensures MouseEvents.Shape(View(v)) && EventRead(View(v)) == EventRead(View(w))
  {
    var m := View(w);
    assert View(v) == m.(waiting := m.waiting[1..]);
    EventReadSkip(m);
  }

  // ---- A whole undisturbed call ----

  /** `Requested` behind the forgetting loop. */
  function AfterForgetting(m: Mouse, op: u32): (Mouse, Reply)
    requires MouseEvents.Shape(m)
  {
    if m.observed != m.dropped then (m.(waiting := [], observed := m.dropped, buttons := Released()), Lost)
    else if op == 2 then (m, Devices(m.connected))
    else if op == 1 then (m, Buttons(AnyButton(m.buttons)))
    else EventRead(m)
  }

  function LookAnswer(m: Mouse, op: u32): Reply
    requires MouseEvents.Shape(m)
  {
    if op == 2 then Devices(m.connected) else Buttons(AnyButton(m.buttons))
  }

  lemma CompareStep(w: World, call: Call)
    requires Sized(w) && RingGood(w) && w.place == Compare(call) && call.op <= 2 && MouseEvents.Shape(View(w))
    ensures
      var a, c, m := Next(w, Move), call.(from := w.taken, mark := |w.accepted|), View(w);
      Sized(a) && a == w.(place := a.place) && View(a) == m &&
      if w.observed != w.dropped
      then a.place == Observe(call) && AfterForgetting(m, call.op) == (m.(waiting := [], observed := m.dropped, buttons := Released()), Lost)
      else if call.op == 0 then a.place == Check(c, QUEUE_SIZE) && AfterForgetting(m, 0) == EventRead(m)
      else a.place == Answer(c) && AfterForgetting(m, call.op) == (m, LookAnswer(m, call.op))
  {
    hide RingGood, EventRead, AnyButton;
  }

  lemma LookAnswerIs(m: Mouse, op: u32)
    requires MouseEvents.Shape(m)
    ensures LookAnswer(m, op) == if op == 2 then Devices(m.connected) else Buttons(AnyButton(m.buttons))
  {
  }

  /** The four accesses of a request that found a loss. */
  lemma LossRuns(w: World, call: Call)
    requires Sized(w) && w.place == Observe(call) && w.taken <= |w.accepted|
    ensures
      var v := Moves(w, 4);
      v.place.Unlock? && v.place.reply == Lost && v.taken == |v.accepted| &&
      View(v) == View(w).(waiting := [], observed := w.dropped, buttons := Released())
  {
    var c := call.(from := w.taken, mark := |w.accepted|);
    var a := w.(observed := w.dropped, seen := w.lost, place := ReadHead(call));
    var b := a.(place := Jump(c, w.head));
    var d := Next(b, Move);
    assert Next(w, Move) == a;
    assert Next(a, Move) == b;
    assert d == b.(tail := d.tail, taken := |w.accepted|, fates := d.fates, place := Release(c));
    MovesNone(w);
    MovesMore(w, 1);
    MovesMore(w, 2);
    MovesMore(w, 3);
    hide Moves;
    assert Moves(w, 4) == Next(d, Move);
  }

  lemma LookRuns(w: World, call: Call)
    requires Sized(w) && w.place == Answer(call) && w.taken <= |w.accepted|
    ensures
      var v := Next(w, Move);
      v.place == Unlock(call, if call.op == 2 then Devices(w.connected) else Buttons(AnyButton(w.buttons))) && View(v) == View(w) &&
      v.taken <= |v.accepted|
  {
    hide AnyButton;
  }

  lemma ViewFields(w: World)
    requires w.taken <= |w.accepted|
    ensures View(w).dropped == w.dropped && View(w).observed == w.observed && View(w).connected == w.connected && View(w).buttons == w.buttons
  {
  }

  /** From the comparison on. */
  lemma CompareRuns(w: World, call: Call) returns (n: nat)
    requires Sized(w) && RingGood(w) && w.place == Compare(call) && call.op <= 2
    ensures w.taken <= |w.accepted| && MouseEvents.Shape(View(w)) && Answers(w, n, AfterForgetting(View(w), call.op))
  {
    hide *;
    ViewShape(w);
    ViewFields(w);
    MovesNone(w);
    CompareStep(w, call);
    var a := Next(w, Move);
    SameRing(w, a);
    if w.observed != w.dropped {
      n := 5;
      LossRuns(a, call);
      MovesAdd(w, 1, 4);
      AnswersIs(w, 5, AfterForgetting(View(w), call.op));
    } else if call.op == 0 {
      var k := ScanRuns(a, a.place.call, QUEUE_SIZE);
      n := 1 + k;
      AnswersLater(w, 1, k, EventRead(View(a)));
    } else {
      n := 2;
      MovesNone(a);
      MovesAdd(w, 1, 1);
      LookRuns(a, a.place.call);
      LookAnswerIs(View(w), call.op);
      AnswersIs(w, 2, AfterForgetting(View(w), call.op));
    }
  }

  lemma Forgetting(m: Mouse, op: u32)
    requires MouseEvents.Shape(m) && op <= 2
    ensures |m.buttons| == |m.connected| == CONTROLLERS
    ensures
      var f := m.(buttons := ForgottenFrom(m.buttons, m.connected, 0));
      MouseEvents.Shape(f) && AfterForgetting(f, op) == Requested(m, op)
  {
    assert ForgottenFrom(m.buttons, m.connected, 0) == Forgotten(m.buttons, m.connected);
    hide EventRead, AnyButton;
  }

  lemma ForgetKeeps(w: World, v: World)
    requires Sized(w) && RingGood(w) && w.taken <= |w.accepted| && v == w.(gone := v.gone, buttons := ForgottenFrom(w.buttons, w.connected, 0), place := v.place)
    ensures RingGood(v) && View(v) == View(w).(buttons := ForgottenFrom(View(w).buttons, View(w).connected, 0))
  {
    hide ForgottenFrom;
  }

  /** A call that no interrupt disturbs answers, and leaves the page, as `Requested` says: the single
      accesses refine the whole service. */
  lemma UndisturbedIsRequested(w: World, op: u32) returns (n: nat)
    requires Good(w) && !w.lock
    ensures w.taken <= |w.accepted| && MouseEvents.Shape(View(w)) && Sized(Next(w, Enter(op)))
    ensures Answers(Next(w, Enter(op)), n, Requested(View(w), op))
  {
    hide *;
    GoodParts(w);
    ViewShape(w);
    EnterStep(w, op);
    var e, call := Next(w, Enter(op)), Call(op, w.lost, 0, 0);
    if op > 2 {
      n := 0;
      MovesNone(e);
      AnswersIs(e, 0, Requested(View(w), op));
    } else {
      SameRing(e, e);
      var k, v := ForgetRuns(e, call, 0);
      ForgetKeeps(e, v);
      ViewShape(v);
      var j := CompareRuns(v, call);
      ForgettingOf(w, e, v, op);
      AnswersLater(e, k, j, AfterForgetting(View(v), op));
      n := k + j;
    }
  }

  lemma GoodParts(w: World)
    requires Good(w)
    ensures Sized(w) && RingGood(w)
  {
  }

  lemma EnterStep(w: World, op: u32)
    requires Sized(w) && RingGood(w) && !w.lock && MouseEvents.Shape(View(w))
    ensures
      var e, call := Next(w, Enter(op)), Call(op, w.lost, 0, 0);
      Sized(e) && RingGood(e) && e.accepted == w.accepted && e.taken == w.taken && View(e) == View(w) &&
      if op > 2 then e.place == Unlock(call, BadRequest) && Requested(View(w), op) == (View(w), BadRequest) else e.place == Forget(call, 0)
  {
    hide EventRead, AnyButton, Carries, Storable;
  }

  lemma ForgettingOf(w: World, e: World, v: World, op: u32)
    requires w.taken <= |w.accepted| && e.taken <= |e.accepted| && v.taken <= |v.accepted| && View(e) == View(w) && op <= 2
    requires MouseEvents.Shape(View(w)) && MouseEvents.Shape(View(v))
    requires View(v) == View(e).(buttons := ForgottenFrom(View(e).buttons, View(e).connected, 0))
    ensures AfterForgetting(View(v), op) == Requested(View(w), op)
  {
    Forgetting(View(w), op);
    hide *;
  }

  /** Between two accesses of a request, each interrupt is the specified operation on the page. */
  lemma InterruptsAreSpecified(w: World, r: Report, id: u32)
    requires Sized(w) && RingGood(w)
    ensures w.taken <= |w.accepted| <= |Next(w, Arrives(r)).accepted| && Next(w, Arrives(r)).taken == w.taken
    ensures View(Next(w, Arrives(r))) == Queued(View(w), r)
    ensures
      var plugged, pulled := Next(w, Plug(id)), Next(w, Unplug(id));
      plugged.accepted == pulled.accepted == w.accepted && plugged.taken == pulled.taken == w.taken &&
      View(plugged) == Plugged(View(w), id) && View(pulled) == MouseEvents.Unplugged(View(w), id)
  {
    RingArithmetic(|w.accepted|, w.taken);
    assert (w.accepted + [r])[w.taken..] == w.accepted[w.taken..] + [r];
    hide Carries, Filled;
  }
}
