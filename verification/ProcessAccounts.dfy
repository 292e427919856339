/** The accounts of all processes together: which heap payloads, GDT entries, slots, table entries and
    tasks belong to whom, and what one process more or less does to each account. */
module ProcessAccounts {
  import opened MachineWords
  import opened Scheduler
  import opened ProcessBooks

  type People = map<u32, Pieces>   // by object address

  predicate Member(p: u32, q: Pieces) {
    q.address == p && Apart(q) && Whole(q) && GoodSelector(q.tssSelector) && GoodSelector(q.ldtSelector) &&
    q.tssSelector != q.ldtSelector && q.slot < PROCESS_MAX && q.entry < PROCESS_MAX
  }

  /** No piece is shared. */
  predicate Foreign(q: Pieces, r: Pieces) {
    Payloads(q) !! Payloads(r) && Entries(q) !! Entries(r) && q.slot != r.slot && q.entry != r.entry
  }

  ghost predicate Members(ps: People) {
    (forall p | p in ps :: Member(p, ps[p])) && forall p, r | p in ps && r in ps && p != r :: Foreign(ps[p], ps[r])
  }

  ghost predicate Holds(ps: People, x: int) {
    exists p :: p in ps && x in Payloads(ps[p])
  }

  /** Every live payload is the kernel's own or exactly one process's. */
  ghost predicate HeapAccount(live: map<int, int>, ps: People, rest: map<int, int>) {
    AllOwned(live, rest, ps) && AllNamed(live, rest, ps) && Contains(live, rest)
  }

  ghost predicate AllOwned(live: map<int, int>, rest: map<int, int>, ps: People) {
    forall p | p in ps :: Owned(live, rest, ps[p])
  }

  ghost predicate AllNamed(live: map<int, int>, rest: map<int, int>, ps: People) {
    forall x | x in live && x !in rest :: Holds(ps, x)
  }

  ghost predicate Owned(live: map<int, int>, rest: map<int, int>, q: Pieces) {
    Payloads(q) <= live.Keys && Payloads(q) !! rest.Keys
  }

  ghost predicate Contains(live: map<int, int>, rest: map<int, int>) {
    forall x | x in rest :: x in live && live[x] == rest[x]
  }

  ghost predicate HasEntry(ps: People, i: int) {
    exists p :: p in ps && i in Entries(ps[p])
  }

  ghost predicate GdtAccount(gdt: seq<bool>, ps: People, gdt0: seq<bool>) {
    |gdt| == |gdt0| == GDT_COUNT && AllMarked(gdt, ps, gdt0) && AllClear(ps, gdt0)
  }

  ghost predicate AllMarked(gdt: seq<bool>, ps: People, gdt0: seq<bool>)
    requires |gdt| == |gdt0| == GDT_COUNT
  {
    forall i | 0 <= i < GDT_COUNT :: gdt[i] == (gdt0[i] || HasEntry(ps, i))
  }

  ghost predicate AllClear(ps: People, gdt0: seq<bool>) {
    forall p | p in ps :: Clear(Entries(ps[p]), gdt0)
  }

  ghost predicate Clear(indices: set<int>, bits: seq<bool>) {
    forall i | i in indices :: 0 <= i < |bits| && !bits[i]
  }

  ghost predicate HasSlot(ps: People, i: int) {
    exists p :: p in ps && ps[p].slot == i
  }

  ghost predicate SlotAccount(slots: seq<bool>, ps: People) {
    |slots| == PROCESS_MAX && forall i | 0 <= i < PROCESS_MAX :: slots[i] == HasSlot(ps, i)
  }

  ghost predicate TableAccount(table: seq<u32>, active: nat, ps: People) {
    |table| == PROCESS_MAX && active == |ps| && (forall p | p in ps :: ps[p].entry < PROCESS_MAX && table[ps[p].entry] == p) &&
    forall i | 0 <= i < PROCESS_MAX && table[i] != 0 :: table[i] in ps && ps[table[i]].entry == i
  }

  ghost predicate HasTask(ps: People, sel: u16) {
    exists p :: p in ps && ps[p].tssSelector == sel
  }

  /** Runnable are exactly the processes that are not doomed. */
  ghost predicate QueueAccount(s: Sched, owner: u16, ps: People, gdt0: seq<bool>, doomed: u32) {
    Sound(s) && |gdt0| == GDT_COUNT && TakenSelector(gdt0, s.kernel) && (doomed != 0 ==> doomed in ps) &&
    (forall p | p in ps :: ps[p].tssSelector in NonZero(s.run) <==> p != doomed) &&
    (forall sel | sel in NonZero(s.run) :: HasTask(ps, sel)) && (owner != 0 ==> HasTask(ps, owner))
  }

  // ---- What the accounts give ----

  lemma EmptyHeap(live: map<int, int>, rest: map<int, int>)
    requires HeapAccount(live, map[], rest)
    ensures live == rest
  {
    forall x | x in live ensures x in rest { assert !Holds(map[], x); }
    forall x | x in rest ensures x in live && live[x] == rest[x] {}
    assert live.Keys == rest.Keys;
  }

  lemma EmptyGdt(gdt: seq<bool>, gdt0: seq<bool>)
    requires GdtAccount(gdt, map[], gdt0)
    ensures gdt == gdt0
  {
  }

  lemma EmptySlots(slots: seq<bool>, table: seq<u32>, active: nat)
    requires SlotAccount(slots, map[]) && TableAccount(table, active, map[])
    ensures active == 0 && |slots| == |table| == PROCESS_MAX && forall i | 0 <= i < PROCESS_MAX :: !slots[i] && table[i] == 0
  {
  }

  lemma EmptyRun(s: Sched, owner: u16, gdt0: seq<bool>, doomed: u32)
    requires QueueAccount(s, owner, map[], gdt0, doomed)
    ensures s.count == 0 && NonZero(s.run) == {} && owner == 0 && doomed == 0
  {
    forall i | 0 <= i < MAX_TASKS ensures s.run[i] == 0 {
      assert !HasTask(map[], s.run[i]);
    }
    AllOccupied(s.run, MAX_TASKS);
  }

  lemma TaskEntry(q: Pieces)
    requires GoodSelector(q.tssSelector) && GoodSelector(q.ldtSelector)
    ensures q.tssSelector != 0 ==> q.tssSelector / 8 in Entries(q) && q.tssSelector % 8 == 0
    ensures q.ldtSelector != 0 ==> q.ldtSelector / 8 in Entries(q) && q.ldtSelector % 8 == 0
  {
  }

  lemma OwnEntries(gdt: seq<bool>, ps: People, gdt0: seq<bool>, p: u32)
    requires GdtAccount(gdt, ps, gdt0) && p in ps && Member(p, ps[p])
    ensures ps[p].tssSelector / 8 < GDT_COUNT && !gdt0[ps[p].tssSelector / 8] && ps[p].ldtSelector / 8 < GDT_COUNT && !gdt0[ps[p].ldtSelector / 8]
  {
    TaskEntry(ps[p]);
    assert Clear(Entries(ps[p]), gdt0);
    hide Entries, HasEntry, Payloads, Apart, AllMarked;
  }

  lemma NotTheKernels(gdt0: seq<bool>, kernel: u16, sel: u16)
    requires TakenSelector(gdt0, kernel) && sel != 0 && sel / 8 < |gdt0| && !gdt0[sel / 8]
    ensures sel != kernel
  {
  }

  lemma ForeignSelectors(p: u32, q: Pieces, s: u32, r: Pieces)
    requires Member(p, q) && Member(s, r) && Foreign(q, r)
    ensures q.tssSelector != r.tssSelector && q.ldtSelector != r.tssSelector
  {
    TaskEntry(q);
    TaskEntry(r);
    hide Entries, Payloads, Apart;
  }

  lemma MemberSelectors(p: u32, q: Pieces)
    requires Member(p, q)
    ensures q.tssSelector != 0 && q.ldtSelector != 0 && q.tssSelector != q.ldtSelector && GoodSelector(q.tssSelector)
  {
  }

  lemma KernelTaken(gdt: seq<bool>, ps: People, gdt0: seq<bool>, kernel: u16)
    requires GdtAccount(gdt, ps, gdt0) && TakenSelector(gdt0, kernel)
    ensures TakenSelector(gdt, kernel)
  {
  }

  lemma Destroys(b: Books, p: u32, q: Pieces)
    requires Member(p, q) && Payloads(q) <= b.live.Keys && q.tssSelector != b.queue.kernel && q.ldtSelector != b.queue.kernel
    requires q.ldtSelector !in NonZero(b.queue.run) && q.ldtSelector != b.owner
    ensures Destroyable(b, q)
  {
  }

  lemma TaskOwner(ps: People, sel: u16) returns (r: u32)
    requires HasTask(ps, sel)
    ensures r in ps && ps[r].tssSelector == sel
  {
    r :| r in ps && ps[r].tssSelector == sel;
  }

  lemma QueuedHasTask(s: Sched, owner: u16, ps: People, gdt0: seq<bool>, doomed: u32, sel: u16)
    requires QueueAccount(s, owner, ps, gdt0, doomed) && sel != 0 && (sel in NonZero(s.run) || sel == owner)
    ensures HasTask(ps, sel)
  {
    hide HasTask, NonZero, Sound;
  }

  lemma DoomedNotQueued(s: Sched, owner: u16, ps: People, gdt0: seq<bool>, p: u32)
    requires QueueAccount(s, owner, ps, gdt0, p) && p in ps
    ensures ps[p].tssSelector !in NonZero(s.run)
  {
    hide HasTask, NonZero, Sound;
  }

  lemma RefusedIs(b: Books, q: Pieces)
    ensures Refused(b, q) <==> !Removal(b.queue, q.tssSelector).1
  {
  }

  // ---- A new process ----

  /** What process_create_protected32 promises makes the new process a proper member. */
  lemma WholeIsMember(b0: Books, b: Books, q: Pieces)
    requires Billed(b0, b, q, true) && Whole(q)
    ensures Member(q.address, q)
  {
    hide Sound, Allocated, Addition, Payloads, Entries, WithBits;
  }

  lemma ForeignIs(q: Pieces, r: Pieces)
    ensures Foreign(q, r) <==> Payloads(q) !! Payloads(r) && Entries(q) !! Entries(r) && q.slot != r.slot && q.entry != r.entry
  {
  }

  lemma ForeignPayloads(live: map<int, int>, live': map<int, int>, q: Pieces, p: u32, r: Pieces)
    requires LiveBilled(live, live', q) && Member(p, r) && Payloads(r) <= live.Keys
    ensures Payloads(q) !! Payloads(r) && p != q.address
  {
    AddressIsPayload(q);
    AddressIsPayload(r);
    hide Payloads, Apart;
  }

  lemma ForeignEntries(gdt: seq<bool>, gdt': seq<bool>, ps: People, gdt0: seq<bool>, q: Pieces, p: u32)
    requires GdtAccount(gdt, ps, gdt0) && GdtBilled(gdt, gdt', q) && p in ps
    ensures Entries(q) !! Entries(ps[p])
  {
    hide Entries, GoodSelector, WithBits;
    forall i | i in Entries(ps[p]) ensures i !in Entries(q) { assert HasEntry(ps, i); }
  }

  lemma ForeignPlaces(b: Books, b': Books, ps: People, q: Pieces, p: u32)
    requires SlotAccount(b.slots, ps) && TableAccount(b.table, b.active, ps) && SlotBilled(b.slots, b'.slots, q) && TableBilled(b, b', q)
    requires p in ps && Member(p, ps[p]) && Member(q.address, q)
    ensures q.slot != ps[p].slot && q.entry != ps[p].entry
  {
    AddressIsPayload(ps[p]);
    assert HasSlot(ps, ps[p].slot);
    hide Payloads, Apart, GoodSelector;
  }

  lemma AddressIsPayload(q: Pieces)
    requires Apart(q)
    ensures q.address as int in Payloads(q) && q.address != 0
  {
  }

  lemma HeapGains(live: map<int, int>, live': map<int, int>, ps: People, rest: map<int, int>, q: Pieces)
    requires HeapAccount(live, ps, rest) && LiveBilled(live, live', q) && q.address !in ps
    ensures HeapAccount(live', ps[q.address := q], rest)
  {
    hide *;
    HeapParts(live, ps, rest);
    LiveGains(live, live', rest, q);
    OwnedGain(live, live', rest, ps, q);
    NamedGain(live, live', rest, ps, q);
    HeapParts(live', ps[q.address := q], rest);
  }

  lemma HeapParts(live: map<int, int>, ps: People, rest: map<int, int>)
    ensures HeapAccount(live, ps, rest) <==> AllOwned(live, rest, ps) && AllNamed(live, rest, ps) && Contains(live, rest)
  {
  }

  lemma OwnedGain(live: map<int, int>, live': map<int, int>, rest: map<int, int>, ps: People, q: Pieces)
    requires AllOwned(live, rest, ps) && Owned(live', rest, q) && live.Keys <= live'.Keys
    ensures AllOwned(live', rest, ps[q.address := q])
  {
    hide Owned;
    forall p | p in ps ensures Owned(live', rest, ps[p]) { OwnedStill(live, live', rest, ps[p]); }
  }

  lemma NamedGain(live: map<int, int>, live': map<int, int>, rest: map<int, int>, ps: People, q: Pieces)
    requires AllNamed(live, rest, ps) && q.address !in ps && forall x | x in live' :: x in live || x in Payloads(q)
    ensures AllNamed(live', rest, ps[q.address := q])
  {
    hide Payloads, Holds;
    forall x | x in live' && x !in rest ensures Holds(ps[q.address := q], x) { MoreHeld(ps, q, x); }
  }

  lemma LiveGains(live: map<int, int>, live': map<int, int>, rest: map<int, int>, q: Pieces)
    requires LiveBilled(live, live', q) && Contains(live, rest)
    ensures Owned(live', rest, q) && Contains(live', rest) && live.Keys <= live'.Keys && forall x | x in live' :: x in live || x in Payloads(q)
  {
    hide Payloads, Apart;
    forall x | x in rest ensures x in live' && live'[x] == rest[x] && x !in Payloads(q) {
      assert x in live && x in live' - Payloads(q);
    }
  }

  lemma OwnedStill(live: map<int, int>, live': map<int, int>, rest: map<int, int>, q: Pieces)
    requires Owned(live, rest, q) && live.Keys <= live'.Keys
    ensures Owned(live', rest, q)
  {
  }

  lemma MoreHeld(ps: People, q: Pieces, x: int)
    requires q.address !in ps
    ensures Holds(ps[q.address := q], x) <==> x in Payloads(q) || Holds(ps, x)
  {
    var ps' := ps[q.address := q];
    hide Payloads;
    if x in Payloads(q) { assert q.address in ps' && x in Payloads(ps'[q.address]); }
    if p: u32 :| p in ps && x in Payloads(ps[p]) { assert p in ps' && x in Payloads(ps'[p]); }
  }

  lemma GdtGains(gdt: seq<bool>, gdt': seq<bool>, ps: People, gdt0: seq<bool>, q: Pieces)
    requires GdtAccount(gdt, ps, gdt0) && GdtBilled(gdt, gdt', q) && q.address !in ps
    ensures GdtAccount(gdt', ps[q.address := q], gdt0)
  {
    hide *;
    GdtParts(gdt, ps, gdt0);
    EntriesWereClear(gdt, gdt', ps, gdt0, q);
    MarksGain(gdt, ps, gdt0, q);
    ClearGains(ps, gdt0, q);
    GdtParts(gdt', ps[q.address := q], gdt0);
  }

  lemma GdtParts(gdt: seq<bool>, ps: People, gdt0: seq<bool>)
    ensures GdtAccount(gdt, ps, gdt0) <==> |gdt| == |gdt0| == GDT_COUNT && AllMarked(gdt, ps, gdt0) && AllClear(ps, gdt0)
  {
  }

  lemma EntriesWereClear(gdt: seq<bool>, gdt': seq<bool>, ps: People, gdt0: seq<bool>, q: Pieces)
    requires |gdt| == |gdt0| == GDT_COUNT && AllMarked(gdt, ps, gdt0) && GdtBilled(gdt, gdt', q)
    ensures Clear(Entries(q), gdt0) && gdt' == WithBits(gdt, Entries(q), true) && |gdt'| == GDT_COUNT
  {
    hide Entries, HasEntry;
    forall i | i in Entries(q) ensures 0 <= i < |gdt0| && !gdt0[i] { assert !gdt[i]; }
  }

  lemma MarksGain(gdt: seq<bool>, ps: People, gdt0: seq<bool>, q: Pieces)
    requires |gdt| == |gdt0| == GDT_COUNT && AllMarked(gdt, ps, gdt0) && q.address !in ps
    ensures |WithBits(gdt, Entries(q), true)| == GDT_COUNT && AllMarked(WithBits(gdt, Entries(q), true), ps[q.address := q], gdt0)
  {
    hide Entries, HasEntry;
    forall i | 0 <= i < GDT_COUNT ensures WithBits(gdt, Entries(q), true)[i] == (gdt0[i] || HasEntry(ps[q.address := q], i)) {
      MoreEntries(ps, q, i);
    }
  }

  lemma ClearGains(ps: People, gdt0: seq<bool>, q: Pieces)
    requires AllClear(ps, gdt0) && Clear(Entries(q), gdt0)
    ensures AllClear(ps[q.address := q], gdt0)
  {
    hide Entries, Clear;
  }

  lemma MoreEntries(ps: People, q: Pieces, i: int)
    requires q.address !in ps
    ensures HasEntry(ps[q.address := q], i) <==> i in Entries(q) || HasEntry(ps, i)
  {
    var ps' := ps[q.address := q];
    hide Entries;
    if i in Entries(q) { assert q.address in ps' && i in Entries(ps'[q.address]); }
    if p: u32 :| p in ps && i in Entries(ps[p]) { assert p in ps' && i in Entries(ps'[p]); }
  }

  lemma SlotsGain(slots: seq<bool>, slots': seq<bool>, ps: People, q: Pieces)
    requires SlotAccount(slots, ps) && SlotBilled(slots, slots', q) && q.address !in ps && q.slot < PROCESS_MAX
    ensures SlotAccount(slots', ps[q.address := q])
  {
    var ps' := ps[q.address := q];
    forall i | 0 <= i < PROCESS_MAX ensures slots'[i] == HasSlot(ps', i) {
      if i == q.slot { assert q.address in ps' && ps'[q.address].slot == i; }
      if p: u32 :| p in ps && ps[p].slot == i { assert p in ps' && ps'[p].slot == i; }
    }
  }

  lemma TableGains(b: Books, b': Books, ps: People, q: Pieces)
    requires TableAccount(b.table, b.active, ps) && TableBilled(b, b', q) && q.address !in ps && q.entry < PROCESS_MAX && 0 !in ps && q.address != 0
    ensures TableAccount(b'.table, b'.active, ps[q.address := q])
  {
    assert ps[q.address := q].Keys == ps.Keys + {q.address};
  }

  lemma QueueGains(s: Sched, s': Sched, owner: u16, ps: People, gdt: seq<bool>, gdt0: seq<bool>, doomed: u32, q: Pieces)
    requires QueueAccount(s, owner, ps, gdt0, doomed) && q.tssSelector != 0 && Addition(s, q.tssSelector) == (s', true)
    requires q.address !in ps && doomed != q.address && q.tssSelector !in NonZero(s.run) && q.tssSelector != s.kernel
    requires forall p | p in ps :: ps[p].tssSelector != q.tssSelector
    ensures QueueAccount(s', owner, ps[q.address := q], gdt0, doomed)
  {
    var ps' := ps[q.address := q];
    AdditionSound(s, q.tssSelector);
    var i :| TookSlot(s.run, s'.run, i, q.tssSelector);
    TookSlotQueues(s.run, s'.run, i, q.tssSelector);
    hide Sound, NonZero, Addition, TookSlot;
    forall sel | HasTask(ps, sel) ensures HasTask(ps', sel) {
      var p :| p in ps && ps[p].tssSelector == sel;
      assert p in ps' && ps'[p].tssSelector == sel;
    }
    assert q.address in ps' && ps'[q.address].tssSelector == q.tssSelector;
  }

  lemma BilledParts(b0: Books, b: Books, q: Pieces)
    requires Billed(b0, b, q, true)
    ensures LiveBilled(b0.live, b.live, q) && GdtBilled(b0.gdt, b.gdt, q) && SlotBilled(b0.slots, b.slots, q) && TableBilled(b0, b, q)
    ensures q.tssSelector != 0 && Addition(b0.queue, q.tssSelector) == (b.queue, true) && b.owner == b0.owner
  {
  }

  lemma MemberFields(p: u32, q: Pieces)
    requires Member(p, q)
    ensures q.address == p != 0 && q.slot < PROCESS_MAX && q.entry < PROCESS_MAX
  {
  }

  lemma MembersGain(ps: People, q: Pieces)
    requires Members(ps) && Member(q.address, q) && forall p | p in ps :: p != q.address && Foreign(q, ps[p]) && Foreign(ps[p], q)
    ensures Members(ps[q.address := q])
  {
    hide Member, Foreign;
  }

  lemma BilledSelector(b0: Books, b: Books, q: Pieces)
    requires InOrder(b0) && Billed(b0, b, q, true)
    ensures Allocated(b0.queue, b0.gdt) && q.tssSelector != 0 && q.tssSelector / 8 < |b0.gdt| && !b0.gdt[q.tssSelector / 8]
  {
    assert q.tssSelector / 8 in Entries(q);
    hide LiveBilled, SlotBilled, TableBilled, Sound, Addition, Allocated;
  }

  // ---- A process less ----

  lemma HeapLoses(live: map<int, int>, ps: People, rest: map<int, int>, p: u32)
    requires HeapAccount(live, ps, rest) && p in ps && forall r | r in ps && r != p :: Payloads(ps[p]) !! Payloads(ps[r])
    ensures HeapAccount(live - Payloads(ps[p]), ps - {p}, rest)
  {
    hide *;
    HeapParts(live, ps, rest);
    OwnedLose(live, rest, ps, p);
    LiveLoses(live, rest, ps[p]);
    NamedStill(live, rest, ps, p);
    HeapParts(live - Payloads(ps[p]), ps - {p}, rest);
  }

  lemma OwnedLose(live: map<int, int>, rest: map<int, int>, ps: People, p: u32)
    requires AllOwned(live, rest, ps) && p in ps && forall r | r in ps && r != p :: Payloads(ps[p]) !! Payloads(ps[r])
    ensures AllOwned(live - Payloads(ps[p]), rest, ps - {p}) && Owned(live, rest, ps[p])
  {
    hide Owned, Payloads;
    forall r | r in ps - {p} ensures Owned(live - Payloads(ps[p]), rest, ps[r]) { OwnedApart(live, rest, ps[p], ps[r]); }
  }

  lemma NamedStill(live: map<int, int>, rest: map<int, int>, ps: People, p: u32)
    requires AllNamed(live, rest, ps) && p in ps
    ensures AllNamed(live - Payloads(ps[p]), rest, ps - {p})
  {
    hide Payloads, Holds;
    forall x | x in live - Payloads(ps[p]) && x !in rest ensures Holds(ps - {p}, x) { FewerHeld(ps, p, x); }
  }

  lemma LiveLoses(live: map<int, int>, rest: map<int, int>, q: Pieces)
    requires Owned(live, rest, q) && Contains(live, rest)
    ensures Contains(live - Payloads(q), rest)
  {
    hide Payloads;
    forall x | x in rest ensures x in live - Payloads(q) && live[x] == rest[x] {
      assert x in live && x !in Payloads(q);
    }
  }

  lemma OwnedApart(live: map<int, int>, rest: map<int, int>, q: Pieces, r: Pieces)
    requires Owned(live, rest, r) && Payloads(q) !! Payloads(r)
    ensures Owned(live - Payloads(q), rest, r)
  {
    hide Payloads;
  }

  lemma FewerHeld(ps: People, p: u32, x: int)
    requires p in ps && Holds(ps, x) && x !in Payloads(ps[p])
    ensures Holds(ps - {p}, x)
  {
    hide Payloads;
    var r :| r in ps && x in Payloads(ps[r]);
    assert r in ps - {p} && x in Payloads((ps - {p})[r]);
  }

  lemma FewerEntries(ps: People, p: u32, i: int)
    requires Members(ps) && p in ps
    ensures HasEntry(ps - {p}, i) <==> HasEntry(ps, i) && i !in Entries(ps[p])
  {
    var ps' := ps - {p};
    hide Entries, Member;
    if HasEntry(ps', i) {
      var r :| r in ps' && i in Entries(ps'[r]);
      assert Foreign(ps[p], ps[r]) && r in ps && i in Entries(ps[r]);
    }
    if HasEntry(ps, i) && i !in Entries(ps[p]) {
      var r :| r in ps && i in Entries(ps[r]);
      assert r in ps' && i in Entries(ps'[r]);
    }
  }

  lemma GdtLoses(gdt: seq<bool>, ps: People, gdt0: seq<bool>, p: u32)
    requires GdtAccount(gdt, ps, gdt0) && Members(ps) && p in ps
    ensures GdtAccount(WithBits(gdt, Entries(ps[p]), false), ps - {p}, gdt0)
  {
    hide *;
    GdtParts(gdt, ps, gdt0);
    ClearLoses(ps, gdt0, p);
    MarksLose(gdt, ps, gdt0, p);
    GdtParts(WithBits(gdt, Entries(ps[p]), false), ps - {p}, gdt0);
  }

  lemma ClearLoses(ps: People, gdt0: seq<bool>, p: u32)
    requires AllClear(ps, gdt0) && p in ps
    ensures AllClear(ps - {p}, gdt0) && Clear(Entries(ps[p]), gdt0)
  {
    hide Entries, Clear;
  }

  lemma MarksLose(gdt: seq<bool>, ps: People, gdt0: seq<bool>, p: u32)
    requires |gdt| == |gdt0| == GDT_COUNT && p in ps && AllMarked(gdt, ps, gdt0) && Clear(Entries(ps[p]), gdt0) && Members(ps)
    ensures |WithBits(gdt, Entries(ps[p]), false)| == GDT_COUNT && AllMarked(WithBits(gdt, Entries(ps[p]), false), ps - {p}, gdt0)
  {
    hide Entries, Members, HasEntry, Clear;
    forall i | 0 <= i < GDT_COUNT ensures WithBits(gdt, Entries(ps[p]), false)[i] == (gdt0[i] || HasEntry(ps - {p}, i)) {
      FewerEntries(ps, p, i);
      ClearedBit(gdt, gdt0, Entries(ps[p]), HasEntry(ps, i), i);
    }
  }

  lemma ClearedBit(gdt: seq<bool>, gdt0: seq<bool>, gone: set<int>, had: bool, i: nat)
    requires |gdt| == |gdt0| && i < |gdt| && gdt[i] == (gdt0[i] || had) && Clear(gone, gdt0)
    ensures WithBits(gdt, gone, false)[i] == (gdt0[i] || (had && i !in gone))
  {
  }

  lemma FewerSlots(ps: People, p: u32, i: int)
    requires Members(ps) && p in ps
    ensures HasSlot(ps - {p}, i) <==> HasSlot(ps, i) && i != ps[p].slot
  {
    var ps' := ps - {p};
    hide Entries, Payloads, Member;
    if HasSlot(ps', i) {
      var r :| r in ps' && ps'[r].slot == i;
      assert Foreign(ps[p], ps[r]) && r in ps && ps[r].slot == i;
    }
    if HasSlot(ps, i) && i != ps[p].slot {
      var r :| r in ps && ps[r].slot == i;
      assert r in ps' && ps'[r].slot == i;
    }
  }

  lemma SlotsLose(slots: seq<bool>, ps: People, p: u32)
    requires SlotAccount(slots, ps) && Members(ps) && p in ps && ps[p].slot < PROCESS_MAX
    ensures ps[p].slot < |slots| && SlotAccount(slots[ps[p].slot := false], ps - {p})
  {
    hide Members, HasSlot;
    forall i | 0 <= i < PROCESS_MAX ensures slots[ps[p].slot := false][i] == HasSlot(ps - {p}, i) { FewerSlots(ps, p, i); }
  }

  lemma TableLoses(b: Books, ps: People, p: u32)
    requires TableAccount(b.table, b.active, ps) && p in ps && ps[p].address == p
    ensures TableAccount(Unregistered(b, ps[p]).table, Unregistered(b, ps[p]).active, ps - {p})
  {
    var q, ps' := ps[p], ps - {p};
    assert b.table[q.entry] == p;
    assert ps'.Keys == ps.Keys - {p} && |ps'.Keys| == |ps.Keys| - 1;
    assert Unregistered(b, q).table == b.table[q.entry := 0] && Unregistered(b, q).active == b.active - 1;
    hide Unregistered;
    forall r | r in ps' ensures ps'[r].entry < PROCESS_MAX && b.table[q.entry := 0][ps'[r].entry] == r {
      assert b.table[ps[r].entry] == r;
    }
  }

  lemma QueueLoses(s: Sched, owner: u16, ps: People, gdt0: seq<bool>, doomed: u32, p: u32)
    requires QueueAccount(s, owner, ps, gdt0, doomed) && p in ps && 0 !in ps && ps[p].tssSelector != 0 && ps[p].tssSelector != s.kernel
    requires ps[p].tssSelector != s.loaded && forall r | r in ps && r != p :: ps[r].tssSelector != ps[p].tssSelector
    ensures QueueAccount(Removal(s, ps[p].tssSelector).0, if owner == ps[p].tssSelector then 0 else owner, ps - {p}, gdt0, if p == doomed then 0 else doomed)
  {
    var sel, ps', doomed' := ps[p].tssSelector, ps - {p}, if p == doomed then 0 else doomed;
    var t := Removal(s, sel).0;
    RemovalSound(s, sel);
    hide Sound, NonZero, Removal, HasTask;
    forall x | HasTask(ps, x) && x != sel ensures HasTask(ps', x) { TaskStays(ps, p, x); }
    assert forall x | x in NonZero(t.run) :: HasTask(ps', x);
    RunnableStill(NonZero(s.run), NonZero(t.run), ps, doomed, p);
  }

  lemma TaskStays(ps: People, p: u32, sel: u16)
    requires p in ps && HasTask(ps, sel) && ps[p].tssSelector != sel
    ensures HasTask(ps - {p}, sel)
  {
    var r := TaskOwner(ps, sel);
    assert r in ps - {p} && (ps - {p})[r].tssSelector == sel;
  }

  lemma RunnableStill(run: set<u16>, run': set<u16>, ps: People, doomed: u32, p: u32)
    requires p in ps && 0 !in ps && run' == run - {ps[p].tssSelector} && forall r | r in ps && r != p :: ps[r].tssSelector != ps[p].tssSelector
    requires forall r | r in ps :: ps[r].tssSelector in run <==> r != doomed
    ensures forall r | r in ps - {p} :: ps[r].tssSelector in run' <==> r != (if p == doomed then 0 else doomed)
  {
  }

  lemma Strangers(ps: People, p: u32)
    requires Members(ps) && p in ps
    ensures ps[p].address == p && ps[p].slot < PROCESS_MAX && forall r | r in ps && r != p :: Payloads(ps[p]) !! Payloads(ps[r])
  {
    assert Member(p, ps[p]);
    hide Payloads, Entries, Member;
    forall r | r in ps && r != p ensures Payloads(ps[p]) !! Payloads(ps[r]) { assert Foreign(ps[p], ps[r]); }
  }

  lemma FewerMembers(ps: People, p: u32)
    requires Members(ps) && p in ps
    ensures Members(ps - {p})
  {
    hide Member, Foreign;
  }

  // ---- Scheduling ----

  lemma QueueFacts(s: Sched, owner: u16, ps: People, gdt0: seq<bool>, doomed: u32)
    requires QueueAccount(s, owner, ps, gdt0, doomed)
    ensures Sound(s) && TaskIndex(s.current) && (doomed != 0 ==> doomed in ps)
  {
    hide NonZero, HasTask, Occupied;
  }

  lemma QueueSwitches(s: Sched, owner: u16, ps: People, gdt0: seq<bool>, doomed: u32)
    requires QueueAccount(s, owner, ps, gdt0, doomed)
    ensures TaskIndex(s.current) && QueueAccount(Switch(s), owner, ps, gdt0, doomed)
  {
    SwitchSound(s);
    hide Switch;
  }

  lemma QueueLeft(s: Sched, owner: u16, ps: People, gdt0: seq<bool>, p: u32)
    requires QueueAccount(s, owner, ps, gdt0, 0) && p in ps && 0 !in ps && ps[p].tssSelector == s.loaded && s.current < MAX_TASKS && Leave(s).Some?
    requires forall r | r in ps && r != p :: ps[r].tssSelector != ps[p].tssSelector
    ensures QueueAccount(Leave(s).value, owner, ps, gdt0, p)
  {
    LeaveSound(s);
    RunningTask(s);
    ClearedNonZero(s.run, s.current);
    var t := Leave(s).value;
    hide Sound, NonZero, Leave;
    forall r | r in ps ensures ps[r].tssSelector in NonZero(t.run) <==> r != p {}
  }

  lemma RunningTask(s: Sched)
    requires Sound(s) && s.current < MAX_TASKS
    ensures s.loaded == s.run[s.current] && s.loaded != 0
    ensures forall j, k | 0 <= j < k < MAX_TASKS && s.run[j] != 0 :: s.run[j] != s.run[k]
  {
  }

  lemma OwnerIsTask(s: Sched, owner: u16, ps: People, gdt0: seq<bool>, doomed: u32, p: u32)
    requires QueueAccount(s, owner, ps, gdt0, doomed) && p in ps
    ensures QueueAccount(s, ps[p].tssSelector, ps, gdt0, doomed)
  {
    assert HasTask(ps, ps[p].tssSelector);
    hide Sound, NonZero, HasTask;
  }

  lemma KernelTakes(live: map<int, int>, ps: People, rest: map<int, int>, ptr: int, bytes: int)
    requires HeapAccount(live, ps, rest) && ptr !in live
    ensures HeapAccount(live[ptr := bytes], ps, rest[ptr := bytes])
  {
    hide Payloads, Holds;
    forall p | p in ps ensures Owned(live[ptr := bytes], rest[ptr := bytes], ps[p]) { assert Owned(live, rest, ps[p]); }
  }

  lemma KernelGives(live: map<int, int>, ps: People, rest: map<int, int>, ptr: int)
    requires HeapAccount(live, ps, rest) && ptr in rest
    ensures HeapAccount(live - {ptr}, ps, rest - {ptr})
  {
    hide Payloads, Holds;
    forall p | p in ps ensures Owned(live - {ptr}, rest - {ptr}, ps[p]) { assert Owned(live, rest, ps[p]); }
  }
}
