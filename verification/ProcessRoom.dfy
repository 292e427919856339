/** When the tables have room for one process more: exactly while fewer than a hundred exist. */
module ProcessRoom {
  import opened MachineWords
  import opened Scheduler
  import opened ProcessBooks
  import opened ProcessAccounts
  import opened ProcessPopulation

  /** The integers from `lo` up to `hi`. */
  ghost function Range(lo: int, hi: int): (s: set<int>)
    requires lo <= hi
    ensures forall i :: i in s <==> lo <= i < hi
    ensures |s| == hi - lo
    decreases hi - lo
  {
    if lo == hi then {} else Range(lo, hi - 1) + {hi - 1}
  }

  lemma SmallerThan(a: set<int>, b: set<int>)
    requires a <= b
    ensures |a| <= |b| && (|a| == |b| ==> a == b)
  {
    assert b == a + (b - a);
  }

  lemma {:induction false} ValuesCount(m: map<u32, int>)
    ensures |m.Values| <= |m|
    ensures (forall p, r | p in m && r in m && p != r :: m[p] != m[r]) ==> |m.Values| == |m|
    decreases |m|
  {
    if m == map[] {
      assert m.Values == {};
    } else {
      var p :| p in m;
      var rest := m - {p};
      ValuesCount(rest);
      assert m.Keys == rest.Keys + {p};
      assert m.Values == rest.Values + {m[p]};
    }
  }

  /** A table of a hundred cells of which each process has one has a clear cell exactly while fewer
      than a hundred processes exist. */
  lemma CellLeft(m: map<u32, int>, taken: seq<bool>)
    requires forall p, r | p in m && r in m && p != r :: m[p] != m[r]
    requires |taken| == 100 && (forall i | 0 <= i < 100 :: taken[i] <==> i in m.Values) && m.Values <= Range(0, 100)
    ensures (exists i :: 0 <= i < 100 && !taken[i]) <==> |m| < 100
  {
    ValuesCount(m);
    SmallerThan(m.Values, Range(0, 100));
    if m.Values == Range(0, 100) {
      assert forall i | 0 <= i < 100 :: taken[i];
    } else {
      var i :| i in Range(0, 100) && i !in m.Values;
      assert !taken[i];
    }
  }

  ghost function SlotsOf(ps: People): map<u32, int> {
    map p | p in ps :: ps[p].slot
  }

  ghost function CellsOf(ps: People): map<u32, int> {
    map p | p in ps :: ps[p].entry
  }

  ghost predicate HasCell(ps: People, i: int) {
    exists p :: p in ps && ps[p].entry == i
  }

  lemma SlotValues(ps: People)
    ensures |SlotsOf(ps)| == |ps| && forall i :: i in SlotsOf(ps).Values <==> HasSlot(ps, i)
    ensures SlotsOf(ps).Keys == ps.Keys && forall p | p in ps :: SlotsOf(ps)[p] == ps[p].slot
  {
    var m := SlotsOf(ps);
    assert m.Keys == ps.Keys;
    forall i ensures i in m.Values <==> HasSlot(ps, i) {
      if i in m.Values { var p :| p in m && m[p] == i; }
      if HasSlot(ps, i) { var p :| p in ps && ps[p].slot == i; assert m[p] == i; }
    }
  }

  lemma CellValues(ps: People)
    ensures |CellsOf(ps)| == |ps| && forall i :: i in CellsOf(ps).Values <==> HasCell(ps, i)
    ensures CellsOf(ps).Keys == ps.Keys && forall p | p in ps :: CellsOf(ps)[p] == ps[p].entry
  {
    var m := CellsOf(ps);
    assert m.Keys == ps.Keys;
    forall i ensures i in m.Values <==> HasCell(ps, i) {
      if i in m.Values { var p :| p in m && m[p] == i; }
      if HasCell(ps, i) { var p :| p in ps && ps[p].entry == i; assert m[p] == i; }
    }
  }

  lemma SlotsLeft(b: Books, ps: People)
    requires Members(ps) && SlotAccount(b.slots, ps)
    ensures SlotLeft(b) <==> |ps| < 100
  {
    MembersApart(ps);
    SlotValues(ps);
    hide Members, HasSlot, SlotsOf;
    InRange(SlotsOf(ps));
    CellLeft(SlotsOf(ps), b.slots);
  }

  lemma InRange(m: map<u32, int>)
    requires forall p | p in m :: 0 <= m[p] < 100
    ensures m.Values <= Range(0, 100)
  {
    forall i | i in m.Values ensures 0 <= i < 100 {
      var p :| p in m && m[p] == i;
    }
  }

  lemma MembersApart(ps: People)
    requires Members(ps)
    ensures forall p | p in ps :: p != 0 && ps[p].slot < 100 && ps[p].entry < 100
    ensures forall p, r | p in ps && r in ps && p != r :: ps[p].slot != ps[r].slot && ps[p].entry != ps[r].entry
    ensures forall p | p in ps :: GoodSelector(ps[p].tssSelector) && GoodSelector(ps[p].ldtSelector)
  {
    forall p | p in ps ensures p != 0 && ps[p].slot < 100 && ps[p].entry < 100 {
      assert Member(p, ps[p]);
    }
    forall p, r | p in ps && r in ps && p != r ensures ps[p].slot != ps[r].slot && ps[p].entry != ps[r].entry {
      assert Foreign(ps[p], ps[r]);
    }
  }

  lemma EntryTakenIff(table: seq<u32>, active: nat, ps: People, i: int)
    requires Members(ps) && TableAccount(table, active, ps) && 0 <= i < 100
    ensures |table| == 100 && (table[i] != 0 <==> HasCell(ps, i))
  {
    hide Member, Foreign;
    MembersApart(ps);
    if table[i] != 0 { assert table[i] in ps && ps[table[i]].entry == i; }
  }

  lemma TakenCells(table: seq<u32>, active: nat, ps: People) returns (taken: seq<bool>)
    requires Members(ps) && TableAccount(table, active, ps)
    ensures |table| == |taken| == 100
    ensures forall i | 0 <= i < 100 :: taken[i] == (table[i] != 0) == HasCell(ps, i)
  {
    hide Members, HasCell, TableAccount;
    EntryTakenIff(table, active, ps, 0);
    taken := seq(100, i requires 0 <= i < 100 => table[i] != 0);
    forall i | 0 <= i < 100 ensures taken[i] == (table[i] != 0) == HasCell(ps, i) {
      EntryTakenIff(table, active, ps, i);
    }
  }

  lemma EntriesLeft(b: Books, ps: People)
    requires Members(ps) && TableAccount(b.table, b.active, ps)
    ensures EntryLeft(b) <==> |ps| < 100
  {
    hide *;
    MembersApart(ps);
    CellValues(ps);
    InRange(CellsOf(ps));
    EntryLeftIs(b);
    var taken := TakenCells(b.table, b.active, ps);
    CellLeft(CellsOf(ps), taken);
    SameCells(b.table, taken);
  }

  lemma SameCells(table: seq<u32>, taken: seq<bool>)
    requires |table| == |taken| == 100 && forall i | 0 <= i < 100 :: taken[i] == (table[i] != 0)
    ensures (exists i :: 0 <= i < 100 && !taken[i]) <==> exists i :: 0 <= i < 100 && table[i] == 0
  {
    if i :| 0 <= i < 100 && !taken[i] { assert table[i] == 0; }
    if i :| 0 <= i < 100 && table[i] == 0 { assert !taken[i]; }
  }

  lemma {:induction false} OccupiedCount(run: RunTable, n: nat)
    requires n <= MAX_TASKS && forall i, j | 0 <= i < j < MAX_TASKS && run[i] != 0 :: run[i] != run[j]
    ensures Occupied(run, n) == |set i | 0 <= i < n && run[i] != 0 :: run[i]|
    decreases n
  {
    var s := set i | 0 <= i < n && run[i] != 0 :: run[i];
    if n == 0 {
      assert s == {};
    } else {
      OccupiedCount(run, n - 1);
      var t := set i | 0 <= i < n - 1 && run[i] != 0 :: run[i];
      if run[n - 1] != 0 {
        assert s == t + {run[n - 1]};
        assert run[n - 1] !in t;
      } else {
        assert s == t;
      }
    }
  }

  lemma TasksLeft(b: Books, ps: People, gdt0: seq<bool>, doomed: u32)
    requires QueueAccount(b.queue, b.owner, ps, gdt0, doomed) && |ps| < 100
    ensures TaskLeft(b)
  {
    var m: map<u32, int> := map p | p in ps :: ps[p].tssSelector;
    OccupiedCount(b.queue.run, MAX_TASKS);
    var queued: set<int> := set sel | sel in NonZero(b.queue.run) :: sel as int;
    forall sel | sel in NonZero(b.queue.run) ensures sel in m.Values {
      assert HasTask(ps, sel);
      var p :| p in ps && ps[p].tssSelector == sel;
      assert m[p] == sel;
    }
    ValuesCount(m);
    assert m.Keys == ps.Keys;
    SmallerU16(NonZero(b.queue.run), m.Values);
  }

  lemma {:induction false} SmallerU16(a: set<u16>, b: set<int>)
    requires forall x | x in a :: x in b
    ensures |a| <= |b|
    decreases |a|
  {
    if a != {} {
      var x :| x in a;
      SmallerU16(a - {x}, b - {x});
    }
  }

  ghost function AllEntries(ps: People): (r: set<int>)
    ensures forall i :: i in r <==> HasEntry(ps, i)
  {
    set p, i | p in ps && i in Entries(ps[p]) :: i
  }

  lemma {:induction false} EntriesCount(ps: People)
    ensures |AllEntries(ps)| <= 2 * |ps|
    decreases |ps|
  {
    hide Entries;
    if ps == map[] {
      assert AllEntries(ps) == {};
    } else {
      var p :| p in ps;
      var rest := ps - {p};
      EntriesCount(rest);
      TwoEntries(ps[p]);
      assert ps.Keys == rest.Keys + {p};
      forall i | i in AllEntries(ps) ensures i in AllEntries(rest) + Entries(ps[p]) {
        assert HasEntry(ps, i);
        var r :| r in ps && i in Entries(ps[r]);
        assert r == p || (r in rest && rest[r] == ps[r]);
        assert r != p ==> HasEntry(rest, i);
      }
      SmallerThan(AllEntries(ps), AllEntries(rest) + Entries(ps[p]));
    }
  }

  lemma TwoEntries(q: Pieces)
    ensures |Entries(q)| <= 2
  {
  }

  lemma SelectorsLeft(b: Books, ps: People, gdt0: seq<bool>)
    requires GdtAccount(b.gdt, ps, gdt0) && |ps| < 100 && |ClearEntries(gdt0)| >= 200
    ensures |ClearEntries(b.gdt)| >= 2
  {
    EntriesCount(ps);
    forall i | i in ClearEntries(gdt0) ensures i in ClearEntries(b.gdt) + AllEntries(ps) {
      if HasEntry(ps, i) { var p :| p in ps && i in Entries(ps[p]); }
    }
    SmallerThan(ClearEntries(gdt0), ClearEntries(b.gdt) + AllEntries(ps));
  }

  /** Whatever was created, terminated and destroyed before: while the kernel itself leaves two
      hundred GDT entries, there is room for another process exactly while fewer than a hundred exist. */
  lemma RoomIffBelowHundred(w: World)
    requires Accounted(w) && |ClearEntries(w.gdt0)| >= 200
    ensures Room(w.books) <==> |w.ps| < 100
  {
    hide *;
    Accounts(w);
    RoomIs(w.books);
    SlotsLeft(w.books, w.ps);
    EntriesLeft(w.books, w.ps);
    if |w.ps| < 100 {
      TasksLeft(w.books, w.ps, w.gdt0, w.doomed);
      SelectorsLeft(w.books, w.ps, w.gdt0);
    }
  }

  /** The kernel leaves that many at boot. */
  lemma BootLeavesEntries(live: map<int, int>)
    ensures |ClearEntries(Boot(live).gdt0)| == 8182
  {
    assert ClearEntries(Boot(live).gdt0) == Range(10, 8192);
  }
}
