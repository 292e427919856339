/** The physical page manager: a bitmap of 4 KiB frames and a "next free" hint,
    and the boot-time search for four contiguous cursor frames built on it. */
module FrameAllocator {
  import opened MachineWords

  const PAGE_SIZE := 0x1000
  const FRAME_COUNT := 0x10_0000     // PMM_BITMAP_SIZE * 8
  const RAM_START := 0x100           // MAIN_RAM_START shr 12
  const RAM_END := 0x3_F780          // MAIN_RAM_END shr 12

  // ---- The specification: bitmap values, true = used ----

  type Bitmap = b: seq<bool> | |b| == FRAME_COUNT witness seq(FRAME_COUNT, _ => true)

  datatype PmmState = PmmState(used: Bitmap, hint: nat)

  /** No free frame lies below the hint. */
  ghost predicate HintSound(s: PmmState) {
    s.hint <= RAM_END && forall f | 0 <= f < s.hint :: s.used[f]
  }

  ghost predicate LowestFree(used: Bitmap, f: nat) {
    f < RAM_END && !used[f] && forall g | 0 <= g < f :: used[g]
  }

  ghost predicate NoneFree(used: Bitmap) {
    forall g | 0 <= g < RAM_END :: used[g]
  }

  function Scan(used: Bitmap, from: nat): (f: nat)
    requires from <= RAM_END
    ensures from <= f <= RAM_END
    ensures forall g | from <= g < f :: used[g]
    ensures f < RAM_END ==> !used[f]
    decreases RAM_END - from
  {
    if from == RAM_END || !used[from] then from else Scan(used, from + 1)
  }

  datatype PmmOp = Alloc | Free(phys: u32) | MarkUsed(start: u32, end: u32)

  function SetRange(used: Bitmap, lo: nat, hi: nat, value: bool): (r: Bitmap) {
    seq(FRAME_COUNT, f requires 0 <= f < FRAME_COUNT => if lo <= f < hi then value else used[f])
  }

  function AllocStep(s: PmmState): (PmmState, u32)
    requires s.hint <= RAM_END
  {
    var f := Scan(s.used, s.hint);
    if f == RAM_END then (s, 0) else (PmmState(s.used[f := true], f + 1), f * PAGE_SIZE)
  }

  function FreeStep(s: PmmState, phys: u32): PmmState {
    var f := phys / PAGE_SIZE;
    if phys == 0 then s
    else PmmState(s.used[f := false], if f < s.hint then f else s.hint)
  }

  function PmmStep(s: PmmState, op: PmmOp): PmmState
    requires s.hint <= RAM_END
  {
    match op
    case Alloc => AllocStep(s).0
    case Free(phys) => FreeStep(s, phys)
    case MarkUsed(start, end) => s.(used := SetRange(s.used, start / PAGE_SIZE, end / PAGE_SIZE, true))
  }

  /** The hint invariant is inductive, so in every run of allocations, frees and
      reservations each allocation returns the lowest free frame, and reports
      failure only when no managed frame is free (or when the lowest one is frame 0,
      whose address is the failure value). */
  lemma {:induction false} HintStaysSound(s: PmmState, op: PmmOp)
    requires HintSound(s)
    ensures HintSound(PmmStep(s, op))
    ensures op.Alloc? ==>
      var (s', phys) := AllocStep(s);
      if phys == 0 then (NoneFree(s.used) && s' == s) || LowestFree(s.used, 0)
      else phys % PAGE_SIZE == 0 && LowestFree(s.used, phys / PAGE_SIZE) && s'.used == s.used[phys / PAGE_SIZE := true]
  {
    var s' := PmmStep(s, op);
    match op {
      case Alloc =>
        var f := Scan(s.used, s.hint);
        forall g | 0 <= g < s'.hint ensures s'.used[g] {}
      case Free(phys) =>
        forall g | 0 <= g < s'.hint ensures s'.used[g] {}
      case MarkUsed(start, end) =>
        forall g | 0 <= g < s'.hint ensures s'.used[g] { assert s.used[g]; }
    }
  }

  /** With frame 0 reserved, an allocation either takes the lowest free frame or finds none. */
  lemma AllocFacts(s: PmmState)
    requires HintSound(s) && s.used[0]
    ensures
      var (s', phys) := AllocStep(s);
      HintSound(s') && s'.used[0] &&
      if phys == 0 then s' == s && NoneFree(s.used)
      else phys % PAGE_SIZE == 0 && LowestFree(s.used, phys / PAGE_SIZE) && s'.used == s.used[phys / PAGE_SIZE := true]
  {
    HintStaysSound(s, Alloc);
  }

  function PmmRun(s: PmmState, ops: seq<PmmOp>): (r: PmmState)
    requires HintSound(s)
    ensures HintSound(r)
    decreases |ops|
  {
    if ops == [] then s
    else
      HintStaysSound(s, ops[0]);
      PmmRun(PmmStep(s, ops[0]), ops[1..])
  }

  lemma {:induction false} RunAllocatesLowest(s: PmmState, ops: seq<PmmOp>)
    requires HintSound(s)
    ensures
      var before := PmmRun(s, ops);
      var (after, phys) := AllocStep(before);
      HintSound(after) &&
      (phys != 0 ==> LowestFree(before.used, phys / PAGE_SIZE)) &&
      (phys == 0 ==> NoneFree(before.used) || LowestFree(before.used, 0))
  {
    HintStaysSound(PmmRun(s, ops), Alloc);
  }

  /** Releasing a range without touching the hint keeps the hint sound exactly when
      the range is empty or starts at or above the hint. */
  lemma RangeReleaseKeepsHintIff(s: PmmState, start: u32, end: u32)
    requires HintSound(s)
    ensures
      var lo, hi := start / PAGE_SIZE, end / PAGE_SIZE;
      HintSound(s.(used := SetRange(s.used, lo, hi, false))) <==> hi <= lo || s.hint <= lo
  {
    var lo, hi := start / PAGE_SIZE, end / PAGE_SIZE;
    var used' := SetRange(s.used, lo, hi, false);
    if lo < hi && lo < s.hint {
      assert !used'[lo];
    }
  }

  /** Number of free frames below `n`. */
  ghost function FreeBelow(used: Bitmap, n: nat): nat
    requires n <= FRAME_COUNT
  {
    if n == 0 then 0 else FreeBelow(used, n - 1) + if used[n - 1] then 0 else 1
  }

  lemma {:induction false} FreeBelowMonotone(used: Bitmap, m: nat, n: nat)
    requires m <= n <= FRAME_COUNT
    ensures FreeBelow(used, m) <= FreeBelow(used, n)
    ensures (forall g | m <= g < n :: used[g]) ==> FreeBelow(used, m) == FreeBelow(used, n)
    decreases n
  {
    if m < n { FreeBelowMonotone(used, m, n - 1); }
  }

  /** Four consecutive free managed frames starting at `f`. */
  ghost predicate FreeQuad(used: Bitmap, f: nat) {
    f + 3 < RAM_END && !used[f] && !used[f + 1] && !used[f + 2] && !used[f + 3]
  }

  ghost predicate LowestQuad(used: Bitmap, f: nat) {
    FreeQuad(used, f) && forall g | 0 <= g < f :: !FreeQuad(used, g)
  }

  /** The boot search hands out at most this many frames before giving up. */
  const CURSOR_ATTEMPTS := 64

  // ---- The allocator itself ----

  class Pmm {
    const bitmap: array<bool>
    var next: nat

    ghost predicate Valid()
      reads this, bitmap
    {
      bitmap.Length == FRAME_COUNT && next <= RAM_END
    }

    ghost function State(): PmmState
      reads this, bitmap
      requires Valid()
    {
      PmmState(bitmap[..], next)
    }

    /** pmm_init: everything used, then main RAM free, then the three boot windows used. */
    constructor ()
      ensures Valid() && fresh(bitmap)
      ensures HintSound(State())
      ensures forall f | 0 <= f < FRAME_COUNT ::
        bitmap[f] <==> !(RAM_START <= f < RAM_END)
                       || 0x3_0000 <= f < 0x3_0800 || 0x3_2000 <= f < 0x3_2400 || 0x3_4000 <= f < 0x3_4400
    {
      bitmap := new bool[FRAME_COUNT](_ => true);
      next := RAM_START;
      new;
      MarkRangeFree(0x10_0000, 0x3F78_0000);
      MarkRangeUsed(0x3000_0000, 0x3080_0000);
      MarkRangeUsed(0x3200_0000, 0x3240_0000);
      MarkRangeUsed(0x3400_0000, 0x3440_0000);
    }

    method MarkRangeFree(start: u32, end: u32)
      requires Valid()
      modifies bitmap
      ensures Valid()
      ensures State() == old(State()).(used := SetRange(old(bitmap[..]), start / PAGE_SIZE, end / PAGE_SIZE, false))
    {
      var frame, last := start / PAGE_SIZE, end / PAGE_SIZE;
      while frame < last
        invariant start / PAGE_SIZE <= frame
        invariant frame == start / PAGE_SIZE || frame <= last
        invariant forall f | 0 <= f < FRAME_COUNT ::
          bitmap[f] == if start / PAGE_SIZE <= f < frame then false else old(bitmap[f])
      {
        bitmap[frame] := false;
        frame := frame + 1;
      }
      assert bitmap[..] == SetRange(old(bitmap[..]), start / PAGE_SIZE, end / PAGE_SIZE, false);
    }

    method MarkRangeUsed(start: u32, end: u32)
      requires Valid()
      modifies bitmap
      ensures Valid()
      ensures State() == PmmStep(old(State()), MarkUsed(start, end))
    {
      var frame, last := start / PAGE_SIZE, end / PAGE_SIZE;
      while frame < last
        invariant start / PAGE_SIZE <= frame
        invariant frame == start / PAGE_SIZE || frame <= last
        invariant forall f | 0 <= f < FRAME_COUNT ::
          bitmap[f] == if start / PAGE_SIZE <= f < frame then true else old(bitmap[f])
      {
        bitmap[frame] := true;
        frame := frame + 1;
      }
      assert bitmap[..] == SetRange(old(bitmap[..]), start / PAGE_SIZE, end / PAGE_SIZE, true);
    }

    method AllocPage() returns (phys: u32)
      requires Valid()
      modifies this`next, bitmap
      ensures Valid()
      ensures (State(), phys) == AllocStep(old(State()))
    {
      var frame := next;
      while frame < RAM_END && bitmap[frame]
        invariant next <= frame <= RAM_END
        invariant Scan(bitmap[..], next) == Scan(bitmap[..], frame)
      {
        frame := frame + 1;
      }
      if frame >= RAM_END {
        return 0;
      }
      bitmap[frame] := true;
      next := frame + 1;
      phys := frame * PAGE_SIZE;
      assert bitmap[..] == old(bitmap[..])[frame := true];
    }

    method FreePage(phys: u32)
      requires Valid()
      modifies this`next, bitmap
      ensures Valid()
      ensures State() == FreeStep(old(State()), phys)
    {
      if phys == 0 {
        return;
      }
      var frame := phys / PAGE_SIZE;
      bitmap[frame] := false;
      assert bitmap[..] == old(bitmap[..])[frame := false];
      if frame < next {
        next := frame;
      }
    }
  }
}
