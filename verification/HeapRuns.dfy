/** Whole runs of the heap's entry points, on block sequences: what callers may rely on. */
module HeapRuns {
  import opened MachineWords
  import opened HeapBlocks
  import opened KernelHeap

  /** The largest request the allocator's rounding does not wrap to zero. */
  const LARGEST_REQUEST: u32 := 0xFFFF_FFF8

  /** A completed call: a request with its answer and the pages appended, a release, a growth
      by so many pages, or a pass that joins free blocks. */
  datatype Call = Asked(size: u32, grown: nat, ptr: u32) | Gave(ptr: u32) | Grown(pages: nat) | Joined

  ghost predicate HeapStep(s: seq<Block>, call: Call, s': seq<Block>) {
    match call
    case Asked(size, grown, ptr) => AllocOutcome(s, size, grown, s', ptr)
    case Gave(ptr) => if ptr in Live(s, 0) then Freed(s, ptr, s') else s' == s
    case Grown(pages) => s' == GrowBy(s, pages)
    case Joined => s' == Merge(s)
  }

  /** `states` is the history of the block list under `calls`. */
  ghost predicate HeapRun(states: seq<seq<Block>>, calls: seq<Call>) {
    |states| == |calls| + 1 && (states[0] == [] || states[0] == [Block(PAGE_GRANULES - 2, false)]) &&
    forall i | 0 <= i < |calls| :: HeapStep(states[i], calls[i], states[i + 1])
  }

  /** What the callers believe they own: address -> bytes they asked for. */
  function Ledger(calls: seq<Call>): map<int, int> {
    if calls == [] then map[]
    else
      var before := Ledger(calls[..|calls| - 1]);
      match calls[|calls| - 1]
      case Asked(size, _, ptr) => if ptr == 0 then before else before[ptr := size]
      case Gave(ptr) => before - {ptr}
      case _ => before
  }

  predicate SmallRequests(calls: seq<Call>) {
    forall i | 0 <= i < |calls| && calls[i].Asked? :: calls[i].size <= LARGEST_REQUEST
  }

  // ---- Single calls ----

  /** A granted request adds exactly one payload, never handed out before, of at least the
      rounded size and under 24 bytes more; a refused one changes no payload. */
  lemma AllocAddsOne(s: seq<Block>, size: u32, grown: nat, s': seq<Block>, ptr: u32)
    requires Normal(s) && AllocOutcome(s, size, grown, s', ptr)
    ensures Normal(s')
    ensures ptr == 0 ==> Live(s', 0) == Live(s, 0)
    ensures ptr != 0 ==>
      ptr !in Live(s, 0) && ptr in Live(s', 0) && Live(s', 0) == Live(s, 0)[ptr := Live(s', 0)[ptr]] &&
      Rounded(size) <= Live(s', 0)[ptr] < Rounded(size) + 24
    ensures ptr != 0 && size <= LARGEST_REQUEST ==> size <= Live(s', 0)[ptr] < size + 32
  {
    hide *;
    var g, n := GrowBy(s, grown), Rounded(size) / 8;
    OutcomeParts(s, size, grown, s', ptr);
    GrowKeepsLive(s, grown);
    NormalGrown(s, grown);
    if ptr != 0 {
      TakeGrants(g, n, s', ptr);
    }
  }

  lemma OutcomeParts(s: seq<Block>, size: u32, grown: nat, s': seq<Block>, ptr: u32)
    requires AllocOutcome(s, size, grown, s', ptr)
    ensures
      var n, g := Rounded(size) / 8, GrowBy(s, grown);
      8 * n == Rounded(size) && (ptr == 0 ==> s' == g) && (ptr != 0 ==> FirstFit(g, n) < |g| && FitTaken(g, n, s', ptr))
    ensures size <= LARGEST_REQUEST ==> size <= Rounded(size) < size + 8
  {
    RoundingFacts(size);
    hide GrowBy, FirstFit, FitTaken, PagesFor;
  }

  lemma TakeGrants(g: seq<Block>, n: nat, s': seq<Block>, ptr: u32)
    requires Normal(g) && FirstFit(g, n) < |g| && FitTaken(g, n, s', ptr)
    ensures Normal(s') && ptr !in Live(g, 0) && ptr in Live(s', 0) && Live(s', 0) == Live(g, 0)[ptr := Live(s', 0)[ptr]]
    ensures 8 * n <= Live(s', 0)[ptr] < 8 * n + 24
  {
    hide Live, Normal, Span, Carve;
    var i := FirstFit(g, n);
    TakeAddsLive(g, i, n);
    TakeIsNormal(g, i, n);
  }

  lemma FreeDropsOne(s: seq<Block>, ptr: u32, s': seq<Block>)
    requires Freed(s, ptr, s')
    ensures Normal(s') && ptr in Live(s, 0) && Live(s', 0) == Live(s, 0) - {ptr} && Span(s') == Span(s)
  {
    var i :| FreedAt(s, ptr, s', i);
    ReleaseDropsLive(s, i);
    MergeIsNormal(s[i := Block(s[i].size, false)]);
  }

  /** heap_validate keeps answering 1 after a request exactly when the request is not one whose
      rounding wraps to nothing, or the first free block is too small to split, or there is no
      free block and no page to be had. All of it is known before the call. */
  lemma AllocValidIff(s: seq<Block>, size: u32, grown: nat, s': seq<Block>, ptr: u32, dry: bool)
    requires Normal(s) && NoEmptyBlock(s) && AllocOutcome(s, size, grown, s', ptr) && GrowsUnlessDry(s, size, grown, dry)
    ensures NoEmptyBlock(s') <==> size <= LARGEST_REQUEST || (if FirstFit(s, 0) < |s| then FirstFreeSize(s) < 3 else dry)
  {
    if size <= LARGEST_REQUEST {
      SmallStaysValid(s, size, grown, s', ptr);
    } else {
      HugeServed(s, size, grown, s', ptr, dry);
      hide AllocOutcome, FitTaken, GrowsUnlessDry, Normal;
      if FirstFit(s, 0) < |s| {
        TakeEmptyIff(s, FirstFit(s, 0), 0);
      } else if !dry {
        GrowByNoEmpty(s, 1);
        TakeEmptyIff(GrowBy(s, 1), FirstFit(GrowBy(s, 1), 0), 0);
      }
    }
  }

  lemma SmallStaysValid(s: seq<Block>, size: u32, grown: nat, s': seq<Block>, ptr: u32)
    requires NoEmptyBlock(s) && AllocOutcome(s, size, grown, s', ptr) && size <= LARGEST_REQUEST
    ensures NoEmptyBlock(s')
  {
    var g, n := GrowBy(s, grown), Rounded(size) / 8;
    RoundingFacts(size);
    OutcomeParts(s, size, grown, s', ptr);
    GrowByNoEmpty(s, grown);
    if ptr != 0 {
      TakeEmptyIff(g, FirstFit(g, n), n);
    }
  }

  /** A request that rounds to nothing takes the first free block, or the page just grown. */
  lemma HugeServed(s: seq<Block>, size: u32, grown: nat, s': seq<Block>, ptr: u32, dry: bool)
    requires Normal(s) && AllocOutcome(s, size, grown, s', ptr) && GrowsUnlessDry(s, size, grown, dry) && size > LARGEST_REQUEST
    ensures FirstFit(s, 0) < |s| ==> s' == Take(s, FirstFit(s, 0), 0)
    ensures FirstFit(s, 0) == |s| && dry ==> s' == s
    ensures FirstFit(s, 0) == |s| && !dry ==>
      var g, i := GrowBy(s, 1), FirstFit(GrowBy(s, 1), 0);
      i < |g| && g[i].size >= 3 && s' == Take(g, i, 0)
  {
    RoundingFacts(size);
    assert Rounded(size) == 0 && Enough(size) && PagesFor(Rounded(size)) == 1;
    assert GrowBy(s, 0) == s;
    hide Rounded, PagesFor, Enough, GrowBy, Take, FirstFit;
    if FirstFit(s, 0) == |s| && !dry {
      GrowByTail(s, 1);
      GrowThenFit(s, 0, 1);
    }
  }

  /** Granules of the first free block, 0 when there is none. */
  function FirstFreeSize(bs: seq<Block>): nat {
    var i := FirstFit(bs, 0);
    if i < |bs| then bs[i].size else 0
  }

  lemma FreeStaysValid(s: seq<Block>, ptr: u32, s': seq<Block>)
    requires NoEmptyBlock(s) && Freed(s, ptr, s')
    ensures NoEmptyBlock(s')
  {
    var i :| FreedAt(s, ptr, s', i);
    MergeNoEmpty(s[i := Block(s[i].size, false)]);
  }

  /** A request of 0xFFFFFFFF bytes on a fresh heap is granted an empty payload, after which
      heap_validate reports corruption. */
  lemma HugeRequestBreaksValidation()
    ensures
      var onePage := [Block(PAGE_GRANULES - 2, false)];
      var after := [Block(0, true), Block(PAGE_GRANULES - 4, false)];
      NoEmptyBlock(onePage) && AllocOutcome(onePage, 0xFFFF_FFFF, 0, after, KHEAP_BASE + 16) && !NoEmptyBlock(after)
  {
    var onePage := [Block(PAGE_GRANULES - 2, false)];
    var after := [Block(0, true), Block(PAGE_GRANULES - 4, false)];
    assert FirstFit(onePage, 0) == 0 && onePage[..0] == [] && onePage[1..] == [];
    assert Take(onePage, 0, 0) == after;
    assert after[0].size == 0;
  }

  lemma GrowJoinKeep(s: seq<Block>, pages: nat)
    requires Normal(s)
    ensures Normal(GrowBy(s, pages)) && Live(GrowBy(s, pages), 0) == Live(s, 0) && Merge(s) == s
    ensures NoEmptyBlock(s) ==> NoEmptyBlock(GrowBy(s, pages))
  {
    hide GrowBy, Merge, Live, Normal;
    NormalGrown(s, pages);
    GrowKeepsLive(s, pages);
    MergeOfNormal(s);
    if NoEmptyBlock(s) { GrowByNoEmpty(s, pages); }
  }

  /** What one call does to the payloads, and that it leaves the heap in order. */
  lemma CallKeeps(s: seq<Block>, call: Call, s': seq<Block>)
    requires Normal(s) && HeapStep(s, call, s')
    ensures Normal(s')
    ensures
      match call
      case Asked(size, _, ptr) =>
        if ptr == 0 then Live(s', 0) == Live(s, 0)
        else ptr !in Live(s, 0) && ptr in Live(s', 0) && Live(s', 0) == Live(s, 0)[ptr := Live(s', 0)[ptr]] &&
             (size <= LARGEST_REQUEST ==> size <= Live(s', 0)[ptr])
      case Gave(ptr) => Live(s', 0) == Live(s, 0) - {ptr}
      case _ => Live(s', 0) == Live(s, 0)
    ensures NoEmptyBlock(s) && (call.Asked? ==> call.size <= LARGEST_REQUEST) ==> NoEmptyBlock(s')
  {
    hide Normal, Live, AllocOutcome, Freed, NoEmptyBlock, GrowBy, Merge;
    match call
    case Asked(size, grown, ptr) =>
      AllocAddsOne(s, size, grown, s', ptr);
      if NoEmptyBlock(s) { AllocValidIff(s, size, grown, s', ptr, grown == 0); }
    case Gave(ptr) =>
      if ptr in Live(s, 0) {
        FreeDropsOne(s, ptr, s');
        if NoEmptyBlock(s) { FreeStaysValid(s, ptr, s'); }
      }
    case Grown(pages) => GrowJoinKeep(s, pages);
    case Joined => GrowJoinKeep(s, 0);
  }

  // ---- Runs ----

  lemma LedgerStep(calls: seq<Call>)
    requires calls != []
    ensures
      var before, call := Ledger(calls[..|calls| - 1]), calls[|calls| - 1];
      Ledger(calls) == match call
        case Asked(size, _, ptr) => if ptr == 0 then before else before[ptr := size]
        case Gave(ptr) => before - {ptr}
        case _ => before
  {
  }

  lemma ShorterRun(states: seq<seq<Block>>, calls: seq<Call>)
    requires HeapRun(states, calls) && calls != []
    ensures HeapRun(states[..|calls|], calls[..|calls| - 1]) && states[..|calls|][|calls| - 1] == states[|calls| - 1]
    ensures SmallRequests(calls) ==> SmallRequests(calls[..|calls| - 1])
  {
    hide HeapStep;
    var ss, cs := states[..|calls|], calls[..|calls| - 1];
    forall i | 0 <= i < |cs| ensures HeapStep(ss[i], cs[i], ss[i + 1]) {
      assert HeapStep(states[i], calls[i], states[i + 1]);
    }
  }

  lemma FreshHeap(s: seq<Block>)
    requires s == [] || s == [Block(PAGE_GRANULES - 2, false)]
    ensures Normal(s) && Live(s, 0) == map[] && NoEmptyBlock(s)
  {
    if s != [] { assert s[1..] == []; }
  }

  /** Safety over every run: no two free neighbours, and the live payloads are exactly the
      grants not yet returned. */
  lemma {:induction false} RunsOwnTheirGrants(states: seq<seq<Block>>, calls: seq<Call>)
    requires HeapRun(states, calls)
    ensures Normal(states[|calls|]) && Live(states[|calls|], 0).Keys == Ledger(calls).Keys
    decreases |calls|
  {
    if calls == [] {
      FreshHeap(states[0]);
    } else {
      var k := |calls| - 1;
      var call, s, s' := calls[k], states[k], states[k + 1];
      ShorterRun(states, calls);
      RunsOwnTheirGrants(states[..|calls|], calls[..k]);
      assert HeapStep(s, call, s');
      hide *;
      CallKeeps(s, call, s');
      LedgerStep(calls);
    }
  }

  /** When no request wraps: every outstanding grant is at least as large as asked for, and
      heap_validate accepts every reachable heap. */
  lemma {:induction false} RunsKeepPromises(states: seq<seq<Block>>, calls: seq<Call>)
    requires HeapRun(states, calls) && SmallRequests(calls)
    ensures NoEmptyBlock(states[|calls|])
    ensures forall p | p in Ledger(calls) :: p in Live(states[|calls|], 0) && Ledger(calls)[p] <= Live(states[|calls|], 0)[p]
    decreases |calls|
  {
    if calls == [] {
      FreshHeap(states[0]);
    } else {
      var k := |calls| - 1;
      var call, s, s' := calls[k], states[k], states[k + 1];
      ShorterRun(states, calls);
      RunsOwnTheirGrants(states[..|calls|], calls[..k]);
      RunsKeepPromises(states[..|calls|], calls[..k]);
      assert HeapStep(s, call, s') && (call.Asked? ==> call.size <= LARGEST_REQUEST);
      hide *;
      CallKeeps(s, call, s');
      LedgerStep(calls);
    }
  }

  /** Outstanding grants never overlap one another or each other's headers, are 8-byte
      aligned, and lie inside the committed part of the window. */
  lemma GrantsAreDisjoint(states: seq<seq<Block>>, calls: seq<Call>, p: int, q: int)
    requires HeapRun(states, calls) && SmallRequests(calls) && p in Ledger(calls) && q in Ledger(calls) && p < q
    ensures p + Ledger(calls)[p] <= q - 16 && p % 8 == 0 && KHEAP_BASE + 16 <= p
    ensures q + Ledger(calls)[q] <= Addr(Span(states[|calls|]))
  {
    RunsKeepPromises(states, calls);
    LiveDisjoint(states[|calls|], 0, p, q);
    LiveBounds(states[|calls|], 0);
  }
}
