/** The boot-time search for the four contiguous frames behind the hardware cursor. */
module CursorPages {
  import opened MachineWords
  import opened FrameAllocator

  const NOT_FOUND: u32 := 0xFFFF_FFFF

  /** Four addresses from index `i` on are consecutive, page aligned and do not wrap. */
  ghost predicate QuadAt(pages: seq<u32>, i: nat) {
    i + 3 < |pages| && pages[i] != 0 && pages[i] % PAGE_SIZE == 0 && pages[i] <= 0xFFFF_C000 &&
    pages[i + 1] == pages[i] + 0x1000 && pages[i + 2] == pages[i] + 0x2000 && pages[i + 3] == pages[i] + 0x3000
  }

  method FindCursorPages(pages: array<u32>, count: nat) returns (index: u32)
    requires count <= pages.Length < NOT_FOUND
    ensures index != NOT_FOUND ==> QuadAt(pages[..count], index) && forall i: nat | i < index :: !QuadAt(pages[..count], i)
    ensures index == NOT_FOUND ==> forall i: nat :: !QuadAt(pages[..count], i)
  {
    if count < 4 {
      return NOT_FOUND;
    }
    var i := 0;
    while i <= count - 4
      invariant 0 <= i <= count - 3
      invariant forall j: nat | j < i :: !QuadAt(pages[..count], j)
    {
      var base := pages[i];
      if base != 0 && base % PAGE_SIZE == 0 && base <= 0xFFFF_C000 &&
         pages[i + 1] == base + 0x1000 && pages[i + 2] == base + 0x2000 && pages[i + 3] == base + 0x3000 {
        return i;
      }
      i := i + 1;
    }
    return NOT_FOUND;
  }

  /** `frames` lists, in ascending order, exactly the frames below `next` that are free in `used`. */
  ghost predicate Collected(used: Bitmap, next: nat, frames: seq<nat>) {
    next <= RAM_END &&
    (forall k | 0 <= k < |frames| :: frames[k] < next && !used[frames[k]]) &&
    (forall j, k | 0 <= j < k < |frames| :: frames[j] < frames[k]) &&
    forall g | 0 <= g < next && !used[g] :: g in frames
  }

  lemma {:induction false} AscendingGap(frames: seq<nat>, i: nat, k: nat)
    requires i <= k < |frames| && forall a, b | 0 <= a < b < |frames| :: frames[a] < frames[b]
    ensures frames[k] - frames[i] >= k - i
  {
    if i < k { AscendingGap(frames, i, k - 1); }
  }

  lemma {:induction false} CollectedCount(used: Bitmap, next: nat, frames: seq<nat>)
    requires Collected(used, next, frames)
    ensures FreeBelow(used, next) == |frames|
    decreases next
  {
    if next > 0 {
      var last := next - 1;
      if used[last] {
        CollectedCount(used, last, frames);
      } else {
        var k :| 0 <= k < |frames| && frames[k] == last;
        AscendingGap(frames, k, |frames| - 1);
        var rest := frames[..k];
        forall g | 0 <= g < last && !used[g] ensures g in rest {
          var j :| 0 <= j < |frames| && frames[j] == g;
          assert rest[j] == g;
        }
        CollectedCount(used, last, rest);
      }
    }
  }

  lemma CollectedPrefix(used: Bitmap, next: nat, frames: seq<nat>, k: nat)
    requires Collected(used, next, frames) && k < |frames|
    ensures FreeBelow(used, frames[k] + 1) == k + 1
  {
    var pre := frames[..k + 1];
    forall g | 0 <= g < frames[k] + 1 && !used[g] ensures g in pre {
      var j :| 0 <= j < |frames| && frames[j] == g;
      assert pre[j] == g;
    }
    CollectedCount(used, frames[k] + 1, pre);
  }

  lemma NextListed(used: Bitmap, next: nat, frames: seq<nat>, i: nat)
    requires Collected(used, next, frames) && i < |frames|
    requires frames[i] + 1 < next && !used[frames[i] + 1]
    ensures i + 1 < |frames| && frames[i + 1] == frames[i] + 1
  {
    var j :| 0 <= j < |frames| && frames[j] == frames[i] + 1;
    if i < j { AscendingGap(frames, i, j); }
  }

  /** A run of four free frames below `next` shows up as four consecutive list entries. */
  lemma QuadIsListed(used: Bitmap, next: nat, frames: seq<nat>, pages: seq<u32>, f: nat) returns (i: nat)
    requires Collected(used, next, frames) && AreAddresses(pages, frames) && used[0]
    requires FreeQuad(used, f) && f + 3 < next
    ensures i < |frames| && frames[i] == f && QuadAt(pages, i)
  {
    i :| 0 <= i < |frames| && frames[i] == f;
    NextListed(used, next, frames, i);
    NextListed(used, next, frames, i + 1);
    NextListed(used, next, frames, i + 2);
  }

  /** `f` is the first free managed frame at or after `next`. */
  ghost predicate NextFree(used: Bitmap, next: nat, f: nat) {
    next <= f < RAM_END && !used[f] && forall g | next <= g < f :: used[g]
  }

  lemma NothingCollected(s: PmmState)
    requires HintSound(s)
    ensures Collected(s.used, s.hint, []) && Returned(s.used, s.used, [], 0, {}) && AreAddresses([], []) && NoQuad([])
  {
  }

  lemma OneMoreAddress(pages: seq<u32>, frames: seq<nat>, physical: u32)
    requires AreAddresses(pages, frames) && physical % PAGE_SIZE == 0
    ensures AreAddresses(pages + [physical], frames + [physical / PAGE_SIZE])
  {
  }

  lemma NoQuadMeans(pages: seq<u32>)
    ensures NoQuad(pages) <==> forall i: nat :: !QuadAt(pages, i)
  {
  }

  /** Where the hint stands after an allocation. */
  lemma HintAfter(s: PmmState, f: nat)
    requires HintSound(s) && LowestFree(s.used, f)
    ensures AllocStep(s).0 == PmmState(s.used[f := true], f + 1)
  {
  }

  lemma CollectedGrows(used: Bitmap, next: nat, frames: seq<nat>, f: nat)
    requires Collected(used, next, frames)
    requires NextFree(used, next, f)
    ensures Collected(used, f + 1, frames + [f])
  {
    forall g | 0 <= g < f + 1 && !used[g] ensures g in frames + [f] {
      if g < next { assert g in frames; }
    }
  }

  ghost predicate AreAddresses(pages: seq<u32>, frames: seq<nat>) {
    |pages| == |frames| && forall k | 0 <= k < |pages| :: pages[k] == frames[k] * PAGE_SIZE
  }

  ghost predicate NoQuad(pages: seq<u32>) {
    forall i: nat :: !QuadAt(pages, i)
  }

  /** The first listed quad is the lowest free run. */
  lemma ListedQuadIsLowest(used: Bitmap, next: nat, frames: seq<nat>, pages: seq<u32>, i: nat)
    requires Collected(used, next, frames) && AreAddresses(pages, frames) && used[0]
    requires QuadAt(pages, i) && forall j: nat | j < i :: !QuadAt(pages, j)
    ensures frames[i + 1] == frames[i] + 1 && frames[i + 2] == frames[i] + 2 && frames[i + 3] == frames[i] + 3
    ensures LowestQuad(used, frames[i]) && FreeBelow(used, frames[i] + 4) == i + 4
  {
    assert frames[i + 1] == frames[i] + 1 && frames[i + 2] == frames[i] + 2 && frames[i + 3] == frames[i] + 3;
    CollectedPrefix(used, next, frames, i + 3);
    forall f | 0 <= f < frames[i] ensures !FreeQuad(used, f) {
      if FreeQuad(used, f) {
        var k := QuadIsListed(used, next, frames, pages, f);
        assert false;
      }
    }
  }

  /** When the search stops without a quad, every free run ends beyond the 64 lowest free frames. */
  lemma ExhaustedSearch(used: Bitmap, next: nat, frames: seq<nat>, pages: seq<u32>)
    requires Collected(used, next, frames) && AreAddresses(pages, frames) && used[0] && NoQuad(pages)
    requires |frames| == CURSOR_ATTEMPTS || forall g | next <= g < RAM_END :: used[g]
    ensures forall f: nat | FreeQuad(used, f) :: FreeBelow(used, f + 4) > CURSOR_ATTEMPTS
  {
    CollectedCount(used, next, frames);
    forall f: nat | FreeQuad(used, f) ensures FreeBelow(used, f + 4) > CURSOR_ATTEMPTS {
      if f + 3 < next {
        var i := QuadIsListed(used, next, frames, pages, f);
        assert false;
      } else {
        FreeBelowMonotone(used, next, f + 3);
      }
    }
  }

  /** After the first `i` returns, the bitmap is the original one plus the frames still held. */
  ghost predicate Returned(now: seq<bool>, used: Bitmap, frames: seq<nat>, i: nat, kept: set<nat>) {
    |now| == FRAME_COUNT && i <= |frames| &&
    forall g | 0 <= g < FRAME_COUNT :: now[g] == (used[g] || g in frames[i..] || g in kept)
  }

  lemma ReturnOne(now: seq<bool>, used: Bitmap, next: nat, frames: seq<nat>, i: nat, kept: set<nat>, now': seq<bool>)
    requires Collected(used, next, frames) && Returned(now, used, frames, i, kept) && i < |frames|
    requires now' == if frames[i] in kept then now else now[frames[i] := false]
    ensures Returned(now', used, frames, i + 1, kept)
  {
    assert frames[i..] == [frames[i]] + frames[i + 1..];
    assert frames[i] !in frames[i + 1..];
  }

  /** The listed pages are the lowest free frames, all taken and none returned yet. */
  ghost predicate Candidates(s: PmmState, used: Bitmap, pages: seq<u32>, frames: seq<nat>) {
    AreAddresses(pages, frames) && Collected(used, s.hint, frames) && Returned(s.used, used, frames, 0, {})
  }

  /** The answer of the search through a list. */
  ghost predicate Answers(pages: seq<u32>, found: u32) {
    if found == NOT_FOUND then NoQuad(pages) else QuadAt(pages, found) && forall j: nat | j < found :: !QuadAt(pages, j)
  }

  lemma CandidatesAre(s: PmmState, used: Bitmap, pages: seq<u32>, frames: seq<nat>)
    ensures Candidates(s, used, pages, frames) <==>
      AreAddresses(pages, frames) && Collected(used, s.hint, frames) && Returned(s.used, used, frames, 0, {})
  {
    hide AreAddresses, Collected, Returned;
  }

  lemma AnswersIs(pages: seq<u32>, found: u32)
    ensures Answers(pages, found) <==>
      if found == NOT_FOUND then NoQuad(pages) else QuadAt(pages, found) && forall j: nat | j < found :: !QuadAt(pages, j)
  {
    hide NoQuad, QuadAt;
  }

  lemma PmmParts(pmm: Pmm)
    requires pmm.Valid()
    ensures pmm.State() == PmmState(pmm.bitmap[..], pmm.next) && 0 < pmm.bitmap.Length
    ensures PAGE_SIZE == 0x1000 && CURSOR_ATTEMPTS < NOT_FOUND
  {
  }

  /** One candidate more, and the search through the list so far. */
  method CollectOne(pmm: Pmm, pages: array<u32>, count: nat, ghost used: Bitmap, ghost frames: seq<nat>)
    returns (more: bool, found: u32, ghost frames': seq<nat>)
    requires pmm.Valid() && HintSound(pmm.State()) && pmm.bitmap[0] && pages.Length == CURSOR_ATTEMPTS && count < CURSOR_ATTEMPTS
    requires Candidates(pmm.State(), used, pages[..count], frames) && NoQuad(pages[..count])
    modifies pmm`next, pmm.bitmap, pages
    ensures pmm.Valid() && HintSound(pmm.State()) && pmm.bitmap[0]
    ensures if more then Candidates(pmm.State(), used, pages[..count + 1], frames') && Answers(pages[..count + 1], found)
      else found == NOT_FOUND && frames' == frames && Candidates(pmm.State(), used, pages[..count], frames) && NoneFree(pmm.bitmap[..]) && NoQuad(pages[..count])
  {
    hide *;
    ghost var before, listed := pmm.State(), pages[..count];
    CandidatesAre(before, used, listed, frames);
    PmmParts(pmm);
    AllocFacts(before);
    var physical := pmm.AllocPage();
    PmmParts(pmm);
    more, found, frames' := physical != 0, NOT_FOUND, frames;
    if physical == 0 {
      return;
    }
    ghost var f := physical / PAGE_SIZE;
    StillFree(before, used, frames, f);
    CollectedGrows(used, before.hint, frames, f);
    OneMoreAddress(listed, frames, physical);
    HintAfter(before, f);
    pages[count] := physical;
    frames' := frames + [f];
    assert pages[..count + 1] == listed + [physical];
    found := FindCursorPages(pages, count + 1);
    NoQuadMeans(pages[..count + 1]);
    AnswersIs(pages[..count + 1], found);
    CandidatesAre(pmm.State(), used, pages[..count + 1], frames');
  }

  /** The allocation phase: ask for frames until four of them are consecutive. */
  method CollectCandidates(pmm: Pmm, pages: array<u32>) returns (count: nat, found: u32, ghost frames: seq<nat>)
    requires pmm.Valid() && HintSound(pmm.State()) && pmm.bitmap[0]
    requires pages.Length == CURSOR_ATTEMPTS
    modifies pmm`next, pmm.bitmap, pages
    ensures pmm.Valid() && HintSound(pmm.State())
    ensures count <= CURSOR_ATTEMPTS && AreAddresses(pages[..count], frames)
    ensures Collected(old(pmm.bitmap[..]), pmm.next, frames)
    ensures Returned(pmm.bitmap[..], old(pmm.bitmap[..]), frames, 0, {})
    ensures found == NOT_FOUND ==> NoQuad(pages[..count]) && (count == CURSOR_ATTEMPTS || NoneFree(pmm.bitmap[..]))
    ensures found != NOT_FOUND ==> QuadAt(pages[..count], found) && forall j: nat | j < found :: !QuadAt(pages[..count], j)
  {
    hide *;
    PmmParts(pmm);
    ghost var used: Bitmap := pmm.bitmap[..];
    NothingCollected(pmm.State());
    frames := [];
    count := 0;
    found := NOT_FOUND;
    assert pages[..0] == [];
    CandidatesAre(pmm.State(), used, pages[..0], frames);
    AnswersIs(pages[..0], found);
    var more := true;
    while count < CURSOR_ATTEMPTS && more && found == NOT_FOUND
      invariant count <= CURSOR_ATTEMPTS && pmm.Valid() && HintSound(pmm.State()) && 0 < pmm.bitmap.Length && pmm.bitmap[0]
      invariant Candidates(pmm.State(), used, pages[..count], frames) && Answers(pages[..count], found)
      invariant !more ==> NoneFree(pmm.bitmap[..])
      decreases CURSOR_ATTEMPTS - count, more
    {
      PmmParts(pmm);
      AnswersIs(pages[..count], found);
      more, found, frames := CollectOne(pmm, pages, count, used, frames);
      if more {
        count := count + 1;
      }
      PmmParts(pmm);
      AnswersIs(pages[..count], found);
    }
    PmmParts(pmm);
    CandidatesAre(pmm.State(), used, pages[..count], frames);
    AnswersIs(pages[..count], found);
  }

  /** The frame just handed out was free before the search began. */
  lemma StillFree(before: PmmState, used: Bitmap, frames: seq<nat>, f: nat)
    requires HintSound(before) && Collected(used, before.hint, frames) && Returned(before.used, used, frames, 0, {})
    requires LowestFree(before.used, f)
    ensures NextFree(used, before.hint, f)
    ensures Returned(before.used[f := true], used, frames + [f], 0, {})
  {
    assert (frames + [f])[0..] == frames + [f] && frames[0..] == frames;
  }

  /** The frames kept after the search: four list entries from `found` on, or none. */
  ghost function KeptFrames(frames: seq<nat>, found: u32): (kept: set<nat>) {
    if found + 3 < |frames| then {frames[found], frames[found + 1], frames[found + 2], frames[found + 3]} else {}
  }

  lemma KeptByPosition(used: Bitmap, next: nat, frames: seq<nat>, found: u32, i: nat)
    requires Collected(used, next, frames) && i < |frames|
    requires found == NOT_FOUND || found + 3 < |frames|
    requires |frames| < NOT_FOUND
    ensures frames[i] in KeptFrames(frames, found) <==> found <= i < found + 4
  {
  }

  lemma KeptRun(now: seq<bool>, used: Bitmap, frames: seq<nat>, found: u32)
    requires Returned(now, used, frames, |frames|, KeptFrames(frames, found))
    ensures found + 3 >= |frames| ==> now == used
    ensures found + 3 < |frames| && frames[found + 1] == frames[found] + 1 &&
            frames[found + 2] == frames[found] + 2 && frames[found + 3] == frames[found] + 3
      ==> now == SetRange(used, frames[found], frames[found] + 4, true)
  {
    assert frames[|frames|..] == [];
  }

  lemma AddressAt(pages: seq<u32>, frames: seq<nat>, i: nat)
    requires AreAddresses(pages, frames) && i < |pages|
    ensures i < |frames| == |pages| && pages[i] == frames[i] * PAGE_SIZE
  {
  }

  lemma FreedFrame(s: PmmState, used: Bitmap, next: nat, frames: seq<nat>, i: nat, phys: u32)
    requires HintSound(s) && Collected(used, next, frames) && used[0] && i < |frames| && phys == frames[i] * PAGE_SIZE
    ensures HintSound(FreeStep(s, phys)) && FreeStep(s, phys).used == s.used[frames[i] := false]
  {
    HintStaysSound(s, Free(phys));
  }

  /** The return phase: give back every frame outside the chosen run. */
  method ReturnCandidates(pmm: Pmm, pages: array<u32>, count: nat, found: u32, base: u32,
                          ghost used: Bitmap, ghost frames: seq<nat>)
    requires pmm.Valid() && HintSound(pmm.State()) && count <= pages.Length == CURSOR_ATTEMPTS
    requires AreAddresses(pages[..count], frames) && Collected(used, pmm.next, frames)
    requires Returned(pmm.bitmap[..], used, frames, 0, {}) && used[0]
    requires if base == 0 then found == NOT_FOUND else found + 3 < count
    modifies pmm`next, pmm.bitmap
    ensures pmm.Valid() && HintSound(pmm.State())
    ensures Returned(pmm.bitmap[..], used, frames, |frames|, KeptFrames(frames, found))
  {
    ghost var kept, next := KeptFrames(frames, found), pmm.next;
    ghost var listed := pages[..count];
    hide HintSound, Collected, Returned, AreAddresses, KeptFrames;
    var i := 0;
    while i < count
      invariant 0 <= i <= count
      invariant pmm.Valid() && HintSound(pmm.State())
      invariant Returned(pmm.bitmap[..], used, frames, i, kept)
    {
      ghost var now := pmm.bitmap[..];
      AddressAt(listed, frames, i);
      assert listed[i] == pages[i];
      KeptByPosition(used, next, frames, found, i);
      if base == 0 || i < found || found + 4 <= i {
        FreedFrame(pmm.State(), used, next, frames, i, pages[i]);
        pmm.FreePage(pages[i]);
      }
      ReturnOne(now, used, next, frames, i, kept, pmm.bitmap[..]);
      i := i + 1;
    }
  }

  /** The search either keeps the four frames of the lowest free run, provided that run
      ends within the 64 lowest free frames, or keeps nothing because no run does. */
  method AllocateCursorPages(pmm: Pmm) returns (base: u32)
    requires pmm.Valid() && HintSound(pmm.State()) && pmm.bitmap[0]
    modifies pmm`next, pmm.bitmap
    ensures pmm.Valid() && HintSound(pmm.State())
    ensures base == 0 ==>
      pmm.bitmap[..] == old(pmm.bitmap[..]) &&
      forall f: nat | FreeQuad(old(pmm.bitmap[..]), f) :: FreeBelow(old(pmm.bitmap[..]), f + 4) > CURSOR_ATTEMPTS
    ensures base != 0 ==>
      base % PAGE_SIZE == 0 && LowestQuad(old(pmm.bitmap[..]), base / PAGE_SIZE) &&
      FreeBelow(old(pmm.bitmap[..]), base / PAGE_SIZE + 4) <= CURSOR_ATTEMPTS &&
      pmm.bitmap[..] == SetRange(old(pmm.bitmap[..]), base / PAGE_SIZE, base / PAGE_SIZE + 4, true)
  {
    ghost var used: Bitmap := pmm.bitmap[..];
    var pages := new u32[CURSOR_ATTEMPTS];
    var count, found, frames := CollectCandidates(pmm, pages);
    base := if found != NOT_FOUND then pages[found] else 0;
    if base != 0 {
      ListedQuadIsLowest(used, pmm.next, frames, pages[..count], found);
    } else {
      ExhaustedSearch(used, pmm.next, frames, pages[..count]);
    }
    ReturnCandidates(pmm, pages, count, found, base, used, frames);
    KeptRun(pmm.bitmap[..], used, frames, found);
  }
}
