/** The kernel heap as a sequence of blocks. Sizes and positions are counted in 8-byte
    granules; every block is a 16-byte header followed by its payload, and blocks follow one
    another without gaps, so position is the sum of what comes before. */
module HeapBlocks {
  import opened MachineWords

  const KHEAP_BASE: u32 := 0x8040_0000
  const KHEAP_LIMIT: u32 := 0x8080_0000    // KHEAP_BASE + KHEAP_MAX_SIZE
  const HEAP_WORDS := 0x10_0000            // dwords in the heap window
  const HEAP_MAGIC: u32 := 0xC0DE_F00D
  const HEAP_USED: u32 := 1
  const HEAP_FREE: u32 := 0
  const PAGE_GRANULES := 512

  datatype Block = Block(size: nat, used: bool)

  function Span(bs: seq<Block>): nat {
    if bs == [] then 0 else 2 + bs[0].size + Span(bs[1..])
  }

  /** Byte address of a granule. */
  function Addr(g: nat): int {
    KHEAP_BASE + 8 * g
  }

  lemma {:induction false} SpanConcat(a: seq<Block>, b: seq<Block>)
    ensures Span(a + b) == Span(a) + Span(b)
  {
    if a == [] {
      assert a + b == b;
    } else {
      assert (a + b)[1..] == a[1..] + b;
      SpanConcat(a[1..], b);
    }
  }

  // ---- Operations on the block sequence ----

  /** Join every maximal run of free blocks, left to right. */
  function Merge(bs: seq<Block>): seq<Block>
    decreases |bs|
  {
    if |bs| < 2 then bs
    else if !bs[0].used && !bs[1].used then Merge([Block(bs[0].size + 2 + bs[1].size, false)] + bs[2..])
    else [bs[0]] + Merge(bs[1..])
  }

  /** No two neighbouring blocks are both free. */
  predicate Normal(bs: seq<Block>) {
    |bs| < 2 || ((bs[0].used || bs[1].used) && Normal(bs[1..]))
  }

  /** Index of the first free block of at least `n` granules, or the length. */
  function FirstFit(bs: seq<Block>, n: nat): (i: nat)
    ensures i <= |bs|
    ensures i < |bs| ==> !bs[i].used && bs[i].size >= n
    ensures forall j | 0 <= j < i :: bs[j].used || bs[j].size < n
  {
    if bs == [] || (!bs[0].used && bs[0].size >= n) then 0 else 1 + FirstFit(bs[1..], n)
  }

  /** Take `n` granules from one free block; the rest is split off unless it is under 24 bytes. */
  function Carve(b: Block, n: nat): seq<Block>
    requires b.size >= n
  {
    if b.size - n < 3 then [Block(b.size, true)] else [Block(n, true), Block(b.size - n - 2, false)]
  }

  function Take(bs: seq<Block>, i: nat, n: nat): seq<Block>
    requires i < |bs| && bs[i].size >= n
  {
    bs[..i] + Carve(bs[i], n) + bs[i + 1..]
  }

  function Release(bs: seq<Block>, i: nat): seq<Block>
    requires i < |bs|
  {
    Merge(bs[i := Block(bs[i].size, false)])
  }

  /** Append one free page and join it to a free tail. */
  function Grow(bs: seq<Block>): seq<Block> {
    Merge(bs + [Block(PAGE_GRANULES - 2, false)])
  }

  function GrowBy(bs: seq<Block>, pages: nat): seq<Block> {
    if pages == 0 then bs else Grow(GrowBy(bs, pages - 1))
  }

  // ---- Joining ----

  lemma {:induction false} MergeKeepsSpan(bs: seq<Block>)
    ensures Span(Merge(bs)) == Span(bs)
    decreases |bs|
  {
    if |bs| >= 2 {
      if !bs[0].used && !bs[1].used {
        var joined := [Block(bs[0].size + 2 + bs[1].size, false)] + bs[2..];
        assert joined[1..] == bs[2..] && bs[1..][1..] == bs[2..];
        MergeKeepsSpan(joined);
      } else {
        MergeKeepsSpan(bs[1..]);
      }
    }
  }

  lemma {:induction false} MergeIsNormal(bs: seq<Block>)
    ensures Normal(Merge(bs))
    ensures bs != [] ==> Merge(bs) != [] && Merge(bs)[0].used == bs[0].used
    decreases |bs|
  {
    if |bs| >= 2 {
      if !bs[0].used && !bs[1].used {
        MergeIsNormal([Block(bs[0].size + 2 + bs[1].size, false)] + bs[2..]);
      } else {
        MergeIsNormal(bs[1..]);
        assert Merge(bs)[1..] == Merge(bs[1..]);
      }
    }
  }

  lemma {:induction false} MergeOfNormal(bs: seq<Block>)
    requires Normal(bs)
    ensures Merge(bs) == bs
  {
    if |bs| >= 2 { MergeOfNormal(bs[1..]); }
  }

  lemma {:induction false} GrowNormal(bs: seq<Block>)
    requires Normal(bs)
    ensures Grow(bs) == if bs != [] && !bs[|bs| - 1].used
                        then bs[..|bs| - 1] + [Block(bs[|bs| - 1].size + PAGE_GRANULES, false)]
                        else bs + [Block(PAGE_GRANULES - 2, false)]
  {
    var page := [Block(PAGE_GRANULES - 2, false)];
    if |bs| >= 2 {
      assert (bs + page)[1..] == bs[1..] + page;
      GrowNormal(bs[1..]);
    } else if |bs| == 1 {
      assert bs + page == [bs[0], page[0]];
      if !bs[0].used {
        assert Merge(bs + page) == Merge([Block(bs[0].size + PAGE_GRANULES, false)] + (bs + page)[2..]);
      } else {
        assert (bs + page)[1..] == page;
      }
    }
  }

  lemma {:induction false} NormalParts(a: seq<Block>, b: seq<Block>)
    ensures Normal(a + b) <==> Normal(a) && Normal(b) && (a == [] || b == [] || a[|a| - 1].used || b[0].used)
  {
    if |a| >= 1 {
      assert (a + b)[1..] == a[1..] + b;
      NormalParts(a[1..], b);
    } else {
      assert a + b == b;
    }
  }

  /** Growing by `k` pages keeps everything but a free tail, which it extends by 4096 bytes a page. */
  lemma {:induction false} GrowByTail(bs: seq<Block>, k: nat)
    requires Normal(bs) && k > 0
    ensures
      var g := GrowBy(bs, k);
      var kept := if bs != [] && !bs[|bs| - 1].used then bs[..|bs| - 1] else bs;
      Normal(g) && |g| == |kept| + 1 && g[..|kept|] == kept && !g[|kept|].used && g[|kept|].size + 2 >= PAGE_GRANULES * k
    ensures Span(GrowBy(bs, k)) == Span(bs) + PAGE_GRANULES * k
  {
    if k > 1 { GrowByTail(bs, k - 1); }
    GrowNormal(GrowBy(bs, k - 1));
    MergeIsNormal(GrowBy(bs, k - 1) + [Block(PAGE_GRANULES - 2, false)]);
    MergeKeepsSpan(GrowBy(bs, k - 1) + [Block(PAGE_GRANULES - 2, false)]);
    SpanConcat(GrowBy(bs, k - 1), [Block(PAGE_GRANULES - 2, false)]);
  }

  /** When nothing fits, `k` pages with room for the request make the last block the first fit. */
  lemma GrowThenFit(bs: seq<Block>, n: nat, k: nat)
    requires Normal(bs) && FirstFit(bs, n) == |bs| && k > 0 && PAGE_GRANULES * k >= n + 2
    ensures FirstFit(GrowBy(bs, k), n) == |GrowBy(bs, k)| - 1
  {
    GrowByTail(bs, k);
    var g := GrowBy(bs, k);
    forall j | 0 <= j < |g| - 1 ensures g[j].used || g[j].size < n {
      assert g[j] == g[..|g| - 1][j] == bs[j];
    }
  }

  // ---- Live payloads ----

  /** Payload address -> payload bytes, for every used block. */
  function Live(bs: seq<Block>, at: nat): map<int, int> {
    if bs == [] then map[]
    else
      var rest := Live(bs[1..], at + 2 + bs[0].size);
      if bs[0].used then rest[Addr(at + 2) := 8 * bs[0].size] else rest
  }

  lemma {:induction false} LiveConcat(a: seq<Block>, b: seq<Block>, at: nat)
    ensures Live(a + b, at) == Live(a, at) + Live(b, at + Span(a))
  {
    if a == [] {
      assert a + b == b;
    } else {
      assert (a + b)[1..] == a[1..] + b;
      LiveConcat(a[1..], b, at + 2 + a[0].size);
      LiveBounds(b, at + Span(a));
    }
  }

  /** Live payloads are 8-byte aligned and lie, header included, inside their span. */
  lemma {:induction false} LiveBounds(bs: seq<Block>, at: nat)
    ensures forall p | p in Live(bs, at) ::
      Addr(at) + 16 <= p && 0 <= Live(bs, at)[p] && p + Live(bs, at)[p] <= Addr(at + Span(bs)) && p % 8 == 0
  {
    if bs != [] {
      var next := at + 2 + bs[0].size;
      LiveBounds(bs[1..], next);
      assert Addr(at + 2) % 8 == 0;
    }
  }

  /** Distinct live payloads, with their headers, do not overlap. */
  lemma {:induction false} LiveDisjoint(bs: seq<Block>, at: nat, p: int, q: int)
    requires p in Live(bs, at) && q in Live(bs, at) && p < q
    ensures p + Live(bs, at)[p] <= q - 16
  {
    var next := at + 2 + bs[0].size;
    LiveBounds(bs[1..], next);
    if p in Live(bs[1..], next) { LiveDisjoint(bs[1..], next, p, q); }
  }

  lemma {:induction false} MergeKeepsLive(bs: seq<Block>, at: nat)
    ensures Live(Merge(bs), at) == Live(bs, at)
    decreases |bs|
  {
    if |bs| >= 2 {
      if !bs[0].used && !bs[1].used {
        var joined := [Block(bs[0].size + 2 + bs[1].size, false)] + bs[2..];
        assert joined[1..] == bs[2..] && bs[1..][1..] == bs[2..];
        MergeKeepsLive(joined, at);
      } else {
        MergeKeepsLive(bs[1..], at + 2 + bs[0].size);
      }
    }
  }

  lemma {:induction false} GrowKeepsLive(bs: seq<Block>, k: nat)
    ensures Live(GrowBy(bs, k), 0) == Live(bs, 0)
  {
    if k > 0 {
      var g, page := GrowBy(bs, k - 1), [Block(PAGE_GRANULES - 2, false)];
      GrowKeepsLive(bs, k - 1);
      MergeKeepsLive(g + page, 0);
      LiveConcat(g, page, 0);
    }
  }

  lemma LiveMiddle(a: seq<Block>, m: seq<Block>, b: seq<Block>)
    ensures Live(a + m + b, 0) == Live(a, 0) + Live(m, Span(a)) + Live(b, Span(a) + Span(m))
    ensures Span(a + m + b) == Span(a) + Span(m) + Span(b)
  {
    LiveConcat(a + m, b, 0);
    LiveConcat(a, m, 0);
    SpanConcat(a + m, b);
    SpanConcat(a, m);
  }

  lemma LiveSingle(b: Block, at: nat)
    ensures Live([b], at) == (if b.used then map[Addr(at + 2) := 8 * b.size] else map[]) && Span([b]) == 2 + b.size
  {
    assert [b][1..] == [];
  }

  lemma LiveCarved(b: Block, at: nat, n: nat)
    requires b.size >= n
    ensures Live(Carve(b, n), at) == map[Addr(at + 2) := 8 * Carve(b, n)[0].size] && Span(Carve(b, n)) == 2 + b.size
  {
    var c := Carve(b, n);
    assert c == [c[0]] + c[1..];
    LiveSingle(c[0], at);
    if |c| == 2 { LiveSingle(c[1], at + 2 + n); }
  }

  /** Swapping one payload into the middle of a live map. */
  lemma LiveAround(a: seq<Block>, b: seq<Block>, size: nat, bytes: int)
    ensures
      var at := Span(a);
      var before, after := Live(a, 0), Live(b, at + 2 + size);
      var p := Addr(at + 2);
      p !in before && p !in after && before + map[p := bytes] + after == (before + after)[p := bytes] &&
      before + after == (before + map[p := bytes] + after) - {p}
  {
    LiveBounds(a, 0);
    LiveBounds(b, Span(a) + 2 + size);
  }

  /** Taking a block adds exactly one live payload, at least as large as requested. */
  lemma TakeAddsLive(bs: seq<Block>, i: nat, n: nat)
    requires i < |bs| && !bs[i].used && bs[i].size >= n
    ensures
      var p := Addr(Span(bs[..i]) + 2);
      p !in Live(bs, 0) &&
      Live(Take(bs, i, n), 0) == Live(bs, 0)[p := 8 * Carve(bs[i], n)[0].size] &&
      n <= Carve(bs[i], n)[0].size < n + 3 && Span(Take(bs, i, n)) == Span(bs)
  {
    hide Live, Span;
    var a, b := bs[..i], bs[i + 1..];
    assert bs == a + [bs[i]] + b;
    LiveMiddle(a, [bs[i]], b);
    LiveMiddle(a, Carve(bs[i], n), b);
    LiveSingle(bs[i], Span(a));
    LiveCarved(bs[i], Span(a), n);
    LiveAround(a, b, bs[i].size, 8 * Carve(bs[i], n)[0].size);
  }

  /** Releasing a block removes exactly its payload. */
  lemma ReleaseDropsLive(bs: seq<Block>, i: nat)
    requires i < |bs| && bs[i].used
    ensures
      var p := Addr(Span(bs[..i]) + 2);
      p in Live(bs, 0) && Live(Release(bs, i), 0) == Live(bs, 0) - {p} && Span(Release(bs, i)) == Span(bs)
  {
    hide Live, Span, Merge;
    var a, b := bs[..i], bs[i + 1..];
    var freed := Block(bs[i].size, false);
    assert bs == a + [bs[i]] + b && bs[i := freed] == a + [freed] + b;
    LiveMiddle(a, [bs[i]], b);
    LiveMiddle(a, [freed], b);
    LiveSingle(bs[i], Span(a));
    LiveSingle(freed, Span(a));
    LiveAround(a, b, bs[i].size, 8 * bs[i].size);
    MergeKeepsLive(bs[i := freed], 0);
    MergeKeepsSpan(bs[i := freed]);
  }

  /** Every live payload is some used block's. */
  lemma {:induction false} LiveIndex(bs: seq<Block>, at: nat, p: int) returns (i: nat)
    requires p in Live(bs, at)
    ensures i < |bs| && bs[i].used && p == Addr(at + Span(bs[..i]) + 2) && Live(bs, at)[p] == 8 * bs[i].size
  {
    if bs[0].used && p == Addr(at + 2) {
      i := 0;
      LiveBounds(bs[1..], at + 2 + bs[0].size);
    } else {
      var j := LiveIndex(bs[1..], at + 2 + bs[0].size, p);
      i := j + 1;
      assert bs[..i] == [bs[0]] + bs[1..][..j];
      SpanConcat([bs[0]], bs[1..][..j]);
    }
  }

  lemma TakeIsNormal(bs: seq<Block>, i: nat, n: nat)
    requires Normal(bs) && i < |bs| && !bs[i].used && bs[i].size >= n
    ensures Normal(Take(bs, i, n))
  {
    var a, b, c := bs[..i], bs[i + 1..], Carve(bs[i], n);
    assert Normal(c) && Normal([bs[i]]);
    hide Normal;
    assert bs == a + ([bs[i]] + b) && Take(bs, i, n) == a + (c + b);
    NormalParts(a, [bs[i]] + b);
    NormalParts([bs[i]], b);
    NormalParts(c, b);
    NormalParts(a, c + b);
  }

  // ---- The validator's extra demand ----

  /** No block is empty. */
  predicate NoEmptyBlock(bs: seq<Block>) {
    forall i | 0 <= i < |bs| :: bs[i].size > 0
  }

  lemma {:induction false} MergeNoEmpty(bs: seq<Block>)
    requires NoEmptyBlock(bs)
    ensures NoEmptyBlock(Merge(bs))
    decreases |bs|
  {
    if |bs| >= 2 {
      if !bs[0].used && !bs[1].used {
        MergeNoEmpty([Block(bs[0].size + 2 + bs[1].size, false)] + bs[2..]);
      } else {
        MergeNoEmpty(bs[1..]);
      }
    }
  }

  lemma {:induction false} GrowByNoEmpty(bs: seq<Block>, k: nat)
    requires NoEmptyBlock(bs)
    ensures NoEmptyBlock(GrowBy(bs, k))
  {
    if k > 0 {
      GrowByNoEmpty(bs, k - 1);
      MergeNoEmpty(GrowBy(bs, k - 1) + [Block(PAGE_GRANULES - 2, false)]);
    }
  }

  /** Taking introduces an empty block exactly when nothing was asked for and the chosen block splits. */
  lemma TakeEmptyIff(bs: seq<Block>, i: nat, n: nat)
    requires NoEmptyBlock(bs) && i < |bs| && bs[i].size >= n
    ensures NoEmptyBlock(Take(bs, i, n)) <==> n > 0 || bs[i].size < 3
  {
    var t := Take(bs, i, n);
    assert t[i] == Carve(bs[i], n)[0];
    assert bs[i].size - n >= 3 ==> t[i + 1] == Carve(bs[i], n)[1];
  }

  // ---- Sizes as the allocator computes them ----

  /** add 7; and 0FFFFFFF8h, in 32 bits. */
  function Rounded(size: u32): u32 {
    (size + 7) % WORD / 8 * 8
  }

  /** The page count requested from the page source, in 32 bits: header and slack included. */
  function PagesFor(rounded: u32): nat {
    ((rounded + 16) % WORD + 0xFFF) % WORD / 0x1000
  }

  /** The pages asked for have room for the request and its header. */
  predicate Enough(size: u32) {
    PAGE_GRANULES * PagesFor(Rounded(size)) >= Rounded(size) / 8 + 2
  }

  /** The page count is the least that has room for the block and its header. */
  lemma PagesForIsLeast(size: u32)
    requires 0 < size && size + 4111 < WORD
    ensures
      var pages, granules := PagesFor(Rounded(size)), Rounded(size) / 8 + 2;
      512 * (pages - 1) < granules <= 512 * pages && 8 * granules >= size + 16 && 8 * granules < size + 24
  {
  }

  lemma RoundingFacts(size: u32)
    ensures size <= 0xFFFF_FFF8 ==> size <= Rounded(size) < size + 8
    ensures size > 0xFFFF_FFF8 ==> Rounded(size) == 0
    ensures Enough(size) ==> PagesFor(Rounded(size)) > 0
    ensures Enough(size) <==> size + 4111 < WORD || size > 0xFFFF_FFF8
    ensures size > 0xFFFF_FFF8 ==> PagesFor(Rounded(size)) == 1
  {
  }
}
