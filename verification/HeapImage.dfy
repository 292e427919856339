/** How a block sequence lies in the dwords of the heap window. */
module HeapImage {
  import opened MachineWords
  import opened HeapBlocks

  /** The four header words at granule `at`: magic, payload bytes, flag, next header. */
  ghost predicate Header(mem: seq<u32>, at: nat, b: Block, next: int) {
    2 * (at + 2 + b.size) <= |mem| && mem[2 * at] == HEAP_MAGIC && mem[2 * at + 1] == 8 * b.size &&
    mem[2 * at + 2] == (if b.used then HEAP_USED else HEAP_FREE) && mem[2 * at + 3] == next
  }

  /** Consecutive blocks linked in address order; the last one's next word is `tail`. */
  ghost predicate Linked(mem: seq<u32>, at: nat, bs: seq<Block>, tail: int)
    decreases |bs|
  {
    bs != [] ==>
      Header(mem, at, bs[0], if |bs| == 1 then tail else Addr(at + 2 + bs[0].size)) &&
      Linked(mem, at + 2 + bs[0].size, bs[1..], tail)
  }

  /** Dword `k` belongs to the payload of a used block. */
  ghost predicate InLive(bs: seq<Block>, at: nat, k: int)
    decreases |bs|
  {
    bs != [] &&
    ((bs[0].used && 2 * (at + 2) <= k < 2 * (at + 2 + bs[0].size)) || InLive(bs[1..], at + 2 + bs[0].size, k))
  }

  /** No dword of a live payload differs. */
  ghost predicate LiveKept(bs: seq<Block>, mem: seq<u32>, mem': seq<u32>) {
    |mem| == |mem'| && forall k | 0 <= k < |mem| && InLive(bs, 0, k) :: mem'[k] == mem[k]
  }

  ghost predicate SameLive(bs: seq<Block>, bs': seq<Block>) {
    forall k: int :: InLive(bs', 0, k) <==> InLive(bs, 0, k)
  }

  lemma {:induction false} LinkedSplit(mem: seq<u32>, at: nat, a: seq<Block>, b: seq<Block>, tail: int)
    requires b != []
    ensures Linked(mem, at, a + b, tail) <==> Linked(mem, at, a, Addr(at + Span(a))) && Linked(mem, at + Span(a), b, tail)
    decreases |a|
  {
    if a == [] {
      assert a + b == b;
    } else {
      assert (a + b)[1..] == a[1..] + b;
      LinkedSplit(mem, at + 2 + a[0].size, a[1..], b, tail);
    }
  }

  /** Only words inside the segment matter. */
  lemma {:induction false} LinkedFrame(mem: seq<u32>, mem': seq<u32>, at: nat, bs: seq<Block>, tail: int)
    requires Linked(mem, at, bs, tail) && |mem'| == |mem|
    requires forall k | 2 * at <= k < 2 * (at + Span(bs)) && k < |mem| :: mem'[k] == mem[k]
    ensures Linked(mem', at, bs, tail)
    decreases |bs|
  {
    if bs != [] { LinkedFrame(mem, mem', at + 2 + bs[0].size, bs[1..], tail); }
  }

  /** Stores into live payloads never disturb the list: what an owner may do with its block. */
  lemma {:induction false} OwnersMayWrite(mem: seq<u32>, mem': seq<u32>, at: nat, bs: seq<Block>, tail: int)
    requires Linked(mem, at, bs, tail) && |mem'| == |mem|
    requires forall k | 2 * at <= k < |mem| && !InLive(bs, at, k) :: mem'[k] == mem[k]
    ensures Linked(mem', at, bs, tail)
    decreases |bs|
  {
    if bs != [] {
      var next := at + 2 + bs[0].size;
      InLiveBounds(bs, at);
      InLiveBounds(bs[1..], next);
      OwnersMayWrite(mem, mem', next, bs[1..], tail);
    }
  }

  lemma {:induction false} InLiveBounds(bs: seq<Block>, at: nat)
    ensures forall k: int | InLive(bs, at, k) :: 2 * (at + 2) <= k < 2 * (at + Span(bs))
    decreases |bs|
  {
    if bs != [] { InLiveBounds(bs[1..], at + 2 + bs[0].size); }
  }

  lemma {:induction false} InLiveConcat(a: seq<Block>, b: seq<Block>, at: nat)
    ensures forall k: int :: InLive(a + b, at, k) <==> InLive(a, at, k) || InLive(b, at + Span(a), k)
    decreases |a|
  {
    if a == [] {
      assert a + b == b;
    } else {
      assert (a + b)[1..] == a[1..] + b;
      InLiveConcat(a[1..], b, at + 2 + a[0].size);
    }
  }

  /** Every word of a live payload counts as live. */
  lemma {:induction false} PayloadIsLive(bs: seq<Block>, at: nat, p: int, k: int)
    requires p in Live(bs, at) && p <= KHEAP_BASE + 4 * k < p + Live(bs, at)[p]
    ensures InLive(bs, at, k)
    decreases |bs|
  {
    var next := at + 2 + bs[0].size;
    LiveBounds(bs[1..], next);
    if !(bs[0].used && p == Addr(at + 2)) { PayloadIsLive(bs[1..], next, p, k); }
  }

  // ---- Working on the middle of the list ----

  ghost function TailOf(a: seq<Block>, m: seq<Block>, c: seq<Block>): int {
    if c == [] then 0 else Addr(Span(a) + Span(m))
  }

  lemma Parts(mem: seq<u32>, a: seq<Block>, m: seq<Block>, c: seq<Block>)
    requires m != []
    ensures Linked(mem, 0, a + m + c, 0) <==>
      Linked(mem, 0, a, Addr(Span(a))) && Linked(mem, Span(a), m, TailOf(a, m, c)) && Linked(mem, Span(a) + Span(m), c, 0)
  {
    hide Linked, Span;
    assert a + m + c == a + (m + c);
    LinkedSplit(mem, 0, a, m + c, 0);
    if c == [] {
      assert m + c == m;
      LinkedEmpty(mem, Span(a) + Span(m));
    } else {
      LinkedSplit(mem, Span(a), m, c, 0);
    }
  }

  lemma LinkedEmpty(mem: seq<u32>, at: nat)
    ensures Linked(mem, at, [], 0)
  {
  }

  lemma LinkedOne(mem: seq<u32>, at: nat, x: Block, tail: int)
    ensures Linked(mem, at, [x], tail) <==> Header(mem, at, x, tail)
    ensures Span([x]) == 2 + x.size
  {
    assert [x][1..] == [];
  }

  lemma LinkedTwo(mem: seq<u32>, at: nat, x: Block, y: Block, tail: int)
    ensures Linked(mem, at, [x, y], tail) <==>
      Header(mem, at, x, Addr(at + 2 + x.size)) && Header(mem, at + 2 + x.size, y, tail)
    ensures Span([x, y]) == 4 + x.size + y.size
  {
    assert [x, y][1..] == [y];
    LinkedOne(mem, at + 2 + x.size, y, tail);
  }

  /** A live word of a list in three parts is live in one of them, and lies in its range. */
  lemma LiveParts(a: seq<Block>, m: seq<Block>, c: seq<Block>, k: int)
    ensures InLive(a + m + c, 0, k) <==>
      InLive(a, 0, k) || InLive(m, Span(a), k) || InLive(c, Span(a) + Span(m), k)
    ensures InLive(a, 0, k) ==> k < 2 * Span(a)
    ensures InLive(c, Span(a) + Span(m), k) ==> c != [] && 2 * (Span(a) + Span(m)) <= k
  {
    SpanConcat(a, m);
    InLiveConcat(a + m, c, 0);
    InLiveConcat(a, m, 0);
    InLiveBounds(a, 0);
    InLiveBounds(c, Span(a) + Span(m));
  }

  ghost predicate SameOutside(mem: seq<u32>, mem': seq<u32>, lo: int, hi: int) {
    |mem'| == |mem| && forall k | 0 <= k < |mem| && !(lo <= k < hi) :: mem'[k] == mem[k]
  }

  /** Rewriting the middle of the list: the outer parts keep their words, so only the new
      middle has to be linked; payloads survive if the middle's do. */
  lemma Replace(mem: seq<u32>, mem': seq<u32>, a: seq<Block>, m: seq<Block>, m': seq<Block>, c: seq<Block>, hi: int)
    requires m != [] && m' != [] && Linked(mem, 0, a + m + c, 0) && SameOutside(mem, mem', 2 * Span(a), hi)
    requires c != [] ==> hi == 2 * (Span(a) + Span(m)) && Span(m') == Span(m)
    requires Linked(mem', Span(a), m', TailOf(a, m', c))
    requires forall k | 0 <= k < |mem| && InLive(m, Span(a), k) :: mem'[k] == mem[k]
    ensures Linked(mem', 0, a + m' + c, 0) && LiveKept(a + m + c, mem, mem')
  {
    hide Linked, InLive, Span;
    Parts(mem, a, m, c);
    LinkedFrame(mem, mem', 0, a, Addr(Span(a)));
    if c == [] {
      LinkedEmpty(mem', Span(a) + Span(m'));
    } else {
      LinkedFrame(mem, mem', Span(a) + Span(m), c, 0);
    }
    Parts(mem', a, m', c);
    forall k | 0 <= k < |mem| && InLive(a + m + c, 0, k) ensures mem'[k] == mem[k] {
      LiveParts(a, m, c, k);
    }
  }

  lemma LiveInOne(x: Block, at: nat)
    ensures forall k: int :: InLive([x], at, k) <==> x.used && 2 * (at + 2) <= k < 2 * (at + 2 + x.size)
  {
    assert [x][1..] == [];
  }

  lemma FreeTwoNotLive(x: Block, y: Block, at: nat)
    requires !x.used && !y.used
    ensures forall k: int :: !InLive([x, y], at, k)
  {
    assert [x, y][1..] == [y];
    LiveInOne(y, at + 2 + x.size);
  }

  /** heap_coalesce joining two free neighbours: one header changes, no payload does. */
  lemma JoinStep(mem: seq<u32>, mem': seq<u32>, a: seq<Block>, x: Block, y: Block, c: seq<Block>)
    requires Linked(mem, 0, a + [x, y] + c, 0) && !x.used && !y.used
    requires SameOutside(mem, mem', 2 * Span(a), 2 * (Span(a) + 4 + x.size + y.size))
    requires Header(mem', Span(a), Block(x.size + 2 + y.size, false), if c == [] then 0 else Addr(Span(a) + 4 + x.size + y.size))
    ensures Linked(mem', 0, a + [Block(x.size + 2 + y.size, false)] + c, 0)
    ensures LiveKept(a + [x, y] + c, mem, mem')
  {
    var z, at := Block(x.size + 2 + y.size, false), Span(a);
    hide Linked, InLive, LiveKept, Header, SameOutside;
    LinkedTwo(mem, at, x, y, TailOf(a, [x, y], c));
    LinkedOne(mem', at, z, TailOf(a, [z], c));
    FreeTwoNotLive(x, y, at);
    Replace(mem, mem', a, [x, y], [z], c, 2 * (at + Span([x, y])));
  }

  lemma JoinSameLive(a: seq<Block>, x: Block, y: Block, c: seq<Block>)
    requires !x.used && !y.used
    ensures SameLive(a + [x, y] + c, a + [Block(x.size + 2 + y.size, false)] + c)
  {
    var z, at := Block(x.size + 2 + y.size, false), Span(a);
    hide InLive;
    assert Span([x, y]) == Span([z]) by { LinkedTwo([], at, x, y, 0); LinkedOne([], at, z, 0); }
    FreeTwoNotLive(x, y, at);
    LiveInOne(z, at);
    forall k: int ensures InLive(a + [z] + c, 0, k) <==> InLive(a + [x, y] + c, 0, k) {
      LiveParts(a, [x, y], c, k);
      LiveParts(a, [z], c, k);
    }
  }

  /** heap_alloc splitting a free block. */
  lemma SplitStep(mem: seq<u32>, mem': seq<u32>, a: seq<Block>, x: Block, c: seq<Block>, n: nat)
    requires Linked(mem, 0, a + [x] + c, 0) && !x.used && x.size >= n + 3
    requires SameOutside(mem, mem', 2 * Span(a), 2 * (Span(a) + 2 + x.size))
    requires Header(mem', Span(a), Block(n, true), Addr(Span(a) + 2 + n))
    requires Header(mem', Span(a) + 2 + n, Block(x.size - n - 2, false), if c == [] then 0 else Addr(Span(a) + 2 + x.size))
    ensures Linked(mem', 0, a + Carve(x, n) + c, 0) && LiveKept(a + [x] + c, mem, mem')
  {
    var y, z, at := Block(n, true), Block(x.size - n - 2, false), Span(a);
    hide Linked, InLive, LiveKept, Header, SameOutside;
    LinkedOne(mem, at, x, TailOf(a, [x], c));
    LinkedTwo(mem', at, y, z, TailOf(a, [y, z], c));
    LiveInOne(x, at);
    Replace(mem, mem', a, [x], [y, z], c, 2 * (at + Span([x])));
  }

  /** Changing the flag word of one block. */
  lemma FlagStep(mem: seq<u32>, mem': seq<u32>, a: seq<Block>, x: Block, c: seq<Block>, used: bool)
    requires Linked(mem, 0, a + [x] + c, 0) && 2 * Span(a) + 2 < |mem|
    requires SameOutside(mem, mem', 2 * Span(a) + 2, 2 * Span(a) + 3)
    requires mem'[2 * Span(a) + 2] == if used then HEAP_USED else HEAP_FREE
    ensures Linked(mem', 0, a + [Block(x.size, used)] + c, 0) && LiveKept(a + [x] + c, mem, mem')
  {
    var y := Block(x.size, used);
    hide Linked, InLive, Span, LiveKept;
    Parts(mem, a, [x], c);
    LinkedOne(mem, Span(a), x, TailOf(a, [x], c));
    LinkedOne(mem', Span(a), y, TailOf(a, [y], c));
    LiveInOne(x, Span(a));
    Replace(mem, mem', a, [x], [y], c, 2 * (Span(a) + Span([x])));
  }

  /** heap_grow_one_page on an empty heap. */
  lemma FirstPageHeader(mem: seq<u32>, mem': seq<u32>, page: Block)
    requires |mem| == |mem'| && Header(mem', 0, page, 0)
    ensures Linked(mem', 0, [page], 0) && LiveKept([], mem, mem')
  {
    LinkedOne(mem', 0, page, 0);
  }

  /** heap_grow_one_page behind a last block `x`. */
  lemma AppendStep(mem: seq<u32>, mem': seq<u32>, a: seq<Block>, x: Block, y: Block)
    requires Linked(mem, 0, a + [x], 0) && SameOutside(mem, mem', 2 * Span(a), |mem|)
    requires Header(mem', Span(a), x, Addr(Span(a) + 2 + x.size)) && Header(mem', Span(a) + 2 + x.size, y, 0)
    ensures Linked(mem', 0, a + [x, y], 0)
  {
    hide Linked, Header, Span;
    assert Linked(mem, 0, a, Addr(0 + Span(a))) by { LinkedSplit(mem, 0, a, [x], 0); }
    assert Linked(mem', 0, a, Addr(0 + Span(a))) by { LinkedFrame(mem, mem', 0, a, Addr(0 + Span(a))); }
    assert Linked(mem', Span(a), [x, y], 0) by { LinkedTwo(mem', Span(a), x, y, 0); }
    LinkedSplit(mem', 0, a, [x, y], 0);
  }

  lemma AppendKeepsLive(mem: seq<u32>, mem': seq<u32>, a: seq<Block>, x: Block)
    requires |mem'| == |mem|
    requires forall k | 0 <= k < |mem| && (k < 2 * Span(a) || 2 * (Span(a) + 2) <= k < 2 * (Span(a) + 2 + x.size)) ::
      mem'[k] == mem[k]
    ensures LiveKept(a + [x], mem, mem')
  {
    hide InLive;
    InLiveConcat(a, [x], 0);
    InLiveBounds(a, 0);
    LiveInOne(x, Span(a));
  }

  /** What a scan sees at the header of the block between `a` and `c`. */
  lemma AtBlock(mem: seq<u32>, a: seq<Block>, x: Block, c: seq<Block>)
    requires Linked(mem, 0, a + [x] + c, 0)
    ensures Header(mem, Span(a), x, if c == [] then 0 else Addr(Span(a) + 2 + x.size))
    ensures Span(a + [x] + c) == Span(a) + 2 + x.size + Span(c) && Span(a + [x]) == Span(a) + 2 + x.size
  {
    Parts(mem, a, [x], c);
    LinkedOne(mem, Span(a), x, TailOf(a, [x], c));
    SpanConcat(a + [x], c);
    SpanConcat(a, [x]);
  }

}
