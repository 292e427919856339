/** Segment and system descriptors (section 3.4.5 of Intel SDM volume 3A): the kernel's writers
    against the decodings of the processor and of the exception handler, and the randomized LDT
    index allocator. */
module SegmentDescriptors {
  import opened MachineWords

  datatype Descriptor = Descriptor(low: bv32, high: bv32)

  const FLAG_32BIT: bv32 := 0x40
  const FLAG_GRAN_4K: bv32 := 0x80

  /** The packing shared by every writer; `flags` is DESC_FLAG bits, 0 for LDT and TSS. */
  function Pack(base: bv32, limit: bv32, access: bv32, flags: bv32): Descriptor {
    Descriptor((base << 16) | (limit & 0xFFFF),
      (((((base >> 16) & 0xFF) | (access << 8)) | (((limit >> 16) & 0xF) << 16)) | ((flags & 0xF0) << 16)) | (base & 0xFF00_0000))
  }

  /** gdt_write_segment_descriptor and ldt_write_segment_descriptor. */
  function Segment(base: bv32, limit: bv32, access: bv32): Descriptor {
    if limit <= 0xF_FFFF then Pack(base, limit, access, FLAG_32BIT)
    else Pack(base, limit >> 12, access, FLAG_32BIT | FLAG_GRAN_4K)
  }

  /** build_system_descriptor. */
  function System(base: bv32, limit: bv32, access: bv32): Descriptor {
    Pack(base, limit, access, 0)
  }

  // ---- Decoding ----

  /** The base as exception_terminate_current reads it: word 2, byte 4, byte 7. */
  function Base(d: Descriptor): bv32 {
    ((d.low >> 16) | ((d.high & 0xFF) << 16)) | ((d.high >> 24) << 24)
  }

  function RawLimit(d: Descriptor): bv32 {
    (d.low & 0xFFFF) | (d.high & 0xF_0000)
  }

  /** The inclusive byte limit the processor enforces. */
  function EffectiveLimit(d: Descriptor): bv32 {
    if d.high & 0x80_0000 != 0 then (RawLimit(d) << 12) | 0xFFF else RawLimit(d)
  }

  function Access(d: Descriptor): bv32 {
    (d.high >> 8) & 0xFF
  }

  lemma PackBase(base: bv32, limit: bv32, access: bv32, flags: bv32)
    requires access & 0xFF == access
    ensures Base(Pack(base, limit, access, flags)) == base
  {
  }

  lemma PackLimit(base: bv32, limit: bv32, access: bv32, flags: bv32)
    requires access & 0xFF == access
    ensures RawLimit(Pack(base, limit, access, flags)) == limit & 0xF_FFFF
  {
  }

  lemma PackAccess(base: bv32, limit: bv32, access: bv32, flags: bv32)
    requires access & 0xFF == access
    ensures Access(Pack(base, limit, access, flags)) == access
  {
  }

  lemma PackGranularity(base: bv32, limit: bv32, access: bv32, flags: bv32)
    requires access & 0xFF == access
    ensures Pack(base, limit, access, flags).high & 0x80_0000 == (flags & 0x80) << 16
  {
  }

  lemma SmallLimit(limit: bv32) requires limit <= 0xF_FFFF ensures limit & 0xF_FFFF == limit {}
  lemma PagedLimit(limit: bv32) ensures (((limit >> 12) & 0xF_FFFF) << 12) | 0xFFF == limit | 0xFFF {}
  lemma Flags() ensures (FLAG_32BIT & 0x80) << 16 == 0 && ((FLAG_32BIT | FLAG_GRAN_4K) & 0x80) << 16 == 0x80_0000 {}

  /** For every base, limit and access byte: base and access read back exactly; the limit is
      exact up to 0xFFFFF and rounded up to the end of its page above. */
  lemma SegmentRoundTrip(base: bv32, limit: bv32, access: bv32)
    requires access & 0xFF == access
    ensures
      var d := Segment(base, limit, access);
      Base(d) == base && Access(d) == access && EffectiveLimit(d) == if limit <= 0xF_FFFF then limit else limit | 0xFFF
  {
    hide Pack, Base, RawLimit, Access;
    Flags();
    if limit <= 0xF_FFFF {
      PackBase(base, limit, access, FLAG_32BIT);
      PackLimit(base, limit, access, FLAG_32BIT);
      PackAccess(base, limit, access, FLAG_32BIT);
      PackGranularity(base, limit, access, FLAG_32BIT);
      SmallLimit(limit);
    } else {
      PackBase(base, limit >> 12, access, FLAG_32BIT | FLAG_GRAN_4K);
      PackLimit(base, limit >> 12, access, FLAG_32BIT | FLAG_GRAN_4K);
      PackAccess(base, limit >> 12, access, FLAG_32BIT | FLAG_GRAN_4K);
      PackGranularity(base, limit >> 12, access, FLAG_32BIT | FLAG_GRAN_4K);
      PagedLimit(limit);
    }
  }

  /** System descriptors have byte granularity: the base is exact, the limit exactly when it
      fits twenty bits. */
  lemma SystemRoundTrip(base: bv32, limit: bv32, access: bv32)
    requires access & 0xFF == access
    ensures
      var d := System(base, limit, access);
      Base(d) == base && Access(d) == access && (EffectiveLimit(d) == limit <==> limit <= 0xF_FFFF)
  {
    hide Pack, Base, RawLimit, Access;
    PackBase(base, limit, access, 0);
    PackLimit(base, limit, access, 0);
    PackAccess(base, limit, access, 0);
    PackGranularity(base, limit, access, 0);
    if limit <= 0xF_FFFF { SmallLimit(limit); } else { LargeLimit(limit); }
  }

  lemma LargeLimit(limit: bv32) requires limit > 0xF_FFFF ensures limit & 0xF_FFFF != limit {}

  // ---- A descriptor table in memory ----

  /** Where a selector's descriptor sits: selector and 0FFF8h, in dwords. */
  function Slot(selector: u16): nat {
    selector / 8 * 2
  }

  /** gdt_write_raw_descriptor and ldt_write_raw_descriptor. */
  method WriteRaw(table: array<bv32>, selector: u16, d: Descriptor)
    requires Slot(selector) + 1 < table.Length
    modifies table
    ensures table[..] == old(table[..])[Slot(selector) := d.low][Slot(selector) + 1 := d.high]
  {
    table[Slot(selector)] := d.low;
    table[Slot(selector) + 1] := d.high;
  }

  function Entry(table: seq<bv32>, selector: u16): Descriptor
    requires Slot(selector) + 1 < |table|
  {
    Descriptor(table[Slot(selector)], table[Slot(selector) + 1])
  }

  /** Writing one descriptor leaves every other selector's descriptor alone. */
  lemma OthersKeepTheirs(table: seq<bv32>, selector: u16, d: Descriptor, other: u16)
    requires Slot(selector) + 1 < |table| && Slot(other) + 1 < |table|
    ensures
      var table' := table[Slot(selector) := d.low][Slot(selector) + 1 := d.high];
      Entry(table', other) == if other / 8 == selector / 8 then d else Entry(table, other)
  {
  }

  // ---- ldt_alloc_selector ----

  /** The first clear index at or after `from` in the cycle 1..n-1, trying `left` of them; n if none. */
  function CyclicClear(bits: seq<bool>, from: nat, left: nat): (i: nat)
    requires 1 <= from <= |bits| && |bits| >= 2
    ensures i == |bits| || (1 <= i < |bits| && !bits[i])
    decreases left
  {
    if left == 0 then |bits|
    else
      var at := if from < |bits| then from else 1;
      if !bits[at] then at else CyclicClear(bits, at + 1, left - 1)
  }

  /** `left` tries from `from` cover `from..n-1`, then start over at 1. */
  lemma {:induction false} CyclicMisses(bits: seq<bool>, from: nat, left: nat, j: nat)
    requires 1 <= from <= |bits| && 1 <= j < |bits| && CyclicClear(bits, from, left) == |bits|
    requires if j >= from then j < from + left else |bits| - from + j <= left
    ensures bits[j]
    decreases left
  {
    var at := if from < |bits| then from else 1;
    if at != j { CyclicMisses(bits, at + 1, left - 1, j); }
  }

  /** Whatever the time stamp, the allocator finds an index exactly when one in 1..n-1 is clear. */
  lemma AllocatesIffAnyClear(bits: seq<bool>, tsc: u32)
    requires |bits| >= 2
    ensures CyclicClear(bits, tsc % (|bits| - 1) + 1, |bits|) == |bits| <==> forall j | 1 <= j < |bits| :: bits[j]
  {
    var start := tsc % (|bits| - 1) + 1;
    if CyclicClear(bits, start, |bits|) == |bits| {
      forall j | 1 <= j < |bits| ensures bits[j] { CyclicMisses(bits, start, |bits|, j); }
    }
  }

  /** `i` is the first clear index in the cycle 1..n-1 that begins at `start`. */
  ghost predicate FirstInCycle(bits: seq<bool>, start: nat, i: nat) {
    1 <= i < |bits| && !bits[i] &&
    if start <= i then forall j | start <= j < i :: bits[j]
    else (forall j | start <= j < |bits| :: bits[j]) && forall j | 1 <= j < i :: bits[j]
  }

  lemma {:induction false} CyclicFirst(bits: seq<bool>, from: nat, left: nat)
    requires 1 <= from <= |bits| && |bits| >= 2
    ensures
      var i := CyclicClear(bits, from, left);
      i < |bits| ==>
        if from <= i then forall j | from <= j < i :: bits[j]
        else (forall j | from <= j < |bits| :: bits[j]) && forall j | 1 <= j < i :: bits[j]
    decreases left
  {
    if left > 0 {
      var at := if from < |bits| then from else 1;
      if bits[at] { CyclicFirst(bits, at + 1, left - 1); }
    }
  }

  /** ldt_alloc_selector; `tsc` is the low half of the time stamp counter. */
  method LdtAlloc(bitmap: array<bool>, tsc: u32) returns (selector: nat)
    requires bitmap.Length <= 0x2000
    modifies bitmap
    ensures selector == 0 <==> bitmap.Length < 2 || forall j | 1 <= j < bitmap.Length :: old(bitmap[j])
    ensures selector == 0 ==> bitmap[..] == old(bitmap[..])
    ensures selector != 0 ==>
      var i := selector / 8;
      selector == 8 * i + 7 && 1 <= i < bitmap.Length && !old(bitmap[i]) && bitmap[..] == old(bitmap[..])[i := true] &&
      FirstInCycle(old(bitmap[..]), tsc % (bitmap.Length - 1) + 1, i)
  {
    var n := bitmap.Length;
    if n < 2 {
      return 0;
    }
    AllocatesIffAnyClear(bitmap[..], tsc);
    var esi, ebx := tsc % (n - 1) + 1, n;
    CyclicFirst(bitmap[..], esi, n);
    ghost var found := CyclicClear(bitmap[..], esi, n);
    while ebx != 0
      invariant 0 <= ebx <= n && 1 <= esi <= n
      invariant bitmap[..] == old(bitmap[..]) && found == CyclicClear(bitmap[..], esi, ebx)
    {
      if esi >= n {
        esi := 1;
      }
      if !bitmap[esi] {
        bitmap[esi] := true;
        assert bitmap[..] == old(bitmap[..])[esi := true];
        return 8 * esi + 7;
      }
      esi := esi + 1;
      ebx := ebx - 1;
    }
    return 0;
  }
}
