/** Bitmap allocators handing out the lowest clear index: GDT entries and process slots. */
module IndexPools {

  /** The first clear bit at or after `from`, or the length. */
  function FirstClear(bits: seq<bool>, from: nat): (i: nat)
    requires from <= |bits|
    ensures from <= i <= |bits| && (i < |bits| ==> !bits[i])
    ensures forall j | from <= j < i :: bits[j]
    decreases |bits| - from
  {
    if from == |bits| || !bits[from] then from else FirstClear(bits, from + 1)
  }

  /** The search fails exactly when nothing is clear, and finds the lowest clear index otherwise. */
  lemma FirstClearMeans(bits: seq<bool>, from: nat)
    requires from <= |bits|
    ensures
      var i := FirstClear(bits, from);
      if exists j :: from <= j < |bits| && !bits[j] then i < |bits| && !bits[i] && forall j | from <= j < i :: bits[j] else i == |bits|
  {
  }

  class IndexPool {
    const used: array<bool>
    const first: nat        // lower indices are never handed out

    ghost predicate Valid() {
      first <= used.Length
    }

    constructor (first: nat, count: nat)
      requires first <= count
      ensures Valid() && fresh(used) && this.first == first && used.Length == count
      ensures forall i | 0 <= i < count :: used[i] == (i < first)
    {
      this.first := first;
      used := new bool[count](i => i < first);
    }

    /** gdt_alloc_selector and process_slot_alloc: the lowest clear index, or used.Length. */
    method Take() returns (index: nat)
      requires Valid()
      modifies used
      ensures index == FirstClear(old(used[..]), first)
      ensures used[..] == if index < used.Length then old(used[..])[index := true] else old(used[..])
    {
      index := first;
      while index < used.Length && used[index]
        invariant first <= index <= used.Length
        invariant FirstClear(used[..], first) == FirstClear(used[..], index)
      {
        index := index + 1;
      }
      if index < used.Length {
        used[index] := true;
        assert used[..] == old(used[..])[index := true];
      }
    }

    /** gdt_free_selector and process_slot_free: indices out of range are ignored. */
    method Give(index: nat)
      requires Valid()
      modifies used
      ensures used[..] == if first <= index < used.Length then old(used[..])[index := false] else old(used[..])
    {
      if first <= index < used.Length {
        used[index] := false;
        assert used[..] == old(used[..])[index := false];
      }
    }
  }
}
