/** The occupied part of a ring buffer, from `tail` up to `head`. */
module Rings {

  function Next(i: nat, n: nat): (r: nat)
    requires i < n
    ensures r < n
  {
    if i + 1 == n then 0 else i + 1
  }

  function Distance(tail: nat, head: nat, n: nat): (d: nat)
    requires tail < n && head < n
    ensures d < n
  {
    if tail <= head then head - tail else head + n - tail
  }

  function Segment<T>(buffer: seq<T>, tail: nat, head: nat): (r: seq<T>)
    requires tail < |buffer| && head < |buffer|
    ensures |r| == Distance(tail, head, |buffer|)
    decreases Distance(tail, head, |buffer|)
  {
    if tail == head then [] else [buffer[tail]] + Segment(buffer, Next(tail, |buffer|), head)
  }

  /** Storing at the head and advancing it appends, unless the ring is full. */
  lemma {:induction false} SegmentExtended<T>(buffer: seq<T>, tail: nat, head: nat, x: T)
    requires tail < |buffer| && head < |buffer| && Next(head, |buffer|) != tail
    ensures Segment(buffer[head := x], tail, Next(head, |buffer|)) == Segment(buffer, tail, head) + [x]
    decreases Distance(tail, head, |buffer|)
  {
    if tail == head {
      var next := Next(head, |buffer|);
      assert Segment(buffer[head := x], next, next) == [];
    } else {
      SegmentExtended(buffer, Next(tail, |buffer|), head, x);
    }
  }

  /** The cell `k` places after `tail`. */
  function At(tail: nat, k: nat, n: nat): (r: nat)
    requires tail < n && k < n
    ensures r < n
  {
    if tail + k < n then tail + k else tail + k - n
  }

  lemma {:induction false} SegmentAt<T>(buffer: seq<T>, tail: nat, head: nat, k: nat)
    requires tail < |buffer| && head < |buffer| && k < Distance(tail, head, |buffer|)
    ensures Segment(buffer, tail, head)[k] == buffer[At(tail, k, |buffer|)]
    decreases k
  {
    if k > 0 { SegmentAt(buffer, Next(tail, |buffer|), head, k - 1); }
  }
}
