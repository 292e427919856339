/** The words UHCI hardware and driver exchange: tokens, transfer status, polling interval. */
module UhciWords {
  import opened MachineWords

  const ACTIVE: bv32 := 0x0080_0000
  const ERRORS: bv32 := 0x0076_0000

  /** uhci_token; None for the all-ones error value. */
  function Token(pid: bv32, address: bv32, endpoint: bv32, toggle: bv32, length: bv32): Option<bv32> {
    if (pid != 0x69 && pid != 0xE1 && pid != 0x2D) || address > 127 || endpoint > 15 || toggle > 1 || length > 64 then None
    else Some((((pid | (address << 8)) | (endpoint << 15)) | (toggle << 19)) | (((length - 1) & 0x7FF) << 21))
  }

  /** The fields as the controller decodes them; the length field counts from zero with 7FF for none. */
  function TokenLength(t: bv32): bv32 {
    ((t >> 21) + 1) & 0x7FF
  }

  lemma TokenRoundTrip(pid: bv32, address: bv32, endpoint: bv32, toggle: bv32, length: bv32)
    requires Token(pid, address, endpoint, toggle, length).Some?
    ensures
      var t := Token(pid, address, endpoint, toggle, length).value;
      t & 0xFF == pid && (t >> 8) & 0x7F == address && (t >> 15) & 0xF == endpoint && (t >> 19) & 1 == toggle && TokenLength(t) == length
  {
  }

  /** What a transfer descriptor's status says. */
  datatype Transfer = Pending | Done(length: nat) | Failed

  function ActualLength(status: bv32): bv32 {
    ((status & 0x7FF) + 1) & 0x7FF
  }

  /** uhci_completed_length: -2 pending, -1 failed, otherwise the byte count. */
  function CompletedLength(status: bv32, requested: nat): int {
    if status & ACTIVE != 0 then -2
    else if status & ERRORS != 0 then -1
    else if ActualLength(status) as int <= requested then ActualLength(status) as int
    else -1
  }

  function Outcome(status: bv32, requested: nat): Transfer {
    var n := CompletedLength(status, requested);
    if n == -2 then Pending else if n < 0 then Failed else Done(n)
  }

  /** The status hardware leaves after an error-free transfer of `n` bytes, other flag bits arbitrary. */
  function FinishedStatus(n: bv32, flags: bv32): bv32 {
    ((n - 1) & 0x7FF) | (flags & 0xFF01_0000)
  }

  /** Every error-free length up to the request reads back, zero included; longer ones fail. */
  lemma FinishedReadsBack(n: bv32, flags: bv32, requested: nat)
    requires n <= 0x400
    ensures Outcome(FinishedStatus(n, flags), requested) == if n as int <= requested then Done(n as int) else Failed
  {
    FinishedWord(n, flags);
  }

  lemma FinishedWord(n: bv32, flags: bv32)
    requires n <= 0x400
    ensures FinishedStatus(n, flags) & ACTIVE == 0 && FinishedStatus(n, flags) & ERRORS == 0 && ActualLength(FinishedStatus(n, flags)) == n
  {
  }

  predicate BitSet(status: bv32, bit: nat)
    requires bit < 32
  {
    (status >> bit) & 1 == 1
  }

  /** The status field of section 3.2.2 of the UHCI design guide: a descriptor is pending exactly while
      its active bit is set; of the rest, a stall, a data buffer error, babble, a CRC error or timeout
      and a bit stuffing error fail the transfer, a NAK (bit 19) and the bits below do not. */
  lemma StatusMeans(status: bv32, requested: nat)
    ensures Outcome(status, requested) == Pending <==> BitSet(status, 23)
    ensures !BitSet(status, 23) && (BitSet(status, 22) || BitSet(status, 21) || BitSet(status, 20) || BitSet(status, 18) || BitSet(status, 17)) ==>
      Outcome(status, requested) == Failed
    ensures !BitSet(status, 23) && !BitSet(status, 22) && !BitSet(status, 21) && !BitSet(status, 20) && !BitSet(status, 18) && !BitSet(status, 17) ==>
      Outcome(status, requested) == if ActualLength(status) as int <= requested then Done(ActualLength(status) as int) else Failed
  {
    StatusBits(status);
    hide BitSet, ActualLength;
  }

  lemma StatusBits(status: bv32)
    ensures BitSet(status, 23) <==> status & ACTIVE != 0
    ensures BitSet(status, 22) || BitSet(status, 21) || BitSet(status, 20) || BitSet(status, 18) || BitSet(status, 17) <==> status & ERRORS != 0
  {
  }

  predicate PowerOfTwo(n: nat) {
    n == 1 || (n > 1 && n % 2 == 0 && PowerOfTwo(n / 2))
  }

  /** uhci_interval: the largest power of two not above the request. */
  method Interval(ms: nat) returns (r: nat)
    ensures ms == 0 || ms > 255 ==> r == 0
    ensures 0 < ms <= 255 ==> PowerOfTwo(r) && r <= ms < 2 * r
  {
    if ms == 0 || ms > 255 {
      return 0;
    }
    r := 1;
    while r * 2 <= ms
      invariant 1 <= r <= ms && PowerOfTwo(r)
    {
      r := r * 2;
    }
  }
}
