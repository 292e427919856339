/** The CRC-32 that gates booting: the byte-wise loop equals a bit-serial register, the register
    is linear and reversible, and so corruption within 32 consecutive bits is always detected. */
module Crc32 {
  import opened RegisterWords

  /** One shift of the register. */
  function Step(c: Reg): Reg {
    if Odd(c) then Xor(Half(c), POLYNOMIAL) else Half(c)
  }

  function StepBack(c: Reg): Reg {
    if Top(c) then Xor(Bit(true), Up(Xor(c, POLYNOMIAL))) else Xor(Bit(false), Up(c))
  }

  /** The bit-serial reference: each message bit enters the low end, then the register shifts. */
  function Register(c: Reg, bits: seq<bool>): Reg
    decreases |bits|
  {
    if bits == [] then c else Register(Step(Xor(c, Bit(bits[0]))), bits[1..])
  }

  /** The low `n` bits, least significant first. */
  function LowBits(x: Reg, n: nat): (r: seq<bool>)
    ensures |r| == n
    decreases n
  {
    if n == 0 then [] else [Odd(x)] + LowBits(Half(x), n - 1)
  }

  function Byte(b: bv8): Reg { Reg(b as bv32) }

  /** The bits of a message, each byte least significant bit first. */
  function Bits(data: seq<bv8>): (r: seq<bool>)
    ensures |r| == 8 * |data|
  {
    if data == [] then [] else LowBits(Byte(data[0]), 8) + Bits(data[1..])
  }

  /** IEEE 802.3 CRC-32, bit by bit. */
  function Crc(data: seq<bv8>): bv32 {
    !Register(ALL_ONES, Bits(data)).v
  }

  function StepTimes(c: Reg, n: nat): Reg
    decreases n
  {
    if n == 0 then c else StepTimes(Step(c), n - 1)
  }

  // ---- The step ----

  lemma StepIsBijective(c: Reg)
    ensures StepBack(Step(c)) == c && Step(StepBack(c)) == c
  {
    hide Xor, Half, Up, Bit, Odd, Top;
    Constants();
    Shifting(c, false);
    XorParts(Half(c), POLYNOMIAL);
    XorLaws(Half(c), POLYNOMIAL, ZERO);
    XorParts(c, POLYNOMIAL);
    XorLaws(c, POLYNOMIAL, ZERO);
    Shifting(Xor(c, POLYNOMIAL), true);
  }

  lemma StepIsLinear(x: Reg, y: Reg)
    ensures Step(Xor(x, y)) == Xor(Step(x), Step(y))
  {
    hide Xor, Half, Odd;
    var a, b, p := Half(x), Half(y), POLYNOMIAL;
    XorParts(x, y);
    Regroup(a, b, p, p);
    Regroup(a, b, p, ZERO);
    Regroup(a, b, ZERO, p);
    XorLaws(p, ZERO, ZERO);
    XorLaws(ZERO, p, ZERO);
    XorLaws(Xor(a, b), p, p);
    XorLaws(a, b, p);
    XorLaws(b, p, p);
  }

  lemma StepZero(c: Reg)
    ensures Step(c) == ZERO <==> c == ZERO
  {
    hide Xor, Half, Up, Bit, Odd, Top;
    Constants();
    XorLaws(ZERO, ZERO, ZERO);
    StepIsBijective(c);
  }

  lemma {:induction false} StepsKeepNonZero(c: Reg, n: nat)
    ensures StepTimes(c, n) == ZERO <==> c == ZERO
    decreases n
  {
    hide Step;
    if n > 0 {
      StepZero(c);
      StepsKeepNonZero(Step(c), n - 1);
    }
  }

  /** A bit still to come can be injected now, one position higher. */
  lemma InjectEarly(c: Reg, b: bool, y: Reg)
    requires !Top(y)
    ensures Step(Xor(c, Xor(Bit(b), Up(y)))) == Xor(Step(Xor(c, Bit(b))), y)
  {
    XorLaws(c, Bit(b), Up(y));
    StepIsLinear(Xor(c, Bit(b)), Up(y));
    Shifting(y, b);
    hide Xor, Half, Up, Bit, Odd, Top;
  }

  // ---- Linearity ----

  function XorBits(a: seq<bool>, b: seq<bool>): (r: seq<bool>)
    requires |a| == |b|
    ensures |r| == |a|
  {
    seq(|a|, i requires 0 <= i < |a| => a[i] != b[i])
  }

  lemma BitXor(a: bool, b: bool)
    ensures Bit(a != b) == Xor(Bit(a), Bit(b))
  {
  }

  lemma {:induction false} RegisterIsLinear(c: Reg, d: Reg, a: seq<bool>, b: seq<bool>)
    requires |a| == |b|
    ensures Register(Xor(c, d), XorBits(a, b)) == Xor(Register(c, a), Register(d, b))
    decreases |a|
  {
    hide Step, Bit, Xor;
    if a != [] {
      var x := XorBits(a, b);
      assert x[1..] == XorBits(a[1..], b[1..]);
      BitXor(a[0], b[0]);
      Regroup(c, d, Bit(a[0]), Bit(b[0]));
      StepIsLinear(Xor(c, Bit(a[0])), Xor(d, Bit(b[0])));
      RegisterIsLinear(Step(Xor(c, Bit(a[0]))), Step(Xor(d, Bit(b[0]))), a[1..], b[1..]);
    }
  }

  function XorBytes(a: seq<bv8>, b: seq<bv8>): (r: seq<bv8>)
    requires |a| == |b|
    ensures |r| == |a|
  {
    seq(|a|, i requires 0 <= i < |a| => a[i] ^ b[i])
  }

  lemma WidenXor(x: bv8, y: bv8)
    ensures Byte(x ^ y) == Xor(Byte(x), Byte(y))
  {
  }

  lemma {:induction false} LowBitsOfXor(x: Reg, y: Reg, n: nat)
    ensures LowBits(Xor(x, y), n) == XorBits(LowBits(x, n), LowBits(y, n))
    decreases n
  {
    hide Odd, Half, Xor;
    if n > 0 {
      XorParts(x, y);
      LowBitsOfXor(Half(x), Half(y), n - 1);
      XorConcat([Odd(x)], LowBits(Half(x), n - 1), [Odd(y)], LowBits(Half(y), n - 1));
    }
  }

  lemma XorConcat(a: seq<bool>, b: seq<bool>, c: seq<bool>, d: seq<bool>)
    requires |a| == |c| && |b| == |d|
    ensures XorBits(a + b, c + d) == XorBits(a, c) + XorBits(b, d)
  {
  }

  lemma {:induction false} BitsOfXor(a: seq<bv8>, b: seq<bv8>)
    requires |a| == |b|
    ensures Bits(XorBytes(a, b)) == XorBits(Bits(a), Bits(b))
  {
    hide LowBits, Byte, Xor;
    if a != [] {
      assert XorBytes(a, b)[1..] == XorBytes(a[1..], b[1..]);
      BitsOfXor(a[1..], b[1..]);
      WidenXor(a[0], b[0]);
      LowBitsOfXor(Byte(a[0]), Byte(b[0]), 8);
      XorConcat(LowBits(Byte(a[0]), 8), Bits(a[1..]), LowBits(Byte(b[0]), 8), Bits(b[1..]));
    }
  }

  /** Affine linearity over messages of equal length. */
  lemma CrcIsAffine(a: seq<bv8>, b: seq<bv8>, c: seq<bv8>)
    requires |a| == |b| == |c|
    ensures Crc(XorBytes(XorBytes(a, b), c)) == (Crc(a) ^ Crc(b)) ^ Crc(c)
  {
    var ab := XorBytes(a, b);
    BitsOfXor(a, b);
    BitsOfXor(ab, c);
    RegisterIsLinear(ALL_ONES, ALL_ONES, Bits(a), Bits(b));
    XorLaws(ALL_ONES, ALL_ONES, ALL_ONES);
    RegisterIsLinear(ZERO, ALL_ONES, Bits(ab), Bits(c));
    Complements(Register(ALL_ONES, Bits(a)), Register(ALL_ONES, Bits(b)), Register(ALL_ONES, Bits(c)));
    hide Xor, Bits, Register;
  }

  lemma Complements(x: Reg, y: Reg, z: Reg)
    ensures !Xor(Xor(x, y), z).v == (!x.v ^ !y.v) ^ !z.v
  {
  }

  // ---- Folding up to 32 bits into one word ----

  function Word(w: seq<bool>): Reg
    decreases |w|
  {
    if w == [] then ZERO else Xor(Bit(w[0]), Up(Word(w[1..])))
  }

  /** The bits of `x` are among those of `m`. */
  ghost predicate Within(x: Reg, m: Reg) {
    x.v & !m.v == 0
  }

  function Ones(k: nat): Reg {
    if k == 0 then ZERO else Xor(Bit(true), Up(Ones(k - 1)))
  }

  /** Only the low `k` bits may be set. */
  ghost predicate Fits(x: Reg, k: nat) {
    Within(x, Ones(k))
  }

  lemma FitsUp(x: Reg, k: nat, b: bool)
    requires Fits(x, k)
    ensures Fits(Xor(Bit(b), Up(x)), k + 1)
  {
    hide Within, Xor, Up, Bit;
    WithinUp(x, Ones(k), b);
  }

  lemma WithinUp(x: Reg, m: Reg, b: bool)
    requires Within(x, m)
    ensures Within(Xor(Bit(b), Up(x)), Xor(Bit(true), Up(m)))
  {
  }

  lemma {:induction false} OnesFit(k: nat)
    ensures Fits(Ones(k), k + 1)
  {
    hide Fits, Xor, Up, Bit;
    if k == 0 {
      NothingFits(1);
    } else {
      OnesFit(k - 1);
      FitsUp(Ones(k - 1), k, true);
    }
  }

  lemma NothingFits(k: nat)
    ensures Fits(ZERO, k)
  {
  }

  lemma FitsBelow(x: Reg, k: nat)
    requires Fits(x, k) && Fits(Ones(k), k + 1)
    ensures Fits(x, k + 1)
  {
    hide Within, Ones;
    WithinTransitive(x, Ones(k), Ones(k + 1));
  }

  lemma WithinTransitive(x: Reg, m: Reg, n: Reg)
    requires Within(x, m) && Within(m, n)
    ensures Within(x, n)
  {
  }

  lemma {:induction false} TopIsClear(x: Reg, k: nat)
    requires k <= 31 && Fits(x, k)
    ensures !Top(x)
    decreases 31 - k
  {
    if k == 31 {
      MaskThirtyOne();
      MaskedTop(x.v);
    } else {
      hide Fits;
      OnesFit(k);
      FitsBelow(x, k);
      TopIsClear(x, k + 1);
    }
  }

  lemma MaskedTop(x: bv32)
    requires x & !0x7FFF_FFFF == 0
    ensures x & 0x8000_0000 != 0x8000_0000
  {
  }

  lemma MaskThirtyOne()
    ensures Ones(31).v == 0x7FFF_FFFF
  {
    assert Ones(4).v == 0xF;
    assert Ones(8).v == 0xFF;
    assert Ones(12).v == 0xFFF;
    assert Ones(16).v == 0xFFFF;
    assert Ones(20).v == 0xF_FFFF;
    assert Ones(24).v == 0xFF_FFFF;
    assert Ones(28).v == 0xFFF_FFFF;
  }

  lemma {:induction false} WordFits(w: seq<bool>)
    ensures Fits(Word(w), |w|)
    ensures |w| <= 31 ==> !Top(Word(w))
    decreases |w|
  {
    hide Fits, Xor, Up, Bit, Top;
    if w == [] {
      NothingFits(0);
    } else {
      WordFits(w[1..]);
      FitsUp(Word(w[1..]), |w| - 1, w[0]);
    }
    if |w| <= 31 { TopIsClear(Word(w), |w|); }
  }

  lemma {:induction false} FoldWord(c: Reg, w: seq<bool>)
    requires |w| <= 32
    ensures Register(c, w) == StepTimes(Xor(c, Word(w)), |w|)
    decreases |w|
  {
    hide Step, Xor, Up, Bit, Top;
    if w == [] {
      XorLaws(c, ZERO, ZERO);
    } else {
      var rest := w[1..];
      WordFits(rest);
      InjectEarly(c, w[0], Word(rest));
      FoldWord(Step(Xor(c, Bit(w[0]))), rest);
    }
  }

  lemma {:induction false} WordZero(w: seq<bool>)
    requires |w| <= 32 && Word(w) == ZERO
    ensures forall i | 0 <= i < |w| :: !w[i]
    decreases |w|
  {
    hide Xor, Up, Bit, Top, Odd, Half;
    if w != [] {
      WordFits(w[1..]);
      Shifting(Word(w[1..]), w[0]);
      Constants();
      WordZero(w[1..]);
    }
  }

  // ---- Detection ----

  lemma {:induction false} RegisterConcat(c: Reg, a: seq<bool>, b: seq<bool>)
    ensures Register(c, a + b) == Register(Register(c, a), b)
    decreases |a|
  {
    hide Step, Bit, Xor;
    if a == [] {
      assert a + b == b;
    } else {
      assert (a + b)[1..] == a[1..] + b;
      RegisterConcat(Step(Xor(c, Bit(a[0]))), a[1..], b);
    }
  }

  lemma {:induction false} ZeroBits(c: Reg, z: seq<bool>)
    requires forall i | 0 <= i < |z| :: !z[i]
    ensures Register(c, z) == StepTimes(c, |z|)
    decreases |z|
  {
    hide Step, Bit, Xor;
    if z != [] {
      Constants();
      XorLaws(c, ZERO, ZERO);
      ZeroBits(Step(c), z[1..]);
    }
  }

  lemma SetBitCounts(w: seq<bool>, i: nat)
    requires i < |w| <= 32 && w[i]
    ensures Word(w) != ZERO
  {
    hide Word;
    if Word(w) == ZERO { WordZero(w); }
  }

  /** An error pattern confined to 32 consecutive bits never cancels out. */
  lemma BurstSurvives(e: seq<bool>, k: nat, i: nat)
    requires k <= i < |e| && i < k + 32 && e[i]
    requires forall j | 0 <= j < |e| && !(k <= j < k + 32) :: !e[j]
    ensures Register(ZERO, e) != ZERO
  {
    hide Register, StepTimes, Word, Step, Xor;
    var end := if k + 32 <= |e| then k + 32 else |e|;
    var before, burst, after := e[..k], e[k..end], e[end..];
    assert e == (before + burst) + after;
    RegisterConcat(ZERO, before + burst, after);
    RegisterConcat(ZERO, before, burst);
    ZeroBits(ZERO, before);
    StepsKeepNonZero(ZERO, k);
    FoldWord(ZERO, burst);
    SetBitCounts(burst, i - k);
    XorLaws(Word(burst), ZERO, ZERO);
    StepsKeepNonZero(Word(burst), |burst|);
    ZeroBits(Register(ZERO, before + burst), after);
    StepsKeepNonZero(Register(ZERO, before + burst), |after|);
  }

  /** Nothing is left above the low `n` bits. */
  predicate Spent(x: Reg, n: nat)
    decreases n
  {
    if n == 0 then x == ZERO else Spent(Half(x), n - 1)
  }

  lemma ByteIsSpent(b: bv8)
    ensures Spent(Byte(b), 8)
  {
    var x := b as bv32;
    EightShifts(x);
    assert Spent(Reg(x >> 1 >> 1 >> 1 >> 1 >> 1 >> 1 >> 1 >> 1), 0);
    assert Spent(Reg(x >> 1 >> 1 >> 1 >> 1 >> 1 >> 1 >> 1), 1);
    assert Spent(Reg(x >> 1 >> 1 >> 1 >> 1 >> 1 >> 1), 2);
    assert Spent(Reg(x >> 1 >> 1 >> 1 >> 1 >> 1), 3);
    assert Spent(Reg(x >> 1 >> 1 >> 1 >> 1), 4);
    assert Spent(Reg(x >> 1 >> 1 >> 1), 5);
    assert Spent(Reg(x >> 1 >> 1), 6);
    assert Spent(Reg(x >> 1), 7);
  }

  lemma EightShifts(x: bv32)
    requires x <= 0xFF
    ensures x >> 1 >> 1 >> 1 >> 1 >> 1 >> 1 >> 1 >> 1 == 0
  {
  }

  lemma {:induction false} SameLowBits(x: Reg, y: Reg, n: nat)
    requires LowBits(x, n) == LowBits(y, n) && Spent(x, n) && Spent(y, n)
    ensures x == y
    decreases n
  {
    hide Odd, Half, Xor, Up, Bit;
    if n > 0 {
      var a, b := LowBits(x, n), LowBits(y, n);
      assert a[0] == b[0] && a[1..] == LowBits(Half(x), n - 1) && b[1..] == LowBits(Half(y), n - 1);
      SameLowBits(Half(x), Half(y), n - 1);
      Shifting(x, false);
      Shifting(y, false);
    }
  }

  lemma Narrow(x: bv8, y: bv8)
    requires Byte(x) == Byte(y)
    ensures x == y
  {
  }

  lemma {:induction false} SameBitsSameBytes(a: seq<bv8>, b: seq<bv8>)
    requires |a| == |b| && Bits(a) == Bits(b)
    ensures a == b
  {
    hide LowBits, Spent, Byte;
    if a != [] {
      assert LowBits(Byte(a[0]), 8) == Bits(a)[..8] == Bits(b)[..8] == LowBits(Byte(b[0]), 8);
      ByteIsSpent(a[0]);
      ByteIsSpent(b[0]);
      SameLowBits(Byte(a[0]), Byte(b[0]), 8);
      Narrow(a[0], b[0]);
      assert Bits(a[1..]) == Bits(a)[8..] == Bits(b)[8..] == Bits(b[1..]);
      SameBitsSameBytes(a[1..], b[1..]);
    }
  }

  /** Two messages that differ do so in some bit. */
  lemma SomeBitDiffers(a: seq<bv8>, b: seq<bv8>) returns (i: nat)
    requires |a| == |b| && a != b
    ensures i < 8 * |a| && Bits(a)[i] != Bits(b)[i]
  {
    hide Bits;
    if Bits(a) == Bits(b) { SameBitsSameBytes(a, b); }
    i :| 0 <= i < 8 * |a| && Bits(a)[i] != Bits(b)[i];
  }

  /** A copy corrupted only inside some window of 32 consecutive bits has another checksum,
      whatever the length of the message. */
  lemma BurstIsDetected(a: seq<bv8>, b: seq<bv8>, k: nat)
    requires |a| == |b| && a != b
    requires forall i | 0 <= i < 8 * |a| && !(k <= i < k + 32) :: Bits(a)[i] == Bits(b)[i]
    ensures Crc(a) != Crc(b)
  {
    hide Bits, Register, Xor;
    var i := SomeBitDiffers(a, b);
    BurstSurvives(XorBits(Bits(a), Bits(b)), k, i);
    RegisterIsLinear(ALL_ONES, ALL_ONES, Bits(a), Bits(b));
    XorLaws(ALL_ONES, ZERO, ZERO);
    Differ(Register(ALL_ONES, Bits(a)), Register(ALL_ONES, Bits(b)));
  }

  lemma Differ(x: Reg, y: Reg)
    requires Xor(x, y) != ZERO
    ensures !x.v != !y.v
  {
  }

  // ---- The loop ----

  /** Shifting `n` times after xoring a word in is `n` serial steps over its bits. */
  lemma {:induction false} FoldLow(c: Reg, x: Reg, n: nat)
    requires Spent(x, n)
    ensures Register(c, LowBits(x, n)) == StepTimes(Xor(c, x), n)
    decreases n
  {
    hide Step, Xor, Up, Bit, Odd, Half, Top;
    if n == 0 {
      XorLaws(c, ZERO, ZERO);
    } else {
      var y, w := Half(x), LowBits(x, n);
      Shifting(x, false);
      InjectEarly(c, Odd(x), y);
      FoldLow(Step(Xor(c, Bit(Odd(x)))), y, n - 1);
      assert w[1..] == LowBits(y, n - 1);
    }
  }

  /** The polynomial under a mask of all ones or all zeros. */
  function Feedback(c: bv32): bv32 {
    0xEDB8_8320 & (0 - (c & 1))
  }

  lemma FeedbackIs(c: bv32)
    ensures Reg(Feedback(c)) == if Odd(Reg(c)) then POLYNOMIAL else ZERO
  {
    LowBit(c);
    if c & 1 == 1 { MaskedOne(0xEDB8_8320, c & 1); } else { MaskedZero(0xEDB8_8320, c & 1); }
  }

  lemma LowBit(c: bv32) ensures c & 1 == 0 || c & 1 == 1 {}
  lemma MaskedOne(p: bv32, x: bv32) requires x == 1 ensures p & (0 - x) == p {}
  lemma MaskedZero(p: bv32, x: bv32) requires x == 0 ensures p & (0 - x) == 0 {}

  lemma StepAsCode(c: bv32)
    ensures Reg((c >> 1) ^ Feedback(c)) == Step(Reg(c))
  {
    FeedbackIs(c);
    XorZero(Half(Reg(c)));
    assert Reg((c >> 1) ^ Feedback(c)) == Xor(Half(Reg(c)), Reg(Feedback(c)));
    hide Xor, Half, Feedback, Odd;
  }

  lemma {:induction false} BitsAppend(data: seq<bv8>, b: bv8)
    ensures Bits(data + [b]) == Bits(data) + LowBits(Byte(b), 8)
  {
    hide LowBits, Byte;
    if data == [] {
      assert data + [b] == [b] && [b][1..] == [];
    } else {
      assert (data + [b])[1..] == data[1..] + [b];
      BitsAppend(data[1..], b);
    }
  }

  lemma {:induction false} StepTimesLast(c: Reg, n: nat)
    ensures StepTimes(c, n + 1) == Step(StepTimes(c, n))
    decreases n
  {
    hide Step;
    if n > 0 { StepTimesLast(Step(c), n - 1); }
  }

  /** One byte of boot_crc32. */
  method AbsorbByte(start: bv32, byte: bv8) returns (crc: bv32)
    ensures Reg(crc) == Register(Reg(start), LowBits(Byte(byte), 8))
  {
    hide Step, LowBits, Register, Spent, Feedback;
    crc := start ^ (byte as bv32);
    ghost var first := Reg(crc);
    ByteIsSpent(byte);
    FoldLow(Reg(start), Byte(byte), 8);
    assert first == Xor(Reg(start), Byte(byte));
    var bit := 0;
    while bit < 8
      invariant 0 <= bit <= 8 && Reg(crc) == StepTimes(first, bit)
    {
      StepAsCode(crc);
      StepTimesLast(first, bit);
      crc := (crc >> 1) ^ Feedback(crc);
      bit := bit + 1;
    }
  }

  /** boot_crc32. */
  method BootCrc32(bytes: seq<bv8>) returns (r: bv32)
    ensures r == Crc(bytes)
  {
    hide Step, LowBits, Register, Spent, Bits, Byte;
    var crc := 0xFFFF_FFFF;
    var index := 0;
    NoBitsYet();
    while index < |bytes|
      invariant 0 <= index <= |bytes|
      invariant Reg(crc) == Register(ALL_ONES, Bits(bytes[..index]))
    {
      crc := AbsorbByte(crc, bytes[index]);
      assert bytes[..index + 1] == bytes[..index] + [bytes[index]];
      BitsAppend(bytes[..index], bytes[index]);
      RegisterConcat(ALL_ONES, Bits(bytes[..index]), LowBits(Byte(bytes[index]), 8));
      index := index + 1;
    }
    assert bytes[..index] == bytes;
    return !crc;
  }

  lemma NoBitsYet()
    ensures Register(ALL_ONES, Bits([])) == ALL_ONES
  {
  }
}
