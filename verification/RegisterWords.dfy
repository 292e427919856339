/** 32-bit words of the CRC register, wrapped so that proofs use the few laws below instead of
    their bits. */
module RegisterWords {

  datatype Reg = Reg(v: bv32)

  const ZERO := Reg(0)
  const ALL_ONES := Reg(0xFFFF_FFFF)
  const POLYNOMIAL := Reg(0xEDB8_8320)

  function Xor(x: Reg, y: Reg): Reg { Reg(x.v ^ y.v) }
  function Half(x: Reg): Reg { Reg(x.v >> 1) }
  function Up(x: Reg): Reg { Reg(x.v << 1) }
  function Bit(b: bool): Reg { Reg(if b then 1 else 0) }
  predicate Odd(x: Reg) { x.v & 1 == 1 }
  predicate Top(x: Reg) { x.v & 0x8000_0000 == 0x8000_0000 }

  lemma XorLaws(x: Reg, y: Reg, z: Reg)
    ensures Xor(x, x) == ZERO && Xor(x, ZERO) == x && Xor(ZERO, x) == x && Xor(x, y) == Xor(y, x)
    ensures Xor(Xor(x, y), z) == Xor(x, Xor(y, z)) && Xor(Xor(x, y), y) == x
  {
    hide Xor;
    XorSelf(x);
    XorZero(x);
    XorSwap(x, y);
    XorAssoc(x, y, z);
    XorTwice(x, y);
  }

  lemma XorSelf(x: Reg) ensures Xor(x, x) == ZERO {}
  lemma XorZero(x: Reg) ensures Xor(x, ZERO) == x && Xor(ZERO, x) == x {}
  lemma XorSwap(x: Reg, y: Reg) ensures Xor(x, y) == Xor(y, x) {}
  lemma XorAssoc(x: Reg, y: Reg, z: Reg) ensures Xor(Xor(x, y), z) == Xor(x, Xor(y, z)) {}
  lemma XorTwice(x: Reg, y: Reg) ensures Xor(Xor(x, y), y) == x {}

  lemma Regroup(c: Reg, d: Reg, x: Reg, y: Reg)
    ensures Xor(Xor(c, d), Xor(x, y)) == Xor(Xor(c, x), Xor(d, y))
  {
  }

  lemma XorParts(x: Reg, y: Reg)
    ensures Half(Xor(x, y)) == Xor(Half(x), Half(y))
    ensures Odd(Xor(x, y)) <==> Odd(x) != Odd(y)
    ensures Top(Xor(x, y)) <==> Top(x) != Top(y)
  {
    hide Xor, Half, Odd, Top;
    HalfXor(x, y);
    OddXor(x, y);
    TopXor(x, y);
  }

  lemma HalfXor(x: Reg, y: Reg) ensures Half(Xor(x, y)) == Xor(Half(x), Half(y)) {}
  lemma OddXor(x: Reg, y: Reg) ensures Odd(Xor(x, y)) <==> Odd(x) != Odd(y) {}
  lemma TopXor(x: Reg, y: Reg)
    ensures Top(Xor(x, y)) <==> Top(x) != Top(y)
  {
    hide Xor, Top;
    if Top(x) {
      if Top(y) { TopBoth(x, y); } else { TopOne(x, y); }
    } else {
      if Top(y) { TopOne(y, x); XorSwap(x, y); } else { TopNone(x, y); }
    }
  }

  lemma TopBoth(x: Reg, y: Reg) requires Top(x) && Top(y) ensures !Top(Xor(x, y)) {}
  lemma TopOne(x: Reg, y: Reg) requires Top(x) && !Top(y) ensures Top(Xor(x, y)) {}
  lemma TopNone(x: Reg, y: Reg) requires !Top(x) && !Top(y) ensures !Top(Xor(x, y)) {}

  /** A word is its low bit and its half; putting a bit under a word whose top is clear loses nothing. */
  lemma Shifting(x: Reg, b: bool)
    ensures !Top(Half(x)) && Xor(Bit(Odd(x)), Up(Half(x))) == x
    ensures Odd(Xor(Bit(b), Up(x))) == b
    ensures !Top(x) ==> Half(Xor(Bit(b), Up(x))) == x && Half(Up(x)) == x
    ensures !Odd(Up(x))
  {
    hide Xor, Half, Up, Odd, Top, Bit;
    HalfTop(x);
    if Odd(x) { RebuildOdd(x); } else { RebuildEven(x); }
    UpEven(x);
    UpBit(x, b);
    if !Top(x) { UpHalf(x); UpBitHalf(x, b); }
  }

  lemma HalfTop(x: Reg) ensures !Top(Half(x)) {}
  lemma RebuildOdd(x: Reg) requires Odd(x) ensures Xor(Bit(true), Up(Half(x))) == x {}
  lemma RebuildEven(x: Reg) requires !Odd(x) ensures Xor(Bit(false), Up(Half(x))) == x {}
  lemma UpEven(x: Reg) ensures !Odd(Up(x)) {}
  lemma UpBit(x: Reg, b: bool) ensures Odd(Xor(Bit(b), Up(x))) == b {}
  lemma UpHalf(x: Reg) requires !Top(x) ensures Half(Up(x)) == x {}
  lemma UpBitHalf(x: Reg, b: bool) requires !Top(x) ensures Half(Xor(Bit(b), Up(x))) == x {}

  lemma Constants()
    ensures Top(POLYNOMIAL) && !Top(ZERO) && !Odd(ZERO) && Half(ZERO) == ZERO && Bit(false) == ZERO && Up(ZERO) == ZERO
  {
  }
}
