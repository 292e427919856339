/** The checksum of section 3.2.9 of IEEE 802.3, in its own terms: polynomials over GF(2), written as
    the set of their exponents. */
module Crc32Polynomial {
  import opened Crc32
  import opened RegisterWords

  type Poly = set<nat>

  /** x^32+x^26+x^23+x^22+x^16+x^12+x^11+x^10+x^8+x^7+x^5+x^4+x^2+x+1. */
  const GENERATOR: Poly := {32, 26, 23, 22, 16, 12, 11, 10, 8, 7, 5, 4, 2, 1, 0}

  function Add(a: Poly, b: Poly): Poly { (a - b) + (b - a) }

  function TimesX(a: Poly): (p: Poly)
    ensures forall e: nat :: e in p <==> e > 0 && e - 1 in a
  {
    set e | e in a :: e + 1
  }

  predicate Set(bits: seq<bool>, e: nat) {
    e < |bits| && bits[|bits| - 1 - e]
  }

  /** The polynomial of a bit string, its first bit the highest coefficient. */
  function Coefficients(bits: seq<bool>): (p: Poly)
    ensures forall e: nat :: e in p <==> Set(bits, e)
  {
    set e: nat | e < |bits| && Set(bits, e)
  }

  /** q(x) * g(x), by the coefficients of q. */
  function Product(q: seq<bool>, g: Poly): Poly
    decreases |q|
  {
    if q == [] then {}
    else Add(TimesX(Product(q[..|q| - 1], g)), if q[|q| - 1] then g else {})
  }

  /** `r` is what division of `a` by the generator leaves. */
  ghost predicate Remains(a: Poly, r: Poly) {
    (forall e | e in r :: e < 32) && exists q: seq<bool> :: a == Add(Product(q, GENERATOR), r)
  }

  function Zeros(n: nat): (z: seq<bool>)
    ensures |z| == n
  {
    seq(n, _ => false)
  }

  function FirstComplemented(bits: seq<bool>): (r: seq<bool>)
    ensures |r| == |bits|
  {
    seq(|bits|, i requires 0 <= i < |bits| => if i < 32 then !bits[i] else bits[i])
  }

  /** The message times x^32, the first 32 bits complemented. */
  function Dividend(bits: seq<bool>): Poly {
    Coefficients(FirstComplemented(bits + Zeros(32)))
  }

  /** A register word as a polynomial: its lowest bit is the coefficient of x^31. */
  function OfWord(x: Reg): Poly {
    Coefficients(LowBits(x, 32))
  }

  /** The polynomial of a single power, or nothing. */
  function Power(b: bool, e: nat): Poly { if b then {e} else {} }

  // ---- Words ----

  function HalfTimes(x: Reg, n: nat): Reg
    decreases n
  {
    if n == 0 then x else HalfTimes(Half(x), n - 1)
  }

  lemma {:induction false} LowBitsLast(x: Reg, n: nat)
    ensures LowBits(x, n + 1) == LowBits(x, n) + [Odd(HalfTimes(x, n))]
    decreases n
  {
    hide Odd, Half;
    if n > 0 { LowBitsLast(Half(x), n - 1); }
  }

  lemma {:induction false} HalfTimesXor(x: Reg, y: Reg, n: nat)
    ensures HalfTimes(Xor(x, y), n) == Xor(HalfTimes(x, n), HalfTimes(y, n))
    decreases n
  {
    hide Half, Xor;
    if n > 0 {
      HalfXor(x, y);
      HalfTimesXor(Half(x), Half(y), n - 1);
    }
  }

  lemma HalfFits(x: Reg, k: nat)
    requires Fits(x, k + 1) && k <= 31
    ensures Fits(Half(x), k)
  {
    var m := Ones(k);
    WithinItself(m);
    TopIsClear(m, k);
    Shifting(m, true);
    hide Half, Xor, Up, Bit, Top, Within;
    WithinHalf(x, Ones(k + 1));
  }

  lemma WithinItself(x: Reg) ensures Within(x, x) {}
  lemma WithinHalf(x: Reg, m: Reg) requires Within(x, m) ensures Within(Half(x), Half(m)) {}

  lemma {:induction false} NothingLeft(x: Reg, n: nat)
    requires Fits(x, n) && n <= 32
    ensures HalfTimes(x, n) == ZERO
    decreases n
  {
    if n == 0 {
      FitsNothing(x);
    } else {
      hide Half, Fits;
      HalfFits(x, n - 1);
      NothingLeft(Half(x), n - 1);
    }
  }

  lemma FitsNothing(x: Reg) requires Fits(x, 0) ensures x == ZERO {}

  const TOP := Reg(0x8000_0000)

  /** The top bit is the last of the 32. */
  lemma TopIsLast(x: Reg)
    ensures Odd(HalfTimes(x, 31)) == Top(x)
  {
    hide *;
    TopFirst();
    if Top(x) {
      var low := Xor(x, TOP);
      XorParts(x, TOP);
      XorLaws(x, TOP, TOP);
      LowFits(low);
      NothingLeft(low, 31);
      HalfTimesXor(low, TOP, 31);
      XorLaws(Bit(true), ZERO, ZERO);
    } else {
      LowFits(x);
      NothingLeft(x, 31);
    }
    Constants();
  }

  lemma LowFits(x: Reg)
    requires !Top(x)
    ensures Fits(x, 31)
  {
    MaskThirtyOne();
    BelowTop(x.v);
  }

  lemma BelowTop(x: bv32)
    requires x & 0x8000_0000 != 0x8000_0000
    ensures x & !0x7FFF_FFFF == 0
  {
  }

  lemma TopFirst()
    ensures HalfTimes(TOP, 31) == Bit(true) && Top(TOP) && Odd(Bit(true))
  {
    assert HalfTimes(Reg(0x8), 3) == Reg(1);
    assert HalfTimes(Reg(0x80), 7) == Reg(1);
    assert HalfTimes(Reg(0x800), 11) == Reg(1);
    assert HalfTimes(Reg(0x8000), 15) == Reg(1);
    assert HalfTimes(Reg(0x8_0000), 19) == Reg(1);
    assert HalfTimes(Reg(0x80_0000), 23) == Reg(1);
    assert HalfTimes(Reg(0x800_0000), 27) == Reg(1);
  }

  // ---- Polynomials ----

  lemma AddLaws(a: Poly, b: Poly, c: Poly)
    ensures Add(Add(a, b), c) == Add(a, Add(b, c)) && Add(a, b) == Add(b, a) && Add(a, a) == {} && Add(a, {}) == a == Add({}, a)
  {
  }

  lemma TimesXOfSum(a: Poly, b: Poly)
    ensures TimesX(Add(a, b)) == Add(TimesX(a), TimesX(b))
  {
    Same(TimesX(Add(a, b)), Add(TimesX(a), TimesX(b)));
  }

  /** Two sets with the same members are equal. */
  lemma Same(a: Poly, b: Poly)
    requires forall e: nat :: e in a <==> e in b
    ensures a == b
  {
  }

  lemma CoefficientsOfXor(a: seq<bool>, b: seq<bool>)
    requires |a| == |b|
    ensures Coefficients(XorBits(a, b)) == Add(Coefficients(a), Coefficients(b))
  {
    Same(Coefficients(XorBits(a, b)), Add(Coefficients(a), Coefficients(b)));
  }

  lemma CoefficientsAppend(bits: seq<bool>, b: bool)
    ensures Coefficients(bits + [b]) == Add(TimesX(Coefficients(bits)), Power(b, 0))
  {
    Same(Coefficients(bits + [b]), Add(TimesX(Coefficients(bits)), Power(b, 0)));
  }

  lemma CoefficientsPrepend(b: bool, bits: seq<bool>)
    ensures Coefficients([b] + bits) == Add(Power(b, |bits|), Coefficients(bits))
  {
    Same(Coefficients([b] + bits), Add(Power(b, |bits|), Coefficients(bits)));
  }

  /** Shifting a register word is multiplication by x; what falls out is the coefficient of x^32. */
  lemma TimesXOfWord(y: Reg)
    ensures TimesX(OfWord(y)) == Add(Power(Odd(y), 32), OfWord(Half(y)))
  {
    hide *;
    var low := LowBits(y, 32);
    LowBitsFirst(y);
    LowBitsLast(Half(y), 31);
    TopIsLast(Half(y));
    HalfTop(y);
    CoefficientsAppend(low, false);
    assert low + [false] == [Odd(y)] + LowBits(Half(y), 32);
    CoefficientsPrepend(Odd(y), LowBits(Half(y), 32));
    AddLaws(TimesX(Coefficients(low)), {}, {});
    OfWordIs(y);
    OfWordIs(Half(y));
    NoPower(0);
  }

  lemma LowBitsFirst(y: Reg) ensures LowBits(y, 32) == [Odd(y)] + LowBits(Half(y), 31) {}
  lemma OfWordIs(y: Reg) ensures OfWord(y) == Coefficients(LowBits(y, 32)) {}
  lemma NoPower(e: nat) ensures Power(false, e) == {} {}

  lemma OfWordXor(x: Reg, y: Reg)
    ensures OfWord(Xor(x, y)) == Add(OfWord(x), OfWord(y))
  {
    hide Xor, Coefficients, LowBits;
    LowBitsOfXor(x, y, 32);
    CoefficientsOfXor(LowBits(x, 32), LowBits(y, 32));
  }

  // ---- The generator ----

  /** The polynomial of the low `n` bits, bit by bit. */
  function Spelled(x: Reg, n: nat): Poly
    decreases n
  {
    if n == 0 then {} else Power(Odd(x), n - 1) + Spelled(Half(x), n - 1)
  }

  lemma {:induction false} SpelledOut(x: Reg, n: nat)
    ensures Coefficients(LowBits(x, n)) == Spelled(x, n)
    decreases n
  {
    hide Odd, Half;
    if n > 0 {
      SpelledOut(Half(x), n - 1);
      CoefficientsPrepend(Odd(x), LowBits(Half(x), n - 1));
      Same(Coefficients(LowBits(x, n)), Spelled(x, n));
    }
  }

  lemma Nibble(v: bv32, n: nat)
    requires n >= 4
    ensures Spelled(Reg(v), n) ==
      ((Power(v & 1 == 1, n - 1) + Power(v & 2 == 2, n - 2)) + (Power(v & 4 == 4, n - 3) + Power(v & 8 == 8, n - 4))) +
      Spelled(Reg(v >> 4), n - 4)
  {
    var x := Reg(v);
    NibbleBits(v);
    hide Odd, Half, Power;
    assert Spelled(x, n) == Power(Odd(x), n - 1) + Spelled(Half(x), n - 1);
    assert Spelled(Half(x), n - 1) == Power(Odd(Half(x)), n - 2) + Spelled(Half(Half(x)), n - 2);
    assert Spelled(Half(Half(x)), n - 2) == Power(Odd(Half(Half(x))), n - 3) + Spelled(Half(Half(Half(x))), n - 3);
    assert Spelled(Half(Half(Half(x))), n - 3) ==
      Power(Odd(Half(Half(Half(x)))), n - 4) + Spelled(Half(Half(Half(Half(x)))), n - 4);
  }

  lemma NibbleBits(v: bv32)
    ensures Odd(Reg(v)) == (v & 1 == 1) && Odd(Half(Reg(v))) == (v & 2 == 2)
    ensures Odd(Half(Half(Reg(v)))) == (v & 4 == 4) && Odd(Half(Half(Half(Reg(v))))) == (v & 8 == 8)
    ensures Half(Half(Half(Half(Reg(v))))) == Reg(v >> 4)
  {
  }

  lemma NothingSpelled() ensures Spelled(Reg(0), 0) == {} {}

  lemma Digits1()
    ensures Spelled(Reg(0xE), 4) == {2, 1, 0}
  {
    NothingSpelled();
    Nibble(0xE, 4);
    hide Spelled;
  }

  lemma Digits2()
    ensures Spelled(Reg(0xED), 8) == {7, 5, 4, 2, 1, 0}
  {
    Digits1();
    Nibble(0xED, 8);
    hide Spelled;
  }

  lemma Digits3()
    ensures Spelled(Reg(0xEDB), 12) == {11, 10, 8, 7, 5, 4, 2, 1, 0}
  {
    Digits2();
    Nibble(0xEDB, 12);
    hide Spelled;
  }

  lemma Digits4()
    ensures Spelled(Reg(0xEDB8), 16) == {12, 11, 10, 8, 7, 5, 4, 2, 1, 0}
  {
    Digits3();
    Nibble(0xEDB8, 16);
    hide Spelled;
  }

  lemma Digits5()
    ensures Spelled(Reg(0xEDB88), 20) == {16, 12, 11, 10, 8, 7, 5, 4, 2, 1, 0}
  {
    Digits4();
    Nibble(0xEDB88, 20);
    hide Spelled;
  }

  lemma Digits6()
    ensures Spelled(Reg(0xEDB883), 24) == {23, 22, 16, 12, 11, 10, 8, 7, 5, 4, 2, 1, 0}
  {
    Digits5();
    Nibble(0xEDB883, 24);
    hide Spelled;
  }

  lemma Digits7()
    ensures Spelled(Reg(0xEDB8832), 28) == {26, 23, 22, 16, 12, 11, 10, 8, 7, 5, 4, 2, 1, 0}
  {
    Digits6();
    Nibble(0xEDB8832, 28);
    hide Spelled;
  }

  lemma Digits8()
    ensures Spelled(Reg(0xEDB88320), 32) == {26, 23, 22, 16, 12, 11, 10, 8, 7, 5, 4, 2, 1, 0}
  {
    Digits7();
    Nibble(0xEDB88320, 32);
    hide Spelled;
  }

  lemma GeneratorIsPolynomial()
    ensures GENERATOR == Add({32}, OfWord(POLYNOMIAL))
  {
    SpelledOut(POLYNOMIAL, 32);
    Digits8();
    hide Spelled, LowBits, Coefficients;
  }

  lemma {:induction false} ZeroWord(n: nat)
    ensures LowBits(ZERO, n) == Zeros(n)
    decreases n
  {
    hide Odd, Half;
    Constants();
    if n > 0 {
      ZeroWord(n - 1);
      assert Zeros(n) == [false] + Zeros(n - 1);
    }
  }

  lemma OfBit(b: bool)
    ensures OfWord(Bit(b)) == Power(b, 31)
  {
    ZeroWord(31);
    OneBit(b);
    hide Odd, Half, Bit;
    assert LowBits(Bit(b), 32) == [b] + LowBits(ZERO, 31);
    Same(OfWord(Bit(b)), Power(b, 31));
  }

  lemma OneBit(b: bool) ensures Odd(Bit(b)) == b && Half(Bit(b)) == ZERO {}

  // ---- Division ----

  /** One more message bit: the dividend is multiplied by x, and the bit enters at x^32. */
  lemma DividendGrows(bits: seq<bool>, b: bool)
    ensures Dividend(bits + [b]) == Add(TimesX(Dividend(bits)), Power(b, 32))
  {
    var longer, shorter := FirstComplemented(bits + [b] + Zeros(32)), FirstComplemented(bits + Zeros(32));
    forall e: nat ensures e in Dividend(bits + [b]) <==> e in Add(TimesX(Dividend(bits)), Power(b, 32)) {
      if 0 < e < |longer| {
        var i := |longer| - 1 - e;
        assert i == |shorter| - 1 - (e - 1);
        assert i != |bits| ==> (bits + [b] + Zeros(32))[i] == (bits + Zeros(32))[i];
      }
    }
    Same(Dividend(bits + [b]), Add(TimesX(Dividend(bits)), Power(b, 32)));
  }

  lemma NothingToDivide()
    ensures Dividend([]) == OfWord(ALL_ONES)
  {
    OnesWord(32);
    AllOnes();
    assert FirstComplemented([] + Zeros(32)) == LowBits(ALL_ONES, 32);
  }

  lemma AllOnes() ensures ALL_ONES == Ones(32) {
    MaskThirtyOne();
  }

  lemma {:induction false} OnesWord(n: nat)
    requires n <= 32
    ensures |LowBits(Ones(n), n)| == n && forall i | 0 <= i < n :: LowBits(Ones(n), n)[i]
    decreases n
  {
    hide Odd, Half, Xor, Up, Bit;
    if n > 0 {
      WithinItself(Ones(n - 1));
      TopIsClear(Ones(n - 1), n - 1);
      Shifting(Ones(n - 1), true);
      OnesWord(n - 1);
    }
  }

  lemma ProductGrows(q: seq<bool>, b: bool, g: Poly)
    ensures Product(q + [b], g) == Add(TimesX(Product(q, g)), if b then g else {})
  {
    assert (q + [b])[..|q|] == q;
  }

  /** What the register keeps is what one step of the division leaves. */
  lemma StepDivides(y: Reg)
    ensures TimesX(OfWord(y)) == Add(if Odd(y) then GENERATOR else {}, OfWord(Step(y)))
  {
    hide Xor, Half, Odd, OfWord, TimesX;
    TimesXOfWord(y);
    GeneratorIsPolynomial();
    OfWordXor(Half(y), POLYNOMIAL);
    var h, p := OfWord(Half(y)), OfWord(POLYNOMIAL);
    AddLaws({32}, p, Add(h, p));
    AddLaws(p, p, h);
    AddLaws(h, p, h);
    AddLaws(p, h, p);
    AddLaws({}, h, {});
    AddLaws(h, {}, {});
  }

  /** After any message the register holds what is left of the dividend. */
  lemma {:induction false} RegisterDivides(bits: seq<bool>) returns (q: seq<bool>)
    ensures Dividend(bits) == Add(Product(q, GENERATOR), OfWord(Register(ALL_ONES, bits)))
    decreases |bits|
  {
    hide *;
    if bits == [] {
      q := [];
      NothingToDivide();
      NothingDivided();
      AddLaws(OfWord(ALL_ONES), {}, {});
    } else {
      var k := |bits| - 1;
      var p, b := bits[..k], bits[k];
      assert bits == p + [b];
      var q' := RegisterDivides(p);
      var c := Register(ALL_ONES, p);
      var y := Xor(c, Bit(b));
      q := q' + [Odd(y)];
      RegisterConcat(ALL_ONES, p, [b]);
      OneBitRegister(c, b);
      DividendGrows(p, b);
      var t, e := Product(q', GENERATOR), OfWord(c);
      TimesXOfSum(t, e);
      OfWordXor(c, Bit(b));
      OfBit(b);
      TimesXOfSum(e, Power(b, 31));
      TimesXPower(b, 31);
      AddLaws(TimesX(t), TimesX(e), Power(b, 32));
      StepDivides(y);
      ProductGrows(q', Odd(y), GENERATOR);
      AddLaws(TimesX(t), if Odd(y) then GENERATOR else {}, OfWord(Step(y)));
    }
  }

  lemma NothingDivided() ensures Product([], GENERATOR) == {} && Register(ALL_ONES, []) == ALL_ONES {}
  lemma OneBitRegister(c: Reg, b: bool) ensures Register(c, [b]) == Step(Xor(c, Bit(b))) {}
  lemma TimesXPower(b: bool, e: nat) ensures TimesX(Power(b, e)) == Power(b, e + 1) {
    Same(TimesX(Power(b, e)), Power(b, e + 1));
  }

  // ---- The remainder is unique ----

  lemma {:induction false} ZeroProduct(n: nat, q: seq<bool>, g: Poly)
    ensures Product(Zeros(n) + q, g) == Product(q, g)
    decreases n + |q|
  {
    hide TimesX, Add;
    if q != [] {
      var k := |q| - 1;
      assert q == q[..k] + [q[k]];
      assert Zeros(n) + q == (Zeros(n) + q[..k]) + [q[k]];
      ZeroProduct(n, q[..k], g);
      ProductGrows(Zeros(n) + q[..k], q[k], g);
    } else if n > 0 {
      ZeroProduct(n - 1, [], g);
      assert Zeros(n) + [] == (Zeros(n - 1) + []) + [false];
      ProductGrows(Zeros(n - 1) + [], false, g);
      NothingTimesX();
    }
  }

  lemma NothingTimesX() ensures TimesX({}) == {} && Add({}, {}) == {} {}

  lemma {:induction false} ProductXor(q: seq<bool>, r: seq<bool>, g: Poly)
    requires |q| == |r|
    ensures Add(Product(q, g), Product(r, g)) == Product(XorBits(q, r), g)
    decreases |q|
  {
    if q == [] {
      assert XorBits(q, r) == [];
    } else {
      var k := |q| - 1;
      var a, b := Product(q[..k], g), Product(r[..k], g);
      ProductXor(q[..k], r[..k], g);
      assert XorBits(q, r)[..k] == XorBits(q[..k], r[..k]);
      TimesXOfSum(a, b);
      hide TimesX, XorBits;
    }
  }

  /** Nothing, or a power from x^32 on. */
  ghost predicate High(p: Poly) {
    p == {} || exists e :: e in p && e >= 32
  }

  lemma HighStep(p: Poly, b: bool)
    requires High(p)
    ensures High(Add(TimesX(p), if b then GENERATOR else {}))
  {
    var g := GENERATOR;
    var sum := Add(TimesX(p), if b then g else {});
    GeneratorTop();
    hide GENERATOR;
    if p == {} {
      NothingTimesX();
      if b { assert 32 in sum; }
    } else {
      var e :| e in p && e >= 32;
      assert e + 1 in sum;
    }
  }

  lemma GeneratorTop() ensures 32 in GENERATOR && forall e | e in GENERATOR :: e <= 32 {}

  /** So is every product with the generator. */
  lemma {:induction false} ProductIsHigh(q: seq<bool>)
    ensures High(Product(q, GENERATOR))
    decreases |q|
  {
    hide High, TimesX, Add, GENERATOR;
    if q == [] {
      NothingIsHigh();
    } else {
      ProductIsHigh(q[..|q| - 1]);
      HighStep(Product(q[..|q| - 1], GENERATOR), q[|q| - 1]);
    }
  }

  lemma NothingIsHigh() ensures High({}) {}

  lemma Crossed(p: Poly, q: Poly, r: Poly, s: Poly)
    requires Add(q, r) == Add(p, s)
    ensures Add(q, p) == Add(r, s)
  {
    AddLaws(q, r, r);
    AddLaws(p, s, r);
    AddLaws(p, Add(s, r), p);
    AddLaws(Add(s, r), p, p);
    AddLaws(r, s, s);
    hide Add;
  }

  lemma LowAndHigh(r: Poly, s: Poly)
    requires High(Add(r, s)) && (forall e | e in r :: e < 32) && forall e | e in s :: e < 32
    ensures r == s
  {
    var sum := Add(r, s);
    forall e: nat ensures e in r <==> e in s {
      assert e in sum <==> (e in r) != (e in s);
    }
  }

  /** At most one polynomial remains. */
  lemma RemainderIsUnique(a: Poly, r: Poly, s: Poly)
    requires Remains(a, r) && Remains(a, s)
    ensures r == s
  {
    var q: seq<bool> :| a == Add(Product(q, GENERATOR), r);
    var p: seq<bool> :| a == Add(Product(p, GENERATOR), s);
    var q', p' := Zeros(|p|) + q, Zeros(|q|) + p;
    ZeroProduct(|p|, q, GENERATOR);
    ZeroProduct(|q|, p, GENERATOR);
    ProductXor(q', p', GENERATOR);
    ProductIsHigh(XorBits(q', p'));
    hide Product, Add, High, GENERATOR;
    Crossed(Product(p', GENERATOR), Product(q', GENERATOR), r, s);
    LowAndHigh(r, s);
  }

  lemma {:induction false} SpentAfterAll(x: Reg, n: nat)
    requires Fits(x, n) && n <= 32
    ensures Spent(x, n)
    decreases n
  {
    if n == 0 { FitsNothing(x); } else {
      hide Half, Fits;
      HalfFits(x, n - 1);
      SpentAfterAll(Half(x), n - 1);
    }
  }

  lemma SamePolynomialSameWord(x: Reg, y: Reg)
    requires OfWord(x) == OfWord(y)
    ensures x == y
  {
    AllOnes();
    EverythingFits(x, y);
    SpentAfterAll(x, 32);
    SpentAfterAll(y, 32);
    hide *;
    OfWordIs(x);
    OfWordIs(y);
    SameString(LowBits(x, 32), LowBits(y, 32));
    SameLowBits(x, y, 32);
  }

  lemma SameString(a: seq<bool>, b: seq<bool>)
    requires |a| == |b| && Coefficients(a) == Coefficients(b)
    ensures a == b
  {
    forall i | 0 <= i < |a| ensures a[i] == b[i] {
      assert Set(a, |a| - 1 - i) <==> |a| - 1 - i in Coefficients(a);
      assert Set(b, |a| - 1 - i) <==> |a| - 1 - i in Coefficients(b);
    }
  }

  lemma EverythingFits(x: Reg, y: Reg)
    requires ALL_ONES == Ones(32)
    ensures Fits(x, 32) && Fits(y, 32)
  {
    hide Ones;
  }

  /** The checksum of section 3.2.9 of IEEE 802.3: `crc` is the checksum of a message if and only if
      its complement is the remainder of the message, times x^32 and with the first 32 bits
      complemented, modulo the generator. */
  lemma CrcIsRemainder(data: seq<bv8>, crc: bv32)
    ensures crc == Crc(data) <==> Remains(Dividend(Bits(data)), OfWord(Reg(!crc)))
  {
    hide OfWord, Dividend, Product, Bits, Register, GENERATOR;
    var c := Register(ALL_ONES, Bits(data));
    var q := RegisterDivides(Bits(data));
    WordsAreShort(c);
    WordsAreShort(Reg(!crc));
    Twice(crc);
    Twice(c.v);
    if Remains(Dividend(Bits(data)), OfWord(Reg(!crc))) {
      RemainderIsUnique(Dividend(Bits(data)), OfWord(c), OfWord(Reg(!crc)));
      SamePolynomialSameWord(c, Reg(!crc));
    }
  }

  lemma WordsAreShort(x: Reg) ensures forall e | e in OfWord(x) :: e < 32 {}
  lemma Twice(x: bv32) ensures !(!x) == x {}

  lemma Absorbed(data: seq<bv8>, c: bv32, b: bv8, x: bv32, d: bv32)
    requires Register(ALL_ONES, Bits(data)) == Reg(c) && Xor(Reg(c), Byte(b)) == Reg(x) && StepTimes(Reg(x), 8) == Reg(d)
    ensures Register(ALL_ONES, Bits(data + [b])) == Reg(d)
  {
    hide *;
    BitsAppend(data, b);
    RegisterConcat(ALL_ONES, Bits(data), LowBits(Byte(b), 8));
    ByteIsSpent(b);
    FoldLow(Reg(c), Byte(b), 8);
  }

  lemma Registers1()
    ensures Xor(Reg(0xFFFF_FFFF), Byte(0x31)) == Reg(0xFFFF_FFCE) && StepTimes(Reg(0xFFFF_FFCE), 8) == Reg(0x7C23_1048)
    ensures Xor(Reg(0x7C23_1048), Byte(0x32)) == Reg(0x7C23_107A) && StepTimes(Reg(0x7C23_107A), 8) == Reg(0xB0AC_BB32)
    ensures Xor(Reg(0xB0AC_BB32), Byte(0x33)) == Reg(0xB0AC_BB01) && StepTimes(Reg(0xB0AC_BB01), 8) == Reg(0x77B7_9C2D)
  {
  }

  lemma Registers2()
    ensures Xor(Reg(0x77B7_9C2D), Byte(0x34)) == Reg(0x77B7_9C19) && StepTimes(Reg(0x77B7_9C19), 8) == Reg(0x641C_1F5C)
    ensures Xor(Reg(0x641C_1F5C), Byte(0x35)) == Reg(0x641C_1F69) && StepTimes(Reg(0x641C_1F69), 8) == Reg(0x340A_C5E3)
    ensures Xor(Reg(0x340A_C5E3), Byte(0x36)) == Reg(0x340A_C5D5) && StepTimes(Reg(0x340A_C5D5), 8) == Reg(0xF68D_2C9E)
  {
  }

  lemma Registers3()
    ensures Xor(Reg(0xF68D_2C9E), Byte(0x37)) == Reg(0xF68D_2CA9) && StepTimes(Reg(0xF68D_2CA9), 8) == Reg(0xAFFC_9660)
    ensures Xor(Reg(0xAFFC_9660), Byte(0x38)) == Reg(0xAFFC_9658) && StepTimes(Reg(0xAFFC_9658), 8) == Reg(0x651F_2550)
    ensures Xor(Reg(0x651F_2550), Byte(0x39)) == Reg(0x651F_2569) && StepTimes(Reg(0x651F_2569), 8) == Reg(0x340B_C6D9)
  {
  }

  /** The check value of the standard: the nine bytes of "123456789". */
  lemma CheckValue()
    ensures Crc([0x31, 0x32, 0x33, 0x34, 0x35, 0x36, 0x37, 0x38, 0x39]) == 0xCBF4_3926
  {
    hide *;
    var data: seq<bv8> := [];
    NoBitsYet();
    Ones32();
    Registers1();
    Registers2();
    Registers3();
    Absorbed(data, 0xFFFF_FFFF, 0x31, 0xFFFF_FFCE, 0x7C23_1048);
    data := data + [0x31];
    Absorbed(data, 0x7C23_1048, 0x32, 0x7C23_107A, 0xB0AC_BB32);
    data := data + [0x32];
    Absorbed(data, 0xB0AC_BB32, 0x33, 0xB0AC_BB01, 0x77B7_9C2D);
    data := data + [0x33];
    Absorbed(data, 0x77B7_9C2D, 0x34, 0x77B7_9C19, 0x641C_1F5C);
    data := data + [0x34];
    Absorbed(data, 0x641C_1F5C, 0x35, 0x641C_1F69, 0x340A_C5E3);
    data := data + [0x35];
    Absorbed(data, 0x340A_C5E3, 0x36, 0x340A_C5D5, 0xF68D_2C9E);
    data := data + [0x36];
    Absorbed(data, 0xF68D_2C9E, 0x37, 0xF68D_2CA9, 0xAFFC_9660);
    data := data + [0x37];
    Absorbed(data, 0xAFFC_9660, 0x38, 0xAFFC_9658, 0x651F_2550);
    data := data + [0x38];
    Absorbed(data, 0x651F_2550, 0x39, 0x651F_2569, 0x340B_C6D9);
    data := data + [0x39];
    assert data == [0x31, 0x32, 0x33, 0x34, 0x35, 0x36, 0x37, 0x38, 0x39];
    CrcIs(data, 0x340B_C6D9);
  }

  lemma Ones32() ensures ALL_ONES == Reg(0xFFFF_FFFF) {}

  lemma CrcIs(data: seq<bv8>, c: bv32)
    requires Register(ALL_ONES, Bits(data)) == Reg(c)
    ensures Crc(data) == !c
  {
    hide Register, Bits;
  }
}
