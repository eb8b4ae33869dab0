/**
 The field the codec works in. Bytes are elements of GF(2^8) with the reduction polynomial
 x^8 + x^4 + x^3 + x + 1 (section 4.2 of FIPS 197); addition is exclusive or. The source multiplies
 with lookup tables to the base 3. Table multiplication is proved equal to polynomial multiplication,
 and the laws of a field are proved of it; the linear algebra of the codec rests on these.
 */
module Gf256 {
  import opened FieldTables

  /** Multiplication of x by the element whose logarithm is logy. */
  function FastFFmult(x: byte, logy: nat): byte
    requires logy <= 254
  {
    LogBound(x);
    if x == 0 then 0 else FFantilog(XFFlog(x) + logy)
  }

  function FFmult(x: byte, y: byte): byte
  {
    LogBound(x);
    LogBound(y);
    if x == 0 || y == 0 then 0 else FFantilog(XFFlog(x) + XFFlog(y))
  }

  /** x times the constant coefficient of the polynomial y. */
  function LowTerm(x: byte, y: byte): byte
  {
    if y & 1 == 1 then x else 0
  }

  /** The product of polynomials modulo x^8 + x^4 + x^3 + x + 1: section 4.2 of FIPS 197. */
  function Mul(x: byte, y: byte): byte
    decreases y
  {
    if y == 0 then 0 else Add(LowTerm(x, y), Mul(Xtime(x), y >> 1))
  }

  /** x times the k-th power of 3. */
  function Pow3(k: nat, x: byte): byte
  {
    if k == 0 then x else Times3(Pow3(k - 1, x))
  }

  // ---------------------------------------------------------------------------------------------
  // Addition

  lemma AddCommutes(a: byte, b: byte)
    ensures Add(a, b) == Add(b, a)
  {
  }

  lemma AddAssociates(a: byte, b: byte, c: byte)
    ensures Add(Add(a, b), c) == Add(a, Add(b, c))
  {
  }

  lemma AddZero(a: byte)
    ensures Add(a, 0) == a && Add(0, a) == a
  {
  }

  lemma AddSelf(a: byte)
    ensures Add(a, a) == 0
  {
  }

  lemma AddTwice(a: byte, b: byte)
    ensures Add(Add(a, b), b) == a
  {
  }

  lemma AddInterchange(a: byte, b: byte, c: byte, d: byte)
    ensures Add(Add(a, b), Add(c, d)) == Add(Add(a, c), Add(b, d))
  {
    hide Add;
    calc {
      Add(Add(a, b), Add(c, d));
      { AddAssociates(a, b, Add(c, d)); AddAssociates(b, c, d); }
      Add(a, Add(Add(b, c), d));
      { AddCommutes(b, c); }
      Add(a, Add(Add(c, b), d));
      { AddAssociates(c, b, d); AddAssociates(a, c, Add(b, d)); }
      Add(Add(a, c), Add(b, d));
    }
  }

  // ---------------------------------------------------------------------------------------------
  // Polynomial multiplication is bilinear

  lemma MulUnfold(x: byte, y: byte)
    ensures Mul(x, y) == Add(LowTerm(x, y), Mul(Xtime(x), y >> 1))
  {
    if y == 0 {
      assert Mul(Xtime(x), y >> 1) == 0;
    }
  }

  lemma XtimeAdd(a: byte, b: byte)
    ensures Xtime(Add(a, b)) == Add(Xtime(a), Xtime(b))
  {
    var a', b', c' := a & 0x80 != 0, b & 0x80 != 0, (a ^ b) & 0x80 != 0;
    assert c' == (a' != b');
    assert (a ^ b) << 1 == (a << 1) ^ (b << 1);
  }

  lemma LowTermAddLeft(a: byte, b: byte, y: byte)
    ensures LowTerm(Add(a, b), y) == Add(LowTerm(a, y), LowTerm(b, y))
  {
  }

  lemma LowTermAddRight(x: byte, a: byte, b: byte)
    ensures LowTerm(x, Add(a, b)) == Add(LowTerm(x, a), LowTerm(x, b))
  {
  }

  lemma Halves(a: byte, b: byte)
    ensures Add(a, b) >> 1 == Add(a >> 1, b >> 1)
    ensures a | b != 0 ==> (a >> 1) | (b >> 1) < a | b
    ensures a != 0 ==> a >> 1 < a
  {
  }

  lemma {:induction false} MulAddLeft(a: byte, b: byte, y: byte)
    ensures Mul(Add(a, b), y) == Add(Mul(a, y), Mul(b, y))
    decreases y
  {
    if y == 0 {
      AddZero(0);
    } else {
      MulAddLeft(Xtime(a), Xtime(b), y >> 1);
      MulAddLeftStep(a, b, y, y >> 1);
    }
  }

  lemma MulAddLeftStep(a: byte, b: byte, y: byte, h: byte)
    requires h == y >> 1
    requires Mul(Add(Xtime(a), Xtime(b)), h) == Add(Mul(Xtime(a), h), Mul(Xtime(b), h))
    ensures Mul(Add(a, b), y) == Add(Mul(a, y), Mul(b, y))
  {
    hide Mul, Add, Xtime, LowTerm;
    MulUnfold(a, y);
    MulUnfold(b, y);
    MulUnfold(Add(a, b), y);
    XtimeAdd(a, b);
    LowTermAddLeft(a, b, y);
    AddInterchange(LowTerm(a, y), LowTerm(b, y), Mul(Xtime(a), h), Mul(Xtime(b), h));
  }

  lemma {:induction false} MulAddRight(x: byte, a: byte, b: byte)
    ensures Mul(x, Add(a, b)) == Add(Mul(x, a), Mul(x, b))
    decreases a | b
  {
    if a | b == 0 {
      assert a == 0 && b == 0;
      AddZero(0);
    } else {
      Halves(a, b);
      MulAddRight(Xtime(x), a >> 1, b >> 1);
      MulAddRightStep(x, a, b, a >> 1, b >> 1);
    }
  }

  lemma MulAddRightStep(x: byte, a: byte, b: byte, ha: byte, hb: byte)
    requires ha == a >> 1 && hb == b >> 1
    requires Mul(Xtime(x), Add(ha, hb)) == Add(Mul(Xtime(x), ha), Mul(Xtime(x), hb))
    ensures Mul(x, Add(a, b)) == Add(Mul(x, a), Mul(x, b))
  {
    hide Mul, Add, Xtime, LowTerm;
    MulUnfold(x, a);
    MulUnfold(x, b);
    MulUnfold(x, Add(a, b));
    Halves(a, b);
    LowTermAddRight(x, a, b);
    AddInterchange(LowTerm(x, a), LowTerm(x, b), Mul(Xtime(x), ha), Mul(Xtime(x), hb));
  }

  lemma {:induction false} MulZeroLeft(y: byte)
    ensures Mul(0, y) == 0
    decreases y
  {
    if y != 0 {
      Halves(y, y);
      MulZeroLeft(y >> 1);
    }
  }

  lemma MulOne(x: byte)
    ensures Mul(x, 1) == x
  {
  }

  lemma {:induction false} MulXtimeLeft(x: byte, y: byte)
    ensures Mul(Xtime(x), y) == Xtime(Mul(x, y))
    decreases y
  {
    if y != 0 {
      Halves(y, y);
      MulXtimeLeft(Xtime(x), y >> 1);
      MulXtimeLeftStep(x, y, y >> 1);
    }
  }

  lemma MulXtimeLeftStep(x: byte, y: byte, h: byte)
    requires h == y >> 1 && Mul(Xtime(Xtime(x)), h) == Xtime(Mul(Xtime(x), h))
    ensures Mul(Xtime(x), y) == Xtime(Mul(x, y))
  {
    assert LowTerm(Xtime(x), y) == Xtime(LowTerm(x, y));
    hide Mul, Add, Xtime, LowTerm;
    MulUnfold(x, y);
    MulUnfold(Xtime(x), y);
    XtimeAdd(LowTerm(x, y), Mul(Xtime(x), h));
  }

  /** Multiplying by a single power of two. */
  lemma {:induction false} MulShift(x: byte, y: byte)
    requires y & 0x80 == 0
    ensures Mul(x, y << 1) == Mul(Xtime(x), y)
  {
    assert (y << 1) >> 1 == y;
    assert LowTerm(x, y << 1) == 0;
    hide Mul, Add, Xtime, LowTerm;
    MulUnfold(x, y << 1);
    AddZero(Mul(Xtime(x), y));
  }

  lemma XtimeEight(x: byte)
    ensures Xtime(Xtime(Xtime(Xtime(Xtime(Xtime(Xtime(Xtime(x))))))))
         == Add(x, Add(Xtime(x), Add(Xtime(Xtime(Xtime(x))), Xtime(Xtime(Xtime(Xtime(x)))))))
  {
  }

  lemma MulSingleBits(x: byte)
    ensures Mul(x, 2) == Xtime(x)
    ensures Mul(x, 8) == Xtime(Xtime(Xtime(x)))
    ensures Mul(x, 16) == Xtime(Xtime(Xtime(Xtime(x))))
    ensures Mul(x, 0x80) == Xtime(Xtime(Xtime(Xtime(Xtime(Xtime(Xtime(x)))))))
  {
    hide Mul, Add, Xtime, LowTerm;
    var x1 := Xtime(x);
    var x2 := Xtime(x1);
    var x3 := Xtime(x2);
    var x4 := Xtime(x3);
    var x5 := Xtime(x4);
    var x6 := Xtime(x5);
    MulShift(x, 1);
    MulOne(x1);
    MulShift(x, 4);
    MulShift(x1, 2);
    MulShift(x2, 1);
    MulOne(x3);
    MulShift(x, 8);
    MulShift(x1, 4);
    MulShift(x2, 2);
    MulShift(x3, 1);
    MulOne(x4);
    MulShift(x, 64);
    MulShift(x1, 32);
    MulShift(x2, 16);
    MulShift(x3, 8);
    MulShift(x4, 4);
    MulShift(x5, 2);
    MulShift(x6, 1);
    MulOne(Xtime(x6));
  }

  /** The reduction polynomial: x^8 is x^4 + x^3 + x + 1. */
  lemma MulReduction(x: byte)
    ensures Mul(x, 0x1b) == Xtime(Mul(x, 0x80))
  {
    assert Add(1, Add(2, Add(8, 16))) == 0x1b;
    XtimeEight(x);
    hide Mul, Add, Xtime;
    MulSingleBits(x);
    MulAddRight(x, 1, Add(2, Add(8, 16)));
    MulAddRight(x, 2, Add(8, 16));
    MulAddRight(x, 8, 16);
    MulOne(x);
  }

  lemma MulXtimeRight(x: byte, y: byte)
    ensures Mul(x, Xtime(y)) == Xtime(Mul(x, y))
  {
    var low, high := y & 0x7f, y & 0x80;
    assert y == Add(low, high) && low & 0x80 == 0;
    assert Xtime(y) == Add(low << 1, if high == 0 then 0 else 0x1b);
    assert high == 0 || high == 0x80;
    assert Xtime(0) == 0;
    hide Mul, Add, Xtime;
    MulAddRight(x, low, high);
    XtimeAdd(Mul(x, low), Mul(x, high));
    MulShift(x, low);
    MulXtimeLeft(x, low);
    MulAddRight(x, low << 1, if high == 0 then 0 else 0x1b);
    MulReduction(x);
    MulZeroRight(x);
  }

  lemma MulZeroRight(x: byte)
    ensures Mul(x, 0) == 0
  {
  }

  lemma MulTimes3(x: byte, y: byte)
    ensures Mul(x, Times3(y)) == Times3(Mul(x, y))
  {
    hide Mul, Add, Xtime;
    MulAddRight(x, Xtime(y), y);
    MulXtimeRight(x, y);
  }

  lemma {:induction false} MulPow3(x: byte, k: nat, y: byte)
    ensures Mul(x, Pow3(k, y)) == Pow3(k, Mul(x, y))
  {
    hide Mul, Times3;
    if k > 0 {
      MulPow3(x, k - 1, y);
      MulTimes3(x, Pow3(k - 1, y));
    }
  }

  lemma {:induction false} Pow3Add(k: nat, l: nat, x: byte)
    ensures Pow3(k + l, x) == Pow3(k, Pow3(l, x))
  {
    hide Times3;
    if k > 0 {
      Pow3Add(k - 1, l, x);
    }
  }

  // ---------------------------------------------------------------------------------------------
  // The tables implement polynomial multiplication

  /** The antilogarithm table holds the powers of 3. */
  lemma {:induction false} AntilogIsPower(i: nat)
    requires i <= 510
    ensures FFantilog(i) == Pow3(i, 1)
  {
    hide FFantilog, Times3;
    if i == 0 {
      AntilogStart();
    } else {
      AntilogIsPower(i - 1);
      AntilogStep(i - 1);
    }
  }

  /** A nonzero byte is the power of 3 its logarithm names, so multiplying by it is repeated tripling. */
  lemma MulIsTripling(x: byte, y: byte)
    requires y != 0
    ensures XFFlog(y) <= 254 && Mul(x, y) == Pow3(XFFlog(y), x)
  {
    hide XFFlog, FFantilog, Mul, Pow3;
    AntilogOfLog(y);
    AntilogIsPower(XFFlog(y));
    MulPow3(x, XFFlog(y), 1);
    MulOne(x);
  }

  /** Multiplication with one logarithm looked up in advance is multiplication in the field. */
  lemma FastFFmultIsMul(x: byte, y: byte)
    requires y != 0
    ensures XFFlog(y) <= 254 && FastFFmult(x, XFFlog(y)) == Mul(x, y)
  {
    hide XFFlog, FFantilog, Mul, Pow3;
    LogBound(y);
    if x == 0 {
      MulZeroLeft(y);
    } else {
      AntilogOfLog(x);
      AntilogIsPower(XFFlog(x));
      MulIsTripling(x, y);
      Pow3Add(XFFlog(y), XFFlog(x), 1);
      AntilogIsPower(XFFlog(x) + XFFlog(y));
    }
  }

  /** Table multiplication is polynomial multiplication, for every pair of bytes. */
  lemma FFmultIsMul(x: byte, y: byte)
    ensures FFmult(x, y) == Mul(x, y)
  {
    hide XFFlog, FFantilog, Mul;
    if y == 0 {
      MulZeroRight(x);
    } else {
      FastFFmultIsMul(x, y);
    }
  }

  // ---------------------------------------------------------------------------------------------
  // The laws of a field

  lemma MulCommutes(x: byte, y: byte)
    ensures Mul(x, y) == Mul(y, x)
  {
    hide XFFlog, FFantilog, Mul;
    FFmultIsMul(x, y);
    FFmultIsMul(y, x);
  }

  lemma MulAssociates(x: byte, y: byte, z: byte)
    ensures Mul(Mul(x, y), z) == Mul(x, Mul(y, z))
  {
    hide XFFlog, Mul, Pow3;
    if z == 0 {
      MulZeroRight(x);
      MulZeroRight(y);
      MulZeroRight(Mul(x, y));
    } else {
      MulIsTripling(Mul(x, y), z);
      MulIsTripling(y, z);
      MulPow3(x, XFFlog(z), y);
    }
  }

  /** The antilogarithms repeat with period 255. */
  lemma AntilogPeriod()
    ensures FFantilog(255) == 1
  {
  }

  /** The inverse table holds multiplicative inverses. */
  lemma MulInverse(x: byte)
    requires x != 0
    ensures InvVec(x) != 0 && Mul(InvVec(x), x) == 1
  {
    hide XFFlog, FFantilog, InvVec, Mul;
    LogOfInverse(x);
    FFmultIsMul(InvVec(x), x);
    LogBound(x);
    AntilogStart();
    AntilogPeriod();
  }

  lemma InverseOfOne()
    ensures InvVec(1) == 1
  {
    hide InvVec, Mul;
    MulInverse(1);
    MulCommutes(1, InvVec(1));
    MulOne(InvVec(1));
  }

  lemma MulNonzero(x: byte, y: byte)
    requires x != 0 && y != 0
    ensures Mul(x, y) != 0
  {
    hide InvVec, Mul;
    var i := InvVec(x);
    MulInverse(x);
    MulAssociates(i, x, y);
    MulCommutes(1, y);
    MulOne(y);
    MulZeroRight(i);
  }
}
