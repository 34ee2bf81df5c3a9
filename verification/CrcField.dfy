// Arithmetic modulo the CRC polynomial (deps/zlib/crc32.c:148-187): polynomials over GF(2)
// in reflected order, so that adding is exclusive or and multiplying by x shifts right.

module CrcField {

  // A polynomial of degree below 32: the coefficient of x^i is bit 31 - i.
  datatype Poly = Poly(v: bv32)

  const POLY := Poly(0xedb8_8320) // p(x), x^32 implied
  const ZERO := Poly(0)
  const ONE := Poly(0x8000_0000)

  function Xor(a: bv32, b: bv32): bv32 { a ^ b }

  function Add(a: Poly, b: Poly): Poly { Poly(Xor(a.v, b.v)) }

  function Half(a: Poly): Poly { Poly(a.v >> 1) }

  // The coefficient of x^31.
  function Odd(a: Poly): bool { a.v & 1 == 1 }

  // Multiplication by x modulo p(x).
  function X(b: Poly): Poly {
    if Odd(b) then Add(Half(b), POLY) else Half(b)
  }

  // Multiplication by x^n.
  function Xn(b: Poly, n: nat): Poly {
    if n == 0 then b else X(Xn(b, n - 1))
  }

  // x^n modulo p(x).
  function Power(n: nat): Poly { Xn(ONE, n) }

  function If(c: bool, b: Poly): Poly { if c then b else ZERO }

  // The coefficient of x^0.
  function Top(a: Poly): bool { a.v & 0x8000_0000 != 0 }

  // a without it, divided by x.
  function Rest(a: Poly): Poly { Poly(a.v << 1) }

  // The first n coefficients of a times b.
  function MulFirst(a: Poly, b: Poly, n: nat): Poly
    decreases n
  {
    if n == 0 then ZERO else Add(If(Top(a), b), MulFirst(Rest(a), X(b), n - 1))
  }

  // The product modulo p(x).
  function Mul(a: Poly, b: Poly): Poly { MulFirst(a, b, 32) }

  // ------------------------------------------------------------ adding

  lemma AddZero(a: Poly)
    ensures Add(a, ZERO) == a && Add(ZERO, a) == a && Add(a, a) == ZERO
  {}

  lemma AddAssoc(a: Poly, b: Poly, c: Poly)
    ensures Add(Add(a, b), c) == Add(a, Add(b, c)) && Add(a, b) == Add(b, a)
  {}

  lemma Regroup(a: Poly, b: Poly, c: Poly, d: Poly)
    ensures Add(Add(a, b), Add(c, d)) == Add(Add(a, c), Add(b, d))
  {}

  lemma IfAdd(c: bool, a: Poly, b: Poly)
    ensures If(c, Add(a, b)) == Add(If(c, a), If(c, b))
  {
    AddZero(ZERO);
  }

  // ------------------------------------------------------------ linearity

  lemma HalfAdd(a: Poly, b: Poly)
    ensures Half(Add(a, b)) == Add(Half(a), Half(b))
  {}

  lemma OddXor(a: bv32, b: bv32)
    ensures (a & 1 == 1 && b & 1 == 1) || (a & 1 == 0 && b & 1 == 0) ==> (a ^ b) & 1 == 0
    ensures (a & 1 == 1 && b & 1 == 0) || (a & 1 == 0 && b & 1 == 1) ==> (a ^ b) & 1 == 1
    ensures a & 1 == 0 || a & 1 == 1
    ensures b & 1 == 0 || b & 1 == 1
  {}

  lemma OddAdd(a: Poly, b: Poly)
    ensures Odd(Add(a, b)) == (Odd(a) != Odd(b))
  {
    OddXor(a.v, b.v);
  }

  lemma XAdd(a: Poly, b: Poly)
    ensures X(Add(a, b)) == Add(X(a), X(b))
  {
    hide Add, Half, Odd;
    HalfAdd(a, b);
    OddAdd(a, b);
    Regroup(Half(a), POLY, Half(b), POLY);
    AddZero(POLY);
    AddZero(Add(Half(a), Half(b)));
    AddAssoc(Half(a), POLY, Half(b));
    AddAssoc(Half(a), Half(b), POLY);
    AddAssoc(POLY, Half(b), ZERO);
  }

  lemma XZero()
    ensures X(ZERO) == ZERO
  {}

  lemma XNonzero(a: Poly)
    requires a != ZERO
    ensures X(a) != ZERO
  {}

  lemma XIf(c: bool, b: Poly)
    ensures X(If(c, b)) == If(c, X(b))
  {
    XZero();
  }

  lemma {:induction false} XnAdds(a: Poly, b: Poly, n: nat)
    ensures Xn(Add(a, b), n) == Add(Xn(a, n), Xn(b, n))
  {
    hide X, Add;
    if n > 0 {
      XnAdds(a, b, n - 1);
      XAdd(Xn(a, n - 1), Xn(b, n - 1));
    }
  }

  lemma {:induction false} XnZero(n: nat)
    ensures Xn(ZERO, n) == ZERO
  {
    hide X;
    XZero();
    if n > 0 { XnZero(n - 1); }
  }

  lemma {:induction false} XnNonzero(a: Poly, n: nat)
    requires a != ZERO
    ensures Xn(a, n) != ZERO
  {
    hide X;
    if n > 0 {
      XnNonzero(a, n - 1);
      XNonzero(Xn(a, n - 1));
    }
  }

  lemma {:induction false} XnPlus(a: Poly, m: nat, n: nat)
    ensures Xn(Xn(a, m), n) == Xn(a, m + n)
  {
    hide X;
    if n > 0 { XnPlus(a, m, n - 1); }
  }

  // In the second factor.
  lemma {:induction false} MulAdds(a: Poly, b: Poly, c: Poly, n: nat)
    ensures MulFirst(a, Add(b, c), n) == Add(MulFirst(a, b, n), MulFirst(a, c, n))
    decreases n
  {
    hide X, If, Top, Rest, Add;
    if n == 0 {
      AddZero(ZERO);
    } else {
      XAdd(b, c);
      MulAdds(Rest(a), X(b), X(c), n - 1);
      IfAdd(Top(a), b, c);
      Regroup(If(Top(a), b), If(Top(a), c), MulFirst(Rest(a), X(b), n - 1), MulFirst(Rest(a), X(c), n - 1));
    }
  }

  lemma {:induction false} MulX(a: Poly, b: Poly, n: nat)
    ensures MulFirst(a, X(b), n) == X(MulFirst(a, b, n))
    decreases n
  {
    hide X, If, Top, Rest, Add;
    XZero();
    if n > 0 {
      MulX(Rest(a), X(b), n - 1);
      XIf(Top(a), b);
      XAdd(If(Top(a), b), MulFirst(Rest(a), X(b), n - 1));
    }
  }

  lemma {:induction false} MulXn(a: Poly, b: Poly, k: nat)
    ensures Mul(a, Xn(b, k)) == Xn(Mul(a, b), k)
  {
    hide X, MulFirst;
    if k > 0 {
      MulXn(a, b, k - 1);
      MulX(a, Xn(b, k - 1), 32);
    }
  }

  lemma {:induction false} MulByZero(a: Poly, n: nat)
    ensures MulFirst(a, ZERO, n) == ZERO
    decreases n
  {
    hide X, Add, Top, Rest;
    XZero();
    AddZero(ZERO);
    if n > 0 { MulByZero(Rest(a), n - 1); }
  }

  lemma {:induction false} MulOfZero(b: Poly, n: nat)
    ensures MulFirst(ZERO, b, n) == ZERO
    decreases n
  {
    AddZero(ZERO);
    assert Rest(ZERO) == ZERO && !Top(ZERO);
    hide X, Add;
    if n > 0 { MulOfZero(X(b), n - 1); }
  }

  lemma MulIf(a: Poly, c: bool, b: Poly)
    ensures Mul(a, If(c, b)) == If(c, Mul(a, b))
  {
    MulByZero(a, 32);
  }

  // Multiplying by a goes through a product by b.
  lemma {:induction false} MulMul(a: Poly, b: Poly, c: Poly, n: nat)
    ensures Mul(a, MulFirst(b, c, n)) == MulFirst(b, Mul(a, c), n)
    decreases n
  {
    hide X, If, Top, Rest, Add;
    if n == 0 {
      MulByZero(a, 32);
    } else {
      MulAdds(a, If(Top(b), c), MulFirst(Rest(b), X(c), n - 1), 32);
      MulIf(a, Top(b), c);
      MulX(a, c, 32);
      MulMul(a, Rest(b), X(c), n - 1);
    }
  }

  // ------------------------------------------------------------ one

  function Shr(a: Poly, k: nat): Poly {
    if k == 0 then a else Half(Shr(a, k - 1))
  }

  lemma {:induction false} ShrAdd(a: Poly, b: Poly, k: nat)
    ensures Shr(Add(a, b), k) == Add(Shr(a, k), Shr(b, k))
  {
    hide Half, Add;
    if k > 0 {
      ShrAdd(a, b, k - 1);
      HalfAdd(Shr(a, k - 1), Shr(b, k - 1));
    }
  }

  lemma {:induction false} ShrZero(k: nat)
    ensures Shr(ZERO, k) == ZERO
  {
    if k > 0 { ShrZero(k - 1); }
  }

  lemma {:induction false} ShrHalf(a: Poly, k: nat)
    ensures Shr(Half(a), k) == Shr(a, k + 1)
  {
    hide Half;
    if k > 0 { ShrHalf(a, k - 1); }
  }

  // The low n bits are 0.
  predicate LowClear(a: Poly, n: nat)
    decreases n
  {
    n == 0 || (!Odd(a) && LowClear(Half(a), n - 1))
  }

  lemma {:induction false} ClearEven(a: Poly, n: nat, k: nat)
    requires LowClear(a, n) && k < n
    ensures !Odd(Shr(a, k))
    decreases k
  {
    hide Odd, Half;
    if k > 0 {
      ClearEven(Half(a), n - 1, k - 1);
      ShrHalf(a, k - 1);
    }
  }

  // The masks of the coefficients: one bit, moving down.
  lemma OneClear()
    ensures LowClear(ONE, 31)
  {
    assert LowClear(Poly(0x2), 1);
    assert LowClear(Poly(0x4), 2);
    assert LowClear(Poly(0x8), 3);
    assert LowClear(Poly(0x10), 4);
    assert LowClear(Poly(0x20), 5);
    assert LowClear(Poly(0x40), 6);
    assert LowClear(Poly(0x80), 7);
    assert LowClear(Poly(0x100), 8);
    assert LowClear(Poly(0x200), 9);
    assert LowClear(Poly(0x400), 10);
    assert LowClear(Poly(0x800), 11);
    assert LowClear(Poly(0x1000), 12);
    assert LowClear(Poly(0x2000), 13);
    assert LowClear(Poly(0x4000), 14);
    assert LowClear(Poly(0x8000), 15);
    assert LowClear(Poly(0x10000), 16);
    assert LowClear(Poly(0x20000), 17);
    assert LowClear(Poly(0x40000), 18);
    assert LowClear(Poly(0x80000), 19);
    assert LowClear(Poly(0x100000), 20);
    assert LowClear(Poly(0x200000), 21);
    assert LowClear(Poly(0x400000), 22);
    assert LowClear(Poly(0x800000), 23);
    assert LowClear(Poly(0x1000000), 24);
    assert LowClear(Poly(0x2000000), 25);
    assert LowClear(Poly(0x4000000), 26);
    assert LowClear(Poly(0x8000000), 27);
    assert LowClear(Poly(0x10000000), 28);
    assert LowClear(Poly(0x20000000), 29);
    assert LowClear(Poly(0x40000000), 30);
  }

  lemma MaskX(k: nat)
    requires k < 31
    ensures X(Shr(ONE, k)) == Shr(ONE, k + 1)
  {
    OneClear();
    ClearEven(ONE, 31, k);
  }

  lemma Split(a: Poly)
    ensures a == Add(If(Top(a), ONE), Half(Rest(a)))
  {}

  // The coefficients of a, each at its mask, are a.
  lemma {:induction false} MulOneFrom(a: Poly, k: nat)
    requires k <= 31
    ensures MulFirst(a, Shr(ONE, k), 32 - k) == Shr(a, k)
    decreases 32 - k
  {
    hide Add, Half, Top, Rest, X;
    Split(a);
    ShrAdd(If(Top(a), ONE), Half(Rest(a)), k);
    ShrHalf(Rest(a), k);
    ShrIf(Top(a), k);
    if k < 31 {
      MulOneFrom(Rest(a), k + 1);
      MaskX(k);
    } else {
      ShrOut(Rest(a));
      assert MulFirst(Rest(a), X(Shr(ONE, 31)), 0) == ZERO;
    }
  }

  lemma ShrIf(c: bool, k: nat)
    ensures Shr(If(c, ONE), k) == If(c, Shr(ONE, k))
  {
    ShrZero(k);
  }

  predicate AtMost(a: Poly, b: Poly) { a.v <= b.v }

  lemma HalfOrder(a: Poly, b: Poly)
    requires AtMost(a, b)
    ensures AtMost(Half(a), Half(b))
  {}

  lemma {:induction false} ShrOrder(a: Poly, b: Poly, k: nat)
    requires AtMost(a, b)
    ensures AtMost(Shr(a, k), Shr(b, k))
  {
    hide AtMost, Half;
    if k > 0 {
      ShrOrder(a, b, k - 1);
      HalfOrder(Shr(a, k - 1), Shr(b, k - 1));
    }
  }

  lemma OnesOut()
    ensures Shr(Poly(0xffff_ffff), 32) == ZERO
  {
    assert Shr(Poly(0xffff_ffff), 8) == Poly(0xff_ffff);
    assert Shr(Poly(0xffff_ffff), 16) == Poly(0xffff);
    assert Shr(Poly(0xffff_ffff), 24) == Poly(0xff);
  }

  // Everything is shifted out.
  lemma ShrOut(a: Poly)
    ensures Shr(a, 32) == ZERO
  {
    hide Shr;
    ShrOrder(a, Poly(0xffff_ffff), 32);
    OnesOut();
  }

  function Quarter(a: Poly): Poly { Poly(a.v >> 2) }

  function Sixteenth(a: Poly): Poly { Poly(a.v >> 4) }

  lemma HalfHalf(a: Poly)
    ensures Half(Half(a)) == Quarter(a)
  {}

  lemma QuarterQuarter(a: Poly)
    ensures Quarter(Quarter(a)) == Sixteenth(a)
  {}

  lemma EightDown(a: bv32)
    ensures (a >> 4) >> 4 == a >> 8
  {}

  // a >> 8.
  function Down(a: Poly): Poly { Poly(a.v >> 8) }

  lemma FourTwice(a: Poly)
    ensures Sixteenth(Sixteenth(a)).v == (a.v >> 4) >> 4
  {}

  lemma FourTwiceBits(a: Poly)
    ensures Sixteenth(Sixteenth(a)).v == a.v >> 8
  {
    hide Sixteenth;
    EightDown(a.v);
    FourTwice(a);
  }

  lemma SixteenthTwice(a: Poly)
    ensures Sixteenth(Sixteenth(a)) == Down(a)
  {
    hide Sixteenth;
    FourTwiceBits(a);
  }

  lemma ShrFour(a: Poly)
    ensures Shr(a, 4) == Sixteenth(a)
  {
    hide Half, Quarter, Sixteenth;
    HalfHalf(a);
    HalfHalf(Quarter(a));
    QuarterQuarter(a);
    assert Shr(a, 1) == Half(a);
    assert Shr(a, 2) == Half(Half(a));
    assert Shr(a, 3) == Half(Half(Half(a)));
  }

  lemma ShrEight(a: Poly)
    ensures Shr(a, 8) == Down(a)
  {
    hide Shr, Sixteenth, Down;
    ShrFour(a);
    ShrFour(Sixteenth(a));
    ShrPlus(a, 4, 4);
    SixteenthTwice(a);
  }

  lemma {:induction false} ShrPlus(a: Poly, m: nat, n: nat)
    ensures Shr(Shr(a, m), n) == Shr(a, m + n)
  {
    hide Half;
    if n > 0 { ShrPlus(a, m, n - 1); }
  }

  lemma MulOne(a: Poly)
    ensures Mul(a, ONE) == a
  {
    MulOneFrom(a, 0);
  }

  // ------------------------------------------------------------ the ring

  lemma MulCommutes(a: Poly, b: Poly)
    ensures Mul(a, b) == Mul(b, a)
  {
    hide MulFirst;
    MulOne(a);
    MulOne(b);
    MulMul(a, b, ONE, 32);
  }

  lemma MulAssociates(a: Poly, b: Poly, c: Poly)
    ensures Mul(Mul(a, b), c) == Mul(a, Mul(b, c))
  {
    hide Mul;
    MulCommutes(Mul(a, b), c);
    MulThrough(c, a, b);
    MulCommutes(c, b);
  }

  lemma MulThrough(a: Poly, b: Poly, c: Poly)
    ensures Mul(a, Mul(b, c)) == Mul(b, Mul(a, c))
  {
    MulMul(a, b, c, 32);
  }

  // Multiplying by x^n is multiplying by x^n mod p.
  lemma XnIsMul(b: Poly, n: nat)
    ensures Xn(b, n) == Mul(Power(n), b)
  {
    hide MulFirst, X;
    MulOne(b);
    MulXn(b, ONE, n);
    MulCommutes(b, Power(n));
  }

  lemma PowerAdd(m: nat, n: nat)
    ensures Power(m + n) == Mul(Power(m), Power(n))
  {
    hide MulFirst, X;
    XnPlus(ONE, n, m);
    XnIsMul(Power(n), m);
  }

  lemma PowerNonzero(n: nat)
    ensures Power(n) != ZERO
  {
    XnNonzero(ONE, n);
  }
}
