// multmodp and x2nmodp (deps/zlib/crc32.c:148-187): a product with an early exit, and
// powers of x from a table of repeated squares. Raising to the power 2^32 gives x back, which
// is why the table can be used around.

module CrcProduct {
  import opened Powers
  import opened CrcField

  // ------------------------------------------------------------ multmodp

  predicate Meets(a: Poly, m: Poly) { a.v & m.v != 0 }

  // m - 1: with m a single bit, all the bits below it.
  function Below(m: Poly): Poly { Poly(m.v - 1) }

  // a shifted left k places: its first k coefficients are used up.
  function Shl(a: Poly, k: nat): Poly
    decreases k
  {
    if k == 0 then a else Shl(Rest(a), k - 1)
  }

  lemma {:induction false} ShlNext(a: Poly, k: nat)
    ensures Shl(a, k + 1) == Rest(Shl(a, k))
    decreases k
  {
    hide Rest;
    if k > 0 { ShlNext(Rest(a), k - 1); }
  }

  lemma MeetsNext(a: Poly, m: Poly)
    ensures Meets(a, Half(m)) == Meets(Rest(a), m)
  {}

  // Moving a mask down is moving the polynomial up.
  lemma {:induction false} MeetsShifted(a: Poly, b: Poly, k: nat)
    ensures Meets(a, Shr(b, k)) == Meets(Shl(a, k), b)
    decreases k
  {
    hide Rest, Half, Meets;
    if k > 0 {
      MeetsNext(a, Shr(b, k - 1));
      MeetsShifted(Rest(a), b, k - 1);
    }
  }

  lemma MeetsTop(a: Poly)
    ensures Meets(a, ONE) == Top(a)
  {}

  lemma BelowTop(a: Poly)
    ensures Meets(a, Below(ONE)) == (Rest(a) != ZERO)
  {}

  // The mask picks out the coefficient that comes next.
  lemma MeetsAt(a: Poly, k: nat)
    ensures Meets(a, Shr(ONE, k)) == Top(Shl(a, k))
  {
    hide Meets, Top, Shl, Shr;
    MeetsShifted(a, ONE, k);
    MeetsTop(Shl(a, k));
  }

  lemma EvenLess(m: bv32)
    requires m & 1 != 1 && m != 0
    ensures (m >> 1) - 1 == (m - 1) >> 1
  {}

  lemma BelowHalf(m: Poly)
    requires !Odd(m) && m != ZERO
    ensures Below(Half(m)) == Half(Below(m))
  {
    hide Half, Below, Odd;
    OddNot(m);
    BelowOfHalf(m);
    HalfOfBelow(m);
    EvenLess(m.v);
  }

  lemma OddNot(m: Poly)
    requires !Odd(m) && m != ZERO
    ensures m.v & 1 != 1 && m.v != 0
  {}

  lemma BelowOfHalf(m: Poly)
    ensures Below(Half(m)).v == (m.v >> 1) - 1
  {}

  lemma HalfOfBelow(m: Poly)
    ensures Half(Below(m)).v == (m.v - 1) >> 1
  {}

  lemma MaskEven(k: nat)
    requires k < 31
    ensures !Odd(Shr(ONE, k))
  {
    hide Odd;
    OneClear();
    ClearEven(ONE, 31, k);
  }

  lemma {:induction false} MaskPower(k: nat)
    requires k <= 31
    ensures Shr(ONE, k) == Power(k) && Shr(ONE, k) != ZERO
  {
    hide X, Half;
    if k > 0 {
      MaskPower(k - 1);
      MaskX(k - 1);
    }
    PowerNonzero(k);
  }

  lemma {:induction false} BelowMask(k: nat)
    requires k <= 31
    ensures Below(Shr(ONE, k)) == Shr(Below(ONE), k)
  {
    hide Half, Below, Odd;
    if k > 0 {
      BelowMask(k - 1);
      MaskEven(k - 1);
      MaskPower(k - 1);
      BelowHalf(Shr(ONE, k - 1));
    }
  }

  // The bits below the mask are what is left after the next coefficient.
  lemma BelowAt(a: Poly, k: nat)
    requires k <= 31
    ensures Meets(a, Below(Shr(ONE, k))) == (Rest(Shl(a, k)) != ZERO)
  {
    hide Rest, Meets, Below, Shl, Shr;
    BelowMask(k);
    MeetsShifted(a, Below(ONE), k);
    BelowTop(Shl(a, k));
  }

  lemma LastMask(a: Poly)
    ensures Rest(Shl(a, 31)) == ZERO
  {
    hide Rest, Meets, Shl;
    BelowAt(a, 31);
    LastBelow(a);
  }

  lemma LastBelow(a: Poly)
    ensures !Meets(a, Below(Shr(ONE, 31)))
  {
    assert Shr(ONE, 8) == Poly(0x80_0000);
    assert Shr(ONE, 16) == Poly(0x8000);
    assert Shr(ONE, 24) == Poly(0x80);
    assert Shr(ONE, 31) == Poly(1);
  }

  lemma RestOfZero(a: Poly)
    requires a != ZERO && Rest(a) == ZERO
    ensures Top(a)
  {}

  // The terms so far, and those to come.
  ghost predicate SoFar(p: Poly, a: Poly, b: Poly, k: nat)
    requires k <= 32
  {
    Add(p, MulFirst(Shl(a, k), Xn(b, k), 32 - k)) == Mul(a, b)
  }

  lemma TermAdded(p: Poly, a: Poly, b: Poly, k: nat)
    requires k <= 31 && SoFar(p, a, b, k)
    ensures SoFar(Add(p, If(Top(Shl(a, k)), Xn(b, k))), a, b, k + 1)
  {
    hide Add, X, If, Top, Rest, Mul;
    ShlNext(a, k);
    AddAssoc(p, If(Top(Shl(a, k)), Xn(b, k)), MulFirst(Shl(a, k + 1), Xn(b, k + 1), 31 - k));
  }

  // No coefficient is left, so no term is.
  lemma NoneLeft(p: Poly, a: Poly, b: Poly, k: nat)
    requires k <= 32 && SoFar(p, a, b, k) && Shl(a, k) == ZERO
    ensures p == Mul(a, b)
  {
    hide Add, X, MulFirst, Shl;
    MulOfZero(Xn(b, k), 32 - k);
    AddZero(p);
  }

  lemma FirstTerm(a: Poly, b: Poly)
    ensures SoFar(ZERO, a, b, 0)
  {
    hide Add;
    AddZero(Mul(a, b));
  }

  method MultModP(a: Poly, b: Poly) returns (p: Poly)
    requires a != ZERO
    ensures p == Mul(a, b)
  {
    hide Mul, Meets, Below, Half, X, Shl, Shr, Top, Add, Rest, SoFar;
    var m, b' := ONE, b;
    p := ZERO;
    ghost var k := 0;
    FirstTerm(a, b);
    Starts(a, b);
    while true
      invariant k <= 31
      invariant m == Shr(ONE, k) && b' == Xn(b, k)
      invariant Shl(a, k) != ZERO
      invariant SoFar(p, a, b, k)
      decreases 31 - k
    {
      MeetsAt(a, k);
      BelowAt(a, k);
      TermAdded(p, a, b, k);
      AddZero(p);
      ShlNext(a, k);
      if Meets(a, m) {
        p := Add(p, b');
        if !Meets(a, Below(m)) {
          NoneLeft(p, a, b, k + 1);
          break;
        }
      }
      if k == 31 {
        LastMask(a);
        RestOfZero(Shl(a, k));
      } else if !Top(Shl(a, k)) {
        StillSome(Shl(a, k));
      }
      NextMask(k);
      m := Half(m);
      b' := X(b');
      k := k + 1;
    }
  }

  lemma Starts(a: Poly, b: Poly)
    ensures Shl(a, 0) == a && Shr(b, 0) == b && Shr(ONE, 0) == ONE && Xn(b, 0) == b
  {}

  lemma StillSome(a: Poly)
    requires a != ZERO && !Top(a)
    ensures Rest(a) != ZERO
  {}

  lemma NextMask(k: nat)
    ensures Shr(ONE, k + 1) == Half(Shr(ONE, k))
  {}

  // ------------------------------------------------------------ squares

  function Square(a: Poly): Poly { Mul(a, a) }

  lemma SquareAdd(a: Poly, b: Poly)
    ensures Square(Add(a, b)) == Add(Square(a), Square(b))
  {
    hide MulFirst, Add;
    MulAdds(Add(a, b), a, b, 32);
    MulCommutes(Add(a, b), a);
    MulCommutes(Add(a, b), b);
    MulAdds(a, a, b, 32);
    MulAdds(b, a, b, 32);
    MulCommutes(a, b);
    Regroup(Mul(a, a), Mul(a, b), Mul(a, b), Mul(b, b));
    AddZero(Mul(a, b));
    CrossTerms(Mul(a, a), Mul(a, b), Mul(b, b));
  }

  lemma CrossTerms(a: Poly, c: Poly, b: Poly)
    ensures Add(Add(a, c), Add(c, b)) == Add(a, b)
  {
    hide Add;
    AddAssoc(a, c, Add(c, b));
    AddAssoc(c, c, b);
    AddZero(c);
    AddZero(b);
  }

  lemma SquareIf(c: bool, b: Poly)
    ensures Square(If(c, b)) == If(c, Square(b))
  {
    MulOfZero(ZERO, 32);
  }

  lemma SquarePower(n: nat)
    ensures Square(Power(n)) == Power(2 * n)
  {
    hide Mul, Power;
    PowerAdd(n, n);
  }

  // The squares of the terms of a: each coefficient moves to twice its place.
  function Spread(a: Poly, b: Poly, n: nat): Poly
    decreases n
  {
    if n == 0 then ZERO else Add(If(Top(a), b), Spread(Rest(a), X(X(b)), n - 1))
  }

  lemma PowerTwoMore(k: nat)
    ensures X(X(Power(2 * k))) == Power(2 * (k + 1))
  {
    hide X;
    assert Xn(ONE, 2 * k + 1) == X(Xn(ONE, 2 * k));
  }

  // Squaring is adding up the squares of the terms.
  lemma {:induction false} SquareSpreads(a: Poly, k: nat)
    requires k <= 32
    ensures Square(Shr(a, k)) == Spread(a, Power(2 * k), 32 - k)
    decreases 32 - k
  {
    hide Add, Half, Top, Rest, X, Square, If;
    if k == 32 {
      ShrOut(a);
      SquareIf(false, ONE);
      NoTerm(Square(ONE));
    } else {
      Split(a);
      ShrAdd(If(Top(a), ONE), Half(Rest(a)), k);
      ShrHalf(Rest(a), k);
      ShrIf(Top(a), k);
      MaskPower(k);
      SquareAdd(If(Top(a), Shr(ONE, k)), Shr(Rest(a), k + 1));
      SquareIf(Top(a), Shr(ONE, k));
      SquarePower(k);
      SquareSpreads(Rest(a), k + 1);
      PowerTwoMore(k);
    }
  }

  lemma NoTerm(b: Poly)
    ensures If(false, b) == ZERO && If(false, ONE) == ZERO
  {}

  // Eight terms of a square; c0 to c7 are eight even powers of x in a row.
  function Eight(a: Poly, c0: Poly, c1: Poly, c2: Poly, c3: Poly, c4: Poly, c5: Poly, c6: Poly, c7: Poly): Poly {
    Add(If(Meets(a, Poly(0x80000000)), c0),
    Add(If(Meets(a, Poly(0x40000000)), c1),
    Add(If(Meets(a, Poly(0x20000000)), c2),
    Add(If(Meets(a, Poly(0x10000000)), c3),
    Add(If(Meets(a, Poly(0x8000000)), c4),
    Add(If(Meets(a, Poly(0x4000000)), c5),
    Add(If(Meets(a, Poly(0x2000000)), c6),
    If(Meets(a, Poly(0x1000000)), c7))))))))
  }

  function UpEight(a: bv32): bv32 { a << 8 }

  function Byte(a: Poly): Poly { Poly(UpEight(a.v)) }

  function TwoUp(a: Poly): Poly { Poly(a.v << 2) }

  function FourUp(a: Poly): Poly { Poly(a.v << 4) }

  lemma RestRest(a: Poly)
    ensures Rest(Rest(a)) == TwoUp(a)
  {}

  lemma TwoUpTwice(a: Poly)
    ensures TwoUp(TwoUp(a)) == FourUp(a)
  {}

  lemma EightBits(a: bv32)
    ensures (a << 4) << 4 == a << 8
  {}

  lemma FourUpValue(a: Poly)
    ensures FourUp(FourUp(a)).v == (a.v << 4) << 4
  {}

  lemma FourUpBits(a: Poly)
    ensures FourUp(FourUp(a)).v == a.v << 8
  {
    hide FourUp;
    EightBits(a.v);
    FourUpValue(a);
  }

  lemma FourUpTwice(a: Poly)
    ensures FourUp(FourUp(a)) == Byte(a)
  {
    hide FourUp;
    FourUpBits(a);
  }

  lemma ShlFour(a: Poly)
    ensures Shl(a, 4) == FourUp(a)
  {
    hide Rest, TwoUp, FourUp;
    RestRest(a);
    RestRest(TwoUp(a));
    TwoUpTwice(a);
    assert Shl(Rest(Rest(Rest(Rest(a)))), 0) == Shl(Rest(Rest(Rest(a))), 1);
    assert Shl(Rest(Rest(a)), 2) == Shl(Rest(a), 3);
  }

  lemma {:induction false} ShlPlus(a: Poly, m: nat, n: nat)
    ensures Shl(Shl(a, m), n) == Shl(a, m + n)
    decreases m
  {
    hide Rest;
    if m > 0 { ShlPlus(Rest(a), m - 1, n); }
  }

  lemma ByteUp(a: Poly)
    ensures Shl(a, 8) == Byte(a)
  {
    hide Shl, FourUp;
    ShlFour(a);
    ShlFour(FourUp(a));
    ShlPlus(a, 4, 4);
    FourUpTwice(a);
  }

  lemma EightMasks()
    ensures Shr(ONE, 0) == Poly(0x80000000)
    ensures Shr(ONE, 1) == Poly(0x40000000)
    ensures Shr(ONE, 2) == Poly(0x20000000)
    ensures Shr(ONE, 3) == Poly(0x10000000)
    ensures Shr(ONE, 4) == Poly(0x8000000)
    ensures Shr(ONE, 5) == Poly(0x4000000)
    ensures Shr(ONE, 6) == Poly(0x2000000)
    ensures Shr(ONE, 7) == Poly(0x1000000)
  {}

  lemma OneTerm(a: Poly, b: Poly, k: nat, n: nat)
    requires n > 0
    ensures Spread(Shl(a, k), b, n) == Add(If(Meets(a, Shr(ONE, k)), b), Spread(Shl(a, k + 1), X(X(b)), n - 1))
  {
    hide Meets, Top, Rest, X, Add, If;
    MeetsAt(a, k);
    ShlNext(a, k);
  }

  // The square, term by term.
  function SquareTerms(a: Poly): Poly {
    Add(Eight(a, Poly(0x8000_0000), Poly(0x2000_0000), Poly(0x0800_0000), Poly(0x0200_0000),
              Poly(0x0080_0000), Poly(0x0020_0000), Poly(0x0008_0000), Poly(0x0002_0000)),
    Add(Eight(Byte(a), Poly(0x0000_8000), Poly(0x0000_2000), Poly(0x0000_0800), Poly(0x0000_0200),
              Poly(0x0000_0080), Poly(0x0000_0020), Poly(0x0000_0008), Poly(0x0000_0002)),
    Add(Eight(Byte(Byte(a)), Poly(0xedb8_8320), Poly(0x3b6e_20c8), Poly(0x0edb_8832), Poly(0xee0e_612c),
              Poly(0x3b83_984b), Poly(0x9584_24a2), Poly(0xc8d9_8a08), Poly(0x3236_6282)),
        Eight(Byte(Byte(Byte(a))), Poly(0xe135_1b80), Poly(0x384d_46e0), Poly(0x0e13_51b8), Poly(0x0384_d46e),
              Poly(0xed59_b63b), Poly(0xa032_af3e), Poly(0xc5b4_28ef), Poly(0xaa09_c88b)))))
  }

  predicate InARow(c0: Poly, c1: Poly, c2: Poly) {
    c1 == X(X(c0)) && c2 == X(X(c1))
  }

  lemma EightTerms(a: Poly, c0: Poly, c1: Poly, c2: Poly, c3: Poly, c4: Poly, c5: Poly, c6: Poly, c7: Poly, n: nat)
    requires n >= 8
    requires InARow(c0, c1, c2) && InARow(c2, c3, c4) && InARow(c4, c5, c6) && c7 == X(X(c6))
    ensures Spread(a, c0, n) == Add(Eight(a, c0, c1, c2, c3, c4, c5, c6, c7), Spread(Byte(a), X(X(c7)), n - 8))
  {
    hide Meets, Shl, X, Add, If, Byte, Shr, Spread;
    EightMasks();
    ByteUp(a);
    Starts(a, a);
    var s := Spread(Shl(a, 8), X(X(c7)), n - 8);
    OneTerm(a, c0, 0, n);
    OneTerm(a, c1, 1, n - 1);
    OneTerm(a, c2, 2, n - 2);
    OneTerm(a, c3, 3, n - 3);
    OneTerm(a, c4, 4, n - 4);
    OneTerm(a, c5, 5, n - 5);
    OneTerm(a, c6, 6, n - 6);
    OneTerm(a, c7, 7, n - 7);
    Collect(If(Meets(a, Poly(0x80000000)), c0), If(Meets(a, Poly(0x40000000)), c1), If(Meets(a, Poly(0x20000000)),
        c2), If(Meets(a, Poly(0x10000000)), c3), If(Meets(a, Poly(0x8000000)), c4), If(Meets(a, Poly(0x4000000)), c5),
        If(Meets(a, Poly(0x2000000)), c6), If(Meets(a, Poly(0x1000000)), c7), s);
  }

  lemma Collect(c0: Poly, c1: Poly, c2: Poly, c3: Poly, c4: Poly, c5: Poly, c6: Poly, c7: Poly, s: Poly)
    ensures Add(c0, Add(c1, Add(c2, Add(c3, Add(c4, Add(c5, Add(c6, Add(c7, s))))))))
         == Add(Add(c0, Add(c1, Add(c2, Add(c3, Add(c4, Add(c5, Add(c6, c7))))))), s)
  {
    hide Add;
    AddAssoc(c6, c7, s);
    AddAssoc(c5, Add(c6, c7), s);
    AddAssoc(c4, Add(c5, Add(c6, c7)), s);
    AddAssoc(c3, Add(c4, Add(c5, Add(c6, c7))), s);
    AddAssoc(c2, Add(c3, Add(c4, Add(c5, Add(c6, c7)))), s);
    AddAssoc(c1, Add(c2, Add(c3, Add(c4, Add(c5, Add(c6, c7))))), s);
    AddAssoc(c0, Add(c1, Add(c2, Add(c3, Add(c4, Add(c5, Add(c6, c7)))))), s);
  }

  lemma SquareIs(a: Poly)
    ensures Square(a) == SquareTerms(a)
  {
    hide Square, Spread, Byte, Eight, Add, Shr, X;
    Starts(a, a);
    SquareSpreads(a, 0);
    EvenPowers();
    assert Power(0) == ONE;
    var b := Byte(a);
    EightTerms(a, Poly(0x8000_0000), Poly(0x2000_0000), Poly(0x0800_0000), Poly(0x0200_0000),
      Poly(0x0080_0000), Poly(0x0020_0000), Poly(0x0008_0000), Poly(0x0002_0000), 32);
    EightTerms(b, Poly(0x0000_8000), Poly(0x0000_2000), Poly(0x0000_0800), Poly(0x0000_0200),
      Poly(0x0000_0080), Poly(0x0000_0020), Poly(0x0000_0008), Poly(0x0000_0002), 24);
    EightTerms(Byte(b), Poly(0xedb8_8320), Poly(0x3b6e_20c8), Poly(0x0edb_8832), Poly(0xee0e_612c),
      Poly(0x3b83_984b), Poly(0x9584_24a2), Poly(0xc8d9_8a08), Poly(0x3236_6282), 16);
    EightTerms(Byte(Byte(b)), Poly(0xe135_1b80), Poly(0x384d_46e0), Poly(0x0e13_51b8), Poly(0x0384_d46e),
      Poly(0xed59_b63b), Poly(0xa032_af3e), Poly(0xc5b4_28ef), Poly(0xaa09_c88b), 8);
    AfterLast(Byte(Byte(Byte(b))), X(X(Poly(0xaa09_c88b))));
    AddZero(Eight(Byte(Byte(b)), Poly(0xe135_1b80), Poly(0x384d_46e0), Poly(0x0e13_51b8), Poly(0x0384_d46e),
        Poly(0xed59_b63b), Poly(0xa032_af3e), Poly(0xc5b4_28ef), Poly(0xaa09_c88b)));
  }

  lemma AfterLast(a: Poly, b: Poly)
    ensures Spread(a, b, 0) == ZERO
  {}

  // x^0, x^2, x^4 and so on up to x^64, modulo p(x).
  lemma EvenPowers()
    ensures InARow(Poly(0x8000_0000), Poly(0x2000_0000), Poly(0x0800_0000))
    ensures InARow(Poly(0x0800_0000), Poly(0x0200_0000), Poly(0x0080_0000))
    ensures InARow(Poly(0x0080_0000), Poly(0x0020_0000), Poly(0x0008_0000))
    ensures InARow(Poly(0x0008_0000), Poly(0x0002_0000), Poly(0x0000_8000))
    ensures InARow(Poly(0x0000_8000), Poly(0x0000_2000), Poly(0x0000_0800))
    ensures InARow(Poly(0x0000_0800), Poly(0x0000_0200), Poly(0x0000_0080))
    ensures InARow(Poly(0x0000_0080), Poly(0x0000_0020), Poly(0x0000_0008))
    ensures InARow(Poly(0x0000_0008), Poly(0x0000_0002), Poly(0xedb8_8320))
    ensures InARow(Poly(0xedb8_8320), Poly(0x3b6e_20c8), Poly(0x0edb_8832))
    ensures InARow(Poly(0x0edb_8832), Poly(0xee0e_612c), Poly(0x3b83_984b))
    ensures InARow(Poly(0x3b83_984b), Poly(0x9584_24a2), Poly(0xc8d9_8a08))
    ensures InARow(Poly(0xc8d9_8a08), Poly(0x3236_6282), Poly(0xe135_1b80))
    ensures InARow(Poly(0xe135_1b80), Poly(0x384d_46e0), Poly(0x0e13_51b8))
    ensures InARow(Poly(0x0e13_51b8), Poly(0x0384_d46e), Poly(0xed59_b63b))
    ensures InARow(Poly(0xed59_b63b), Poly(0xa032_af3e), Poly(0xc5b4_28ef))
    ensures InARow(Poly(0xc5b4_28ef), Poly(0xaa09_c88b), Poly(0xb1e6_b092))
  {}

  // x squared n times.
  function Squared(n: nat): Poly {
    if n == 0 then Power(1) else Square(Squared(n - 1))
  }

  lemma {:induction false} SquaredIs(n: nat)
    ensures Squared(n) == Power(Pow2(n))
  {
    hide Square, Power;
    if n > 0 {
      SquaredIs(n - 1);
      SquarePower(Pow2(n - 1));
    }
  }

  function Bit(a: bv32, m: bv32, c: bv32): bv32 {
    if a & m != 0 then c else 0
  }

  function EightBitsOf(a: bv32, c0: bv32, c1: bv32, c2: bv32, c3: bv32, c4: bv32, c5: bv32, c6: bv32, c7: bv32): bv32 {
    Xor(Bit(a, 0x80000000, c0),
    Xor(Bit(a, 0x40000000, c1),
    Xor(Bit(a, 0x20000000, c2),
    Xor(Bit(a, 0x10000000, c3),
    Xor(Bit(a, 0x8000000, c4),
    Xor(Bit(a, 0x4000000, c5),
    Xor(Bit(a, 0x2000000, c6),
    Bit(a, 0x100_0000, c7))))))))
  }

  lemma TermValue(a: Poly, m: Poly, c: Poly, r: Poly)
    ensures Add(If(Meets(a, m), c), r).v == Xor(Bit(a.v, m.v, c.v), r.v)
    ensures If(Meets(a, m), c).v == Bit(a.v, m.v, c.v)
  {
    hide Xor;
  }

  lemma EightOf(a: Poly, c0: Poly, c1: Poly, c2: Poly, c3: Poly, c4: Poly, c5: Poly, c6: Poly, c7: Poly)
    ensures Eight(a, c0, c1, c2, c3, c4, c5, c6, c7).v
         == EightBitsOf(a.v, c0.v, c1.v, c2.v, c3.v, c4.v, c5.v, c6.v, c7.v)
  {
    hide Bit, Add, If, Meets, Xor;
    var t7 := If(Meets(a, Poly(0x100_0000)), c7);
    TermValue(a, Poly(0x100_0000), c7, ZERO);
    var t6 := Add(If(Meets(a, Poly(0x2000000)), c6), t7);
    TermValue(a, Poly(0x2000000), c6, t7);
    var t5 := Add(If(Meets(a, Poly(0x4000000)), c5), t6);
    TermValue(a, Poly(0x4000000), c5, t6);
    var t4 := Add(If(Meets(a, Poly(0x8000000)), c4), t5);
    TermValue(a, Poly(0x8000000), c4, t5);
    var t3 := Add(If(Meets(a, Poly(0x10000000)), c3), t4);
    TermValue(a, Poly(0x10000000), c3, t4);
    var t2 := Add(If(Meets(a, Poly(0x20000000)), c2), t3);
    TermValue(a, Poly(0x20000000), c2, t3);
    var t1 := Add(If(Meets(a, Poly(0x40000000)), c1), t2);
    TermValue(a, Poly(0x40000000), c1, t2);
    var t0 := Add(If(Meets(a, Poly(0x80000000)), c0), t1);
    TermValue(a, Poly(0x80000000), c0, t1);
  }

  function SquareBits(a: bv32): bv32 {
    Xor(EightBitsOf(a, 0x8000_0000, 0x2000_0000, 0x0800_0000, 0x0200_0000,
      0x0080_0000, 0x0020_0000, 0x0008_0000, 0x0002_0000),
    Xor(EightBitsOf(UpEight(a), 0x0000_8000, 0x0000_2000, 0x0000_0800, 0x0000_0200,
      0x0000_0080, 0x0000_0020, 0x0000_0008, 0x0000_0002),
    Xor(EightBitsOf(UpEight(UpEight(a)), 0xedb8_8320, 0x3b6e_20c8, 0x0edb_8832, 0xee0e_612c,
      0x3b83_984b, 0x9584_24a2, 0xc8d9_8a08, 0x3236_6282),
      EightBitsOf(UpEight(UpEight(UpEight(a))), 0xe135_1b80, 0x384d_46e0, 0x0e13_51b8, 0x0384_d46e,
      0xed59_b63b, 0xa032_af3e, 0xc5b4_28ef, 0xaa09_c88b))))
  }

  lemma SquareBitsOf(a: Poly)
    ensures SquareTerms(a).v == SquareBits(a.v)
  {
    hide EightBitsOf, Eight, Add, Xor, UpEight;
    var p := Eight(Byte(Byte(Byte(a))), Poly(0xe135_1b80), Poly(0x384d_46e0), Poly(0x0e13_51b8), Poly(0x0384_d46e),
        Poly(0xed59_b63b), Poly(0xa032_af3e), Poly(0xc5b4_28ef), Poly(0xaa09_c88b));
    EightOf(Byte(Byte(Byte(a))), Poly(0xe135_1b80), Poly(0x384d_46e0), Poly(0x0e13_51b8), Poly(0x0384_d46e),
        Poly(0xed59_b63b), Poly(0xa032_af3e), Poly(0xc5b4_28ef), Poly(0xaa09_c88b));
    var q := Eight(Byte(Byte(a)), Poly(0xedb8_8320), Poly(0x3b6e_20c8), Poly(0x0edb_8832), Poly(0xee0e_612c),
        Poly(0x3b83_984b), Poly(0x9584_24a2), Poly(0xc8d9_8a08), Poly(0x3236_6282));
    EightOf(Byte(Byte(a)), Poly(0xedb8_8320), Poly(0x3b6e_20c8), Poly(0x0edb_8832), Poly(0xee0e_612c),
        Poly(0x3b83_984b), Poly(0x9584_24a2), Poly(0xc8d9_8a08), Poly(0x3236_6282));
    var r := Eight(Byte(a), Poly(0x0000_8000), Poly(0x0000_2000), Poly(0x0000_0800), Poly(0x0000_0200),
        Poly(0x0000_0080), Poly(0x0000_0020), Poly(0x0000_0008), Poly(0x0000_0002));
    EightOf(Byte(a), Poly(0x0000_8000), Poly(0x0000_2000), Poly(0x0000_0800), Poly(0x0000_0200), Poly(0x0000_0080),
        Poly(0x0000_0020), Poly(0x0000_0008), Poly(0x0000_0002));
    var s := Eight(a, Poly(0x8000_0000), Poly(0x2000_0000), Poly(0x0800_0000), Poly(0x0200_0000), Poly(0x0080_0000),
        Poly(0x0020_0000), Poly(0x0008_0000), Poly(0x0002_0000));
    EightOf(a, Poly(0x8000_0000), Poly(0x2000_0000), Poly(0x0800_0000), Poly(0x0200_0000), Poly(0x0080_0000),
        Poly(0x0020_0000), Poly(0x0008_0000), Poly(0x0002_0000));
    AddValue(q, p);
    AddValue(r, Add(q, p));
    AddValue(s, Add(r, Add(q, p)));
  }

  lemma AddValue(a: Poly, b: Poly)
    ensures Add(a, b).v == Xor(a.v, b.v)
  {
    hide Xor;
  }

  lemma Squares0()
    ensures SquareBits(0x4000_0000) == 0x2000_0000
  {}

  lemma Squares1()
    ensures SquareBits(0x2000_0000) == 0x0800_0000
  {}

  lemma Squares2()
    ensures SquareBits(0x0800_0000) == 0x0080_0000
  {}

  lemma Squares3()
    ensures SquareBits(0x0080_0000) == 0x0000_8000
  {}

  lemma Squares4()
    ensures SquareBits(0x0000_8000) == 0xedb8_8320
  {}

  lemma Squares5()
    ensures SquareBits(0xedb8_8320) == 0xb1e6_b092
  {}

  lemma Squares6()
    ensures SquareBits(0xb1e6_b092) == 0xa06a_2517
  {}

  lemma Squares7()
    ensures SquareBits(0xa06a_2517) == 0xed62_7dae
  {}

  lemma Squares8()
    ensures SquareBits(0xed62_7dae) == 0x88d1_4467
  {}

  lemma Squares9()
    ensures SquareBits(0x88d1_4467) == 0xd7bb_fe6a
  {}

  lemma Squares10()
    ensures SquareBits(0xd7bb_fe6a) == 0xec44_7f11
  {}

  lemma Squares11()
    ensures SquareBits(0xec44_7f11) == 0x8e7e_a170
  {}

  lemma Squares12()
    ensures SquareBits(0x8e7e_a170) == 0x6427_800e
  {}

  lemma Squares13()
    ensures SquareBits(0x6427_800e) == 0x4d47_bae0
  {}

  lemma Squares14()
    ensures SquareBits(0x4d47_bae0) == 0x09fe_548f
  {}

  lemma Squares15()
    ensures SquareBits(0x09fe_548f) == 0x8385_2d0f
  {}

  lemma Squares16()
    ensures SquareBits(0x8385_2d0f) == 0x3036_2f1a
  {}

  lemma Squares17()
    ensures SquareBits(0x3036_2f1a) == 0x7b5a_9cc3
  {}

  lemma Squares18()
    ensures SquareBits(0x7b5a_9cc3) == 0x31fe_c169
  {}

  lemma Squares19()
    ensures SquareBits(0x31fe_c169) == 0x9fec_022a
  {}

  lemma Squares20()
    ensures SquareBits(0x9fec_022a) == 0x6c8d_edc4
  {}

  lemma Squares21()
    ensures SquareBits(0x6c8d_edc4) == 0x15d6_874d
  {}

  lemma Squares22()
    ensures SquareBits(0x15d6_874d) == 0x5fde_7a4e
  {}

  lemma Squares23()
    ensures SquareBits(0x5fde_7a4e) == 0xbad9_0e37
  {}

  lemma Squares24()
    ensures SquareBits(0xbad9_0e37) == 0x2e4e_5eef
  {}

  lemma Squares25()
    ensures SquareBits(0x2e4e_5eef) == 0x4eab_a214
  {}

  lemma Squares26()
    ensures SquareBits(0x4eab_a214) == 0xa8a4_72c0
  {}

  lemma Squares27()
    ensures SquareBits(0xa8a4_72c0) == 0x429a_969e
  {}

  lemma Squares28()
    ensures SquareBits(0x429a_969e) == 0x148d_302a
  {}

  lemma Squares29()
    ensures SquareBits(0x148d_302a) == 0xc40b_a6d0
  {}

  lemma Squares30()
    ensures SquareBits(0xc40b_a6d0) == 0xc4e2_2c3c
  {}

  lemma Squares31()
    ensures SquareBits(0xc4e2_2c3c) == 0x4000_0000
  {}

  lemma SquareOf(v: bv32)
    ensures Square(Poly(v)) == Poly(SquareBits(v))
  {
    hide Square, SquareTerms, SquareBits;
    SquareIs(Poly(v));
    SquareBitsOf(Poly(v));
  }

  // Squaring x 32 times gives x again.
  lemma AllAround()
    ensures Squared(32) == Power(1)
  {
    hide Square, SquareBits;
    Squares0();
    Squares1();
    Squares2();
    Squares3();
    Squares4();
    Squares5();
    Squares6();
    Squares7();
    Squares8();
    Squares9();
    Squares10();
    Squares11();
    Squares12();
    Squares13();
    Squares14();
    Squares15();
    Squares16();
    Squares17();
    Squares18();
    Squares19();
    Squares20();
    Squares21();
    Squares22();
    Squares23();
    Squares24();
    Squares25();
    Squares26();
    Squares27();
    Squares28();
    Squares29();
    Squares30();
    Squares31();
    SquareOf(0x4000_0000);
    SquareOf(0x2000_0000);
    SquareOf(0x0800_0000);
    SquareOf(0x0080_0000);
    SquareOf(0x0000_8000);
    SquareOf(0xedb8_8320);
    SquareOf(0xb1e6_b092);
    SquareOf(0xa06a_2517);
    assert Squared(8) == Poly(0xed62_7dae);
    SquareOf(0xed62_7dae);
    SquareOf(0x88d1_4467);
    SquareOf(0xd7bb_fe6a);
    SquareOf(0xec44_7f11);
    SquareOf(0x8e7e_a170);
    SquareOf(0x6427_800e);
    SquareOf(0x4d47_bae0);
    SquareOf(0x09fe_548f);
    assert Squared(16) == Poly(0x8385_2d0f);
    SquareOf(0x8385_2d0f);
    SquareOf(0x3036_2f1a);
    SquareOf(0x7b5a_9cc3);
    SquareOf(0x31fe_c169);
    SquareOf(0x9fec_022a);
    SquareOf(0x6c8d_edc4);
    SquareOf(0x15d6_874d);
    SquareOf(0x5fde_7a4e);
    assert Squared(24) == Poly(0xbad9_0e37);
    SquareOf(0xbad9_0e37);
    SquareOf(0x2e4e_5eef);
    SquareOf(0x4eab_a214);
    SquareOf(0xa8a4_72c0);
    SquareOf(0x429a_969e);
    SquareOf(0x148d_302a);
    SquareOf(0xc40b_a6d0);
    SquareOf(0xc4e2_2c3c);
    assert Squared(32) == Poly(0x4000_0000);
  }

  lemma {:induction false} SquaredAround(n: nat)
    ensures Squared(n + 32) == Squared(n)
  {
    hide Square;
    if n == 0 {
      AllAround();
    } else {
      SquaredAround(n - 1);
    }
  }

  lemma {:induction false} SquaredAt(n: nat)
    ensures Squared(n) == Squared(n % 32)
    decreases n
  {
    hide Squared;
    if n >= 32 {
      SquaredAround(n - 32);
      SquaredAt(n - 32);
    }
  }

  // ------------------------------------------------------------ x2nmodp

  // The table of powers: x^(2^i).
  predicate PowerTable(x2n: seq<Poly>) {
    |x2n| == 32 && forall i :: 0 <= i < 32 ==> x2n[i] == Squared(i)
  }

  method X2nModP(x2n: array<Poly>, n: nat, k: nat) returns (p: Poly)
    requires PowerTable(x2n[..])
    ensures p == Power(n * Pow2(k))
    ensures p != ZERO
  {
    hide Mul, Power, Pow2, Squared;
    p := ONE;
    var n': nat, k': nat := n, k;
    PowerStart(n * Pow2(k));
    while n' != 0
      invariant Mul(p, Power(n' * Pow2(k'))) == Power(n * Pow2(k))
    {
      PowerBit(p, n', k');
      SquaredAt(k');
      if n' % 2 == 1 {
        PowerNonzero(Pow2(k'));
        assert x2n[..][k' % 32] == x2n[k' % 32];
        p := MultModP(x2n[k' % 32], p);
      }
      n' := n' / 2;
      k' := k' + 1;
    }
    PowerEnd(p, k');
    PowerNonzero(n * Pow2(k));
  }

  lemma PowerStart(n: nat)
    ensures Mul(ONE, Power(n)) == Power(n)
  {
    hide Mul, Power;
    MulCommutes(ONE, Power(n));
    MulOne(Power(n));
  }

  lemma PowerEnd(p: Poly, k: nat)
    ensures Mul(p, Power(0 * Pow2(k))) == p
  {
    hide Mul;
    MulOne(p);
  }

  lemma PowerBit(p: Poly, n: nat, k: nat)
    requires n > 0
    ensures Squared(k) == Power(Pow2(k))
    ensures n % 2 == 1 ==> Mul(Mul(Squared(k), p), Power(n / 2 * Pow2(k + 1))) == Mul(p, Power(n * Pow2(k)))
    ensures n % 2 == 0 ==> Power(n / 2 * Pow2(k + 1)) == Power(n * Pow2(k))
  {
    hide Mul, Power, Squared;
    SquaredIs(k);
    assert n / 2 * Pow2(k + 1) == (n / 2 * 2) * Pow2(k);
    if n % 2 == 1 {
      assert n * Pow2(k) == Pow2(k) + n / 2 * 2 * Pow2(k);
      PowerAdd(Pow2(k), n / 2 * Pow2(k + 1));
      MulCommutes(Squared(k), p);
      MulAssociates(p, Squared(k), Power(n / 2 * Pow2(k + 1)));
    }
  }
}
