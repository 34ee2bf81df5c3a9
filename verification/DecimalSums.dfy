// When adding rounds twice (src/runtime/decimal.cpp:226-255): exactly which sums of two decimals
// come out as the exact sum rounded once. Past 37 places the smaller operand is rounded first, and
// that matters only when it makes the sum a tie at the 34th digit that it was not.

module DecimalSums {
  import opened Powers
  import opened Decimal128
  import opened DecimalArith

  // ------------------------------------------------------------ rounding a rounded number

  // a, t rounded to units of p, stands between two multiples of q alike, and the part of t that
  // was rounded away lies on the side the tie does not go to.
  predicate TieMoved(t: nat, a: nat, p: nat, q: nat)
    requires q > 0
  {
    && 2 * (a % q) == q
    && ((t > a * p && a / q % 2 == 0) || (t < a * p && a / q % 2 == 1))
  }

  lemma NearestHalf(t: nat, a: nat, p: nat)
    requires p > 0 && a == Rounded(t, p)
    ensures a * p - t <= p / 2 && t - a * p <= p / 2
  {
    hide Rounded;
  }

  // No tie: rounding twice is rounding once.
  lemma NoTie(t: nat, a: nat, p: nat, q: nat)
    requires p > 0 && q > 0 && q % 2 == 0 && a == Rounded(t, p) && 2 * (a % q) != q
    ensures Rounded(a, q) == Rounded(t, q * p)
  {
    hide Rounded, Nearest;
    var c, r := a / q, a % q;
    DivMod(a, q);
    NearestHalf(t, a, p);
    if 2 * r < q {
      Down(t, a, p, q, c, r);
    } else {
      Up(t, a, p, q, c, r);
    }
  }

  lemma Down(t: nat, a: nat, p: nat, q: nat, c: nat, r: nat)
    requires p > 0 && q % 2 == 0 && a == c * q + r && 2 * r < q
    requires a * p - t <= p / 2 && t - a * p <= p / 2
    ensures Rounded(a, q) == c == Rounded(t, q * p)
  {
    hide Rounded;
    MulAdd(c * q, r, p);
    MulAssoc(c, q, p);
    BelowHalf(r, q, p);
    MulMono(0, r, p);
    Near(t, a * p, c * (q * p), r * p, q * p, p);
    Within(c, q * p, t);
    Within(c, q, a);
  }

  lemma Up(t: nat, a: nat, p: nat, q: nat, c: nat, r: nat)
    requires p > 0 && q % 2 == 0 && a == c * q + r && q < 2 * r < 2 * q
    requires a * p - t <= p / 2 && t - a * p <= p / 2
    ensures Rounded(a, q) == c + 1 == Rounded(t, q * p)
  {
    hide Rounded;
    var s := q - r;
    MulAdd(c, 1, q);
    assert a + s == (c + 1) * q;
    MulAdd(a, s, p);
    MulAssoc(c + 1, q, p);
    BelowHalf(s, q, p);
    Near(t, a * p, (c + 1) * (q * p), -(s * p), q * p, p);
    Within(c + 1, q * p, t);
    Within(c + 1, q, a);
  }

  lemma Near(t: int, ap: int, at: int, off: int, m: int, p: nat)
    requires ap == at + off && ap - t <= p / 2 && t - ap <= p / 2
    requires 2 * off + 2 * p <= m && 2 * p - 2 * off <= m && p > 0
    ensures 2 * (at - t) < m && 2 * (t - at) < m
  {}

  lemma BelowHalf(r: nat, q: nat, p: nat)
    requires 2 * r < q && q % 2 == 0 && p > 0
    ensures 2 * (r * p) + 2 * p <= q * p
  {
    MulMono(2 * r + 2, q, p);
    MulAdd(2 * r, 2, p);
    MulAssoc(2, r, p);
  }

  // Less than half a unit from c.
  lemma Within(c: nat, m: nat, t: nat)
    requires m > 0 && 2 * Abs(c * m - t) < m
    ensures Rounded(t, m) == c
  {
    RoundedIs(c, t, m);
  }

  // A tie: the second rounding goes to the even side, the single one to the side of t.
  lemma AtTie(t: nat, a: nat, p: nat, q: nat)
    requires p > 0 && q > 0 && a == Rounded(t, p) && 2 * (a % q) == q
    ensures Rounded(a, q) == a / q + a / q % 2
    ensures t == a * p ==> Rounded(t, q * p) == a / q + a / q % 2
    ensures t > a * p ==> Rounded(t, q * p) == a / q + 1
    ensures t < a * p ==> Rounded(t, q * p) == a / q
  {
    hide Rounded;
    var c, r := a / q, a % q;
    var up := c + c % 2;
    NearestHalf(t, a, p);
    MulAdd(c * q, r, p);
    MulAssoc(c, q, p);
    MulAdd(c, 1, q * p);
    MulAdd(c, 1, q);
    assert 2 * (r * p) == q * p by { MulAssoc(2, r, p); }
    assert a * p == c * (q * p) + r * p;
    Tie(up, c, q, a);
    if t == a * p {
      Tie(up, c, q * p, t);
    } else if t > a * p {
      OverTie(c, r, q, p);
      Within(c + 1, q * p, t);
    } else {
      OverTie(c, r, q, p);
      Within(c, q * p, t);
    }
  }

  lemma OverTie(c: nat, r: nat, q: nat, p: nat)
    requires 2 * r == q && q > 0 && p > 0
    ensures r * p >= p
  {
    MulMono(1, r, p);
  }

  lemma Tie(up: nat, c: nat, m: nat, t: nat)
    requires m > 0 && up == c + c % 2 && 2 * (t - c * m) == m
    ensures Rounded(t, m) == up
  {
    MulAdd(c, 1, m);
    RoundedIs(up, t, m);
  }

  lemma RoundedTwice(t: nat, a: nat, p: nat, q: nat)
    requires p > 0 && q > 0 && q % 2 == 0 && a == Rounded(t, p)
    ensures Rounded(a, q) == Rounded(t, q * p) <==> !TieMoved(t, a, p, q)
  {
    hide Rounded;
    if 2 * (a % q) == q { AtTie(t, a, p, q); } else { NoTie(t, a, p, q); }
  }

  // ------------------------------------------------------------ at 34 digits

  lemma Digits(v: nat, n: nat)
    requires n >= 1 && Pow10(n - 1) <= v < Pow10(n)
    ensures NumDigits(v) == n
  {
    hide NumDigits;
    DigitsAtMost(v, n);
    if n > 1 { DigitsAtMost(v, n - 1); }
  }

  // As many digits more as places rounded, or the rounding reached a power of ten.
  lemma DigitsRounded(t: nat, a: nat, k: nat)
    requires a == Rounded(t, Pow10(k)) && a >= Pow10(34)
    ensures NumDigits(t) == NumDigits(a) + k
         || (NumDigits(t) == NumDigits(a) + k - 1 && a == Pow10(NumDigits(a) - 1) && t < a * Pow10(k))
  {
    hide NumDigits, Rounded, Nearest, Pow10;
    var n, p := NumDigits(a), Pow10(k);
    DigitsBound(a);
    DigitsAtMost(a, 34);
    Pow10Add(n, k);
    Pow10Add(n - 1, k);
    Pow10Add(n - 2, k);
    if t >= Pow10(n + k) { NearestAtLeast(a, t, p, Pow10(n)); }
    if t >= Pow10(n - 1 + k) {
      Digits(t, n + k);
    } else {
      NearestAtMost(a, t, p, Pow10(n - 1));
      Pow10Mono(n - 2, n - 1);
      if t < Pow10(n - 2 + k) { NearestAtMost(a, t, p, Pow10(n - 2)); }
      Digits(t, n - 1 + k);
    }
  }

  lemma EvenPower(j: nat)
    requires j >= 1
    ensures Pow10(j) % 2 == 0
  {
    hide Pow10;
    TenTimes(j);
    TwiceEven(5 * Pow10(j - 1));
    assert Pow10(j) == 2 * (5 * Pow10(j - 1));
  }

  lemma TwiceEven(h: nat)
    ensures 2 * h % 2 == 0
  {}

  // Rounded to a power of ten from below: both come out as that power.
  lemma PowerReached(t: nat, a: nat, k: nat, n: nat)
    requires n >= 35 && a == Pow10(n) == Rounded(t, Pow10(k)) && t < a * Pow10(k)
    ensures Rounded(a, Pow10(n + 1 - 34)) == Pow10(33)
    ensures Rounded(t, Pow10(n - 34 + k)) == Pow10(34)
    ensures a % Pow10(n + 1 - 34) == 0
  {
    hide Rounded, Pow10;
    var j := n + 1 - 34;
    Pow10Add(33, j);
    NearestExact(Pow10(33), Pow10(j));
    RoundedIs(Pow10(33), a, Pow10(j));
    DivModUnique(a, Pow10(j), Pow10(33), 0);
    NearestHalf(t, a, Pow10(k));
    Pow10Add(n, k);
    Pow10Add(34, n - 34 + k);
    Pow10Mono(k, n - 34 + k);
    PowerClose(t, a * Pow10(k), Pow10(k), Pow10(n - 34 + k), n - 34 + k - k);
    Within(Pow10(34), Pow10(n - 34 + k), t);
  }

  lemma PowerClose(t: nat, ap: nat, p: nat, m: nat, d: nat)
    requires ap - t <= p / 2 && t < ap && 10 * p <= m && p > 0
    ensures 2 * Abs(ap - t) < m
  {}

  // a, the sum as aligned, against t, the same sum k places further down.
  lemma SumsAgree(sign: bool, t: nat, a: nat, k: nat, e: int)
    requires a == Rounded(t, Pow10(k)) && NumDigits(a) >= 36
    ensures Round34(sign, a, e) == Round34(sign, t, e - k) <==> !TieMoved(t, a, Pow10(k), Pow10(Extra(a)))
  {
    hide NumDigits, Rounded, Nearest, Pow10, TieMoved;
    var n, j := NumDigits(a), Extra(a);
    DigitsAtMost(a, 34);
    DigitsBound(a);
    DigitsRounded(t, a, k);
    EvenPower(j);
    if NumDigits(t) == n + k {
      Pow10Add(j, k);
      RoundedTwice(t, a, Pow10(k), Pow10(j));
      Kept(a, j);
      Kept(t, j + k);
    } else {
      PowerReached(t, a, k, n - 1);
      NoTieHere(t, a, Pow10(k), Pow10(j));
      TenMore();
    }
  }

  lemma NoTieHere(t: nat, a: nat, p: nat, q: nat)
    requires q > 0 && a % q == 0
    ensures !TieMoved(t, a, p, q)
  {}

  lemma TenMore()
    ensures Pow10(33) != Pow10(34) && Pow10(33) > 0
  {}

  // What is kept of a long number is not 0.
  lemma Kept(v: nat, j: nat)
    requires j >= 1 && NumDigits(v) == 34 + j
    ensures Extra(v) == j && Rounded(v, Pow10(j)) > 0
  {
    hide NumDigits, Rounded, Nearest, Pow10;
    DigitsAtMost(v, 33 + j);
    Pow10Add(33, j);
    NearestAtLeast(Rounded(v, Pow10(j)), v, Pow10(j), Pow10(33));
  }

  // ------------------------------------------------------------ two operands

  // x is the operand that alignment rounds; the other one has its highest digit at the top.
  predicate Lower(x: Dec, y: Dec) { x.exp < Common(x, y) }

  // The magnitudes of the sum as aligned and of the exact sum.
  function AlignedMagnitude(x: Dec, y: Dec): nat {
    var e := Common(x, y);
    Abs(Units(Moved(x, e), e) + Units(Moved(y, e), e))
  }

  function ExactMagnitude(x: Dec, y: Dec): nat {
    var m := Min(x.exp, y.exp);
    Abs(Units(x, m) + Units(y, m))
  }

  // Alignment drops a part that is not zero and leaves a tie at the 34th digit, and the tie goes
  // to the even side against that part.
  predicate RoundedTwiceWrong(x: Dec, y: Dec) {
    var a := AlignedMagnitude(x, y);
    TieMoved(ExactMagnitude(x, y), a, Pow10(Common(x, y) - Min(x.exp, y.exp)), Pow10(Extra(a)))
  }

  // The operand whose exponent sets the top is zero.
  predicate ZeroOnTop(x: Dec, y: Dec) {
    (Lower(x, y) && y.coeff == 0) || (Lower(y, x) && x.coeff == 0)
  }

  lemma EvenUnits(y: Dec, e: int)
    requires e < y.exp
    ensures Units(y, e) % 2 == 0
  {
    var k := y.exp - e;
    EvenPower(k);
    var h := Pow10(k) / 2;
    assert Units(y, e) == 2 * (Signed(y.sign, y.coeff) * h) by { MulAssoc(Signed(y.sign, y.coeff), h, 2); }
  }

  // Adding a rounded number to an even multiple of the unit is rounding the sum.
  lemma SumRounded(b: int, c: nat, r: nat, p: nat, minus: bool)
    requires p > 0 && Nearest(r, c, p) && b % 2 == 0 && Abs(b) > r && Abs(b) * p > c
    ensures var t := b * p + Signed(minus, c); var a := b + Signed(minus, r);
      Nearest(Abs(a), Abs(t), p) && (a < 0 <==> t < 0) && (a < 0 <==> b < 0)
  {
    hide Nearest;
    var m := Abs(b);
    NegTimes(m, p);
    SumSides(m, c, r, p);
  }

  lemma NegTimes(m: nat, p: nat)
    ensures (0 - m) * p == 0 - m * p
  {}

  lemma SumSides(b: nat, c: nat, r: nat, p: nat)
    requires p > 0 && Nearest(r, c, p) && b % 2 == 0 && b > r && b * p > c
    ensures Nearest(b + r, b * p + c, p) && Nearest(b - r, b * p - c, p)
  {
    MulAdd(b, r, p);
    MulAdd(b - r, r, p);
  }

  // The larger operand, in units of the common exponent, against the other one.
  lemma Outweighs(x: Dec, y: Dec)
    requires Canonical(x) && Canonical(y) && Lower(x, y) && y.coeff > 0
    ensures var e := Common(x, y); var r := Rounded(x.coeff, Pow10(e - x.exp));
      && e < y.exp && r <= Pow10(33) && Abs(Units(y, e)) >= Pow10(36)
      && Abs(Units(y, e)) * Pow10(e - x.exp) > x.coeff
  {
    hide NumDigits, Rounded, Nearest, Common, Pow10, Top;
    var e := Common(x, y);
    var k := e - x.exp;
    FarBelow(x, y, 34);
    RoundedBelow(x, e, Rounded(x.coeff, Pow10(k)), 33);
    LeastAt(y, e);
    UnitsSign(y, e);
    MostAt(x);
    Pow10Mono(Top(x) - x.exp, 36 + k);
    Pow10Add(36, k);
    MulMono(Pow10(36), Abs(Units(y, e)), Pow10(k));
  }

  // Both operands before and after alignment.
  lemma Sides(x: Dec, y: Dec)
    requires Canonical(x) && Canonical(y) && Lower(x, y)
    ensures var e := Common(x, y);
      && x.exp < e < y.exp
      && Units(Moved(x, e), e) == Signed(x.sign, Rounded(x.coeff, Pow10(e - x.exp)))
      && Units(Moved(y, e), e) == Units(y, e)
      && Units(x, x.exp) == Signed(x.sign, x.coeff)
      && Units(y, x.exp) == Units(y, e) * Pow10(e - x.exp)
  {
    hide NumDigits, Rounded, Nearest, Common, Pow10, Top;
    var e := Common(x, y);
    FarBelow(x, y, 34);
    UnitsMoved(y, e);
    UnitsFiner(y, e, e - x.exp);
    MovedExp(x, e);
    SignedSum(x, x, x.exp);
    SignedSum(Moved(x, e), Moved(x, e), e);
  }

  // So the sum as aligned is the exact sum rounded to the common exponent.
  lemma AlignedIsRounded(x: Dec, y: Dec)
    requires Canonical(x) && Canonical(y) && Lower(x, y) && y.coeff > 0
    ensures x.exp < Common(x, y) < y.exp
    ensures AlignedMagnitude(x, y) == Rounded(ExactMagnitude(x, y), Pow10(Common(x, y) - x.exp))
    ensures AlignedMagnitude(x, y) >= Pow10(36) - Pow10(33)
    ensures var e := Common(x, y);
      Units(Moved(x, e), e) + Units(Moved(y, e), e) < 0 <==> Units(x, x.exp) + Units(y, x.exp) < 0
  {
    hide NumDigits, Rounded, Nearest, Common, Canonical, Pow10, Top, Units, Moved, Signed;
    var e := Common(x, y);
    var k := e - x.exp;
    Outweighs(x, y);
    Sides(x, y);
    var b, r := Units(y, e), Rounded(x.coeff, Pow10(k));
    MovedExp(x, e);
    MovedExp(y, e);
    Pow10Mono(33, 36);
    EvenUnits(y, e);
    var a, t := b + Signed(x.sign, r), b * Pow10(k) + Signed(x.sign, x.coeff);
    Magnitudes(b, x.coeff, r, Pow10(k), x.sign, Pow10(36), Pow10(33));
    assert Units(Moved(x, e), e) + Units(Moved(y, e), e) == a;
    assert Units(x, x.exp) + Units(y, x.exp) == t;
  }

  lemma Magnitudes(b: int, c: nat, r: nat, p: nat, minus: bool, most: nat, least: nat)
    requires p > 0 && Nearest(r, c, p) && b % 2 == 0 && Abs(b) >= most > least >= r && Abs(b) * p > c
    ensures var t := b * p + Signed(minus, c); var a := b + Signed(minus, r);
      Rounded(Abs(t), p) == Abs(a) >= most - least && (a < 0 <==> t < 0)
  {
    hide Rounded, Nearest;
    SumRounded(b, c, r, p, minus);
    RoundedIs(Abs(b + Signed(minus, r)), Abs(b * p + Signed(minus, c)), p);
  }

  lemma LowerSums(x: Dec, y: Dec)
    requires Canonical(x) && Canonical(y) && Lower(x, y) && y.coeff > 0
    ensures AlignedSum(x, y) == ExactSum(x, y) <==> !RoundedTwiceWrong(x, y)
  {
    hide NumDigits, Rounded, Nearest, Common, Canonical, Pow10, Top, Round34, TieMoved, Units, Moved;
    var e := Common(x, y);
    AlignedIsRounded(x, y);
    var a := AlignedMagnitude(x, y);
    EnoughDigits(a);
    var n := Units(x, x.exp) + Units(y, x.exp);
    SumsAgree(n < 0, ExactMagnitude(x, y), a, e - x.exp, e);
  }

  lemma EnoughDigits(a: nat)
    requires a >= Pow10(36) - Pow10(33)
    ensures NumDigits(a) >= 36
  {
    hide NumDigits;
    DigitsAtMost(a, 35);
    assert Pow10(36) == 1000 * Pow10(33) && Pow10(35) == 100 * Pow10(33);
  }

  // With a zero on top the exponents differ, whatever the other operand is.
  lemma ZeroSums(x: Dec, y: Dec)
    requires Canonical(x) && Lower(x, y) && y.coeff == 0
    ensures AlignedSum(x, y) != ExactSum(x, y)
  {
    hide NumDigits, Pow10, Rounded, Common;
    Sides(x, y);
    var n := Units(x, x.exp) + Units(y, x.exp);
    ZeroUnits(y, x.exp);
    Round34Canonical(n < 0, Abs(n), x.exp);
  }

  // But the value is the same when no digit of the other operand is rounded away, and only then.
  lemma ZeroOnTopValue(x: Dec, y: Dec)
    requires Canonical(x) && Lower(x, y) && y.coeff == 0
    ensures Difference(AlignedSum(x, y), ExactSum(x, y)) == 0 <==> x.coeff % Pow10(Common(x, y) - x.exp) == 0
  {
    hide NumDigits, Pow10, Rounded, Nearest, Common, Round34;
    var e := Common(x, y);
    var k := e - x.exp;
    var p := Pow10(k);
    var r := Rounded(x.coeff, p);
    Sides(x, y);
    ZeroUnits(y, x.exp);
    ZeroUnits(y, e);
    FarBelow(x, y, 34);
    RoundedBelow(x, e, r, 33);
    Pow10Mono(33, 34);
    var n, m := Signed(x.sign, x.coeff), Signed(x.sign, r);
    Round34Canonical(n < 0, Abs(n), x.exp);
    Round34Canonical(m < 0, Abs(m), e);
    var a, b := AlignedSum(x, y), ExactSum(x, y);
    assert a == Dec(m < 0, r, e) && b == Dec(n < 0, x.coeff, x.exp);
    OneUnit(x.coeff);
    UnitsSign(a, x.exp);
    UnitsSign(b, x.exp);
    WholePart(x.coeff, r, p);
  }

  lemma WholePart(c: nat, r: nat, p: nat)
    requires p > 0 && r == Rounded(c, p)
    ensures r * p == c <==> c % p == 0
  {
    if c % p == 0 {
      NearestExact(c / p, p);
      RoundedIs(c / p, c / p * p, p);
    } else if r * p == c {
      DivModUnique(c, p, r, 0);
    }
  }

  lemma ZeroUnits(y: Dec, m: int)
    requires y.coeff == 0 && m <= y.exp
    ensures Units(y, m) == 0
  {}

  lemma SumsCommute(x: Dec, y: Dec)
    ensures AlignedSum(x, y) == AlignedSum(y, x) && ExactSum(x, y) == ExactSum(y, x)
    ensures RoundedTwiceWrong(x, y) == RoundedTwiceWrong(y, x)
  {
    hide NumDigits, Rounded, Units, Round34, TieMoved;
    CommonSwap(x, y);
  }

  // Every sum of two decimals: as aligned it is the exact sum rounded once, unless the aligned
  // sum is a tie that goes the wrong way or the operand on top is a zero.
  lemma SumIsExactIff(x: Dec, y: Dec)
    requires Canonical(x) && Canonical(y)
    ensures AlignedSum(x, y) == ExactSum(x, y) <==> !RoundedTwiceWrong(x, y) && !ZeroOnTop(x, y)
  {
    hide NumDigits, Rounded, AlignedSum, ExactSum, RoundedTwiceWrong, Canonical, Pow10, Units;
    CommonSwap(x, y);
    SumsCommute(x, y);
    if Lower(x, y) {
      OneLower(x, y);
      if y.coeff > 0 { LowerSums(x, y); } else { ZeroSums(x, y); }
    } else if Lower(y, x) {
      if x.coeff > 0 { LowerSums(y, x); } else { ZeroSums(y, x); }
    } else {
      SumExact(x, y);
      NothingMoved(x, y);
    }
  }

  lemma OneLower(x: Dec, y: Dec)
    requires Canonical(x) && Canonical(y) && Lower(x, y)
    ensures !Lower(y, x)
  {
    hide NumDigits;
    FarBelow(x, y, 34);
    CommonSwap(x, y);
  }

  // Without rounding there is no difference.
  lemma NothingMoved(x: Dec, y: Dec)
    requires Common(x, y) <= x.exp && Common(x, y) <= y.exp
    ensures !RoundedTwiceWrong(x, y)
  {
    hide NumDigits, Rounded, Units, Moved, Extra;
    var e := Common(x, y);
    UnitsMoved(x, e);
    UnitsMoved(y, e);
    OneUnit(AlignedMagnitude(x, y));
  }

  // ------------------------------------------------------------ one that is not exact

  // 10^33 and 0.50001, 39 places from top to bottom: rounded to 0.500, the smaller makes a tie,
  // which goes to even, although the exact sum is past it.
  const FAR := Dec(false, 1000000000000000000000000000000000, 0)
  const NEAR := Dec(false, 50001, -5)

  lemma FarTens()
    ensures Pow10(2) == 100 && Pow10(3) == 1000 && Pow10(5) == 100000
    ensures NumDigits(FAR.coeff) == 34 && NumDigits(NEAR.coeff) == 5
  {
    assert Pow10(4) == 10000;
    Pow10Size();
    Digits(FAR.coeff, 34);
    Digits(NEAR.coeff, 5);
  }

  lemma FarAligned()
    ensures Common(FAR, NEAR) == -3
    ensures AlignedMagnitude(FAR, NEAR) == 1000000000000000000000000000000000500
    ensures ExactMagnitude(FAR, NEAR) == 100000000000000000000000000000000050001
  {
    hide NumDigits, Pow10, Rounded;
    FarTens();
    assert Pow10(0) == 1 by { NoTens(); }
    RoundedIs(500, NEAR.coeff, 100);
  }

  lemma NoTens()
    ensures Pow10(0) == 1
  {}

  lemma FarExtra(a: nat)
    requires a == 1000000000000000000000000000000000500
    ensures Extra(a) == 3
  {
    hide NumDigits;
    Pow10Size();
    Digits(a, 37);
  }

  lemma FarTie()
    ensures TieMoved(100000000000000000000000000000000050001, 1000000000000000000000000000000000500, 100, 1000)
  {}

  lemma SumRoundedTwice()
    ensures Span(FAR, NEAR) == 39 && AlignedSum(FAR, NEAR) != ExactSum(FAR, NEAR)
  {
    hide NumDigits, Pow10, Rounded, AlignedSum, ExactSum, AlignedMagnitude, ExactMagnitude, TieMoved, Extra;
    FarTens();
    FarAligned();
    FarExtra(AlignedMagnitude(FAR, NEAR));
    FarTie();
    FarCanonical();
    SumIsExactIff(FAR, NEAR);
  }

  lemma FarCanonical()
    ensures Canonical(FAR) && Canonical(NEAR)
  {
    Pow10Size();
  }
}
