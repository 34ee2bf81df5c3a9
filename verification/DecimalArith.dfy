// Aligning, adding, multiplying and comparing decimals (src/runtime/decimal.cpp:184-278,
// 344-355). Alignment may round the smaller operand; the order it gives is exact all the same,
// and the sum is whenever all the digits of both operands fit in 37 places.

module DecimalArith {
  import opened Powers
  import opened Decimal128

  // ------------------------------------------------------------ exact values

  function Signed(sign: bool, n: int): int { if sign then -n else n }

  // The value of d in units of 10^m.
  function Units(d: Dec, m: int): int
    requires m <= d.exp
  {
    Signed(d.sign, d.coeff) * Pow10(d.exp - m)
  }

  function Min(x: int, y: int): int { if x < y then x else y }

  function Max(x: int, y: int): int { if x > y then x else y }

  // The difference of two values, in the units of the finer one.
  function Difference(x: Dec, y: Dec): int {
    var m := Min(x.exp, y.exp);
    Units(x, m) - Units(y, m)
  }

  // Finer units only scale.
  lemma UnitsFiner(d: Dec, m: int, k: nat)
    requires m <= d.exp
    ensures Units(d, m - k) == Units(d, m) * Pow10(k)
  {
    Pow10Add(d.exp - m, k);
    MulAssoc(Signed(d.sign, d.coeff), Pow10(d.exp - m), Pow10(k));
  }

  function Sign(x: int): int { if x < 0 then -1 else if x > 0 then 1 else 0 }

  // The sign of a difference compares the values, in units of the lower exponent.
  lemma SignIs(x: Dec, y: Dec)
    ensures var m, a: int, b: int := if x.exp < y.exp then x.exp else y.exp, x.coeff, y.coeff;
      var u, v := (if x.sign then -a else a) * Pow10(x.exp - m), (if y.sign then -b else b) * Pow10(y.exp - m);
      Sign(Difference(x, y)) == if u < v then -1 else if u == v then 0 else 1
  {
    hide Pow10;
  }

  predicate Canonical(d: Dec) { d.coeff < Pow10(34) }

  // ------------------------------------------------------------ alignment

  // KyteDec: an operand that alignment changes in place.
  class Operand {
    var sign: bool
    var coeff: u128
    var exp: int

    constructor (d: Dec)
      requires d.coeff < TWO128
      ensures Value() == d
    {
      sign := d.sign;
      coeff := d.coeff;
      exp := d.exp;
    }

    function Value(): Dec
      reads this
    {
      Dec(sign, coeff, exp)
    }
  }

  // One past the highest digit.
  function Top(d: Dec): int { d.exp + NumDigits(d.coeff) }

  // The exponent both operands get.
  function Common(x: Dec, y: Dec): int {
    Max(Min(x.exp, y.exp), Max(Top(x), Top(y)) - 37)
  }

  // d moved to exponent e: exactly, or rounded when e is above its own.
  predicate MovedTo(d: Dec, e: int, r: Dec) {
    && r.sign == d.sign && r.exp == e
    && (e <= d.exp ==> r.coeff == d.coeff * Pow10(d.exp - e))
    && (e > d.exp ==> Nearest(r.coeff, d.coeff, Pow10(e - d.exp)))
  }

  lemma ScaledBelow(d: Dec, e: int)
    requires e <= d.exp && Top(d) - e <= 37
    ensures d.exp - e <= 36
    ensures d.coeff * Pow10(d.exp - e) < Pow10(37) < TWO128
  {
    hide NumDigits, Pow10;
    var n, k := NumDigits(d.coeff), d.exp - e;
    DigitsBound(d.coeff);
    Pow10Add(n, k);
    Pow10Mono(n + k, 37);
    Pow10Fits(37);
    MulStrict(d.coeff, Pow10(n), Pow10(k));
  }

  lemma MulStrict(a: nat, b: nat, c: nat)
    requires a < b && c > 0
    ensures a * c < b * c
  {
    MulMono(a + 1, b, c);
    MulAdd(a, 1, c);
  }

  // A rounded operand lies below 10^(Top - e).
  lemma RoundedBelow(d: Dec, e: int, q: nat, n: nat)
    requires e > d.exp && Nearest(q, d.coeff, Pow10(e - d.exp)) && Top(d) - e <= n
    ensures q <= Pow10(n)
  {
    hide NumDigits;
    var k := e - d.exp;
    DigitsBound(d.coeff);
    Pow10Mono(NumDigits(d.coeff), n + k);
    Pow10Add(n, k);
    NearestAtMost(q, d.coeff, Pow10(k), Pow10(n));
  }

  method MoveTo(d: Operand, e: int)
    requires Top(d.Value()) - e <= 37
    modifies d
    ensures MovedTo(old(d.Value()), e, d.Value())
    ensures d.coeff <= Pow10(37)
  {
    hide NumDigits, Nearest, Pow10;
    if d.exp > e {
      ScaledBelow(d.Value(), e);
      var p := DecPow10(d.exp - e);
      d.coeff := d.coeff * p;
      d.exp := e;
    } else if d.exp < e {
      ghost var was := d.Value();
      var q := RoundDrop(d.coeff, e - d.exp);
      RoundedBelow(was, e, q, 37);
      d.coeff := q;
      d.exp := e;
    } else {
      ScaledBelow(d.Value(), e);
      OneUnit(d.coeff);
    }
  }

  lemma OneUnit(n: nat)
    ensures n * Pow10(0) == n
  {}

  method Align(a: Operand, b: Operand)
    requires a != b
    modifies a, b
    ensures var e := Common(old(a.Value()), old(b.Value()));
      MovedTo(old(a.Value()), e, a.Value()) && MovedTo(old(b.Value()), e, b.Value())
    ensures a.coeff <= Pow10(37) && b.coeff <= Pow10(37)
  {
    hide NumDigits, Nearest, Pow10;
    var e := if a.exp < b.exp then a.exp else b.exp;
    var amsd := DecNumDigits(a.coeff);
    amsd := a.exp + amsd;
    var bmsd := DecNumDigits(b.coeff);
    bmsd := b.exp + bmsd;
    var msd := if amsd > bmsd then amsd else bmsd;
    var minE := msd - 37;
    if e < minE { e := minE; }
    MoveTo(a, e);
    MoveTo(b, e);
  }

  // ------------------------------------------------------------ comparing

  // Only an operand far below the other is rounded, when neither has more than n digits.
  lemma FarBelow(x: Dec, y: Dec, n: nat)
    requires 1 <= n <= 35 && x.coeff < Pow10(n) && y.coeff < Pow10(n) && x.exp < Common(x, y)
    ensures Common(x, y) + 37 - n <= y.exp && Top(y) == Common(x, y) + 37
    ensures Top(x) <= Common(x, y) + n - 1
  {
    hide NumDigits, Pow10;
    DigitsAtMost(x.coeff, n);
    DigitsAtMost(y.coeff, n);
  }

  // A coefficient of 113 bits: at most 35 digits.
  predicate Stored(d: Dec) { d.coeff < TWO113 }

  lemma StoredDigits(d: Dec)
    requires Stored(d)
    ensures d.coeff < Pow10(35)
  {
    Pow10Size();
    assert Pow10(35) == 10 * Pow10(34);
  }

  // The lowest a number with its highest digit at a place can be.
  lemma LeastAt(y: Dec, e: int)
    requires y.coeff > 0 && e <= y.exp
    ensures Pow10(Top(y) - 1 - e) <= y.coeff * Pow10(y.exp - e)
  {
    hide NumDigits;
    var n, k := NumDigits(y.coeff), y.exp - e;
    DigitsBound(y.coeff);
    Pow10Add(n - 1, k);
    MulMono(Pow10(n - 1), y.coeff, Pow10(k));
  }

  lemma MostAt(x: Dec)
    ensures Top(x) > x.exp
    ensures x.coeff < Pow10(Top(x) - x.exp)
  {
    DigitsBound(x.coeff);
  }

  // So the order after rounding is the order before.
  lemma RoundedFar(x: Dec, y: Dec, e: int, x': Dec, y': Dec)
    requires Stored(x) && Stored(y) && y.coeff > 0
    requires e == Common(x, y) && MovedTo(x, e, x') && MovedTo(y, e, y')
    requires x.exp < e
    ensures e <= y.exp
    ensures x'.coeff < y'.coeff
    ensures x.coeff < y.coeff * Pow10(y.exp - x.exp)
  {
    hide NumDigits, Nearest, Top, Common, Stored, Pow10;
    StoredDigits(x);
    StoredDigits(y);
    FarBelow(x, y, 35);
    RoundedBelow(x, e, x'.coeff, 34);
    LeastAt(y, e);
    Pow10Mono(34, 36);
    MostAt(x);
    LeastAt(y, x.exp);
    Pow10Mono(Top(x) - x.exp, Top(y) - 1 - x.exp);
  }

  // Alignment keeps the order of magnitudes.
  lemma OrderKept(x: Dec, y: Dec, x': Dec, y': Dec)
    requires Stored(x) && Stored(y) && x.coeff > 0 && y.coeff > 0
    requires var e := Common(x, y); MovedTo(x, e, x') && MovedTo(y, e, y')
    ensures var m := Min(x.exp, y.exp);
      Sign(x'.coeff - y'.coeff) == Sign(x.coeff * Pow10(x.exp - m) - y.coeff * Pow10(y.exp - m))
  {
    hide NumDigits, Nearest, Pow10;
    var e := Common(x, y);
    if x.exp < e {
      RoundedFar(x, y, e, x', y');
      OneUnit(x.coeff);
    } else if y.exp < e {
      CommonSwap(x, y);
      RoundedFar(y, x, e, y', x');
      OneUnit(y.coeff);
    }
  }

  lemma CommonSwap(x: Dec, y: Dec)
    ensures Common(x, y) == Common(y, x)
  {}

  lemma SignedTimes(sign: bool, n: nat, p: nat)
    ensures Signed(sign, n) * p == Signed(sign, n * p)
  {}

  lemma Positive(n: nat, p: nat)
    requires n > 0 && p > 0
    ensures n * p > 0
  {}

  function SignOf(d: Dec): int { if d.coeff == 0 then 0 else if d.sign then -1 else 1 }

  lemma UnitsSign(d: Dec, m: int)
    requires m <= d.exp
    ensures Sign(Units(d, m)) == SignOf(d)
    ensures Units(d, m) == Signed(d.sign, d.coeff * Pow10(d.exp - m))
  {
    SignedTimes(d.sign, d.coeff, Pow10(d.exp - m));
    if d.coeff > 0 { Positive(d.coeff, Pow10(d.exp - m)); }
  }

  method CmpValues(x: Dec, y: Dec) returns (r: int)
    requires Stored(x) && Stored(y)
    ensures r == Sign(Difference(x, y))
  {
    hide NumDigits, Nearest, Pow10, Units, MovedTo;
    var m := Min(x.exp, y.exp);
    UnitsSign(x, m);
    UnitsSign(y, m);
    if x.coeff == 0 && y.coeff == 0 { return 0; }
    var xs, ys := SignOf(x), SignOf(y);
    if xs != ys {
      return if xs < ys then -1 else 1;
    }
    var a := new Operand(x);
    var b := new Operand(y);
    Align(a, b);
    OrderKept(x, y, a.Value(), b.Value());
    var mag := if a.coeff < b.coeff then -1 else if a.coeff > b.coeff then 1 else 0;
    r := if xs < 0 then -mag else mag;
  }

  // Specials compare equal to everything.
  method Cmp(a: u128, b: u128) returns (r: int)
    ensures Decode(a).Finite? && Decode(b).Finite? ==> r == Sign(Difference(Decode(a).d, Decode(b).d))
    ensures Decode(a).Special? || Decode(b).Special? ==> r == 0
  {
    hide Difference, Pow10;
    var x, y := Decode(a), Decode(b);
    if x.Special? || y.Special? { return 0; }
    r := CmpValues(x.d, y.d);
  }

  // ------------------------------------------------------------ rounding to 34 digits

  // Digits past the 34th.
  function Extra(n: nat): nat { if NumDigits(n) > MAX_DIGITS then NumDigits(n) - MAX_DIGITS else 0 }

  // n * 10^e rounded half to even at 34 digits, with the carry out of the top renormalised.
  function Round34(sign: bool, n: nat, e: int): Dec {
    var q := Rounded(n, Pow10(Extra(n)));
    if q == Pow10(34) then Dec(sign, Pow10(33), e + Extra(n) + 1)
    else Dec(sign && q > 0, q, e + Extra(n))
  }

  lemma ExtraBound(n: nat)
    ensures n < Pow10(34) <==> Extra(n) == 0
    ensures n < Pow10(34 + Extra(n))
    ensures Rounded(n, Pow10(Extra(n))) <= Pow10(34)
  {
    hide NumDigits, Pow10, Rounded, Nearest;
    DigitsAtMost(n, 34);
    DigitsBound(n);
    Pow10Mono(NumDigits(n), 34 + Extra(n));
    Pow10Add(34, Extra(n));
    NearestAtMost(Rounded(n, Pow10(Extra(n))), n, Pow10(Extra(n)), Pow10(34));
  }

  lemma RoundOne(n: nat)
    ensures Rounded(n, Pow10(0)) == n
  {}

  // What does not need rounding is kept as it is; what comes out is a decimal.
  lemma Round34Canonical(sign: bool, n: nat, e: int)
    ensures Canonical(Round34(sign, n, e))
    ensures n < Pow10(34) ==> Round34(sign, n, e) == Dec(sign && n > 0, n, e)
  {
    hide NumDigits, Pow10, Rounded;
    ExtraBound(n);
    RoundOne(n);
    Pow10Mono(33, 34);
  }

  lemma TenthOf(q: nat)
    requires q == Pow10(34)
    ensures Nearest(Pow10(33), q, Pow10(1))
  {
    hide Nearest, Pow10;
    Pow10Add(33, 1);
    NearestExact(Pow10(33), Pow10(1));
  }

  method Encode(sign: bool, coeff: u128, exp: int) returns (v: u128)
    ensures v == Pack(Round34(sign, coeff, exp))
  {
    hide NumDigits, Nearest, Pow10, Rounded, Pack;
    var c, e := coeff, exp;
    var nd := DecNumDigits(coeff);
    ExtraBound(coeff);
    RoundOne(coeff);
    if nd > MAX_DIGITS {
      var drop := nd - MAX_DIGITS;
      c := RoundDrop(c, drop);
      RoundedIs(c, coeff, Pow10(drop));
      e := e + drop;
      var n := DecNumDigits(c);
      DigitsAtMost(c, 34);
      if n > MAX_DIGITS {
        ghost var q := c;
        c := RoundDrop(c, 1);
        TenthOf(q);
        NearestUnique(c, Pow10(33), q, Pow10(1));
        e := e + 1;
      }
    }
    v := Pack(Dec(if c == 0 then false else sign, c, e));
  }

  // ------------------------------------------------------------ adding

  function Moved(d: Dec, e: int): Dec {
    if e <= d.exp then Dec(d.sign, d.coeff * Pow10(d.exp - e), e)
    else Dec(d.sign, Rounded(d.coeff, Pow10(e - d.exp)), e)
  }

  lemma MovedIs(d: Dec, e: int, r: Dec)
    requires MovedTo(d, e, r)
    ensures r == Moved(d, e)
  {
    if e > d.exp { RoundedIs(r.coeff, d.coeff, Pow10(e - d.exp)); }
  }

  // n in units of 10^e, as a decimal of 34 digits.
  function Sum34(n: int, e: int): Dec { Round34(n < 0, Abs(n), e) }

  // The sum of the operands as aligned.
  function AlignedSum(x: Dec, y: Dec): Dec {
    var e := Common(x, y);
    Sum34(Units(Moved(x, e), e) + Units(Moved(y, e), e), e)
  }

  // The exact sum, rounded once.
  function ExactSum(x: Dec, y: Dec): Dec {
    var m := Min(x.exp, y.exp);
    Sum34(Units(x, m) + Units(y, m), m)
  }

  // d is n * 10^e with its first 34 digits kept: the next ones are rounded away half to even, and
  // a carry to 35 digits goes into the exponent.
  ghost predicate Keeps34(d: Dec, n: nat, e: int) {
    exists k: nat, q: nat ::
      && (if n < Pow10(34) then k == 0 else Pow10(33 + k) <= n < Pow10(34 + k))
      && Nearest(q, n, Pow10(k))
      && (if q < Pow10(34) then d.coeff == q && d.exp == e + k
          else q == Pow10(34) && d.coeff == Pow10(33) && d.exp == e + k + 1)
  }

  lemma Round34Is(sign: bool, n: nat, e: int)
    ensures Keeps34(Round34(sign, n, e), n, e) && (Round34(sign, n, e).sign <==> sign && n > 0)
  {
    hide NumDigits, Pow10, Nearest, Rounded;
    var k := Extra(n);
    var q := Rounded(n, Pow10(k));
    ExtraBound(n);
    DigitsBound(n);
    if k > 0 {
      Pow10Add(33, k);
      NearestAtLeast(q, n, Pow10(k), Pow10(33));
    } else {
      RoundOne(n);
    }
    assert Nearest(q, n, Pow10(k));
  }

  // In numbers: the sum of the two values, in units of the lower exponent.
  lemma ExactSumIs(x: Dec, y: Dec)
    ensures var m, a: int, b: int := if x.exp < y.exp then x.exp else y.exp, x.coeff, y.coeff;
      var t := (if x.sign then -a else a) * Pow10(x.exp - m) + (if y.sign then -b else b) * Pow10(y.exp - m);
      Keeps34(ExactSum(x, y), if t < 0 then -t else t, m) && (ExactSum(x, y).sign <==> t < 0)
  {
    hide Pow10, Round34, Keeps34;
    var m := Min(x.exp, y.exp);
    var t := Units(x, m) + Units(y, m);
    Round34Is(t < 0, Abs(t), m);
  }

  // The places from the highest digit of either operand to the lowest.
  function Span(x: Dec, y: Dec): int { Max(Top(x), Top(y)) - Min(x.exp, y.exp) }

  lemma UnitsMoved(d: Dec, e: int)
    requires e <= d.exp
    ensures Units(Moved(d, e), e) == Units(d, e)
  {
    SignedTimes(d.sign, d.coeff, Pow10(d.exp - e));
  }

  // Within 37 places nothing is rounded before the sum is.
  lemma SumExact(x: Dec, y: Dec)
    requires Span(x, y) <= 37
    ensures AlignedSum(x, y) == ExactSum(x, y)
  {
    hide NumDigits, Units, Moved, Sum34;
    var e := Common(x, y);
    UnitsMoved(x, e);
    UnitsMoved(y, e);
  }

  lemma SignedSum(a: Dec, b: Dec, e: int)
    requires a.exp == e == b.exp
    ensures Units(a, e) == Signed(a.sign, a.coeff) && Units(b, e) == Signed(b.sign, b.coeff)
  {
    OneUnit(a.coeff);
    OneUnit(b.coeff);
  }

  lemma ZeroSign(s: bool, t: bool, e: int)
    ensures Round34(s, 0, e) == Round34(t, 0, e)
  {
    Round34Canonical(s, 0, e);
    Round34Canonical(t, 0, e);
  }

  method AddSigned(a: Operand, b: Operand) returns (v: u128)
    requires a != b
    modifies a, b
    ensures v == Pack(AlignedSum(old(a.Value()), old(b.Value())))
  {
    hide NumDigits, Nearest, Pow10, Rounded, Pack, Round34, MovedTo, Moved, Units, Common;
    ghost var x, y := a.Value(), b.Value();
    Align(a, b);
    ghost var e := Common(x, y);
    MovedIs(x, e, a.Value());
    MovedIs(y, e, b.Value());
    Pow10Size();
    MovedExp(x, e);
    MovedExp(y, e);
    SignedSum(a.Value(), b.Value(), e);
    ZeroSign(false, a.sign, e);
    var sign, coeff;
    if a.sign == b.sign {
      coeff := a.coeff + b.coeff;
      sign := a.sign;
    } else if a.coeff >= b.coeff {
      coeff := a.coeff - b.coeff;
      sign := a.sign;
    } else {
      coeff := b.coeff - a.coeff;
      sign := b.sign;
    }
    v := Encode(sign, coeff, a.exp);
  }

  lemma MovedExp(d: Dec, e: int)
    ensures Moved(d, e).exp == e
  {}

  const ZERO := Dec(false, 0, 0)

  // Exact and rounded once within 37 places; a special operand gives zero.
  method Add(a: u128, b: u128) returns (v: u128)
    ensures Decode(a).Finite? && Decode(b).Finite? ==>
      var x, y := Decode(a).d, Decode(b).d;
      && v == Pack(AlignedSum(x, y))
      && (Span(x, y) <= 37 && InRange(ExactSum(x, y).exp) ==> Decode(v) == Finite(ExactSum(x, y)))
    ensures Decode(a).Special? || Decode(b).Special? ==> Decode(v) == Finite(ZERO)
  {
    hide Decode, Pack, AlignedSum, ExactSum, Span;
    v := AddDecoded(Decode(a), Decode(b));
  }

  // The sign of the second operand is turned over.
  method Sub(a: u128, b: u128) returns (v: u128)
    ensures Decode(a).Finite? && Decode(b).Finite? ==>
      var x, z := Decode(a).d, Decode(b).d;
      var y := Dec(!z.sign, z.coeff, z.exp);
      && v == Pack(AlignedSum(x, y))
      && (Span(x, y) <= 37 && InRange(ExactSum(x, y).exp) ==> Decode(v) == Finite(ExactSum(x, y)))
    ensures Decode(a).Special? || Decode(b).Special? ==> Decode(v) == Finite(ZERO)
  {
    hide Decode, Pack, AlignedSum, ExactSum, Span;
    v := AddDecoded(Decode(a), Negated(Decode(b)));
  }

  function Negated(d: Decoded): (r: Decoded)
    ensures r.Finite? == d.Finite?
  {
    if d.Finite? then Finite(d.d.(sign := !d.d.sign)) else Special(!d.sign)
  }

  method AddDecoded(a: Decoded, b: Decoded) returns (v: u128)
    requires a.Finite? ==> a.d.coeff < TWO128
    requires b.Finite? ==> b.d.coeff < TWO128
    ensures a.Finite? && b.Finite? ==>
      && v == Pack(AlignedSum(a.d, b.d))
      && (Span(a.d, b.d) <= 37 && InRange(ExactSum(a.d, b.d).exp) ==> Decode(v) == Finite(ExactSum(a.d, b.d)))
    ensures a.Special? || b.Special? ==> Decode(v) == Finite(ZERO)
  {
    hide Pack, Span, AlignedSum, ExactSum, Decode;
    DecodePack(ZERO);
    if a.Special? || b.Special? {
      return Pack(ZERO);
    }
    var x := new Operand(a.d);
    var y := new Operand(b.d);
    v := AddSigned(x, y);
    if Span(a.d, b.d) <= 37 && InRange(ExactSum(a.d, b.d).exp) {
      SumExact(a.d, b.d);
      SumCanonical(a.d, b.d);
      Coefficients(ExactSum(a.d, b.d));
      DecodePack(ExactSum(a.d, b.d));
    }
  }

  lemma SumCanonical(x: Dec, y: Dec)
    ensures Canonical(ExactSum(x, y))
  {
    hide Round34, Pow10;
    var m := Min(x.exp, y.exp);
    var n := Units(x, m) + Units(y, m);
    Round34Canonical(n < 0, Abs(n), m);
  }

  // ------------------------------------------------------------ multiplying

  // The product, before rounding.
  function Product(x: Dec, y: Dec): Dec {
    Round34(x.sign != y.sign, x.coeff * y.coeff, x.exp + y.exp)
  }

  lemma ProductBelow(a: nat, b: nat)
    requires a == 0 || b == 0 || NumDigits(a) + NumDigits(b) <= 34
    ensures a * b < Pow10(34)
  {
    hide NumDigits, Pow10;
    if a == 0 || b == 0 {
      assert a * b == 0;
    } else {
      var m, n := NumDigits(a), NumDigits(b);
      DigitsBound(a);
      DigitsBound(b);
      MulStrict(a, Pow10(m), b);
      MulMono(b, Pow10(n), Pow10(m));
      assert b * Pow10(m) == Pow10(m) * b && Pow10(n) * Pow10(m) == Pow10(m) * Pow10(n);
      Pow10Add(m, n);
      Pow10Mono(m + n, 34);
    }
  }

  lemma DropShrinks(c: nat, q: nat)
    requires c >= 10 && Nearest(q, c, Pow10(1))
    ensures q < c
  {
    assert Pow10(1) == 10;
  }

  // c' is c without its last k digits, rounded one after another: less than 5/9 of a unit of
  // its last place away, and c itself when k is 0.
  predicate Shortened(c: nat, k: nat, c': nat) {
    9 * Abs(c' * Pow10(k) - c) <= 5 * (Pow10(k) - 1) && (k > 0 ==> NumDigits(c') >= 17)
  }

  lemma NotShortened(c: nat)
    ensures Shortened(c, 0, c)
  {}

  // One more digit rounded off.
  lemma ShortenedMore(c: nat, k: nat, x: nat, x': nat)
    requires Shortened(c, k, x) && NumDigits(x) >= 18 && Nearest(x', x, Pow10(1))
    ensures Shortened(c, k + 1, x') && NumDigits(x') + 1 >= NumDigits(x)
  {
    hide Pow10, NumDigits;
    OneTen();
    OneLess(x, x', NumDigits(x) - 1);
    ShortenedError(c, Pow10(k), x, x');
    Pow10Add(1, k);
  }

  lemma OneLess(x: nat, x': nat, m: nat)
    requires NumDigits(x) == m + 1 && m >= 1 && Nearest(x', x, Pow10(1))
    ensures NumDigits(x') >= m
  {
    hide Nearest, NumDigits;
    DigitsAtMost(x, 1);
    DigitsBound(x);
    Pow10Add(m - 1, 1);
    OneTen();
    NearestAtLeast(x', x, Pow10(1), Pow10(m - 1));
    if m >= 2 { DigitsAtMost(x', m - 1); }
  }

  lemma Scaled(x: int, e: int, p: nat)
    requires -5 <= e <= 5
    ensures (x + e) * p == x * p + e * p && -5 * p <= e * p <= 5 * p
  {}

  lemma ShortenedError(c: nat, p: nat, x: nat, x': nat)
    requires p > 0 && 9 * Abs(x * p - c) <= 5 * (p - 1) && Nearest(x', x, 10)
    ensures 9 * Abs(x' * (10 * p) - c) <= 5 * (10 * p - 1)
  {
    var e := x' * 10 - x;
    MulAssoc(x', 10, p);
    Scaled(x, e, p);
    assert x' * (10 * p) == x * p + e * p;
  }

  // Operands with more than 34 digits between them are shortened first, the longer one by a digit
  // at a time, to exactly 34 digits together; the product of what is left is exact.
  method Mul(a: u128, b: u128) returns (v: u128, ghost i: nat, ghost j: nat, ghost xs: nat, ghost ys: nat)
    ensures Decode(a).Finite? && Decode(b).Finite? ==>
      var x, y := Decode(a).d, Decode(b).d;
      var z := Product(Dec(x.sign, xs, x.exp + i), Dec(y.sign, ys, y.exp + j));
      && Shortened(x.coeff, i, xs) && Shortened(y.coeff, j, ys)
      && (i + j > 0 <==> x.coeff != 0 && y.coeff != 0 && NumDigits(x.coeff) + NumDigits(y.coeff) > MAX_DIGITS)
      && (i + j > 0 ==> NumDigits(xs) + NumDigits(ys) == MAX_DIGITS)
      && v == Pack(z) && z.coeff == xs * ys && z.exp == x.exp + i + y.exp + j && (z.sign <==> x.sign != y.sign && xs * ys > 0)
    ensures Decode(a).Special? || Decode(b).Special? ==> Decode(v) == Finite(ZERO)
  {
    hide Decode, Pack, Round34, Nearest, Pow10, NumDigits, Shortened;
    DecodePack(ZERO);
    i, j, xs, ys := 0, 0, 0, 0;
    var p, q := Decode(a), Decode(b);
    if p.Special? || q.Special? { v := Pack(ZERO); return; }
    var x: u128, xe, y: u128, ye := p.d.coeff, p.d.exp, q.d.coeff, q.d.exp;
    NotShortened(x);
    NotShortened(y);
    while true
      invariant xe == p.d.exp + i && ye == q.d.exp + j
      invariant Shortened(p.d.coeff, i, x) && Shortened(q.d.coeff, j, y)
      invariant if i + j == 0 then x == p.d.coeff && y == q.d.coeff
                else p.d.coeff != 0 && q.d.coeff != 0 && x != 0 && y != 0 && NumDigits(p.d.coeff) + NumDigits(q.d.coeff) > MAX_DIGITS
                     && NumDigits(x) + NumDigits(y) >= MAX_DIGITS
      decreases x + y
    {
      if x == 0 || y == 0 { break; }
      var m := DecNumDigits(x);
      var n := DecNumDigits(y);
      if m + n <= MAX_DIGITS { break; }
      if m >= n {
        var x' := DropOne(p.d.coeff, i, x);
        x, xe, i := x', xe + 1, i + 1;
      } else {
        var y' := DropOne(q.d.coeff, j, y);
        y, ye, j := y', ye + 1, j + 1;
      }
    }
    xs, ys := x, y;
    ProductBelow(x, y);
    Pow10Size();
    Round34Canonical(p.d.sign != q.d.sign, x * y, xe + ye);
    v := Encode(p.d.sign != q.d.sign, x * y, xe + ye);
  }

  // dec_round_drop by one digit.
  method DropOne(ghost c: nat, ghost k: nat, x: u128) returns (x': u128)
    requires Shortened(c, k, x) && NumDigits(x) >= 18
    ensures Shortened(c, k + 1, x') && NumDigits(x') + 1 >= NumDigits(x) && 0 < x' < x
  {
    hide Nearest, Pow10, NumDigits, Shortened;
    DigitsAtMost(x, 1);
    OneTen();
    x' := RoundDrop(x, 1);
    DropShrinks(x, x');
    ShortenedMore(c, k, x, x');
    DigitsAtMost(x', 1);
  }

  lemma OneTen()
    ensures Pow10(1) == 10
  {}
}
