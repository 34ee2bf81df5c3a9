// Decimals of 34 digits packed in 128 bits, and rounding half to even
// (src/runtime/decimal.cpp:12-26, 153-199, 201-215; section 4.3.1 of IEEE 754-2008).

module Decimal128 {
  import opened Powers

  const TWO128 := 0x1_0000_0000_0000_0000_0000_0000_0000_0000

  // An unsigned 128-bit register: no value given to one may wrap.
  type u128 = x: int | 0 <= x < TWO128

  const BIAS := 6176
  const MAX_DIGITS := 34
  const MAX_BIASED := 12287

  // (-1)^sign * coeff * 10^exp.
  datatype Dec = Dec(sign: bool, coeff: nat, exp: int)

  // ------------------------------------------------------------ powers of ten

  function Pow10(n: nat): (r: nat)
    ensures r >= 1
  {
    if n == 0 then 1 else 10 * Pow10(n - 1)
  }

  lemma {:induction false} Pow10Add(a: nat, b: nat)
    ensures Pow10(a + b) == Pow10(a) * Pow10(b)
  {
    if a > 0 {
      Pow10Add(a - 1, b);
      MulAssoc(10, Pow10(a - 1), Pow10(b));
    }
  }

  lemma TenTimes(j: nat)
    requires j >= 1
    ensures Pow10(j) == 10 * Pow10(j - 1)
  {}

  lemma {:induction false} Pow10Mono(m: nat, n: nat)
    requires m <= n
    ensures Pow10(m) <= Pow10(n)
    ensures m < n ==> 10 * Pow10(m) <= Pow10(n)
    decreases n
  {
    if m < n { Pow10Mono(m, n - 1); }
  }

  lemma Pow10Size()
    ensures Pow10(34) == 10000000000000000000000000000000000
    ensures Pow10(37) == 10000000000000000000000000000000000000
    ensures Pow10(38) == 100000000000000000000000000000000000000
    ensures Pow10(39) == 1000000000000000000000000000000000000000
  {
    assert Pow10(8) == 100000000;
    assert Pow10(16) == 10000000000000000;
    assert Pow10(24) == 1000000000000000000000000;
    assert Pow10(32) == 100000000000000000000000000000000;
  }

  // The powers a 128-bit coefficient can be divided by.
  lemma Pow10Fits(k: nat)
    requires k <= 38
    ensures Pow10(k) < TWO128
  {
    Pow10Size();
    Pow10Mono(k, 38);
  }

  method DecPow10(k: nat) returns (r: u128)
    requires k <= 38
    ensures r == Pow10(k)
  {
    r := 1;
    var i := k;
    while i > 0
      invariant 0 <= i <= k && r == Pow10(k - i)
    {
      Pow10Fits(k - i + 1);
      r := r * 10;
      i := i - 1;
    }
  }

  // ------------------------------------------------------------ counting digits

  function NumDigits(v: nat): (n: nat)
    ensures n >= 1
  {
    if v < 10 then 1 else 1 + NumDigits(v / 10)
  }

  lemma {:induction false} DigitsBound(v: nat)
    ensures v < Pow10(NumDigits(v))
    ensures v > 0 ==> Pow10(NumDigits(v) - 1) <= v
  {
    if v >= 10 { DigitsBound(v / 10); }
  }

  lemma {:induction false} DigitsAtMost(v: nat, n: nat)
    requires n >= 1
    ensures NumDigits(v) <= n <==> v < Pow10(n)
  {
    DigitsBound(v);
    if NumDigits(v) <= n {
      Pow10Mono(NumDigits(v), n);
    } else {
      Pow10Mono(n, NumDigits(v) - 1);
    }
  }

  method DecNumDigits(v: u128) returns (n: nat)
    ensures n == NumDigits(v)
    ensures n <= 39
  {
    n := 0;
    var w := v;
    while true
      invariant 0 <= w <= v && n + NumDigits(w) == NumDigits(v)
      decreases w
    {
      n := n + 1;
      if w < 10 { break; }
      w := w / 10;
    }
    Pow10Size();
    DigitsAtMost(v, 39);
  }

  // ------------------------------------------------------------ rounding half to even

  function Abs(x: int): nat { if x < 0 then -x else x }

  // q is the integer nearest to n / d, the even one of two equally near.
  predicate Nearest(q: nat, n: nat, d: nat) {
    && 2 * Abs(q * d - n) <= d
    && (2 * Abs(q * d - n) == d ==> q % 2 == 0)
  }

  // There is only one: of two neighbours equally near, one is odd.
  lemma NearestUnique(p: nat, q: nat, n: nat, d: nat)
    requires d > 0 && Nearest(p, n, d) && Nearest(q, n, d)
    ensures p == q
  {
    if p < q {
      HalfAway(p, q, n, d);
    } else if q < p {
      HalfAway(q, p, n, d);
    }
  }

  lemma HalfAway(p: nat, q: nat, n: nat, d: nat)
    requires d > 0 && p < q && 2 * Abs(p * d - n) <= d && 2 * Abs(q * d - n) <= d
    ensures q == p + 1 && 2 * Abs(p * d - n) == d == 2 * Abs(q * d - n)
  {
    Spread(p, q, q - p - 1, d);
  }

  lemma Spread(p: nat, q: nat, e: nat, d: nat)
    requires q == p + 1 + e
    ensures q * d == p * d + d + e * d && 0 <= p * d && 0 <= q * d && 0 <= e * d
    ensures e > 0 ==> d <= e * d
  {
    MulAdd(p, 1, d);
    MulAdd(p + 1, e, d);
    if e > 0 { MulMono(1, e, d); }
  }

  // It, by division.
  function Rounded(n: nat, d: nat): (q: nat)
    requires d > 0
    ensures Nearest(q, n, d)
  {
    var q, r := n / d, n % d;
    NearestFound(n, d, q, r);
    if 2 * r > d || (2 * r == d && q % 2 == 1) then q + 1 else q
  }

  lemma NearestFound(n: nat, d: nat, q: nat, r: nat)
    requires d > 0 && n == q * d + r && r < d
    ensures Nearest(if 2 * r > d || (2 * r == d && q % 2 == 1) then q + 1 else q, n, d)
  {
    MulAdd(q, 1, d);
  }

  // In numbers: of q and r from dividing by d, q when r is below half of d or just half with q
  // even, and q + 1 otherwise.
  lemma NearestIs(x: nat, q: nat, r: nat, d: nat)
    requires d > 0 && r < d
    ensures Nearest(x, q * d + r, d) <==> x == if 2 * r < d || (2 * r == d && q % 2 == 0) then q else q + 1
  {
    hide Nearest;
    var n := q * d + r;
    var y := if 2 * r < d || (2 * r == d && q % 2 == 0) then q else q + 1;
    NearestFound(n, d, q, r);
    if Nearest(x, n, d) { NearestUnique(x, y, n, d); }
  }

  lemma RoundedIs(q: nat, n: nat, d: nat)
    requires d > 0 && Nearest(q, n, d)
    ensures q == Rounded(n, d)
  {
    NearestUnique(q, Rounded(n, d), n, d);
  }

  lemma NearestExact(q: nat, d: nat)
    requires d > 0
    ensures Nearest(q, q * d, d)
  {}

  // Rounding does not pass a whole number.
  lemma NearestAtMost(q: nat, n: nat, d: nat, m: nat)
    requires d > 0 && Nearest(q, n, d) && n <= m * d
    ensures q <= m
  {
    if q > m {
      MulMono(m + 1, q, d);
      MulAdd(m, 1, d);
    }
  }

  lemma NearestAtLeast(q: nat, n: nat, d: nat, m: nat)
    requires d > 0 && Nearest(q, n, d) && n >= m * d
    ensures q >= m
  {
    if q < m {
      MulMono(q + 1, m, d);
      MulAdd(q, 1, d);
    }
  }

  method RoundDrop(coeff: u128, k: int) returns (q: u128)
    ensures k <= 0 ==> q == coeff
    ensures k > 0 ==> Nearest(q, coeff, Pow10(k)) && q <= coeff
  {
    hide Pow10, Nearest;
    if k <= 0 { return coeff; }
    if k >= 39 {
      DropAll(coeff, k);
      return 0;
    }
    var div := DecPow10(k);
    DivMod(coeff, div);
    q := coeff / div;
    var r := coeff % div;
    var half := div / 2;
    TenTimes(k);
    assert half == 5 * Pow10(k - 1);
    NearestFound(coeff, div, q, r);
    RoundedFits(coeff, div, q);
    if r > half {
      q := q + 1;
    } else if r == half && q % 2 == 1 {
      q := q + 1;
    }
  }

  lemma DivMod(n: nat, d: nat)
    requires d > 0
    ensures n == n / d * d + n % d && 0 <= n / d && 0 <= n % d < d
  {}

  lemma RoundedFits(n: nat, d: nat, q: nat)
    requires d >= 10 && n == q * d + n % d && 0 <= n % d < d
    ensures n % d > 0 && n % d >= d / 2 ==> q + 1 <= n
    ensures q <= n
  {
    MulMono(10, d, q);
    if q > 0 { assert q * d >= 10 * q >= q + 1; }
  }

  // No coefficient reaches half of 10^39.
  lemma DropAll(coeff: u128, k: nat)
    requires k >= 39
    ensures Nearest(0, coeff, Pow10(k))
  {
    Pow10Size();
    Pow10Mono(39, k);
  }

  // ------------------------------------------------------------ packing

  const TWO113: nat := 0x2_0000_0000_0000_0000_0000_0000_0000
  const TWO127: nat := 0x8000_0000_0000_0000_0000_0000_0000_0000

  predicate InRange(exp: int) { -BIAS <= exp <= MAX_BIASED - BIAS }

  function Clamp(x: int): nat { if x < 0 then 0 else if x > MAX_BIASED then MAX_BIASED else x }

  // Sign, fourteen bits of biased exponent, and 113 bits of coefficient.
  function Pack(d: Dec): u128 {
    d.coeff % TWO113 + Clamp(d.exp + BIAS) * TWO113 + (if d.sign then TWO127 else 0)
  }

  datatype Decoded = Special(sign: bool) | Finite(d: Dec)

  function Decode(v: u128): (r: Decoded)
    ensures r.Finite? ==> r.d.coeff < TWO113 && InRange(r.d.exp)
  {
    var sign := v / TWO127 == 1;
    var rest := v % TWO127;
    // both bits above the coefficient and the twelve exponent bits set
    if rest / (TWO113 * 0x1000) % 4 == 3 then Special(sign)
    else Finite(Dec(sign, rest % TWO113, rest / TWO113 - BIAS))
  }

  // What is packed is read back, when it can be packed at all.
  lemma DecodePack(d: Dec)
    requires d.coeff < TWO113 && InRange(d.exp)
    ensures Decode(Pack(d)) == Finite(d)
  {
    var b := d.exp + BIAS;
    var rest := b * TWO113 + d.coeff;
    assert 0 <= rest < TWO127;
    SignField(rest, d.sign);
    CoefficientField(b, d.coeff);
  }

  // The fields of a word, in numbers: sign, exponent from -6176 on, coefficient.
  lemma PackIs(d: Dec)
    requires d.coeff < 0x2_0000_0000_0000_0000_0000_0000_0000 && -6176 <= d.exp <= 6111
    ensures Pack(d) == (if d.sign then 0x8000_0000_0000_0000_0000_0000_0000_0000 else 0)
                       + (d.exp + 6176) * 0x2_0000_0000_0000_0000_0000_0000_0000 + d.coeff
  {}

  // An exponent out of range is packed as the nearest one in range.
  lemma PackClamps(d: Dec)
    ensures d.exp < -6176 ==> Pack(d) == Pack(d.(exp := -6176))
    ensures d.exp > 6111 ==> Pack(d) == Pack(d.(exp := 6111))
  {}

  // The word of 1.
  lemma OneIs()
    ensures Pack(Dec(false, 1, 0)) == 0x3040_0000_0000_0000_0000_0000_0000_0001
  {
    PackIs(Dec(false, 1, 0));
  }

  // Any word: the two bits below the sign tell a special value.
  lemma WordIs(v: u128)
    ensures var rest := v % 0x8000_0000_0000_0000_0000_0000_0000_0000;
      var sign := v >= 0x8000_0000_0000_0000_0000_0000_0000_0000;
      if rest >= 0x6000_0000_0000_0000_0000_0000_0000_0000 then Decode(v) == Special(sign)
      else Decode(v) == Finite(Dec(sign, rest % 0x2_0000_0000_0000_0000_0000_0000_0000,
                                   rest / 0x2_0000_0000_0000_0000_0000_0000_0000 - 6176))
  {}

  lemma SignField(rest: nat, sign: bool)
    requires rest < TWO127
    ensures var v := rest + (if sign then TWO127 else 0); v / TWO127 == (if sign then 1 else 0) && v % TWO127 == rest
  {}

  lemma CoefficientField(b: nat, coeff: nat)
    requires coeff < TWO113 && b <= MAX_BIASED
    ensures var rest := b * TWO113 + coeff;
      rest / TWO113 == b && rest % TWO113 == coeff && rest / (TWO113 * 0x1000) < 3
  {
    DivModUnique(b * TWO113 + coeff, TWO113, b, coeff);
  }

  lemma Coefficients(d: Dec)
    requires d.coeff < Pow10(34)
    ensures d.coeff < TWO113
  {
    Pow10Size();
  }
}
