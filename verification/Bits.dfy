// Bit strings, the numbers they spell, and bit reversal.
// DEFLATE packs bits from the least significant end, but Huffman codes
// most significant bit first (sections 3.1.1 and 3.2.2 of RFC 1951).

module Bits {
  import opened Powers

  type byte = b: nat | b < 256

  // ------------------------------------------------------------ low and high parts

  // The low n bits of v, and v shifted right by n.
  function Lo(v: nat, n: nat): (r: nat)
    ensures r < Pow2(n)
  {
    if n == 0 then 0 else v % 2 + 2 * Lo(v / 2, n - 1)
  }

  function Hi(v: nat, n: nat): nat {
    if n == 0 then v else Hi(v / 2, n - 1)
  }

  lemma {:induction false} LoHi(v: nat, n: nat)
    ensures v == Hi(v, n) * Pow2(n) + Lo(v, n)
  {
    if n > 0 {
      LoHi(v / 2, n - 1);
      MulAssoc(Hi(v / 2, n - 1), Pow2(n - 1), 2);
    }
  }

  // Lo and Hi are remainder and quotient.
  lemma LoHiIs(v: nat, n: nat)
    ensures Lo(v, n) == v % Pow2(n)
    ensures Hi(v, n) == v / Pow2(n)
  {
    LoHi(v, n);
    DivModUnique(v, Pow2(n), Hi(v, n), Lo(v, n));
  }

  // The number with high part q and low n bits r.
  function Join(q: nat, r: nat, n: nat): nat {
    q * Pow2(n) + r
  }

  lemma LoOfJoin(q: nat, r: nat, n: nat)
    requires r < Pow2(n)
    ensures Lo(Join(q, r, n), n) == r
    ensures Hi(Join(q, r, n), n) == q
  {
    LoHiIs(Join(q, r, n), n);
    DivModUnique(Join(q, r, n), Pow2(n), q, r);
  }

  lemma JoinBound(x: nat, b: nat, v: nat, len: nat)
    requires b < Pow2(v) && x < Pow2(len)
    ensures Join(x, b, v) < Pow2(v + len)
  {
    Pow2Add(v, len);
    MulMono(x + 1, Pow2(len), Pow2(v));
    MulAdd(x, 1, Pow2(v));
  }

  lemma {:induction false} LoSmall(v: nat, n: nat)
    requires v < Pow2(n)
    ensures Lo(v, n) == v && Hi(v, n) == 0
  {
    if n > 0 { LoSmall(v / 2, n - 1); }
  }

  lemma {:induction false} HiFits(v: nat, m: nat, n: nat)
    requires v < Pow2(n) && m <= n
    ensures Hi(v, m) < Pow2(n - m)
  {
    if m > 0 { HiFits(v / 2, m - 1, n - 1); }
  }

  lemma {:induction false} LoLo(v: nat, m: nat, n: nat)
    requires m <= n
    ensures Lo(Lo(v, n), m) == Lo(v, m)
  {
    if m > 0 {
      DigitOf(Lo(v / 2, n - 1), v % 2);
      LoLo(v / 2, m - 1, n - 1);
    }
  }

  lemma {:induction false} HiHi(v: nat, m: nat, n: nat)
    ensures Hi(Hi(v, m), n) == Hi(v, m + n)
  {
    if m > 0 { HiHi(v / 2, m - 1, n); }
  }

  lemma {:induction false} LoSplit(v: nat, m: nat, n: nat)
    ensures Lo(v, m + n) == Lo(v, m) + Lo(Hi(v, m), n) * Pow2(m)
  {
    if m > 0 {
      LoSplit(v / 2, m - 1, n);
      MulAssoc(Lo(Hi(v, m), n), Pow2(m - 1), 2);
    }
  }

  lemma DigitOf(t: nat, b: nat)
    requires b < 2
    ensures (b + 2 * t) % 2 == b && (b + 2 * t) / 2 == t
  {}

  lemma LoDouble(v: nat, n: nat)
    requires n > 0
    ensures Lo(2 * v, n) == 2 * Lo(v, n - 1)
  {
    DigitOf(v, 0);
  }

  // ------------------------------------------------------------ reversal

  // The low n bits of v, in the opposite order.
  function Rev(v: nat, n: nat): (r: nat)
    ensures r < Pow2(n)
  {
    if n == 0 then 0 else (v % 2) * Pow2(n - 1) + Rev(v / 2, n - 1)
  }

  // Reversal also peels the other end: bit n-1 of v comes out last.
  lemma {:induction false} RevTop(v: nat, n: nat)
    requires n > 0
    ensures Rev(v, n) == 2 * Rev(v, n - 1) + Hi(v, n - 1) % 2
  {
    hide Rev, Hi, Pow2;
    RevStep(v, n);
    HiStep(v, n - 1);
    if n > 1 {
      RevTop(v / 2, n - 1);
      RevStep(v, n - 1);
    }
  }

  // One digit at a time.
  lemma RevStep(v: nat, n: nat)
    requires n > 0
    ensures Rev(v, n) == (if v % 2 == 1 then Pow2(n - 1) else 0) + Rev(v / 2, n - 1)
    ensures n > 1 ==> Pow2(n - 1) == 2 * Pow2(n - 2)
    ensures n == 1 ==> Pow2(n - 1) == 1 && Rev(v, 0) == 0 == Rev(v / 2, 0)
  {}

  lemma HiStep(v: nat, n: nat)
    ensures Hi(v, n) == if n == 0 then v else Hi(v / 2, n - 1)
  {}

  lemma {:induction false} RevLow(v: nat, n: nat)
    ensures Rev(Lo(v, n), n) == Rev(v, n)
  {
    if n > 0 {
      RevLow(v / 2, n - 1);
      DigitOf(Lo(v / 2, n - 1), v % 2);
    }
  }

  lemma {:induction false} RevRev(v: nat, n: nat)
    ensures Rev(Rev(v, n), n) == Lo(v, n)
  {
    if n > 0 {
      RevTop(v, n);
      RevRev(v, n - 1);
      DigitOf(Rev(v, n - 1), Hi(v, n - 1) % 2);
      LoSplit(v, n - 1, 1);
      assert Lo(Hi(v, n - 1), 1) == Hi(v, n - 1) % 2;
    }
  }

  // The leading m bits of the reversed word are the trailing m bits of the word.
  lemma {:induction false} RevPrefix(h: nat, m: nat, n: nat)
    requires m <= n
    ensures Hi(Rev(h, n), n - m) == Rev(h, m)
    decreases n
  {
    if m < n {
      RevTop(h, n);
      RevPrefix(h, m, n - 1);
      assert Rev(h, n) / 2 == Rev(h, n - 1);
    }
  }

  // Padding the code with zeros does not change its reversal.
  lemma {:induction false} RevShift(w: nat, v: nat, m: nat, n: nat)
    requires m <= n && w == v * Pow2(n - m)
    ensures Rev(w, n) == Rev(v, m)
    decreases n
  {
    if m < n {
      DoubleOf(w, v, n - m);
      RevShift(w / 2, v, m, n - 1);
    }
  }

  lemma DoubleOf(w: nat, v: nat, n: nat)
    requires n > 0 && w == v * Pow2(n)
    ensures w % 2 == 0 && w / 2 == v * Pow2(n - 1)
  {
    assert w == 2 * (v * Pow2(n - 1));
  }

  // ------------------------------------------------------------ bit strings

  // The number a string spells, first bit least significant.
  function Val(bs: seq<bool>): (r: nat)
    ensures r < Pow2(|bs|)
  {
    if |bs| == 0 then 0 else (if bs[0] then 1 else 0) + 2 * Val(bs[1..])
  }

  function BitsOf(v: nat, n: nat): (bs: seq<bool>)
    ensures |bs| == n
  {
    if n == 0 then [] else [v % 2 == 1] + BitsOf(v / 2, n - 1)
  }

  lemma {:induction false} ValBitsOf(v: nat, n: nat)
    ensures Val(BitsOf(v, n)) == Lo(v, n)
  {
    if n > 0 {
      ValBitsOf(v / 2, n - 1);
      assert BitsOf(v, n)[1..] == BitsOf(v / 2, n - 1);
    }
  }

  lemma {:induction false} BitsOfVal(bs: seq<bool>)
    ensures BitsOf(Val(bs), |bs|) == bs
  {
    if |bs| > 0 {
      BitsOfVal(bs[1..]);
      assert Val(bs) / 2 == Val(bs[1..]);
    }
  }

  // The first n bits of a string spell the low n bits of its value, the rest the high part.
  lemma {:induction false} ValSplit(bs: seq<bool>, n: nat)
    requires n <= |bs|
    ensures Val(bs[..n]) == Lo(Val(bs), n)
    ensures Val(bs[n..]) == Hi(Val(bs), n)
  {
    if n > 0 {
      ValSplit(bs[1..], n - 1);
      assert bs[..n][1..] == bs[1..][..n - 1];
      assert bs[n..] == bs[1..][n - 1..];
      assert Val(bs) / 2 == Val(bs[1..]);
    }
  }

  lemma {:induction false} BitsOfLow(v: nat, n: nat)
    ensures BitsOf(Lo(v, n), n) == BitsOf(v, n)
  {
    ValBitsOf(v, n);
    BitsOfVal(BitsOf(v, n));
  }

  lemma {:induction false} BitsOfSplit(v: nat, m: nat, n: nat)
    requires m <= n
    ensures BitsOf(v, n) == BitsOf(v, m) + BitsOf(Hi(v, m), n - m)
    decreases m
  {
    if m > 0 { BitsOfSplit(v / 2, m - 1, n - 1); }
  }

  lemma AppendBits(b: nat, v: nat, x: nat, len: nat)
    requires b < Pow2(v)
    ensures BitsOf(b, v) + BitsOf(x, len) == BitsOf(Join(x, b, v), v + len)
  {
    var t := Join(x, b, v);
    LoOfJoin(x, b, v);
    BitsOfSplit(t, v, v + len);
    BitsOfLow(t, v);
  }

  lemma Assoc<T>(a: seq<T>, b: seq<T>, c: seq<T>)
    ensures (a + b) + c == a + (b + c)
  {}

  lemma ShorterSlice<T>(s: seq<T>, a: nat, len: nat, n: nat)
    requires n <= len && a + len <= |s|
    ensures s[a..a + n] == s[a..a + len][..n]
  {}

  lemma SliceOfTake<T>(s: seq<T>, k: nat, a: nat, b: nat)
    requires a <= b <= k <= |s|
    ensures s[..k][a..b] == s[a..b]
  {}

  lemma SliceOfDrop<T>(s: seq<T>, k: nat, a: nat, b: nat)
    requires a <= b && k + b <= |s|
    ensures s[k..][a..b] == s[k + a..k + b]
  {}

  // ------------------------------------------------------------ bytes

  function BytesToBits(bytes: seq<byte>): (bs: seq<bool>)
    ensures |bs| == 8 * |bytes|
  {
    if |bytes| == 0 then [] else BitsOf(bytes[0], 8) + BytesToBits(bytes[1..])
  }

  lemma {:induction false} BytesToBitsConcat(a: seq<byte>, b: seq<byte>)
    ensures BytesToBits(a + b) == BytesToBits(a) + BytesToBits(b)
  {
    if |a| == 0 {
      assert a + b == b;
    } else {
      assert (a + b)[1..] == a[1..] + b;
      BytesToBitsConcat(a[1..], b);
    }
  }
}
